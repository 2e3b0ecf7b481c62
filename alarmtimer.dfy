/**
 * The alarm timer's module state and its posix entry points: the two alarm
 * bases, the freezer delta left by sleeps interrupted by the freezer, and
 * the RTC that wakes the machine from suspend. Clock readings, the
 * capability check, wake-ups and user copies come in as parameters.
 */
module AlarmTimers {
  import opened Wrappers
  import opened Ktime
  import opened TimerQueue
  import opened Alarms
  import opened AlarmBases
  import opened WakePlan
  import opened Clocks
  import opened Errno
  import opened Sleep

  /** The RTC used for wake alarms: its current time in whole seconds and the instant its wake alarm is set for. */
  datatype Rtc = Rtc(seconds: int, alarm: Option<int>)

  /** What a sleeping caller meets: the clock reading at the start, the wake-ups, whether the freezer is running, the clock readings of the freezer and remaining-time steps, and whether the user copy succeeds. */
  datatype SleepEnv = SleepEnv(start: int, wakeups: seq<Wakeup>, freezing: bool, freezerNow: int, rmtpNow: int, copyOk: bool)

  const MIN_INTERVAL_NSEC: int := 100_000

  /**
   * alarm_timer_get: the interval is the alarm's period and the value its
   * expiry. Both come back normalised, and each converts back to the ktime
   * it was made from.
   */
  function TimerGet(a: Alarm): (s: ITimerSpec)
    ensures 0 <= s.interval.nsec < NSEC_PER_SEC && 0 <= s.value.nsec < NSEC_PER_SEC
    ensures 0 <= a.period < KTIME_SEC_MAX_NS ==> TimespecToKtime(s.interval) == a.period
    ensures 0 <= a.expires < KTIME_SEC_MAX_NS ==> TimespecToKtime(s.value) == a.expires
  {
    ITimerSpec(KtimeToTimespec(a.period), KtimeToTimespec(a.expires))
  }

  /** What alarm_timer_set leaves in an alarm: reading it back with alarm_timer_get gives the setting that was applied. */
  lemma TimerGetAfterSet(a: Alarm, s: ITimerSpec)
    requires TimespecValid(s.interval) && TimespecValid(s.value)
    requires s.interval.sec < KTIME_SEC_MAX && s.value.sec < KTIME_SEC_MAX
    ensures TimerGet(a.(expires := TimespecToKtime(s.value), period := TimespecToKtime(s.interval), enabled := true)) == s
  {
    TimespecRoundTrip(s.interval);
    TimespecRoundTrip(s.value);
  }

  /**
   * The interval clamp of alarm_timer_set as written: every interval under
   * 100 microseconds, zero included, becomes exactly 100 microseconds, and
   * every other interval passes unchanged; as a ktime the result is the
   * larger of the interval and 100 microseconds.
   */
  function ClampIntervalAsWritten(ts: Timespec): (r: Timespec)
    ensures TimespecValid(ts) ==> TimespecValid(r)
    ensures TimespecValid(ts) && TimespecToKtime(ts) < MIN_INTERVAL_NSEC ==> r == Timespec(0, MIN_INTERVAL_NSEC)
    ensures TimespecValid(ts) && TimespecToKtime(ts) >= MIN_INTERVAL_NSEC ==> r == ts
    ensures TimespecValid(ts) ==>
      TimespecToKtime(r) == if TimespecToKtime(ts) < MIN_INTERVAL_NSEC then MIN_INTERVAL_NSEC else TimespecToKtime(ts)
  {
    if ts.sec == 0 && ts.nsec < MIN_INTERVAL_NSEC then ts.(nsec := MIN_INTERVAL_NSEC) else ts
  }

  /**
   * As written, the clamp turns a one-shot timer (zero interval) into one
   * that re-fires every 100 microseconds, where the intended clamp keeps it
   * one-shot.
   */
  lemma ClampAsWrittenMakesOneShotPeriodic()
    ensures ClampIntervalAsWritten(Timespec(0, 0)) == Timespec(0, MIN_INTERVAL_NSEC)
    ensures TimespecToKtime(ClampIntervalAsWritten(Timespec(0, 0))) != 0
    ensures TimespecToKtime(ClampInterval(Timespec(0, 0))) == 0
  {
  }

  /**
   * The clamp as its purpose calls for: a periodic interval under 100
   * microseconds becomes exactly 100 microseconds; a zero interval stays
   * zero, so a one-shot timer stays one-shot; longer intervals are
   * untouched.
   */
  function ClampInterval(ts: Timespec): (r: Timespec)
    ensures TimespecValid(ts) ==> TimespecValid(r)
    ensures TimespecValid(ts) ==> (TimespecToKtime(r) == 0 <==> TimespecToKtime(ts) == 0)
    ensures TimespecValid(ts) && 0 < TimespecToKtime(ts) < MIN_INTERVAL_NSEC ==> r == Timespec(0, MIN_INTERVAL_NSEC)
    ensures TimespecValid(ts) && TimespecToKtime(r) != 0 ==> TimespecToKtime(r) >= MIN_INTERVAL_NSEC
    ensures TimespecValid(ts) && (TimespecToKtime(ts) == 0 || TimespecToKtime(ts) >= MIN_INTERVAL_NSEC) ==> r == ts
  {
    if ts.sec == 0 && ts.nsec == 0 then ts else ClampIntervalAsWritten(ts)
  }

  class AlarmTimer {
    /** alarm_bases, indexed by AlarmType.Index. */
    const bases: seq<AlarmBase>
    var freezerDelta: int
    /** The RTC device chosen for wake alarms, if there is one. */
    var rtc: Option<Rtc>

    ghost predicate Valid()
      reads this, bases
    {
      |bases| == 2 && bases[0] != bases[1] && bases[0].Valid() && bases[1].Valid()
    }

    function Base(t: AlarmType): AlarmBase
      requires |bases| == 2
    {
      bases[t.Index()]
    }

    /** The lead of each base's head against that base's clock reading, in base order. */
    function Leads(clocks: seq<int>): (r: seq<Option<int>>)
      requires |bases| == 2 && |clocks| == 2
      reads bases
    {
      [Lead(bases[0].queue, clocks[0]), Lead(bases[1].queue, clocks[1])]
    }

    /** Two empty bases, no freezer delta. */
    constructor(device: Option<Rtc>)
      ensures Valid() && fresh(bases[0]) && fresh(bases[1])
      ensures bases[0].queue == [] && bases[1].queue == [] && freezerDelta == 0 && rtc == device
    {
      var realtime := new AlarmBase();
      var boottime := new AlarmBase();
      bases := [realtime, boottime];
      freezerDelta := 0;
      rtc := device;
    }

    /**
     * alarmtimer_suspend: take the freezer delta and reset it, even when
     * there is no RTC. With an RTC, find the soonest lead over the freezer
     * delta and each base's head (clocks[i] is base i's clock reading) and,
     * unless it is zero, set the RTC's wake alarm that far past the RTC's
     * current time. The result is the warning raised for a lead under one
     * second.
     */
    method Suspend(clocks: seq<int>) returns (warned: bool)
      requires Valid() && |clocks| == 2
      modifies this
      ensures freezerDelta == 0
      ensures old(rtc).None? ==> rtc == None && !warned
      ensures old(rtc).Some? ==>
        var min := SoonestLead(old(freezerDelta), Leads(clocks));
        warned == (min != 0 && min < NSEC_PER_SEC) &&
        rtc == if min == 0 then old(rtc)
               else Some(old(rtc).value.(alarm := Some(old(rtc).value.seconds * NSEC_PER_SEC + min)))
    {
      var min := freezerDelta;
      freezerDelta := 0;
      warned := false;
      if rtc.None? {
        return;
      }
      ghost var leads := Leads(clocks);
      var i := 0;
      while i < 2
        invariant 0 <= i <= 2
        invariant min == SoonestLead(old(freezerDelta), leads[..i])
      {
        assert leads[..i + 1][..i] == leads[..i];
        var q := bases[i].queue;
        if q != [] {
          var delta := q[0].expires - clocks[i];
          if min == 0 || delta < min {
            min := delta;
          }
        }
        i := i + 1;
      }
      assert leads[..2] == leads;
      if min == 0 {
        return;
      }
      warned := min < NSEC_PER_SEC;
      var r := rtc.value;
      rtc := Some(r.(alarm := Some(r.seconds * NSEC_PER_SEC + min)));
    }

    /** alarmtimer_freezerset: keep the smaller lead until absexp (read against now), zero meaning none so far. */
    method FreezerSet(absexp: int, now: int)
      modifies this`freezerDelta
      ensures freezerDelta == MinStep(old(freezerDelta), Some(absexp - now))
    {
      var delta := absexp - now;
      if freezerDelta == 0 || delta < freezerDelta {
        freezerDelta := delta;
      }
    }

    /**
     * alarm_timer_create: -ENOTSUPP without an RTC, then -EPERM without the
     * wake-alarm capability, otherwise the timer's alarm is initialised in
     * the base of its clock with the posix timer callback.
     */
    method TimerCreate(clockid: int, capable: bool, id: AlarmId) returns (ret: int)
      requires Valid() && Clock2Alarm(clockid).Some?
      requires var b := Base(Clock2Alarm(clockid).value); id in b.alarms ==> !b.alarms[id].enabled
      modifies Base(Clock2Alarm(clockid).value)
      ensures Valid()
      ensures var b := Base(Clock2Alarm(clockid).value);
        if rtc.None? then ret == -ENOTSUPP && unchanged(b)
        else if !capable then ret == -EPERM && unchanged(b)
        else (ret == 0 && b.queue == old(b.queue) &&
              b.alarms == old(b.alarms)[id := Alarm(if id in old(b.alarms) then old(b.alarms)[id].expires else 0, 0, false, PosixTimerEvent)])
    {
      if rtc.None? {
        return -ENOTSUPP;
      }
      if !capable {
        return -EPERM;
      }
      var b := Base(Clock2Alarm(clockid).value);
      b.Init(id, PosixTimerEvent);
      ret := 0;
    }

    /**
     * alarm_timer_set: -ENOTSUPP without an RTC, leaving everything as it
     * was. Otherwise the interval is clamped as the code does (written
     * back into the caller's setting, returned as applied), the old
     * setting is read before the alarm is cancelled and started again at
     * the new value and interval. A zero interval thus comes out as a 100
     * microsecond period. flags is not consulted: the value is taken as an
     * absolute expiry.
     */
    method TimerSet(clockid: int, id: AlarmId, flags: int, setting: ITimerSpec, wantOld: bool)
      returns (ret: int, applied: ITimerSpec, oldSetting: Option<ITimerSpec>)
      requires Valid() && Clock2Alarm(clockid).Some?
      requires id in Base(Clock2Alarm(clockid).value).alarms
      requires TimespecValid(setting.interval) && TimespecValid(setting.value)
      modifies Base(Clock2Alarm(clockid).value)
      ensures Valid()
      ensures var b := Base(Clock2Alarm(clockid).value);
        if rtc.None? then ret == -ENOTSUPP && applied == setting && oldSetting == None && unchanged(b)
        else
          ret == 0 && applied == setting.(interval := ClampIntervalAsWritten(setting.interval)) &&
          oldSetting == (if wantOld then Some(TimerGet(old(b.alarms[id]))) else None) &&
          b.alarms == old(b.alarms)[id := old(b.alarms[id]).(expires := TimespecToKtime(applied.value),
                                                              period := TimespecToKtime(applied.interval), enabled := true)] &&
          b.queue == Insert(Delete(old(b.queue), id), Node(id, TimespecToKtime(applied.value))) &&
          (setting.interval == Timespec(0, 0) ==> b.alarms[id].period == MIN_INTERVAL_NSEC && b.alarms[id].enabled)
    {
      if rtc.None? {
        return -ENOTSUPP, setting, None;
      }
      applied := setting.(interval := ClampIntervalAsWritten(setting.interval));
      var b := Base(Clock2Alarm(clockid).value);
      oldSetting := None;
      if wantOld {
        oldSetting := Some(TimerGet(b.alarms[id]));
      }
      b.Cancel(id);
      b.Start(id, TimespecToKtime(applied.value), TimespecToKtime(applied.interval));
      Overwrite(old(b.alarms), id, old(b.alarms[id]).(enabled := false),
                old(b.alarms[id]).(expires := TimespecToKtime(applied.value), period := TimespecToKtime(applied.interval), enabled := true));
      ret := 0;
    }

    /**
     * alarm_timer_nsleep: -ENOTSUPP without an RTC, then -EPERM without the
     * capability. Otherwise a fresh alarm (id, on the caller's stack) is
     * initialised with the nsleep wake-up, the deadline made absolute, and
     * the caller sleeps. An interrupted sleep records its lead in the
     * freezer delta when the freezer is running; the result follows Outcome.
     */
    method Nsleep(clockid: int, flags: int, req: Timespec, rmtp: Option<UserPtr>, capable: bool,
                  id: AlarmId, env: SleepEnv) returns (r: SleepResult)
      requires Valid() && Clock2Alarm(clockid).Some? && TimespecValid(req) && 0 <= env.start <= KTIME_MAX
      requires id !in Base(Clock2Alarm(clockid).value).alarms
      requires rtc.Some? && capable ==> WakeTrace(env.wakeups, Deadline(flags, req, env.start))
      modifies this, Base(Clock2Alarm(clockid).value)
      ensures Valid() && rtc == old(rtc)
      ensures old(rtc).None? ==>
        r == SleepResult(-ENOTSUPP, None, None) && freezerDelta == old(freezerDelta) && unchanged(Base(Clock2Alarm(clockid).value))
      ensures old(rtc).Some? && !capable ==>
        r == SleepResult(-EPERM, None, None) && freezerDelta == old(freezerDelta) && unchanged(Base(Clock2Alarm(clockid).value))
      ensures old(rtc).Some? && capable ==> var b := Base(Clock2Alarm(clockid).value);
        id in b.alarms && !b.alarms[id].enabled && id !in Ids(b.queue) && b.alarms.Keys == old(b.alarms).Keys + {id} &&
        ((forall k :: 0 <= k < |env.wakeups| ==> env.wakeups[k].firedAt.None?) ==>
           b.queue == old(b.queue) && forall k :: k in old(b.alarms) ==> b.alarms[k] == old(b.alarms)[k])
      ensures old(rtc).Some? && capable ==>
        var kind := Clock2Alarm(clockid).value;
        var exp := Deadline(flags, req, env.start);
        var slept := Clears(env.wakeups[|env.wakeups| - 1], exp);
        r == Outcome(slept, flags == TIMER_ABSTIME, kind, exp, rmtp, env.rmtpNow, env.copyOk) &&
        freezerDelta == (if !slept && env.freezing then MinStep(old(freezerDelta), Some(exp - env.freezerNow)) else old(freezerDelta))
    {
      var kind := Clock2Alarm(clockid).value;
      if rtc.None? {
        return SleepResult(-ENOTSUPP, None, None);
      }
      if !capable {
        return SleepResult(-EPERM, None, None);
      }
      var exp := Deadline(flags, req, env.start);
      r := SleepFor(kind, id, exp, flags == TIMER_ABSTIME, rmtp, env);
    }

    /**
     * alarm_timer_nsleep_restart: sleep again until the expiry kept in the
     * restart block, on a fresh alarm, and report as a relative sleep does;
     * the block itself is left as it is.
     */
    method NsleepRestart(restart: RestartBlock, id: AlarmId, env: SleepEnv) returns (r: SleepResult)
      requires Valid() && id !in Base(restart.kind).alarms
      requires WakeTrace(env.wakeups, restart.expires)
      modifies this, Base(restart.kind)
      ensures Valid() && rtc == old(rtc)
      ensures var b := Base(restart.kind);
        id in b.alarms && !b.alarms[id].enabled && id !in Ids(b.queue) && b.alarms.Keys == old(b.alarms).Keys + {id} &&
        ((forall k :: 0 <= k < |env.wakeups| ==> env.wakeups[k].firedAt.None?) ==>
           b.queue == old(b.queue) && forall k :: k in old(b.alarms) ==> b.alarms[k] == old(b.alarms)[k])
      ensures var slept := Clears(env.wakeups[|env.wakeups| - 1], restart.expires);
        r == Outcome(slept, false, restart.kind, restart.expires, restart.rmtp, env.rmtpNow, env.copyOk) &&
        freezerDelta == (if !slept && env.freezing then MinStep(old(freezerDelta), Some(restart.expires - env.freezerNow)) else old(freezerDelta))
    {
      r := SleepFor(restart.kind, id, restart.expires, false, restart.rmtp, env);
    }

    /** The part both sleep entry points share, from alarm_init on the stack alarm to the return code. */
    method SleepFor(kind: AlarmType, id: AlarmId, exp: int, abs: bool, rmtp: Option<UserPtr>, env: SleepEnv)
      returns (r: SleepResult)
      requires Valid() && id !in Base(kind).alarms
      requires WakeTrace(env.wakeups, exp)
      modifies this, Base(kind)
      ensures Valid() && rtc == old(rtc)
      ensures var b := Base(kind);
        id in b.alarms && !b.alarms[id].enabled && id !in Ids(b.queue) && b.alarms.Keys == old(b.alarms).Keys + {id} &&
        ((forall k :: 0 <= k < |env.wakeups| ==> env.wakeups[k].firedAt.None?) ==>
           b.queue == old(b.queue) && forall k :: k in old(b.alarms) ==> b.alarms[k] == old(b.alarms)[k])
      ensures var slept := Clears(env.wakeups[|env.wakeups| - 1], exp);
        r == Outcome(slept, abs, kind, exp, rmtp, env.rmtpNow, env.copyOk) &&
        freezerDelta == (if !slept && env.freezing then MinStep(old(freezerDelta), Some(exp - env.freezerNow)) else old(freezerDelta))
    {
      var b := Base(kind);
      var slept := b.Nsleep(id, exp, env.wakeups);
      if slept {
        return SleepResult(0, None, None);
      }
      if env.freezing {
        FreezerSet(exp, env.freezerNow);
      }
      if abs {
        return SleepResult(-ERESTARTNOHAND, None, None);
      }
      var written := None;
      if rmtp.Some? {
        var u := UpdateRmtp(exp, env.rmtpNow, env.copyOk);
        if u.ret <= 0 {
          return SleepResult(u.ret, None, None);
        }
        written := u.written;
      }
      r := SleepResult(-ERESTART_RESTARTBLOCK, written, Some(NanosleepRestart(kind, exp, rmtp)));
    }
  }
}
