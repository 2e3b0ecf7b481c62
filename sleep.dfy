/**
 * What clock_nanosleep on an alarm clock computes around the sleep
 * itself: the absolute deadline, the remaining time written back to user
 * space, the restart block and the return code.
 */
module Sleep {
  import opened Wrappers
  import opened Ktime
  import opened Clocks
  import opened Errno

  const TIMER_ABSTIME: int := 1

  /** A user-space address a remaining time can be copied to. */
  type UserPtr = nat

  /** What update_rmtp returns and what it copied out, if anything. */
  datatype RmtpUpdate = RmtpUpdate(ret: int, written: Option<Timespec>)

  /**
   * update_rmtp: the time left until exp at clock reading now. Nothing is
   * left: 0 and no copy. Otherwise the remainder is copied out and the
   * result is 1, or -EFAULT when the copy fails (copyOk is the copy's
   * outcome). The copied timespec converts back to the remainder.
   */
  function UpdateRmtp(exp: int, now: int, copyOk: bool): (r: RmtpUpdate)
    ensures r.ret == 0 <==> exp <= now
    ensures r.ret == 1 <==> now < exp && copyOk
    ensures r.ret == -EFAULT <==> now < exp && !copyOk
    ensures r.written.Some? <==> r.ret == 1
    ensures r.written.Some? ==> TimespecValid(r.written.value)
    ensures r.written.Some? && exp - now < KTIME_SEC_MAX_NS ==> TimespecToKtime(r.written.value) == exp - now
  {
    var rem := exp - now;
    if rem <= 0 then RmtpUpdate(0, None)
    else if !copyOk then RmtpUpdate(-EFAULT, None)
    else RmtpUpdate(1, Some(KtimeToTimespec(rem)))
  }

  /**
   * The absolute expiry of a sleep request: the request itself with
   * TIMER_ABSTIME, otherwise the clock reading now plus the request with
   * ktime_add_safe, exact until it would overflow and KTIME_MAX after. A
   * relative sleep never ends before it starts.
   */
  function Deadline(flags: int, req: Timespec, now: int): (exp: int)
    requires TimespecValid(req) && 0 <= now <= KTIME_MAX
    ensures 0 <= exp <= KTIME_MAX
    ensures flags == TIMER_ABSTIME ==> exp == TimespecToKtime(req)
    ensures flags != TIMER_ABSTIME && now + TimespecToKtime(req) <= KTIME_MAX ==> exp == now + TimespecToKtime(req)
    ensures flags != TIMER_ABSTIME && now + TimespecToKtime(req) > KTIME_MAX ==> exp == KTIME_MAX
    ensures flags != TIMER_ABSTIME ==> now <= exp
  {
    var exp := TimespecToKtime(req);
    if flags != TIMER_ABSTIME then
      AddSafeExact(now, exp);
      AddSafe(now, exp)
    else exp
  }

  /** restart_block.nanosleep as the alarm timer fills it: the alarm type, the absolute expiry, the user pointer. */
  datatype RestartBlock = NanosleepRestart(kind: AlarmType, expires: int, rmtp: Option<UserPtr>)

  /** The return code, the remaining time copied out, and the restart block set up, if any. */
  datatype SleepResult = SleepResult(ret: int, written: Option<Timespec>, restart: Option<RestartBlock>)

  /**
   * The tail of alarm_timer_nsleep (abs tells TIMER_ABSTIME mode) and of
   * alarm_timer_nsleep_restart (never absolute) once the sleep loop ended.
   * Woken by the alarm: 0. Interrupted in absolute mode: -ERESTARTNOHAND,
   * nothing copied, no restart. Interrupted in relative mode: update_rmtp's
   * result when it is not positive; otherwise a restart block holding the
   * same absolute expiry, and -ERESTART_RESTARTBLOCK.
   */
  function Outcome(slept: bool, abs: bool, kind: AlarmType, exp: int, rmtp: Option<UserPtr>,
                   now: int, copyOk: bool): (r: SleepResult)
    ensures slept ==> r == SleepResult(0, None, None)
    ensures !slept && abs ==> r == SleepResult(-ERESTARTNOHAND, None, None)
    ensures r.ret == 0 <==> slept || (!abs && rmtp.Some? && exp <= now)
    ensures r.ret == -EFAULT <==> !slept && !abs && rmtp.Some? && now < exp && !copyOk
    ensures r.restart.Some? <==> r.ret == -ERESTART_RESTARTBLOCK
    ensures r.restart.Some? <==> !slept && !abs && (rmtp.None? || (now < exp && copyOk))
    ensures r.restart.Some? ==> r.restart.value == NanosleepRestart(kind, exp, rmtp)
    ensures r.written.Some? <==> !slept && !abs && rmtp.Some? && now < exp && copyOk
    ensures r.written.Some? ==> r.written == UpdateRmtp(exp, now, copyOk).written
  {
    if slept then SleepResult(0, None, None)
    else if abs then SleepResult(-ERESTARTNOHAND, None, None)
    else if rmtp.Some? && UpdateRmtp(exp, now, copyOk).ret <= 0 then SleepResult(UpdateRmtp(exp, now, copyOk).ret, None, None)
    else
      var written := if rmtp.Some? then UpdateRmtp(exp, now, copyOk).written else None;
      SleepResult(-ERESTART_RESTARTBLOCK, written, Some(NanosleepRestart(kind, exp, rmtp)))
  }
}
