/**
 * One alarm base (struct alarm_base): the timerqueue of its enabled alarms,
 * the hrtimer that fires the dispatcher, and the alarm records linked into
 * it. Alarms are named by id; the record an id names is the struct alarm
 * whose type selects this base. Each entry point runs under the base lock
 * in the kernel and is atomic here.
 */
module AlarmBases {
  import opened Wrappers
  import opened TimerQueue
  import opened Alarms

  /** What the hrtimer callback tells the hrtimer core. */
  datatype HrtimerRestart = NoRestart | Restart

  /** Where the base's hrtimer must be armed for queue q: at the head's expiry, or not at all. */
  function HeadExpiry(q: seq<Node>): (r: Option<int>)
    ensures r.None? <==> q == []
    ensures r.Some? ==> exists n :: n in q && n.expires == r.value
  {
    if q == [] then None else assert q[0] in q; Some(q[0].expires)
  }

  /**
   * In an ordered queue, HeadExpiry is the earliest queued expiry: idle
   * exactly when nothing is queued, and otherwise the expiry of some
   * queued node that no other queued node precedes.
   */
  lemma ArmedAtEarliest(q: seq<Node>, t: Option<int>)
    requires Sorted(q)
    ensures t == HeadExpiry(q) <==>
      (t.None? <==> q == []) &&
      (t.Some? ==> (exists n :: n in q && n.expires == t.value) && forall n :: n in q ==> t.value <= n.expires)
  {
    if t.Some? && q != [] && (exists n :: n in q && n.expires == t.value) && (forall n :: n in q ==> t.value <= n.expires) {
      assert q[0] in q;
      var n :| n in q && n.expires == t.value;
      var i :| 0 <= i < |q| && q[i] == n;
      assert q[0].expires <= q[i].expires;
    }
    if t == HeadExpiry(q) && q != [] {
      assert q[0] in q;
      forall n | n in q ensures q[0].expires <= n.expires {
        var i :| 0 <= i < |q| && q[i] == n;
      }
    }
  }

  /** One wake-up of a task sleeping in alarmtimer_do_nsleep: the base's hrtimer may have run the dispatcher at firedAt, and a signal may be pending. */
  datatype Wakeup = Wakeup(firedAt: Option<int>, signalled: bool)

  /** The wake-up runs the dispatcher late enough to fire the sleeper's alarm at absexp. */
  predicate Clears(w: Wakeup, absexp: int) {
    w.firedAt.Some? && absexp <= w.firedAt.value
  }

  /** The wake-up ends the sleep loop: the alarm fired or a signal is pending. */
  predicate Ends(w: Wakeup, absexp: int) {
    Clears(w, absexp) || w.signalled
  }

  /** A sleep that ends: every wake-up but the last sends the task back to sleep. */
  ghost predicate WakeTrace(w: seq<Wakeup>, absexp: int) {
    |w| > 0 && Ends(w[|w| - 1], absexp) &&
    forall k :: 0 <= k < |w| - 1 ==> !Ends(w[k], absexp)
  }

  /**
   * The sleep loop of alarmtimer_do_nsleep after i wake-ups: the task is
   * still waiting unless the last wake-up fired its alarm, and it goes
   * round again unless that wake-up ended the sleep.
   */
  predicate SleepLoop(w: seq<Wakeup>, absexp: int, i: int, waiting: bool, again: bool) {
    0 <= i <= |w| && (i == 0 ==> again) && (again ==> waiting && i < |w|) &&
    (0 < i ==> waiting == !Clears(w[i - 1], absexp) && again == !Ends(w[i - 1], absexp))
  }

  class AlarmBase {
    var queue: seq<Node>
    /** The hrtimer: the instant it is armed at, or None when it is idle. */
    var armedAt: Option<int>
    var alarms: map<AlarmId, Alarm>

    /** The queue is well formed and the hrtimer follows its head. */
    ghost predicate QueueOk()
      reads this
    {
      Sorted(queue) && Distinct(queue) && armedAt == HeadExpiry(queue)
    }

    ghost predicate Valid()
      reads this
    {
      Linked(queue, alarms) && armedAt == HeadExpiry(queue)
    }

    /** Since the state q0, A0: the queue is the same and no alarm but id changed. */
    ghost predicate OthersKept(q0: seq<Node>, A0: map<AlarmId, Alarm>, id: AlarmId)
      reads this
    {
      queue == q0 && forall k :: k in alarms && k != id ==> k in A0 && alarms[k] == A0[k]
    }

    /** timerqueue_init_head and hrtimer_init: an empty base with an idle hrtimer. */
    constructor()
      ensures Valid() && queue == [] && armedAt == None && alarms == map[]
    {
      queue := [];
      armedAt := None;
      alarms := map[];
    }

    /** alarmtimer_enqueue: link the alarm at its expiry, re-arming the hrtimer if it became the head. */
    method Enqueue(id: AlarmId)
      requires QueueOk() && id in alarms && id !in Ids(queue)
      modifies this`queue, this`armedAt
      ensures queue == Insert(old(queue), Node(id, alarms[id].expires))
      ensures QueueOk() && id in Ids(queue)
      ensures queue[0].id != id ==> armedAt == old(armedAt)
    {
      var n := Node(id, alarms[id].expires);
      InsertSorted(queue, n);
      InsertDistinct(queue, n);
      queue := Insert(queue, n);
      if queue[0].id == id {
        armedAt := Some(n.expires);
      }
      assert queue[0] in multiset(queue);
    }

    /** alarmtimer_remove: unlink the alarm; only when it was the head is the hrtimer moved to the new head, or left idle. */
    method Remove(id: AlarmId)
      requires QueueOk()
      modifies this`queue, this`armedAt
      ensures queue == Delete(old(queue), id)
      ensures QueueOk() && id !in Ids(queue)
      ensures old(queue) != [] && old(queue)[0].id != id ==> armedAt == old(armedAt)
    {
      var next := if queue == [] then None else Some(queue[0]);
      DeleteSorted(queue, id);
      DeleteDistinct(queue, id);
      queue := Delete(queue, id);
      if next.Some? && next.value.id == id {
        armedAt := None;
        if queue != [] {
          armedAt := Some(queue[0].expires);
        }
      }
    }

    /**
     * alarm_init: the record gets a zero period, the callback and a cleared
     * enabled flag; the expiry field is left as it was (zero for a record
     * that did not exist). The alarm must not be queued.
     */
    method Init(id: AlarmId, callback: Callback)
      requires Valid() && (id in alarms ==> !alarms[id].enabled)
      modifies this`alarms
      ensures Valid()
      ensures alarms == old(alarms)[id := Alarm(if id in old(alarms) then old(alarms)[id].expires else 0, 0, false, callback)]
    {
      var e := if id in alarms then alarms[id].expires else 0;
      alarms := alarms[id := Alarm(e, 0, false, callback)];
      assert forall n :: n in queue ==> n.id != id;
    }

    /**
     * alarm_start: unlink the alarm if it is live, set its expiry and
     * period, link it again and mark it enabled. Whatever its state before,
     * it ends up queued exactly once at start, and no other alarm moves.
     */
    method Start(id: AlarmId, start: int, period: int)
      requires Valid() && id in alarms && period >= 0
      modifies this
      ensures Valid()
      ensures alarms == old(alarms)[id := old(alarms)[id].(expires := start, period := period, enabled := true)]
      ensures alarms.Keys == old(alarms).Keys
      ensures queue == Insert(if old(alarms)[id].enabled then Delete(old(queue), id) else old(queue), Node(id, start))
      ensures id in Ids(queue) && forall n :: n in queue && n.id == id ==> n == Node(id, start)
      ensures Delete(queue, id) == Delete(old(queue), id)
    {
      ghost var q0, A0 := queue, alarms;
      var a := alarms[id];
      if a.enabled {
        Remove(id);
      } else {
        LinkedCancel(queue, alarms, id);
      }
      var a' := a.(expires := start, period := period);
      alarms := alarms[id := a'];
      Enqueue(id);
      alarms := alarms[id := a'.(enabled := true)];
      ghost var A1: map<AlarmId, Alarm> := A0[id := a'];
      assert alarms == A1[id := a'.(enabled := true)];
      Overwrite(A0, id, a', a'.(enabled := true));
      KeysKept(A0, id, a'.(enabled := true));
      LinkedRestart(q0, A0, id, start, period);
    }

    /**
     * alarm_cancel: unlink the alarm if it is live and mark it disabled.
     * Cancelling an alarm that is not live changes nothing, so a second
     * cancel is a no-op; no other alarm moves.
     */
    method Cancel(id: AlarmId)
      requires Valid() && id in alarms
      modifies this
      ensures Valid()
      ensures alarms == old(alarms)[id := old(alarms)[id].(enabled := false)]
      ensures alarms.Keys == old(alarms).Keys
      ensures queue == Delete(old(queue), id) && id !in Ids(queue)
      ensures old(queue) != [] && old(queue)[0].id != id ==> armedAt == old(armedAt)
      ensures !old(alarms)[id].enabled ==> queue == old(queue) && armedAt == old(armedAt) && alarms == old(alarms)
    {
      LinkedCancel(queue, alarms, id);
      KeysKept(alarms, id, alarms[id].(enabled := false));
      if alarms[id].enabled {
        Remove(id);
      }
      alarms := alarms[id := alarms[id].(enabled := false)];
    }

    /**
     * The body of the dispatcher loop for a due head: unlink it and disable
     * it; a periodic alarm is linked again one period after the expiry it
     * fired for and stays enabled; a callback, if any, is logged.
     */
    method ExpireHead(log: seq<Firing>) returns (log': seq<Firing>)
      requires queue != [] && queue[0].id in alarms
      modifies this`queue, this`alarms
      ensures PoppedAndRequeued(old(queue), old(alarms), queue, alarms)
      ensures log' == if old(alarms)[old(queue)[0].id].callback != NoCallback
                      then log + [Firing(old(queue)[0].id, old(queue)[0].expires)] else log
    {
      var next := queue[0];
      var expired := next.expires;
      var id := next.id;
      var a := alarms[id];
      log' := log;
      if a.callback != NoCallback {
        log' := log + [Firing(id, expired)];
      }
      // Dequeue and disable; a periodic alarm is then re-enabled and
      // enqueued again one period after the expiry it fired for.
      var q' := Delete(queue, id);
      var a' := a.(enabled := false);
      if a.period != 0 {
        q' := Insert(q', Node(id, expired + a.period));
        a' := a.(expires := expired + a.period);
      }
      queue, alarms := q', alarms[id := a'];
    }

    /**
     * The loop of alarmtimer_fired: while the head of the queue is due at
     * now, expire it. Every turn keeps the dispatch invariant and the
     * account of each alarm's invocations, and the loop stops at an empty
     * queue or a head later than now.
     */
    method ExpireDue(now: int, ghost A0: map<AlarmId, Alarm>) returns (log: seq<Firing>)
      requires Linked(queue, alarms) && alarms == A0
      modifies this`queue, this`alarms
      ensures DispatchInv(A0, queue, alarms, log, now) && LogAccounts(A0, alarms, log, now)
      ensures queue == [] || now < queue[0].expires
    {
      log := [];
      DispatchStart(queue, alarms, now);
      AccountStart(alarms, now);
      while queue != [] && queue[0].expires <= now
        invariant DispatchInv(A0, queue, alarms, log, now) && LogAccounts(A0, alarms, log, now)
        decreases Backlog(queue, now)
      {
        ghost var q, A, l := queue, alarms, log;
        log := ExpireHead(log);
        DispatchAccount(A0, q, A, l, now, queue, alarms, log);
      }
    }

    /**
     * alarmtimer_fired: pop every alarm due at now in expiry order, disable
     * it, re-add a periodic one one period after the expiry it fired for,
     * and run its callback (recorded in log). Then re-arm the hrtimer at the
     * new head and ask for a restart, or leave it idle when nothing is left.
     */
    method Fired(now: int) returns (ret: HrtimerRestart, log: seq<Firing>)
      requires Valid()
      modifies this
      ensures Valid()
      ensures ret == Restart <==> queue != []
      ensures forall n :: n in queue ==> now < n.expires
      ensures alarms.Keys == old(alarms).Keys
      ensures forall id :: id in alarms ==> Dispatched(old(alarms)[id], alarms[id], now)
      ensures Ordered(log) && forall i :: 0 <= i < |log| ==> FiredFrom(old(alarms), log[i], now)
      ensures forall id :: id in old(alarms) && IsDue(old(alarms)[id], now) && old(alarms)[id].callback != NoCallback ==>
                Firing(id, old(alarms)[id].expires) in log
      ensures forall id :: id in old(alarms) ==> Project(log, id) == Pending(old(alarms)[id], now)
    {
      ghost var A0 := alarms;
      log := ExpireDue(now, A0);
      if queue != [] {
        armedAt := Some(queue[0].expires);
        ret := Restart;
      } else {
        armedAt := None;
        ret := NoRestart;
      }
      DispatchDone(A0, queue, alarms, log, now);
      AccountDone(A0, alarms, log, now);
    }

    /**
     * alarmtimer_do_nsleep for a freshly initialised alarm whose callback is
     * the nsleep wake-up: start it as a one-shot alarm at absexp and sleep.
     * A wake-up may run the dispatcher, whose callback clears the waiting
     * flag when it fires this alarm, and may bring a signal. The alarm is
     * cancelled after every wake-up, and the loop goes round again while the
     * alarm has not fired and no signal is pending. The result is whether
     * the alarm fired.
     */
    method DoNsleep(id: AlarmId, absexp: int, wakeups: seq<Wakeup>) returns (slept: bool)
      requires Valid() && id in alarms && alarms[id].callback == NsleepWakeup && !alarms[id].enabled
      requires WakeTrace(wakeups, absexp)
      modifies this
      ensures Valid() && alarms.Keys == old(alarms).Keys
      ensures !alarms[id].enabled && id !in Ids(queue) && alarms[id].callback == NsleepWakeup
      ensures slept <==> Clears(wakeups[|wakeups| - 1], absexp)
      ensures (forall k :: 0 <= k < |wakeups| ==> wakeups[k].firedAt.None?) ==> OthersKept(old(queue), old(alarms), id)
    {
      LinkedCancel(queue, alarms, id);
      var waiting := true;
      var again := true;
      var i := 0;
      while again
        invariant Valid() && alarms.Keys == old(alarms).Keys
        invariant id in alarms && !alarms[id].enabled && id !in Ids(queue) && alarms[id].callback == NsleepWakeup
        invariant SleepLoop(wakeups, absexp, i, waiting, again)
        invariant (forall k :: 0 <= k < i ==> wakeups[k].firedAt.None?) ==> OthersKept(old(queue), old(alarms), id)
        decreases |wakeups| - i
      {
        var w := wakeups[i];
        var fired := SleepOnce(id, absexp, w);
        if fired {
          waiting := false;
        }
        again := waiting && !w.signalled;
        i := i + 1;
      }
      slept := !waiting;
    }

    /**
     * The sleep of the nsleep entry points on the stack alarm id, which is
     * not yet in the base: alarm_init with the nsleep wake-up, then
     * alarmtimer_do_nsleep until absexp. The alarm is left initialised,
     * disabled and unqueued; without any dispatch the queue and every
     * other alarm are as they were.
     */
    method Nsleep(id: AlarmId, absexp: int, wakeups: seq<Wakeup>) returns (slept: bool)
      requires Valid() && id !in alarms
      requires WakeTrace(wakeups, absexp)
      modifies this
      ensures Valid() && id in alarms && alarms.Keys == old(alarms).Keys + {id}
      ensures !alarms[id].enabled && id !in Ids(queue) && alarms[id].callback == NsleepWakeup
      ensures slept <==> Clears(wakeups[|wakeups| - 1], absexp)
      ensures (forall k :: 0 <= k < |wakeups| ==> wakeups[k].firedAt.None?) ==>
                queue == old(queue) && forall k :: k in old(alarms) ==> alarms[k] == old(alarms)[k]
    {
      Init(id, NsleepWakeup);
      ghost var q1, A1 := queue, alarms;
      slept := DoNsleep(id, absexp, wakeups);
      assert (forall k :: 0 <= k < |wakeups| ==> wakeups[k].firedAt.None?) ==> OthersKept(q1, A1, id);
    }

    /**
     * One pass of the sleep loop: start the alarm, let wake-up w happen,
     * cancel the alarm. The result says whether the dispatcher fired it.
     */
    method SleepOnce(id: AlarmId, absexp: int, w: Wakeup) returns (fired: bool)
      requires Valid() && id in alarms && !alarms[id].enabled && id !in Ids(queue) && alarms[id].callback == NsleepWakeup
      modifies this
      ensures Valid() && alarms.Keys == old(alarms).Keys
      ensures !alarms[id].enabled && id !in Ids(queue) && alarms[id].callback == NsleepWakeup
      ensures fired <==> Clears(w, absexp)
      ensures w.firedAt.None? ==> OthersKept(old(queue), old(alarms), id)
    {
      Start(id, absexp, 0);
      fired := false;
      if w.firedAt.Some? {
        var now := w.firedAt.value;
        ghost var A := alarms;
        var _, log := Fired(now);
        fired := Mentions(log, id);
        FiredMentions(A, log, id, now);
        assert Dispatched(A[id], alarms[id], now);
      }
      Cancel(id);
      if w.firedAt.None? {
        DeleteAbsent(old(queue), id);
      }
    }
  }
}
