/**
 * The alarm record and the dispatcher's reasoning about it, on values.
 * An alarm (struct alarm) carries its expiry (node.expires), its period
 * (zero for a one-shot alarm), whether it is linked into its base's queue
 * (enabled) and the callback run when it fires.
 */
module Alarms {
  import opened TimerQueue

  /** The callbacks the alarm timer code binds: none, the posix timer event, the nanosleep wakeup. */
  datatype Callback = NoCallback | PosixTimerEvent | NsleepWakeup

  datatype Alarm = Alarm(expires: int, period: int, enabled: bool, callback: Callback)

  /** One callback invocation by the dispatcher: which alarm, for which expiry. */
  datatype Firing = Firing(id: AlarmId, expired: int)

  predicate IsDue(a: Alarm, now: int) {
    a.enabled && a.expires <= now
  }

  /**
   * The queue and the alarm table agree: the queue is ordered and links each
   * alarm at most once, a queued node carries its alarm's expiry, an alarm
   * is enabled exactly when it is queued, and no period is negative (the
   * dispatcher loop only ends when every non-zero period is positive).
   */
  ghost predicate Linked(q: seq<Node>, alarms: map<AlarmId, Alarm>) {
    Sorted(q) && Distinct(q) &&
    (forall n :: n in q ==> n.id in alarms && alarms[n.id].enabled && alarms[n.id].expires == n.expires) &&
    (forall id :: id in alarms && alarms[id].enabled ==> id in Ids(q)) &&
    (forall id :: id in alarms ==> alarms[id].period >= 0)
  }

  /**
   * Where a periodic alarm that was due at expires ends up once the
   * dispatcher has run at now: re-armed period after period from its own
   * expiry (not from now), until the first expiry later than now.
   */
  function NextExpiry(expires: int, period: int, now: int): (r: int)
    requires period > 0
    ensures expires <= r && now < r
    ensures expires <= now ==> r - period <= now
    decreases now - expires
  {
    if now < expires then expires else NextExpiry(expires + period, period, now)
  }

  /** NextExpiry only ever adds whole periods to the expiry: there is no drift. */
  lemma {:induction false} NextExpiryOnGrid(expires: int, period: int, now: int)
    requires period > 0
    ensures exists k: nat :: NextExpiry(expires, period, now) == expires + k * period
    decreases now - expires
  {
    if now >= expires {
      NextExpiryOnGrid(expires + period, period, now);
      var k: nat :| NextExpiry(expires + period, period, now) == expires + period + k * period;
      assert expires + period + k * period == expires + (k + 1) * period;
    } else {
      assert NextExpiry(expires, period, now) == expires + 0 * period;
    }
  }

  /** An alarm's state part-way through the dispatcher loop, against its state b when the loop began. */
  ghost predicate InFlight(b: Alarm, a: Alarm, now: int) {
    a.period == b.period && a.callback == b.callback &&
    if !IsDue(b, now) then a == b
    else if b.period == 0 then a == b || a == b.(enabled := false)
    else b.period > 0 && a.enabled && b.expires <= a.expires && a == b.(expires := a.expires) &&
         NextExpiry(a.expires, a.period, now) == NextExpiry(b.expires, b.period, now)
  }

  /**
   * An alarm's state after the dispatcher ran at now, against its state b
   * before: not due means untouched; a due one-shot alarm is disabled; a
   * due periodic alarm stays enabled at its next expiry after now.
   */
  ghost predicate Dispatched(b: Alarm, a: Alarm, now: int) {
    if !IsDue(b, now) then a == b
    else if b.period == 0 then a == b.(enabled := false)
    else b.period > 0 && a == b.(expires := NextExpiry(b.expires, b.period, now))
  }

  /** A logged firing belongs to an alarm that was queued and due at entry, at or after its entry expiry. */
  ghost predicate FiredFrom(A0: map<AlarmId, Alarm>, f: Firing, now: int) {
    f.id in A0 && A0[f.id].enabled && A0[f.id].callback != NoCallback &&
    A0[f.id].expires <= f.expired <= now
  }

  ghost predicate Ordered(log: seq<Firing>) {
    forall i, j :: 0 <= i < j < |log| ==> log[i].expired <= log[j].expired
  }

  /** The dispatcher loop's invariant, against the alarm table A0 at entry. */
  ghost predicate DispatchInv(A0: map<AlarmId, Alarm>, q: seq<Node>, A: map<AlarmId, Alarm>,
                              log: seq<Firing>, now: int)
  {
    Linked(q, A) && A.Keys == A0.Keys &&
    (forall id :: id in A ==> InFlight(A0[id], A[id], now)) &&
    Ordered(log) &&
    (forall i :: 0 <= i < |log| ==> FiredFrom(A0, log[i], now)) &&
    (log != [] ==> forall n :: n in q ==> log[|log| - 1].expired <= n.expires) &&
    (forall id :: id in A0 && IsDue(A0[id], now) && A0[id].callback != NoCallback ==>
       (A[id].enabled && A[id].expires == A0[id].expires) || Firing(id, A0[id].expires) in log)
  }

  lemma DispatchStart(q: seq<Node>, A: map<AlarmId, Alarm>, now: int)
    requires Linked(q, A)
    ensures DispatchInv(A, q, A, [], now)
  {
  }

  /** The queue and table after one turn of the dispatcher loop, from those before it. */
  ghost predicate PoppedAndRequeued(q: seq<Node>, A: map<AlarmId, Alarm>, q': seq<Node>, A': map<AlarmId, Alarm>)
    requires q != [] && q[0].id in A
  {
    var h := q[0];
    var a := A[h.id];
    if a.period != 0 then
      A' == A[h.id := a.(expires := h.expires + a.period)] && q' == Insert(Delete(q, h.id), Node(h.id, h.expires + a.period))
    else
      A' == A[h.id := a.(enabled := false)] && q' == Delete(q, h.id)
  }

  /** Unlinking a queued alarm and disabling it keeps queue and table in agreement. */
  lemma LinkedUnlink(q: seq<Node>, A: map<AlarmId, Alarm>, id: AlarmId, r: seq<Node>, A': map<AlarmId, Alarm>)
    requires Linked(q, A) && id in Ids(q) && id in A
    requires r == Delete(q, id) && A' == A[id := A[id].(enabled := false)]
    ensures Linked(r, A')
  {
    DeleteSorted(q, id);
    DeleteDistinct(q, id);
    forall n | n in r ensures n.id in A' && A'[n.id].enabled && A'[n.id].expires == n.expires {
      assert multiset(r) <= multiset(q);
      assert n in multiset(r);
      assert n.id in Ids(r);
    }
    forall k | k in A' && A'[k].enabled ensures k in Ids(r) {
      assert k in Ids(q);
    }
  }

  /** Linking a disabled alarm as record a (enabled, at a.expires) keeps queue and table in agreement. */
  lemma LinkedLink(q: seq<Node>, A: map<AlarmId, Alarm>, id: AlarmId, a: Alarm, r: seq<Node>, A': map<AlarmId, Alarm>)
    requires Linked(q, A) && id in A && !A[id].enabled
    requires a.enabled && a.period >= 0
    requires r == Insert(q, Node(id, a.expires)) && A' == A[id := a]
    ensures id !in Ids(q)
    ensures Linked(r, A')
  {
    var m := Node(id, a.expires);
    assert id !in Ids(q);
    InsertSorted(q, m);
    InsertDistinct(q, m);
    forall n | n in r ensures n.id in A' && A'[n.id].enabled && A'[n.id].expires == n.expires {
      assert n in multiset(r);
      if n != m {
        assert n in q && n.id in Ids(q);
      }
    }
    forall k | k in A' && A'[k].enabled ensures k in Ids(r) {
      if k != id {
        assert k in Ids(q);
      }
    }
  }

  /** alarm_cancel on values: the alarm ends up disabled and unlinked; a disabled alarm was not linked, so nothing changes. */
  lemma LinkedCancel(q: seq<Node>, A: map<AlarmId, Alarm>, id: AlarmId)
    requires Linked(q, A) && id in A
    ensures Linked(Delete(q, id), A[id := A[id].(enabled := false)]) && id !in Ids(Delete(q, id))
    ensures !A[id].enabled ==> Delete(q, id) == q && A[id := A[id].(enabled := false)] == A
  {
    if A[id].enabled {
      assert id in Ids(q);
      LinkedUnlink(q, A, id, Delete(q, id), A[id := A[id].(enabled := false)]);
      DeleteDistinct(q, id);
    } else {
      assert forall n :: n in q ==> n.id != id;
      DeleteAbsent(q, id);
      assert A[id := A[id].(enabled := false)] == A;
    }
  }

  /**
   * alarm_start on values: unlinking the alarm if it is live and linking
   * it again at start with the new period keeps queue and table in
   * agreement, leaves exactly one node for it, and moves no other node.
   */
  lemma LinkedRestart(q: seq<Node>, A: map<AlarmId, Alarm>, id: AlarmId, start: int, period: int)
    requires Linked(q, A) && id in A && period >= 0
    ensures var rest := if A[id].enabled then Delete(q, id) else q;
      var q' := Insert(rest, Node(id, start));
      Linked(q', A[id := A[id].(expires := start, period := period, enabled := true)]) &&
      id in Ids(q') && (forall n :: n in q' && n.id == id ==> n == Node(id, start)) &&
      Delete(q', id) == Delete(q, id)
  {
    var a := A[id];
    var a' := a.(expires := start, period := period, enabled := true);
    if a.enabled {
      assert id in Ids(q);
      LinkedUnlink(q, A, id, Delete(q, id), A[id := A[id].(enabled := false)]);
      Overwrite(A, id, a.(enabled := false), a');
      Relink(Delete(q, id), A[id := a.(enabled := false)], id, a');
    } else {
      DeleteAbsent(q, id) by { LinkedLink(q, A, id, a', Insert(q, Node(id, start)), A[id := a']); }
      Relink(q, A, id, a');
    }
  }

  /**
   * Overwriting a present key keeps the key set. Stated once here so that
   * the methods updating the alarm table call it instead of making the
   * solver rediscover it in a large context.
   */
  lemma KeysKept(m: map<AlarmId, Alarm>, k: AlarmId, v: Alarm)
    requires k in m
    ensures m[k := v].Keys == m.Keys
  {
  }

  /** Two updates of the same key amount to the last one; a step the methods name explicitly for the same reason as KeysKept. */
  lemma Overwrite(m: map<AlarmId, Alarm>, k: AlarmId, v: Alarm, w: Alarm)
    ensures m[k := v][k := w] == m[k := w]
  {
  }

  /** Linking a disabled alarm as record a: the tables agree, the queue holds exactly one node for it, and unlinking it restores the queue. */
  lemma Relink(q: seq<Node>, A: map<AlarmId, Alarm>, id: AlarmId, a: Alarm)
    requires Linked(q, A) && id in A && !A[id].enabled
    requires a.enabled && a.period >= 0
    ensures var q' := Insert(q, Node(id, a.expires));
      Linked(q', A[id := a]) && id in Ids(q') && (forall n :: n in q' && n.id == id ==> n == Node(id, a.expires)) &&
      Delete(q', id) == q
  {
    LinkedLink(q, A, id, a, Insert(q, Node(id, a.expires)), A[id := a]);
    UniqueRequeued(q, Node(id, a.expires));
  }

  /** Linking a node whose id is absent leaves exactly that node for the id, and unlinking it again restores the queue. */
  lemma UniqueRequeued(q: seq<Node>, m: Node)
    requires Distinct(q) && m.id !in Ids(q)
    ensures var q' := Insert(q, m);
      m.id in Ids(q') && (forall n :: n in q' && n.id == m.id ==> n == m) && Delete(q', m.id) == q
  {
    var q' := Insert(q, m);
    DeleteInsert(q, m);
    InsertDistinct(q, m);
    assert forall k :: k in q ==> k.id != m.id;
    forall n | n in q' && n.id == m.id ensures n == m {
      assert n in multiset(q');
    }
  }

  /** A dispatcher turn lowers the backlog: the popped head was overdue, and a periodic one comes back strictly later. */
  lemma StepBacklog(q: seq<Node>, A: map<AlarmId, Alarm>, now: int, q': seq<Node>, A': map<AlarmId, Alarm>)
    requires q != [] && q[0].id in A && A[q[0].id].period >= 0 && q[0].expires <= now
    requires PoppedAndRequeued(q, A, q', A')
    ensures Backlog(q', now) < Backlog(q, now)
  {
    var h := q[0];
    var p := A[h.id].period;
    assert Delete(q, h.id) == q[1..];
    assert Backlog(q, now) == Lateness(h, now) + Backlog(q[1..], now);
    if p != 0 {
      assert q' == Insert(q[1..], Node(h.id, h.expires + p));
      BacklogInsert(q[1..], Node(h.id, h.expires + p), now);
    } else {
      assert q' == q[1..];
    }
  }

  /** Re-adding a popped periodic alarm no earlier than bound keeps every queued expiry at or after bound. */
  lemma Requeue(q: seq<Node>, A: map<AlarmId, Alarm>, id: AlarmId, a: Alarm, bound: int, r: seq<Node>, A': map<AlarmId, Alarm>)
    requires Linked(q, A) && id in A && !A[id].enabled
    requires a.enabled && a.period >= 0 && bound <= a.expires
    requires forall n :: n in q ==> bound <= n.expires
    requires r == Insert(q, Node(id, a.expires)) && A' == A[id := a]
    ensures Linked(r, A')
    ensures forall n :: n in r ==> bound <= n.expires
  {
    LinkedLink(q, A, id, a, r, A');
    forall n | n in r ensures bound <= n.expires {
      assert n in multiset(r);
    }
  }

  /** In a sorted queue the head expires no later than anything behind it. */
  lemma HeadFirst(q: seq<Node>)
    requires Sorted(q) && q != []
    ensures forall n :: n in q[1..] ==> q[0].expires <= n.expires
  {
    forall n | n in q[1..] ensures q[0].expires <= n.expires {
      var i :| 0 <= i < |q[1..]| && q[1..][i] == n;
      assert q[i + 1] == n;
    }
  }

  lemma StepLinked(q: seq<Node>, A: map<AlarmId, Alarm>, now: int, q': seq<Node>, A': map<AlarmId, Alarm>)
    requires Linked(q, A) && q != [] && q[0].id in A
    requires PoppedAndRequeued(q, A, q', A')
    ensures Linked(q', A') && A'.Keys == A.Keys
    ensures forall n :: n in q' ==> q[0].expires <= n.expires
  {
    var id := q[0].id;
    if A[id].period != 0 {
      PopOneShot(q, A, Delete(q, id), A[id := A[id].(enabled := false)]);
      RequeuePopped(Delete(q, id), A, id, q[0].expires, q', A');
    } else {
      PopOneShot(q, A, q', A');
    }
  }

  /** Popping the head of the queue into q' and disabling its alarm into A' keeps the agreement, and what is left expires no earlier. */
  lemma PopOneShot(q: seq<Node>, A: map<AlarmId, Alarm>, q': seq<Node>, A': map<AlarmId, Alarm>)
    requires Linked(q, A) && q != [] && q[0].id in A
    requires q' == Delete(q, q[0].id) && A' == A[q[0].id := A[q[0].id].(enabled := false)]
    ensures A[q[0].id].enabled && A[q[0].id].period >= 0
    ensures Linked(q', A') && A'.Keys == A.Keys
    ensures forall n :: n in q' ==> q[0].expires <= n.expires
  {
    var id := q[0].id;
    assert q[0] in q;
    assert id in Ids(q);
    LinkedUnlink(q, A, id, q', A');
    assert Delete(q, id) == q[1..];
    HeadFirst(q);
    KeysKept(A, id, A[id].(enabled := false));
  }

  /** Re-adding a popped periodic alarm (disabled in the table, absent from rest) one period after e, giving q' and A'. */
  lemma RequeuePopped(rest: seq<Node>, A: map<AlarmId, Alarm>, id: AlarmId, e: int, q': seq<Node>, A': map<AlarmId, Alarm>)
    requires id in A && A[id].enabled && A[id].period >= 0
    requires Linked(rest, A[id := A[id].(enabled := false)])
    requires forall n :: n in rest ==> e <= n.expires
    requires q' == Insert(rest, Node(id, e + A[id].period)) && A' == A[id := A[id].(expires := e + A[id].period)]
    ensures Linked(q', A') && A'.Keys == A.Keys
    ensures forall n :: n in q' ==> e <= n.expires
  {
    var a := A[id];
    var a' := a.(expires := e + a.period);
    Overwrite(A, id, a.(enabled := false), a');
    Requeue(rest, A[id := a.(enabled := false)], id, a', e, q', A');
    KeysKept(A, id, a');
  }

  /** Popping a due alarm that is still at its entry state or re-armed moves it one step towards its dispatched state. */
  lemma InFlightPop(b: Alarm, a: Alarm, now: int)
    requires InFlight(b, a, now) && a.enabled && a.expires <= now
    ensures a.period != 0 ==> InFlight(b, a.(expires := a.expires + a.period), now)
    ensures a.period == 0 ==> InFlight(b, a.(enabled := false), now)
  {
    assert IsDue(b, now);
    if a.period != 0 {
      assert NextExpiry(a.expires, a.period, now) == NextExpiry(a.expires + a.period, a.period, now);
    }
  }

  lemma StepInFlight(A0: map<AlarmId, Alarm>, q: seq<Node>, A: map<AlarmId, Alarm>, now: int, A': map<AlarmId, Alarm>)
    requires A.Keys == A0.Keys && q != [] && q[0].expires <= now && q[0].id in A
    requires A[q[0].id].enabled && A[q[0].id].expires == q[0].expires
    requires forall id :: id in A ==> InFlight(A0[id], A[id], now)
    requires var a := A[q[0].id];
      if a.period != 0 then A' == A[q[0].id := a.(expires := q[0].expires + a.period)] else A' == A[q[0].id := a.(enabled := false)]
    ensures forall id :: id in A' ==> InFlight(A0[id], A'[id], now)
  {
    var h := q[0];
    InFlightPop(A0[h.id], A[h.id], now);
    forall id | id in A' ensures InFlight(A0[id], A'[id], now) {
      if id != h.id {
        assert A'[id] == A[id];
      }
    }
  }

  /** The dispatcher log stays ordered, and every entry stays a due alarm's, when the head is logged. */
  lemma StepLog(A0: map<AlarmId, Alarm>, q: seq<Node>, A: map<AlarmId, Alarm>, log: seq<Firing>, now: int,
                q': seq<Node>, log': seq<Firing>)
    requires q != [] && q[0].expires <= now && q[0].id in A && q[0].id in A0
    requires InFlight(A0[q[0].id], A[q[0].id], now) && A[q[0].id].enabled && A[q[0].id].expires == q[0].expires
    requires Ordered(log) && (forall i :: 0 <= i < |log| ==> FiredFrom(A0, log[i], now))
    requires log != [] ==> forall n :: n in q ==> log[|log| - 1].expired <= n.expires
    requires forall n :: n in q' ==> q[0].expires <= n.expires
    requires log' == if A[q[0].id].callback != NoCallback then log + [Firing(q[0].id, q[0].expires)] else log
    ensures Ordered(log') && (forall i :: 0 <= i < |log'| ==> FiredFrom(A0, log'[i], now))
    ensures log' != [] ==> forall n :: n in q' ==> log'[|log'| - 1].expired <= n.expires
  {
    assert q[0] in q;
  }

  /** A due alarm with a callback is either still waiting at its entry expiry or has been logged. */
  lemma StepCoverage(A0: map<AlarmId, Alarm>, q: seq<Node>, A: map<AlarmId, Alarm>, log: seq<Firing>, now: int,
                     A': map<AlarmId, Alarm>, log': seq<Firing>)
    requires q != [] && q[0].id in A && A.Keys == A0.Keys
    requires InFlight(A0[q[0].id], A[q[0].id], now) && A[q[0].id].enabled && A[q[0].id].expires == q[0].expires
    requires forall id :: id in A0 && IsDue(A0[id], now) && A0[id].callback != NoCallback ==>
       (A[id].enabled && A[id].expires == A0[id].expires) || Firing(id, A0[id].expires) in log
    requires var a := A[q[0].id];
      if a.period != 0 then A' == A[q[0].id := a.(expires := q[0].expires + a.period)] else A' == A[q[0].id := a.(enabled := false)]
    requires log' == if A[q[0].id].callback != NoCallback then log + [Firing(q[0].id, q[0].expires)] else log
    ensures forall id :: id in A0 && IsDue(A0[id], now) && A0[id].callback != NoCallback ==>
       (A'[id].enabled && A'[id].expires == A0[id].expires) || Firing(id, A0[id].expires) in log'
  {
  }

  /** One turn of the loop: pop the due head, re-add it a period later if periodic, log its callback. */
  lemma DispatchStep(A0: map<AlarmId, Alarm>, q: seq<Node>, A: map<AlarmId, Alarm>, log: seq<Firing>, now: int,
                     q': seq<Node>, A': map<AlarmId, Alarm>, log': seq<Firing>)
    requires DispatchInv(A0, q, A, log, now)
    requires q != [] && q[0].expires <= now && q[0].id in A
    requires PoppedAndRequeued(q, A, q', A')
    requires log' == if A[q[0].id].callback != NoCallback then log + [Firing(q[0].id, q[0].expires)] else log
    ensures DispatchInv(A0, q', A', log', now)
    ensures Backlog(q', now) < Backlog(q, now)
  {
    var h := q[0];
    assert h in q;
    assert h.id in Ids(q);
    StepLinked(q, A, now, q', A');
    StepBacklog(q, A, now, q', A');
    StepInFlight(A0, q, A, now, A');
    StepLog(A0, q, A, log, now, q', log');
    StepCoverage(A0, q, A, log, now, A', log');
  }

  /** The log holds a callback run for alarm id. */
  predicate Mentions(log: seq<Firing>, id: AlarmId) {
    exists i :: 0 <= i < |log| && log[i].id == id
  }

  /**
   * After a dispatcher run at now, an enabled alarm with a callback shows up
   * in the log exactly when it was due: due alarms are all fired, and
   * nothing later than now is.
   */
  lemma FiredMentions(A0: map<AlarmId, Alarm>, log: seq<Firing>, id: AlarmId, now: int)
    requires id in A0 && A0[id].enabled && A0[id].callback != NoCallback
    requires forall i :: 0 <= i < |log| ==> FiredFrom(A0, log[i], now)
    requires forall k :: k in A0 && IsDue(A0[k], now) && A0[k].callback != NoCallback ==> Firing(k, A0[k].expires) in log
    ensures Mentions(log, id) <==> A0[id].expires <= now
  {
    if Mentions(log, id) {
      var k :| 0 <= k < |log| && log[k].id == id;
      assert FiredFrom(A0, log[k], now);
    }
    if A0[id].expires <= now {
      assert IsDue(A0[id], now);
      var k :| 0 <= k < |log| && log[k] == Firing(id, A0[id].expires);
    }
  }

  /** When the loop stops, every alarm is in its dispatched state and every due alarm with a callback was fired. */
  lemma DispatchDone(A0: map<AlarmId, Alarm>, q: seq<Node>, A: map<AlarmId, Alarm>, log: seq<Firing>, now: int)
    requires DispatchInv(A0, q, A, log, now)
    requires q == [] || now < q[0].expires
    ensures forall id :: id in A ==> Dispatched(A0[id], A[id], now)
    ensures forall id :: id in A0 && IsDue(A0[id], now) && A0[id].callback != NoCallback ==>
              Firing(id, A0[id].expires) in log
    ensures forall n :: n in q ==> now < n.expires
  {
    forall n | n in q ensures now < n.expires {
      var i :| 0 <= i < |q| && q[i] == n;
      assert q[0].expires <= q[i].expires;
    }
    forall id | id in A ensures !IsDue(A[id], now) {
      if A[id].enabled {
        var n :| n in q && n.id == id;
        var i :| 0 <= i < |q| && q[i] == n;
        assert q[0].expires <= q[i].expires;
      }
    }
  }

  /**
   * The expiries a due alarm fires for when the dispatcher runs at now:
   * its expiry, then, for a periodic alarm, each whole period after it up
   * to now. An alarm that is not due fires for none.
   */
  function Firings(a: Alarm, now: int): seq<int>
    decreases now - a.expires
  {
    if !IsDue(a, now) then []
    else if a.period <= 0 then [a.expires]
    else [a.expires] + Firings(a.(expires := a.expires + a.period), now)
  }

  /** The callback invocations an alarm owes at now: its firings when it has a callback, none otherwise. */
  function Pending(a: Alarm, now: int): seq<int> {
    if a.callback == NoCallback then [] else Firings(a, now)
  }

  /** The expiries the log records for alarm id, in log order. */
  function Project(log: seq<Firing>, id: AlarmId): seq<int> {
    if log == [] then []
    else Project(log[..|log| - 1], id) + (if log[|log| - 1].id == id then [log[|log| - 1].expired] else [])
  }

  /** For every alarm, the invocations logged so far followed by those it still owes are those it owed at entry. */
  ghost predicate LogAccounts(A0: map<AlarmId, Alarm>, A: map<AlarmId, Alarm>, log: seq<Firing>, now: int) {
    forall id :: id in A0 ==> id in A && Project(log, id) + Pending(A[id], now) == Pending(A0[id], now)
  }

  /**
   * A one-shot alarm due at now fires once, at its expiry. A periodic one
   * fires at its expiry and every period after it, k periods after for
   * the k-th firing, up to the last grid point not after now: one period
   * after that last firing is where NextExpiry re-arms it.
   */
  lemma {:induction false} FiringsShape(a: Alarm, now: int)
    requires a.period >= 0
    ensures !IsDue(a, now) ==> Firings(a, now) == []
    ensures IsDue(a, now) && a.period == 0 ==> Firings(a, now) == [a.expires]
    ensures IsDue(a, now) && a.period > 0 ==>
      var f := Firings(a, now);
      (forall k :: 0 <= k < |f| ==> f[k] == a.expires + k * a.period) &&
      a.expires + |f| * a.period == NextExpiry(a.expires, a.period, now)
    decreases now - a.expires
  {
    if IsDue(a, now) && a.period > 0 {
      var e, p := a.expires, a.period;
      var a' := a.(expires := e + p);
      var f, f' := Firings(a, now), Firings(a', now);
      assert f == [e] + f';
      FiringsShape(a', now);
      if IsDue(a', now) {
        forall k | 0 <= k < |f| ensures f[k] == e + k * p {
          if k > 0 {
            assert f[k] == f'[k - 1] == e + p + (k - 1) * p;
          }
        }
        assert e + |f| * p == e + p + |f'| * p;
      } else {
        assert NextExpiry(e, p, now) == NextExpiry(e + p, p, now);
      }
    }
  }

  /** The log entries of alarm id after logging f: those before, then f's expiry when f is for id. */
  lemma ProjectSnoc(log: seq<Firing>, f: Firing, id: AlarmId)
    ensures Project(log + [f], id) == Project(log, id) + (if f.id == id then [f.expired] else [])
  {
    assert (log + [f])[..|log|] == log;
  }

  lemma AccountStart(A: map<AlarmId, Alarm>, now: int)
    ensures LogAccounts(A, A, [], now)
  {
    forall id | id in A ensures Project([], id) + Pending(A[id], now) == Pending(A[id], now) {
      assert Project([], id) == [];
    }
  }

  /** The popped alarm a, due at its expiry e, owes that invocation (with a callback) and then whatever its next state a' owes. */
  lemma OwedHead(a: Alarm, e: int, now: int, a': Alarm)
    requires a.enabled && a.expires == e && e <= now && a.period >= 0
    requires a' == if a.period != 0 then a.(expires := e + a.period) else a.(enabled := false)
    ensures Pending(a, now) == (if a.callback != NoCallback then [e] else []) + Pending(a', now)
  {
    assert Firings(a, now) == [e] + Firings(a', now);
  }

  /** Popping the due head h into its next state a' moves its first owed invocation into the log (when it has a callback) and leaves every other alarm's account as it was. */
  lemma StepAccount(A0: map<AlarmId, Alarm>, A: map<AlarmId, Alarm>, log: seq<Firing>, now: int, h: Node, a': Alarm,
                    A': map<AlarmId, Alarm>, log': seq<Firing>)
    requires LogAccounts(A0, A, log, now) && A.Keys == A0.Keys
    requires h.id in A && A[h.id].enabled && A[h.id].expires == h.expires && h.expires <= now && A[h.id].period >= 0
    requires a' == if A[h.id].period != 0 then A[h.id].(expires := h.expires + A[h.id].period) else A[h.id].(enabled := false)
    requires A' == A[h.id := a']
    requires log' == if A[h.id].callback != NoCallback then log + [Firing(h.id, h.expires)] else log
    ensures LogAccounts(A0, A', log', now)
  {
    OwedHead(A[h.id], h.expires, now, a');
    forall id | id in A0 ensures id in A' && Project(log', id) + Pending(A'[id], now) == Pending(A0[id], now) {
      AccountOne(A0[id], A[id], log, now, h, A[h.id], a', A'[id], log', id);
    }
  }

  /** One turn of the dispatcher loop keeps both the dispatch invariant and the account of every alarm's invocations. */
  lemma DispatchAccount(A0: map<AlarmId, Alarm>, q: seq<Node>, A: map<AlarmId, Alarm>, log: seq<Firing>, now: int,
                        q': seq<Node>, A': map<AlarmId, Alarm>, log': seq<Firing>)
    requires DispatchInv(A0, q, A, log, now) && LogAccounts(A0, A, log, now)
    requires q != [] && q[0].expires <= now && q[0].id in A
    requires PoppedAndRequeued(q, A, q', A')
    requires log' == if A[q[0].id].callback != NoCallback then log + [Firing(q[0].id, q[0].expires)] else log
    ensures DispatchInv(A0, q', A', log', now) && LogAccounts(A0, A', log', now)
    ensures Backlog(q', now) < Backlog(q, now)
  {
    DispatchStep(A0, q, A, log, now, q', A', log');
    var h := q[0];
    assert h in q;
    StepAccount(A0, A, log, now, h, A'[h.id], A', log');
  }

  /** The account of one alarm id, in state b at entry and a now, across the pop of h (in state ah, next state a'). */
  lemma AccountOne(b: Alarm, a: Alarm, log: seq<Firing>, now: int, h: Node, ah: Alarm, a': Alarm, aNext: Alarm,
                   log': seq<Firing>, id: AlarmId)
    requires Project(log, id) + Pending(a, now) == Pending(b, now)
    requires id == h.id ==> a == ah && aNext == a'
    requires id != h.id ==> aNext == a
    requires Pending(ah, now) == (if ah.callback != NoCallback then [h.expires] else []) + Pending(a', now)
    requires log' == if ah.callback != NoCallback then log + [Firing(h.id, h.expires)] else log
    ensures Project(log', id) + Pending(aNext, now) == Pending(b, now)
  {
    var mine := if id == h.id && ah.callback != NoCallback then [h.expires] else [];
    ProjectStep(log, h, ah.callback != NoCallback, log', id);
    Regroup(Project(log, id), mine, Pending(aNext, now), Pending(a, now));
  }

  /** What logging the pop of h adds to alarm id's entries: h's expiry when the pop is logged and id is h's. */
  lemma ProjectStep(log: seq<Firing>, h: Node, logged: bool, log': seq<Firing>, id: AlarmId)
    requires log' == if logged then log + [Firing(h.id, h.expires)] else log
    ensures Project(log', id) == Project(log, id) + (if id == h.id && logged then [h.expires] else [])
  {
    if logged {
      ProjectSnoc(log, Firing(h.id, h.expires), id);
    } else {
      assert Project(log, id) + [] == Project(log, id);
    }
  }

  lemma Regroup(before: seq<int>, mine: seq<int>, rest: seq<int>, owed: seq<int>)
    requires owed == mine + rest
    ensures (before + mine) + rest == before + owed
  {
  }

  /** Once every alarm is in its dispatched state, none owes anything, so the log holds exactly what each owed at entry. */
  lemma AccountDone(A0: map<AlarmId, Alarm>, A: map<AlarmId, Alarm>, log: seq<Firing>, now: int)
    requires LogAccounts(A0, A, log, now) && A.Keys == A0.Keys
    requires forall id :: id in A ==> Dispatched(A0[id], A[id], now)
    ensures forall id :: id in A0 ==> Project(log, id) == Pending(A0[id], now)
  {
    forall id | id in A0 ensures Project(log, id) == Pending(A0[id], now) {
      assert Dispatched(A0[id], A[id], now);
      assert !IsDue(A[id], now);
      assert Pending(A[id], now) == [];
      assert Project(log, id) + [] == Project(log, id);
    }
  }
}
