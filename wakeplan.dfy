/**
 * How far ahead the RTC must wake the machine when it suspends: the
 * smallest lead time among the pending freezer delta and the head of each
 * alarm base's queue. A zero freezer delta or running minimum means "no
 * candidate yet", so a head due exactly at the clock reading (lead zero)
 * wipes out every candidate found before it, unless the minimum so far is
 * negative (an overdue head or a passed freezer deadline), which it keeps.
 */
module WakePlan {
  import opened Wrappers
  import opened TimerQueue

  /** Time until the head of q expires, against the base clock reading now; None for an empty queue. */
  function Lead(q: seq<Node>, now: int): (r: Option<int>)
    ensures r.None? <==> q == []
  {
    if q == [] then None else Some(q[0].expires - now)
  }

  /** One step of the minimum search: a lead replaces min when min is zero (no candidate yet) or the lead is smaller. */
  function MinStep(min: int, lead: Option<int>): (r: int)
    ensures lead.None? ==> r == min
    ensures lead.Some? ==> (r == min || r == lead.value) && (min == 0 ==> r == lead.value)
    ensures lead.Some? && min != 0 ==> r <= min && r <= lead.value
  {
    match lead
    case None => min
    case Some(d) => if min == 0 || d < min then d else min
  }

  /** The minimum search over the leads, in order, starting from initial. */
  function SoonestLead(initial: int, leads: seq<Option<int>>): (r: int)
    ensures r == initial || Some(r) in leads
    decreases |leads|
  {
    if leads == [] then initial
    else
      var p := leads[..|leads| - 1];
      assert forall x :: x in p ==> x in leads;
      MinStep(SoonestLead(initial, p), leads[|leads| - 1])
  }

  /** x is a lead to plan for: the initial value when it is not the zero "none", or a lead that is present. */
  ghost predicate Candidate(x: int, initial: int, leads: seq<Option<int>>) {
    (x == initial && initial != 0) || Some(x) in leads
  }

  /**
   * When no present lead is zero, the search yields zero exactly when
   * there is no candidate, and otherwise the smallest candidate.
   */
  lemma {:induction false} SoonestLeadIsMinimum(initial: int, leads: seq<Option<int>>)
    requires forall i :: 0 <= i < |leads| ==> leads[i] != Some(0)
    ensures var r := SoonestLead(initial, leads);
      (r == 0 <==> forall x :: !Candidate(x, initial, leads)) &&
      (r != 0 ==> Candidate(r, initial, leads)) &&
      (forall x :: Candidate(x, initial, leads) ==> r <= x)
  {
    if leads != [] {
      var p, l := leads[..|leads| - 1], leads[|leads| - 1];
      assert leads == p + [l];
      assert forall i :: 0 <= i < |p| ==> p[i] == leads[i];
      SoonestLeadIsMinimum(initial, p);
      assert forall x :: Candidate(x, initial, leads) <==> Candidate(x, initial, p) || l == Some(x);
      var r' := SoonestLead(initial, p);
      var r := SoonestLead(initial, leads);
      if l.Some? {
        assert l.value != 0 && Candidate(l.value, initial, leads);
        if r' == 0 || l.value < r' {
          assert r == l.value;
        } else {
          assert r == r' && Candidate(r', initial, p);
        }
      } else {
        assert r == r';
      }
      assert r != 0 ==> Candidate(r, initial, leads);
    } else {
      assert initial != 0 ==> Candidate(initial, initial, leads);
    }
  }

  /**
   * One zero lead: it replaces a running minimum that is zero or positive,
   * and leaves a negative one as it was.
   */
  lemma ZeroLeadStep(initial: int, before: seq<Option<int>>)
    ensures var m := SoonestLead(initial, before);
      SoonestLead(initial, before + [Some(0)]) == if m < 0 then m else 0
  {
    assert (before + [Some(0)])[..|before|] == before;
  }

  /**
   * A present lead of exactly zero, met while the running minimum is not
   * negative, resets the search: the candidates before it are forgotten
   * and the result is that of a search starting from zero over the leads
   * after it. So [Some(0)] after a pending freezer delta plans no wake-up.
   */
  lemma {:induction false} ZeroLeadResets(initial: int, before: seq<Option<int>>, after: seq<Option<int>>)
    requires SoonestLead(initial, before) >= 0
    ensures SoonestLead(initial, before + [Some(0)] + after) == SoonestLead(0, after)
  {
    if after == [] {
      assert before + [Some(0)] + after == before + [Some(0)];
      assert (before + [Some(0)])[..|before|] == before;
    } else {
      var p := after[..|after| - 1];
      var all := before + [Some(0)] + after;
      assert all[..|all| - 1] == before + [Some(0)] + p;
      assert all[|all| - 1] == after[|after| - 1];
      ZeroLeadResets(initial, before, p);
    }
  }
}
