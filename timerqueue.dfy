/**
 * The timerqueue a base keeps its alarms in: nodes ordered by absolute
 * expiry. A node added with the same expiry as nodes already queued goes
 * after them, as the tree insertion walks right on equal keys, and the
 * earliest node (timerqueue_getnext) is the head of the sequence.
 */
module TimerQueue {
  type AlarmId = nat

  datatype Node = Node(id: AlarmId, expires: int)

  ghost predicate Sorted(q: seq<Node>) {
    forall i, j :: 0 <= i < j < |q| ==> q[i].expires <= q[j].expires
  }

  /** A node is linked into the queue at most once. */
  ghost predicate Distinct(q: seq<Node>) {
    forall i, j :: 0 <= i < j < |q| ==> q[i].id != q[j].id
  }

  function Ids(q: seq<Node>): set<AlarmId> {
    set n | n in q :: n.id
  }

  /** timerqueue_add */
  function Insert(q: seq<Node>, n: Node): (r: seq<Node>)
    ensures |r| == |q| + 1
    ensures multiset(r) == multiset(q) + multiset{n}
  {
    assert q == [] || q == [q[0]] + q[1..];
    if q == [] || n.expires < q[0].expires then [n] + q
    else [q[0]] + Insert(q[1..], n)
  }

  /** timerqueue_del: unlinks the node carrying id. */
  function Delete(q: seq<Node>, id: AlarmId): (r: seq<Node>)
    ensures multiset(r) <= multiset(q)
  {
    if q == [] then []
    else
      assert q == [q[0]] + q[1..];
      if q[0].id == id then q[1..] else [q[0]] + Delete(q[1..], id)
  }

  /** Deleting shortens the queue by one node exactly when a node carries id. */
  lemma {:induction false} DeleteLength(q: seq<Node>, id: AlarmId)
    ensures |Delete(q, id)| == if id in Ids(q) then |q| - 1 else |q|
  {
    if q != [] {
      IdsCons(q);
      DeleteLength(q[1..], id);
    }
  }

  /** Number of queued nodes that expire no later than e: where Insert places a node expiring at e. */
  function InsertPos(q: seq<Node>, e: int): (k: nat)
    ensures k <= |q|
  {
    if q == [] || e < q[0].expires then 0 else 1 + InsertPos(q[1..], e)
  }

  /** Position of the node carrying id. */
  function IndexOf(q: seq<Node>, id: AlarmId): (k: nat)
    requires id in Ids(q)
    ensures k < |q| && q[k].id == id
    ensures forall j :: 0 <= j < k ==> q[j].id != id
  {
    if q[0].id == id then 0
    else
      IdsCons(q);
      1 + IndexOf(q[1..], id)
  }

  /**
   * Insertion is stable: the new node lands after every queued node whose
   * expiry is not later than its own, and before every node that expires
   * later, and no other node moves.
   */
  lemma {:induction false} InsertAt(q: seq<Node>, n: Node)
    requires Sorted(q)
    ensures var k := InsertPos(q, n.expires);
      Insert(q, n) == q[..k] + [n] + q[k..] &&
      (forall i :: 0 <= i < k ==> q[i].expires <= n.expires) &&
      (forall i :: k <= i < |q| ==> n.expires < q[i].expires)
  {
    if q != [] && q[0].expires <= n.expires {
      assert Sorted(q[1..]);
      InsertAt(q[1..], n);
      ConsSplice(q, InsertPos(q[1..], n.expires), n);
    }
  }

  /** Splicing n into the tail at j and putting the head back splices it into the whole at j + 1. */
  lemma ConsSplice(q: seq<Node>, j: nat, n: Node)
    requires j + 1 <= |q|
    ensures [q[0]] + (q[1..][..j] + [n] + q[1..][j..]) == q[..j + 1] + [n] + q[j + 1..]
  {
    assert q[..j + 1] == [q[0]] + q[1..][..j];
  }

  lemma InsertSorted(q: seq<Node>, n: Node)
    requires Sorted(q)
    ensures Sorted(Insert(q, n))
  {
    InsertAt(q, n);
  }

  /** Deleting the id of node k, when no earlier node carries it, cuts out exactly node k and keeps the others in order. */
  lemma {:induction false} DeleteAt(q: seq<Node>, k: nat)
    requires k < |q| && forall i :: 0 <= i < k ==> q[i].id != q[k].id
    ensures Delete(q, q[k].id) == q[..k] + q[k + 1..]
  {
    if k == 0 {
      assert q[..0] + q[1..] == q[1..];
    } else {
      assert q[1..][k - 1] == q[k];
      DeleteAt(q[1..], k - 1);
      ConsSlices(q, k - 1);
    }
  }

  /** Cutting element j out of the tail and putting the head back cuts element j + 1 out of the whole. */
  lemma ConsSlices(q: seq<Node>, j: nat)
    requires j + 1 < |q|
    ensures [q[0]] + (q[1..][..j] + q[1..][j + 1..]) == q[..j + 1] + q[j + 2..]
  {
    assert q[..j + 1] == [q[0]] + q[1..][..j];
  }

  lemma {:induction false} DeleteAbsent(q: seq<Node>, id: AlarmId)
    requires id !in Ids(q)
    ensures Delete(q, id) == q
  {
    if q != [] {
      assert q[0] in q;
      assert Ids(q[1..]) <= Ids(q) by {
        forall m | m in q[1..] ensures m in q { }
      }
      DeleteAbsent(q[1..], id);
    }
  }

  lemma DeleteSorted(q: seq<Node>, id: AlarmId)
    requires Sorted(q)
    ensures Sorted(Delete(q, id))
  {
    if id in Ids(q) {
      var k := IndexOf(q, id);
      DeleteAt(q, k);
      SortedCut(q, k);
    } else {
      DeleteAbsent(q, id);
    }
  }

  /** Cutting one node out of a sorted queue leaves it sorted. */
  lemma SortedCut(q: seq<Node>, k: nat)
    requires Sorted(q) && k < |q|
    ensures Sorted(q[..k] + q[k + 1..])
  {
    var r := q[..k] + q[k + 1..];
    forall i, j | 0 <= i < j < |r| ensures r[i].expires <= r[j].expires {
      var i', j' := if i < k then i else i + 1, if j < k then j else j + 1;
      assert r[i] == q[i'] && r[j] == q[j'];
    }
  }

  lemma IdsCons(q: seq<Node>)
    requires q != []
    ensures Ids(q) == {q[0].id} + Ids(q[1..])
  {
    assert q == [q[0]] + q[1..];
    assert forall m :: m in q <==> m == q[0] || m in q[1..];
  }

  lemma {:induction false} DeleteDistinct(q: seq<Node>, id: AlarmId)
    requires Distinct(q)
    ensures Distinct(Delete(q, id))
    ensures Ids(Delete(q, id)) == Ids(q) - {id}
  {
    if q != [] {
      IdsCons(q);
      assert Distinct(q[1..]);
      if q[0].id == id {
        assert id !in Ids(q[1..]);
      } else {
        DeleteDistinct(q[1..], id);
        ConsDistinct(q[0], Delete(q[1..], id));
      }
    }
  }

  lemma {:induction false} InsertDistinct(q: seq<Node>, n: Node)
    requires Distinct(q) && n.id !in Ids(q)
    ensures Distinct(Insert(q, n))
    ensures Ids(Insert(q, n)) == Ids(q) + {n.id}
  {
    if q == [] {
    } else if n.expires < q[0].expires {
      ConsDistinct(n, q);
    } else {
      IdsCons(q);
      assert Distinct(q[1..]);
      InsertDistinct(q[1..], n);
      ConsDistinct(q[0], Insert(q[1..], n));
    }
  }

  /** Putting a node in front of a queue that does not carry its id keeps the ids distinct. */
  lemma ConsDistinct(m: Node, r: seq<Node>)
    requires Distinct(r) && m.id !in Ids(r)
    ensures Distinct([m] + r) && Ids([m] + r) == {m.id} + Ids(r)
  {
    IdsCons([m] + r);
    assert ([m] + r)[1..] == r;
    forall j | 0 <= j < |r| ensures r[j].id != m.id {
      assert r[j] in r;
    }
  }

  /** Starting an alarm and then cancelling it leaves the queue exactly as it was. */
  lemma {:induction false} DeleteInsert(q: seq<Node>, n: Node)
    requires n.id !in Ids(q)
    ensures Delete(Insert(q, n), n.id) == q
  {
    if q == [] || n.expires < q[0].expires {
      DeleteAbsent(q, n.id);
    } else {
      assert q[0] in q;
      assert Ids(q[1..]) <= Ids(q) by {
        forall m | m in q[1..] ensures m in q { }
      }
      DeleteInsert(q[1..], n);
    }
  }

  /** How far a node is overdue at now, in whole nanoseconds counted from 1: zero once it is in the future. */
  function Lateness(n: Node, now: int): nat {
    if n.expires <= now then now + 1 - n.expires else 0
  }

  /** Total lateness of a queue; the dispatcher's loop makes it shrink on every turn. */
  function Backlog(q: seq<Node>, now: int): nat {
    if q == [] then 0 else Lateness(q[0], now) + Backlog(q[1..], now)
  }

  lemma {:induction false} BacklogInsert(q: seq<Node>, n: Node, now: int)
    ensures Backlog(Insert(q, n), now) == Backlog(q, now) + Lateness(n, now)
  {
    if q != [] && q[0].expires <= n.expires {
      BacklogInsert(q[1..], n, now);
    }
  }
}
