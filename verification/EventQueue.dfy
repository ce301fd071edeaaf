/**
  The simulator's event queue (gem5/src/sim/eventq.cc, eventq_impl.hh, eventq.hh): a linked
  list of bins, one per (when, priority), each bin a stack linked through nextInBin.  Only
  the event on top of a bin carries a meaningful nextBin; the others are stale.
 */
module EventQueue {
  import opened Common
  import opened Sequences

  type Tick = nat
  type Priority = p: int | -128 <= p < 128  // int8_t

  class Event {
    var nextBin: Event?
    var nextInBin: Event?
    var when: Tick
    var priority: Priority
    var scheduled: bool
    var squashed: bool

    constructor (p: Priority)
      ensures !scheduled && !squashed && priority == p && when == 0
    {
      nextBin, nextInBin, when, priority, scheduled, squashed := null, null, 0, p, false, false;
    }
  }

  /** operator< */
  predicate Less(l: Event, r: Event)
    reads l`when, l`priority, r`when, r`priority
  {
    l.when < r.when || (l.when == r.when && l.priority < r.priority)
  }

  /** operator== */
  predicate SameBin(l: Event, r: Event)
    reads l`when, l`priority, r`when, r`priority
  {
    l.when == r.when && l.priority == r.priority
  }

  /** (when, priority) as one number, in the order of operator<. */
  ghost function Rank(e: Event): (k: int)
    reads e`when, e`priority
  {
    e.when * 256 + e.priority
  }

  lemma {:induction false} RankLess(l: Event, r: Event)
    ensures Rank(l) < Rank(r) <==> l.when < r.when || (l.when == r.when && l.priority < r.priority)
  {
  }

  /** A queued event as it is on the heap, stamped with the count of insertions before its own. */
  datatype Node = Node(e: Event, rank: int, stamp: nat, nextBin: Event?, nextInBin: Event?)

  ghost predicate Mirrors(n: Node)
    reads n.e`when, n.e`priority, n.e`nextBin, n.e`nextInBin
  {
    n.rank == Rank(n.e) && n.nextBin == n.e.nextBin && n.nextInBin == n.e.nextInBin
  }

  ghost predicate AllMirror(q: seq<Node>)
    reads Events(q)`when, Events(q)`priority, Events(q)`nextBin, Events(q)`nextInBin
  {
    forall i :: 0 <= i < |q| ==> Mirrors(q[i])
  }

  ghost function Events(q: seq<Node>): (s: set<Event>) {
    set i | 0 <= i < |q| :: q[i].e
  }

  /** The service order `to` is `from` with `event` put in at position p. */
  ghost predicate Gains(from: seq<Node>, to: seq<Node>, p: int, event: Event) {
    && |to| == |from| + 1 && 0 <= p < |to| && to[p].e == event
    && (forall i :: 0 <= i < p ==> to[i].e == from[i].e)
    && (forall i :: p < i < |to| ==> to[i].e == from[i - 1].e)
  }

  /** The service order `to` is `from` without the event at position p. */
  ghost predicate Loses(from: seq<Node>, to: seq<Node>, p: int) {
    && |from| == |to| + 1 && 0 <= p < |from|
    && (forall i :: 0 <= i < p ==> to[i].e == from[i].e)
    && (forall i :: p <= i < |to| ==> to[i].e == from[i + 1].e)
  }

  ghost predicate Absent(q: seq<Node>, event: Event) {
    forall i :: 0 <= i < |q| ==> q[i].e != event
  }

  ghost predicate Sorted(q: seq<Node>) {
    forall i, j :: 0 <= i < j < |q| ==> q[i].e != q[j].e && q[i].rank <= q[j].rank
  }

  /** The same events in the same order; only pointers may differ. */
  ghost predicate SameEvents(q: seq<Node>, r: seq<Node>) {
    |q| == |r| && forall i :: 0 <= i < |q| ==> r[i].e == q[i].e && r[i].rank == q[i].rank && r[i].stamp == q[i].stamp
  }

  ghost function Redirected(q: seq<Node>, a: nat, top: Event?): (r: seq<Node>)
    requires a < |q|
    ensures SameEvents(q, r)
  {
    q[a := q[a].(nextBin := top)]
  }

  /** Events of equal rank stand latest insertion first; all were inserted before time `now`. */
  ghost predicate Lifo(q: seq<Node>, now: nat) {
    && (forall i :: 0 <= i < |q| ==> q[i].stamp < now)
    && (forall i, j :: 0 <= i < j < |q| && q[i].rank == q[j].rank ==> q[j].stamp < q[i].stamp)
  }

  lemma SameEventsTwice(q: seq<Node>, r: seq<Node>, s: seq<Node>)
    requires SameEvents(q, r) && SameEvents(r, s)
    ensures SameEvents(q, s)
  {
  }

  lemma NotAmong(q: seq<Node>, event: Event)
    requires event !in Events(q)
    ensures Absent(q, event)
  {
  }

  lemma SameEventsSorted(q: seq<Node>, r: seq<Node>, now: nat)
    requires SameEvents(q, r) && Sorted(q) && Lifo(q, now)
    ensures Sorted(r) && Lifo(r, now)
  {
  }

  /** What the order of ranks means for the events. */
  lemma {:induction false} SortedInFields(q: seq<Node>)
    requires Sorted(q) && Ranked(q)
    ensures forall i, j :: 0 <= i < j < |q| ==>
      q[i].e.when < q[j].e.when || (q[i].e.when == q[j].e.when && q[i].e.priority <= q[j].e.priority)
  {
    forall i, j | 0 <= i < j < |q|
      ensures q[i].e.when < q[j].e.when || (q[i].e.when == q[j].e.when && q[i].e.priority <= q[j].e.priority)
    {
      assert q[i].rank == Rank(q[i].e) && q[j].rank == Rank(q[j].e);
      RankLess(q[j].e, q[i].e);
    }
  }

  ghost predicate Ranked(q: seq<Node>)
    reads Events(q)`when, Events(q)`priority
  {
    forall i {:trigger q[i].rank} :: 0 <= i < |q| ==> q[i].rank == Rank(q[i].e)
  }

  lemma {:induction false} SlotInFields(q: seq<Node>, event: Event, p: nat)
    requires Sorted(q) && Ranked(q) && IsSlot(q, Rank(event), p)
    ensures forall i :: 0 <= i < |q| ==>
      (i < p <==> q[i].e.when < event.when || (q[i].e.when == event.when && q[i].e.priority < event.priority))
  {
    forall i | 0 <= i < |q|
      ensures i < p <==> q[i].e.when < event.when || (q[i].e.when == event.when && q[i].e.priority < event.priority)
    {
      assert q[i].rank == Rank(q[i].e);
      RankLess(q[i].e, event);
    }
  }

  // ----- Bins as stretches of equal rank

  /** Position i starts a bin. */
  ghost predicate IsTop(q: seq<Node>, i: int) {
    0 <= i < |q| && (i == 0 || q[i - 1].rank < q[i].rank)
  }

  /** e is the position after the bin that position i is in. */
  ghost predicate IsEnd(q: seq<Node>, i: int, e: int) {
    0 <= i < e <= |q| && q[e - 1].rank == q[i].rank && (e < |q| ==> q[i].rank < q[e].rank)
  }

  /** p is the first position whose rank is not below k: where a new event of rank k goes. */
  ghost predicate IsSlot(q: seq<Node>, k: int, p: int) {
    0 <= p <= |q| && (p > 0 ==> q[p - 1].rank < k) && (p < |q| ==> k <= q[p].rank)
  }

  ghost function At(q: seq<Node>, i: nat): (e: Event?)
    requires i <= |q|
  {
    if i < |q| then q[i].e else null
  }

  ghost predicate InBinOk(q: seq<Node>, i: int)
    requires 0 <= i < |q|
  {
    q[i].nextInBin == if i + 1 < |q| && q[i + 1].rank == q[i].rank then q[i + 1].e else null
  }

  /** Linked from `head`, bin after bin; below the top of a bin nextBin may be stale. */
  ghost predicate Linked(head: Event?, q: seq<Node>) {
    && head == At(q, 0)
    && (forall i {:trigger InBinOk(q, i)} :: 0 <= i < |q| ==> InBinOk(q, i))
    && (forall i, e {:trigger IsEnd(q, i, e)} :: IsTop(q, i) && IsEnd(q, i, e) ==> q[i].nextBin == At(q, e))
  }

  lemma EndOf(q: seq<Node>, i: nat) returns (e: nat)
    requires i < |q| && Sorted(q)
    ensures IsEnd(q, i, e)
  {
    e := i + 1;
    while e < |q| && q[e].rank == q[i].rank
      invariant i < e <= |q| && q[e - 1].rank == q[i].rank
    {
      e := e + 1;
    }
  }

  lemma EndUnique(q: seq<Node>, i: nat, e: nat, f: nat)
    requires Sorted(q) && IsEnd(q, i, e) && IsEnd(q, i, f)
    ensures e == f
  {
  }

  /** A bin has one top. */
  lemma TopUnique(q: seq<Node>, i: nat, j: nat, e: nat)
    requires Sorted(q) && IsTop(q, i) && IsTop(q, j) && IsEnd(q, i, e) && IsEnd(q, j, e)
    ensures i == j
  {
  }

  // ----- Insertion

  /** The bins after a node goes in at its slot, in terms of the bins before. */
  lemma EndAfterInsert(q: seq<Node>, p: nat, n: Node, i: nat, e: nat)
    requires Sorted(q) && IsSlot(q, n.rank, p)
    requires IsTop(Inserted(q, p, n), i) && IsEnd(Inserted(q, p, n), i, e)
    ensures i < p ==> e <= p && IsTop(q, i) && IsEnd(q, i, e)
    ensures p < i ==> IsTop(q, i - 1) && IsEnd(q, i - 1, e - 1)
    ensures i == p && p < |q| && q[p].rank == n.rank ==> IsTop(q, p) && IsEnd(q, p, e - 1)
    ensures i == p && !(p < |q| && q[p].rank == n.rank) ==> e == p + 1
  {
    var r := Inserted(q, p, n);
    assert r[e - 1].rank == r[i].rank && (e < |r| ==> r[i].rank < r[e].rank);
  }

  /** What insertBefore writes into the new event, given the bin found at its slot. */
  ghost predicate FitsAt(n: Node, q: seq<Node>, p: nat)
    requires p <= |q|
  {
    if p < |q| && q[p].rank == n.rank then n.nextBin == q[p].nextBin && n.nextInBin == q[p].e
    else n.nextBin == At(q, p) && n.nextInBin == null
  }

  lemma SortedInsert(q: seq<Node>, n: Node, p: nat)
    requires Sorted(q) && IsSlot(q, n.rank, p) && Absent(q, n.e) && Lifo(q, n.stamp)
    ensures Sorted(Inserted(q, p, n)) && Lifo(Inserted(q, p, n), n.stamp + 1)
  {
    var r := Inserted(q, p, n);
    forall i, j | 0 <= i < j < |r|
      ensures r[i].e != r[j].e && r[i].rank <= r[j].rank
      ensures r[i].rank == r[j].rank ==> r[j].stamp < r[i].stamp
    {
      if i < p < j {
        assert r[i] == q[i] && r[j] == q[j - 1];
      } else if i == p {
        assert r[j] == q[j - 1] && q[p].rank <= q[j - 1].rank;
      } else if j == p {
        assert r[i] == q[i] && q[i].rank <= q[p - 1].rank;
      }
    }
  }

  lemma MirrorInserted(q: seq<Node>, n: Node, p: nat)
    requires AllMirror(q) && Mirrors(n) && p <= |q|
    ensures AllMirror(Inserted(q, p, n))
  {
  }

  lemma LinkFirst(q: seq<Node>, n: Node)
    requires Sorted(q) && Linked(At(q, 0), q) && IsSlot(q, n.rank, 0) && FitsAt(n, q, 0)
    ensures Linked(n.e, Inserted(q, 0, n))
  {
    var r := Inserted(q, 0, n);
    forall i | 0 <= i < |r| ensures InBinOk(r, i) {
      assert i > 0 ==> InBinOk(q, i - 1);
    }
    forall i, e | IsTop(r, i) && IsEnd(r, i, e) ensures r[i].nextBin == At(r, e) {
      EndAfterInsert(q, 0, n, i, e);
    }
  }

  lemma InBinBehind(q: seq<Node>, n: Node, p: nat)
    requires Sorted(q) && Linked(At(q, 0), q) && IsSlot(q, n.rank, p) && FitsAt(n, q, p)
    ensures forall i :: 0 <= i <= |q| ==> InBinOk(Inserted(q, p, n), i)
  {
    var r := Inserted(q, p, n);
    forall i | 0 <= i < |r| ensures InBinOk(r, i) {
      assert i > p ==> InBinOk(q, i - 1);
      assert i < p ==> InBinOk(q, i);
    }
  }

  /** One top of the queue after an insertion behind the first bin. */
  lemma LinkedTop(q: seq<Node>, n: Node, p: nat, a: nat, i: nat, e: nat)
    requires Sorted(q) && Linked(At(q, 0), q) && IsSlot(q, n.rank, p) && FitsAt(n, q, p)
    requires IsTop(q, a) && IsEnd(q, a, p)
    requires IsTop(Inserted(q, p, n), i) && IsEnd(Inserted(q, p, n), i, e)
    ensures Inserted(Redirected(q, a, n.e), p, n)[i].nextBin == At(Inserted(q, p, n), e)
  {
    EndAfterInsert(q, p, n, i, e);
    if i < p {
      if e == p {
        TopUnique(q, a, i, p);
      } else if i == a {
        EndUnique(q, i, e, p);
      }
    }
  }

  /** Wiring in a new top at slot p: the bin in front, with top a, is redirected to it. */
  lemma LinkBehind(q: seq<Node>, n: Node, p: nat, a: nat)
    requires Sorted(q) && Linked(At(q, 0), q) && IsSlot(q, n.rank, p) && FitsAt(n, q, p)
    requires IsTop(q, a) && IsEnd(q, a, p)
    ensures Linked(At(q, 0), Inserted(Redirected(q, a, n.e), p, n))
  {
    var x := Inserted(q, p, n);
    var r := Inserted(Redirected(q, a, n.e), p, n);
    assert forall j :: 0 <= j < |r| ==> r[j].rank == x[j].rank && r[j].e == x[j].e;
    assert forall i :: 0 <= i < |r| ==> InBinOk(r, i) by {
      InBinBehind(q, n, p);
      InBinSame(x, r);
    }
    forall i, e | IsTop(r, i) && IsEnd(r, i, e) ensures r[i].nextBin == At(r, e) {
      assert IsTop(x, i) && IsEnd(x, i, e);
      LinkedTop(q, n, p, a, i, e);
    }
  }

  // ----- Removal

  /** The bins after the node at t is taken out, in terms of the bins before. */
  lemma EndAfterRemove(q: seq<Node>, t: nat, i: nat, e: nat)
    requires Sorted(q) && t < |q|
    requires IsTop(Removed(q, t), i) && IsEnd(Removed(q, t), i, e)
    ensures i < t ==> IsTop(q, i)
    ensures i < t && q[t].rank == q[i].rank ==> IsEnd(q, i, e + 1)
    ensures i < t && q[t].rank != q[i].rank ==> e <= t && IsEnd(q, i, e)
    ensures t <= i ==> IsEnd(q, i + 1, e + 1)
    ensures t < i ==> IsTop(q, i + 1)
    ensures t == i && q[t].rank == q[t + 1].rank ==> IsTop(q, t) && IsEnd(q, t, e + 1)
    ensures t == i && q[t].rank != q[t + 1].rank ==> IsTop(q, t + 1)
  {
    var r := Removed(q, t);
    assert r[e - 1].rank == r[i].rank && (e < |r| ==> r[i].rank < r[e].rank);
  }

  /** The writes of removeItem for the event at t in the bin with top p. */
  ghost function Spliced(q: seq<Node>, p: nat, t: nat): (r: seq<Node>)
    requires p <= t < |q|
    ensures SameEvents(q, r)
  {
    if t != p then q[t - 1 := q[t - 1].(nextInBin := q[t].nextInBin)]
    else if p + 1 < |q| && q[p + 1].rank == q[p].rank then q[p + 1 := q[p + 1].(nextBin := q[p].nextBin)]
    else q
  }

  /** The top that is left where the bin with top p was. */
  ghost function NewTop(q: seq<Node>, p: nat, t: nat): (e: Event?)
    requires p <= t < |q|
  {
    if t == p then At(q, p + 1) else q[p].e
  }

  lemma InBinAfterRemove(q: seq<Node>, p: nat, t: nat)
    requires Sorted(q) && Linked(At(q, 0), q)
    requires p <= t < |q| && IsTop(q, p) && q[t].rank == q[p].rank
    ensures forall i :: 0 <= i < |q| - 1 ==> InBinOk(Removed(Spliced(q, p, t), t), i)
  {
    var r := Removed(Spliced(q, p, t), t);
    forall i | 0 <= i < |r| ensures InBinOk(r, i) {
      assert InBinOk(q, i);
      assert InBinOk(q, i + 1);
    }
  }

  lemma InBinSame(q: seq<Node>, r: seq<Node>)
    requires |q| == |r|
    requires forall i :: 0 <= i < |q| ==> InBinOk(q, i) && q[i].(nextBin := null) == r[i].(nextBin := null)
    ensures forall i :: 0 <= i < |q| ==> InBinOk(r, i)
  {
    forall i | 0 <= i < |q| ensures InBinOk(r, i) {
      assert InBinOk(q, i);
      assert i + 1 < |q| ==> InBinOk(q, i + 1);
    }
  }

  /** One top of the queue left by a removal from the first bin. */
  lemma UnlinkedFirstTop(q: seq<Node>, t: nat, i: nat, e: nat)
    requires Sorted(q) && Linked(At(q, 0), q)
    requires t < |q| && q[t].rank == q[0].rank
    requires IsTop(Removed(q, t), i) && IsEnd(Removed(q, t), i, e)
    ensures Removed(Spliced(q, 0, t), t)[i].nextBin == At(Removed(q, t), e)
  {
    EndAfterRemove(q, t, i, e);
  }

  lemma UnlinkFirst(q: seq<Node>, t: nat)
    requires Sorted(q) && Linked(At(q, 0), q)
    requires t < |q| && q[t].rank == q[0].rank
    ensures Linked(NewTop(q, 0, t), Removed(Spliced(q, 0, t), t))
  {
    InBinAfterRemove(q, 0, t);
    var x, r := Removed(q, t), Removed(Spliced(q, 0, t), t);
    assert forall j :: 0 <= j < |r| ==> r[j].rank == x[j].rank && r[j].e == x[j].e;
    forall i, e | IsTop(r, i) && IsEnd(r, i, e) ensures r[i].nextBin == At(r, e) {
      assert IsTop(x, i) && IsEnd(x, i, e);
      UnlinkedFirstTop(q, t, i, e);
    }
  }

  /** One top of the queue left by a removal behind the first bin. */
  lemma UnlinkedTop(q: seq<Node>, p: nat, t: nat, a: nat, r: seq<Node>, i: nat, e: nat)
    requires Sorted(q) && Linked(At(q, 0), q)
    requires p <= t < |q| && IsTop(q, p) && q[t].rank == q[p].rank
    requires IsTop(q, a) && IsEnd(q, a, p)
    requires r == Spliced(q, p, t)
    requires IsTop(Removed(q, t), i) && IsEnd(Removed(q, t), i, e)
    ensures Removed(Redirected(r, a, NewTop(q, p, t)), t)[i].nextBin == At(Removed(q, t), e)
  {
    EndAfterRemove(q, t, i, e);
    if i == a {
      EndUnique(q, a, p, e);
    } else if i < p {
      assert IsEnd(q, i, e);
      if e == p {
        TopUnique(q, a, i, p);
      }
    } else if i < t {
      assert i == p && IsEnd(q, p, e + 1);
    } else if i == t == p && q[t].rank == q[t + 1].rank {
      assert IsEnd(q, p, e + 1);
    } else {
      assert IsTop(q, i + 1) && IsEnd(q, i + 1, e + 1);
    }
  }

  lemma UnlinkBehind(q: seq<Node>, p: nat, t: nat, a: nat)
    requires Sorted(q) && Linked(At(q, 0), q)
    requires p <= t < |q| && IsTop(q, p) && q[t].rank == q[p].rank
    requires IsTop(q, a) && IsEnd(q, a, p)
    ensures var r := Spliced(q, p, t);
            Linked(At(q, 0), Removed(Redirected(r, a, NewTop(q, p, t)), t))
  {
    var s := Spliced(q, p, t);
    var r := Removed(Redirected(s, a, NewTop(q, p, t)), t);
    assert forall i :: 0 <= i < |r| ==> InBinOk(r, i) by {
      InBinAfterRemove(q, p, t);
      InBinSame(Removed(s, t), r);
    }
    var x := Removed(q, t);
    assert forall j :: 0 <= j < |r| ==> r[j].rank == x[j].rank && r[j].e == x[j].e;
    forall i, e | IsTop(r, i) && IsEnd(r, i, e) ensures r[i].nextBin == At(r, e) {
      assert IsTop(x, i) && IsEnd(x, i, e);
      UnlinkedTop(q, p, t, a, s, i, e);
    }
  }

  lemma SortedRemoved(q: seq<Node>, t: nat, now: nat)
    requires Sorted(q) && Lifo(q, now) && t < |q|
    ensures Sorted(Removed(q, t)) && Lifo(Removed(q, t), now)
  {
  }

  lemma MirrorRemoved(q: seq<Node>, t: nat)
    requires AllMirror(q) && t < |q|
    ensures AllMirror(Removed(q, t))
  {
  }

  lemma NotQueued(q: seq<Node>, event: Event, p: nat)
    requires Sorted(q) && AllMirror(q)
    requires IsSlot(q, Rank(event), p) && (p < |q| ==> q[p].rank != Rank(event))
    ensures event !in Events(q)
  {
  }

  /** An event of the rank of a bin that is not found in it is not queued. */
  lemma NotInBin(q: seq<Node>, p: nat, t: nat, event: Event)
    requires Sorted(q) && AllMirror(q) && IsTop(q, p) && p <= t < |q| && Rank(event) == q[p].rank == q[t].rank
    requires t + 1 < |q| ==> q[t + 1].rank != q[t].rank
    requires forall i :: p <= i <= t ==> q[i].e != event
    ensures event !in Events(q)
  {
    forall i | 0 <= i < |q| ensures q[i].e != event {
      assert Mirrors(q[i]);
      assert i < p ==> q[i].rank <= q[p - 1].rank;
      assert i > t ==> q[t + 1].rank <= q[i].rank;
    }
  }

  /** The queued events are flagged as scheduled, and none of them lies before `now`. */
  ghost predicate Pending(q: seq<Node>, now: Tick)
    reads Events(q)`when, Events(q)`scheduled
  {
    forall i :: 0 <= i < |q| ==> q[i].e.scheduled && now <= q[i].e.when
  }

  lemma PendingGains(from: seq<Node>, to: seq<Node>, p: nat, event: Event, now: Tick)
    requires Gains(from, to, p, event) && Pending(from, now) && event.scheduled && now <= event.when
    ensures Pending(to, now)
  {
  }

  lemma PendingLoses(from: seq<Node>, to: seq<Node>, t: nat, now: Tick)
    requires Loses(from, to, t) && Pending(from, now)
    ensures Pending(to, now)
  {
  }

  /** `q` is what is left of `was` behind its first n events. */
  ghost predicate Behind(was: seq<Node>, q: seq<Node>, n: nat) {
    |was| == n + |q| && forall i :: 0 <= i < |q| ==> q[i].e == was[n + i].e
  }

  lemma BehindLoses(was: seq<Node>, q: seq<Node>, r: seq<Node>, n: nat)
    requires Behind(was, q, n) && Loses(q, r, 0)
    ensures Behind(was, r, n + 1) && q[0].e == was[n].e
  {
    forall i | 0 <= i < |r| ensures r[i].e == was[n + 1 + i].e {
      assert r[i].e == q[i + 1].e;
    }
  }

  lemma GainsEvent(from: seq<Node>, to: seq<Node>, p: nat, event: Event)
    requires Gains(from, to, p, event)
    ensures Events(to) == Events(from) + {event}
  {
    forall i | 0 <= i < |from| ensures from[i].e in Events(to) {
      var j := if i < p then i else i + 1;
      assert to[j].e in Events(to) && from[i].e == to[j].e;
    }
    forall i | 0 <= i < |to| ensures to[i].e in Events(from) + {event} {
      if i != p {
        var j := if i < p then i else i - 1;
        assert from[j].e in Events(from) && to[i].e == from[j].e;
      }
    }
    assert to[p].e in Events(to);
  }

  lemma LosesEvent(from: seq<Node>, to: seq<Node>, t: nat)
    requires Loses(from, to, t) && Sorted(from)
    ensures Events(to) == Events(from) - {from[t].e}
  {
    forall i | 0 <= i < |from| && i != t ensures from[i].e in Events(to) {
      var j := if i < t then i else i - 1;
      assert to[j].e in Events(to) && from[i].e == to[j].e;
    }
    forall i | 0 <= i < |to| ensures to[i].e in Events(from) && to[i].e != from[t].e {
      var j := if i < t then i else i + 1;
      assert from[j].e in Events(from) && to[i].e == from[j].e;
    }
  }

  /** The time of the first event is a lower bound for what is behind it. */
  lemma PendingFromHead(q: seq<Node>, now: Tick)
    requires Sorted(q) && AllMirror(q) && Pending(q, now) && q != []
    ensures Pending(q, q[0].e.when)
  {
  }

  datatype Op = Schedule(event: Event, delay: nat) | Deschedule(event: Event) | Service

  /** The times never decrease, and lie within two bounds. */
  ghost predicate Climbs(times: seq<Tick>, low: Tick, high: Tick) {
    && (forall i, j :: 0 <= i < j < |times| ==> times[i] <= times[j])
    && (forall i :: 0 <= i < |times| ==> low <= times[i] <= high)
  }

  lemma ClimbsStill(times: seq<Tick>, low: Tick, high: Tick, higher: Tick)
    requires Climbs(times, low, high) && high <= higher
    ensures Climbs(times, low, higher)
  {
  }

  lemma ClimbsOn(times: seq<Tick>, low: Tick, high: Tick)
    requires Climbs(times, low, high) && low <= high
    ensures Climbs(times + [high], low, high)
  {
  }

  class Queue {
    var head: Event?
    var curTick: Tick
    ghost var q: seq<Node>      // the queued events in the order they will be serviced
    ghost var insertions: nat   // how many insertions there have been

    ghost predicate InOrder()
      reads this`head, this`q, this`insertions
      reads Events(q)`when, Events(q)`priority, Events(q)`nextBin, Events(q)`nextInBin
    {
      Sorted(q) && Lifo(q, insertions) && Linked(head, q) && AllMirror(q)
    }

    /** Everything queued is scheduled, and none of it lies in the past. */
    ghost predicate Valid()
      reads this, Events(q)
    {
      InOrder() && Pending(q, curTick)
    }

    constructor ()
      ensures Valid() && q == [] && curTick == 0
    {
      head, curTick, q, insertions := null, 0, [], 0;
    }

    // ----- The linked structure

    /** The walk of insert and remove over the tops of the bins in front of `event`'s. */
    method FindBin(event: Event) returns (prev: Event, curr: Event?, ghost a: nat, ghost p: nat)
      requires InOrder() && head != null && !SameBin(head, event)
      ensures Less(head, event) ==> IsTop(q, a) && prev == q[a].e && q[a].rank < Rank(event)
      ensures Less(head, event) ==> IsEnd(q, a, p) && IsSlot(q, Rank(event), p) && curr == At(q, p)
      ensures !Less(head, event) ==> curr == null || !SameBin(curr, event)
    {
      prev, curr, a := head, head.nextBin, 0;
      ghost var k := Rank(event);
      p := EndOf(q, 0);
      while curr != null && Less(curr, event)
        invariant IsTop(q, a) && prev == q[a].e
        invariant Less(head, event) ==> q[a].rank < k
        invariant IsEnd(q, a, p) && curr == At(q, p)
        decreases |q| - a
      {
        a := p;
        p := EndOf(q, a);
        prev := curr;
        curr := curr.nextBin;
      }
    }

    /** EventQueue::insert: in front of everything of its own rank, behind everything of a lower one. */
    method Insert(event: Event) returns (ghost p: nat)
      requires InOrder() && event !in Events(q)
      modifies this`head, this`q, this`insertions, event`nextBin, event`nextInBin, Events(q)`nextBin
      ensures InOrder()
      ensures IsSlot(old(q), Rank(event), p) && Gains(old(q), q, p, event)
      // before it stands what has an earlier time, or the same and a smaller priority, and nothing else
      ensures forall i :: 0 <= i < |old(q)| ==>
        (i < p <==> old(q)[i].e.when < event.when || (old(q)[i].e.when == event.when && old(q)[i].e.priority < event.priority))
    {
      ghost var was := q;
      assert Ranked(was);
      p := Place(event);
      assert Ranked(was);
      SlotInFields(was, event, p);
    }

    method Place(event: Event) returns (ghost p: nat)
      requires InOrder() && event !in Events(q)
      modifies this`head, this`q, this`insertions, event`nextBin, event`nextInBin, Events(q)`nextBin
      ensures InOrder()
      ensures IsSlot(old(q), Rank(event), p) && Gains(old(q), q, p, event)
    {
      if head == null || !Less(head, event) {
        InsertFirst(event);
        p := 0;
      } else {
        ghost var a;
        var prev, curr;
        prev, curr, a, p := FindBin(event);
        InsertBehind(event, prev, curr, a, p);
      }
    }

    method InsertFirst(event: Event)
      requires InOrder() && event !in Events(q) && IsSlot(q, Rank(event), 0)
      modifies this`head, this`q, this`insertions, event`nextBin, event`nextInBin
      ensures InOrder() && Gains(old(q), q, 0, event)
    {
      InsertBefore(event, head);
      head := event;
      ghost var n := Node(event, Rank(event), insertions, event.nextBin, event.nextInBin);
      assert Linked(head, Inserted(q, 0, n)) by { LinkFirst(q, n); }
      Put(q, n, 0);
    }

    method InsertBehind(event: Event, prev: Event, curr: Event?, ghost a: nat, ghost p: nat)
      requires InOrder() && event !in Events(q)
      requires IsTop(q, a) && prev == q[a].e && IsEnd(q, a, p) && IsSlot(q, Rank(event), p) && curr == At(q, p)
      modifies this`q, this`insertions, event`nextBin, event`nextInBin, prev`nextBin
      ensures InOrder() && Gains(old(q), q, p, event)
    {
      NotAmong(q, event);
      InsertBefore(event, curr);
      Redirect(prev, event, q, a);
      ghost var n := Node(event, Rank(event), insertions, event.nextBin, event.nextInBin);
      ghost var q' := Redirected(q, a, event);
      assert Linked(head, Inserted(q', p, n)) by { LinkBehind(q, n, p, a); }
      Put(q', n, p);
    }

    /** prev->nextBin = top */
    static method Redirect(prev: Event, top: Event?, ghost q: seq<Node>, ghost a: nat)
      requires Sorted(q) && AllMirror(q) && a < |q| && q[a].e == prev
      modifies prev`nextBin
      ensures AllMirror(Redirected(q, a, top))
    {
      prev.nextBin := top;
    }

    /** The bookkeeping of an insertion, once the pointers are written. */
    ghost method Put(r: seq<Node>, n: Node, p: nat)
      requires SameEvents(q, r) && Sorted(q) && Lifo(q, insertions)
      requires n.stamp == insertions && Absent(q, n.e) && IsSlot(q, n.rank, p)
      requires AllMirror(r) && Mirrors(n) && Linked(head, Inserted(r, p, n))
      modifies this`q, this`insertions
      ensures InOrder() && Gains(old(q), q, p, n.e)
    {
      assert Sorted(Inserted(r, p, n)) && Lifo(Inserted(r, p, n), insertions + 1) by {
        SameEventsSorted(q, r, insertions);
        SortedInsert(r, n, p);
      }
      assert AllMirror(Inserted(r, p, n)) by { MirrorInserted(r, n, p); }
      assert Gains(q, Inserted(r, p, n), p, n.e);
      q := Inserted(r, p, n);
      insertions := insertions + 1;
    }

    /** Event::insertBefore */
    static method InsertBefore(event: Event, curr: Event?)
      requires curr != event
      modifies event`nextBin, event`nextInBin
      ensures if curr == null || Less(event, curr) then event.nextBin == curr && event.nextInBin == null
              else event.nextBin == curr.nextBin && event.nextInBin == curr
    {
      if curr == null || Less(event, curr) {
        event.nextBin := curr;
        event.nextInBin := null;
      } else {
        event.nextBin := curr.nextBin;
        event.nextInBin := curr;
      }
    }

    /** EventQueue::remove: not ok, and nothing changed, where the source panics. */
    method Remove(event: Event) returns (ok: bool, ghost t: nat)
      requires InOrder()
      modifies this`head, this`q, Events(q)`nextBin, Events(q)`nextInBin
      ensures InOrder()
      ensures ok <==> event in old(Events(q))
      ensures ok ==> t < |old(q)| && old(q)[t].e == event && Loses(old(q), q, t)
      ensures !ok ==> q == old(q)
    {
      ok, t := false, 0;
      if head == null {
        return;
      }
      if SameBin(head, event) {
        ok, t := RemoveFirst(event);
        return;
      }
      var prev, curr, a, p := FindBin(event);
      if curr == null || !SameBin(curr, event) {
        NotQueued(q, event, if Less(head, event) then p else 0);
        return;
      }
      ok, t := RemoveBehind(event, prev, curr, a, p);
    }

    method RemoveFirst(event: Event) returns (ok: bool, ghost t: nat)
      requires InOrder() && q != [] && q[0].rank == Rank(event)
      modifies this`head, this`q, Events(q)`nextBin, Events(q)`nextInBin
      ensures InOrder()
      ensures ok <==> event in old(Events(q))
      ensures ok ==> t < |old(q)| && old(q)[t].e == event && Loses(old(q), q, t)
      ensures !ok ==> q == old(q)
    {
      var newTop;
      ok, newTop, t := RemoveItem(event, head, q, 0);
      if ok {
        head := newTop;
        assert Linked(head, Removed(Spliced(q, 0, t), t)) by { UnlinkFirst(q, t); }
        Take(Spliced(q, 0, t), t);
      }
    }

    method RemoveBehind(event: Event, prev: Event, curr: Event, ghost a: nat, ghost p: nat) returns (ok: bool, ghost t: nat)
      requires InOrder() && IsTop(q, a) && prev == q[a].e && IsEnd(q, a, p)
      requires p < |q| && q[p].e == curr && q[p].rank == Rank(event)
      modifies this`q, Events(q)`nextBin, Events(q)`nextInBin
      ensures InOrder()
      ensures ok <==> event in old(Events(q))
      ensures ok ==> t < |old(q)| && old(q)[t].e == event && Loses(old(q), q, t)
      ensures !ok ==> q == old(q)
    {
      var newTop;
      ok, newTop, t := RemoveItem(event, curr, q, p);
      if ok {
        ghost var r := Spliced(q, p, t);
        ghost var r' := Redirected(r, a, newTop);
        SameEventsTwice(q, r, r');
        Redirect(prev, newTop, r, a);
        assert Linked(head, Removed(r', t)) by { UnlinkBehind(q, p, t, a); }
        Take(r', t);
      }
    }

    /** The bookkeeping of a removal, once the pointers are written. */
    ghost method Take(r: seq<Node>, t: nat)
      requires t < |q| && SameEvents(q, r)
      requires Sorted(q) && Lifo(q, insertions) && AllMirror(r) && Linked(head, Removed(r, t))
      modifies this`q
      ensures InOrder() && Loses(old(q), q, t)
    {
      assert Sorted(Removed(r, t)) && Lifo(Removed(r, t), insertions) by {
        SameEventsSorted(q, r, insertions);
        SortedRemoved(r, t, insertions);
      }
      assert AllMirror(Removed(r, t)) by { MirrorRemoved(r, t); }
      assert Loses(q, Removed(r, t), t);
      q := Removed(r, t);
    }

    /** Event::removeItem: not ok where the source panics, because the bin has no such event. */
    static method RemoveItem(event: Event, top: Event, ghost q: seq<Node>, ghost p: nat)
      returns (ok: bool, newTop: Event?, ghost t: nat)
      requires Sorted(q) && Linked(At(q, 0), q) && AllMirror(q)
      requires IsTop(q, p) && q[p].e == top && Rank(event) == q[p].rank
      modifies Events(q)`nextBin, Events(q)`nextInBin
      ensures ok <==> event in Events(q)
      ensures ok ==> p <= t < |q| && q[t].e == event && q[t].rank == q[p].rank && newTop == NewTop(q, p, t)
      ensures AllMirror(if ok then Spliced(q, p, t) else q)
    {
      if event == top {
        newTop := RemoveTop(top, q, p);
        ok, t := true, p;
      } else {
        ok, t := RemoveBelow(event, top, q, p);
        newTop := top;
      }
    }

    /** The top leaves its bin: the next event in it takes over the bin pointer. */
    static method RemoveTop(top: Event, ghost q: seq<Node>, ghost p: nat) returns (newTop: Event?)
      requires Sorted(q) && Linked(At(q, 0), q) && AllMirror(q) && IsTop(q, p) && q[p].e == top
      modifies Events(q)`nextBin
      ensures newTop == NewTop(q, p, p) && AllMirror(Spliced(q, p, p))
    {
      assert InBinOk(q, p);
      var next := top.nextInBin;
      if next == null {
        ghost var e := EndOf(q, p);
        return top.nextBin;
      }
      next.nextBin := top.nextBin;
      newTop := next;
    }

    /** The walk down a bin for an event that is not its top. */
    static method RemoveBelow(event: Event, top: Event, ghost q: seq<Node>, ghost p: nat) returns (ok: bool, ghost t: nat)
      requires Sorted(q) && Linked(At(q, 0), q) && AllMirror(q)
      requires IsTop(q, p) && q[p].e == top != event && Rank(event) == q[p].rank
      modifies Events(q)`nextInBin
      ensures ok <==> event in Events(q)
      ensures ok ==> p < t < |q| && q[t].e == event && q[t].rank == q[p].rank
      ensures AllMirror(if ok then Spliced(q, p, t) else q)
    {
      var curr, next := top, top.nextInBin;
      t := p;
      while event != next
        invariant p <= t < |q| && curr == q[t].e && next == q[t].nextInBin && q[t].rank == q[p].rank
        invariant forall i :: p <= i <= t ==> q[i].e != event
        decreases |q| - t
      {
        assert InBinOk(q, t);
        if next == null {
          NotInBin(q, p, t, event);
          ok := false;
          return;
        }
        t := t + 1;
        curr := next;
        next := next.nextInBin;
      }
      assert InBinOk(q, t);
      t := t + 1;
      curr.nextInBin := next.nextInBin;
      ok := true;
    }

    // ----- Scheduling and servicing

    /** EventQueue::schedule, outside parallel mode. */
    method Schedule(event: Event, when: Tick) returns (ghost p: nat)
      requires Valid()
      requires when >= curTick && !event.scheduled
      modifies this`head, this`q, this`insertions, event, Events(q)`nextBin
      ensures Valid() && event.scheduled && event.squashed == old(event.squashed)
      ensures event.when == when && event.priority == old(event.priority)
      ensures IsSlot(old(q), Rank(event), p) && Gains(old(q), q, p, event)
      ensures forall i :: 0 <= i < |old(q)| ==>
        (i < p <==> old(q)[i].e.when < when || (old(q)[i].e.when == when && old(q)[i].e.priority < event.priority))
    {
      p := Enter(event, when);
    }

    method Enter(event: Event, when: Tick) returns (ghost p: nat)
      requires Valid() && Absent(q, event) && when >= curTick
      modifies this`head, this`q, this`insertions, event, Events(q)`nextBin
      ensures Valid() && event.scheduled && event.squashed == old(event.squashed)
      ensures event.when == when && event.priority == old(event.priority)
      ensures IsSlot(old(q), Rank(event), p) && Gains(old(q), q, p, event)
      ensures forall i :: 0 <= i < |old(q)| ==>
        (i < p <==> old(q)[i].e.when < when || (old(q)[i].e.when == when && old(q)[i].e.priority < event.priority))
    {
      SetWhen(event, when);
      p := Insert(event);
      PendingGains(old(q), q, p, event, curTick);
    }

    /** Event::setWhen, and the flag set at the end of schedule: nothing queued is touched. */
    method SetWhen(event: Event, when: Tick)
      requires Valid() && Absent(q, event)
      modifies event`when, event`scheduled
      ensures Valid() && event !in Events(q)
      ensures event.when == when && event.scheduled
    {
      event.when := when;
      event.scheduled := true;
    }

    /** EventQueue::deschedule */
    method Deschedule(event: Event) returns (ghost t: nat)
      requires Valid() && event in Events(q)
      modifies this`head, this`q, Events(q)`nextBin, Events(q)`nextInBin, event`scheduled, event`squashed
      ensures Valid() && !event.scheduled && !event.squashed
      ensures t < |old(q)| && old(q)[t].e == event && Loses(old(q), q, t)
      ensures Absent(q, event) && Events(q) <= old(Events(q))
    {
      var ok;
      ok, t := Remove(event);
      PendingLoses(old(q), q, t, curTick);
      assert Absent(q, event);
      event.squashed := false;
      event.scheduled := false;
    }

    /** EventQueue::reschedule: a queued event moves, another one is put in if `always`. */
    method Reschedule(event: Event, when: Tick, always: bool) returns (ghost p: nat, ghost t: nat, ghost m: seq<Node>)
      requires Valid() && when >= curTick
      requires if event.scheduled then event in Events(q) else always
      modifies this`head, this`q, this`insertions, event, Events(q)`nextBin, Events(q)`nextInBin
      ensures Valid() && event.scheduled && !event.squashed && event.when == when
      ensures event.priority == old(event.priority)
      ensures if old(event.scheduled) then t < |old(q)| && old(q)[t].e == event && Loses(old(q), m, t)
              else m == old(q)
      ensures IsSlot(m, Rank(event), p) && Gains(m, q, p, event)
      ensures forall i :: 0 <= i < |m| ==>
        (i < p <==> m[i].e.when < when || (m[i].e.when == when && m[i].e.priority < event.priority))
    {
      t := 0;
      if event.scheduled {
        t := Deschedule(event);
      } else {
        event.squashed := false;
      }
      m := q;
      p := Enter(event, when);
    }

    /** How serviceOne takes the head off. */
    method Pop() returns (event: Event)
      requires InOrder() && q != []
      modifies this`head, this`q, Events(q)`nextBin
      ensures InOrder() && event == old(q)[0].e && Loses(old(q), q, 0)
    {
      event := head;
      head := RemoveTop(head, q, 0);
      assert Linked(head, Removed(Spliced(q, 0, 0), 0)) by { UnlinkFirst(q, 0); }
      Take(Spliced(q, 0, 0), 0);
    }

    method TakeHead() returns (event: Event)
      requires Valid() && q != []
      modifies this`head, this`q, Events(q)`nextBin
      ensures Valid() && Pending(q, event.when) && curTick <= event.when
      ensures event == old(q)[0].e && Loses(old(q), q, 0) && Absent(q, event)
    {
      PendingFromHead(q, curTick);
      event := Pop();
      PendingLoses(old(q), q, 0, curTick);
      PendingLoses(old(q), q, 0, event.when);
    }

    /**
      EventQueue::serviceOne up to the call of the handler: hands out the head, tells
      whether its handler is to run, and moves the time forward to it if so.
     */
    method ServiceOne() returns (event: Event, process: bool)
      requires Valid() && q != []
      modifies this`head, this`q, this`curTick, Events(q)`nextBin, Events(q)`scheduled, Events(q)`squashed
      ensures Valid() && !event.scheduled && !event.squashed
      ensures event == old(q)[0].e && Loses(old(q), q, 0)
      // no queued event had an earlier time, or the same and a smaller priority
      ensures forall i :: 0 < i < |old(q)| ==>
        old(q[0].e.when < q[i].e.when || (q[0].e.when == q[i].e.when && q[0].e.priority <= q[i].e.priority))
      ensures process == !old(head.squashed)
      ensures curTick == if process then event.when else old(curTick)
      ensures old(curTick) <= curTick
    {
      assert Ranked(q);
      SortedInFields(q);
      event := TakeHead();
      event.scheduled := false;
      process := !event.squashed;
      if process {
        curTick := event.when;
      } else {
        event.squashed := false;
      }
    }

    // ----- Whole runs

    /** Servicing until the queue is empty takes the events in the queue's order. */
    method Drain() returns (serviced: seq<Event>)
      requires Valid()
      modifies this, Events(q)`nextBin, Events(q)`scheduled, Events(q)`squashed
      ensures Valid() && q == [] && old(curTick) <= curTick
      // by time, then by priority
      ensures forall i, j :: 0 <= i < j < |serviced| ==>
        serviced[i].when < serviced[j].when || (serviced[i].when == serviced[j].when && serviced[i].priority <= serviced[j].priority)
      ensures |serviced| == |old(q)| && forall i :: 0 <= i < |serviced| ==> serviced[i] == old(q)[i].e
    {
      ghost var was := q;
      assert Ranked(was);
      serviced := DrainAll();
      assert Ranked(was);
      SortedInFields(was);
      assert forall i :: 0 <= i < |serviced| ==> serviced[i] == was[i].e;
    }

    method DrainAll() returns (serviced: seq<Event>)
      requires Valid()
      modifies this, Events(q)`nextBin, Events(q)`scheduled, Events(q)`squashed
      ensures Valid() && q == [] && old(curTick) <= curTick
      ensures |serviced| == |old(q)| && forall i :: 0 <= i < |serviced| ==> serviced[i] == old(q)[i].e
    {
      serviced := [];
      ghost var was, pool := q, Events(q);
      while head != null
        invariant Valid() && old(curTick) <= curTick && Events(q) <= pool
        invariant Behind(was, q, |serviced|)
        invariant forall i :: 0 <= i < |serviced| ==> serviced[i] == was[i].e
        decreases |q|
      {
        var event := DrainOne(was, |serviced|, pool);
        serviced := serviced + [event];
      }
    }

    method DrainOne(ghost was: seq<Node>, ghost n: nat, ghost pool: set<Event>) returns (event: Event)
      requires Valid() && head != null && Behind(was, q, n) && Events(q) <= pool
      modifies this, pool`nextBin, pool`scheduled, pool`squashed
      ensures Valid() && old(curTick) <= curTick && Events(q) <= pool && |q| < |old(q)|
      ensures Behind(was, q, n + 1) && event == was[n].e
    {
      ghost var before := q;
      var process;
      event, process := ServiceOne();
      LosesEvent(before, q, 0);
      BehindLoses(was, before, q, n);
    }

    /** The scheduled ones of a set of events are those in the queue. */
    ghost predicate Holds(pool: set<Event>)
      reads this`q, pool`scheduled
    {
      Events(q) <= pool && forall e :: e in pool && e.scheduled ==> e in Events(q)
    }

    /** Any run of scheduling, descheduling and servicing: the times of the events handed out never go back. */
    method Run(ops: seq<Op>, ghost pool: set<Event>) returns (times: seq<Tick>)
      requires Valid() && Holds(pool)
      requires forall i :: 0 <= i < |ops| && !ops[i].Service? ==> ops[i].event in pool
      modifies this, pool
      ensures Valid() && Holds(pool) && Climbs(times, old(curTick), curTick)
    {
      times := [];
      for k := 0 to |ops|
        invariant Valid() && Holds(pool) && old(curTick) <= curTick && Climbs(times, old(curTick), curTick)
      {
        ghost var now := curTick;
        var t := Step(ops[k], pool);
        ClimbsStill(times, old(curTick), now, curTick);
        if t.Some? {
          ClimbsOn(times, old(curTick), curTick);
          times := times + [t.value];
        }
      }
    }

    /** One operation, if it applies; the time of the event it hands out, if any. */
    method Step(op: Op, ghost pool: set<Event>) returns (t: Option<Tick>)
      requires Valid() && Holds(pool) && (op.Service? || op.event in pool)
      modifies this, pool
      ensures Valid() && Holds(pool) && old(curTick) <= curTick
      ensures t.Some? ==> t.value == curTick
    {
      t := None;
      ghost var was := q;
      match op {
        case Schedule(event, delay) =>
          if !event.scheduled {
            ghost var p := Schedule(event, curTick + delay);
            GainsEvent(was, q, p, event);
          }
        case Deschedule(event) =>
          if event.scheduled {
            ghost var i := Deschedule(event);
            LosesEvent(was, q, i);
          }
        case Service =>
          if head != null {
            var event, process := ServiceOne();
            LosesEvent(was, q, 0);
            if process {
              t := Some(event.when);
            }
          }
      }
    }
  }
}
