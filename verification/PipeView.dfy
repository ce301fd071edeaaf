/**
  The reordering buffer of the pipeline viewer (gem5/util/o3-pipeview.py).  Instructions
  arrive out of order.  When more than max are queued the queue is sorted by sequence
  number and its front is printed until min are left; at the end of the trace everything
  left is sorted and printed.
 */
module PipeView {

  /** The fields of a traced instruction that ordering and filtering look at. */
  datatype Inst = Inst(sn: int, fetch: int, retire: int)

  // ----- The simple form: one stable sort of the whole trace

  ghost predicate Sorted(s: seq<Inst>) {
    forall i, j :: 0 <= i < j < |s| ==> s[i].sn <= s[j].sn
  }

  /** The position behind the last number up to k. */
  function Slot(s: seq<Inst>, k: int): (p: nat)
    ensures p <= |s|
    ensures p > 0 ==> s[p - 1].sn <= k
    ensures forall i :: p <= i < |s| ==> k < s[i].sn
  {
    if s == [] || s[|s| - 1].sn <= k then |s| else Slot(s[..|s| - 1], k)
  }

  lemma {:induction false} SlotIs(s: seq<Inst>, k: int, p: nat)
    requires p <= |s| && (p > 0 ==> s[p - 1].sn <= k) && forall i :: p <= i < |s| ==> k < s[i].sn
    ensures Slot(s, k) == p
  {
  }

  function Put(s: seq<Inst>, x: Inst): (r: seq<Inst>)
    ensures |r| == |s| + 1
  {
    var p := Slot(s, x.sn);
    s[..p] + [x] + s[p..]
  }

  lemma {:induction false} PutSorted(s: seq<Inst>, x: Inst)
    requires Sorted(s)
    ensures Sorted(Put(s, x))
  {
  }

  function PutAll(s: seq<Inst>, xs: seq<Inst>): (r: seq<Inst>)
    ensures |r| == |s| + |xs|
    decreases |xs|
  {
    if xs == [] then s else PutAll(Put(s, xs[0]), xs[1..])
  }

  lemma {:induction false} PutAllSorted(s: seq<Inst>, xs: seq<Inst>)
    requires Sorted(s)
    ensures Sorted(PutAll(s, xs))
    decreases |xs|
  {
    if xs != [] {
      PutSorted(s, xs[0]);
      PutAllSorted(Put(s, xs[0]), xs[1..]);
    }
  }

  lemma {:induction false} PutAllConcat(s: seq<Inst>, xs: seq<Inst>, ys: seq<Inst>)
    ensures PutAll(s, xs + ys) == PutAll(PutAll(s, xs), ys)
    decreases |xs|
  {
    if xs == [] {
      assert xs + ys == ys;
    } else {
      assert (xs + ys)[1..] == xs[1..] + ys;
      PutAllConcat(Put(s, xs[0]), xs[1..], ys);
    }
  }

  /** Python's list.sort by sequence number: stable. */
  function Sort(s: seq<Inst>): (r: seq<Inst>)
    ensures |r| == |s| && Sorted(r)
  {
    PutAllSorted([], s);
    PutAll([], s)
  }

  lemma {:induction false} SortSnoc(s: seq<Inst>, x: Inst)
    ensures Sort(s + [x]) == Put(Sort(s), x)
  {
    PutAllConcat([], s, [x]);
    assert PutAll(Sort(s), [x]) == PutAll(Put(Sort(s), x), []);
  }

  lemma {:induction false} PutMultiset(s: seq<Inst>, x: Inst)
    ensures multiset(Put(s, x)) == multiset(s) + multiset{x}
  {
    var p := Slot(s, x.sn);
    SplicedMultiset(s[..p], x, s[p..]);
    assert s == s[..p] + s[p..];
  }

  lemma {:induction false} SplicedMultiset(a: seq<Inst>, x: Inst, b: seq<Inst>)
    ensures multiset(a + [x] + b) == multiset(a + b) + multiset{x}
  {
  }

  lemma {:induction false} SortIsPermutation(s: seq<Inst>)
    ensures multiset(Sort(s)) == multiset(s)
    decreases |s|
  {
    if s != [] {
      var t, x := s[..|s| - 1], s[|s| - 1];
      SortIsPermutation(t);
      SortSnoc(t, x);
      PutMultiset(Sort(t), x);
      assert s == t + [x];
    }
  }

  /** Those with one sequence number, in the order they stand in */
  function Having(s: seq<Inst>, k: int): (r: seq<Inst>) {
    if s == [] then [] else Having(s[..|s| - 1], k) + if s[|s| - 1].sn == k then [s[|s| - 1]] else []
  }

  lemma {:induction false} HavingConcat(s: seq<Inst>, t: seq<Inst>, k: int)
    ensures Having(s + t, k) == Having(s, k) + Having(t, k)
    decreases |t|
  {
    if t == [] {
      assert s + t == s;
    } else {
      assert (s + t)[..|s + t| - 1] == s + t[..|t| - 1];
      HavingConcat(s, t[..|t| - 1], k);
    }
  }

  lemma {:induction false} HavingNone(s: seq<Inst>, k: int)
    requires forall i :: 0 <= i < |s| ==> s[i].sn != k
    ensures Having(s, k) == []
    decreases |s|
  {
    if s != [] {
      HavingNone(s[..|s| - 1], k);
    }
  }

  lemma {:induction false} SplicedHaving(a: seq<Inst>, x: Inst, b: seq<Inst>, k: int)
    requires forall i :: 0 <= i < |b| ==> x.sn < b[i].sn
    ensures Having(a + [x] + b, k) == Having(a + b, k) + Having([x], k)
  {
    HavingConcat(a + [x], b, k);
    HavingConcat(a, [x], k);
    HavingConcat(a, b, k);
    if x.sn == k {
      HavingNone(b, k);
    } else {
      HavingNone([x], k);
    }
  }

  lemma {:induction false} PutHaving(s: seq<Inst>, x: Inst, k: int)
    ensures Having(Put(s, x), k) == Having(s, k) + Having([x], k)
  {
    var p := Slot(s, x.sn);
    SplicedHaving(s[..p], x, s[p..], k);
    assert s == s[..p] + s[p..];
  }

  /** Instructions of the same number keep their order. */
  lemma {:induction false} SortIsStable(s: seq<Inst>, k: int)
    ensures Having(Sort(s), k) == Having(s, k)
    decreases |s|
  {
    if s != [] {
      var t, x := s[..|s| - 1], s[|s| - 1];
      assert s == t + [x];
      SortIsStable(t, k);
      SortSnoc(t, x);
      PutHaving(Sort(t), x, k);
      HavingConcat(t, [x], k);
    }
  }

  lemma {:induction false} SortOfSorted(s: seq<Inst>)
    requires Sorted(s)
    ensures Sort(s) == s
    decreases |s|
  {
    if s != [] {
      var t := s[..|s| - 1];
      assert s == t + [s[|s| - 1]];
      SortOfSorted(t);
      SortSnoc(t, s[|s| - 1]);
    }
  }

  // ----- The buffer

  /** What has been taken off the queue, in order, and the queue. */
  datatype Buffer = Buffer(popped: seq<Inst>, queue: seq<Inst>)

  /** print_insts, before filtering. */
  function Flush(b: Buffer, lower: nat): (r: Buffer) {
    var q := Sort(b.queue);
    if |q| <= lower then Buffer(b.popped, q)
    else Buffer(b.popped + q[..|q| - lower], q[|q| - lower..])
  }

  /** queue_inst */
  function Arrive(b: Buffer, x: Inst, min: nat, max: nat): (r: Buffer) {
    var c := b.(queue := b.queue + [x]);
    if |c.queue| > max then Flush(c, min) else c
  }

  function ArriveAll(b: Buffer, xs: seq<Inst>, min: nat, max: nat): (r: Buffer)
    decreases |xs|
  {
    if xs == [] then b else Arrive(ArriveAll(b, xs[..|xs| - 1], min, max), xs[|xs| - 1], min, max)
  }

  const EMPTY := Buffer([], [])

  /** The order in which a whole trace leaves the buffer. */
  function Trace(xs: seq<Inst>, min: nat, max: nat): (r: seq<Inst>) {
    Flush(ArriveAll(EMPTY, xs, min, max), 0).popped
  }

  /** An arrival below the threshold waits; above it all are sorted, and the first leave until `min` are left. */
  lemma {:induction false} ArriveMeans(b: Buffer, x: Inst, min: nat, max: nat)
    ensures |b.queue| < max ==> Arrive(b, x, min, max) == Buffer(b.popped, b.queue + [x])
    ensures |b.queue| >= max ==>
      var r := Arrive(b, x, min, max);
      var n := |b.queue| + 1 - |r.queue|;
      && |r.queue| == (if |b.queue| < min then |b.queue| + 1 else min)
      && |r.popped| == |b.popped| + n && r.popped[..|b.popped|] == b.popped
      && Sorted(r.popped[|b.popped|..] + r.queue)
      && multiset(r.popped[|b.popped|..] + r.queue) == multiset(b.queue + [x])
  {
    var q, r := Sort(b.queue + [x]), Arrive(b, x, min, max);
    if |b.queue| >= max {
      SortIsPermutation(b.queue + [x]);
      assert r.popped[|b.popped|..] + r.queue == q;
    }
  }

  // ----- Nothing is lost, whatever the order

  lemma {:induction false} FlushConserves(b: Buffer, lower: nat)
    ensures var r := Flush(b, lower); multiset(r.popped + r.queue) == multiset(b.popped + b.queue)
    ensures b.popped <= Flush(b, lower).popped
  {
    var q := Sort(b.queue);
    SortIsPermutation(b.queue);
    if |q| > lower {
      assert q == q[..|q| - lower] + q[|q| - lower..];
    }
  }

  lemma {:induction false} ArriveAllConserves(xs: seq<Inst>, min: nat, max: nat)
    ensures var r := ArriveAll(EMPTY, xs, min, max); multiset(r.popped + r.queue) == multiset(xs)
    decreases |xs|
  {
    if xs != [] {
      var t, x := xs[..|xs| - 1], xs[|xs| - 1];
      assert xs == t + [x];
      ArriveAllConserves(t, min, max);
      var b := ArriveAll(EMPTY, t, min, max);
      var c := b.(queue := b.queue + [x]);
      FlushConserves(c, min);
    }
  }

  /** The output is a permutation of the arrivals, for every arrival order. */
  lemma {:induction false} TraceIsPermutation(xs: seq<Inst>, min: nat, max: nat)
    ensures multiset(Trace(xs, min, max)) == multiset(xs)
  {
    ArriveAllConserves(xs, min, max);
    var b := ArriveAll(EMPTY, xs, min, max);
    FlushConserves(b, 0);
    assert Flush(b, 0).queue == [];
    assert Flush(b, 0).popped + [] == Flush(b, 0).popped;
  }

  // ----- How far out of order an arrival may be

  /** How many instructions of `s` have a number above k. */
  function Above(s: seq<Inst>, k: int): (n: nat)
    ensures n <= |s|
  {
    if s == [] then 0 else Above(s[..|s| - 1], k) + if s[|s| - 1].sn > k then 1 else 0
  }

  lemma {:induction false} AboveConcat(a: seq<Inst>, b: seq<Inst>, k: int)
    ensures Above(a + b, k) == Above(a, k) + Above(b, k)
    decreases |b|
  {
    if b == [] {
      assert a + b == a;
    } else {
      assert (a + b)[..|a + b| - 1] == a + b[..|b| - 1];
      AboveConcat(a, b[..|b| - 1], k);
    }
  }

  lemma {:induction false} AboveWithout(t: seq<Inst>, j: nat, k: int)
    requires j < |t|
    ensures Above(t, k) == Above(t[..j] + t[j + 1..], k) + if t[j].sn > k then 1 else 0
  {
    assert t == t[..j] + ([t[j]] + t[j + 1..]);
    AboveConcat(t[..j], [t[j]] + t[j + 1..], k);
    AboveConcat([t[j]], t[j + 1..], k);
    AboveConcat(t[..j], t[j + 1..], k);
    assert Above([t[j]], k) == if t[j].sn > k then 1 else 0;
  }

  lemma {:induction false} MultisetWithout(t: seq<Inst>, j: nat)
    requires j < |t|
    ensures multiset(t[..j] + t[j + 1..]) == multiset(t) - multiset{t[j]}
  {
    assert t == t[..j] + [t[j]] + t[j + 1..];
  }

  lemma {:induction false} AbovePermuted(s: seq<Inst>, t: seq<Inst>, k: int)
    requires multiset(s) == multiset(t)
    ensures Above(s, k) == Above(t, k)
    decreases |s|
  {
    if s == [] {
      assert |t| == |multiset(t)| == 0;
    } else {
      var i := |s| - 1;
      assert s[i] in multiset(s);
      var j :| 0 <= j < |t| && t[j] == s[i];
      MultisetWithout(s, i);
      MultisetWithout(t, j);
      AboveWithout(s, i, k);
      AboveWithout(t, j, k);
      AbovePermuted(s[..i] + s[i + 1..], t[..j] + t[j + 1..], k);
    }
  }

  lemma {:induction false} AboveAll(s: seq<Inst>, k: int)
    requires forall i :: 0 <= i < |s| ==> s[i].sn > k
    ensures Above(s, k) == |s|
    decreases |s|
  {
    if s != [] {
      AboveAll(s[..|s| - 1], k);
    }
  }

  lemma {:induction false} AboveNone(s: seq<Inst>, k: int)
    requires forall i :: 0 <= i < |s| ==> s[i].sn <= k
    ensures Above(s, k) == 0
    decreases |s|
  {
    if s != [] {
      AboveNone(s[..|s| - 1], k);
    }
  }

  /** In a sorted sequence a + b, nothing of a exceeds k exactly when at most |b| numbers do. */
  lemma {:induction false} AboveBoundary(a: seq<Inst>, b: seq<Inst>, k: int)
    requires Sorted(a + b) && a != []
    ensures a[|a| - 1].sn <= k <==> Above(a + b, k) <= |b|
  {
    var s := a + b;
    assert forall i :: 0 <= i < |a| ==> a[i] == s[i];
    assert forall i :: 0 <= i < |b| ==> b[i] == s[|a| + i];
    AboveConcat(a, b, k);
    if a[|a| - 1].sn <= k {
      AboveNone(a, k);
    } else {
      AboveAll(b, k);
    }
  }

  /** The length of the queue before the i-th arrival, which depends on the thresholds only. */
  function QueueLength(i: nat, min: nat, max: nat): (n: nat)
    ensures n <= i
  {
    if i == 0 then 0
    else
      var n := QueueLength(i - 1, min, max) + 1;
      if n > max && n > min then min else n
  }

  lemma {:induction false} QueueLengthIs(xs: seq<Inst>, min: nat, max: nat)
    ensures var b := ArriveAll(EMPTY, xs, min, max);
            |b.queue| == QueueLength(|xs|, min, max) && |b.popped| == |xs| - |b.queue|
    decreases |xs|
  {
    if xs != [] {
      var t, x := xs[..|xs| - 1], xs[|xs| - 1];
      QueueLengthIs(t, min, max);
      ArriveLengths(ArriveAll(EMPTY, t, min, max), x, min, max);
    }
  }

  lemma {:induction false} ArriveLengths(b: Buffer, x: Inst, min: nat, max: nat)
    ensures var r, n := Arrive(b, x, min, max), |b.queue| + 1;
            && |r.queue| == (if n > max && n > min then min else n)
            && |r.popped| + |r.queue| == |b.popped| + n
  {
    FlushLengths(b.(queue := b.queue + [x]), min);
  }

  lemma {:induction false} FlushLengths(b: Buffer, lower: nat)
    ensures var r, n := Flush(b, lower), |b.queue|;
            |r.queue| == (if n > lower then lower else n) && |r.popped| + |r.queue| == |b.popped| + n
  {
    assert |Sort(b.queue)| == |b.queue|;
  }

  /** After anything has been popped, at least min instructions stay queued. */
  lemma {:induction false} QueueKeepsMin(i: nat, min: nat, max: nat)
    ensures QueueLength(i, min, max) == i || QueueLength(i, min, max) >= min
  {
    if i > 0 {
      QueueKeepsMin(i - 1, min, max);
    }
  }

  /**
    The i-th arrival comes in time: nothing has been printed yet, or no more instructions
    with a larger number came before it than are still in the queue.
   */
  ghost predicate InTime(xs: seq<Inst>, i: nat, min: nat, max: nat)
    requires i < |xs|
  {
    var n := QueueLength(i, min, max);
    n == i || Above(xs[..i], xs[i].sn) <= n
  }

  lemma {:induction false} SlotBehind(a: seq<Inst>, b: seq<Inst>, k: int)
    requires a == [] || a[|a| - 1].sn <= k
    ensures Slot(a + b, k) == |a| + Slot(b, k)
  {
    var s, p := a + b, |a| + Slot(b, k);
    forall i | p <= i < |s| ensures k < s[i].sn {
      assert s[i] == b[i - |a|];
    }
    SlotIs(s, k, p);
  }

  lemma {:induction false} PutBehind(a: seq<Inst>, b: seq<Inst>, x: Inst)
    requires a == [] || a[|a| - 1].sn <= x.sn
    ensures Put(a + b, x) == a + Put(b, x)
  {
    SlotBehind(a, b, x.sn);
    SpliceBehind(a, b, Slot(b, x.sn), x);
  }

  lemma {:induction false} SpliceBehind(a: seq<Inst>, b: seq<Inst>, q: nat, x: Inst)
    requires q <= |b|
    ensures (a + b)[..|a| + q] + [x] + (a + b)[|a| + q..] == a + (b[..q] + [x] + b[q..])
  {
  }

  /** In a buffer that has popped the front of the sorted trace, in time means not below it. */
  lemma {:induction false} InTimeMeans(xs: seq<Inst>, x: Inst, min: nat, max: nat)
    requires var b := ArriveAll(EMPTY, xs, min, max); b.popped + Sort(b.queue) == Sort(xs)
    ensures var p := ArriveAll(EMPTY, xs, min, max).popped;
            (p == [] || p[|p| - 1].sn <= x.sn) <==> InTime(xs + [x], |xs|, min, max)
  {
    var b := ArriveAll(EMPTY, xs, min, max);
    QueueLengthIs(xs, min, max);
    assert (xs + [x])[..|xs|] == xs;
    if b.popped != [] {
      SortIsPermutation(xs);
      AbovePermuted(Sort(xs), xs, x.sn);
      AboveBoundary(b.popped, Sort(b.queue), x.sn);
    }
  }

  /** One arrival in time keeps the popped part a front of the sorted trace. */
  lemma {:induction false} ArriveInTime(xs: seq<Inst>, b: Buffer, x: Inst, min: nat, max: nat)
    requires b.popped + Sort(b.queue) == Sort(xs)
    requires b.popped == [] || b.popped[|b.popped| - 1].sn <= x.sn
    ensures var r := Arrive(b, x, min, max); r.popped + Sort(r.queue) == Sort(xs + [x])
  {
    SortSnoc(xs, x);
    PutBehind(b.popped, Sort(b.queue), x);
    SortSnoc(b.queue, x);
    FlushKeepsOrder(b.(queue := b.queue + [x]), min);
  }

  /** While arrivals come in time, what was popped is the front of the sorted trace. */
  lemma {:induction false} PoppedIsFront(xs: seq<Inst>, min: nat, max: nat)
    requires forall i :: 0 <= i < |xs| ==> InTime(xs, i, min, max)
    ensures var b := ArriveAll(EMPTY, xs, min, max); b.popped + Sort(b.queue) == Sort(xs)
    decreases |xs|
  {
    if xs != [] {
      var t, x := xs[..|xs| - 1], xs[|xs| - 1];
      assert xs == t + [x];
      forall i | 0 <= i < |t| ensures InTime(t, i, min, max) {
        assert InTime(xs, i, min, max) && t[..i] == xs[..i];
      }
      PoppedIsFront(t, min, max);
      InTimeMeans(t, x, min, max);
      assert InTime(xs, |t|, min, max);
      ArriveInTime(t, ArriveAll(EMPTY, t, min, max), x, min, max);
    }
  }

  lemma {:induction false} FlushKeepsOrder(b: Buffer, lower: nat)
    ensures var r := Flush(b, lower); r.popped + Sort(r.queue) == b.popped + Sort(b.queue)
  {
    var q := Sort(b.queue);
    SortOfSorted(q);
    if |q| > lower {
      assert q == q[..|q| - lower] + q[|q| - lower..];
      SortOfSorted(q[|q| - lower..]);
    }
  }

  // ----- The main results

  /** Arrivals in time come out exactly as one stable sort of the whole trace would put them. */
  lemma {:induction false} TraceIsSort(xs: seq<Inst>, min: nat, max: nat)
    requires forall i :: 0 <= i < |xs| ==> InTime(xs, i, min, max)
    ensures Trace(xs, min, max) == Sort(xs)
  {
    PoppedIsFront(xs, min, max);
    var b := ArriveAll(EMPTY, xs, min, max);
    var q := Sort(b.queue);
    assert q[..|q| - 0] == q;
  }

  /** The documented assumption: no arrival is more than min places out of order. */
  lemma {:induction false} BoundedDisorder(xs: seq<Inst>, min: nat, max: nat)
    requires forall i :: 0 <= i < |xs| ==> Above(xs[..i], xs[i].sn) <= min
    ensures Trace(xs, min, max) == Sort(xs)
  {
    forall i | 0 <= i < |xs| ensures InTime(xs, i, min, max) {
      QueueKeepsMin(i, min, max);
    }
    TraceIsSort(xs, min, max);
  }

  lemma {:induction false} PoppedGrows(xs: seq<Inst>, n: nat, min: nat, max: nat)
    requires n <= |xs|
    ensures ArriveAll(EMPTY, xs[..n], min, max).popped <= ArriveAll(EMPTY, xs, min, max).popped
    decreases |xs|
  {
    if n == |xs| {
      assert xs[..n] == xs;
    } else {
      var t := xs[..|xs| - 1];
      assert t[..n] == xs[..n];
      PoppedGrows(t, n, min, max);
    }
  }

  /** An instruction that arrives too late comes out behind a larger number. */
  lemma {:induction false} LateIsUnsorted(xs: seq<Inst>, n: nat, min: nat, max: nat)
    requires n < |xs| && !InTime(xs, n, min, max)
    requires forall i :: 0 <= i < n ==> InTime(xs, i, min, max)
    ensures !Sorted(Trace(xs, min, max))
  {
    var t, x := xs[..n], xs[n];
    assert xs[..n + 1] == t + [x];
    forall i | 0 <= i < |t| ensures InTime(t, i, min, max) {
      assert InTime(xs, i, min, max) && t[..i] == xs[..i];
    }
    PoppedIsFront(t, min, max);
    var b := ArriveAll(EMPTY, t, min, max);
    assert !InTime(t + [x], n, min, max) by {
      assert (t + [x])[..n] == xs[..n];
    }
    InTimeMeans(t, x, min, max);
    LateCount(xs, n, b, Trace(xs, min, max), min, max);
  }

  /** How many instructions of `s` have a number up to k. */
  ghost function UpTo(s: seq<Inst>, k: int): (n: nat) {
    |s| - Above(s, k)
  }

  /** In sorted output everything behind a number above k is above k too. */
  lemma {:induction false} UpToFront(out: seq<Inst>, p: seq<Inst>, k: int)
    requires Sorted(out) && p <= out && p != [] && p[|p| - 1].sn > k
    ensures UpTo(out, k) == UpTo(p, k)
  {
    var rest := out[|p|..];
    assert out == p + rest;
    forall i | 0 <= i < |rest| ensures rest[i].sn > k {
      assert rest[i] == out[|p| + i] && out[|p| - 1] == p[|p| - 1];
    }
    AboveAll(rest, k);
    AboveConcat(p, rest, k);
  }

  /** The arrivals up to n hold at least one number up to xs[n].sn more than their sorted front. */
  lemma {:induction false} UpToArrivals(xs: seq<Inst>, n: nat, p: seq<Inst>, q: seq<Inst>)
    requires n < |xs| && p + q == Sort(xs[..n])
    ensures UpTo(p, xs[n].sn) < UpTo(xs, xs[n].sn)
  {
    var k, t, u := xs[n].sn, xs[..n], xs[n + 1..];
    SortIsPermutation(t);
    AbovePermuted(Sort(t), t, k);
    AboveConcat(p, q, k);
    assert xs == t + ([xs[n]] + u);
    AboveConcat(t, [xs[n]] + u, k);
    AboveConcat([xs[n]], u, k);
    assert Above([xs[n]], k) == 0;
  }

  lemma {:induction false} LateCount(xs: seq<Inst>, n: nat, b: Buffer, out: seq<Inst>, min: nat, max: nat)
    requires n < |xs| && b == ArriveAll(EMPTY, xs[..n], min, max) && b.popped + Sort(b.queue) == Sort(xs[..n])
    requires b.popped != [] && xs[n].sn < b.popped[|b.popped| - 1].sn
    requires out == Trace(xs, min, max)
    ensures !Sorted(out)
  {
    PoppedGrows(xs, n, min, max);
    assert b.popped <= out by { FlushConserves(ArriveAll(EMPTY, xs, min, max), 0); }
    UpToArrivals(xs, n, b.popped, Sort(b.queue));
    TraceIsPermutation(xs, min, max);
    AbovePermuted(out, xs, xs[n].sn);
    assert |out| == |multiset(out)| == |multiset(xs)| == |xs|;
    if Sorted(out) {
      UpToFront(out, b.popped, xs[n].sn);
    }
  }

  /** The output is in order exactly when every arrival comes in time. */
  lemma {:induction false} SortedIffInTime(xs: seq<Inst>, min: nat, max: nat)
    ensures Sorted(Trace(xs, min, max)) <==> forall i :: 0 <= i < |xs| ==> InTime(xs, i, min, max)
  {
    if forall i :: 0 <= i < |xs| ==> InTime(xs, i, min, max) {
      TraceIsSort(xs, min, max);
    } else {
      var n := 0;
      while InTime(xs, n, min, max)
        invariant n < |xs| && forall i :: 0 <= i < n ==> InTime(xs, i, min, max)
        decreases |xs| - n
      {
        n := n + 1;
      }
      LateIsUnsorted(xs, n, min, max);
    }
  }

  /** No larger uniform bound would do: with one place more some trace comes out of order. */
  lemma {:induction false} BoundIsTight(min: nat, max: nat) returns (xs: seq<Inst>)
    requires min <= max
    ensures forall i :: 0 <= i < |xs| ==> Above(xs[..i], xs[i].sn) <= min + 1
    ensures !Sorted(Trace(xs, min, max))
  {
    var late := Inst(2 * (max - min) - 1, 0, 0);
    xs := Evens(max + 1) + [late];
    assert xs[..max + 1] == Evens(max + 1);
    AboveEvens(max + 1, max - min);
    forall i | 0 <= i <= max ensures Above(xs[..i], xs[i].sn) == 0 {
      assert xs[..i] == Evens(i);
      AboveNone(Evens(i), 2 * i);
    }
    FirstFlush(max + 1, min, max);
    assert !InTime(xs, max + 1, min, max);
    SortedIffInTime(xs, min, max);
  }

  ghost function Evens(n: nat): (s: seq<Inst>) {
    seq(n, i => Inst(2 * i, 0, 0))
  }

  lemma {:induction false} AboveEvens(n: nat, m: nat)
    requires m <= n
    ensures Above(Evens(n), 2 * m - 1) == n - m
    decreases n
  {
    if n > 0 {
      assert Evens(n)[..n - 1] == Evens(n - 1);
      if m == n {
        AboveNone(Evens(n), 2 * m - 1);
      } else {
        AboveEvens(n - 1, m);
      }
    }
  }

  lemma {:induction false} FirstFlush(i: nat, min: nat, max: nat)
    requires i <= max + 1 && min <= max
    ensures QueueLength(i, min, max) == if i == max + 1 then min else i
  {
    if i > 0 {
      FirstFlush(i - 1, min, max);
    }
  }

  // ----- Filtering and the program

  /** The printing range; a bound that is not positive is off. */
  datatype Range = Range(snStart: int, snStop: int, tickStart: int, tickStop: int, onlyCommitted: bool) {

    predicate Shows(x: Inst) {
      && !(snStart > 0 && x.sn < snStart)
      && !(snStop > 0 && x.sn > snStop)
      && !(tickStart > 0 && x.fetch < tickStart)
      && !(tickStop > 0 && x.fetch > tickStop)
      && !(onlyCommitted && x.retire == 0)
    }

    function Select(s: seq<Inst>): (r: seq<Inst>)
    {
      if s == [] then [] else Select(s[..|s| - 1]) + if Shows(s[|s| - 1]) then [s[|s| - 1]] else []
    }

    /** Of each instruction in the range as many are selected as there are, of any other none. */
    lemma {:induction false} SelectCount(s: seq<Inst>, x: Inst)
      ensures multiset(Select(s))[x] ==
        if && (onlyCommitted ==> x.retire != 0)
           && (snStart > 0 ==> snStart <= x.sn) && (snStop > 0 ==> x.sn <= snStop)
           && (tickStart > 0 ==> tickStart <= x.fetch) && (tickStop > 0 ==> x.fetch <= tickStop)
        then multiset(s)[x] else 0
      decreases |s|
    {
      if s != [] {
        assert s == s[..|s| - 1] + [s[|s| - 1]];
        SelectCount(s[..|s| - 1], x);
      }
    }

    /** Of what the trace has in the range everything is printed, of all else nothing. */
    lemma {:induction false} PrintsRange(xs: seq<Inst>, min: nat, max: nat, x: Inst)
      ensures multiset(Select(Trace(xs, min, max)))[x] ==
        if && (onlyCommitted ==> x.retire != 0)
           && (snStart > 0 ==> snStart <= x.sn) && (snStop > 0 ==> x.sn <= snStop)
           && (tickStart > 0 ==> tickStart <= x.fetch) && (tickStop > 0 ==> x.fetch <= tickStop)
        then multiset(xs)[x] else 0
    {
      TraceIsPermutation(xs, min, max);
      SelectCount(Trace(xs, min, max), x);
    }

    lemma {:induction false} SelectMember(s: seq<Inst>, x: Inst)
      ensures x in Select(s) <==> x in s && Shows(x)
    {
      SelectCount(s, x);
      assert x in Select(s) <==> multiset(Select(s))[x] > 0;
      assert x in s <==> multiset(s)[x] > 0;
    }

    lemma {:induction false} SelectSnoc(s: seq<Inst>, x: Inst)
      ensures Select(s + [x]) == Select(s) + if Shows(x) then [x] else []
    {
      assert (s + [x])[..|s|] == s;
    }

    lemma {:induction false} SelectSorted(s: seq<Inst>)
      requires Sorted(s)
      ensures Sorted(Select(s))
      decreases |s|
    {
      if s != [] {
        SelectSorted(s[..|s| - 1]);
        forall x | x in Select(s[..|s| - 1]) ensures x.sn <= s[|s| - 1].sn {
          SelectMember(s[..|s| - 1], x);
        }
      }
    }
  }

  lemma {:induction false} MoveOne(p: seq<Inst>, front: seq<Inst>, q: seq<Inst>)
    requires q != []
    ensures (front + [q[0]]) + q[1..] == front + q && (p + front) + [q[0]] == p + (front + [q[0]])
  {
  }

  class Viewer {
    const range: Range
    const min: nat
    const max: nat
    var queue: seq<Inst>
    var lines: seq<Inst>         // what print_inst was called on
    ghost var popped: seq<Inst>  // what left the queue, printed or not

    ghost predicate Valid()
      reads this
    {
      lines == range.Select(popped)
    }

    ghost function Contents(): (b: Buffer)
      reads this
    {
      Buffer(popped, queue)
    }

    constructor (range: Range, min: nat, max: nat)
      ensures Valid() && Contents() == EMPTY
      ensures this.range == range && this.min == min && this.max == max
    {
      this.range, this.min, this.max := range, min, max;
      queue, lines, popped := [], [], [];
    }

    /** print_insts */
    method PrintInsts(lower: nat)
      requires Valid()
      modifies this
      ensures Valid() && Contents() == Flush(old(Contents()), lower)
    {
      queue := Sort(queue);
      ghost var q := queue;
      ghost var front := PrintFront(lower);
      assert front == q[..|front|] && queue == q[|front|..];
    }

    /** The loop of print_insts: `front` leaves the queue. */
    method PrintFront(lower: nat) returns (ghost front: seq<Inst>)
      requires Valid()
      modifies this
      ensures Valid() && front + queue == old(queue) && popped == old(popped) + front
      ensures |front| == if |old(queue)| <= lower then 0 else |old(queue)| - lower
    {
      front := [];
      while |queue| > lower
        invariant Valid() && front + queue == old(queue) && popped == old(popped) + front
        invariant front != [] ==> lower <= |queue|
        decreases |queue|
      {
        MoveOne(old(popped), front, queue);
        front := front + [queue[0]];
        PrintOne();
      }
    }

    method PrintOne()
      requires Valid() && queue != []
      modifies this
      ensures Valid() && queue == old(queue)[1..] && popped == old(popped) + [old(queue)[0]]
    {
      var item := queue[0];
      range.SelectSnoc(popped, item);
      queue := queue[1..];
      popped := popped + [item];
      if range.Shows(item) {
        lines := lines + [item];
      }
    }

    /** queue_inst */
    method QueueInst(x: Inst)
      requires Valid()
      modifies this
      ensures Valid() && Contents() == Arrive(old(Contents()), x, min, max)
    {
      queue := queue + [x];
      if |queue| > max {
        PrintInsts(min);
      }
    }

    /** The region of interest of process_trace, run to the end of the trace. */
    method ProcessTrace(xs: seq<Inst>)
      requires Valid() && Contents() == EMPTY
      modifies this
      ensures lines == range.Select(Trace(xs, min, max))
      ensures (forall i :: 0 <= i < |xs| ==> Above(xs[..i], xs[i].sn) <= min) ==>
        lines == range.Select(Sort(xs)) && Sorted(lines)
    {
      for i := 0 to |xs|
        invariant Valid() && Contents() == ArriveAll(EMPTY, xs[..i], min, max)
      {
        assert xs[..i + 1][..i] == xs[..i];
        QueueInst(xs[i]);
      }
      assert xs[..|xs|] == xs;
      PrintInsts(0);
      if forall i :: 0 <= i < |xs| ==> Above(xs[..i], xs[i].sn) <= min {
        BoundedDisorder(xs, min, max);
        range.SelectSorted(Sort(xs));
      }
    }
  }
}
