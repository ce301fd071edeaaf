/**
  The order in which ports are bound when a configuration is read back
  (gem5/configs/example/read_config.py): one pass over the sorted connections that accepts
  a connection when both of its ports are the next ones of their port vectors.
 */
module BindPorts {
  import opened Strings

  /** A PortConnection: element `index` of port vector `name` of an object. */
  datatype Port = Port(owner: string, name: string, index: nat) {
    function Vector(): (v: (string, string)) {
      (owner, name)
    }
  }

  datatype Conn = Conn(from: Port, to: Port) {
    function Flip(): (c: Conn) {
      Conn(to, from)
    }
  }

  // ----- Counting bound ports

  /** How many ends of `c` are on port vector v. */
  function Ends(c: Conn, v: (string, string)): (n: nat) {
    (if c.from.Vector() == v then 1 else 0) + (if c.to.Vector() == v then 1 else 0)
  }

  /** How many ends of the connections in `s` are on port vector v. */
  function Count(s: seq<Conn>, v: (string, string)): (n: nat) {
    if s == [] then 0 else Count(s[..|s| - 1], v) + Ends(s[|s| - 1], v)
  }

  /** After `s` has been made, both ports of `c` are the next ones of their vectors. */
  predicate Fits(s: seq<Conn>, c: Conn) {
    Count(s, c.from.Vector()) == c.from.index && Count(s, c.to.Vector()) == c.to.index
  }

  /** Made in this order, every vector gets its ports bound as 0, 1, 2, ... */
  ghost predicate InOrder(s: seq<Conn>) {
    forall i :: 0 <= i < |s| ==> Fits(s[..i], s[i])
  }

  ghost predicate HasEnd(s: seq<Conn>, p: Port) {
    exists i :: 0 <= i < |s| && (s[i].from == p || s[i].to == p)
  }

  /** What gather_port_connections yields of a symmetric configuration. */
  ghost predicate WellFormed(l: seq<Conn>) {
    && (forall i :: 0 <= i < |l| ==> l[i].Flip() in l)
    && (forall i, j :: 0 <= i < j < |l| ==> l[i].from != l[j].from)
    && (forall i :: 0 <= i < |l| ==> l[i].from != l[i].to)
  }

  /** Of every pair of opposite connections in `l`, `s` has exactly one. */
  ghost predicate Complete(s: seq<Conn>, l: seq<Conn>) {
    && (forall c :: c in s ==> c in l)
    && (forall c :: c in l ==> (c in s <==> c.Flip() !in s))
  }

  ghost predicate NoLoops(s: seq<Conn>) {
    forall i :: 0 <= i < |s| ==> s[i].from != s[i].to
  }

  /** In an order without loops, a port is bound exactly when its vector's counter has passed it. */
  lemma {:induction false} BoundBelowCount(s: seq<Conn>, p: Port)
    requires InOrder(s) && NoLoops(s)
    ensures HasEnd(s, p) <==> p.index < Count(s, p.Vector())
    decreases |s|
  {
    if s != [] {
      var t, c := s[..|s| - 1], s[|s| - 1];
      InOrderFront(s);
      BoundBelowCount(t, p);
      HasEndSnoc(t, c, p);
      assert s == t + [c];
    }
  }

  lemma {:induction false} InOrderFront(s: seq<Conn>)
    requires InOrder(s) && s != []
    ensures InOrder(s[..|s| - 1]) && Fits(s[..|s| - 1], s[|s| - 1])
  {
    var t := s[..|s| - 1];
    assert forall i :: 0 <= i < |t| ==> t[..i] == s[..i];
  }

  lemma {:induction false} HasEndSnoc(t: seq<Conn>, c: Conn, p: Port)
    ensures HasEnd(t + [c], p) <==> HasEnd(t, p) || c.from == p || c.to == p
  {
    if HasEnd(t, p) {
      var i :| 0 <= i < |t| && (t[i].from == p || t[i].to == p);
      assert (t + [c])[i] == t[i];
    }
    assert (t + [c])[|t|] == c;
  }

  // ----- The pass

  /** The connections accepted by one pass over `l`. */
  function Greedy(l: seq<Conn>): (s: seq<Conn>)
    ensures |s| <= |l|
  {
    if l == [] then []
    else
      var s := Greedy(l[..|l| - 1]);
      if Fits(s, l[|l| - 1]) then s + [l[|l| - 1]] else s
  }

  lemma {:induction false} GreedySnoc(l: seq<Conn>, c: Conn)
    ensures Greedy(l + [c]) == if Fits(Greedy(l), c) then Greedy(l) + [c] else Greedy(l)
  {
    assert (l + [c])[..|l|] == l;
  }

  /** The pass up to connection i, and with it */
  lemma {:induction false} GreedyNext(l: seq<Conn>, i: nat, made: seq<Conn>, all: seq<Conn>)
    requires i < |l| && made == Greedy(l[..i]) && all == if Fits(made, l[i]) then made + [l[i]] else made
    ensures all == Greedy(l[..i + 1])
  {
    GreedySnoc(l[..i], l[i]);
    assert l[..i + 1] == l[..i] + [l[i]];
  }

  lemma {:induction false} GreedySound(l: seq<Conn>)
    ensures InOrder(Greedy(l))
    ensures forall c :: c in Greedy(l) ==> c in l
    decreases |l|
  {
    if l != [] {
      GreedySound(l[..|l| - 1]);
      var t, s := Greedy(l[..|l| - 1]), Greedy(l);
      forall i | 0 <= i < |s| ensures Fits(s[..i], s[i]) {
        assert i < |t| ==> s[..i] == t[..i];
        assert i == |t| ==> s[..i] == t;
      }
    }
  }

  /** The connections of `l` picked by a mask, in the order of `l`. */
  ghost function Pick(l: seq<Conn>, mask: seq<bool>): (s: seq<Conn>)
    requires |mask| == |l|
    ensures forall c :: c in s ==> c in l
  {
    if l == [] then []
    else Pick(l[..|l| - 1], mask[..|l| - 1]) + if mask[|l| - 1] then [l[|l| - 1]] else []
  }

  /** Some choice of one orientation for every pair, taken in the order of `l`, binds in order. */
  ghost predicate Bindable(l: seq<Conn>) {
    exists mask: seq<bool> :: |mask| == |l| && InOrder(Pick(l, mask)) && Complete(Pick(l, mask), l)
  }

  /** A port is an end of one pair only. */
  lemma {:induction false} EndDetermines(l: seq<Conn>, c: Conn, d: Conn)
    requires WellFormed(l) && c in l && d in l
    requires c.from == d.from || c.from == d.to || c.to == d.from || c.to == d.to
    ensures c == d || c == d.Flip()
  {
    var i :| 0 <= i < |l| && l[i] == c;
    var j :| 0 <= j < |l| && l[j] == d;
    assert c.Flip() in l && d.Flip() in l;
    var k :| 0 <= k < |l| && l[k] == c.Flip();
    var m :| 0 <= m < |l| && l[m] == d.Flip();
  }

  /** If the pass has moved beyond one port of a connection it has made the connection. */
  lemma {:induction false} PassedOneEnd(l: seq<Conn>, s: seq<Conn>, c: Conn)
    requires WellFormed(l) && c in l && InOrder(s) && forall d :: d in s ==> d in l
    ensures c.from.index < Count(s, c.from.Vector()) <==> c.to.index < Count(s, c.to.Vector())
    ensures c.from.index < Count(s, c.from.Vector()) <==> c in s || c.Flip() in s
  {
    assert NoLoops(s) by {
      forall i | 0 <= i < |s| ensures s[i].from != s[i].to { assert s[i] in l; }
    }
    BoundBelowCount(s, c.from);
    BoundBelowCount(s, c.to);
    if c in s || c.Flip() in s {
      var i :| 0 <= i < |s| && (s[i] == c || s[i] == c.Flip());
      assert HasEnd(s, c.from) && HasEnd(s, c.to);
    }
    if HasEnd(s, c.from) || HasEnd(s, c.to) {
      var i :| 0 <= i < |s| && (s[i].from == c.from || s[i].to == c.from || s[i].from == c.to || s[i].to == c.to);
      assert s[i] in l;
      EndDetermines(l, c, s[i]);
      assert s[i] in s;
    }
  }

  lemma {:induction false} CountSnoc(s: seq<Conn>, c: Conn, v: (string, string))
    ensures Count(s + [c], v) == Count(s, v) + Ends(c, v)
  {
    assert (s + [c])[..|s|] == s;
  }

  lemma {:induction false} InOrderPrefix(s: seq<Conn>, c: Conn)
    requires InOrder(s + [c])
    ensures InOrder(s) && Fits(s, c)
  {
    var t := s + [c];
    assert t[..|s|] == s && Fits(t[..|s|], t[|s|]);
    forall i | 0 <= i < |s| ensures Fits(s[..i], s[i]) {
      assert s[..i] == t[..i] && Fits(t[..i], t[i]);
    }
  }

  /** One step of the argument below: the other choice makes c, the pass may or may not. */
  lemma {:induction false} StepStaysAhead(l: seq<Conn>, s: seq<Conn>, g: seq<Conn>, c: Conn, v: (string, string))
    requires WellFormed(l) && c in l && InOrder(g) && (forall d :: d in g ==> d in l) && Fits(s, c)
    requires Count(s, v) <= Count(g, v)
    requires Count(s, c.from.Vector()) <= Count(g, c.from.Vector())
    requires Count(s, c.to.Vector()) <= Count(g, c.to.Vector())
    ensures Count(s + [c], v) <= Count(if Fits(g, c) then g + [c] else g, v)
  {
    CountSnoc(s, c, v);
    CountSnoc(g, c, v);
    PassedOneEnd(l, g, c);
    assert c.from != c.to;
  }

  /** The pass stays ahead of every other choice: no vector's counter is ever behind. */
  lemma {:induction false} GreedyStaysAhead(l: seq<Conn>, n: nat, mask: seq<bool>, v: (string, string))
    requires WellFormed(l) && n <= |l| && |mask| == n && InOrder(Pick(l[..n], mask))
    ensures Count(Pick(l[..n], mask), v) <= Count(Greedy(l[..n]), v)
    decreases n
  {
    if n > 0 {
      var m, c := mask[..n - 1], l[n - 1];
      assert l[..n][..n - 1] == l[..n - 1];
      var s, g := Pick(l[..n - 1], m), Greedy(l[..n - 1]);
      GreedySound(l[..n - 1]);
      if mask[n - 1] {
        InOrderPrefix(s, c);
        GreedyStaysAhead(l, n - 1, m, v);
        GreedyStaysAhead(l, n - 1, m, c.from.Vector());
        GreedyStaysAhead(l, n - 1, m, c.to.Vector());
        StepStaysAhead(l, s, g, c, v);
      } else {
        assert Pick(l[..n], mask) == s;
        GreedyStaysAhead(l, n - 1, m, v);
        CountSnoc(g, c, v);
      }
    }
  }

  // ----- When the pass makes half of the connections

  ghost function Elements(s: seq<Conn>): (r: set<Conn>) {
    set c | c in s
  }

  lemma {:induction false} DistinctSize(s: seq<Conn>)
    requires forall i, j :: 0 <= i < j < |s| ==> s[i] != s[j]
    ensures |Elements(s)| == |s|
    decreases |s|
  {
    if s != [] {
      var t, c := s[..|s| - 1], s[|s| - 1];
      DistinctSize(t);
      assert Elements(s) == Elements(t) + {c};
    }
  }

  /** Neither orientation of a connection is made twice, and never both. */
  lemma {:induction false} NeverTwice(l: seq<Conn>, s: seq<Conn>, i: nat, j: nat)
    requires WellFormed(l) && InOrder(s) && (forall c :: c in s ==> c in l) && i < j < |s|
    ensures s[i] != s[j] && s[i] != s[j].Flip()
  {
    var t := s[..j];
    forall k | 0 <= k < |t| ensures Fits(t[..k], t[k]) {
      assert t[..k] == s[..k] && Fits(s[..k], s[k]);
    }
    assert Fits(s[..j], s[j]) && s[j] in l && t[i] == s[i];
    PassedOneEnd(l, t, s[j]);
  }

  /** The connections of `s` turned round. */
  ghost function Mirror(s: seq<Conn>): (r: set<Conn>)
    ensures forall c :: c in r <==> c.Flip() in s
  {
    assert forall c: Conn {:trigger c.Flip()} :: c.Flip().Flip() == c;
    set c | c in s :: c.Flip()
  }

  lemma {:induction false} SameSize(a: set<Conn>, b: set<Conn>)
    requires forall c :: c in a <==> c.Flip() in b
    ensures |a| == |b|
    decreases |a|
  {
    if a == {} {
      assert forall c :: c in b ==> c.Flip().Flip() in b && c.Flip() in a;
    } else {
      var c :| c in a;
      SameSize(a - {c}, b - {c.Flip()});
    }
  }

  lemma {:induction false} MirrorDisjoint(l: seq<Conn>, s: seq<Conn>)
    requires WellFormed(l) && InOrder(s) && forall c :: c in s ==> c in l
    ensures Elements(s) !! Mirror(s) && Elements(s) + Mirror(s) <= Elements(l)
    ensures |Elements(s) + Mirror(s)| == 2 * |s|
  {
    forall i, j | 0 <= i < |s| && 0 <= j < |s| ensures s[i] != s[j].Flip() && (i < j ==> s[i] != s[j]) {
      assert s[i] in l && s[i].from != s[i].to;
      if i < j { NeverTwice(l, s, i, j); } else if j < i { NeverTwice(l, s, j, i); }
    }
    DistinctSize(s);
    SameSize(Mirror(s), Elements(s));
    forall c | c in Mirror(s) ensures c in l && c !in Elements(s) {
      WellFormedFlip(l, c.Flip());
    }
  }

  lemma {:induction false} HalfIsComplete(l: seq<Conn>, s: seq<Conn>)
    requires Elements(s) !! Mirror(s) && Elements(s) + Mirror(s) == Elements(l)
    ensures Complete(s, l)
  {
    forall c | c in l ensures c in s <==> c.Flip() !in s {
      assert c in Elements(s) + Mirror(s);
      assert c in Elements(s) ==> c !in Mirror(s);
    }
    forall c | c in s ensures c in l {
      assert c in Elements(s) + Mirror(s);
    }
  }

  lemma {:induction false} CompleteIsAll(l: seq<Conn>, s: seq<Conn>)
    requires Complete(s, l) && Elements(s) + Mirror(s) <= Elements(l)
    ensures Elements(s) + Mirror(s) == Elements(l)
  {
    forall c | c in Elements(l) ensures c in Elements(s) + Mirror(s) {
      assert c in s || c in Mirror(s);
    }
  }

  /** An order within `l` holds half of the list exactly when it has one of every pair. */
  lemma {:induction false} HalfIffComplete(l: seq<Conn>, s: seq<Conn>)
    requires WellFormed(l) && InOrder(s) && forall c :: c in s ==> c in l
    ensures 2 * |s| == |l| <==> Complete(s, l)
  {
    MirrorDisjoint(l, s);
    DistinctSize(l);
    if 2 * |s| == |l| {
      SubsetEqual(Elements(s) + Mirror(s), Elements(l));
      HalfIsComplete(l, s);
    }
    if Complete(s, l) {
      CompleteIsAll(l, s);
    }
  }

  lemma {:induction false} SubsetEqual(a: set<Conn>, b: set<Conn>)
    requires a <= b && |a| == |b|
    ensures a == b
  {
    assert |b - a| == |b| - |a|;
  }

  lemma {:induction false} WellFormedFlip(l: seq<Conn>, c: Conn)
    requires WellFormed(l) && c in l
    ensures c.Flip() in l
  {
  }

  // ----- The main results

  /** Connections are made in the order of the pass, so some mask picks exactly them. */
  lemma {:induction false} GreedyIsPick(l: seq<Conn>) returns (mask: seq<bool>)
    ensures |mask| == |l| && Pick(l, mask) == Greedy(l)
    decreases |l|
  {
    mask := [];
    if l != [] {
      var m := GreedyIsPick(l[..|l| - 1]);
      mask := m + [Fits(Greedy(l[..|l| - 1]), l[|l| - 1])];
      assert mask[..|l| - 1] == m;
    }
  }

  /** If some choice makes all connections, so does the pass. */
  lemma {:induction false} GreedyCompletes(l: seq<Conn>, mask: seq<bool>)
    requires WellFormed(l) && |mask| == |l| && InOrder(Pick(l, mask)) && Complete(Pick(l, mask), l)
    ensures Complete(Greedy(l), l)
  {
    var g, s := Greedy(l), Pick(l, mask);
    GreedySound(l);
    MirrorDisjoint(l, g);
    assert l[..|l|] == l;
    forall c | c in l ensures c in g <==> c.Flip() !in g {
      PassedOneEnd(l, s, c);
      GreedyStaysAhead(l, |l|, mask, c.from.Vector());
      PassedOneEnd(l, g, c);
      assert c in Elements(g) ==> c !in Mirror(g);
    }
  }

  /** The pass makes all connections exactly when some choice within its list could. */
  lemma {:induction false} GreedyOptimal(l: seq<Conn>)
    requires WellFormed(l)
    ensures 2 * |Greedy(l)| == |l| <==> Bindable(l)
    ensures 2 * |Greedy(l)| == |l| <==> Complete(Greedy(l), l)
  {
    GreedySound(l);
    HalfIffComplete(l, Greedy(l));
    if Complete(Greedy(l), l) {
      var mask := GreedyIsPick(l);
    }
    if Bindable(l) {
      var mask: seq<bool> :| |mask| == |l| && InOrder(Pick(l, mask)) && Complete(Pick(l, mask), l);
      GreedyCompletes(l, mask);
    }
  }

  // ----- Sorting, and the dictionary of the program

  /** PortConnection.__cmp__ */
  predicate PortBelow(p: Port, q: Port) {
    || StrBelow(p.owner, q.owner)
    || (p.owner == q.owner && StrBelow(p.name, q.name))
    || (p.owner == q.owner && p.name == q.name && p.index < q.index)
  }

  /** The order of pairs of ports. */
  predicate Below(c: Conn, d: Conn) {
    PortBelow(c.from, d.from) || (c.from == d.from && PortBelow(c.to, d.to))
  }

  lemma {:induction false} BelowTotal(c: Conn, d: Conn)
    ensures c != d ==> Below(c, d) || Below(d, c)
    ensures !(Below(c, d) && Below(d, c))
  {
    PortTotal(c.from, d.from);
    PortTotal(c.to, d.to);
  }

  lemma {:induction false} PortTotal(p: Port, q: Port)
    ensures p != q ==> PortBelow(p, q) || PortBelow(q, p)
    ensures !(PortBelow(p, q) && PortBelow(q, p))
  {
    StrTotal(p.owner, q.owner);
    StrTotal(p.name, q.name);
  }

  lemma {:induction false} PortTransitive(p: Port, q: Port, r: Port)
    requires PortBelow(p, q) && PortBelow(q, r)
    ensures PortBelow(p, r)
  {
    if StrBelow(p.owner, q.owner) && StrBelow(q.owner, r.owner) {
      StrTransitive(p.owner, q.owner, r.owner);
    }
    if StrBelow(p.name, q.name) && StrBelow(q.name, r.name) {
      StrTransitive(p.name, q.name, r.name);
    }
  }

  lemma {:induction false} BelowTransitive(c: Conn, d: Conn, e: Conn)
    requires Below(c, d) && Below(d, e)
    ensures Below(c, e)
  {
    if PortBelow(c.from, d.from) && PortBelow(d.from, e.from) {
      PortTransitive(c.from, d.from, e.from);
    }
    if PortBelow(c.to, d.to) && PortBelow(d.to, e.to) {
      PortTransitive(c.to, d.to, e.to);
    }
  }

  ghost predicate Ordered(l: seq<Conn>) {
    forall i, j :: 0 <= i < j < |l| ==> !Below(l[j], l[i])
  }

  function Put(l: seq<Conn>, c: Conn): (r: seq<Conn>) {
    if l == [] || !Below(c, l[|l| - 1]) then l + [c]
    else Put(l[..|l| - 1], c) + [l[|l| - 1]]
  }

  /** Python's sorted. */
  function Sort(l: seq<Conn>): (r: seq<Conn>) {
    if l == [] then [] else Put(Sort(l[..|l| - 1]), l[|l| - 1])
  }

  lemma {:induction false} PutMultiset(l: seq<Conn>, c: Conn)
    ensures multiset(Put(l, c)) == multiset(l) + multiset{c}
    decreases |l|
  {
    if l != [] && Below(c, l[|l| - 1]) {
      PutMultiset(l[..|l| - 1], c);
      assert l == l[..|l| - 1] + [l[|l| - 1]];
    }
  }

  lemma {:induction false} PutOrdered(l: seq<Conn>, c: Conn)
    requires Ordered(l)
    ensures Ordered(Put(l, c))
    decreases |l|
  {
    var r := Put(l, c);
    if l == [] {
    } else {
      var t, d := l[..|l| - 1], l[|l| - 1];
      if !Below(c, d) {
        forall i | 0 <= i < |l| ensures !Below(c, l[i]) {
          if Below(c, l[i]) && i < |l| - 1 {
            BelowTotal(l[i], d);
            if l[i] != d {
              BelowTransitive(c, l[i], d);
            }
          }
        }
      } else {
        PutOrdered(t, c);
        PutMultiset(t, c);
        forall e | e in Put(t, c) ensures !Below(d, e) {
          assert e in multiset(Put(t, c));
          BelowTotal(c, d);
          assert e == c || e in t;
        }
      }
    }
  }

  lemma {:induction false} SortSorts(l: seq<Conn>)
    ensures Ordered(Sort(l)) && multiset(Sort(l)) == multiset(l)
    decreases |l|
  {
    if l != [] {
      SortSorts(l[..|l| - 1]);
      PutOrdered(Sort(l[..|l| - 1]), l[|l| - 1]);
      PutMultiset(Sort(l[..|l| - 1]), l[|l| - 1]);
      assert l == l[..|l| - 1] + [l[|l| - 1]];
    }
  }

  /** In the sorted list the objects do not decrease, within an object the vectors, within a vector the
      indices; connections of the same first port are ordered by their second. */
  lemma {:induction false} SortOrder(l: seq<Conn>, i: nat, j: nat)
    requires i < j < |Sort(l)|
    ensures var p, q := Sort(l)[i].from, Sort(l)[j].from;
      && (p.owner == q.owner || StrBelow(p.owner, q.owner))
      && (p.owner == q.owner ==> p.name == q.name || StrBelow(p.name, q.name))
      && (p.owner == q.owner && p.name == q.name ==> p.index <= q.index)
    ensures var c, d := Sort(l)[i], Sort(l)[j];
      c.from == d.from ==>
        && (c.to.owner == d.to.owner || StrBelow(c.to.owner, d.to.owner))
        && (c.to.owner == d.to.owner ==> c.to.name == d.to.name || StrBelow(c.to.name, d.to.name))
        && (c.to.owner == d.to.owner && c.to.name == d.to.name ==> c.to.index <= d.to.index)
  {
    var c, d := Sort(l)[i], Sort(l)[j];
    SortSorts(l);
    assert !Below(d, c);
    StrTotal(c.from.owner, d.from.owner);
    StrTotal(c.from.name, d.from.name);
    StrTotal(c.to.owner, d.to.owner);
    StrTotal(c.to.name, d.to.name);
  }

  lemma {:induction false} LastIsGreatest(l: seq<Conn>, c: Conn)
    requires Ordered(l) && c in l
    ensures c == l[|l| - 1] || !Below(l[|l| - 1], c)
  {
  }

  lemma {:induction false} WithoutLast(l: seq<Conn>)
    requires l != []
    ensures multiset(l[..|l| - 1]) == multiset(l) - multiset{l[|l| - 1]}
  {
    assert l == l[..|l| - 1] + [l[|l| - 1]];
  }

  /** There is one way to sort a list. */
  lemma {:induction false} SortUnique(l: seq<Conn>, r: seq<Conn>)
    requires multiset(l) == multiset(r) && Ordered(l) && Ordered(r)
    ensures l == r
    decreases |l|
  {
    assert |l| == |multiset(l)| == |multiset(r)| == |r|;
    if l != [] {
      var n := |l| - 1;
      SameMembers(l, r);
      LastIsGreatest(l, r[n]);
      LastIsGreatest(r, l[n]);
      BelowTotal(l[n], r[n]);
      WithoutLast(l);
      WithoutLast(r);
      SortUnique(l[..n], r[..n]);
      assert l == l[..n] + [l[n]] && r == r[..n] + [r[n]];
    }
  }

  lemma {:induction false} ChainOrdered(l: seq<Conn>)
    requires forall i :: 0 <= i < |l| - 1 ==> Below(l[i], l[i + 1])
    ensures Ordered(l)
    decreases |l|
  {
    if |l| > 1 {
      var t := l[..|l| - 1];
      ChainOrdered(t);
      var d := l[|l| - 1];
      var i := |l| - 2;
      while i > 0
        invariant 0 <= i < |l| - 1 && forall j :: i <= j < |l| - 1 ==> Below(l[j], d)
      {
        BelowTransitive(l[i - 1], l[i], d);
        i := i - 1;
      }
      forall j | 0 <= j < |l| - 1 ensures !Below(d, l[j]) {
        BelowTotal(l[j], d);
      }
    }
  }

  lemma {:induction false} SortOfOrdered(l: seq<Conn>)
    requires Ordered(l)
    ensures Sort(l) == l
    decreases |l|
  {
    if l != [] {
      var t, c := l[..|l| - 1], l[|l| - 1];
      SortOfOrdered(t);
      if t != [] {
        assert !Below(l[|l| - 1], l[|l| - 2]);
      }
      assert Put(t, c) == t + [c];
    }
  }

  lemma {:induction false} OnceEach(l: seq<Conn>, c: Conn)
    requires forall i, j :: 0 <= i < j < |l| ==> l[i] != l[j]
    ensures multiset(l)[c] <= 1
    decreases |l|
  {
    if l != [] {
      OnceEach(l[..|l| - 1], c);
      assert l == l[..|l| - 1] + [l[|l| - 1]];
      assert c == l[|l| - 1] ==> c !in l[..|l| - 1];
    }
  }

  lemma {:induction false} CountedTwice(r: seq<Conn>, i: nat, j: nat)
    requires i < j < |r| && r[i] == r[j]
    ensures multiset(r)[r[i]] >= 2
  {
    assert r == r[..i] + [r[i]] + r[i + 1..j] + [r[j]] + r[j + 1..];
  }

  lemma {:induction false} WellFormedPermuted(l: seq<Conn>, r: seq<Conn>)
    requires WellFormed(l) && multiset(r) == multiset(l)
    ensures WellFormed(r)
  {
    forall c ensures c in r <==> c in l {
      assert c in multiset(r) <==> c in multiset(l);
    }
    forall i, j | 0 <= i < j < |r| ensures r[i].from != r[j].from {
      OnceEach(l, r[i]);
      if r[i] == r[j] {
        CountedTwice(r, i, j);
      } else if r[i].from == r[j].from {
        EndDetermines(l, r[i], r[j]);
      }
    }
    forall i | 0 <= i < |r| ensures r[i].Flip() in r && r[i].from != r[i].to {
      WellFormedFlip(l, r[i]);
    }
  }

  // ----- bind_ports

  datatype Outcome = Bound(made: seq<Conn>) | Unorderable | KeyError

  ghost function Vectors(l: seq<Conn>): (r: set<(string, string)>) {
    set c | c in l :: c.from.Vector()
  }

  /** Looking up the counter of connection i's second port fails. */
  ghost predicate Missing(l: seq<Conn>, keys: set<(string, string)>, i: nat)
    requires i < |l|
  {
    Count(Greedy(l[..i]), l[i].from.Vector()) == l[i].from.index && l[i].to.Vector() !in keys
  }

  /** port_bind_indices before the pass */
  method ZeroIndices(connections: seq<Conn>) returns (indices: map<(string, string), nat>)
    ensures indices.Keys == Vectors(connections) && forall v :: v in indices ==> indices[v] == 0
  {
    indices := map[];
    for i := 0 to |connections|
      invariant indices.Keys == Vectors(connections[..i])
      invariant forall v :: v in indices ==> indices[v] == 0
    {
      assert Vectors(connections[..i + 1]) == Vectors(connections[..i]) + {connections[i].from.Vector()};
      indices := indices[connections[i].from.Vector() := 0];
    }
    assert connections[..|connections|] == connections;
  }

  /** The counters after one more connection. */
  function Bump(indices: map<(string, string), nat>, c: Conn): (r: map<(string, string), nat>)
    requires c.from.Vector() in indices && c.to.Vector() in indices
    ensures r.Keys == indices.Keys && forall v :: v in r ==> r[v] == indices[v] + Ends(c, v)
  {
    var from, to := c.from.Vector(), c.to.Vector();
    var m := indices[from := indices[from] + 1];
    m[to := m[to] + 1]
  }

  /** Every counter is the number of ends made on its vector. */
  ghost predicate Counts(indices: map<(string, string), nat>, made: seq<Conn>) {
    forall v :: v in indices ==> indices[v] == Count(made, v)
  }

  lemma {:induction false} BumpCounts(indices: map<(string, string), nat>, made: seq<Conn>, c: Conn)
    requires Counts(indices, made) && c.from.Vector() in indices && c.to.Vector() in indices
    ensures Counts(Bump(indices, c), made + [c])
  {
    forall v | v in indices ensures Count(made + [c], v) == Count(made, v) + Ends(c, v) {
      CountSnoc(made, c, v);
    }
  }

  /** One connection of the pass: looked up, and made if both of its ports are the next ones. */
  method Try(c: Conn, indices: map<(string, string), nat>, made: seq<Conn>)
    returns (found: bool, now: map<(string, string), nat>, all: seq<Conn>)
    requires c.from.Vector() in indices && Counts(indices, made)
    ensures found <==> !(Count(made, c.from.Vector()) == c.from.index && c.to.Vector() !in indices)
    ensures now.Keys == indices.Keys && Counts(now, all)
    ensures found ==> all == if Fits(made, c) then made + [c] else made
  {
    found, now, all := true, indices, made;
    if indices[c.from.Vector()] == c.from.index {
      if c.to.Vector() !in indices {
        return false, indices, made;
      }
      if indices[c.to.Vector()] == c.to.index {
        BumpCounts(indices, made, c);
        all := made + [c];
        now := Bump(indices, c);
      }
    }
  }

  /** The pass: every counter is at all times the number of ends made on its vector. */
  method Pass(l: seq<Conn>, zero: map<(string, string), nat>) returns (found: bool, made: seq<Conn>)
    requires (forall v :: v in zero ==> zero[v] == 0) && forall c :: c in l ==> c.from.Vector() in zero
    ensures found ==> made == Greedy(l)
    ensures found <==> forall i :: 0 <= i < |l| ==> !Missing(l, zero.Keys, i)
  {
    var indices := zero;
    made, found := [], true;
    for i := 0 to |l|
      invariant made == Greedy(l[..i])
      invariant indices.Keys == zero.Keys && Counts(indices, made)
      invariant forall j :: 0 <= j < i ==> !Missing(l, zero.Keys, j)
    {
      ghost var before := made;
      var ok;
      ok, indices, made := Try(l[i], indices, made);
      if !ok {
        assert Missing(l, zero.Keys, i);
        return false, made;
      }
      GreedyNext(l, i, before, made);
    }
    assert l[..|l|] == l;
  }

  /** ConfigManager.bind_ports up to the actual binding */
  method Bind(connections: seq<Conn>) returns (r: Outcome)
    ensures var l, keys := Sort(connections), Vectors(connections);
      && (r == KeyError <==> exists i :: 0 <= i < |l| && Missing(l, keys, i))
      && (r == Unorderable ==> 2 * |Greedy(l)| != |l|)
      && (r.Bound? ==> r.made == Greedy(l) && 2 * |Greedy(l)| == |l|)
    ensures WellFormed(connections) ==>
      && r != KeyError
      && (r.Bound? <==> Bindable(Sort(connections)))
      && (r.Bound? ==> InOrder(r.made) && Complete(r.made, connections))
  {
    var indices := ZeroIndices(connections);
    var l := Sort(connections);
    SortSorts(connections);
    forall c | c in l ensures c in connections {
      assert c in multiset(l);
    }
    var found, made := Pass(l, indices);
    assert |l| == |multiset(l)| == |connections|;
    if WellFormed(connections) {
      BindWellFormed(connections, l);
    }
    if !found {
      return KeyError;
    }
    r := if |made| * 2 != |connections| then Unorderable else Bound(made);
  }

  lemma {:induction false} SameMembers(l: seq<Conn>, r: seq<Conn>)
    requires multiset(l) == multiset(r)
    ensures forall c :: c in l <==> c in r
  {
    forall c ensures c in l <==> c in r {
      assert c in multiset(l) <==> c in multiset(r);
    }
  }

  lemma {:induction false} NothingMissing(connections: seq<Conn>, l: seq<Conn>)
    requires WellFormed(connections) && forall c :: c in l ==> c in connections
    ensures forall i :: 0 <= i < |l| ==> !Missing(l, Vectors(connections), i)
  {
    forall i | 0 <= i < |l| ensures l[i].to.Vector() in Vectors(connections) {
      assert l[i] in connections;
      WellFormedFlip(connections, l[i]);
      assert l[i].Flip().from.Vector() in Vectors(connections);
    }
  }

  lemma {:induction false} BindWellFormed(connections: seq<Conn>, l: seq<Conn>)
    requires WellFormed(connections) && multiset(l) == multiset(connections)
    ensures 2 * |Greedy(l)| == |l| <==> Bindable(l)
    ensures 2 * |Greedy(l)| == |l| ==> InOrder(Greedy(l)) && Complete(Greedy(l), connections)
    ensures forall i :: 0 <= i < |l| ==> !Missing(l, Vectors(connections), i)
  {
    assert WellFormed(l) by { WellFormedPermuted(connections, l); }
    SameMembers(l, connections);
    NothingMissing(connections, l);
    GreedyOptimal(l);
    GreedySound(l);
  }
}
