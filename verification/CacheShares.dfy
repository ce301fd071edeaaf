/** How many testers each subsystem of the tree (CacheTree) has, and how many caches are on its crossbar. */
module CacheShares {
  import opened Common
  import opened CacheWiring

  /** The caches on crossbars, the testers in subsystems, and the subsystems */
  datatype Shares = Shares(mem: map<nat, Name>, home: map<nat, Name>, subs: set<Name>)

  ghost predicate At(m: map<nat, Name>, n: Name, k: nat) {
    k in m && m[k] == n
  }

  /** The numbers a map takes to a subsystem */
  ghost function On(m: map<nat, Name>, n: Name): (r: set<nat>) {
    set k | k in m && m[k] == n
  }

  /** They are just those of two ranges. */
  ghost predicate Just(m: map<nat, Name>, n: Name, a: nat, b: nat, c: nat, d: nat) {
    forall k: nat {:trigger At(m, n, k)} :: At(m, n, k) <==> a <= k < b || c <= k < d
  }

  /** They are the same as before. */
  ghost predicate Same(was: map<nat, Name>, m: map<nat, Name>, n: Name) {
    forall k: nat {:trigger At(m, n, k)} {:trigger At(was, n, k)} :: At(m, n, k) <==> At(was, n, k)
  }

  ghost function Range(a: nat, b: nat): (r: set<nat>)
    ensures forall k :: k in r <==> a <= k < b
    ensures |r| == if a <= b then b - a else 0
  {
    if a >= b then {} else Range(a, b - 1) + {b - 1}
  }

  lemma {:induction false} JustCounts(m: map<nat, Name>, n: Name, a: nat, b: nat, c: nat, d: nat)
    requires Just(m, n, a, b, c, d) && a <= b <= c <= d
    ensures |On(m, n)| == (b - a) + (d - c)
  {
    forall k ensures k in On(m, n) <==> k in Range(a, b) + Range(c, d) {
      assert At(m, n, k) <==> k in On(m, n);
    }
    assert On(m, n) == Range(a, b) + Range(c, d) && Range(a, b) !! Range(c, d);
  }

  lemma {:induction false} SameOn(was: map<nat, Name>, m: map<nat, Name>, n: Name)
    requires Same(was, m, n)
    ensures On(m, n) == On(was, n)
  {
    forall k ensures k in On(m, n) <==> k in On(was, n) {
      assert At(m, n, k) <==> At(was, n, k);
    }
  }

  lemma {:induction false} SameTwice(was: map<nat, Name>, mid: map<nat, Name>, m: map<nat, Name>, n: Name)
    requires Same(was, mid, n) && Same(mid, m, n)
    ensures Same(was, m, n)
  {
    forall k: nat ensures At(m, n, k) <==> At(was, n, k) {
      assert At(mid, n, k) <==> At(was, n, k);
    }
  }

  lemma {:induction false} SameJust(was: map<nat, Name>, m: map<nat, Name>, n: Name, a: nat, b: nat, c: nat, d: nat)
    requires Same(was, m, n) && Just(was, n, a, b, c, d)
    ensures Just(m, n, a, b, c, d)
  {
    forall k: nat ensures At(m, n, k) <==> a <= k < b || c <= k < d {
      assert At(was, n, k) <==> a <= k < b || c <= k < d;
    }
  }

  /** A subsystem of level l has the testers its level is given and, on its crossbar, a cache for each of
      them and those that fan out; at the top there are no such caches. */
  ghost predicate Full(s: Shares, cs: seq<nat>, ts: seq<nat>, n: Name)
    requires |ts| == |cs| + 1
  {
    && n.level <= |cs|
    && |On(s.home, n)| == ts[|cs| - n.level]
    && |On(s.mem, n)| == if n.level == 0 then 0 else ts[|cs| - n.level] + cs[|cs| - n.level]
  }

  /** Caches and testers of the subsystem are the same as before. */
  ghost predicate Leaves(s: Shares, r: Shares, n: Name) {
    Same(s.mem, r.mem, n) && Same(s.home, r.home, n)
  }

  /** The new subsystems are full, and the old ones as before, but one. */
  ghost predicate Built(s: Shares, r: Shares, cs: seq<nat>, ts: seq<nat>, but: Option<Name>)
    requires |ts| == |cs| + 1
  {
    && s.subs <= r.subs
    && (forall n {:trigger Leaves(s, r, n)} :: n in s.subs && but != Some(n) ==> Leaves(s, r, n))
    && (forall n {:trigger Full(r, cs, ts, n)} :: n in r.subs && n !in s.subs ==> Full(r, cs, ts, n))
  }

  lemma {:induction false} BuiltNothing(s: Shares, cs: seq<nat>, ts: seq<nat>, but: Option<Name>)
    requires |ts| == |cs| + 1
    ensures Built(s, s, cs, ts, but)
  {
  }

  lemma {:induction false} BuiltTwice(s: Shares, q: Shares, r: Shares, cs: seq<nat>, ts: seq<nat>, but: Option<Name>)
    requires |ts| == |cs| + 1 && (but.Some? ==> but.value in s.subs)
    requires Built(s, q, cs, ts, but) && Built(q, r, cs, ts, but)
    ensures Built(s, r, cs, ts, but)
  {
    forall n | n in s.subs && but != Some(n) ensures Leaves(s, r, n) {
      assert Leaves(s, q, n) && Leaves(q, r, n);
      SameTwice(s.mem, q.mem, r.mem, n);
      SameTwice(s.home, q.home, r.home, n);
    }
    forall n | n in r.subs && n !in s.subs ensures Full(r, cs, ts, n) {
      if n in q.subs {
        assert Full(q, cs, ts, n) && Leaves(q, r, n);
        SameOn(q.mem, r.mem, n);
        SameOn(q.home, r.home, n);
      }
    }
  }

  lemma {:induction false} BuiltBut(s: Shares, r: Shares, cs: seq<nat>, ts: seq<nat>, n: Name)
    requires |ts| == |cs| + 1 && Built(s, r, cs, ts, None) && n in s.subs
    ensures Built(s, r, cs, ts, Some(n)) && Leaves(s, r, n)
  {
  }

  /** One more cache on the crossbar of a subsystem */
  lemma {:induction false} OneMoreOn(s: Shares, cs: seq<nat>, ts: seq<nat>, c: nat, n: Name, a: nat, b: nat, d: nat)
    requires |ts| == |cs| + 1 && n in s.subs && c !in s.mem
    ensures Built(s, s.(mem := s.mem[c := n]), cs, ts, Some(n))
    ensures a <= c && Just(s.mem, n, a, c, b, d) ==> Just(s.mem[c := n], n, a, c + 1, b, d)
  {
    var r := s.(mem := s.mem[c := n]);
    forall m | m in s.subs && m != n ensures Leaves(s, r, m) {
      forall k: nat ensures At(r.mem, m, k) <==> At(s.mem, m, k) { }
    }
    if a <= c && Just(s.mem, n, a, c, b, d) {
      forall k: nat ensures At(r.mem, n, k) <==> a <= k < c + 1 || b <= k < d {
        assert At(s.mem, n, k) <==> a <= k < c || b <= k < d;
      }
    }
  }

  /** One more tester in a subsystem */
  lemma {:induction false} OneMoreIn(home: map<nat, Name>, t: nat, n: Name, a: nat)
    requires t !in home && a <= t && Just(home, n, a, t, t, t)
    ensures Just(home[t := n], n, a, t + 1, t + 1, t + 1)
    ensures forall m {:trigger Same(home, home[t := n], m)} :: m != n ==> Same(home, home[t := n], m)
  {
    var r := home[t := n];
    forall k: nat ensures At(r, n, k) <==> a <= k < t + 1 || t + 1 <= k < t + 1 {
      assert At(home, n, k) <==> a <= k < t || t <= k < t;
    }
    forall m | m != n ensures Same(home, r, m) {
      forall k: nat ensures At(r, m, k) <==> At(home, m, k) { }
    }
  }

  /** The subsystem that was left out is full, too. */
  lemma {:induction false} BuiltAll(s: Shares, q: Shares, r: Shares, cs: seq<nat>, ts: seq<nat>, name: Name)
    requires |ts| == |cs| + 1 && name !in s.subs && q.subs == s.subs + {name}
    requires forall n {:trigger Leaves(s, q, n)} :: n in s.subs ==> Leaves(s, q, n)
    requires Built(q, r, cs, ts, Some(name)) && Full(r, cs, ts, name)
    ensures Built(s, r, cs, ts, None)
  {
    forall n | n in s.subs ensures Leaves(s, r, n) {
      assert Leaves(s, q, n) && Leaves(q, r, n);
      SameTwice(s.mem, q.mem, r.mem, n);
      SameTwice(s.home, q.home, r.home, n);
    }
  }
}
