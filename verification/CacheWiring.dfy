/** What is connected to what in the tree that gem5/configs/example/memtest.py builds (CacheTree). */
module CacheWiring {
  import opened Common
  import opened Strings

  /** The name of a subsystem, l<level>subsys<index> */
  datatype Name = Name(level: nat, index: nat) {

    function Text(): (s: string) {
      "l" + Decimal(level) + "subsys" + Decimal(index)
    }
  }

  /** How many digits a text starts with. */
  function LeadingDigits(s: string): (n: nat) {
    if s != "" && IsDigit(s[0]) then 1 + LeadingDigits(s[1..]) else 0
  }

  lemma {:induction false} DigitsEnd(a: string, b: string)
    requires AllDigits(a) && b != "" && !IsDigit(b[0])
    ensures LeadingDigits(a + b) == |a|
    decreases |a|
  {
    if a == "" {
      assert a + b == b;
    } else {
      DigitsEnd(a[1..], b);
      assert (a + b)[1..] == a[1..] + b;
    }
  }

  /** Different subsystems have different names. */
  lemma {:induction false} TextInjective(m: Name, n: Name)
    requires m.Text() == n.Text()
    ensures m == n
  {
    var a, b := Decimal(m.level), "subsys" + Decimal(m.index);
    var c, d := Decimal(n.level), "subsys" + Decimal(n.index);
    assert m.Text() == "l" + (a + b) && n.Text() == "l" + (c + d);
    assert m.Text()[1..] == a + b && n.Text()[1..] == c + d;
    DigitsEnd(a, b);
    DigitsEnd(c, d);
    assert (a + b)[..|a|] == a && (a + b)[|a|..] == b && (c + d)[..|c|] == c && (c + d)[|c|..] == d;
    assert b[6..] == Decimal(m.index) && d[6..] == Decimal(n.index);
    ValueOfDecimal(m.level);
    ValueOfDecimal(n.level);
    ValueOfDecimal(m.index);
    ValueOfDecimal(n.index);
  }

  /** What a tester's port is connected to, and what is on the processor side of a cache */
  datatype Port = CacheSide(cache: nat) | CrossbarSlave(name: Name)
  datatype User = CrossbarMaster(name: Name) | Tester(tester: nat)

  /**
    The ports connected so far.  Testers and caches are numbered as they are made; `mem` has the
    subsystem whose crossbar a cache's memory side is on, `home` the subsystem a tester is in, and `hang`
    the cache a subsystem hangs on.
   */
  datatype Wiring = Wiring(port: map<nat, Port>, user: map<nat, User>, mem: map<nat, Name>, home: map<nat, Name>,
                           hang: map<Name, nat>)

  /** A tester is on the processor side of a cache that has it as its user, or on the crossbar of its
      subsystem, at the top, which is the user of the cache that one hangs on. */
  ghost predicate TesterOk(w: Wiring, t: nat) {
    t in w.port ==>
      && t in w.home
      && match w.port[t] {
           case CacheSide(c) => c in w.user && w.user[c] == Tester(t)
           case CrossbarSlave(n) =>
             n.level == 0 && w.home[t] == n && n in w.hang && w.hang[n] in w.user && w.user[w.hang[n]] == CrossbarMaster(n)
         }
  }

  /** The memory side of a cache is one level below the subsystem that hangs on the cache, or it is the
      cache of a tester and on the crossbar of the tester's subsystem. */
  ghost predicate CacheOk(w: Wiring, c: nat) {
    c in w.user ==>
      && c in w.mem
      && match w.user[c] {
           case CrossbarMaster(n) => n in w.hang && w.hang[n] == c && w.mem[c].level == n.level + 1
           case Tester(t) =>
             && t in w.port && w.port[t] == CacheSide(c) && t in w.home
             && (w.home[t].level > 0 ==> w.mem[c] == w.home[t])
             && (w.home[t].level == 0 ==> w.home[t] in w.hang && w.hang[w.home[t]] == c && w.mem[c].level == 1)
         }
  }

  /** What hangs on a cache is its user: the crossbar or, at the top, the one tester of the subsystem. */
  ghost predicate HangOk(w: Wiring, n: Name) {
    n in w.hang ==>
      && w.hang[n] in w.user
      && match w.user[w.hang[n]] {
           case CrossbarMaster(m) => m == n
           case Tester(t) => n.level == 0 && t in w.home && w.home[t] == n
         }
  }

  ghost predicate Wired(w: Wiring) {
    && (forall t {:trigger TesterOk(w, t)} :: TesterOk(w, t))
    && (forall c {:trigger CacheOk(w, c)} :: CacheOk(w, c))
    && (forall n {:trigger HangOk(w, n)} :: HangOk(w, n))
  }

  // ----- What one connection keeps

  /** Only named subsystems are connected, and every one above the root hangs on a cache, but the pending one. */
  ghost predicate Placed(w: Wiring, subs: set<Name>, depth: nat, pending: Option<Name>) {
    && (forall c {:trigger MemPlaced(w, subs, c)} :: MemPlaced(w, subs, c))
    && (forall t {:trigger HomePlaced(w, subs, t)} :: HomePlaced(w, subs, t))
    && (forall n {:trigger Hangs(w, subs, depth, pending, n)} :: Hangs(w, subs, depth, pending, n))
  }

  ghost predicate MemPlaced(w: Wiring, subs: set<Name>, c: nat) {
    c in w.mem ==> w.mem[c] in subs
  }

  ghost predicate HomePlaced(w: Wiring, subs: set<Name>, t: nat) {
    t in w.home ==> w.home[t] in subs
  }

  ghost predicate Hangs(w: Wiring, subs: set<Name>, depth: nat, pending: Option<Name>, n: Name) {
    && (n in w.hang ==> n in subs)
    && (n in subs && n.level < depth && pending != Some(n) ==> n in w.hang)
  }

  ghost predicate Tied(w: Wiring, subs: set<Name>, depth: nat, pending: Option<Name>) {
    Wired(w) && Placed(w, subs, depth, pending)
  }

  /** A crossbar becomes the user of a cache. */
  lemma {:induction false} CrossbarHung(w: Wiring, subs: set<Name>, depth: nat, c: nat, n: Name)
    requires Tied(w, subs, depth, Some(n))
    requires n in subs && c !in w.user && n !in w.hang && c in w.mem && w.mem[c].level == n.level + 1
    ensures Tied(w.(user := w.user[c := CrossbarMaster(n)], hang := w.hang[n := c]), subs, depth, None)
  {
    var r := w.(user := w.user[c := CrossbarMaster(n)], hang := w.hang[n := c]);
    forall u ensures TesterOk(r, u) { assert TesterOk(w, u); }
    forall d ensures CacheOk(r, d) { assert CacheOk(w, d); }
    forall m ensures HangOk(r, m) { assert HangOk(w, m); }
    forall d ensures MemPlaced(r, subs, d) { assert MemPlaced(w, subs, d); }
    forall u ensures HomePlaced(r, subs, u) { assert HomePlaced(w, subs, u); }
    forall m ensures Hangs(r, subs, depth, None, m) { assert Hangs(w, subs, depth, Some(n), m); }
  }

  /** A tester goes on the crossbar of its subsystem. */
  lemma {:induction false} TesterOnCrossbar(w: Wiring, subs: set<Name>, depth: nat, t: nat, n: Name)
    requires Tied(w, subs, depth, None)
    requires t !in w.port && t in w.home && w.home[t] == n && n.level == 0
    requires n in w.hang && w.hang[n] in w.user && w.user[w.hang[n]] == CrossbarMaster(n)
    ensures Tied(w.(port := w.port[t := CrossbarSlave(n)]), subs, depth, None)
  {
    var r := w.(port := w.port[t := CrossbarSlave(n)]);
    forall u ensures TesterOk(r, u) { assert TesterOk(w, u); }
    forall d ensures CacheOk(r, d) { assert CacheOk(w, d); }
    forall m ensures HangOk(r, m) { assert HangOk(w, m); }
    forall d ensures MemPlaced(r, subs, d) { assert MemPlaced(w, subs, d); }
    forall u ensures HomePlaced(r, subs, u) { assert HomePlaced(w, subs, u); }
    forall m ensures Hangs(r, subs, depth, None, m) { assert Hangs(w, subs, depth, None, m); }
  }

  /** The one tester of a top subsystem becomes the user of the cache. */
  lemma {:induction false} TesterHung(w: Wiring, subs: set<Name>, depth: nat, t: nat, c: nat, n: Name)
    requires Tied(w, subs, depth, Some(n))
    requires t !in w.port && t in w.home && w.home[t] == n && n.level == 0
    requires n in subs && c !in w.user && n !in w.hang && c in w.mem && w.mem[c].level == 1
    ensures Tied(w.(port := w.port[t := CacheSide(c)], user := w.user[c := Tester(t)], hang := w.hang[n := c]), subs, depth, None)
  {
    var r := w.(port := w.port[t := CacheSide(c)], user := w.user[c := Tester(t)], hang := w.hang[n := c]);
    forall u ensures TesterOk(r, u) { assert TesterOk(w, u); }
    forall d ensures CacheOk(r, d) { assert CacheOk(w, d); }
    forall m ensures HangOk(r, m) { assert HangOk(w, m); }
    forall d ensures MemPlaced(r, subs, d) { assert MemPlaced(w, subs, d); }
    forall u ensures HomePlaced(r, subs, u) { assert HomePlaced(w, subs, u); }
    forall m ensures Hangs(r, subs, depth, None, m) { assert Hangs(w, subs, depth, Some(n), m); }
  }

  /** A tester of a lower subsystem gets a cache of its own. */
  lemma {:induction false} TesterOwnsCache(w: Wiring, subs: set<Name>, depth: nat, t: nat, c: nat, n: Name)
    requires Tied(w, subs, depth, None)
    requires n in subs && t !in w.port && t in w.home && w.home[t] == n && n.level > 0 && c !in w.user && c !in w.mem
    ensures Tied(w.(port := w.port[t := CacheSide(c)], user := w.user[c := Tester(t)], mem := w.mem[c := n]), subs, depth, None)
  {
    var r := w.(port := w.port[t := CacheSide(c)], user := w.user[c := Tester(t)], mem := w.mem[c := n]);
    forall u ensures TesterOk(r, u) { assert TesterOk(w, u); }
    forall d ensures CacheOk(r, d) { assert CacheOk(w, d); }
    forall m ensures HangOk(r, m) { assert HangOk(w, m); }
    forall d ensures MemPlaced(r, subs, d) { assert MemPlaced(w, subs, d); }
    forall u ensures HomePlaced(r, subs, u) { assert HomePlaced(w, subs, u); }
    forall m ensures Hangs(r, subs, depth, None, m) { assert Hangs(w, subs, depth, None, m); }
  }

  /** The memory side of a cache is connected before its processor side. */
  lemma {:induction false} MemoryConnected(w: Wiring, subs: set<Name>, depth: nat, c: nat, n: Name)
    requires Tied(w, subs, depth, None)
    requires n in subs && c !in w.user
    ensures Tied(w.(mem := w.mem[c := n]), subs, depth, None)
  {
    var r := w.(mem := w.mem[c := n]);
    forall u ensures TesterOk(r, u) { assert TesterOk(w, u); }
    forall d ensures CacheOk(r, d) { assert CacheOk(w, d); }
    forall m ensures HangOk(r, m) { assert HangOk(w, m); }
    forall d ensures MemPlaced(r, subs, d) { assert MemPlaced(w, subs, d); }
    forall u ensures HomePlaced(r, subs, u) { assert HomePlaced(w, subs, u); }
    forall m ensures Hangs(r, subs, depth, None, m) { assert Hangs(w, subs, depth, None, m); }
  }

  /** New testers are put into a subsystem. */
  lemma {:induction false} TestersHoused(w: Wiring, subs: set<Name>, depth: nat, pending: Option<Name>,
                                         home: map<nat, Name>, n: Name)
    requires Tied(w, subs, depth, pending) && n in subs
    requires forall t :: t in w.home ==> t in home && home[t] == w.home[t]
    requires forall t :: t in home && t !in w.home ==> home[t] == n
    ensures Tied(w.(home := home), subs, depth, pending)
  {
    var r := w.(home := home);
    forall u ensures TesterOk(r, u) { assert TesterOk(w, u); }
    forall d ensures CacheOk(r, d) { assert CacheOk(w, d); }
    forall m ensures HangOk(r, m) { assert HangOk(w, m); }
    forall d ensures MemPlaced(r, subs, d) { assert MemPlaced(w, subs, d); }
    forall u ensures HomePlaced(r, subs, u) { assert HomePlaced(w, subs, u); }
    forall m ensures Hangs(r, subs, depth, pending, m) { assert Hangs(w, subs, depth, pending, m); }
  }

  /** A new subsystem is named: nothing is connected to it yet. */
  lemma {:induction false} SubsystemNamed(w: Wiring, subs: set<Name>, depth: nat, n: Name)
    requires Tied(w, subs, depth, None) && n !in subs
    ensures Tied(w, subs + {n}, depth, Some(n)) && n !in w.hang
  {
    var more := subs + {n};
    forall d ensures MemPlaced(w, more, d) { assert MemPlaced(w, subs, d); }
    forall u ensures HomePlaced(w, more, u) { assert HomePlaced(w, subs, u); }
    forall m ensures Hangs(w, more, depth, Some(n), m) { assert Hangs(w, subs, depth, None, m); }
    assert Hangs(w, subs, depth, None, n);
  }

  /** The root hangs on no cache. */
  lemma {:induction false} RootNeedsNone(w: Wiring, subs: set<Name>, depth: nat, n: Name)
    requires Tied(w, subs, depth, Some(n)) && n.level >= depth
    ensures Tied(w, subs, depth, None)
  {
    forall m ensures Hangs(w, subs, depth, None, m) { assert Hangs(w, subs, depth, Some(n), m); }
  }

  // ----- What it amounts to

  /** The processor side of the cache leads to the subsystem. */
  ghost predicate Leads(w: Wiring, c: nat, n: Name) {
    && c in w.user
    && match w.user[c] {
         case CrossbarMaster(m) => m == n
         case Tester(t) => n.level == 0 && t in w.home && w.home[t] == n
       }
  }

  /** All ports of so many testers and caches are connected. */
  ghost predicate Connected(w: Wiring, testers: nat, caches: nat) {
    && (forall t: nat :: t in w.port <==> t < testers)
    && (forall c: nat :: c in w.user <==> c < caches)
    && (forall c: nat :: c in w.mem <==> c < caches)
  }

  /** A tester is on a cache exactly when it is the user of that cache. */
  ghost predicate EndsAgree(w: Wiring, testers: nat, caches: nat)
    requires Connected(w, testers, caches)
  {
    forall t: nat, c: nat :: t < testers && c < caches ==> (w.port[t] == CacheSide(c) <==> w.user[c] == Tester(t))
  }

  /** Every tester is in a subsystem, and on a cache or, at the top, on the crossbar of that subsystem. */
  ghost predicate TestersRight(w: Wiring, subs: set<Name>, testers: nat, caches: nat)
    requires Connected(w, testers, caches)
  {
    forall t: nat :: t < testers ==>
      && t in w.home && w.home[t] in subs
      && match w.port[t] {
           case CacheSide(c) => c < caches
           case CrossbarSlave(n) => n == w.home[t] && n.level == 0
         }
  }

  /** A crossbar testers are on is the user of a cache. */
  ghost predicate SlavesHung(w: Wiring, testers: nat, caches: nat)
    requires Connected(w, testers, caches)
  {
    forall t: nat :: t < testers && w.port[t].CrossbarSlave? ==>
      exists c: nat :: c < caches && w.user[c] == CrossbarMaster(w.port[t].name)
  }

  /** Every subsystem above the root hangs on one cache. */
  ghost predicate HangOnce(w: Wiring, subs: set<Name>, depth: nat, caches: nat) {
    forall n :: n in subs && n.level < depth ==>
      exists c: nat :: c < caches && Leads(w, c, n) && forall d: nat :: Leads(w, d, n) ==> d == c
  }

  /** The memory side of a cache is on the crossbar one level below what hangs on it, or on that of the
      subsystem of its own tester. */
  ghost predicate MemoryRight(w: Wiring, subs: set<Name>, testers: nat, caches: nat)
    requires Connected(w, testers, caches)
  {
    forall c: nat :: c < caches ==>
      && w.mem[c] in subs
      && match w.user[c] {
           case CrossbarMaster(n) => n in subs && w.mem[c].level == n.level + 1
           case Tester(t) =>
             && t < testers && t in w.home
             && if w.home[t].level == 0 then w.mem[c].level == 1 else w.mem[c] == w.home[t]
         }
  }

  /** A subsystem that hangs on a cache hangs on that one only. */
  lemma {:induction false} HangsOnce(w: Wiring, n: Name, c: nat)
    requires Wired(w) && n in w.hang
    ensures Leads(w, c, n) <==> c == w.hang[n]
  {
    assert HangOk(w, n);
    assert CacheOk(w, c);
  }

  lemma {:induction false} TestersAreRight(w: Wiring, subs: set<Name>, depth: nat, testers: nat, caches: nat)
    requires Tied(w, subs, depth, None) && Connected(w, testers, caches)
    ensures EndsAgree(w, testers, caches) && TestersRight(w, subs, testers, caches) && SlavesHung(w, testers, caches)
  {
    forall t: nat, c: nat | t < testers && c < caches
      ensures w.port[t] == CacheSide(c) <==> w.user[c] == Tester(t)
    {
      assert TesterOk(w, t) && CacheOk(w, c);
    }
    forall t: nat | t < testers
      ensures t in w.home && w.home[t] in subs
      ensures w.port[t].CacheSide? ==> w.port[t].cache < caches
      ensures w.port[t].CrossbarSlave? ==> w.port[t].name == w.home[t] && w.home[t].level == 0
      ensures w.port[t].CrossbarSlave? ==> exists c: nat :: c < caches && w.user[c] == CrossbarMaster(w.port[t].name)
    {
      assert TesterOk(w, t) && HomePlaced(w, subs, t);
    }
  }

  lemma {:induction false} CachesAreRight(w: Wiring, subs: set<Name>, depth: nat, testers: nat, caches: nat)
    requires Tied(w, subs, depth, None) && Connected(w, testers, caches)
    ensures HangOnce(w, subs, depth, caches) && MemoryRight(w, subs, testers, caches)
  {
    forall n | n in subs && n.level < depth
      ensures exists c: nat :: c < caches && Leads(w, c, n) && forall d: nat :: Leads(w, d, n) ==> d == c
    {
      assert Hangs(w, subs, depth, None, n) && HangOk(w, n);
      forall d: nat ensures Leads(w, d, n) <==> d == w.hang[n] { HangsOnce(w, n, d); }
      assert Leads(w, w.hang[n], n);
    }
    forall c: nat | c < caches
      ensures w.mem[c] in subs
      ensures w.user[c].CrossbarMaster? ==> w.user[c].name in subs && w.mem[c].level == w.user[c].name.level + 1
      ensures w.user[c].Tester? ==>
        var t := w.user[c].tester;
        t < testers && t in w.home && if w.home[t].level == 0 then w.mem[c].level == 1 else w.mem[c] == w.home[t]
    {
      assert CacheOk(w, c) && MemPlaced(w, subs, c);
      if w.user[c].CrossbarMaster? {
        assert Hangs(w, subs, depth, None, w.user[c].name);
      }
    }
  }

  // ----- From every tester to the root

  /** Each subsystem of the path hangs on a cache whose memory side is on the crossbar of the next. */
  ghost predicate IsPathDown(w: Wiring, path: seq<Name>) {
    forall i :: 0 <= i < |path| - 1 ==> OneDown(w, path[i], path[i + 1])
  }

  ghost predicate OneDown(w: Wiring, n: Name, m: Name) {
    exists c :: Leads(w, c, n) && c in w.mem && w.mem[c] == m
  }

  /** From every subsystem the caches lead down, level by level, to the root. */
  lemma {:induction false} DownToRoot(w: Wiring, subs: set<Name>, depth: nat, root: Name, n: Name) returns (path: seq<Name>)
    requires Tied(w, subs, depth, None) && n in subs && n.level <= depth
    requires forall m :: m in subs && m.level == depth ==> m == root
    ensures |path| == depth - n.level + 1 && path[0] == n && path[|path| - 1] == root && IsPathDown(w, path)
    decreases depth - n.level
  {
    path := [n];
    if n.level < depth {
      assert Hangs(w, subs, depth, None, n) && HangOk(w, n);
      var c := w.hang[n];
      assert CacheOk(w, c) && MemPlaced(w, subs, c);
      HangsOnce(w, n, c);
      var rest := DownToRoot(w, subs, depth, root, w.mem[c]);
      assert OneDown(w, n, w.mem[c]);
      path := [n] + rest;
      forall i | 0 <= i < |path| - 1 ensures OneDown(w, path[i], path[i + 1]) {
        if i > 0 {
          assert OneDown(w, rest[i - 1], rest[i - 1 + 1]);
        }
      }
    }
  }
}
