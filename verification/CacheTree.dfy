/** The tree of caches and testers built by gem5/configs/example/memtest.py. */
module CacheTree {
  import opened Common
  import opened CacheShares
  import opened CacheWiring

  // ----- Counting

  /** The testers of a subtree: those of its root, and of as many subtrees as the root has caches. */
  function Testers(cachespec: seq<nat>, testerspec: seq<nat>): (n: nat)
    requires |testerspec| == |cachespec| + 1
  {
    if cachespec == [] then testerspec[0]
    else testerspec[0] + cachespec[0] * Testers(cachespec[1..], testerspec[1..])
  }

  /** Its caches: one for each tester of the root, and the ones that fan out. */
  function Caches(cachespec: seq<nat>, testerspec: seq<nat>): (n: nat)
    requires |testerspec| == |cachespec| + 1
  {
    if cachespec == [] then 0
    else testerspec[0] + cachespec[0] + cachespec[0] * Caches(cachespec[1..], testerspec[1..])
  }

  /** Its subsystems k levels above the root: the product of the fan-outs below. */
  function Subsystems(cachespec: seq<nat>, k: nat): (n: nat)
    requires k <= |cachespec|
  {
    if k == 0 then 1 else cachespec[0] * Subsystems(cachespec[1..], k - 1)
  }

  lemma {:induction false} Distributes(a: nat, b: nat, c: nat)
    ensures a * (b * c) == (a * b) * c
    ensures a * (b + c) == a * b + a * c
  {
  }

  function Weighted(testerspec: seq<nat>, cachespec: seq<nat>, m: nat): (n: nat)
    requires |testerspec| == |cachespec| + 1
  {
    if cachespec == [] then testerspec[0] * m
    else testerspec[0] * m + Weighted(testerspec[1..], cachespec[1..], m * cachespec[0])
  }

  lemma {:induction false} WeightedIsTesters(testerspec: seq<nat>, cachespec: seq<nat>, m: nat)
    requires |testerspec| == |cachespec| + 1
    ensures Weighted(testerspec, cachespec, m) == m * Testers(cachespec, testerspec)
    decreases |cachespec|
  {
    if cachespec != [] {
      var sub := Testers(cachespec[1..], testerspec[1..]);
      WeightedIsTesters(testerspec[1..], cachespec[1..], m * cachespec[0]);
      Distributes(m, cachespec[0], sub);
      Distributes(m, testerspec[0], cachespec[0] * sub);
    }
  }

  /** numtesters: the multipliers level by level give the testers of the tree. */
  method NumTesters(cachespec: seq<nat>, testerspec: seq<nat>) returns (total: nat)
    requires |testerspec| == |cachespec| + 1
    ensures total == Testers(cachespec, testerspec)
  {
    var n := |cachespec|;
    var multiplier := [1];
    for k := 0 to n
      invariant |multiplier| == k + 1 && multiplier[0] == 1
      invariant forall j :: 0 <= j < k ==> multiplier[j + 1] == multiplier[j] * cachespec[j]
    {
      multiplier := multiplier + [multiplier[k] * cachespec[k]];
    }
    total := 0;
    for k := 0 to n
      invariant total + Weighted(testerspec[k..], cachespec[k..], multiplier[k]) == Weighted(testerspec, cachespec, 1)
    {
      assert testerspec[k..][1..] == testerspec[k + 1..] && cachespec[k..][1..] == cachespec[k + 1..];
      total := total + testerspec[k] * multiplier[k];
    }
    total := total + testerspec[n] * multiplier[n];
    WeightedIsTesters(testerspec, cachespec, 1);
  }

  // ----- Building

  /** The keys of a map are those of another, and the numbers of a range. */
  ghost predicate Adds<V>(m: map<nat, V>, was: map<nat, V>, from: nat, end: nat) {
    forall k {:trigger k in m} :: k in m <==> k in was || from <= k < end
  }

  ghost predicate AddsTwice<V>(m: map<nat, V>, was: map<nat, V>, from: nat, end: nat, from': nat, end': nat) {
    forall k {:trigger k in m} :: k in m <==> k in was || from <= k < end || from' <= k < end'
  }

  lemma {:induction false} AddsJoin<V>(now: map<nat, V>, mid: map<nat, V>, was: map<nat, V>, a: nat, b: nat, c: nat)
    requires a <= b <= c && Adds(mid, was, b, c) && Adds(now, mid, a, b)
    ensures Adds(now, was, a, c)
  {
    forall k ensures k in now <==> k in was || a <= k < c {
      assert k in mid <==> k in was || b <= k < c;
    }
  }

  lemma {:induction false} AddsOneMore<V>(now: map<nat, V>, mid: map<nat, V>, was: map<nat, V>, a: nat, b: nat,
                                          c: nat, d: nat, e: nat)
    requires a <= b && c <= d <= e && AddsTwice(mid, was, a, b, c, d) && AddsTwice(now, mid, b, b + 1, d, e)
    ensures AddsTwice(now, was, a, b + 1, c, e)
  {
    forall k ensures k in now <==> k in was || a <= k < b + 1 || c <= k < e {
      assert k in mid <==> k in was || a <= k < b || c <= k < d;
    }
  }

  /** k times x, one at a time */
  function Repeated(k: nat, x: nat): (r: nat) {
    if k == 0 then 0 else Repeated(k - 1, x) + x
  }

  lemma {:induction false} RepeatedIsProduct(k: nat, x: nat)
    ensures Repeated(k, x) == k * x
    decreases k
  {
    if k > 0 {
      RepeatedIsProduct(k - 1, x);
      Distributes(x, k - 1, 1);
    }
  }

  lemma {:induction false} Totals(spec: seq<nat>, ts: seq<nat>)
    requires spec != [] && |ts| == |spec| + 1
    ensures Testers(spec, ts) == ts[0] + Repeated(spec[0], Testers(spec[1..], ts[1..]))
    ensures Caches(spec, ts) == ts[0] + spec[0] + Repeated(spec[0], Caches(spec[1..], ts[1..]))
  {
    RepeatedIsProduct(spec[0], Testers(spec[1..], ts[1..]));
    RepeatedIsProduct(spec[0], Caches(spec[1..], ts[1..]));
  }

  /** The next indices after k subtrees of a level have been built. */
  ghost predicate Indexed(spec: seq<nat>, k: nat, was: seq<nat>, index: seq<nat>) {
    && |was| == |index| > |spec|
    && (forall l {:trigger index[l]} :: 0 <= l <= |spec| ==> index[l] == was[l] + Repeated(k, Subsystems(spec, |spec| - l)))
    && (forall l {:trigger index[l]} :: |spec| < l < |index| ==> index[l] == was[l])
  }

  lemma {:induction false} IndexedOneMore(spec: seq<nat>, k: nat, was: seq<nat>, mid: seq<nat>, index: seq<nat>)
    requires Indexed(spec, k, was, mid) && Indexed(spec, 1, mid, index)
    ensures Indexed(spec, k + 1, was, index)
  {
    forall l | 0 <= l <= |spec|
      ensures index[l] == was[l] + Repeated(k + 1, Subsystems(spec, |spec| - l))
    {
      assert mid[l] == was[l] + Repeated(k, Subsystems(spec, |spec| - l));
      assert Repeated(1, Subsystems(spec, |spec| - l)) == Subsystems(spec, |spec| - l);
    }
  }

  lemma {:induction false} IndexedNone(spec: seq<nat>, was: seq<nat>, index: seq<nat>)
    requires |was| > |spec| && index == was
    ensures Indexed(spec, 0, was, index)
  {
  }

  lemma {:induction false} IndexedRoot(spec: seq<nat>, was: seq<nat>, mid: seq<nat>, index: seq<nat>)
    requires spec != [] && |was| > |spec| && mid == was[|spec| := was[|spec|] + 1]
    requires Indexed(spec[1..], spec[0], mid, index)
    ensures Indexed(spec, 1, was, index)
  {
    forall l | 0 <= l < |spec|
      ensures index[l] == was[l] + Repeated(1, Subsystems(spec, |spec| - l))
    {
      RepeatedIsProduct(spec[0], Subsystems(spec[1..], |spec| - 1 - l));
    }
  }

  class Builder {
    const cachespec: seq<nat>
    const testerspec: seq<nat>
    var nextIndex: seq<nat>
    var subsystems: seq<Name>
    // testers and caches are numbered as they are made
    var testers: nat
    var caches: nat
    // the subsystem a tester is in
    var testerHome: map<nat, Name>
    var testerPort: map<nat, Port>
    var cacheUser: map<nat, User>
    // the subsystem whose crossbar a cache's memory side is connected to
    var memSide: map<nat, Name>
    // the cache a subsystem hangs on
    ghost var hang: map<Name, nat>

    /** The specification the script accepts, and the bookkeeping. */
    ghost predicate Valid()
      reads this
    {
      && |testerspec| == |cachespec| + 1 == |nextIndex| && testerspec[|cachespec|] >= 1
      && Named()
      && (forall t :: t in testerPort ==> t < testers) && (forall c :: c in cacheUser ==> c < caches)
      && (forall c :: c in memSide ==> c < caches) && (forall t :: t in testerHome ==> t < testers)
    }

    /** Each level has the names below its next index, once. */
    ghost predicate Named()
      reads this
    {
      && (forall i, j :: 0 <= i < j < |subsystems| ==> subsystems[i] != subsystems[j])
      && (forall name :: name in subsystems <==> name.level < |nextIndex| && name.index < nextIndex[name.level])
    }

    ghost function Wires(): (w: Wiring)
      reads this
    {
      Wiring(testerPort, cacheUser, memSide, testerHome, hang)
    }

    ghost function Subs(): (r: set<Name>)
      reads this`subsystems
    {
      set n | n in subsystems
    }

    /** The connections are right, and every subsystem above the root hangs on a cache, but the pending one. */
    ghost predicate Sound(pending: Option<Name>)
      reads this
    {
      Tied(Wires(), Subs(), |cachespec|, pending)
    }

    constructor (cachespec: seq<nat>, testerspec: seq<nat>)
      requires |testerspec| == |cachespec| + 1 && testerspec[|cachespec|] >= 1
      ensures Valid() && Sound(None) && this.cachespec == cachespec && this.testerspec == testerspec
      ensures subsystems == [] && testers == caches == 0 && testerPort == map[] && cacheUser == map[] && memSide == map[]
      ensures forall l :: 0 <= l < |nextIndex| ==> nextIndex[l] == 0
    {
      this.cachespec, this.testerspec := cachespec, testerspec;
      nextIndex := seq(|cachespec| + 1, _ => 0);
      subsystems, testers, caches, testerPort, cacheUser, memSide := [], 0, 0, map[], map[], map[];
      testerHome, hang := map[], map[];
    }

    ghost function Held(): (r: Shares)
      reads this`memSide, this`testerHome, this`subsystems
    {
      Shares(memSide, testerHome, Subs())
    }

    /** Names a new subsystem. */
    method NewSubsystem(level: nat) returns (name: Name)
      requires Valid() && Sound(None) && level < |nextIndex|
      modifies this`nextIndex, this`subsystems
      ensures Valid() && Sound(Some(name)) && name !in hang && Subs() == old(Subs()) + {name}
      ensures name == Name(level, old(nextIndex[level])) && name !in old(subsystems)
      ensures nextIndex == old(nextIndex)[level := old(nextIndex[level]) + 1] && subsystems == old(subsystems) + [name]
    {
      name := Name(level, nextIndex[level]);
      SubsystemNamed(Wires(), Subs(), |cachespec|, name);
      nextIndex := nextIndex[level := nextIndex[level] + 1];
      subsystems := subsystems + [name];
      assert Subs() == old(Subs()) + {name};
    }

    /** Puts new testers into a subsystem that has none. */
    method NewTesters(name: Name, ntesters: nat, ghost pending: Option<Name>)
      requires Valid() && Sound(pending) && name in subsystems && Just(testerHome, name, testers, testers, testers, testers)
      modifies this`testers, this`testerHome
      ensures Valid() && Sound(pending) && testers == old(testers) + ntesters
      ensures Just(testerHome, name, old(testers), testers, testers, testers)
      ensures forall n {:trigger Same(old(testerHome), testerHome, n)} :: n != name ==> Same(old(testerHome), testerHome, n)
    {
      var home := House(testerHome, testers, ntesters, name);
      TestersHoused(Wires(), Subs(), |cachespec|, pending, home, name);
      testerHome, testers := home, testers + ntesters;
    }

    static method House(was: map<nat, Name>, from: nat, ntesters: nat, name: Name) returns (home: map<nat, Name>)
      requires (forall t :: t in was ==> t < from) && Just(was, name, from, from, from, from)
      ensures Adds(home, was, from, from + ntesters)
      ensures forall t :: t in home ==> home[t] == if t in was then was[t] else name
      ensures var end := from + ntesters; Just(home, name, from, end, end, end)
      ensures forall n {:trigger Same(was, home, n)} :: n != name ==> Same(was, home, n)
    {
      home := was;
      for i := 0 to ntesters
        invariant Adds(home, was, from, from + i)
        invariant forall t :: t in home ==> home[t] == if t in was then was[t] else name
        invariant Just(home, name, from, from + i, from + i, from + i)
        invariant forall n {:trigger Same(was, home, n)} :: n != name ==> Same(was, home, n)
      {
        ghost var before := home;
        OneMoreIn(home, from + i, name, from);
        home := home[from + i := name];
        forall n | n != name ensures Same(was, home, n) {
          assert Same(was, before, n) && Same(before, home, n);
          SameTwice(was, before, home, n);
        }
      }
    }

    /** Connects the memory side of a cache. */
    method ConnectMemory(cache: nat, name: Name)
      requires Valid() && Sound(None) && cache < caches && cache !in memSide && cache !in cacheUser && name in subsystems
      modifies this`memSide
      ensures Valid() && Sound(None) && memSide == old(memSide)[cache := name]
    {
      MemoryConnected(Wires(), Subs(), |cachespec|, cache, name);
      memSide := memSide[cache := name];
    }

    /** Connects a crossbar to the processor side of the cache it is to hang on. */
    method ConnectCrossbar(cache: nat, name: Name)
      requires Valid() && Sound(Some(name)) && name in subsystems && name !in hang
      requires cache < caches && cache !in cacheUser && cache in memSide && memSide[cache].level == name.level + 1
      modifies this`cacheUser, this`hang
      ensures Valid() && Sound(None)
      ensures cacheUser == old(cacheUser)[cache := CrossbarMaster(name)] && hang == old(hang)[name := cache]
    {
      CrossbarHung(Wires(), Subs(), |cachespec|, cache, name);
      cacheUser, hang := cacheUser[cache := CrossbarMaster(name)], hang[name := cache];
    }

    /** Connects a tester to the crossbar of its subsystem. */
    method ConnectSlave(tester: nat, name: Name)
      requires Valid() && Sound(None) && tester in testerHome && testerHome[tester] == name && name.level == 0
      requires name in hang && hang[name] in cacheUser && cacheUser[hang[name]] == CrossbarMaster(name)
      requires tester !in testerPort
      modifies this`testerPort
      ensures Valid() && Sound(None) && testerPort == old(testerPort)[tester := CrossbarSlave(name)]
    {
      TesterOnCrossbar(Wires(), Subs(), |cachespec|, tester, name);
      testerPort := testerPort[tester := CrossbarSlave(name)];
    }

    /** Connects the one tester of a top level to the cache it hangs on. */
    method ConnectLast(tester: nat, cache: nat, name: Name)
      requires Valid() && Sound(Some(name)) && name in subsystems && name !in hang && name.level == 0
      requires tester !in testerPort && tester in testerHome && testerHome[tester] == name
      requires cache < caches && cache !in cacheUser && cache in memSide && memSide[cache].level == 1
      modifies this`testerPort, this`cacheUser, this`hang
      ensures Valid() && Sound(None) && testerPort == old(testerPort)[tester := CacheSide(cache)]
      ensures cacheUser == old(cacheUser)[cache := Tester(tester)]
    {
      TesterHung(Wires(), Subs(), |cachespec|, tester, cache, name);
      cacheUser, hang := cacheUser[cache := Tester(tester)], hang[name := cache];
      testerPort := testerPort[tester := CacheSide(cache)];
    }

    /** Connects a tester of a lower level to a cache of its own, and that to the crossbar. */
    method ConnectOwn(tester: nat, cache: nat, name: Name, ghost a: nat, ghost b: nat, ghost d: nat)
      requires Valid() && Sound(None) && name in subsystems && name.level > 0
      requires tester !in testerPort && tester in testerHome && testerHome[tester] == name
      requires cache < caches && cache !in cacheUser && cache !in memSide
      modifies this`testerPort, this`cacheUser, this`memSide
      ensures Valid() && Sound(None) && testerPort == old(testerPort)[tester := CacheSide(cache)]
      ensures cacheUser == old(cacheUser)[cache := Tester(tester)] && memSide == old(memSide)[cache := name]
      ensures Built(old(Held()), Held(), cachespec, testerspec, Some(name))
      ensures a <= cache && Just(old(memSide), name, a, cache, b, d) ==> Just(memSide, name, a, cache + 1, b, d)
    {
      OneMoreOn(Held(), cachespec, testerspec, cache, name, a, b, d);
      TesterOwnsCache(Wires(), Subs(), |cachespec|, tester, cache, name);
      testerPort := testerPort[tester := CacheSide(cache)];
      cacheUser := cacheUser[cache := Tester(tester)];
      memSide := memSide[cache := name];
    }

    /** The testers of a top level, on the last cache, behind a crossbar if there are several */
    method ConnectTop(name: Name, from: nat, ntesters: nat, next: nat)
      requires Valid() && Sound(Some(name)) && name in subsystems && name !in hang && name.level == 0
      requires ntesters >= 1 && from + ntesters == testers
      requires forall t :: from <= t ==> t !in testerPort
      requires Just(testerHome, name, from, testers, testers, testers)
      requires next < caches && next !in cacheUser && next in memSide && memSide[next].level == 1
      modifies this`testerPort, this`cacheUser, this`hang
      ensures Valid() && Sound(None)
      ensures Adds(testerPort, old(testerPort), from, testers) && Adds(cacheUser, old(cacheUser), next, next + 1)
    {
      assert At(testerHome, name, from);
      if ntesters > 1 {
        ConnectCrossbar(next, name);
        for i := 0 to ntesters
          invariant Valid() && Sound(None) && Adds(testerPort, old(testerPort), from, from + i)
          invariant cacheUser == old(cacheUser)[next := CrossbarMaster(name)] && hang == old(hang)[name := next]
        {
          assert At(testerHome, name, from + i);
          ConnectSlave(from + i, name);
        }
      } else {
        ConnectLast(from, next, name);
      }
    }

    /** The testers of a lower level, each with a cache of its own */
    method ConnectWithCaches(name: Name, fromTester: nat, fromCache: nat, ntesters: nat, ghost end: nat)
      requires Valid() && Sound(None) && name in subsystems && name.level > 0
      requires fromTester + ntesters <= testers && fromCache + ntesters <= caches
      requires forall t :: fromTester <= t < fromTester + ntesters ==> t !in testerPort
      requires Just(testerHome, name, fromTester, fromTester + ntesters, fromTester + ntesters, fromTester + ntesters)
      requires Just(memSide, name, fromCache, fromCache, fromCache + ntesters, end) && fromCache + ntesters <= end
      requires forall c :: fromCache <= c < fromCache + ntesters ==> c !in cacheUser && c !in memSide
      modifies this`testerPort, this`cacheUser, this`memSide
      ensures Valid() && Sound(None)
      ensures Adds(testerPort, old(testerPort), fromTester, fromTester + ntesters)
      ensures Adds(cacheUser, old(cacheUser), fromCache, fromCache + ntesters)
      ensures Adds(memSide, old(memSide), fromCache, fromCache + ntesters)
      ensures Built(old(Held()), Held(), cachespec, testerspec, Some(name))
      ensures Just(memSide, name, fromCache, fromCache + ntesters, fromCache + ntesters, end)
    {
      BuiltNothing(Held(), cachespec, testerspec, Some(name));
      for i := 0 to ntesters
        invariant Valid() && Sound(None) && Adds(testerPort, old(testerPort), fromTester, fromTester + i)
        invariant Adds(cacheUser, old(cacheUser), fromCache, fromCache + i)
        invariant Adds(memSide, old(memSide), fromCache, fromCache + i)
        invariant Built(old(Held()), Held(), cachespec, testerspec, Some(name))
        invariant Just(memSide, name, fromCache, fromCache + i, fromCache + ntesters, end)
      {
        assert At(testerHome, name, fromTester + i);
        ghost var held := Held();
        ConnectOwn(fromTester + i, fromCache + i, name, fromCache, fromCache + ntesters, end);
        BuiltTwice(old(Held()), held, Held(), cachespec, testerspec, Some(name));
      }
    }

    /** A new subsystem with its testers */
    method Start(level: nat, ntesters: nat) returns (name: Name)
      requires Valid() && Sound(None) && level < |nextIndex|
      modifies this`nextIndex, this`subsystems, this`testers, this`testerHome
      ensures Valid() && Sound(Some(name)) && name !in hang && name in subsystems && name.level == level
      ensures nextIndex == old(nextIndex)[level := old(nextIndex[level]) + 1] && testers == old(testers) + ntesters
      ensures name !in old(Subs()) && Subs() == old(Subs()) + {name}
      ensures Just(testerHome, name, old(testers), testers, testers, testers) && Just(memSide, name, 0, 0, 0, 0)
      ensures forall n {:trigger Leaves(old(Held()), Held(), n)} :: n in old(Subs()) ==> Leaves(old(Held()), Held(), n)
    {
      name := NewSubsystem(level);
      NothingOn(name, old(Subs()));
      NewTesters(name, ntesters, Some(name));
      forall n | n in old(Subs()) ensures Leaves(old(Held()), Held(), n) {
        assert Same(old(testerHome), testerHome, n);
      }
    }

    lemma {:induction false} NothingOn(name: Name, subs: set<Name>)
      requires Placed(Wires(), subs, |cachespec|, None) && name !in subs
      ensures Just(testerHome, name, testers, testers, testers, testers) && Just(memSide, name, 0, 0, 0, 0)
    {
      forall t: nat ensures !At(testerHome, name, t) {
        assert HomePlaced(Wires(), subs, t);
      }
      forall c: nat ensures !At(memSide, name, c) {
        assert MemPlaced(Wires(), subs, c);
      }
    }

    /** make_cache_level: the subtree's testers, caches and subsystems, each named or connected once */
    method MakeCacheLevel(ncaches: seq<nat>, ghost ts: seq<nat>, prototypes: nat, level: nat, next: Option<nat>)
      requires Valid() && Sound(None) && |ncaches| == level == prototypes && level <= |cachespec|
      requires ts == testerspec[|cachespec| - level..] && ncaches == cachespec[|cachespec| - level..]
      requires next.Some? <==> level < |cachespec|
      requires next.Some? ==> next.value < caches && next.value !in cacheUser
      requires next.Some? ==> next.value in memSide && memSide[next.value].level == level + 1
      requires |cachespec| >= 1
      modifies this
      ensures Valid() && Sound(None) && Indexed(ncaches, 1, old(nextIndex), nextIndex)
      ensures testers == old(testers) + Testers(ncaches, ts) && caches == old(caches) + Caches(ncaches, ts)
      ensures Adds(testerPort, old(testerPort), old(testers), testers)
      ensures Adds(memSide, old(memSide), old(caches), caches)
      ensures forall c :: c in cacheUser <==> c in old(cacheUser) || old(caches) <= c < caches || next == Some(c)
      ensures Built(old(Held()), Held(), cachespec, testerspec, None)
      decreases level, 3
    {
      var ntesters := testerspec[|cachespec| - level];
      var name := Start(level, ntesters);
      ghost var held := Held();
      Raise(name, ncaches, ts, prototypes, level, ntesters, next, old(nextIndex));
      BuiltAll(old(Held()), held, Held(), cachespec, testerspec, name);
    }

    /** What is above a new subsystem */
    method Raise(name: Name, ncaches: seq<nat>, ghost ts: seq<nat>, prototypes: nat, level: nat, ntesters: nat,
                 next: Option<nat>, ghost index: seq<nat>)
      requires Valid() && Sound(Some(name)) && |ncaches| == level == prototypes && level <= |cachespec|
      requires ts == testerspec[|cachespec| - level..] && ncaches == cachespec[|cachespec| - level..]
      requires ntesters == ts[0] <= testers
      requires name in subsystems && name.level == level && name !in hang
      requires Just(testerHome, name, testers - ntesters, testers, testers, testers) && Just(memSide, name, 0, 0, 0, 0)
      requires forall t :: testers - ntesters <= t < testers ==> t !in testerPort
      requires next.Some? <==> level < |cachespec|
      requires next.Some? ==> next.value < caches && next.value !in cacheUser
      requires next.Some? ==> next.value in memSide && memSide[next.value].level == level + 1
      requires |cachespec| >= 1 && |index| == |nextIndex| && nextIndex == index[level := index[level] + 1]
      modifies this
      ensures Valid() && Sound(None) && Indexed(ncaches, 1, index, nextIndex)
      ensures testers == old(testers) - ntesters + Testers(ncaches, ts) && caches == old(caches) + Caches(ncaches, ts)
      ensures Adds(testerPort, old(testerPort), old(testers) - ntesters, testers)
      ensures Adds(memSide, old(memSide), old(caches), caches)
      ensures forall c :: c in cacheUser <==> c in old(cacheUser) || old(caches) <= c < caches || next == Some(c)
      ensures Built(old(Held()), Held(), cachespec, testerspec, Some(name)) && Full(Held(), cachespec, testerspec, name)
      decreases level, 2
    {
      ghost var before := nextIndex;
      if level == 0 {
        ConnectTop(name, testers - ntesters, ntesters, next.value);
        BuiltNothing(Held(), cachespec, testerspec, Some(name));
      } else {
        MakeAbove(name, ncaches, ts, prototypes, level, ntesters, next);
        IndexedRoot(ncaches, index, before, nextIndex);
      }
      FullNow(level, name, old(testers) - ntesters, old(caches), old(Held()));
    }

    /** The subsystem has its share, with its testers numbered from one number and its caches from another. */
    lemma {:induction false} FullNow(level: nat, name: Name, t: nat, c: nat, was: Shares)
      requires |testerspec| == |cachespec| + 1 && name.level == level <= |cachespec|
      requires var end := t + testerspec[|cachespec| - level]; Just(was.home, name, t, end, end, end)
      requires Same(was.home, testerHome, name)
      requires level == 0 ==> Just(memSide, name, 0, 0, 0, 0)
      requires level > 0 ==>
        var own := c + testerspec[|cachespec| - level];
        Just(memSide, name, c, own, own, own + cachespec[|cachespec| - level])
      ensures Full(Held(), cachespec, testerspec, name)
    {
      var n := testerspec[|cachespec| - level];
      SameOn(was.home, testerHome, name);
      JustCounts(was.home, name, t, t + n, t + n, t + n);
      if level == 0 {
        JustCounts(memSide, name, 0, 0, 0, 0);
      } else {
        JustCounts(memSide, name, c, c + n, c + n, c + n + cachespec[|cachespec| - level]);
      }
    }

    /** The crossbar of a level that is not the top, and the caches on it */
    method MakeAbove(name: Name, ncaches: seq<nat>, ghost ts: seq<nat>, prototypes: nat, level: nat, ntesters: nat,
                     next: Option<nat>)
      requires Valid() && Sound(Some(name)) && |ncaches| == level == prototypes && 0 < level <= |cachespec|
      requires ts == testerspec[|cachespec| - level..] && ncaches == cachespec[|cachespec| - level..]
      requires ntesters == ts[0] <= testers
      requires name in subsystems && name.level == level && name !in hang
      requires Just(testerHome, name, testers - ntesters, testers, testers, testers) && Just(memSide, name, 0, 0, 0, 0)
      requires forall t :: testers - ntesters <= t < testers ==> t !in testerPort
      requires next.Some? <==> level < |cachespec|
      requires next.Some? ==> next.value < caches && next.value !in cacheUser
      requires next.Some? ==> next.value in memSide && memSide[next.value].level == level + 1
      modifies this
      ensures Valid() && Sound(None) && Indexed(ncaches[1..], ncaches[0], old(nextIndex), nextIndex)
      ensures testers == old(testers) - ntesters + Testers(ncaches, ts) && caches == old(caches) + Caches(ncaches, ts)
      ensures Adds(testerPort, old(testerPort), old(testers) - ntesters, testers)
      ensures Adds(memSide, old(memSide), old(caches), caches)
      ensures forall c :: c in cacheUser <==> c in old(cacheUser) || old(caches) <= c < caches || next == Some(c)
      ensures Built(old(Held()), Held(), cachespec, testerspec, Some(name))
      ensures Same(old(testerHome), testerHome, name)
      ensures var own := old(caches) + ntesters;
        Just(memSide, name, old(caches), own, own, own + ncaches[0])
      decreases level, 1
    {
      if next.Some? {
        ConnectCrossbar(next.value, name);
      } else {
        RootNeedsNone(Wires(), Subs(), |cachespec|, name);
      }
      MakeLower(name, ncaches, ts, prototypes, level, ntesters);
    }

    /** The caches of a level that is not the top, with what is above them */
    method MakeLower(name: Name, ncaches: seq<nat>, ghost ts: seq<nat>, prototypes: nat, level: nat, ntesters: nat)
      requires Valid() && Sound(None) && |ncaches| == level == prototypes && 0 < level <= |cachespec|
      requires ts == testerspec[|cachespec| - level..] && ncaches == cachespec[|cachespec| - level..]
      requires ntesters == ts[0] <= testers
      requires name in subsystems && name.level == level
      requires Just(testerHome, name, testers - ntesters, testers, testers, testers) && Just(memSide, name, 0, 0, 0, 0)
      requires forall t :: testers - ntesters <= t < testers ==> t !in testerPort
      modifies this
      ensures Valid() && Sound(None) && Indexed(ncaches[1..], ncaches[0], old(nextIndex), nextIndex)
      ensures testers == old(testers) - ntesters + Testers(ncaches, ts) && caches == old(caches) + Caches(ncaches, ts)
      ensures Adds(testerPort, old(testerPort), old(testers) - ntesters, testers)
      ensures Adds(memSide, old(memSide), old(caches), caches)
      ensures Adds(cacheUser, old(cacheUser), old(caches), caches)
      ensures Built(old(Held()), Held(), cachespec, testerspec, Some(name))
      ensures Same(old(testerHome), testerHome, name)
      ensures var own := old(caches) + ntesters;
        Just(memSide, name, old(caches), own, own, own + ncaches[0])
      decreases level, 0
    {
      var from, base := testers - ntesters, caches;
      var fan := ncaches[0];
      caches := caches + ntesters + fan;
      FanOut(name, ncaches[1..], ts[1..], prototypes - 1, level - 1, base + ntesters, fan);
      Totals(ncaches, ts);
      ghost var ports, users, mems, held := testerPort, cacheUser, memSide, Held();
      SameJust(old(testerHome), testerHome, name, from, from + ntesters, from + ntesters, from + ntesters);
      ConnectWithCaches(name, from, base, ntesters, base + ntesters + fan);
      AddsJoin(testerPort, ports, old(testerPort), from, from + ntesters, testers);
      AddsJoin(cacheUser, users, old(cacheUser), base, base + ntesters, caches);
      AddsJoin(memSide, mems, old(memSide), base, base + ntesters, caches);
      BuiltTwice(old(Held()), held, Held(), cachespec, testerspec, Some(name));
    }

    /** The loop over the caches that fan out */
    method FanOut(name: Name, ncaches: seq<nat>, ghost ts: seq<nat>, prototypes: nat, level: nat, first: nat, fan: nat)
      requires Valid() && Sound(None) && |ncaches| == level == prototypes && level < |cachespec|
      requires ts == testerspec[|cachespec| - level..] && ncaches == cachespec[|cachespec| - level..]
      requires name in subsystems && name.level == level + 1
      requires Just(memSide, name, 0, 0, 0, 0)
      requires first + fan == caches && forall c :: first <= c ==> c !in cacheUser && c !in memSide
      modifies this
      ensures Valid() && Sound(None) && Indexed(ncaches, fan, old(nextIndex), nextIndex)
      ensures testers == old(testers) + Repeated(fan, Testers(ncaches, ts))
      ensures caches == old(caches) + Repeated(fan, Caches(ncaches, ts))
      ensures Adds(testerPort, old(testerPort), old(testers), testers)
      ensures Adds(cacheUser, old(cacheUser), first, caches)
      ensures Adds(memSide, old(memSide), first, caches)
      ensures Built(old(Held()), Held(), cachespec, testerspec, Some(name))
      ensures Same(old(testerHome), testerHome, name)
      ensures Just(memSide, name, first, first + fan, 0, 0)
      decreases level, 5
    {
      IndexedNone(ncaches, old(nextIndex), nextIndex);
      BuiltNothing(Held(), cachespec, testerspec, Some(name));
      for i := 0 to fan
        invariant Valid() && Sound(None) && Indexed(ncaches, i, old(nextIndex), nextIndex)
        invariant testers == old(testers) + Repeated(i, Testers(ncaches, ts))
        invariant caches == old(caches) + Repeated(i, Caches(ncaches, ts))
        invariant Adds(testerPort, old(testerPort), old(testers), testers)
        invariant AddsTwice(cacheUser, old(cacheUser), first, first + i, old(caches), caches)
        invariant AddsTwice(memSide, old(memSide), first, first + i, old(caches), caches)
        invariant Built(old(Held()), Held(), cachespec, testerspec, Some(name))
        invariant Same(old(testerHome), testerHome, name)
        invariant Just(memSide, name, first, first + i, 0, 0)
      {
        ghost var index, users, mems, made, held := nextIndex, cacheUser, memSide, caches, Held();
        FanOne(name, ncaches, ts, prototypes, level, first, first + i);
        SameTwice(old(testerHome), held.home, testerHome, name);
        IndexedOneMore(ncaches, i, old(nextIndex), index, nextIndex);
        AddsOneMore(cacheUser, users, old(cacheUser), first, first + i, old(caches), made, caches);
        AddsOneMore(memSide, mems, old(memSide), first, first + i, old(caches), made, caches);
        BuiltTwice(old(Held()), held, Held(), cachespec, testerspec, Some(name));
      }
    }

    /** One cache that fans out, and the subtree above it */
    method FanOne(name: Name, ncaches: seq<nat>, ghost ts: seq<nat>, prototypes: nat, level: nat, ghost first: nat,
                  cache: nat)
      requires Valid() && Sound(None) && |ncaches| == level == prototypes && level < |cachespec|
      requires ts == testerspec[|cachespec| - level..] && ncaches == cachespec[|cachespec| - level..]
      requires name in subsystems && name.level == level + 1
      requires cache < caches && cache !in cacheUser && cache !in memSide
      requires first <= cache && Just(memSide, name, first, cache, 0, 0)
      modifies this
      ensures Valid() && Sound(None) && Indexed(ncaches, 1, old(nextIndex), nextIndex)
      ensures testers == old(testers) + Testers(ncaches, ts) && caches == old(caches) + Caches(ncaches, ts)
      ensures Adds(testerPort, old(testerPort), old(testers), testers)
      ensures AddsTwice(cacheUser, old(cacheUser), cache, cache + 1, old(caches), caches)
      ensures AddsTwice(memSide, old(memSide), cache, cache + 1, old(caches), caches)
      ensures Built(old(Held()), Held(), cachespec, testerspec, Some(name))
      ensures Same(old(testerHome), testerHome, name)
      ensures Just(memSide, name, first, cache + 1, 0, 0)
      decreases level, 4
    {
      OneMoreOn(Held(), cachespec, testerspec, cache, name, first, 0, 0);
      ConnectMemory(cache, name);
      ghost var held := Held();
      MakeCacheLevel(ncaches, ts, prototypes, level, Some(cache));
      BuiltBut(held, Held(), cachespec, testerspec, name);
      SameJust(held.mem, memSide, name, first, cache + 1, 0, 0);
      BuiltTwice(old(Held()), held, Held(), cachespec, testerspec, Some(name));
    }

    /** The whole tree: as many testers as numtesters says, per level the product of the fan-outs below,
        no name printed twice, every port of every tester and cache connected once, and to the right one. */
    method Build()
      requires Valid() && Sound(None) && |cachespec| >= 1
      requires subsystems == [] && testers == caches == 0 && testerPort == map[] && cacheUser == map[] && memSide == map[]
      requires forall l :: 0 <= l < |nextIndex| ==> nextIndex[l] == 0
      modifies this
      ensures Valid() && Sound(None)
      ensures testers == Testers(cachespec, testerspec) && caches == Caches(cachespec, testerspec)
      ensures forall t: nat :: t in testerPort <==> t < testers
      ensures forall c: nat :: c in cacheUser <==> c < caches
      ensures forall c: nat :: c in memSide <==> c < caches
      ensures forall l :: 0 <= l <= |cachespec| ==> nextIndex[l] == Subsystems(cachespec, |cachespec| - l)
      ensures forall i, j :: 0 <= i < j < |subsystems| ==> subsystems[i].Text() != subsystems[j].Text()
      ensures Connected(Wires(), testers, caches)
      ensures EndsAgree(Wires(), testers, caches) && SlavesHung(Wires(), testers, caches)
      ensures TestersRight(Wires(), Subs(), testers, caches) && MemoryRight(Wires(), Subs(), testers, caches)
      ensures HangOnce(Wires(), Subs(), |cachespec|, caches) && AllLeadDown()
      ensures forall n :: n in subsystems ==> Full(Held(), cachespec, testerspec, n)
    {
      BuildTree();
      forall n | n in subsystems ensures Full(Held(), cachespec, testerspec, n) {
        assert n in Subs() && n !in old(Subs());
      }
      DistinctTexts();
      TestersAreRight(Wires(), Subs(), |cachespec|, testers, caches);
      CachesAreRight(Wires(), Subs(), |cachespec|, testers, caches);
      LeadDown();
    }

    method BuildTree()
      requires Valid() && Sound(None) && |cachespec| >= 1
      requires subsystems == [] && testers == caches == 0 && testerPort == map[] && cacheUser == map[] && memSide == map[]
      requires forall l :: 0 <= l < |nextIndex| ==> nextIndex[l] == 0
      modifies this
      ensures Valid() && Sound(None) && Connected(Wires(), testers, caches)
      ensures testers == Testers(cachespec, testerspec) && caches == Caches(cachespec, testerspec)
      ensures Built(old(Held()), Held(), cachespec, testerspec, None)
      ensures forall l :: 0 <= l <= |cachespec| ==> nextIndex[l] == Subsystems(cachespec, |cachespec| - l)
    {
      assert testerspec[0..] == testerspec && cachespec[0..] == cachespec;
      MakeCacheLevel(cachespec, testerspec, |cachespec|, |cachespec|, None);
      forall l | 0 <= l <= |cachespec|
        ensures nextIndex[l] == Subsystems(cachespec, |cachespec| - l)
      {
        assert Repeated(1, Subsystems(cachespec, |cachespec| - l)) == Subsystems(cachespec, |cachespec| - l);
      }
    }

    lemma {:induction false} DistinctTexts()
      requires Named()
      ensures forall i, j :: 0 <= i < j < |subsystems| ==> subsystems[i].Text() != subsystems[j].Text()
    {
      forall i, j | 0 <= i < j < |subsystems|
        ensures subsystems[i].Text() != subsystems[j].Text()
      {
        if subsystems[i].Text() == subsystems[j].Text() {
          TextInjective(subsystems[i], subsystems[j]);
          assert false;
        }
      }
    }

    /** From the subsystem of every tester, and every other one, caches lead down to the one on the memory. */
    ghost predicate AllLeadDown()
      reads this
    {
      forall n :: n in subsystems ==> LeadsDown(n)
    }

    ghost predicate LeadsDown(n: Name)
      reads this
    {
      exists path :: IsPathDown(Wires(), path) && path != [] && path[0] == n
        && path[|path| - 1] == Name(|cachespec|, 0) && |path| == |cachespec| - n.level + 1
    }

    lemma {:induction false} LeadDown()
      requires Valid() && Sound(None) && nextIndex[|cachespec|] == 1
      ensures AllLeadDown()
    {
      forall n | n in subsystems ensures LeadsDown(n) {
        var path := DownToRoot(Wires(), Subs(), |cachespec|, Name(|cachespec|, 0), n);
      }
    }
  }
}
