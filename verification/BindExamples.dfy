/** Port connections on which the order of the pass (BindPorts) shows, and one it cannot bind. */
module BindExamples {
  import opened Strings
  import opened BindPorts

  // ----- What the order is for

  const AR0 := Port("a", "r", 0)
  const AR1 := Port("a", "r", 1)
  const BP0 := Port("b", "p", 0)
  const BP1 := Port("b", "p", 1)
  const CS0 := Port("c", "s", 0)
  const DQ0 := Port("d", "q", 0)

  /** a.r[0] - c.s[0], a.r[1] - b.p[0] and b.p[1] - d.q[0], sorted: by object, not by name. */
  const BY_OBJECT :=
    [Conn(AR0, CS0), Conn(AR1, BP0), Conn(BP0, AR1), Conn(BP1, DQ0), Conn(CS0, AR0), Conn(DQ0, BP1)]

  lemma {:induction false} ByObjectIsOrdered()
    ensures Ordered(BY_OBJECT)
  {
    assert StrBelow("a", "b") && StrBelow("b", "c") && StrBelow("c", "d");
    assert forall i :: 0 <= i < 5 ==> Below(BY_OBJECT[i], BY_OBJECT[i + 1]);
    ChainOrdered(BY_OBJECT);
  }

  lemma {:induction false} OwnersDiffer()
    ensures "a" != "b" && "a" != "c" && "a" != "d" && "b" != "c" && "b" != "d" && "c" != "d"
  {
    assert "a"[0] == 'a' && "b"[0] == 'b' && "c"[0] == 'c' && "d"[0] == 'd';
  }

  lemma {:induction false} ByObjectFits()
    ensures Fits([], Conn(AR0, CS0))
    ensures Fits([Conn(AR0, CS0)], Conn(AR1, BP0))
    ensures !Fits([Conn(AR0, CS0), Conn(AR1, BP0)], Conn(BP0, AR1))
    ensures Fits([Conn(AR0, CS0), Conn(AR1, BP0)], Conn(BP1, DQ0))
  {
    OwnersDiffer();
    CountShort(Conn(AR0, CS0), Conn(AR1, BP0), AR0.Vector());
    CountShort(Conn(AR0, CS0), Conn(AR1, BP0), BP0.Vector());
    CountShort(Conn(AR0, CS0), Conn(AR1, BP0), CS0.Vector());
    CountShort(Conn(AR0, CS0), Conn(AR1, BP0), DQ0.Vector());
  }

  lemma {:induction false} ByObjectDone()
    ensures var made := [Conn(AR0, CS0), Conn(AR1, BP0), Conn(BP1, DQ0)];
      !Fits(made, Conn(CS0, AR0)) && !Fits(made, Conn(DQ0, BP1))
  {
    var made := [Conn(AR0, CS0), Conn(AR1, BP0)];
    OwnersDiffer();
    CountSnoc(made, Conn(BP1, DQ0), CS0.Vector());
    CountSnoc(made, Conn(BP1, DQ0), DQ0.Vector());
    CountShort(Conn(AR0, CS0), Conn(AR1, BP0), CS0.Vector());
    assert made + [Conn(BP1, DQ0)] == [Conn(AR0, CS0), Conn(AR1, BP0), Conn(BP1, DQ0)];
  }

  lemma {:induction false} ByObjectGreedy()
    ensures Greedy(BY_OBJECT) == [Conn(AR0, CS0), Conn(AR1, BP0), Conn(BP1, DQ0)]
  {
    var l, one, two := BY_OBJECT, [Conn(AR0, CS0)], [Conn(AR0, CS0), Conn(AR1, BP0)];
    var three := [Conn(AR0, CS0), Conn(AR1, BP0), Conn(BP1, DQ0)];
    ByObjectFits();
    ByObjectDone();
    GreedyNext(l, 0, [], one);
    GreedyNext(l, 1, one, two);
    GreedyNext(l, 2, two, two);
    GreedyNext(l, 3, two, three);
    GreedyNext(l, 4, three, three);
    GreedyNext(l, 5, three, three);
    assert l[..6] == l;
  }

  lemma {:induction false} ByObjectIsWellFormed()
    ensures WellFormed(BY_OBJECT)
  {
    OwnersDiffer();
    var l := BY_OBJECT;
    assert l[0].Flip() == l[4] && l[1].Flip() == l[2] && l[3].Flip() == l[5];
    assert l[4].Flip() == l[0] && l[2].Flip() == l[1] && l[5].Flip() == l[3];
    assert l[0] in l && l[1] in l && l[2] in l && l[3] in l && l[4] in l && l[5] in l;
  }

  /** However these connections are listed they are all made, in this order. */
  method BindsByObject(connections: seq<Conn>) returns (r: Outcome)
    requires multiset(connections) == multiset(BY_OBJECT)
    ensures r == Bound([Conn(AR0, CS0), Conn(AR1, BP0), Conn(BP1, DQ0)])
  {
    ByObjectIsOrdered();
    ByObjectIsWellFormed();
    WellFormedPermuted(BY_OBJECT, connections);
    SortSorts(connections);
    SortUnique(Sort(connections), BY_OBJECT);
    ByObjectGreedy();
    r := Bind(connections);
  }

  // ----- What the pass cannot do

  const A0 := Port("a", "p", 0)
  const A1 := Port("a", "p", 1)
  const B0 := Port("b", "q", 0)
  const Z0 := Port("z", "r", 0)
  const Z1 := Port("z", "r", 1)
  const ZZ0 := Port("zz", "s", 0)

  /** a.p[0] - z.r[1], a.p[1] - b.q[0] and z.r[0] - zz.s[0], sorted. */
  const SORTED := [Conn(A0, Z1), Conn(A1, B0), Conn(B0, A1), Conn(Z0, ZZ0), Conn(Z1, A0), Conn(ZZ0, Z0)]

  lemma {:induction false} CountShort(c: Conn, d: Conn, v: (string, string))
    ensures Count([], v) == 0 && Count([c], v) == Ends(c, v) && Count([c, d], v) == Ends(c, v) + Ends(d, v)
  {
    CountSnoc([], c, v);
    CountSnoc([c], d, v);
    assert [] + [c] == [c] && [c] + [d] == [c, d];
  }

  lemma {:induction false} VectorsDiffer()
    ensures A0.Vector() == A1.Vector() && Z0.Vector() == Z1.Vector()
    ensures A0.Vector() != B0.Vector() && A0.Vector() != Z0.Vector() && A0.Vector() != ZZ0.Vector()
    ensures B0.Vector() != Z0.Vector() && B0.Vector() != ZZ0.Vector() && Z0.Vector() != ZZ0.Vector()
  {
    assert "a"[0] == 'a' && "b"[0] == 'b' && "z"[0] == 'z' && "zz"[0] == 'z';
    assert |"z"| == 1 && |"zz"| == 2;
  }

  lemma {:induction false} FirstThreeWait()
    ensures Greedy(SORTED[..3]) == []
  {
    GreedySnoc([], SORTED[0]);
    GreedySnoc(SORTED[..1], SORTED[1]);
    GreedySnoc(SORTED[..2], SORTED[2]);
    assert SORTED[..1] == [] + [SORTED[0]];
    assert SORTED[..2] == SORTED[..1] + [SORTED[1]];
    assert SORTED[..3] == SORTED[..2] + [SORTED[2]];
  }

  lemma {:induction false} FitsShort()
    ensures Fits([], Conn(Z0, ZZ0))
    ensures Fits([Conn(Z0, ZZ0)], Conn(Z1, A0))
    ensures Fits([Conn(Z0, ZZ0), Conn(Z1, A0)], Conn(A1, B0))
    ensures !Fits([Conn(Z0, ZZ0), Conn(Z1, A0)], Conn(ZZ0, Z0))
  {
    VectorsDiffer();
    CountShort(Conn(Z0, ZZ0), Conn(Z1, A0), A0.Vector());
    CountShort(Conn(Z0, ZZ0), Conn(Z1, A0), B0.Vector());
    CountShort(Conn(Z0, ZZ0), Conn(Z1, A0), Z0.Vector());
    CountShort(Conn(Z0, ZZ0), Conn(Z1, A0), ZZ0.Vector());
  }

  lemma {:induction false} SortedGreedy()
    ensures Greedy(SORTED) == [Conn(Z0, ZZ0), Conn(Z1, A0)]
  {
    FirstThreeWait();
    FitsShort();
    GreedySnoc(SORTED[..3], SORTED[3]);
    GreedySnoc(SORTED[..4], SORTED[4]);
    GreedySnoc(SORTED[..5], SORTED[5]);
    assert SORTED[..4] == SORTED[..3] + [SORTED[3]];
    assert SORTED[..5] == SORTED[..4] + [SORTED[4]];
    assert SORTED == SORTED[..5] + [SORTED[5]];
    assert [] + [Conn(Z0, ZZ0)] == [Conn(Z0, ZZ0)];
  }

  lemma {:induction false} SortedIsWellFormed()
    ensures WellFormed(SORTED)
  {
    VectorsDiffer();
    var l := SORTED;
    assert l[0].Flip() == l[4] && l[1].Flip() == l[2] && l[3].Flip() == l[5];
    assert l[4].Flip() == l[0] && l[2].Flip() == l[1] && l[5].Flip() == l[3];
    assert l[0] in l && l[1] in l && l[2] in l && l[3] in l && l[4] in l && l[5] in l;
  }

  lemma {:induction false} SortedIsOrdered()
    ensures Ordered(SORTED)
  {
    assert StrBelow("a", "b") && StrBelow("b", "z");
    assert StrBelow("z", "zz") by { assert "zz"[1..] == "z" && "z"[1..] == ""; }
    StrTransitive("a", "b", "z");
    assert forall i :: 0 <= i < 5 ==> Below(SORTED[i], SORTED[i + 1]);
    ChainOrdered(SORTED);
  }

  /**
    The pass does not find every order there is.  Of the three connections in SORTED it
    makes the third and the first, and by then it is past both orientations of the second,
    although made third, first, second all three bind in order.
   */
  lemma {:induction false} SortedPassCanFail() returns (s: seq<Conn>)
    ensures WellFormed(SORTED) && Sort(SORTED) == SORTED
    ensures InOrder(s) && Complete(s, SORTED)
    ensures 2 * |Greedy(SORTED)| != |SORTED| && !Bindable(SORTED)
  {
    SortedIsWellFormed();
    SortedIsOrdered();
    SortOfOrdered(SORTED);
    SortedGreedy();
    GreedyOptimal(SORTED);
    s := OtherOrder();
    HalfIffComplete(SORTED, s);
  }

  lemma {:induction false} OtherOrder() returns (s: seq<Conn>)
    ensures InOrder(s) && |s| == 3 && forall c :: c in s ==> c in SORTED
  {
    FitsShort();
    s := [Conn(Z0, ZZ0), Conn(Z1, A0), Conn(A1, B0)];
    assert s[..0] == [] && s[..1] == [Conn(Z0, ZZ0)] && s[..2] == [Conn(Z0, ZZ0), Conn(Z1, A0)];
  }
}
