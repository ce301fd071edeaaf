/** Strings of an ELF string table by offset (gem5/ext/libelf/elf_strptr.c). */
module StrPtr {
  import opened Common
  import opened Numbers

  /** A data descriptor: whether it has a buffer, and the fields the translation looks at. */
  datatype Data = Data(hasBuf: bool, size: Word64, isByte: bool, align: Word64, off: Word64)

  /** A position in the buffer of a descriptor. */
  datatype Place = Place(index: nat, at: nat)

  predicate Empty(d: Data) {
    !d.hasBuf || d.size == 0
  }

  // ----- The test for a power of two

  /** C's a & b */
  function And(a: nat, b: nat): (r: nat) {
    if a == 0 || b == 0 then 0
    else 2 * And(a / 2, b / 2) + (if a % 2 == 1 && b % 2 == 1 then 1 else 0)
  }

  predicate PowerOfTwo(a: nat)
    decreases a
  {
    a == 1 || (a > 1 && a % 2 == 0 && PowerOfTwo(a / 2))
  }

  lemma {:induction false} AndSelf(a: nat)
    ensures And(a, a) == a
    decreases a
  {
    if a > 0 {
      AndSelf(a / 2);
    }
  }

  lemma {:induction false} PowerOfTwoTest(a: nat)
    requires a >= 1
    ensures And(a, a - 1) == 0 <==> PowerOfTwo(a)
    decreases a
  {
    if a > 1 {
      if a % 2 == 0 {
        assert (a - 1) / 2 == a / 2 - 1;
        PowerOfTwoTest(a / 2);
      } else {
        assert (a - 1) / 2 == a / 2;
        AndSelf(a / 2);
      }
    }
  }

  /** The powers of two are the powers of two. */
  lemma {:induction false} PowerOfTwoIff(a: nat)
    ensures PowerOfTwo(a) <==> exists k: nat :: a == Pow2(k)
    decreases a
  {
    if PowerOfTwo(a) {
      if a == 1 {
        assert a == Pow2(0);
      } else {
        PowerOfTwoIff(a / 2);
        var k: nat :| a / 2 == Pow2(k);
        assert a == Pow2(k + 1);
      }
    }
    if k: nat :| a == Pow2(k) {
      Pow2IsPower(k);
    }
  }

  // ----- The layout

  /** A descriptor the translation goes past without an error. */
  predicate Proper(d: Data) {
    Empty(d) || (d.isByte && (d.align <= 1 || PowerOfTwo(d.align)))
  }

  /** C's y / align * align */
  function Floor(y: nat, align: nat): (r: nat)
    requires align > 0
    ensures y - align < r <= y
  {
    y / align * align
  }

  function Times(k: nat, align: nat): (r: nat) {
    k * align
  }

  function RoundUp(x: nat, align: nat): (r: nat)
    requires align > 0
  {
    Floor(x + (align - 1), align)
  }

  lemma {:induction false} Quotient(y: nat, align: nat) returns (q: nat)
    requires align > 0
    ensures Floor(y, align) == Times(q, align) && y < Times(q, align) + align && Times(q + 1, align) == Times(q, align) + align
  {
    q := y / align;
  }

  /** It is a multiple of the alignment, and the least that is not below. */
  lemma {:induction false} RoundUpIsLeast(x: nat, align: nat, m: nat)
    requires align > 0
    ensures x <= RoundUp(x, align) < x + align
    ensures exists k: nat :: RoundUp(x, align) == Times(k, align)
    ensures Times(m, align) >= x ==> RoundUp(x, align) <= Times(m, align)
  {
    var q := Quotient(x + (align - 1), align);
    if m < q {
      TimesMonotone(m + 1, q, align);
      Next(m, align);
    } else {
      TimesMonotone(q, m, align);
    }
  }

  lemma {:induction false} Next(m: nat, align: nat)
    ensures Times(m + 1, align) == Times(m, align) + align
  {
  }

  lemma {:induction false} TimesMonotone(a: nat, b: nat, align: nat)
    requires a <= b
    ensures Times(a, align) <= Times(b, align)
  {
  }

  /** Where descriptor i starts: at its alignment, behind all before it. */
  function Start(ds: seq<Data>, i: nat): (s: nat)
    requires i < |ds|
    decreases i, 1
  {
    if ds[i].align > 1 then RoundUp(End(ds, i), ds[i].align) else End(ds, i)
  }

  /** Where the first i descriptors end; empty ones take no room. */
  function End(ds: seq<Data>, i: nat): (e: nat)
    requires i <= |ds|
    decreases i, 0
  {
    if i == 0 then 0
    else if Empty(ds[i - 1]) then End(ds, i - 1)
    else Start(ds, i - 1) + ds[i - 1].size
  }

  /** The layout stays within a size_t, rounding included. */
  ghost predicate Fits(ds: seq<Data>) {
    forall i {:trigger FitsAt(ds, i)} :: 0 <= i < |ds| ==> FitsAt(ds, i)
  }

  predicate FitsAt(ds: seq<Data>, i: nat)
    requires i < |ds|
  {
    Empty(ds[i]) || (End(ds, i) + ds[i].align <= WORD_MAX && Start(ds, i) + ds[i].size <= WORD_MAX)
  }

  predicate Covers(ds: seq<Data>, i: nat, offset: nat)
    requires i < |ds|
  {
    !Empty(ds[i]) && Start(ds, i) <= offset < Start(ds, i) + ds[i].size
  }

  /** A descriptor without a buffer or of size zero takes no room and is gone past, whatever its type and
      alignment; any other begins at its alignment and takes its size. */
  lemma {:induction false} RoomTaken(ds: seq<Data>, i: nat)
    requires i < |ds|
    ensures !ds[i].hasBuf || ds[i].size == 0 ==> End(ds, i + 1) == End(ds, i) && Proper(ds[i])
    ensures ds[i].hasBuf && ds[i].size > 0 ==> End(ds, i + 1) == Start(ds, i) + ds[i].size
    ensures ds[i].hasBuf && ds[i].size > 0 ==>
      (Proper(ds[i]) <==> ds[i].isByte && (ds[i].align <= 1 || exists k: nat :: ds[i].align == Pow2(k)))
  {
    if ds[i].align > 1 {
      PowerOfTwoIff(ds[i].align);
    }
  }

  lemma {:induction false} StartBehind(ds: seq<Data>, i: nat)
    requires i < |ds|
    ensures End(ds, i) <= Start(ds, i)
  {
    if ds[i].align > 1 {
      RoundUpIsLeast(End(ds, i), ds[i].align, 0);
    }
  }

  lemma {:induction false} EndMonotone(ds: seq<Data>, i: nat, j: nat)
    requires i <= j <= |ds|
    ensures End(ds, i) <= End(ds, j)
    decreases j
  {
    if i < j {
      EndMonotone(ds, i, j - 1);
      StartBehind(ds, j - 1);
    }
  }

  lemma {:induction false} NotBefore(ds: seq<Data>, i: nat, j: nat, offset: nat)
    requires i <= j < |ds| && offset < End(ds, i)
    ensures !Covers(ds, j, offset)
  {
    EndMonotone(ds, i, j);
    StartBehind(ds, j);
  }

  /** An offset lies in at most one descriptor. */
  lemma {:induction false} CoversUnique(ds: seq<Data>, i: nat, j: nat, offset: nat)
    requires i < |ds| && j < |ds| && Covers(ds, i, offset) && Covers(ds, j, offset)
    ensures i == j
  {
    if i < j {
      NotBefore(ds, i + 1, j, offset);
      assert false;
    } else if j < i {
      NotBefore(ds, j + 1, i, offset);
      assert false;
    }
  }

  /** An offset in the hole in front of a descriptor lies in none. */
  lemma {:induction false} HoleIsEmpty(ds: seq<Data>, i: nat, j: nat, offset: nat)
    requires i < |ds| && j < |ds| && !Empty(ds[i]) && End(ds, i) <= offset < Start(ds, i)
    ensures !Covers(ds, j, offset)
  {
    if j < i {
      EndMonotone(ds, j + 1, i);
    } else if j > i {
      NotBefore(ds, i + 1, j, offset);
    }
  }

  // ----- The translation

  /** The place is the right one: it has the offset, and everything up to it is proper. */
  ghost predicate IsPlace(ds: seq<Data>, offset: nat, p: Place) {
    && p.index < |ds| && Covers(ds, p.index, offset) && offset == Start(ds, p.index) + p.at
    && AllProper(ds, p.index + 1)
  }

  /** Nothing was found before i, and nothing can be found from there on. */
  ghost predicate Hopeless(ds: seq<Data>, offset: nat, i: nat)
    requires i <= |ds|
  {
    || i == |ds| || offset < End(ds, i) || !Proper(ds[i])
    || (!Empty(ds[i]) && offset < Start(ds, i))
  }

  ghost predicate AllProper(ds: seq<Data>, i: nat)
    requires i <= |ds|
  {
    forall j {:trigger Proper(ds[j])} :: 0 <= j < i ==> Proper(ds[j])
  }

  ghost predicate NotCovered(ds: seq<Data>, offset: nat, i: nat)
    requires i <= |ds|
  {
    forall j {:trigger Covers(ds, j, offset)} :: 0 <= j < i ==> !Covers(ds, j, offset)
  }

  lemma {:induction false} NoPlace(ds: seq<Data>, offset: nat, i: nat, p: Place)
    requires i <= |ds| && NotCovered(ds, offset, i) && Hopeless(ds, offset, i)
    ensures !IsPlace(ds, offset, p)
  {
    if p.index < |ds| && p.index >= i {
      if offset < End(ds, i) {
        NotBefore(ds, i, p.index, offset);
      } else if Proper(ds[i]) && p.index > i {
        NotBefore(ds, i + 1, p.index, offset);
      }
    }
  }

  lemma {:induction false} OnlyPlace(ds: seq<Data>, offset: nat, i: nat, p: Place)
    requires i < |ds| && Covers(ds, i, offset) && AllProper(ds, i + 1)
    ensures IsPlace(ds, offset, p) <==> p == Place(i, offset - Start(ds, i))
  {
    if IsPlace(ds, offset, p) {
      CoversUnique(ds, i, p.index, offset);
    }
  }

  /** count rounded up in a size_t */
  function Rounded(count: nat, align: nat): (c: nat)
    requires align > 0
    ensures c <= WORD_MAX
  {
    Floor(Wrapped(count + (align - 1)), align)
  }

  /** Where the code has descriptor i start, and the first i end: counted in a size_t */
  function CodeStart(ds: seq<Data>, i: nat): (s: nat)
    requires i < |ds|
    ensures s <= WORD_MAX
    decreases i, 1
  {
    if ds[i].align > 1 then Rounded(CodeEnd(ds, i), ds[i].align) else CodeEnd(ds, i)
  }

  function CodeEnd(ds: seq<Data>, i: nat): (e: nat)
    requires i <= |ds|
    ensures e <= WORD_MAX
    decreases i, 0
  {
    if i == 0 then 0
    else if Empty(ds[i - 1]) then CodeEnd(ds, i - 1)
    else Wrapped(CodeStart(ds, i - 1) + ds[i - 1].size)
  }

  /** The descriptor is proper and, as the code counts, the offset lies behind it. */
  predicate Passed(ds: seq<Data>, i: nat, offset: nat)
    requires i < |ds|
  {
    Empty(ds[i]) || (Proper(ds[i]) && CodeStart(ds, i) <= offset && CodeEnd(ds, i + 1) <= offset)
  }

  ghost predicate Reached(ds: seq<Data>, i: nat, offset: nat)
    requires i <= |ds|
  {
    forall k {:trigger Passed(ds, k, offset)} :: 0 <= k < i ==> Passed(ds, k, offset)
  }

  /** The descriptor is reached and, as the code counts, has the offset. */
  ghost predicate FoundAt(ds: seq<Data>, i: nat, offset: nat)
    requires i < |ds|
  {
    && Reached(ds, i, offset)
    && !Empty(ds[i]) && Proper(ds[i]) && CodeStart(ds, i) <= offset < CodeEnd(ds, i + 1)
  }

  ghost predicate IsCodePlace(ds: seq<Data>, offset: nat, p: Place) {
    p.index < |ds| && FoundAt(ds, p.index, offset) && offset == CodeStart(ds, p.index) + p.at
  }

  lemma {:induction false} ReachedEnd(ds: seq<Data>, i: nat, offset: nat)
    requires i <= |ds| && Reached(ds, i, offset)
    ensures CodeEnd(ds, i) <= offset
    decreases i
  {
    if i > 0 {
      assert Passed(ds, i - 1, offset);
      ReachedEnd(ds, i - 1, offset);
    }
  }

  lemma {:induction false} PassStep(ds: seq<Data>, i: nat, offset: nat)
    requires i < |ds| && Reached(ds, i, offset) && Passed(ds, i, offset)
    ensures Reached(ds, i + 1, offset)
    ensures CodeEnd(ds, i + 1) == if Empty(ds[i]) then CodeEnd(ds, i) else Wrapped(CodeStart(ds, i) + ds[i].size)
  {
  }

  /** What is passed is not found, and what is not passed hides all behind it. */
  lemma {:induction false} FoundFrom(ds: seq<Data>, i: nat, offset: nat, j: nat)
    requires i <= |ds| && Reached(ds, i, offset) && j < |ds| && FoundAt(ds, j, offset)
    ensures i <= j && (i < j ==> Passed(ds, i, offset))
  {
    if j < i && Passed(ds, j, offset) {
      assert false;
    }
  }

  /** Where the search stops at i, only that descriptor can be found. */
  lemma {:induction false} FoundOnly(ds: seq<Data>, i: nat, offset: nat)
    requires i <= |ds| && Reached(ds, i, offset) && (i == |ds| || !Passed(ds, i, offset))
    ensures forall p :: IsCodePlace(ds, offset, p) ==> p.index == i
  {
    forall p | IsCodePlace(ds, offset, p) ensures p.index == i {
      FoundFrom(ds, i, offset, p.index);
    }
  }

  ghost predicate Finds(ds: seq<Data>, offset: nat, r: Option<Place>) {
    forall p {:trigger IsCodePlace(ds, offset, p)} :: r == Some(p) <==> IsCodePlace(ds, offset, p)
  }

  lemma {:induction false} FindsNothing(ds: seq<Data>, i: nat, offset: nat)
    requires i <= |ds| && Reached(ds, i, offset)
    requires i == |ds| || (!Empty(ds[i]) && (!Proper(ds[i]) || offset < CodeStart(ds, i)))
    ensures Finds(ds, offset, None)
  {
    FoundOnly(ds, i, offset);
  }

  lemma {:induction false} FindsHere(ds: seq<Data>, i: nat, offset: nat)
    requires i < |ds| && FoundAt(ds, i, offset)
    ensures Finds(ds, offset, Some(Place(i, offset - CodeStart(ds, i))))
  {
    FoundOnly(ds, i, offset);
  }

  // ----- When the arithmetic of size_t gives the right answer

  /** From descriptor i on: nothing reached runs past the end of a size_t while the offset lies in it, and
      where an alignment runs past it, so that the code counts from zero again, it finds nothing. */
  ghost predicate Sound(ds: seq<Data>, i: nat, offset: Word64)
    requires i <= |ds|
    decreases |ds| - i
  {
    if i == |ds| || offset < End(ds, i) then true
    else if Empty(ds[i]) then Sound(ds, i + 1, offset)
    else if !Proper(ds[i]) then true
    else if End(ds, i) + (ds[i].align - 1) > WORD_MAX then FoundNowhere(ds, i, offset)
    else if offset < Start(ds, i) then true
    else if Start(ds, i) + ds[i].size > WORD_MAX then false
    else offset < Start(ds, i) + ds[i].size || Sound(ds, i + 1, offset)
  }

  ghost predicate FoundNowhere(ds: seq<Data>, i: nat, offset: nat) {
    forall j {:trigger FoundAt(ds, j, offset)} :: i <= j < |ds| ==> !FoundAt(ds, j, offset)
  }

  /** The code finds the place exactly when there is one. */
  ghost predicate Agrees(ds: seq<Data>, offset: nat) {
    forall p {:trigger IsPlace(ds, offset, p)} :: IsCodePlace(ds, offset, p) <==> IsPlace(ds, offset, p)
  }

  /** The code has counted as the layout does up to i, and goes on from there. */
  ghost predicate Alike(ds: seq<Data>, i: nat, offset: Word64)
    requires i <= |ds|
  {
    AllProper(ds, i) && NotCovered(ds, offset, i) && Reached(ds, i, offset) && CodeEnd(ds, i) == End(ds, i)
  }

  /** An alignment that does not fit makes the code count from zero again. */
  lemma {:induction false} CountsFromZero(ds: seq<Data>, i: nat)
    requires i < |ds| && CodeEnd(ds, i) + (ds[i].align - 1) > WORD_MAX
    ensures CodeStart(ds, i) == 0
  {
    var y := CodeEnd(ds, i) + (ds[i].align - 1);
    assert Wrapped(y) == y - TWO64 < ds[i].align;
    FloorZero(Wrapped(y), ds[i].align);
  }

  lemma {:induction false} FloorZero(y: nat, align: nat)
    requires y < align
    ensures Floor(y, align) == 0
  {
  }

  lemma {:induction false} PowersDivide(a: nat, b: nat) returns (m: nat)
    requires PowerOfTwo(a) && PowerOfTwo(b) && a <= b
    ensures Times(m, a) == b
    decreases a
  {
    if a == 1 {
      m := b;
    } else {
      m := PowersDivide(a / 2, b / 2);
      assert a == 2 * (a / 2) && b == 2 * (b / 2);
      Pull(m, 2, a / 2);
    }
  }

  lemma {:induction false} DoubledPower(a: nat)
    requires PowerOfTwo(a)
    ensures PowerOfTwo(2 * a)
  {
  }

  lemma {:induction false} Pow2IsPower(n: nat)
    ensures PowerOfTwo(Pow2(n))
    decreases n
  {
    if n > 0 {
      Pow2IsPower(n - 1);
      DoubledPower(Pow2(n - 1));
    }
  }

  lemma {:induction false} WordIsPower()
    ensures PowerOfTwo(TWO64)
  {
    Pow2IsPower(64);
    Pow64();
  }

  /** An alignment that does not fit puts the descriptor past the end of a size_t. */
  lemma {:induction false} PastTheEnd(count: nat, align: nat)
    requires PowerOfTwo(align) && align <= WORD_MAX && count + (align - 1) > WORD_MAX
    ensures RoundUp(count, align) > WORD_MAX
  {
    WordIsPower();
    var m := PowersDivide(align, TWO64);
    FloorAtLeast(count + (align - 1), align, m);
  }

  lemma {:induction false} FloorAtLeast(y: nat, align: nat, m: nat)
    requires align > 0 && Times(m, align) <= y
    ensures Times(m, align) <= Floor(y, align)
  {
    var q := y / align;
    assert Times(q + 1, align) == Times(q, align) + align;
    if m > q {
      TimesMonotone(q + 1, m, align);
      assert false;
    }
    TimesMonotone(m, q, align);
  }

  /** The code answers rightly if and only if the layout is sound for the offset. */
  lemma {:induction false} AgreesIff(ds: seq<Data>, i: nat, offset: Word64)
    requires i <= |ds| && Alike(ds, i, offset)
    ensures Agrees(ds, offset) <==> Sound(ds, i, offset)
    decreases |ds| - i
  {
    ReachedEnd(ds, i, offset);
    if i < |ds| && (Empty(ds[i]) || Behind(ds, i, offset)) {
      NextAlike(ds, i, offset);
      AgreesIff(ds, i + 1, offset);
    } else if i == |ds| || !Proper(ds[i]) {
      NeitherFinds(ds, i, offset);
    } else {
      AgreesHereIff(ds, i, offset);
    }
  }

  /** A proper descriptor is passed without an overflow. */
  predicate Behind(ds: seq<Data>, i: nat, offset: Word64)
    requires i < |ds|
  {
    && !Empty(ds[i]) && Proper(ds[i])
    && End(ds, i) + (ds[i].align - 1) <= WORD_MAX && Start(ds, i) + ds[i].size <= offset
  }

  lemma {:induction false} NextAlike(ds: seq<Data>, i: nat, offset: Word64)
    requires i < |ds| && Alike(ds, i, offset) && (Empty(ds[i]) || Behind(ds, i, offset))
    ensures Alike(ds, i + 1, offset) && Sound(ds, i, offset) == Sound(ds, i + 1, offset)
  {
    StartBehind(ds, i);
    ReachedEnd(ds, i, offset);
    assert Passed(ds, i, offset);
  }

  /** Where the code stops without an answer and the layout has none either. */
  lemma {:induction false} NeitherFinds(ds: seq<Data>, i: nat, offset: Word64)
    requires i <= |ds| && Alike(ds, i, offset)
    requires i == |ds| || (!Empty(ds[i]) && (!Proper(ds[i]) || (offset < Start(ds, i) && offset < CodeStart(ds, i))))
    ensures Agrees(ds, offset)
  {
    FoundOnly(ds, i, offset);
    forall p ensures IsCodePlace(ds, offset, p) <==> IsPlace(ds, offset, p) {
      NoPlace(ds, offset, i, p);
    }
  }

  lemma {:induction false} AgreesHereIff(ds: seq<Data>, i: nat, offset: Word64)
    requires i < |ds| && Alike(ds, i, offset) && !Empty(ds[i]) && Proper(ds[i]) && !Behind(ds, i, offset)
    ensures Agrees(ds, offset) <==> Sound(ds, i, offset)
  {
    ReachedEnd(ds, i, offset);
    if End(ds, i) + (ds[i].align - 1) > WORD_MAX {
      AgreesPastIff(ds, i, offset);
    } else if offset < Start(ds, i) {
      NeitherFinds(ds, i, offset);
    } else {
      AgreesCoveredIff(ds, i, offset);
    }
  }

  lemma {:induction false} AgreesPastIff(ds: seq<Data>, i: nat, offset: Word64)
    requires i < |ds| && Alike(ds, i, offset) && !Empty(ds[i]) && Proper(ds[i])
    requires End(ds, i) + (ds[i].align - 1) > WORD_MAX
    ensures Agrees(ds, offset) <==> FoundNowhere(ds, i, offset)
  {
    PastTheEnd(End(ds, i), ds[i].align);
    forall p ensures !IsPlace(ds, offset, p) {
      NoPlace(ds, offset, i, p);
    }
    forall j | i <= j < |ds| && FoundAt(ds, j, offset) ensures !Agrees(ds, offset) {
      var p := Place(j, offset - CodeStart(ds, j));
      assert IsCodePlace(ds, offset, p) && !IsPlace(ds, offset, p);
    }
    forall p | IsCodePlace(ds, offset, p) ensures !FoundNowhere(ds, i, offset) {
      FoundFrom(ds, i, offset, p.index);
    }
  }

  lemma {:induction false} AgreesCoveredIff(ds: seq<Data>, i: nat, offset: Word64)
    requires i < |ds| && Alike(ds, i, offset) && Covers(ds, i, offset) && Proper(ds[i])
    requires End(ds, i) + (ds[i].align - 1) <= WORD_MAX
    ensures Agrees(ds, offset) <==> Start(ds, i) + ds[i].size <= WORD_MAX
  {
    var q := Place(i, offset - Start(ds, i));
    assert CodeStart(ds, i) == Start(ds, i);
    if Start(ds, i) + ds[i].size <= WORD_MAX {
      assert FoundAt(ds, i, offset);
      FoundOnly(ds, i, offset);
      forall p ensures IsCodePlace(ds, offset, p) <==> IsPlace(ds, offset, p) {
        OnlyPlace(ds, offset, i, p);
      }
    } else {
      Wraps(Start(ds, i), ds[i].size);
      OnlyPlace(ds, offset, i, q);
    }
  }

  lemma {:induction false} Wraps(start: nat, size: Word64)
    requires start <= WORD_MAX && start + size > WORD_MAX
    ensures Wrapped(start + size) == start + size - TWO64 < start
  {
  }

  /** Aligning a descriptor: nothing if the type or the alignment is refused */
  method Align(ds: seq<Data>, i: nat, count: nat) returns (r: Option<nat>)
    requires i < |ds| && !Empty(ds[i]) && count == CodeEnd(ds, i)
    ensures r.Some? <==> Proper(ds[i])
    ensures r.Some? ==> r.value == CodeStart(ds, i)
  {
    var d := ds[i];
    if !d.isByte {
      return None;
    }
    if d.align > 1 {
      PowerOfTwoTest(d.align);
      if And(d.align, d.align - 1) != 0 {
        return None;
      }
      return Some(Rounded(count, d.align));
    }
    r := Some(count);
  }

  /** The loop of elf_strptr for an object whose layout the library computes */
  method SearchLoop(ds: seq<Data>, offset: Word64) returns (r: Option<Place>)
    ensures Finds(ds, offset, r)
  {
    var i, count := 0, 0;
    while i < |ds| && count <= offset
      invariant 0 <= i <= |ds| && Reached(ds, i, offset) && count == CodeEnd(ds, i)
    {
      var d := ds[i];
      if Empty(d) {
        PassStep(ds, i, offset);
        i := i + 1;
        continue;
      }
      var start := Align(ds, i, count);
      if start == None || offset < start.value {
        FindsNothing(ds, i, offset);
        return None;
      }
      count := start.value;
      var end := Wrapped(count + d.size);
      assert end == CodeEnd(ds, i + 1);
      if offset < end {
        FindsHere(ds, i, offset);
        return Some(Place(i, offset - count));
      }
      count := end;
      PassStep(ds, i, offset);
      i := i + 1;
    }
    ReachedEnd(ds, i, offset);
    FindsNothing(ds, i, offset);
    r := None;
  }

  /** The place is found exactly when there is one, if and only if the layout is sound for the offset. */
  method Locate(ds: seq<Data>, offset: Word64) returns (r: Option<Place>)
    ensures (forall p :: r == Some(p) <==> IsPlace(ds, offset, p)) <==> Sound(ds, 0, offset)
    ensures Fits(ds) ==> forall p :: r == Some(p) <==> IsPlace(ds, offset, p)
  {
    r := SearchLoop(ds, offset);
    AgreesIff(ds, 0, offset);
    if Fits(ds) {
      FitsIsSound(ds, 0, offset);
    }
  }

  lemma {:induction false} FitsIsSound(ds: seq<Data>, i: nat, offset: Word64)
    requires Fits(ds) && i <= |ds|
    ensures Sound(ds, i, offset)
    decreases |ds| - i
  {
    if i < |ds| {
      assert FitsAt(ds, i);
      FitsIsSound(ds, i + 1, offset);
    }
  }

  /** A descriptor that runs past the end of a size_t is not found. */
  lemma {:induction false} WrapExample()
    ensures var ds := [Data(true, 1, true, 1, 0), Data(true, WORD_MAX, true, 1, 0)];
      IsPlace(ds, 1, Place(1, 0)) && !IsCodePlace(ds, 1, Place(1, 0)) && !Sound(ds, 0, 1)
  {
    var ds := [Data(true, 1, true, 1, 0), Data(true, WORD_MAX, true, 1, 0)];
    assert End(ds, 0) == 0 && End(ds, 1) == 1 && Start(ds, 1) == 1;
    assert CodeEnd(ds, 1) == 1 && CodeEnd(ds, 2) == 0;
    assert !Sound(ds, 1, 1);
  }

  /** A descriptor whose alignment runs past the end is found at an offset that lies in none. */
  lemma {:induction false} RestartExample()
    ensures var half := 0x8000_0000_0000_0000;
      var ds := [Data(true, half + 1, true, 1, 0), Data(true, WORD_MAX, true, half, 0)];
      IsCodePlace(ds, half + 1, Place(1, half + 1)) && !Covers(ds, 0, half + 1) && !Covers(ds, 1, half + 1)
  {
    var half := 0x8000_0000_0000_0000;
    var ds := [Data(true, half + 1, true, 1, 0), Data(true, WORD_MAX, true, half, 0)];
    HalfIsPower();
    assert End(ds, 0) == 0 && End(ds, 1) == half + 1 == CodeEnd(ds, 1);
    CountsFromZero(ds, 1);
    PastTheEnd(End(ds, 1), half);
    assert Passed(ds, 0, half + 1) && CodeEnd(ds, 2) == WORD_MAX;
  }

  lemma {:induction false} HalfIsPower()
    ensures PowerOfTwo(0x8000_0000_0000_0000)
  {
    WordIsPower();
  }

  // ----- An object whose layout the application computes

  predicate CoversAt(d: Data, offset: nat) {
    !Empty(d) && d.off <= offset < d.off + d.size
  }

  /** The first descriptor with the offset, all up to it of bytes. */
  ghost predicate IsFirstPlace(ds: seq<Data>, offset: nat, p: Place) {
    && p.index < |ds| && CoversAt(ds[p.index], offset) && offset == ds[p.index].off + p.at
    && SkipsTo(ds, p.index, offset) && ds[p.index].isByte
  }

  /** Before i every descriptor is of bytes, and none has the offset. */
  ghost predicate SkipsTo(ds: seq<Data>, i: nat, offset: nat)
    requires i <= |ds|
  {
    forall j :: 0 <= j < i ==> (Empty(ds[j]) || ds[j].isByte) && !CoversAt(ds[j], offset)
  }

  predicate EndFits(d: Data) {
    d.off + d.size <= WORD_MAX
  }

  /** The first place is not in a descriptor that runs past the end of a size_t. */
  ghost predicate FirstFits(ds: seq<Data>, offset: nat) {
    forall p {:trigger IsFirstPlace(ds, offset, p)} :: IsFirstPlace(ds, offset, p) ==> EndFits(ds[p.index])
  }

  lemma {:induction false} FirstPlaceUnique(ds: seq<Data>, offset: nat, p: Place, q: Place)
    requires IsFirstPlace(ds, offset, p) && IsFirstPlace(ds, offset, q)
    ensures p == q
  {
  }

  /** Whether a descriptor has the offset, computed in a size_t: never when its end wraps around. */
  lemma {:induction false} CoversInSize(d: Data, offset: nat)
    requires !Empty(d)
    ensures d.off <= offset < Wrapped(d.off + d.size) <==> CoversAt(d, offset) && EndFits(d)
  {
    if !EndFits(d) {
      Wraps(d.off, d.size);
    }
  }

  /** The loop of elf_strptr for an object whose layout the application computes: it finds the first place
      exactly when there is one, if and only if that is in no descriptor running past the end of a size_t. */
  method LocateByOff(ds: seq<Data>, offset: Word64) returns (r: Option<Place>)
    ensures (forall p :: r == Some(p) <==> IsFirstPlace(ds, offset, p)) <==> FirstFits(ds, offset)
  {
    var i := 0;
    // the first place, once the loop has gone past it
    ghost var missed: Option<Place> := None;
    while i < |ds|
      invariant 0 <= i <= |ds|
      invariant missed == None ==> SkipsTo(ds, i, offset)
      invariant missed.Some? ==>
        IsFirstPlace(ds, offset, missed.value) && missed.value.index < i && !EndFits(ds[missed.value.index])
    {
      var d := ds[i];
      if !Empty(d) {
        if !d.isByte {
          return None;
        }
        CoversInSize(d, offset);
        if offset >= d.off && offset < Wrapped(d.off + d.size) {
          ghost var p := Place(i, offset - d.off);
          assert missed == None ==> IsFirstPlace(ds, offset, p);
          if missed == None {
            forall q | IsFirstPlace(ds, offset, q) ensures q == p { FirstPlaceUnique(ds, offset, p, q); }
          }
          return Some(Place(i, offset - d.off));
        }
        if missed == None && CoversAt(d, offset) {
          missed := Some(Place(i, offset - d.off));
        }
      }
      i := i + 1;
    }
    r := None;
  }

  lemma {:induction false} WrapByOffExample()
    ensures var ds := [Data(true, WORD_MAX, true, 1, 1)];
      IsFirstPlace(ds, 1, Place(0, 0)) && !FirstFits(ds, 1)
  {
    assert IsFirstPlace([Data(true, WORD_MAX, true, 1, 1)], 1, Place(0, 0));
  }

  datatype Section = Section(isStrtab: bool, size: nat, data: seq<Data>)

  /** elf_strptr, given the section elf_getscn finds */
  method StrPtr(section: Option<Section>, layout: bool, offset: Word64) returns (r: Option<Place>)
    ensures r.Some? ==> section.Some? && section.value.isStrtab && offset < section.value.size
    ensures section.Some? && section.value.isStrtab && offset < section.value.size ==>
      var ds := section.value.data;
      if layout then (forall p :: r == Some(p) <==> IsFirstPlace(ds, offset, p)) <==> FirstFits(ds, offset)
      else (forall p :: r == Some(p) <==> IsPlace(ds, offset, p)) <==> Sound(ds, 0, offset)
  {
    if section == None || !section.value.isStrtab || offset >= section.value.size {
      return None;
    }
    if layout {
      r := LocateByOff(section.value.data, offset);
    } else {
      r := Locate(section.value.data, offset);
    }
  }
}
