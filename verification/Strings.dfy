/** The order of strings, sorted lists without duplicates, space, and decimal numbers. */
module Strings {

  predicate StrBelow(a: string, b: string) {
    b != [] && (a == [] || a[0] < b[0] || (a[0] == b[0] && StrBelow(a[1..], b[1..])))
  }

  /** Behind k equal characters a ends, or has the smaller character. */
  predicate Differ(a: string, b: string, k: nat) {
    k <= |a| && k < |b| && a[..k] == b[..k] && (k == |a| || a[k] < b[k])
  }

  /** The order is that of the first difference. */
  lemma {:induction false} StrBelowIff(a: string, b: string)
    ensures StrBelow(a, b) <==> exists k: nat :: Differ(a, b, k)
    decreases |a|
  {
    if StrBelow(a, b) {
      if a == [] || a[0] < b[0] {
        assert Differ(a, b, 0);
      } else {
        StrBelowIff(a[1..], b[1..]);
        var k: nat :| Differ(a[1..], b[1..], k);
        assert a[..k + 1] == [a[0]] + a[1..][..k] && b[..k + 1] == [b[0]] + b[1..][..k];
        assert Differ(a, b, k + 1);
      }
    } else if k: nat :| Differ(a, b, k) {
      if k > 0 {
        assert a[0] == a[..k][0] == b[..k][0] == b[0];
        assert a[1..][..k - 1] == a[..k][1..] == b[..k][1..] == b[1..][..k - 1];
        assert Differ(a[1..], b[1..], k - 1);
        StrBelowIff(a[1..], b[1..]);
      }
      assert false;
    }
  }

  lemma {:induction false} StrTotal(a: string, b: string)
    ensures a != b ==> StrBelow(a, b) || StrBelow(b, a)
    ensures !(StrBelow(a, b) && StrBelow(b, a))
    decreases |a|
  {
    if a != [] && b != [] {
      StrTotal(a[1..], b[1..]);
      assert a == [a[0]] + a[1..] && b == [b[0]] + b[1..];
    }
  }

  lemma {:induction false} StrTransitive(a: string, b: string, c: string)
    requires StrBelow(a, b) && StrBelow(b, c)
    ensures StrBelow(a, c)
    decreases |a|
  {
    if a != [] && a[0] == b[0] == c[0] {
      StrTransitive(a[1..], b[1..], c[1..]);
    }
  }

  ghost predicate Increasing(l: seq<string>) {
    forall i, j :: 0 <= i < j < |l| ==> StrBelow(l[i], l[j])
  }

  /** Puts a string in its place in an increasing list, unless it is there. */
  function PutIn(l: seq<string>, x: string): (r: seq<string>) {
    if l == [] || StrBelow(x, l[0]) then [x] + l
    else if x == l[0] then l
    else [l[0]] + PutIn(l[1..], x)
  }

  /** Python's sorted(set(l)) */
  function SortedSet(l: seq<string>): (r: seq<string>) {
    if l == [] then [] else PutIn(SortedSet(l[1..]), l[0])
  }

  lemma {:induction false} PutInHas(l: seq<string>, x: string, y: string)
    ensures y in PutIn(l, x) <==> y == x || y in l
    decreases |l|
  {
    if !(l == [] || StrBelow(x, l[0])) && x != l[0] {
      PutInHas(l[1..], x, y);
      assert l == [l[0]] + l[1..];
    }
  }

  lemma {:induction false} SortedSetHas(l: seq<string>, y: string)
    ensures y in SortedSet(l) <==> y in l
    decreases |l|
  {
    if l != [] {
      SortedSetHas(l[1..], y);
      PutInHas(SortedSet(l[1..]), l[0], y);
      assert l == [l[0]] + l[1..];
    }
  }

  lemma {:induction false} PutInIncreasing(l: seq<string>, x: string)
    requires Increasing(l)
    ensures Increasing(PutIn(l, x))
    decreases |l|
  {
    if l == [] {
    } else if StrBelow(x, l[0]) {
      forall i | 0 < i < |l|
        ensures StrBelow(x, l[i])
      {
        StrTransitive(x, l[0], l[i]);
      }
    } else if x != l[0] {
      StrTotal(x, l[0]);
      PutInIncreasing(l[1..], x);
      var r := PutIn(l[1..], x);
      forall i | 0 <= i < |r|
        ensures StrBelow(l[0], r[i])
      {
        PutInHas(l[1..], x, r[i]);
      }
    }
  }

  lemma {:induction false} SortedSetIncreasing(l: seq<string>)
    ensures Increasing(SortedSet(l))
    decreases |l|
  {
    if l != [] {
      SortedSetIncreasing(l[1..]);
      PutInIncreasing(SortedSet(l[1..]), l[0]);
    }
  }

  lemma {:induction false} FirstIsLeast(l: seq<string>, x: string)
    requires Increasing(l) && x in l
    ensures x == l[0] || StrBelow(l[0], x)
  {
  }

  lemma {:induction false} HeadIn(l: seq<string>)
    requires l != []
    ensures l[0] in l
  {
  }

  /** An increasing list is determined by its elements. */
  lemma {:induction false} IncreasingUnique(l: seq<string>, r: seq<string>)
    requires Increasing(l) && Increasing(r) && forall x :: x in l <==> x in r
    ensures l == r
    decreases |l|
  {
    if l == [] {
      if r != [] {
        HeadIn(r);
        assert false;
      }
    } else {
      HeadIn(l);
      FirstIsLeast(l, r[0]);
      FirstIsLeast(r, l[0]);
      StrTotal(l[0], r[0]);
      Behind(l);
      Behind(r);
      IncreasingUnique(l[1..], r[1..]);
    }
  }

  lemma {:induction false} Behind(l: seq<string>)
    requires Increasing(l) && l != []
    ensures forall x :: x in l[1..] <==> x in l && x != l[0]
  {
    StrTotal(l[0], l[0]);
    assert l == [l[0]] + l[1..];
  }

  /** Only the set of the strings matters. */
  lemma {:induction false} SortedSetOfSame(l: seq<string>, r: seq<string>)
    requires forall x :: x in l <==> x in r
    ensures SortedSet(l) == SortedSet(r)
  {
    SortedSetIncreasing(l);
    SortedSetIncreasing(r);
    forall x
      ensures x in SortedSet(l) <==> x in SortedSet(r)
    {
      SortedSetHas(l, x);
      SortedSetHas(r, x);
    }
    IncreasingUnique(SortedSet(l), SortedSet(r));
  }

  // ----- Space and numbers

  predicate IsSpace(c: char) {
    c == ' ' || c == '\t' || c == '\n' || c == '\r' || c == 11 as char || c == 12 as char
  }

  function SkipSpace(s: string): (r: string) {
    if s != "" && IsSpace(s[0]) then SkipSpace(s[1..]) else s
  }

  predicate IsDigit(c: char) { '0' <= c <= '9' }

  predicate AllDigits(s: string) {
    forall i :: 0 <= i < |s| ==> IsDigit(s[i])
  }

  function DigitOf(n: nat): (c: char)
    requires n < 10
    ensures IsDigit(c) && c as int - '0' as int == n
  {
    '0' + n as char
  }

  /** '%d' */
  function Decimal(n: nat): (s: string)
    ensures s != "" && AllDigits(s)
  {
    if n < 10 then [DigitOf(n)] else Decimal(n / 10) + [DigitOf(n % 10)]
  }

  function Value(s: string): (n: nat)
    requires AllDigits(s)
  {
    if s == "" then 0 else 10 * Value(s[..|s| - 1]) + (s[|s| - 1] as int - '0' as int)
  }

  lemma {:induction false} ValueOfDecimal(n: nat)
    ensures Value(Decimal(n)) == n
    decreases n
  {
    if n >= 10 {
      ValueOfDecimal(n / 10);
      var s := Decimal(n);
      assert s[..|s| - 1] == Decimal(n / 10);
    } else {
      assert Decimal(n)[..0] == "";
    }
  }
}
