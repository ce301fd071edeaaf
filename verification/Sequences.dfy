/** Sequences with an element put in, taken out, joined and reversed, by position. */
module Sequences {

  ghost predicate Distinct<T>(s: seq<T>) {
    forall i, j :: 0 <= i < j < |s| ==> s[i] != s[j]
  }

  /** `s` with `x` put in at position k. */
  ghost function Inserted<T>(s: seq<T>, k: nat, x: T): (r: seq<T>)
    requires k <= |s|
    ensures |r| == |s| + 1 && r[k] == x
    ensures forall i :: 0 <= i < k ==> r[i] == s[i]
    ensures forall i :: k < i < |r| ==> r[i] == s[i - 1]
  {
    s[..k] + [x] + s[k..]
  }

  /** `s` without the element at position k. */
  ghost function Removed<T>(s: seq<T>, k: nat): (r: seq<T>)
    requires k < |s|
    ensures |r| == |s| - 1
    ensures forall i :: 0 <= i < k ==> r[i] == s[i]
    ensures forall i :: k <= i < |r| ==> r[i] == s[i + 1]
  {
    s[..k] + s[k + 1..]
  }

  ghost predicate Apart<T>(c1: seq<T>, c2: seq<T>) {
    forall i, j :: 0 <= i < |c1| && 0 <= j < |c2| ==> c1[i] != c2[j]
  }

  /** Two chains, each a head followed by its elements, made one behind the first head. */
  ghost function Joined<T>(c1: seq<T>, c2: seq<T>): (r: seq<T>)
    requires c2 != []
    ensures |r| == |c1| + |c2| - 1
    ensures forall i :: 0 <= i < |c1| ==> r[i] == c1[i]
    ensures forall i :: |c1| <= i < |r| ==> r[i] == c2[i - |c1| + 1]
  {
    c1 + c2[1..]
  }

  ghost function Reversed<T>(s: seq<T>): (r: seq<T>)
    ensures |r| == |s|
    ensures forall i :: 0 <= i < |s| ==> r[i] == s[|s| - 1 - i]
  {
    if s == [] then [] else Reversed(s[1..]) + [s[0]]
  }
}
