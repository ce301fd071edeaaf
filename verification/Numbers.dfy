/** Powers of two, a few facts about products, and arithmetic on 64 bits. */
module Numbers {

  const TWO64 := 0x1_0000_0000_0000_0000
  const WORD_MAX := 0xffff_ffff_ffff_ffff

  /** uint64_t, and size_t */
  type Word64 = x: int | 0 <= x < TWO64

  /** A result of 64-bit arithmetic */
  function Wrapped(x: nat): (r: nat)
    ensures r <= WORD_MAX && (x <= WORD_MAX ==> r == x)
    ensures TWO64 <= x < 2 * TWO64 ==> r == x - TWO64
  {
    if x <= WORD_MAX then x else x % TWO64
  }

  lemma {:induction false} Product(p: nat, q: nat)
    requires q >= 1
    ensures p <= p * q
  {
  }

  lemma {:induction false} Products(a: nat, b: nat, p: nat, q: nat)
    requires a <= b && p <= q
    ensures a * p <= b * q
  {
    assert a * p <= a * q;
    assert a * q <= b * q;
  }

  lemma {:induction false} Regroup(a: nat, b: nat, c: nat)
    ensures a * b * c == b * (a * c)
  {
  }

  lemma {:induction false} Pull(a: nat, p: nat, c: nat)
    ensures a * (p * c) == p * (a * c)
  {
  }

  function Pow2(n: nat): (p: nat)
    ensures p > 0
  {
    if n == 0 then 1 else 2 * Pow2(n - 1)
  }

  lemma {:induction false} PowSum(m: nat, n: nat)
    ensures Pow2(m + n) == Pow2(m) * Pow2(n)
    decreases n
  {
    if n > 0 {
      PowSum(m, n - 1);
      Pull(Pow2(m), 2, Pow2(n - 1));
    }
  }

  lemma {:induction false} Squared(n: nat, v: nat)
    requires Pow2(n) == v
    ensures Pow2(2 * n) == v * v
  {
    PowSum(n, n);
  }

  lemma {:induction false} Pow64()
    ensures Pow2(64) == TWO64
  {
    assert Pow2(8) == 0x100;
    Squared(8, 0x100);
    Squared(16, 0x1_0000);
    Squared(32, 0x1_0000_0000);
  }
}
