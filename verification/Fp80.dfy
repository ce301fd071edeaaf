/**
  Conversion between 80-bit and 64-bit floating point (gem5/ext/fputils/fp80.c, fpbits.h,
  fp64.c).  Bit patterns are numbers: a shift by k multiplies or divides by 2^k, a mask of
  the low k bits is a remainder by 2^k, and fields that do not overlap are or-ed by adding.
 */
module Fp80 {
  import opened Numbers

  const TWO10 := 0x400
  const TWO11 := 0x800
  const TWO15 := 0x8000
  const TWO51 := 0x8_0000_0000_0000
  const TWO52 := 0x10_0000_0000_0000
  const TWO53 := 0x20_0000_0000_0000
  const TWO62 := 0x4000_0000_0000_0000
  const TWO63 := 0x8000_0000_0000_0000

  const FP80_EXP_BIAS := 0x3fff
  const FP80_EXP_SPECIAL := 0x7fff
  const FP64_EXP_BIAS := 0x3ff
  const FP64_EXP_SPECIAL := 0x7ff
  const FP64_FRAC_SNAN := 0x7_ffff_ffff_ffff
  const FP64_FRAC_QNAN := 0xf_ffff_ffff_ffff
  const FP64_FRAC_QNANI := 0x8_0000_0000_0000

  type Word16 = x: int | 0 <= x < 0x1_0000

  /** fp64_t, and fp80_t with sign and exponent in `se`, integer bit and fraction in `fi`. */
  datatype Fp64 = Fp64(bits: Word64)
  datatype Fp80 = Fp80(se: Word16, fi: Word64)

  /** x >> n, as a halving for each place. */
  function Shr(x: nat, n: nat): (y: nat)
    ensures y <= x
    decreases n
  {
    if n == 0 then x else Shr(x / 2, n - 1)
  }

  /** A shift is the quotient by a power of two, rounded down. */
  lemma {:induction false} ShrIsFloor(x: nat, n: nat)
    ensures Shr(x, n) * Pow2(n) <= x < (Shr(x, n) + 1) * Pow2(n)
    decreases n
  {
    if n > 0 {
      ShrIsFloor(x / 2, n - 1);
      Halved(x, Shr(x / 2, n - 1), Pow2(n - 1));
    }
  }

  lemma {:induction false} Halved(x: nat, y: nat, p: nat)
    requires y * p <= x / 2 < (y + 1) * p
    ensures y * (2 * p) <= x < (y + 1) * (2 * p)
  {
    assert y * (2 * p) == 2 * (y * p) && (y + 1) * (2 * p) == 2 * ((y + 1) * p);
  }

  lemma {:induction false} ShrUndoes(m: nat, n: nat)
    ensures Shr(m * Pow2(n), n) == m
    decreases n
  {
    if n > 0 {
      assert m * Pow2(n) == 2 * (m * Pow2(n - 1));
      ShrUndoes(m, n - 1);
    }
  }

  /** What a machine makes of a shift by 64 places or more, which C leaves undefined. */
  type Wide = (nat, nat) -> nat

  /** C's x >> n on 64 bits */
  function Shifted(x: nat, n: nat, wide: Wide): (y: nat) {
    if n < 64 then Shr(x, n) else wide(x, n)
  }

  // ----- Fields

  function Sign64(f: Fp64): (s: bool) { f.bits >= TWO63 }
  function Exp64(f: Fp64): (e: nat) { (f.bits / TWO52) % TWO11 }
  function Frac64(f: Fp64): (m: nat) { f.bits % TWO52 }

  function Sign80(f: Fp80): (s: bool) { f.se >= TWO15 }
  function Exp80(f: Fp80): (e: nat) { f.se % TWO15 }
  function Frac80(f: Fp80): (m: nat) { f.fi % TWO63 }

  /** BUILD_FP64 */
  function Build64(sign: bool, frac: nat, exp: nat): (f: Fp64) {
    Fp64((if sign then TWO63 else 0) + (exp % TWO11) * TWO52 + frac % TWO52)
  }

  /** BUILD_FP80: the integer bit is set by any non-zero exponent. */
  function Build80(sign: bool, frac: nat, exp: nat): (f: Fp80) {
    Fp80((if sign then TWO15 else 0) + exp % TWO15, (if exp != 0 then TWO63 else 0) + frac % TWO63)
  }

  lemma {:induction false} Fields64(sign: bool, frac: nat, exp: nat)
    requires exp < TWO11
    ensures var f := Build64(sign, frac, exp);
      Sign64(f) == sign && Exp64(f) == exp && Frac64(f) == frac % TWO52
  {
    var m := frac % TWO52;
    var low := exp * TWO52 + m;
    assert low / TWO52 == exp && low < TWO63;
    var f := Build64(sign, frac, exp);
    assert f.bits == (if sign then TWO63 else 0) + low;
    assert TWO63 == TWO11 * TWO52;
    assert f.bits / TWO52 == (if sign then TWO11 else 0) + exp;
  }

  lemma {:induction false} Fields80(sign: bool, frac: nat, exp: nat)
    requires exp < TWO15
    ensures var f := Build80(sign, frac, exp);
      && Sign80(f) == sign && Exp80(f) == exp
      && f.fi == (if exp != 0 then TWO63 else 0) + frac % TWO63
  {
  }

  /** The fields determine the pattern. */
  lemma {:induction false} Rebuild64(f: Fp64)
    ensures f == Build64(Sign64(f), Frac64(f), Exp64(f))
  {
  }

  /** Where the fields are in the patterns. */
  lemma {:induction false} Layout(f: Fp64, g: Fp80)
    ensures Exp64(f) < 0x800 && Frac64(f) < 0x10_0000_0000_0000
    ensures f.bits == (if Sign64(f) then 0x8000_0000_0000_0000 else 0) + Exp64(f) * 0x10_0000_0000_0000 + Frac64(f)
    ensures Exp80(g) < 0x8000 && Frac80(g) < 0x8000_0000_0000_0000
    ensures g.se == (if Sign80(g) then 0x8000 else 0) + Exp80(g)
    ensures g.fi == Frac80(g) || g.fi == 0x8000_0000_0000_0000 + Frac80(g)
  {
    Rebuild64(f);
  }

  // ----- Classification

  predicate IsSpecial(f: Fp80) { Exp80(f) == FP80_EXP_SPECIAL }
  predicate IsInf(f: Fp80) { IsSpecial(f) && Frac80(f) == 0 }
  predicate IsQnan(f: Fp80) { IsSpecial(f) && Frac80(f) >= TWO62 }
  predicate IsQnani(f: Fp80) { IsQnan(f) && Sign80(f) && f.fi % TWO62 == 0 }
  predicate IsSnan(f: Fp80) { IsSpecial(f) && Frac80(f) < TWO62 && Frac80(f) != 0 }
  predicate IsNan(f: Fp80) { IsSnan(f) || IsQnan(f) }
  predicate IsZero(f: Fp80) { f.fi == 0 && Exp80(f) == 0 }
  predicate IsNormal(f: Fp80) { Exp80(f) != 0 && !IsSpecial(f) }
  predicate IsSubnormal(f: Fp80) { Frac80(f) != 0 && Exp80(f) == 0 }

  /** The same classes of a 64-bit pattern. */
  predicate IsNan64(f: Fp64) { Exp64(f) == FP64_EXP_SPECIAL && Frac64(f) != 0 }
  predicate IsQnan64(f: Fp64) { Exp64(f) == FP64_EXP_SPECIAL && Frac64(f) >= TWO51 }

  datatype Class = Subnormal | Zero | Infinite | Nan | Normal

  predicate IsFinite(f: Fp80) { !IsNan(f) && !IsInf(f) }

  /** fp80_classify */
  function Classify(f: Fp80): (c: Class) {
    if IsSubnormal(f) then Subnormal
    else if IsZero(f) then Zero
    else if IsInf(f) then Infinite
    else if IsNan(f) then Nan
    else assert IsFinite(f); Normal
  }

  /** Each class is the one its own predicate tells, except that a zero exponent under a lone
      integer bit is classified as normal while fp80_isnormal denies it. */
  lemma {:induction false} ClassifyAgrees(f: Fp80)
    ensures Classify(f) == Subnormal <==> IsSubnormal(f)
    ensures Classify(f) == Zero <==> IsZero(f)
    ensures Classify(f) == Infinite <==> IsInf(f)
    ensures Classify(f) == Nan <==> IsNan(f)
    ensures Classify(f) == Normal <==> IsNormal(f) || (Exp80(f) == 0 && f.fi == TWO63)
  {
    assert f.fi == (if f.fi >= TWO63 then TWO63 else 0) + Frac80(f);
  }

  /** The classes by the bits: the exponent, and integer bit and fraction. */
  lemma {:induction false} ClassifyByBits(f: Fp80)
    ensures var e, fraction := f.se % 0x8000, f.fi % 0x8000_0000_0000_0000;
      && (Classify(f) == Zero <==> e == 0 && f.fi == 0)
      && (Classify(f) == Subnormal <==> e == 0 && fraction != 0)
      && (Classify(f) == Infinite <==> e == 0x7fff && fraction == 0)
      && (Classify(f) == Nan <==> e == 0x7fff && fraction != 0)
      && (Classify(f) == Normal <==> 0 < e < 0x7fff || (e == 0 && f.fi == 0x8000_0000_0000_0000))
  {
    ClassifyAgrees(f);
  }

  lemma {:induction false} ClassifiedNormal()
    ensures Classify(Fp80(0, TWO63)) == Normal && !IsNormal(Fp80(0, TWO63))
  {
  }

  // ----- Conversions

  /** fp80_cvtfp64 */
  function ToFp64(f: Fp80, wide: Wide): (r: Fp64) {
    var sign := Sign80(f);
    if !IsSpecial(f) then
      var exp := Exp80(f) - FP80_EXP_BIAS + FP64_EXP_BIAS;
      var frac := f.fi / TWO11;
      if 0 < exp < FP64_EXP_SPECIAL then Build64(sign, frac, exp)
      else if exp <= 0 then Build64(sign, Shifted(frac, -exp, wide), 0)
      else Build64(sign, 0, FP64_EXP_SPECIAL)
    else if IsInf(f) then Build64(sign, 0, FP64_EXP_SPECIAL)
    else if IsSnan(f) then Build64(sign, FP64_FRAC_SNAN, FP64_EXP_SPECIAL)
    else if IsQnani(f) then Build64(true, FP64_FRAC_QNANI, FP64_EXP_SPECIAL)
    else Build64(sign, FP64_FRAC_QNAN, FP64_EXP_SPECIAL)
  }

  /** How far the normalising loop shifts a fraction that is not zero. */
  function ShiftAmount(fi: nat): (s: nat)
    requires 0 < fi < TWO64
    ensures TWO63 <= fi * Pow2(s) < TWO64
    decreases TWO64 - fi
  {
    if fi >= TWO63 then 0
    else
      var s := ShiftAmount(2 * fi) + 1;
      assert fi * Pow2(s) == 2 * fi * Pow2(s - 1);
      s
  }

  /** fp80_cvffp64 */
  function FromFp64(f: Fp64): (r: Fp80) {
    var exp, frac := Exp64(f), Frac64(f);
    var frac80 := frac * TWO11;
    if exp != 0 then
      Build80(Sign64(f), frac80,
              if exp == FP64_EXP_SPECIAL then FP80_EXP_SPECIAL else exp - FP64_EXP_BIAS + FP80_EXP_BIAS)
    else if frac == 0 then Build80(Sign64(f), 0, 0)
    else
      var s := ShiftAmount(frac80);
      ShiftAtMost(frac80, s);
      Build80(Sign64(f), frac80 * Pow2(s), -FP64_EXP_BIAS - s + FP80_EXP_BIAS)
  }

  lemma {:induction false} ShiftAtMost(fi: nat, s: nat)
    requires fi >= 1 && fi * Pow2(s) < TWO64
    ensures s < 64
  {
    if s >= 64 {
      OutOfWord(fi, s);
      assert false;
    }
  }

  lemma {:induction false} OutOfWord(fi: nat, s: nat)
    requires fi >= 1 && s >= 64
    ensures fi * Pow2(s) >= TWO64
  {
    Pow64();
    PowSum(64, s - 64);
    Product(Pow2(64), Pow2(s - 64));
    Product(Pow2(s), fi);
  }

  /** The loop of fp80_cvffp64 */
  method Normalise(fp80Frac: nat) returns (fi: nat, shiftAmt: nat)
    requires 0 < fp80Frac < TWO64
    ensures shiftAmt == ShiftAmount(fp80Frac) && fi == fp80Frac * Pow2(shiftAmt)
  {
    fi, shiftAmt := fp80Frac, 0;
    while fi < TWO63
      invariant 0 < fi < TWO64 && fi == fp80Frac * Pow2(shiftAmt)
      invariant ShiftAmount(fp80Frac) == shiftAmt + ShiftAmount(fi)
      decreases TWO64 - fi
    {
      fi := fi * 2;
      shiftAmt := shiftAmt + 1;
    }
  }

  /** fp80_cvffp64, with its loop */
  method Widen(f: Fp64) returns (r: Fp80)
    ensures r == FromFp64(f)
  {
    var exp, frac := Exp64(f), Frac64(f);
    if exp != 0 {
      var e := if exp == FP64_EXP_SPECIAL then FP80_EXP_SPECIAL else exp - FP64_EXP_BIAS + FP80_EXP_BIAS;
      r := Build80(Sign64(f), frac * TWO11, e);
    } else if frac == 0 {
      r := Build80(Sign64(f), 0, 0);
    } else {
      var fi, shiftAmt := Normalise(frac * TWO11);
      ShiftAtMost(frac * TWO11, shiftAmt);
      r := Build80(Sign64(f), fi, -FP64_EXP_BIAS - shiftAmt + FP80_EXP_BIAS);
    }
  }

  // ----- Round trips

  function RoundTrip(f: Fp64, wide: Wide): (r: Fp64) {
    ToFp64(FromFp64(f), wide)
  }

  lemma {:induction false} NormalWidened(f: Fp64)
    requires 0 < Exp64(f) < FP64_EXP_SPECIAL
    ensures var x := FromFp64(f);
      && Sign80(x) == Sign64(f) && Exp80(x) == Exp64(f) + FP80_EXP_BIAS - FP64_EXP_BIAS
      && x.fi == TWO63 + Frac64(f) * TWO11
  {
    var frac, exp := Frac64(f) * TWO11, Exp64(f) - FP64_EXP_BIAS + FP80_EXP_BIAS;
    Fields80(Sign64(f), frac, exp);
    Remainder(frac);
  }

  lemma {:induction false} Remainder(frac: nat)
    ensures frac < TWO63 ==> frac % TWO63 == frac
    ensures TWO63 <= frac < TWO64 ==> frac % TWO63 == frac - TWO63
  {
  }

  lemma {:induction false} NormalNarrowed(x: Fp80, frac: nat, exp: nat, wide: Wide)
    requires 0 < exp < FP64_EXP_SPECIAL && Exp80(x) == exp + FP80_EXP_BIAS - FP64_EXP_BIAS
    requires frac < TWO52 && x.fi / TWO11 == TWO52 + frac
    ensures ToFp64(x, wide) == Build64(Sign80(x), frac, exp)
  {
  }

  lemma {:induction false} RoundTripNormal(f: Fp64, wide: Wide)
    requires 0 < Exp64(f) < FP64_EXP_SPECIAL
    ensures RoundTrip(f, wide) == f
  {
    NormalWidened(f);
    NormalNarrowed(FromFp64(f), Frac64(f), Exp64(f), wide);
    Rebuild64(f);
  }

  lemma {:induction false} SubnormalWidened(f: Fp64) returns (s: nat, x: Fp80)
    requires Exp64(f) == 0 && Frac64(f) != 0
    ensures 0 < s < 64 && x == FromFp64(f) && x.fi == TWO11 * (Frac64(f) * Pow2(s)) >= TWO63
    ensures Sign80(x) == Sign64(f) && Exp80(x) == FP80_EXP_BIAS - FP64_EXP_BIAS - s
  {
    var frac := Frac64(f);
    s := ShiftAmount(frac * TWO11);
    ShiftAtMost(frac * TWO11, s);
    x := FromFp64(f);
    var fi := frac * TWO11 * Pow2(s);
    Fields80(Sign64(f), fi, FP80_EXP_BIAS - FP64_EXP_BIAS - s);
    Remainder(fi);
    Regroup(frac, TWO11, Pow2(s));
  }

  lemma {:induction false} RoundTripSubnormal(f: Fp64, wide: Wide)
    requires Exp64(f) == 0 && Frac64(f) != 0
    ensures RoundTrip(f, wide) == f
  {
    var s, x := SubnormalWidened(f);
    assert x.fi / TWO11 == Frac64(f) * Pow2(s);
    ShrUndoes(Frac64(f), s);
    assert ToFp64(x, wide) == Build64(Sign64(f), Frac64(f), 0);
    Rebuild64(f);
  }

  predicate IsZero64(f: Fp64) { Exp64(f) == 0 && Frac64(f) == 0 }

  /** Zero alone is shifted by more than a word, so it comes back as what the machine makes of that. */
  lemma {:induction false} RoundTripZero(f: Fp64, wide: Wide)
    requires IsZero64(f)
    ensures var shift := FP80_EXP_BIAS - FP64_EXP_BIAS;
      RoundTrip(f, wide) == Build64(Sign64(f), wide(0, shift), 0)
  {
    Fields80(Sign64(f), 0, 0);
  }

  /** Every pattern that is not a NaN survives, subnormals and infinities included; zeros on every
      machine that shifts a zero to zero, and on no other. */
  lemma {:induction false} RoundTripExact(f: Fp64, wide: Wide)
    requires !IsNan64(f)
    ensures RoundTrip(f, wide) == f <==>
      (IsZero64(f) ==> wide(0, FP80_EXP_BIAS - FP64_EXP_BIAS) % TWO52 == 0)
  {
    if IsZero64(f) {
      RoundTripZero(f, wide);
      Fields64(Sign64(f), wide(0, FP80_EXP_BIAS - FP64_EXP_BIAS), 0);
      Rebuild64(f);
    } else if Exp64(f) == 0 {
      RoundTripSubnormal(f, wide);
    } else if Exp64(f) < FP64_EXP_SPECIAL {
      RoundTripNormal(f, wide);
    } else {
      SpecialWidened(f);
      Rebuild64(f);
    }
  }

  lemma {:induction false} SpecialWidened(f: Fp64)
    requires Exp64(f) == FP64_EXP_SPECIAL
    ensures var x := FromFp64(f);
      && IsSpecial(x) && Sign80(x) == Sign64(f) && (IsInf(x) <==> Frac64(f) == 0)
      && (IsQnan(x) <==> IsQnan64(f))
      && (IsQnani(x) <==> Sign64(f) && Frac64(f) == FP64_FRAC_QNANI)
  {
    var frac := Frac64(f) * TWO11;
    Fields80(Sign64(f), frac, FP80_EXP_SPECIAL);
    Remainder(frac);
  }

  /** A NaN stays a NaN of the same sign and kind, in canonical form. */
  lemma {:induction false} RoundTripNan(f: Fp64, wide: Wide)
    requires IsNan64(f)
    ensures var r := RoundTrip(f, wide);
      && IsNan64(r) && Sign64(r) == Sign64(f) && IsQnan64(r) == IsQnan64(f)
      && Frac64(r) == (if !IsQnan64(f) then FP64_FRAC_SNAN
                       else if Sign64(f) && Frac64(f) == FP64_FRAC_QNANI then FP64_FRAC_QNANI
                       else FP64_FRAC_QNAN)
  {
    SpecialWidened(f);
    Fields64(Sign64(f), FP64_FRAC_SNAN, FP64_EXP_SPECIAL);
    Fields64(Sign64(f), FP64_FRAC_QNAN, FP64_EXP_SPECIAL);
    Fields64(true, FP64_FRAC_QNANI, FP64_EXP_SPECIAL);
  }

  lemma {:induction false} NanIdempotent(f: Fp64, wide: Wide)
    requires IsNan64(f)
    ensures RoundTrip(RoundTrip(f, wide), wide) == RoundTrip(f, wide)
  {
    var r := RoundTrip(f, wide);
    RoundTripNan(f, wide);
    RoundTripNan(r, wide);
    Rebuild64(r);
    Rebuild64(RoundTrip(r, wide));
  }

  /** A second round trip changes nothing more, for every pattern and on every machine. */
  lemma {:induction false} RoundTripIdempotent(f: Fp64, wide: Wide)
    ensures RoundTrip(RoundTrip(f, wide), wide) == RoundTrip(f, wide)
  {
    if IsNan64(f) {
      NanIdempotent(f, wide);
    } else if IsZero64(f) {
      ZeroIdempotent(f, wide);
    } else {
      RoundTripExact(f, wide);
    }
  }

  lemma {:induction false} ZeroIdempotent(f: Fp64, wide: Wide)
    requires IsZero64(f)
    ensures RoundTrip(RoundTrip(f, wide), wide) == RoundTrip(f, wide)
  {
    var r := RoundTrip(f, wide);
    RoundTripZero(f, wide);
    Fields64(Sign64(f), wide(0, FP80_EXP_BIAS - FP64_EXP_BIAS), 0);
    if Frac64(r) != 0 {
      RoundTripSubnormal(r, wide);
    } else {
      Rebuild64(r);
      Rebuild64(f);
    }
  }

  // ----- Values

  /** The power of two a significand is multiplied by: a zero exponent counts as one. */
  function Scale(x: Fp80): (n: nat) {
    if Exp80(x) == 0 then 1 else Exp80(x)
  }

  /** The magnitude of a finite number, in units of 2^-16446, which is half of the last place of the
      smallest 80-bit numbers. */
  function Mag80(x: Fp80): (v: nat) {
    x.fi * Pow2(Scale(x))
  }

  function Mag64(f: Fp64): (v: nat) {
    Signif64(f) * Ulp64(f)
  }

  function Signif64(f: Fp64): (m: nat) {
    if Exp64(f) == 0 then Frac64(f) else TWO52 + Frac64(f)
  }

  /** One unit in the last place, in the same scale: 2^-1074 for subnormals. */
  function Ulp64(f: Fp64): (u: nat) {
    Pow2(15371 + if Exp64(f) == 0 then 1 else Exp64(f))
  }

  /** The exponent fp80_cvtfp64 computes. */
  function Exponent(x: Fp80): (e: int) {
    Exp80(x) - FP80_EXP_BIAS + FP64_EXP_BIAS
  }

  predicate Truncates(x: Fp80, wide: Wide) {
    var r := ToFp64(x, wide);
    Sign64(r) == Sign80(x) && Mag64(r) <= Mag80(x) < Mag64(r) + Ulp64(r)
  }

  /** A significand g, shifted left by k, against a finer one. */
  lemma {:induction false} Scaled(fi: nat, g: nat, p: nat, q: nat, k: nat)
    requires q == k * p && p > 0 && k > 0
    ensures g * q <= fi * p < g * q + q <==> g * k <= fi < g * k + k
  {
    var a, b := g * k, fi;
    assert g * q == a * p;
    assert g * q + q == (a + k) * p;
    Ordered(a, b, p);
    Ordered(a + k, b, p);
  }

  lemma {:induction false} Ordered(a: int, b: int, p: nat)
    requires p > 0
    ensures a * p <= b * p <==> a <= b
  {
    if a <= b {
      assert a * p <= b * p;
    } else {
      assert a * p >= (b + 1) * p;
    }
  }

  /** For a significand of the 64-bit width and above, truncation happens exactly when the
      integer bit is set: it is the bit the 64-bit format leaves implicit. */
  lemma {:induction false} NormalTruncates(x: Fp80, wide: Wide)
    requires 0 < Exponent(x) < FP64_EXP_SPECIAL
    ensures Truncates(x, wide) <==> x.fi >= TWO63
  {
    var g, e := x.fi / TWO11, Exponent(x);
    var r := ToFp64(x, wide);
    assert r == Build64(Sign80(x), g, e);
    Fields64(Sign80(x), g, e);
    var k := Signif64(r);
    assert k == TWO52 + g % TWO52;
    PowSum(Exp80(x), 11);
    assert Pow2(11) == TWO11;
    Scaled(x.fi, k, Pow2(Exp80(x)), Ulp64(r), TWO11);
    WithImplicitBit(x.fi);
  }

  lemma {:induction false} WithImplicitBit(fi: Word64)
    ensures var k := TWO52 + (fi / TWO11) % TWO52;
      k * TWO11 <= fi < k * TWO11 + TWO11 <==> fi >= TWO63
  {
  }

  lemma {:induction false} ShrSum(x: nat, m: nat, n: nat)
    ensures Shr(x, m + n) == Shr(Shr(x, m), n)
    decreases m
  {
    if m > 0 {
      ShrSum(x / 2, m - 1, n);
    }
  }

  lemma {:induction false} FloorUnique(x: nat, y: nat, k: nat, p: nat)
    requires p > 0 && y * p <= x < (y + 1) * p
    ensures k * p <= x < k * p + p <==> k == y
  {
    if k < y {
      Ordered(k + 1, y, p);
    } else if k > y {
      Ordered(y + 1, k, p);
    }
  }

  /** Below the normal range the code keeps one bit too many and then loses the top one, so it
      truncates only what it turns into zero, and one significand of the boundary exponent. */
  lemma {:induction false} SubnormalTruncates(x: Fp80, wide: Wide)
    requires -63 <= Exponent(x) <= 0
    ensures var g := x.fi / TWO11; var n := -Exponent(x);
      Truncates(x, wide) <==> Shr(g, n) == 0 || (n == 0 && g == TWO53 - 1)
  {
    var g, n := x.fi / TWO11, -Exponent(x);
    var y, r := Shr(g, n), ToFp64(x, wide);
    assert r == Build64(Sign80(x), y, 0);
    Fields64(Sign80(x), y, 0);
    TruncatedByShift(x.fi, y % TWO52, Exp80(x), 12 + n);
    OneBitMore(x.fi, n);
    LostBit(g, n);
  }

  /** Still further below every number truncates to zero, so it depends on the machine's wide shift. */
  lemma {:induction false} WideTruncates(x: Fp80, wide: Wide)
    requires Exponent(x) < -63
    ensures Truncates(x, wide) <==> wide(x.fi / TWO11, -Exponent(x)) % TWO52 == 0
  {
    var y, r := wide(x.fi / TWO11, -Exponent(x)), ToFp64(x, wide);
    assert r == Build64(Sign80(x), y, 0);
    Fields64(Sign80(x), y, 0);
    var n := 15372 - Scale(x);
    TruncatedByShift(x.fi, y % TWO52, Scale(x), n);
    ShiftedAway(x.fi, n);
  }

  lemma {:induction false} ShiftedAway(fi: nat, n: nat)
    requires fi < TWO64 && n >= 64
    ensures Shr(fi, n) == 0
  {
    ShrIsFloor(fi, n);
    if Shr(fi, n) >= 1 {
      OutOfWord(Shr(fi, n), n);
      assert false;
    }
  }

  lemma {:induction false} TruncatedByShift(fi: nat, k: nat, exp: nat, n: nat)
    ensures var ulp := Pow2(exp + n);
      k * ulp <= fi * Pow2(exp) < k * ulp + ulp <==> k == Shr(fi, n)
  {
    PowSum(exp, n);
    Scaled(fi, k, Pow2(exp), Pow2(exp + n), Pow2(n));
    ShrIsFloor(fi, n);
    FloorUnique(fi, Shr(fi, n), k, Pow2(n));
  }

  lemma {:induction false} OneBitMore(fi: nat, n: nat)
    ensures Shr(fi, 12 + n) == Shr(fi / TWO11, n) / 2
  {
    assert Shr(fi, 11) == fi / TWO11;
    ShrSum(fi, 11, n + 1);
    ShrSum(fi / TWO11, n, 1);
  }

  lemma {:induction false} LostBit(g: nat, n: nat)
    requires g < TWO53
    ensures var y := Shr(g, n);
      y % TWO52 == y / 2 <==> y == 0 || (n == 0 && g == TWO53 - 1)
  {
    if n > 0 {
      assert Shr(g, n) <= g / 2;
    }
  }

  /** The exact inputs on which narrowing truncates towards zero by less than one unit in the
      last place, on every machine. */
  lemma {:induction false} TruncatesIff(x: Fp80, wide: Wide)
    requires Exponent(x) < FP64_EXP_SPECIAL
    ensures Truncates(x, wide) <==>
      var g, e := x.fi / TWO11, Exponent(x);
      if e > 0 then x.fi >= TWO63
      else if e >= -63 then (Shr(g, -e) == 0 || (e == 0 && g == TWO53 - 1))
      else wide(g, -e) % TWO52 == 0
  {
    if Exponent(x) > 0 {
      NormalTruncates(x, wide);
    } else if Exponent(x) >= -63 {
      SubnormalTruncates(x, wide);
    } else {
      WideTruncates(x, wide);
    }
  }

  /** The smallest significand of the boundary exponent, and a number without its integer bit. */
  lemma {:induction false} NarrowingCanFail(wide: Wide)
    ensures Exponent(Fp80(15360, TWO63)) == 0 && !Truncates(Fp80(15360, TWO63), wide)
    ensures Exponent(Fp80(16383, 0)) == FP64_EXP_BIAS && !Truncates(Fp80(16383, 0), wide)
  {
    TruncatesIff(Fp80(15360, TWO63), wide);
    TruncatesIff(Fp80(16383, 0), wide);
  }

  /** C says what the result is exactly when no shift goes beyond the word. */
  lemma {:induction false} DefinedIff(x: Fp80)
    ensures (forall wide: Wide, other: Wide :: ToFp64(x, wide) == ToFp64(x, other)) <==> Exponent(x) >= -63
  {
    if Exponent(x) < -63 {
      var zero: Wide, one: Wide := (_, _) => 0, (_, _) => 1;
      assert ToFp64(x, zero) == Build64(Sign80(x), 0, 0);
      assert ToFp64(x, one) == Build64(Sign80(x), 1, 0);
    }
  }

  /** A machine that uses the low six bits of a count, and a number it does not truncate. */
  function Masked(x: nat, n: nat): (y: nat) {
    Shr(x, n % 64)
  }

  lemma {:induction false} ShrZero(n: nat)
    ensures Shr(0, n) == 0
    decreases n
  {
    if n > 0 {
      ShrZero(n - 1);
    }
  }

  /** On such a machine the round trip is exact for zeros too. */
  lemma {:induction false} RoundTripMasked(f: Fp64)
    requires !IsNan64(f)
    ensures RoundTrip(f, Masked) == f
  {
    ShrZero((FP80_EXP_BIAS - FP64_EXP_BIAS) % 64);
    RoundTripExact(f, Masked);
  }

  lemma {:induction false} MaskedCanFail()
    ensures var x := Fp80(15296, TWO63 + TWO11); Exponent(x) == -64 && !Truncates(x, Masked)
  {
    var x := Fp80(15296, TWO63 + TWO11);
    TruncatesIff(x, Masked);
    assert x.fi / TWO11 == TWO52 + 1;
    assert Masked(TWO52 + 1, 64) == TWO52 + 1;
  }

  /** No conversion from 64 bits leads there, except of zero. */
  lemma {:induction false} WidenedIsDefined(f: Fp64)
    requires Exp64(f) < FP64_EXP_SPECIAL
    ensures Exponent(FromFp64(f)) >= -63 <==> !IsZero64(f)
  {
    if Exp64(f) > 0 {
      NormalWidened(f);
    } else if Frac64(f) != 0 {
      var s, x := SubnormalWidened(f);
    } else {
      Fields80(Sign64(f), 0, 0);
    }
  }

  lemma {:induction false} PowMonotone(m: nat, n: nat)
    requires m <= n
    ensures Pow2(m) <= Pow2(n)
  {
    PowSum(m, n - m);
    Product(Pow2(m), Pow2(n - m));
  }

  /** The largest finite 64-bit number. */
  const LARGEST := Build64(false, TWO52 - 1, FP64_EXP_SPECIAL - 1)

  lemma {:induction false} LargestIsLargest(f: Fp64)
    requires Exp64(f) < FP64_EXP_SPECIAL
    ensures Exp64(LARGEST) == FP64_EXP_SPECIAL - 1 && Mag64(f) <= Mag64(LARGEST)
    ensures Mag64(LARGEST) == (TWO53 - 1) * Ulp64(LARGEST)
  {
    Fields64(false, TWO52 - 1, FP64_EXP_SPECIAL - 1);
    PowMonotone(15371 + if Exp64(f) == 0 then 1 else Exp64(f), 15371 + Exp64(LARGEST));
    Products(Signif64(f), TWO53 - 1, Ulp64(f), Ulp64(LARGEST));
  }

  /** An exponent out of range gives the signed infinity; the number is then beyond every finite
      64-bit number exactly when its significand, scaled to the first such exponent, is. */
  lemma {:induction false} OverflowsIff(x: Fp80, wide: Wide)
    requires Exponent(x) >= FP64_EXP_SPECIAL && !IsSpecial(x)
    ensures ToFp64(x, wide) == Build64(Sign80(x), 0, FP64_EXP_SPECIAL)
    ensures (forall f: Fp64 :: Exp64(f) < FP64_EXP_SPECIAL ==> Mag64(f) < Mag80(x))
       <==> x.fi * Pow2(Exponent(x) - FP64_EXP_SPECIAL) > TWO63 - TWO10
    ensures x.fi >= TWO63 ==> x.fi * Pow2(Exponent(x) - FP64_EXP_SPECIAL) > TWO63 - TWO10
  {
    var e := Exponent(x) - FP64_EXP_SPECIAL;
    LargestIsLargest(LARGEST);
    BeyondLargest(x.fi, Exp80(x) - e, e);
    if Mag64(LARGEST) < Mag80(x) {
      forall f: Fp64 | Exp64(f) < FP64_EXP_SPECIAL ensures Mag64(f) < Mag80(x) {
        LargestIsLargest(f);
      }
    }
    Product(x.fi, Pow2(e));
  }

  /** The smallest significand of the first such exponent becomes infinity, though it is not beyond. */
  lemma {:induction false} InfiniteTooEarly(wide: Wide)
    ensures var x := Fp80(17407, 1);
      && ToFp64(x, wide) == Build64(false, 0, FP64_EXP_SPECIAL)
      && exists f: Fp64 :: Exp64(f) < FP64_EXP_SPECIAL && Mag64(f) >= Mag80(x)
  {
    OverflowsIff(Fp80(17407, 1), wide);
  }

  lemma {:induction false} BeyondLargest(fi: nat, n: nat, e: nat)
    ensures (TWO53 - 1) * Pow2(n + 10) < fi * Pow2(n + e) <==> fi * Pow2(e) > TWO63 - TWO10
  {
    PowSum(n, 10);
    PowSum(n, e);
    assert Pow2(10) == TWO10;
    Pull(TWO53 - 1, Pow2(n), TWO10);
    Pull(fi, Pow2(n), Pow2(e));
    CommonFactor(TWO63 - TWO10, fi * Pow2(e), Pow2(n));
  }

  lemma {:induction false} CommonFactor(a: nat, b: nat, p: nat)
    requires p > 0
    ensures p * a < p * b <==> a < b
  {
    Ordered(b, a, p);
  }

  /** Numbers with the integer bit set are ordered by exponent, then by fraction. */
  lemma {:induction false} OrderedByExponent(x: Fp80, y: Fp80)
    requires x.fi >= TWO63 && Exp80(x) > 0 && Exp80(y) > 0 && Mag80(x) <= Mag80(y)
    ensures Exp80(x) < Exp80(y) || (Exp80(x) == Exp80(y) && x.fi <= y.fi)
  {
    if Exp80(x) > Exp80(y) {
      Lower(x, y);
      assert false;
    } else if Exp80(x) == Exp80(y) {
      Ordered(x.fi, y.fi, Pow2(Exp80(x)));
    }
  }

  lemma {:induction false} Lower(x: Fp80, y: Fp80)
    requires x.fi >= TWO63 && Exp80(x) > Exp80(y) > 0
    ensures Mag80(x) > Mag80(y)
  {
    PowMonotone(Exp80(y) + 1, Exp80(x));
    LowerProduct(x.fi, y.fi, Pow2(Exp80(y)), Pow2(Exp80(x)));
  }

  lemma {:induction false} LowerProduct(a: nat, b: nat, p: nat, q: nat)
    requires a >= TWO63 && b < TWO64 && p > 0 && q >= 2 * p
    ensures b * p < a * q
  {
    Ordered(TWO64, b, p);
    Products(TWO63, a, 2 * p, q);
  }

  /** Narrowing is monotone: patterns of non-negative numbers are ordered as their values. */
  lemma {:induction false} NarrowingMonotone(x: Fp80, y: Fp80, wide: Wide)
    requires !IsSpecial(x) && !IsSpecial(y) && !Sign80(x) && !Sign80(y)
    requires Exponent(x) > 0 && Exponent(y) > 0 && x.fi >= TWO63 && y.fi >= TWO63
    requires Mag80(x) <= Mag80(y)
    ensures ToFp64(x, wide).bits <= ToFp64(y, wide).bits
  {
    OrderedByExponent(x, y);
    NarrowedBits(x, wide);
    NarrowedBits(y, wide);
  }

  lemma {:induction false} NarrowedBits(x: Fp80, wide: Wide)
    requires !IsSpecial(x) && !Sign80(x) && Exponent(x) > 0 && x.fi >= TWO63
    ensures ToFp64(x, wide).bits ==
      if Exponent(x) < FP64_EXP_SPECIAL then Exponent(x) * TWO52 + (x.fi / TWO11 - TWO52)
      else FP64_EXP_SPECIAL * TWO52
  {
    if Exponent(x) < FP64_EXP_SPECIAL {
      NormalNarrowed(x, x.fi / TWO11 - TWO52, Exponent(x), wide);
    }
  }

  /** Widening keeps the value of every finite number except the subnormals, which come out at
      half their value. */
  lemma {:induction false} WideningExactIff(f: Fp64)
    requires Exp64(f) < FP64_EXP_SPECIAL
    ensures Sign80(FromFp64(f)) == Sign64(f)
    ensures Mag80(FromFp64(f)) == Mag64(f) <==> !(Exp64(f) == 0 && Frac64(f) != 0)
    ensures Exp64(f) == 0 ==> 2 * Mag80(FromFp64(f)) == Mag64(f)
  {
    if Exp64(f) > 0 {
      NormalWidened(f);
      WidenedNormalValue(f);
    } else if Frac64(f) == 0 {
      Fields80(Sign64(f), 0, 0);
    } else {
      WidenedSubnormalValue(f);
    }
  }

  lemma {:induction false} WideningCanFail()
    ensures Exp64(Fp64(1)) == 0 && Mag80(FromFp64(Fp64(1))) < Mag64(Fp64(1))
  {
    WidenedSubnormalValue(Fp64(1));
  }

  lemma {:induction false} WidenedNormalValue(f: Fp64)
    requires 0 < Exp64(f) < FP64_EXP_SPECIAL
    ensures Mag80(FromFp64(f)) == Mag64(f)
  {
    NormalWidened(f);
    var n := Exp80(FromFp64(f));
    PowSum(n, 11);
    assert Pow2(11) == TWO11;
    assert Mag64(f) == (TWO52 + Frac64(f)) * (Pow2(n) * TWO11);
    assert (TWO52 + Frac64(f)) * (Pow2(n) * TWO11) == ((TWO52 + Frac64(f)) * TWO11) * Pow2(n);
  }

  lemma {:induction false} WidenedSubnormalValue(f: Fp64)
    requires Exp64(f) == 0 && Frac64(f) != 0
    ensures Sign80(FromFp64(f)) == Sign64(f)
    ensures 0 < 2 * Mag80(FromFp64(f)) == Mag64(f)
  {
    var s, x := SubnormalWidened(f);
    HalfValue(Frac64(f), Exp80(x), s);
    Product(x.fi, Pow2(Exp80(x)));
  }

  lemma {:induction false} HalfValue(m: nat, n: nat, s: nat)
    ensures m * Pow2(n + s + 12) == 2 * ((TWO11 * (m * Pow2(s))) * Pow2(n))
  {
    var p, q := Pow2(n), Pow2(s);
    PowSum(n, s + 12);
    PowSum(s, 12);
    assert Pow2(12) == 2 * TWO11;
    assert Pow2(n + s + 12) == p * (q * (2 * TWO11));
    Regroup4(m, p, q, 2 * TWO11);
    Regroup(p, TWO11, m * q);
  }

  lemma {:induction false} Regroup4(m: nat, p: nat, q: nat, c: nat)
    ensures m * (p * (q * c)) == c * (p * (m * q))
  {
    assert p * (q * c) == c * (p * q);
    assert m * (c * (p * q)) == c * (m * (p * q));
    assert m * (p * q) == p * (m * q);
  }

  /** Infinities, and the sign and kind of a NaN, survive narrowing. */
  lemma {:induction false} SpecialNarrowed(x: Fp80, wide: Wide)
    requires IsSpecial(x)
    ensures var r := ToFp64(x, wide);
      && Exp64(r) == FP64_EXP_SPECIAL && Sign64(r) == Sign80(x)
      && (Frac64(r) == 0 <==> IsInf(x)) && (IsQnan64(r) <==> IsQnan(x))
      // by the fraction: none is an infinity, its highest bit tells a quiet NaN
      && (Frac64(r) == 0 <==> x.fi % TWO63 == 0) && (Frac64(r) >= TWO51 <==> x.fi % TWO63 >= TWO62)
  {
    Fields64(Sign80(x), 0, FP64_EXP_SPECIAL);
    Fields64(Sign80(x), FP64_FRAC_SNAN, FP64_EXP_SPECIAL);
    Fields64(Sign80(x), FP64_FRAC_QNAN, FP64_EXP_SPECIAL);
    Fields64(true, FP64_FRAC_QNANI, FP64_EXP_SPECIAL);
  }

  /** One, minus three, an infinity, a signalling and a quiet NaN, and the indefinite one */
  lemma {:induction false} KnownPatterns(wide: Wide)
    ensures ToFp64(Fp80(0x3fff, 0x8000_0000_0000_0000), wide) == Fp64(0x3ff0_0000_0000_0000)
    ensures FromFp64(Fp64(0x3ff0_0000_0000_0000)) == Fp80(0x3fff, 0x8000_0000_0000_0000)
    ensures ToFp64(Fp80(0xc000, 0xc000_0000_0000_0000), wide) == Fp64(0xc008_0000_0000_0000)
    ensures FromFp64(Fp64(0xc008_0000_0000_0000)) == Fp80(0xc000, 0xc000_0000_0000_0000)
    ensures ToFp64(Fp80(0x7fff, 0x8000_0000_0000_0000), wide) == Fp64(0x7ff0_0000_0000_0000)
    ensures ToFp64(Fp80(0x7fff, 0x8000_0000_0000_0001), wide) == Fp64(0x7ff7_ffff_ffff_ffff)
    ensures ToFp64(Fp80(0x7fff, 0xc000_0000_0000_0000), wide) == Fp64(0x7fff_ffff_ffff_ffff)
    ensures ToFp64(Fp80(0xffff, 0xc000_0000_0000_0000), wide) == Fp64(0xfff8_0000_0000_0000)
  {
  }
}
