/** The Internet checksum of gem5/ext/dnet/ip.h (section 1 of RFC 1071). */
module IpChecksum {
  import opened Common

  type Octet = x: int | 0 <= x < 256

  const INT_MAX := 0x7fff_ffff

  /** A halfword as the host reads it from two bytes. */
  function Half(little: bool, b0: Octet, b1: Octet): (h: nat)
    ensures h <= 0xffff
  {
    if little then b0 + 0x100 * b1 else 0x100 * b0 + b1
  }

  /** The sum of a buffer's halfwords, an odd last byte padded with zero. */
  function Sum(little: bool, buf: seq<Octet>): (s: nat) {
    if buf == [] then 0
    else if |buf| == 1 then Half(little, buf[0], 0)
    else Half(little, buf[0], buf[1]) + Sum(little, buf[2..])
  }

  // ----- Pieces of a buffer

  /** Behind an odd piece the bytes change places: they are summed as the other byte order would. */
  lemma {:induction false} SumConcat(little: bool, a: seq<Octet>, b: seq<Octet>)
    ensures Sum(little, a + b) == Sum(little, a) + Sum(if |a| % 2 == 0 then little else !little, b)
    decreases |a|
  {
    if a == [] {
      assert a + b == b;
    } else if |a| == 1 {
      SumShifted(little, a[0], b);
      assert a + b == [a[0]] + b;
    } else {
      SumConcat(little, a[2..], b);
      assert (a + b)[2..] == a[2..] + b;
    }
  }

  lemma {:induction false} SumShifted(little: bool, x: Octet, b: seq<Octet>)
    ensures Sum(little, [x] + b) == Half(little, x, 0) + Sum(!little, b)
    decreases |b|
  {
    if |b| == 1 {
      assert ([x] + b)[2..] == [];
    } else if |b| > 1 {
      assert ([x] + b)[2..] == [b[1]] + b[2..];
      SumShifted(little, b[1], b[2..]);
    }
  }

  /** Summing two pieces in turn is summing the whole exactly when the first has even length or
      the second reads the same in both byte orders. */
  lemma {:induction false} PiecesIff(little: bool, a: seq<Octet>, b: seq<Octet>)
    ensures Sum(little, a + b) == Sum(little, a) + Sum(little, b)
       <==> |a| % 2 == 0 || Sum(true, b) == Sum(false, b)
  {
    SumConcat(little, a, b);
  }

  // ----- The unrolled loop

  /** The control of the unrolled loop, counting what it reads, for every number of halfwords: `n` is
      tested behind the pass, so the first one is never skipped. */
  method CountReads(sn: nat) returns (count: nat)
    ensures count == HalfwordsRead(sn)
  {
    var n := (sn + 15) / 16;
    var left := if sn % 16 == 0 then 16 else sn % 16;
    ghost var n0, first := n, left;
    count := 0;
    while true
      invariant n <= n0 && (n == n0 ==> left == first && count == 0)
      invariant n < n0 ==> left == 16 && n >= 1 && count == first + 16 * (n0 - n - 1)
      decreases n
    {
      count := count + left;
      n := n - 1;
      if !(n > 0) {
        break;
      }
      left := 16;
    }
  }

  /** How many halfwords it reads. */
  function HalfwordsRead(sn: nat): (k: nat) {
    var n := (sn + 15) / 16;
    (if sn % 16 == 0 then 16 else sn % 16) + 16 * (if n <= 1 then 0 else n - 1)
  }

  lemma {:induction false} ReadsTheBufferIff(sn: nat)
    ensures HalfwordsRead(sn) == sn <==> sn >= 1
  {
  }

  lemma {:induction false} ReadsBehindTheBuffer()
    ensures HalfwordsRead(0) == 16
  {
  }

  lemma {:induction false} SumSnoc(little: bool, buf: seq<Octet>, k: nat)
    requires 2 * k + 2 <= |buf|
    ensures Sum(little, buf[..2 * k + 2]) == Sum(little, buf[..2 * k]) + Half(little, buf[2 * k], buf[2 * k + 1])
  {
    var pair := buf[2 * k..2 * k + 2];
    assert buf[..2 * k + 2] == buf[..2 * k] + pair;
    SumConcat(little, buf[..2 * k], pair);
    assert pair[2..] == [];
  }

  lemma {:induction false} SumOfPrefix(little: bool, buf: seq<Octet>, k: nat)
    requires k <= |buf| && k % 2 == 0
    ensures Sum(little, buf[..k]) + Sum(little, buf[k..]) == Sum(little, buf)
  {
    SumConcat(little, buf[..k], buf[k..]);
    assert buf[..k] + buf[k..] == buf;
  }

  /** ip_cksum_add: every halfword once, the odd byte at the end, and no step overflows; None where it
      reads behind the buffer, which is exactly where there is no halfword. */
  method CksumAdd(little: bool, buf: seq<Octet>, cksum: int) returns (r: Option<int>)
    requires -INT_MAX - 1 <= cksum && cksum + Sum(little, buf) <= INT_MAX
    ensures r == if |buf| < 2 then None else Some(cksum + Sum(little, buf))
  {
    var sn := |buf| / 2;
    if HalfwordsRead(sn) > sn {
      return None;
    }
    var sum, sp := AddHalfwords(little, buf, cksum);
    SumOfPrefix(little, buf, 2 * sn);
    if |buf| % 2 == 1 {
      assert buf[2 * sn..] == [buf[|buf| - 1]];
      sum := sum + Half(little, buf[2 * sp], 0);
    }
    r := Some(sum);
  }

  /** The unrolled loop */
  method AddHalfwords(little: bool, buf: seq<Octet>, cksum: int) returns (r: int, sp: nat)
    requires |buf| >= 2 && cksum + Sum(little, buf) <= INT_MAX
    ensures sp == |buf| / 2 && r == cksum + Sum(little, buf[..2 * sp])
  {
    var sn := |buf| / 2;
    var n := (sn + 15) / 16;
    sp := 0;
    r := cksum;
    // The case label entered: so many additions are left of the first pass.
    var left := if sn % 16 == 0 then 16 else sn % 16;
    while true
      invariant 1 <= n && left + 16 * (n - 1) + sp == sn && 1 <= left <= 16
      invariant r == cksum + Sum(little, buf[..2 * sp])
      decreases n
    {
      r, sp := Pass(little, buf, cksum, r, sp, left);
      n := n - 1;
      if !(n > 0) {
        break;
      }
      left := 16;
    }
  }

  /** One pass of the loop body from a case label on. */
  method Pass(little: bool, buf: seq<Octet>, ghost start: int, cksum: int, at: nat, count: nat) returns (r: int, sp: nat)
    requires 2 * (at + count) <= |buf|
    requires start + Sum(little, buf) <= INT_MAX
    requires cksum == start + Sum(little, buf[..2 * at])
    ensures sp == at + count && r == start + Sum(little, buf[..2 * sp])
  {
    r, sp := cksum, at;
    var left := count;
    while left > 0
      invariant sp + left == at + count
      invariant r == start + Sum(little, buf[..2 * sp])
    {
      SumSnoc(little, buf, sp);
      SumOfPrefix(little, buf, 2 * sp + 2);
      r := r + Half(little, buf[2 * sp], buf[2 * sp + 1]);
      assert r <= INT_MAX;
      sp := sp + 1;
      left := left - 1;
    }
  }

  /** Any IP packet fits, on top of an incoming sum up to 32767. */
  lemma {:induction false} SumBound(little: bool, buf: seq<Octet>)
    ensures Sum(little, buf) <= 0xffff * (|buf| / 2) + (if |buf| % 2 == 1 then 0xff00 else 0)
    decreases |buf|
  {
    if |buf| > 1 {
      SumBound(little, buf[2..]);
    }
  }

  /** The bound is the sum of all ones, on a host that reads the odd byte as the high one. */
  lemma {:induction false} SumBoundReached(little: bool, k: nat)
    ensures Sum(little, seq(2 * k + 1, _ => 0xff)) == 0xffff * k + Half(little, 0xff, 0)
    decreases k
  {
    var buf: seq<Octet> := seq(2 * k + 1, _ => 0xff);
    if k > 0 {
      SumBoundReached(little, k - 1);
      assert buf[2..] == seq(2 * (k - 1) + 1, _ => 0xff);
    }
  }

  lemma {:induction false} PacketFits(little: bool, buf: seq<Octet>, cksum: nat)
    requires |buf| <= 65535 && cksum <= 32767
    ensures cksum + Sum(little, buf) <= INT_MAX
  {
    SumBound(little, buf);
  }

  // ----- The folding

  /** ip_cksum_carry, whose shifts keep the sign */
  function CksumCarry(x: int): (c: nat)
    ensures c <= 0xffff
  {
    var y := x / 0x1_0000 + x % 0x1_0000;
    0xffff - (y + y / 0x1_0000) % 0x1_0000
  }

  /** A sum reduced modulo 65535, with zero written as 65535 unless the sum is zero. */
  function Reduced(x: nat): (r: nat) {
    if x == 0 then 0 else (x - 1) % 0xffff + 1
  }

  lemma {:induction false} CarryIsComplement(x: nat)
    requires x <= INT_MAX
    ensures CksumCarry(x) == 0xffff - Reduced(x)
  {
    var q, r := x / 0x1_0000, x % 0x1_0000;
    var y := q + r;
    assert x == 0xffff * q + y;
    var f := (y + y / 0x1_0000) % 0x1_0000;
    assert f == if y < 0x1_0000 then y else y - 0xffff;
    var k := if y < 0x1_0000 then q else q + 1;
    assert x == 0xffff * k + f;
    if x > 0 {
      assert 1 <= f <= 0xffff;
      DivMod(x - 1, k, f - 1);
    }
  }

  lemma {:induction false} DivMod(x: nat, q: nat, r: nat)
    requires x == 0xffff * q + r && r < 0xffff
    ensures x % 0xffff == r
  {
  }

  /** Adding the checksum back into the sum makes it check. */
  lemma {:induction false} CheckedSum(x: nat)
    requires x + CksumCarry(x) <= INT_MAX
    ensures CksumCarry(x + CksumCarry(x)) == 0
  {
    CarryIsComplement(x);
    CarryIsComplement(x + CksumCarry(x));
    if x > 0 {
      var q, r := (x - 1) / 0xffff, (x - 1) % 0xffff;
      assert x - 1 == 0xffff * q + r;
      assert x + CksumCarry(x) - 1 == 0xffff * q + 0xfffe;
      DivMod(x + CksumCarry(x) - 1, q, 0xfffe);
    }
  }

  /** A sum checks exactly when it is a positive multiple of 65535. */
  lemma {:induction false} ChecksIff(x: nat)
    requires x <= INT_MAX
    ensures CksumCarry(x) == 0 <==> x > 0 && x % 0xffff == 0
  {
    CarryIsComplement(x);
    if x > 0 {
      var q, r := (x - 1) / 0xffff, (x - 1) % 0xffff;
      assert x == 0xffff * q + (r + 1);
      if r + 1 < 0xffff {
        DivMod(x, q, r + 1);
      } else {
        DivMod(x, q + 1, 0);
      }
    }
  }

  /** A packet whose checksum field, at an even offset, is filled in with the checksum of the packet
      with the field zero, checks. */
  lemma {:induction false} PacketChecks(little: bool, front: seq<Octet>, b0: Octet, b1: Octet, back: seq<Octet>)
    requires |front| % 2 == 0 && |front| + 2 + |back| <= 65535
    requires Half(little, b0, b1) == CksumCarry(Sum(little, front + [0, 0] + back))
    ensures CksumCarry(Sum(little, front + [b0, b1] + back)) == 0
  {
    SumWithField(little, front, 0, 0, back);
    SumWithField(little, front, b0, b1, back);
    SumBound(little, front + [b0, b1] + back);
    CheckedSum(Sum(little, front + [0, 0] + back));
  }

  lemma {:induction false} SumWithField(little: bool, front: seq<Octet>, b0: Octet, b1: Octet, back: seq<Octet>)
    requires |front| % 2 == 0
    ensures Sum(little, front + [b0, b1] + back) == Sum(little, front) + Half(little, b0, b1) + Sum(little, back)
  {
    var field := [b0, b1];
    SumConcat(little, front, field);
    SumConcat(little, front + field, back);
    assert field[2..] == [];
  }

  // ----- Octet order

  function Swapped(h: nat): (r: nat)
    requires h <= 0xffff
    ensures r <= 0xffff
  {
    0x100 * (h % 0x100) + h / 0x100
  }

  function OddBytes(buf: seq<Octet>): (s: nat) {
    if |buf| < 2 then 0 else buf[1] + OddBytes(buf[2..])
  }

  lemma {:induction false} SumsDiffer(buf: seq<Octet>)
    ensures 0x100 * Sum(true, buf) == Sum(false, buf) + 0xffff * OddBytes(buf)
    decreases |buf|
  {
    if |buf| > 1 {
      SumsDiffer(buf[2..]);
    }
  }

  /** Congruent positive sums reduce to the same halfword. */
  lemma {:induction false} ReducedIs(x: int, r: nat, k: int)
    requires x > 0 && 1 <= r <= 0xffff && x == r + 0xffff * k
    ensures Reduced(x) == r
  {
    DivMod(x - 1, k, r - 1);
  }

  lemma {:induction false} ReducedSwaps(s: nat, t: nat, k: int)
    requires 0x100 * s == t + 0xffff * k && (s == 0 <==> t == 0)
    ensures Reduced(s) <= 0xffff && Reduced(t) == Swapped(Reduced(s))
  {
    if s > 0 {
      var q, r := (s - 1) / 0xffff, (s - 1) % 0xffff + 1;
      assert s == r + 0xffff * q;
      assert 0x100 * r == Swapped(r) + 0xffff * (r / 0x100);
      ReducedIs(t, Swapped(r), r / 0x100 + 0x100 * q - k);
    }
  }

  /** Computed in the other byte order, the checksum is the same with its bytes swapped. */
  lemma {:induction false} ByteOrderIndependent(buf: seq<Octet>)
    requires |buf| <= 65535
    ensures CksumCarry(Sum(false, buf)) == Swapped(CksumCarry(Sum(true, buf)))
  {
    SumsDiffer(buf);
    SumsVanish(buf);
    PacketFits(true, buf, 0);
    PacketFits(false, buf, 0);
    CarrySwaps(Sum(true, buf), Sum(false, buf), OddBytes(buf));
  }

  lemma {:induction false} CarrySwaps(s: nat, t: nat, k: int)
    requires s <= INT_MAX && t <= INT_MAX && 0x100 * s == t + 0xffff * k && (s == 0 <==> t == 0)
    ensures CksumCarry(t) == Swapped(CksumCarry(s))
  {
    CarryIsComplement(s);
    CarryIsComplement(t);
    ReducedSwaps(s, t, k);
    ComplementSwaps(Reduced(s));
  }

  lemma {:induction false} ComplementSwaps(h: nat)
    requires h <= 0xffff
    ensures Swapped(0xffff - h) == 0xffff - Swapped(h)
  {
    var hi, lo := h / 0x100, h % 0x100;
    assert 0xffff - h == 0x100 * (0xff - hi) + (0xff - lo);
    assert (0xffff - h) / 0x100 == 0xff - hi;
  }

  lemma {:induction false} SumsVanish(buf: seq<Octet>)
    ensures Sum(true, buf) == 0 <==> Sum(false, buf) == 0
    decreases |buf|
  {
    if |buf| > 1 {
      SumsVanish(buf[2..]);
    }
  }
}
