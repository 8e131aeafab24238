/**
 Machine words as the millicode of src/common/gcc-millicode sees them: a 64-bit `long long' is two
 32-bit `int's, and an `int' is two 16-bit halves.  Words are mathematical integers; every place where
 C would wrap around says so with U32, U64 or S64.
 */
module Words {

  const B: int := 0x1_0000
  const W32: int := 0x1_0000_0000
  const W63: int := 0x8000_0000_0000_0000
  const W64: int := 0x1_0000_0000_0000_0000

  /** An `unsigned short', used by the division as one digit in base B. */
  type Digit = d: int | 0 <= d < B

  type Word32 = w: int | 0 <= w < W32
  type Word64 = w: int | 0 <= w < W64
  type Signed64 = s: int | -W63 <= s < W63

  function U32(x: int): Word32 { x % W32 }

  function U64(x: int): Word64 { x % W64 }

  /** The unsigned product and negation of C's 32-bit and 64-bit arithmetic. */
  function Mul32(x: int, y: int): Word32 { U32(x * y) }

  function Neg32(x: int): Word32 { U32(-x) }

  function Neg64(x: int): Word64 { U64(-x) }

  /** Reinterprets the low 64 bits of x as a two's complement number. */
  function S64(x: int): Signed64 {
    var w := x % W64;
    if w < W63 then w else w - W64
  }

  function HHalf(x: Word32): Digit { x / B }

  function LHalf(x: Word32): Digit { x % B }

  function LHUp(x: Word32): Word32 { U32(x * B) }

  /** The cast `(digit)x' drops all but the low half. */
  function ToDigit(x: int): Digit { x % B }

  /** COMBINE(a, b): the shifted a has a zero low half, so `|' is addition. */
  function Combine(a: Digit, b: Digit): Word32 { a * B + b }

  function Hi(x: Word64): Word32 { x / W32 }

  function Lo(x: Word64): Word32 { x % W32 }

  function Join(hi: Word32, lo: Word32): Word64 { hi * W32 + lo }

  function Pow2(k: nat): (p: nat)
    ensures p >= 1
  {
    if k == 0 then 1 else 2 * Pow2(k - 1)
  }

  lemma MulMono(a: int, b: int, p: int)
    requires a <= b && 0 <= p
    ensures a * p <= b * p
  {
  }

  lemma ProductFits(v: int, q: int)
    requires 0 <= v < B && 0 <= q < B
    ensures 0 <= v * q < W32 && Mul32(v, q) == v * q
  {
    MulMono(v, B - 1, q);
    MulMono(0, v, q);
    SmallWord(v * q);
  }

  /** The residue is the only number in range that differs by a multiple of the modulus. */
  lemma Residue32(x: int, k: int, r: int)
    requires x == r + k * W32 && 0 <= r < W32
    ensures U32(x) == r
  {
  }

  lemma Residue64(x: int, k: int, r: int)
    requires x == r + k * W64 && 0 <= r < W64
    ensures U64(x) == r
  {
  }

  /** Adding or subtracting words wraps at most once. */
  lemma Wrap32(x: int)
    requires -W32 <= x < 2 * W32
    ensures U32(x) == if x < 0 then x + W32 else if x < W32 then x else x - W32
  {
  }

  lemma SmallWord(x: int)
    requires 0 <= x < W32
    ensures U32(x) == x
  {
  }
}

/** Numbers written as digit strings in base B, most significant digit first. */
module Digits {
  import opened Words

  function PowB(k: nat): (p: nat)
    ensures p >= 1
  {
    if k == 0 then 1 else B * PowB(k - 1)
  }

  function Val(s: seq<Digit>): (v: nat) {
    if s == [] then 0 else s[0] * PowB(|s| - 1) + Val(s[1..])
  }

  lemma {:induction false} ValBound(s: seq<Digit>)
    ensures Val(s) < PowB(|s|)
  {
    if s != [] {
      ValBound(s[1..]);
      MulMono(s[0], B - 1, PowB(|s| - 1));
    }
  }

  lemma {:induction false} PowBAdd(a: nat, b: nat)
    ensures PowB(a + b) == PowB(a) * PowB(b)
  {
    if a > 0 {
      PowBAdd(a - 1, b);
    }
  }

  lemma {:induction false} ValConcat(s: seq<Digit>, r: seq<Digit>)
    ensures Val(s + r) == Val(s) * PowB(|r|) + Val(r)
  {
    if s == [] {
      assert s + r == r;
    } else {
      ValConcat(s[1..], r);
      assert (s + r)[1..] == s[1..] + r;
      PowBAdd(|s| - 1, |r|);
      Distribute(s[0], PowB(|s| - 1), PowB(|r|), Val(s[1..]));
    }
  }

  lemma Distribute(a: int, p: int, q: int, x: int)
    ensures (a * p + x) * q == a * (p * q) + x * q
  {
  }

  lemma {:induction false} ValZeros(s: seq<Digit>)
    requires forall i | 0 <= i < |s| :: s[i] == 0
    ensures Val(s) == 0
  {
    if s != [] {
      ValZeros(s[1..]);
    }
  }

  lemma ValCons(d: Digit, s: seq<Digit>)
    ensures Val([d] + s) == d * PowB(|s|) + Val(s)
  {
    assert ([d] + s)[1..] == s;
  }

  lemma ValSnoc(s: seq<Digit>, d: Digit)
    ensures Val(s + [d]) == Val(s) * B + d
  {
    ValConcat(s, [d]);
    assert PowB(1) == B;
    assert Val([d]) == d * PowB(0) + Val([]);
  }

  /** Dropping a run of leading zero digits does not change the number. */
  lemma ValSkipZeros(s: seq<Digit>, k: nat)
    requires k <= |s|
    requires forall i | 0 <= i < k :: s[i] == 0
    ensures Val(s) == Val(s[k..])
  {
    assert s == s[..k] + s[k..];
    ValConcat(s[..k], s[k..]);
    ValZeros(s[..k]);
  }

  lemma ValFour(a: Digit, b: Digit, c: Digit, d: Digit)
    ensures Val([a, b, c, d]) == Join(Combine(a, b), Combine(c, d))
    ensures PowB(4) == W64
  {
    assert PowB(1) == B;
    assert PowB(2) == W32;
    assert PowB(3) == B * W32;
    assert [a, b, c, d] == (([a] + [b]) + [c]) + [d];
    ValSnoc([a], b);
    ValSnoc([a] + [b], c);
    ValSnoc(([a] + [b]) + [c], d);
    assert Val([a]) == a * PowB(0) + Val([]);
  }

  /** The digits of a 64-bit number, as the unions of the source split it. */
  function Split(x: Word64): (s: seq<Digit>)
    ensures |s| == 4
  {
    [HHalf(Hi(x)), LHalf(Hi(x)), HHalf(Lo(x)), LHalf(Lo(x))]
  }

  lemma SplitVal(x: Word64)
    ensures Val(Split(x)) == x
  {
    ValFour(HHalf(Hi(x)), LHalf(Hi(x)), HHalf(Lo(x)), LHalf(Lo(x)));
  }
}
