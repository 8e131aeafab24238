/**
 Signed 64-bit multiplication, division and remainder: __muldi3 and __lmulq of muldi3.c, __divdi3 and
 __moddi3.  The multiplication follows Knuth volume 2, section 4.3.3: three half-size products
 instead of four, with the signs of the middle one kept apart.
 */
module MulDiv {
  import opened Words
  import QDivRem

  // ---------------------------------------------------------------- the three-product identity

  /** uv from high = u1*v1, the signed middle product and low = u0*v0, for any radix w. */
  lemma ThreeProducts(u1: int, u0: int, v1: int, v0: int, w: int)
    ensures (u1 * w + u0) * (v1 * w + v0)
            == (u1 * v1) * (w * w) + (u1 * v1) * w + ((u1 - u0) * (v0 - v1)) * w + (u0 * v0) * w + u0 * v0
  {
    var cross := u1 * v0 + u0 * v1;
    assert (u1 - u0) * (v0 - v1) == cross - u1 * v1 - u0 * v0 by {
      assert (u1 - u0) * (v0 - v1) == u1 * (v0 - v1) - u0 * (v0 - v1);
    }
    calc {
      (u1 * w + u0) * (v1 * w + v0);
      (u1 * w) * (v1 * w + v0) + u0 * (v1 * w + v0);
      (u1 * w) * (v1 * w) + (u1 * w) * v0 + u0 * (v1 * w) + u0 * v0;
      { assert (u1 * w) * (v1 * w) == (u1 * v1) * (w * w); }
      { assert (u1 * w) * v0 == (u1 * v0) * w; assert u0 * (v1 * w) == (u0 * v1) * w; }
      (u1 * v1) * (w * w) + (u1 * v0) * w + (u0 * v1) * w + u0 * v0;
      (u1 * v1) * (w * w) + cross * w + u0 * v0;
    }
    assert cross * w == (u1 * v1) * w + ((u1 - u0) * (v0 - v1)) * w + (u0 * v0) * w;
  }

  /** A product of two differences, computed on absolute values with the sign apart. */
  lemma SignedMiddle(x: int, y: int, ax: int, ay: int, neg: bool)
    requires ax == Abs(x) && ay == Abs(y)
    requires neg == ((x < 0) != (y < 0))
    ensures x * y == Signed(neg, ax * ay)
  {
  }

  function Abs(x: int): nat { if x < 0 then -x else x }

  function Signed(neg: bool, x: int): int { if neg then -x else x }

  // ---------------------------------------------------------------- adding with manual carries

  lemma ShiftedParts(x: Word32)
    ensures x * B == HHalf(x) * W32 + LHUp(x)
  {
    Residue32(x * B, HHalf(x), LHalf(x) * B);
  }

  lemma AddShifted(h: Word32, l: Word32, x: Word32)
    ensures var l' := U32(l + LHUp(x));
            var h' := U32(h + (HHalf(x) + (if l' < l then 1 else 0)));
            Join(h', l') == U64(Join(h, l) + x * B)
  {
    ShiftedParts(x);
    var hx: int, lx: int := HHalf(x), LHUp(x);
    hide HHalf, LHUp, U32;
    Wrap32(l + lx);
    var l' := U32(l + lx);
    var c := if l' < l then 1 else 0;
    Wrap32(h + (hx + c));
    var h' := U32(h + (hx + c));
    var e := if h + hx + c < W32 then 0 else 1;
    Residue64(h * W32 + l + (hx * W32 + lx), e, h' * W32 + l');
  }

  lemma SubShifted(h: Word32, l: Word32, x: Word32)
    ensures var l' := U32(l - LHUp(x));
            var h' := U32(h - (HHalf(x) + (if l' > l then 1 else 0)));
            Join(h', l') == U64(Join(h, l) - x * B)
  {
    ShiftedParts(x);
    var hx: int, lx: int := HHalf(x), LHUp(x);
    hide HHalf, LHUp, U32;
    Wrap32(l - lx);
    var l' := U32(l - lx);
    var c := if l' > l then 1 else 0;
    Wrap32(h - (hx + c));
    var h' := U32(h - (hx + c));
    var e := if h - hx - c < 0 then -1 else 0;
    Residue64(h * W32 + l - (hx * W32 + lx), e, h' * W32 + l');
  }

  lemma AddLow(h: Word32, l: Word32, x: Word32)
    ensures var l' := U32(l + x);
            var h' := if l' < x then U32(h + 1) else h;
            Join(h', l') == U64(Join(h, l) + x)
  {
    hide U32;
    Wrap32(l + x);
    Wrap32(h + 1);
    var l' := U32(l + x);
    var h' := if l' < x then U32(h + 1) else h;
    var e := if l' < x && h + 1 == W32 then 1 else 0;
    Residue64(h * W32 + l + x, e, h' * W32 + l');
  }

  lemma StartSum(high: Word32)
    requires high <= (B - 1) * (B - 1)
    ensures Join(U32(high + HHalf(high)), LHUp(high)) == U64(high * W32 + high * B)
  {
    ShiftedParts(high);
    Wrap32(high + HHalf(high));
    Residue64(high * W32 + high * B, 0, (high + HHalf(high)) * W32 + LHUp(high));
  }

  lemma Accumulate(a: int, b: int)
    ensures U64(U64(a) + b) == U64(a + b)
  {
    var k := a / W64;
    var x := U64(a) + b;
    Residue64(a + b, k + x / W64, U64(x));
  }

  /** __lmulq: the full 64-bit product of two 32-bit numbers out of 16-bit pieces. */
  method LMulQ(u: Word32, v: Word32) returns (prod: Word64)
    ensures prod == u * v
  {
    var u1, u0, v1, v0 := HHalf(u), LHalf(u), HHalf(v), LHalf(v);
    ProductFits(u0, v0);
    var low := Mul32(u0, v0);
    if u1 == 0 && v1 == 0 {
      return low;
    }
    var udiff, neg := if u1 >= u0 then u1 - u0 else u0 - u1, u1 < u0;
    var vdiff: Digit;
    if v0 >= v1 {
      vdiff := v0 - v1;
    } else {
      vdiff := v1 - v0;
      neg := !neg;
    }
    ProductFits(udiff, vdiff);
    var mid := Mul32(udiff, vdiff);
    ProductFits(u1, v1);
    var high := Mul32(u1, v1);
    HighBound(u1, v1);
    prod := AddProducts(high, mid, neg, low);
    Products32(u1, u0, v1, v0, udiff, vdiff, neg);
    ProductFits64(u, v);
  }

  lemma HighBound(u1: Digit, v1: Digit)
    ensures u1 * v1 <= (B - 1) * (B - 1)
  {
    MulMono(u1, B - 1, v1);
  }

  lemma Products32(u1: int, u0: int, v1: int, v0: int, udiff: int, vdiff: int, neg: bool)
    requires udiff == Abs(u1 - u0) && vdiff == Abs(v0 - v1) && neg == ((u1 < u0) != (v0 < v1))
    ensures (u1 * B + u0) * (v1 * B + v0)
            == (u1 * v1) * W32 + (u1 * v1) * B + Signed(neg, udiff * vdiff) * B + (u0 * v0) * B + u0 * v0
  {
    SignedMiddle(u1 - u0, v0 - v1, udiff, vdiff, neg);
    ThreeProducts(u1, u0, v1, v0, B);
  }

  lemma Products64(u1: int, u0: int, v1: int, v0: int, udiff: int, vdiff: int, neg: bool)
    requires udiff == Abs(u1 - u0) && vdiff == Abs(v0 - v1) && neg == ((u1 < u0) != (v0 < v1))
    ensures (u1 * W32 + u0) * (v1 * W32 + v0)
            == (u1 * v1) * W64 + (u1 * v1) * W32 + Signed(neg, udiff * vdiff) * W32 + (u0 * v0) * W32 + u0 * v0
  {
    SignedMiddle(u1 - u0, v0 - v1, udiff, vdiff, neg);
    ThreeProducts(u1, u0, v1, v0, W32);
  }

  lemma ProductFits64(u: Word32, v: Word32)
    ensures 0 <= u * v < W64 && U64(u * v) == u * v
  {
    MulMono(u, W32 - 1, v);
    MulMono(0, u, v);
    SmallWord64(u * v);
  }

  lemma SmallWord64(x: int)
    requires 0 <= x < W64
    ensures U64(x) == x
  {
  }

  /** (h, l) += x << 16, with the carry found by comparing. */
  method AddUp(h: Word32, l: Word32, x: Word32) returns (h': Word32, l': Word32)
    ensures Join(h', l') == U64(Join(h, l) + x * B)
  {
    AddShifted(h, l, x);
    l' := U32(l + LHUp(x));
    h' := U32(h + (HHalf(x) + (if l' < l then 1 else 0)));
  }

  /** (h, l) -= x << 16. */
  method SubUp(h: Word32, l: Word32, x: Word32) returns (h': Word32, l': Word32)
    ensures Join(h', l') == U64(Join(h, l) - x * B)
  {
    SubShifted(h, l, x);
    l' := U32(l - LHUp(x));
    h' := U32(h - (HHalf(x) + (if l' > l then 1 else 0)));
  }

  /** (h, l) += x, with the carry found by comparing. */
  method AddIn(h: Word32, l: Word32, x: Word32) returns (h': Word32, l': Word32)
    ensures Join(h', l') == U64(Join(h, l) + x)
  {
    AddLow(h, l, x);
    h', l' := h, U32(l + x);
    if l' < x {
      h' := U32(h + 1);
    }
  }

  /** The tail of __lmulq: assembles the three products with manual carries. */
  method AddProducts(high: Word32, mid: Word32, neg: bool, low: Word32) returns (prod: Word64)
    requires high <= (B - 1) * (B - 1)
    ensures prod == U64(high * W32 + high * B + Signed(neg, mid) * B + low * B + low)
  {
    var prodh, prodl := U32(high + HHalf(high)), LHUp(high);
    StartSum(high);
    ghost var s0 := high * W32 + high * B;
    ghost var s1 := s0 + Signed(neg, mid) * B;
    ghost var s2 := s1 + low * B;
    if neg {
      prodh, prodl := SubUp(prodh, prodl, mid);
    } else {
      prodh, prodl := AddUp(prodh, prodl, mid);
    }
    Accumulate(s0, Signed(neg, mid) * B);
    hide U32, U64, Join, HHalf, LHUp;
    assert Join(prodh, prodl) == U64(s1);
    prodh, prodl := AddUp(prodh, prodl, low);
    Accumulate(s1, low * B);
    assert Join(prodh, prodl) == U64(s2);
    prodh, prodl := AddIn(prodh, prodl, low);
    Accumulate(s2, low);
    prod := Join(prodh, prodl);
  }

  // ---------------------------------------------------------------- __muldi3

  /** The factor that only reaches the high word may be reduced to 32 bits first. */
  lemma HighWord(x: int, y: int)
    ensures U64(U32(x) * W32 + y) == U64(x * W32 + y)
  {
    var k := x / W32;
    assert x == k * W32 + U32(x);
    DropMultiple(U32(x) * W32 + y, k);
  }

  lemma DropMultiple(x: int, k: int)
    ensures U64(x + k * W64) == U64(x)
  {
    Residue64(x + k * W64, k + x / W64, U64(x));
  }

  /** The wrap-around 64-bit product of the two absolute values. */
  method MulMagnitudes(u: Word64, v: Word64) returns (prod: Word64)
    ensures prod == U64(u * v)
  {
    var u1, u0, v1, v0 := Hi(u), Lo(u), Hi(v), Lo(v);
    assert u == u1 * W32 + u0 && v == v1 * W32 + v0;
    hide Hi, Lo, U32, Mul32, U64, Neg32, Join;
    if u1 == 0 && v1 == 0 {
      prod := LMulQ(u0, v0);
      ProductFits64(u0, v0);
    } else {
      var low := LMulQ(u0, v0);
      var udiff, negmid := if u1 >= u0 then u1 - u0 else u0 - u1, u1 < u0;
      var vdiff: Word32;
      if v0 >= v1 {
        vdiff := v0 - v1;
      } else {
        vdiff := v1 - v0;
        negmid := !negmid;
      }
      var mid := Mul32(udiff, vdiff);
      var high := Mul32(u1, v1);
      var prodh := U32(high + (if negmid then Neg32(mid) else mid) + Lo(low) + Hi(low));
      HalvesProduct(u1, u0, v1, v0, udiff, vdiff, negmid, low);
      prod := Join(prodh, Lo(low));
    }
  }

  lemma HalvesProduct(u1: int, u0: int, v1: int, v0: int, udiff: int, vdiff: int, neg: bool, low: Word64)
    requires udiff == Abs(u1 - u0) && vdiff == Abs(v0 - v1) && neg == ((u1 < u0) != (v0 < v1))
    requires low == u0 * v0
    ensures var mid := Mul32(udiff, vdiff);
            var prodh := U32(Mul32(u1, v1) + (if neg then Neg32(mid) else mid) + Lo(low) + Hi(low));
            Join(prodh, Lo(low)) == U64((u1 * W32 + u0) * (v1 * W32 + v0))
  {
    Products64(u1, u0, v1, v0, udiff, vdiff, neg);
    hide U32, U64, Neg32, Lo, Hi, Join, Signed, Abs;
    AssembleHigh(u1 * v1, udiff * vdiff, neg, low);
  }

  lemma AssembleHigh(h: int, m: int, neg: bool, low: Word64)
    ensures var prodh := U32(U32(h) + (if neg then Neg32(U32(m)) else U32(m)) + Lo(low) + Hi(low));
            Join(prodh, Lo(low))
            == U64(h * W64 + h * W32 + Signed(neg, m) * W32 + low * W32 + low)
  {
    var s, m' := Signed(neg, m), if neg then Neg32(U32(m)) else U32(m);
    assert exists i :: m' == s + i * W32 by {
      assert m' == s + (if neg then U32(m) / W32 + m / W32 + (m' + U32(m)) / W32 else -(m / W32)) * W32;
    }
    var i :| m' == s + i * W32;
    var x := h + s + Lo(low) + Hi(low);
    var y := U32(h) + m' + Lo(low) + Hi(low);
    assert y == x + (i - h / W32) * W32;
    Residue32(y, i - h / W32 + x / W32, U32(x));
    HighWord(x, Lo(low));
    DropMultiple(x * W32 + Lo(low), h + Hi(low));
    SmallWord64(U32(x) * W32 + Lo(low));
  }

  lemma SignedWrap(p: int, neg: bool)
    ensures S64(if neg then Neg64(U64(p)) else U64(p)) == S64(Signed(neg, p))
  {
    if neg {
      NegWrap(p);
    }
  }

  lemma NegWrap(p: int)
    ensures Neg64(U64(p)) == U64(-p)
  {
    var k := p / W64;
    assert p == k * W64 + U64(p);
    DropMultiple(-p, k);
  }

  lemma Magnitude(a: Signed64)
    ensures a >= 0 ==> U64(a) == Abs(a)
    ensures a < 0 ==> Neg64(a) == Abs(a) && Neg64(U64(a)) == Abs(a)
  {
    if a < 0 {
      Residue64(Signed(true, a), 0, Abs(a));
      NegWrap(a);
    }
  }

  /** __muldi3: the product modulo 2^64, for every pair including the most negative number. */
  method MulDi3(a: Signed64, b: Signed64) returns (r: Signed64)
    ensures r == S64(a * b)
  {
    hide U64, Neg64, S64, Abs;
    Magnitude(a);
    Magnitude(b);
    var u := if a >= 0 then U64(a) else Neg64(a);
    var v := if b >= 0 then U64(b) else Neg64(b);
    var negall := (a < 0) != (b < 0);
    var prod := MulMagnitudes(u, v);
    SignedMiddle(a, b, u, v, negall);
    SignedWrap(u * v, negall);
    r := S64(if negall then Neg64(prod) else prod);
  }

  // ---------------------------------------------------------------- __divdi3 and __moddi3

  /** Division that truncates toward zero, as section 6.5.5 of C99 asks. */
  function TruncDiv(a: int, b: int): int
    requires b != 0
  {
    if (a < 0) == (b < 0) then Abs(a) / Abs(b) else -(Abs(a) / Abs(b))
  }

  function TruncRem(a: int, b: int): int
    requires b != 0
  {
    if a < 0 then -(Abs(a) % Abs(b)) else Abs(a) % Abs(b)
  }

  /** Quotient and remainder give the dividend back; the remainder has its sign and is below |b|. */
  lemma TruncIdentity(a: int, b: int)
    requires b != 0
    ensures TruncDiv(a, b) * b + TruncRem(a, b) == a
    ensures Abs(TruncRem(a, b)) < Abs(b)
    ensures TruncRem(a, b) != 0 ==> (TruncRem(a, b) < 0 <==> a < 0)
  {
    var q, r := Abs(a) / Abs(b), Abs(a) % Abs(b);
    assert Abs(a) == q * Abs(b) + r;
    assert (-q) * b == -(q * b) && q * (-b) == -(q * b);
  }

  /** No other pair does: truncation toward zero is the only division of this kind. */
  lemma TruncUnique(a: int, b: int, q: int, r: int)
    requires b != 0 && q * b + r == a && Abs(r) < Abs(b)
    requires r != 0 ==> (r < 0 <==> a < 0)
    ensures q == TruncDiv(a, b) && r == TruncRem(a, b)
  {
    TruncIdentity(a, b);
    var q', r' := TruncDiv(a, b), TruncRem(a, b);
    hide TruncDiv, TruncRem;
    assert (q - q') * b == r' - r by {
      assert (q - q') * b == q * b - q' * b;
    }
    NoMultiple(q - q', b, r' - r);
  }

  lemma NoMultiple(k: int, b: int, e: int)
    requires b != 0 && k * b == e && Abs(e) < Abs(b)
    ensures k == 0 && e == 0
  {
    SignedMiddle(k, b, Abs(k), Abs(b), (k < 0) != (b < 0));
    if k != 0 {
      MulMono(1, Abs(k), Abs(b));
    }
  }

  lemma QuotientWrap(neg: bool, uq: Word64)
    ensures S64(if neg then Neg64(uq) else uq) == S64(Signed(neg, uq))
  {
    SmallWord64(uq);
    SignedWrap(uq, neg);
  }

  lemma TruncSigned(a: int, b: int)
    requires b != 0
    ensures TruncDiv(a, b) == Signed((a < 0) != (b < 0), Abs(a) / Abs(b))
    ensures TruncRem(a, b) == Signed(a < 0, Abs(a) % Abs(b))
  {
  }

  /** __divdi3. */
  method DivDi3(a: Signed64, b: Signed64) returns (trap: bool, q: Signed64)
    ensures trap <==> b == 0
    ensures !trap ==> q == S64(TruncDiv(a, b))
  {
    Magnitude(a);
    Magnitude(b);
    hide U64, Neg64, S64, TruncDiv;
    var ua, ub, neg := U64(a), U64(b), false;
    if a < 0 {
      ua := Neg64(ua);
      neg := !neg;
    }
    if b < 0 {
      ub := Neg64(ub);
      neg := !neg;
    }
    var uq, ur: Word64;
    trap, uq, ur := QDivRem.QDivRem(ua, ub, false);
    if !trap {
      TruncSigned(a, b);
      QuotientWrap(neg, uq);
    }
    if neg {
      uq := Neg64(uq);
    }
    q := S64(uq);
  }

  /** __moddi3. */
  method ModDi3(a: Signed64, b: Signed64) returns (trap: bool, r: Signed64)
    ensures trap <==> b == 0
    ensures !trap ==> r == TruncRem(a, b)
  {
    Magnitude(a);
    Magnitude(b);
    hide U64, Neg64, S64, TruncRem;
    var ua, ub, neg := U64(a), U64(b), false;
    if a < 0 {
      ua := Neg64(ua);
      neg := !neg;
    }
    if b < 0 {
      ub := Neg64(ub);
    }
    var uq, ur: Word64;
    trap, uq, ur := QDivRem.QDivRem(ua, ub, true);
    if !trap {
      TruncSigned(a, b);
      QuotientWrap(neg, ur);
      RemainderFits(neg, Abs(a), Abs(b));
    }
    if neg {
      ur := Neg64(ur);
    }
    r := S64(ur);
  }

  lemma RemainderFits(neg: bool, x: int, y: int)
    requires 0 <= x && 0 < y <= W63
    ensures S64(Signed(neg, x % y)) == Signed(neg, x % y)
  {
    SmallSigned(Signed(neg, x % y));
  }

  lemma SmallSigned(x: int)
    requires -W63 <= x < W63
    ensures S64(x) == x
  {
    if x < 0 {
      Residue64(x, -1, x + W64);
    }
  }

  /** The law of C99 on the values that the two functions return, in 64-bit arithmetic. */
  lemma DivModLaw(a: Signed64, b: Signed64)
    requires b != 0
    ensures S64(S64(TruncDiv(a, b)) * b + TruncRem(a, b)) == a
  {
    TruncIdentity(a, b);
    var q := TruncDiv(a, b);
    hide TruncDiv, TruncRem;
    var k := SignedResidue(q);
    hide S64, U64;
    ShiftedQuotient(q, k, b);
    SameSigned(a, k * b);
    SmallSigned(a);
  }

  lemma ShiftedQuotient(q: int, k: int, b: int)
    ensures (q + k * W64) * b == q * b + (k * b) * W64
  {
  }

  lemma SameSigned(x: int, k: int)
    ensures S64(x + k * W64) == S64(x)
  {
    DropMultiple(x, k);
  }

  lemma SignedResidue(x: int) returns (k: int)
    ensures S64(x) == x + k * W64
  {
    k := if U64(x) < W63 then -(x / W64) else -(x / W64) - 1;
  }

  /** The 64-bit quotient is the true one except for the most negative number over -1. */
  lemma QuotientOverflow(a: Signed64, b: Signed64)
    requires b != 0
    ensures S64(TruncDiv(a, b)) == TruncDiv(a, b) <==> !(a == -W63 && b == -1)
  {
    QuotientSmaller(Abs(a), Abs(b));
    TruncSigned(a, b);
    if a == -W63 && b == -1 {
      assert TruncDiv(a, b) == W63;
    } else {
      assert -W63 <= TruncDiv(a, b) < W63;
      SmallSigned(TruncDiv(a, b));
    }
  }

  lemma QuotientSmaller(x: nat, y: nat)
    requires y > 0
    ensures x / y <= x && (y >= 2 && x > 0 ==> x / y < x)
  {
    var q := x / y;
    assert x == q * y + x % y;
    MulMono(1, y, q);
    if y >= 2 {
      MulMono(2, y, q);
    }
  }
}
