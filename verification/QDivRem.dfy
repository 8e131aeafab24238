/**
 The 64-by-64 bit division of src/common/gcc-millicode/qdivrem.c: Knuth's Algorithm D (volume 2,
 section 4.3.1) on arrays of 16-bit digits.  The arrays have five slots and are used from a moving
 base, as the source does by bumping its pointers.
 */
module QDivRem {
  import opened Words
  import opened Digits

  // ---------------------------------------------------------------- arithmetic of one round

  /** The three leading dividend digits against the two leading divisor digits. */
  ghost predicate IsTrialDigit(qhat: int, u3: int, v2: int) {
    && 0 <= qhat < B
    && qhat * v2 <= u3
    && (qhat == B - 1 || u3 < (qhat + 1) * v2)
  }

  /**
   D3 is right or one too large: if u = u3*k + (something below k) and v = v2*k + (something below
   k) with u < v*B, then the true quotient digit is qhat or qhat - 1.
   */
  lemma TrialDigitError(u: int, v: int, u3: int, v2: int, k: int, qhat: int)
    requires 0 < k && B <= v2
    requires u3 * k <= u < (u3 + 1) * k
    requires v2 * k <= v < (v2 + 1) * k
    requires u < v * B
    requires IsTrialDigit(qhat, u3, v2)
    ensures u < qhat * v + v
    ensures qhat > 0 ==> qhat * v - v <= u
  {
    assert (qhat + 1) * v == qhat * v + v;
    assert (qhat - 1) * v == qhat * v - v;
    if qhat < B - 1 {
      MulMono(u3 + 1, (qhat + 1) * v2, k);
      assert (qhat + 1) * v2 * k == (qhat + 1) * (v2 * k);
      MulMono(v2 * k, v, qhat + 1);
    } else {
      assert (qhat + 1) * v == v * B;
    }
    if qhat > 0 {
      MulMono(v, (v2 + 1) * k, qhat - 1);
      assert ((v2 + 1) * k) * (qhat - 1) == (qhat * v2 - v2 + qhat - 1) * k;
      MulMono(qhat * v2 - v2 + qhat - 1, u3, k);
    }
  }

  /** The 32-bit word that D4 computes for one digit; it wraps when the difference is negative. */
  function SubtractWord(u: Digit, v: Digit, qhat: int, t: int): Word32 {
    U32(u - v * qhat - t)
  }

  function Borrow(w: Word32): Digit {
    (B - HHalf(w)) % B
  }

  /** The wrapped word splits into a digit and a borrow; nothing is lost. */
  lemma SubtractDigit(u: Digit, v: Digit, qhat: int, t: int)
    requires 0 <= qhat < B && 0 <= t < B
    ensures var w := SubtractWord(u, v, qhat, t); LHalf(w) - Borrow(w) * B == u - v * qhat - t
  {
    MulMono(v, B - 1, qhat);
    MulMono(0, v, qhat);
    WrapDifference(u, v * qhat, t);
  }

  lemma WrapDifference(u: Digit, prod: int, t: int)
    requires 0 <= prod <= (B - 1) * (B - 1) && 0 <= t < B
    ensures var w := U32(u - prod - t); LHalf(w) - Borrow(w) * B == u - prod - t
  {
    var x := u - prod - t;
    if x >= 0 {
      assert U32(x) == x;
    } else {
      assert U32(x) == x + W32;
    }
  }

  lemma SubtractDigitVal(u: int, v: int, q: int, t: int, t': int, d: int, p: int, tailU: int, tailV: int, tail: int)
    requires d - t' * B == u - v * q - t
    requires tail == tailU - q * tailV + t * p
    ensures d * p + tail == (u * p + tailU) - q * (v * p + tailV) + t' * (B * p)
  {
    calc {
      d * p + tail;
      (u - v * q - t + t' * B) * p + tail;
      u * p - (v * q) * p - t * p + (t' * B) * p + tail;
      { assert (v * q) * p == q * (v * p); assert (t' * B) * p == t' * (B * p); }
      u * p - q * (v * p) + t' * (B * p) + tailU - q * tailV;
      { assert q * (v * p + tailV) == q * (v * p) + q * tailV; }
      (u * p + tailU) - q * (v * p + tailV) + t' * (B * p);
    }
  }

  lemma AddDigitVal(u: int, v: int, t: int, t': int, d: int, p: int, tailU: int, tailV: int, tail: int)
    requires d + t' * B == u + v + t
    requires tail == tailU + tailV - t * p
    ensures d * p + tail == (u * p + tailU) + (v * p + tailV) - t' * (B * p)
  {
    assert (t' * B) * p == t' * (B * p);
    assert (u + v + t - t' * B) * p == u * p + v * p + t * p - (t' * B) * p;
  }

  /** Growing the window u[lo..hi] one digit to the left. */
  lemma ValGrow(s: seq<Digit>, lo: nat, hi: nat)
    requires lo < hi <= |s|
    ensures Val(s[lo..hi]) == s[lo] * PowB(hi - lo - 1) + Val(s[lo + 1..hi])
  {
    assert s[lo..hi][1..] == s[lo + 1..hi];
  }

  // ---------------------------------------------------------------- the steps of the algorithm

  /** A candidate for D3: q and r split nn = u[j]*B + u[j+1], and no digit above q will do. */
  ghost predicate Candidate(q: int, r: int, nn: int, uj2: int, v1: int, v2: int) {
    && 0 <= q < B && 0 <= r
    && q * v1 + r == nn
    && (q == B - 1 || nn * B + uj2 < (q + 1) * (v1 * B + v2))
  }

  lemma CandidateRest(q: int, r: int, nn: int, uj2: int, v1: int, v2: int)
    requires q * v1 + r == nn
    ensures nn * B + uj2 - q * (v1 * B + v2) == r * B + uj2 - q * v2
  {
    assert q * (v1 * B + v2) == (q * v1) * B + q * v2;
  }

  lemma CandidateEqual(uj1: Digit, uj2: Digit, v1: Digit, v2: Digit)
    ensures Candidate(B - 1, uj1 + v1, v1 * B + uj1, uj2, v1, v2)
  {
  }

  lemma CandidateLess(uj0: Digit, uj1: Digit, uj2: Digit, v1: Digit, v2: Digit)
    requires uj0 < v1
    ensures var nn := uj0 * B + uj1; Candidate(nn / v1, nn % v1, nn, uj2, v1, v2) && nn % v1 < v1
  {
    var nn := uj0 * B + uj1;
    QuotientBound(nn, v1);
    var q := nn / v1;
    MulMono(nn + 1, (q + 1) * v1, B);
    assert (q + 1) * (v1 * B + v2) == ((q + 1) * v1) * B + (q + 1) * v2;
    MulMono(0, q + 1, v2);
  }

  lemma CandidateNext(q: int, r: int, nn: int, uj2: int, v1: int, v2: int)
    requires Candidate(q, r, nn, uj2, v1, v2) && 0 <= v1 && 0 <= uj2
    requires v2 * q > r * B + uj2
    ensures q > 0 && Candidate(q - 1, r + v1, nn, uj2, v1, v2)
  {
    CandidateRest(q, r, nn, uj2, v1, v2);
    assert (q - 1) * v1 == q * v1 - v1;
  }

  lemma CandidateDone(q: int, r: int, nn: int, uj2: int, v1: int, v2: Digit)
    requires Candidate(q, r, nn, uj2, v1, v2) && 0 <= uj2
    requires r >= B || v2 * q <= r * B + uj2
    ensures IsTrialDigit(q, nn * B + uj2, v1 * B + v2)
  {
    CandidateRest(q, r, nn, uj2, v1, v2);
    ProductFits(v2, q);
  }

  /** D3, including the jump into the loop body when the leading digits are equal. */
  method TrialDigit(uj0: Digit, uj1: Digit, uj2: Digit, v1: Digit, v2: Digit) returns (qhat: int)
    requires B / 2 <= v1 && uj0 <= v1
    ensures 0 <= qhat < B
    ensures IsTrialDigit(qhat, (uj0 * B + uj1) * B + uj2, v1 * B + v2)
  {
    hide Candidate, IsTrialDigit;
    ghost var nn0 := uj0 * B + uj1;
    var rhat: int;
    if uj0 == v1 {
      qhat := B - 1;
      rhat := uj1 + v1;
      CandidateEqual(uj1, uj2, v1, v2);
      if rhat >= B {
        CandidateDone(qhat, rhat, nn0, uj2, v1, v2);
        return;
      }
    } else {
      var nn := Combine(uj0, uj1);
      CandidateLess(uj0, uj1, uj2, v1, v2);
      qhat := nn / v1;
      rhat := nn % v1;
    }
    CandidateRange(qhat, rhat, nn0, uj2, v1, v2);
    while Mul32(v2, qhat) > Combine(rhat, uj2)
      invariant 0 <= qhat < B && 0 <= rhat < B
      invariant Candidate(qhat, rhat, nn0, uj2, v1, v2)
      decreases qhat
    {
      ProductFits(v2, qhat);
      CandidateNext(qhat, rhat, nn0, uj2, v1, v2);
      qhat := qhat - 1;
      rhat := rhat + v1;
      if rhat >= B {
        CandidateDone(qhat, rhat, nn0, uj2, v1, v2);
        return;
      }
    }
    ProductFits(v2, qhat);
    CandidateDone(qhat, rhat, nn0, uj2, v1, v2);
  }

  lemma CandidateRange(q: int, r: int, nn: int, uj2: int, v1: int, v2: int)
    requires Candidate(q, r, nn, uj2, v1, v2)
    ensures 0 <= q < B && 0 <= r
  {
  }

  lemma QuotientBound(nn: int, v: int)
    requires 0 < v && 0 <= nn < v * B
    ensures 0 <= nn / v < B && nn == (nn / v) * v + nn % v && nn < (nn / v + 1) * v
  {
    var q := nn / v;
    if q >= B {
      MulMono(B, q, v);
    }
  }

  /** Window u[p..p+n] of one round, the n+1 digits that D4 to D6 work on. */
  ghost function Window(u: seq<Digit>, p: nat, n: nat): seq<Digit>
    requires p + n < |u|
  {
    u[p..p + n + 1]
  }

  ghost predicate SameOutside(u: seq<Digit>, u0: seq<Digit>, lo: nat, hi: nat) {
    && |u| == |u0|
    && forall k | 0 <= k < |u| && !(lo <= k < hi) :: u[k] == u0[k]
  }

  /** The digits right of i are already those of u0 - qhat*v, up to the pending borrow. */
  ghost predicate Subtracted(u: seq<Digit>, u0: seq<Digit>, v: seq<Digit>, p: nat, r: nat, n: nat, i: nat,
                             qhat: int, borrow: int)
  {
    && i <= n && p + n < |u| && r + n < |v|
    && SameOutside(u, u0, p + i + 1, p + n + 1)
    && Val(u[p + i + 1..p + n + 1])
       == Val(u0[p + i + 1..p + n + 1]) - qhat * Val(v[r + i + 1..r + n + 1]) + borrow * PowB(n - i)
  }

  /** The result of D4 and its borrow test: a borrow happens exactly when qhat*v exceeds the window. */
  ghost predicate SubtractedWindow(u: seq<Digit>, u0: seq<Digit>, v: seq<Digit>, p: nat, n: nat, qhat: int,
      borrowed: bool)
    requires p + n < |u|
  {
    && SameOutside(u, u0, p, p + n + 1)
    && Val(Window(u, p, n)) == Val(Window(u0, p, n)) - qhat * Val(v) + (if borrowed then PowB(n + 1) else 0)
    && (borrowed <==> Val(Window(u0, p, n)) < qhat * Val(v))
  }

  lemma SubtractStep(u: seq<Digit>, u0: seq<Digit>, v: seq<Digit>, p: nat, r: nat, n: nat, i: nat,
                     qhat: int, borrow: int)
    requires 0 <= qhat < B && 0 <= borrow < B
    requires Subtracted(u, u0, v, p, r, n, i, qhat, borrow)
    requires i > 0
    ensures var w := SubtractWord(u[p + i], v[r + i], qhat, borrow);
            Subtracted(u[p + i := LHalf(w)], u0, v, p, r, n, i - 1, qhat, Borrow(w))
  {
    var w := SubtractWord(u[p + i], v[r + i], qhat, borrow);
    var u' := u[p + i := LHalf(w)];
    SubtractDigit(u[p + i], v[r + i], qhat, borrow);
    assert u'[p + i + 1..p + n + 1] == u[p + i + 1..p + n + 1];
    ValGrow(u', p + i, p + n + 1);
    ValGrow(u0, p + i, p + n + 1);
    ValGrow(v, r + i, r + n + 1);
    SubtractDigitVal(u[p + i], v[r + i], qhat, borrow, Borrow(w), LHalf(w), PowB(n - i),
                     Val(u0[p + i + 1..p + n + 1]), Val(v[r + i + 1..r + n + 1]), Val(u[p + i + 1..p + n + 1]));
  }

  lemma SubtractTopVal(u: seq<Digit>, u0: seq<Digit>, v: seq<Digit>, p: nat, r: nat, n: nat, qhat: int, borrow: int,
                       d: Digit, c: int)
    requires Subtracted(u, u0, v, p, r, n, 0, qhat, borrow)
    requires d - c * B == u[p] - borrow
    ensures Val(Window(u[p := d], p, n))
            == Val(Window(u0, p, n)) - qhat * Val(v[r + 1..r + n + 1]) + c * PowB(n + 1)
  {
    var u' := u[p := d];
    assert u'[p + 1..p + n + 1] == u[p + 1..p + n + 1];
    ValGrow(u', p, p + n + 1);
    ValGrow(u0, p, p + n + 1);
    TopBorrow(d, u[p], borrow, c, PowB(n));
  }

  lemma WrapTop(x: Digit, borrow: Digit)
    ensures var t := U32(x - borrow);
            && (HHalf(t) != 0 <==> x < borrow)
            && LHalf(t) - (if x < borrow then 1 else 0) * B == x - borrow
  {
    if x < borrow {
      assert U32(x - borrow) == x - borrow + W32;
    } else {
      assert U32(x - borrow) == x - borrow;
    }
  }

  lemma SubtractTop(u: seq<Digit>, u0: seq<Digit>, v: seq<Digit>, p: nat, r: nat, n: nat, qhat: int, borrow: Digit)
    requires Subtracted(u, u0, v, p, r, n, 0, qhat, borrow)
    ensures var t := U32(u[p] - borrow);
            SubtractedWindow(u[p := LHalf(t)], u0, v[r + 1..r + n + 1], p, n, qhat, HHalf(t) != 0)
  {
    WrapTop(u[p], borrow);
    var d := LHalf(U32(u[p] - borrow));
    ValBound(Window(u[p := d], p, n));
    if u[p] < borrow {
      SubtractTopVal(u, u0, v, p, r, n, qhat, borrow, d, 1);
    } else {
      SubtractTopVal(u, u0, v, p, r, n, qhat, borrow, d, 0);
    }
  }

  lemma TopBorrow(d: int, u: int, borrow: int, c: int, p: int)
    requires d - c * B == u - borrow
    ensures d * p == u * p - borrow * p + c * (B * p)
  {
    assert (u - borrow + c * B) * p == u * p - borrow * p + (c * B) * p;
    assert (c * B) * p == c * (B * p);
  }

  /** D4: u[p..p+n] -= qhat * v[r+1..r+n], modulo B^(n+1).  The high half of t tells of a borrow. */
  method MultiplySubtract(u: array<Digit>, p: nat, v: array<Digit>, r: nat, n: nat, qhat: int) returns (t: Word32)
    requires u != v && p + n < u.Length && r + n < v.Length
    requires 0 <= qhat < B
    modifies u
    ensures SubtractedWindow(u[..], old(u[..]), v[r + 1..r + n + 1], p, n, qhat, HHalf(t) != 0)
  {
    ghost var u0 := u[..];
    ghost var v0 := v[..];
    t := 0;
    var i := n;
    assert Subtracted(u0, u0, v0, p, r, n, n, qhat, 0) by {
      assert u0[p + n + 1..p + n + 1] == [] && v0[r + n + 1..r + n + 1] == [];
    }
    hide Subtracted, SubtractedWindow, SubtractWord;
    while i > 0
      invariant 0 <= i <= n && t < B && v[..] == v0
      invariant Subtracted(u[..], u0, v0, p, r, n, i, qhat, t)
    {
      var w := SubtractWord(u[p + i], v[r + i], qhat, t);
      ghost var before := u[..];
      SubtractStep(before, u0, v0, p, r, n, i, qhat, t);
      u[p + i] := LHalf(w);
      assert u[..] == before[p + i := LHalf(w)];
      t := Borrow(w);
      i := i - 1;
    }
    ghost var before := u[..];
    SubtractTop(before, u0, v0, p, r, n, qhat, t);
    t := U32(u[p] - t);
    u[p] := LHalf(t);
    assert u[..] == before[p := LHalf(t)];
    assert v[r + 1..r + n + 1] == v0[r + 1..r + n + 1];
  }

  ghost predicate Added(u: seq<Digit>, u0: seq<Digit>, v: seq<Digit>, p: nat, r: nat, n: nat, i: nat, carry: int)
  {
    && i <= n && p + n < |u| && r + n < |v|
    && SameOutside(u, u0, p + i + 1, p + n + 1)
    && Val(u[p + i + 1..p + n + 1])
       == Val(u0[p + i + 1..p + n + 1]) + Val(v[r + i + 1..r + n + 1]) - carry * PowB(n - i)
    && 0 <= carry <= 1
  }

  lemma AddStep(u: seq<Digit>, u0: seq<Digit>, v: seq<Digit>, p: nat, r: nat, n: nat, i: nat, carry: int)
    requires Added(u, u0, v, p, r, n, i, carry)
    requires i > 0
    ensures var w := U32(carry + u[p + i] + v[r + i]);
            Added(u[p + i := LHalf(w)], u0, v, p, r, n, i - 1, HHalf(w)) && HHalf(w) <= 1
  {
    var w := U32(carry + u[p + i] + v[r + i]);
    var u' := u[p + i := LHalf(w)];
    assert u'[p + i + 1..p + n + 1] == u[p + i + 1..p + n + 1];
    ValGrow(u', p + i, p + n + 1);
    ValGrow(u0, p + i, p + n + 1);
    ValGrow(v, r + i, r + n + 1);
    AddDigitVal(u[p + i], v[r + i], carry, HHalf(w), LHalf(w), PowB(n - i),
                Val(u0[p + i + 1..p + n + 1]), Val(v[r + i + 1..r + n + 1]), Val(u[p + i + 1..p + n + 1]));
  }

  /** The result of D6: the sum, less the carry that cancels the borrow of D4. */
  ghost predicate AddedWindow(u: seq<Digit>, u0: seq<Digit>, v: seq<Digit>, p: nat, n: nat)
    requires p + n < |u|
  {
    && SameOutside(u, u0, p, p + n + 1)
    && var sum := Val(Window(u0, p, n)) + Val(v);
       Val(Window(u, p, n)) == sum || Val(Window(u, p, n)) == sum - PowB(n + 1)
  }

  lemma AddTopVal(u: seq<Digit>, u0: seq<Digit>, v: seq<Digit>, p: nat, r: nat, n: nat, carry: int, d: Digit, c: int)
    requires Added(u, u0, v, p, r, n, 0, carry)
    requires d + c * B == u[p] + carry
    ensures Val(Window(u[p := d], p, n)) == Val(Window(u0, p, n)) + Val(v[r + 1..r + n + 1]) - c * PowB(n + 1)
    ensures SameOutside(u[p := d], u0, p, p + n + 1)
  {
    var u' := u[p := d];
    assert u'[p + 1..p + n + 1] == u[p + 1..p + n + 1];
    ValGrow(u', p, p + n + 1);
    ValGrow(u0, p, p + n + 1);
    TopCarry(d, u[p], carry, c, PowB(n));
  }

  lemma AddTop(u: seq<Digit>, u0: seq<Digit>, v: seq<Digit>, p: nat, r: nat, n: nat, carry: int)
    requires p + n < |u| && r + n < |v| && |u| == |u0| && 0 <= carry <= 1
    requires Added(u, u0, v, p, r, n, 0, carry)
    ensures AddedWindow(u[p := LHalf(U32(u[p] + carry))], u0, v[r + 1..r + n + 1], p, n)
  {
    hide Added, Val, Window;
    var d := LHalf(U32(u[p] + carry));
    if u[p] + carry < B {
      AddTopVal(u, u0, v, p, r, n, carry, d, 0);
    } else {
      AddTopVal(u, u0, v, p, r, n, carry, d, 1);
    }
  }

  lemma TopCarry(d: int, u: int, t: int, c: int, p: int)
    requires d + c * B == u + t
    ensures d * p == u * p + t * p - c * (B * p)
  {
    assert (u + t - c * B) * p == u * p + t * p - (c * B) * p;
    assert (c * B) * p == c * (B * p);
  }

  /** D6: u[p..p+n] += v[r+1..r+n], modulo B^(n+1). */
  method AddBack(u: array<Digit>, p: nat, v: array<Digit>, r: nat, n: nat)
    requires u != v && p + n < u.Length && r + n < v.Length
    modifies u
    ensures AddedWindow(u[..], old(u[..]), v[r + 1..r + n + 1], p, n)
  {
    ghost var u0 := u[..];
    ghost var v0 := v[..];
    var t: Word32 := 0;
    var i := n;
    assert Added(u0, u0, v0, p, r, n, n, 0) by {
      assert u0[p + n + 1..p + n + 1] == [] && v0[r + n + 1..r + n + 1] == [];
    }
    hide Added, AddedWindow;
    while i > 0
      invariant 0 <= i <= n && v[..] == v0 && t <= 1
      invariant Added(u[..], u0, v0, p, r, n, i, t)
    {
      var w := U32(t + u[p + i] + v[r + i]);
      ghost var before := u[..];
      AddStep(before, u0, v0, p, r, n, i, t);
      u[p + i] := LHalf(w);
      assert u[..] == before[p + i := LHalf(w)];
      t := HHalf(w);
      i := i - 1;
    }
    ghost var before := u[..];
    AddTop(before, u0, v0, p, r, n, t);
    u[p] := LHalf(U32(u[p] + t));
    assert u[..] == before[p := u[p]];
    assert v[r + 1..r + n + 1] == v0[r + 1..r + n + 1];
  }

  /** A digit string lies between its leading digits and their successor, scaled. */
  lemma Leading(s: seq<Digit>, k: nat)
    requires k <= |s|
    ensures Val(s[..k]) * PowB(|s| - k) <= Val(s) < (Val(s[..k]) + 1) * PowB(|s| - k)
  {
    assert s == s[..k] + s[k..];
    ValConcat(s[..k], s[k..]);
    ValBound(s[k..]);
  }

  lemma LeadingOne(s: seq<Digit>)
    requires |s| >= 1
    ensures s[0] * PowB(|s| - 1) <= Val(s) < (s[0] + 1) * PowB(|s| - 1)
  {
    Leading(s, 1);
    ValCons(s[0], []);
    assert s[..1] == [s[0]] + [];
  }

  ghost function Lead2(s: seq<Digit>): int
    requires |s| >= 2
  {
    s[0] * B + s[1]
  }

  ghost function Lead3(s: seq<Digit>): int
    requires |s| >= 3
  {
    (s[0] * B + s[1]) * B + s[2]
  }

  lemma LeadingTwo(s: seq<Digit>)
    requires |s| >= 2
    ensures Lead2(s) * PowB(|s| - 2) <= Val(s) < (Lead2(s) + 1) * PowB(|s| - 2)
  {
    Leading(s, 2);
    ValCons(s[0], []);
    ValSnoc([s[0]], s[1]);
    assert s[..2] == [s[0]] + [s[1]];
    assert [s[0]] == [s[0]] + [];
  }

  lemma ValThree(a: Digit, b: Digit, c: Digit)
    ensures Val([a, b, c]) == (a * B + b) * B + c
  {
    ValCons(a, []);
    assert [a] == [a] + [];
    ValSnoc([a], b);
    assert [a, b] == [a] + [b];
    ValSnoc([a, b], c);
    assert [a, b, c] == [a, b] + [c];
  }

  lemma LeadingThree(s: seq<Digit>)
    requires |s| >= 3
    ensures Lead3(s) * PowB(|s| - 3) <= Val(s) < (Lead3(s) + 1) * PowB(|s| - 3)
  {
    assert Val(s[..3]) == Lead3(s) by {
      ValThree(s[0], s[1], s[2]);
      assert s[..3] == [s[0], s[1], s[2]];
    }
    hide Lead3, Val, PowB;
    Leading(s, 3);
  }

  lemma CompareScaled(a: int, b: int, p: int)
    requires 0 < p && a * p < b * p
    ensures a < b
  {
    if b <= a {
      MulMono(b, a, p);
    }
  }

  /** What D3 needs to know about the window and the divisor. */
  lemma RoundBelow(w: seq<Digit>, v: seq<Digit>)
    requires |w| == |v| + 1
    requires Val(w[..|v|]) < Val(v)
    ensures Val(w) < Val(v) * B
  {
    var n := |v|;
    assert w == w[..n] + [w[n]];
    ValSnoc(w[..n], w[n]);
  }

  lemma RoundLeading(w: seq<Digit>, v: seq<Digit>)
    requires |v| >= 1 && |w| == |v|
    requires Val(w) < Val(v)
    ensures w[0] <= v[0]
  {
    LeadingOne(w);
    LeadingOne(v);
    var top: int := v[0];
    CompareScaled(w[0], top + 1, PowB(|v| - 1));
  }

  lemma RoundTrial(w: seq<Digit>, v: seq<Digit>, qhat: int)
    requires |v| >= 2 && |w| == |v| + 1 && B / 2 <= v[0]
    requires Val(w[..|v|]) < Val(v)
    requires IsTrialDigit(qhat, Lead3(w), Lead2(v))
    ensures Val(w) < qhat * Val(v) + Val(v)
    ensures qhat > 0 ==> qhat * Val(v) - Val(v) <= Val(w)
  {
    assert B <= Lead2(v);
    hide Lead2, Lead3, Val, PowB, IsTrialDigit;
    RoundBelow(w, v);
    LeadingThree(w);
    LeadingTwo(v);
    TrialDigitError(Val(w), Val(v), Lead3(w), Lead2(v), PowB(|v| - 2), qhat);
  }

  ghost predicate RoundResult(us: seq<Digit>, us': seq<Digit>, p: nat, n: nat, v: int, q: Digit)
    requires p + n < |us| && p + n < |us'|
  {
    && SameOutside(us', us, p, p + n + 1)
    && Val(Window(us', p, n)) == Val(Window(us, p, n)) - q * v
    && Val(Window(us', p, n)) < v
  }

  lemma ExactTrial(u0: seq<Digit>, u1: seq<Digit>, v: seq<Digit>, p: nat, n: nat, qhat: Digit)
    requires p + n < |u0| && p + n < |u1|
    requires SubtractedWindow(u1, u0, v, p, n, qhat, false)
    requires Val(Window(u0, p, n)) < qhat * Val(v) + Val(v)
    ensures RoundResult(u0, u1, p, n, Val(v), qhat)
  {
  }

  lemma CorrectedTrial(u0: seq<Digit>, u1: seq<Digit>, u2: seq<Digit>, v: seq<Digit>, p: nat, n: nat, qhat: Digit)
    requires p + n < |u0| && p + n < |u1| && p + n < |u2|
    requires SubtractedWindow(u1, u0, v, p, n, qhat, true)
    requires AddedWindow(u2, u1, v, p, n)
    requires qhat > 0 ==> qhat * Val(v) - Val(v) <= Val(Window(u0, p, n))
    ensures qhat > 0 && RoundResult(u0, u2, p, n, Val(v), qhat - 1)
  {
    ValBound(Window(u2, p, n));
    CorrectedVal(Val(Window(u0, p, n)), Val(Window(u1, p, n)), Val(Window(u2, p, n)), qhat, Val(v), PowB(n + 1));
  }

  lemma CorrectedVal(w0: int, w1: int, w2: int, q: int, v: int, pw: int)
    requires 0 <= w0 < q * v && 0 <= q && w1 == w0 - q * v + pw
    requires w2 == w1 + v || w2 == w1 + v - pw
    requires w2 < pw
    requires q > 0 ==> q * v - v <= w0
    ensures q > 0 && w2 == w0 - (q - 1) * v && w2 < v
  {
    assert (q - 1) * v == q * v - v;
  }

  /** D3 to D6 on one window: divides it by v and leaves the remainder in it. */
  method Round(u: array<Digit>, p: nat, v: array<Digit>, r: nat, n: nat) returns (q: Digit)
    requires u != v && 2 <= n && p + n < u.Length && r + n < v.Length
    requires B / 2 <= v[r + 1]
    requires Val(u[p..p + n]) < Val(v[r + 1..r + n + 1])
    modifies u
    ensures RoundResult(old(u[..]), u[..], p, n, Val(v[r + 1..r + n + 1]), q)
  {
    hide RoundResult, SubtractedWindow, AddedWindow, IsTrialDigit, Val;
    ghost var u0 := u[..];
    ghost var w := Window(u0, p, n);
    ghost var vs := v[r + 1..r + n + 1];
    assert w[..n] == u[p..p + n];
    assert w[0] == u[p] && w[1] == u[p + 1] && w[2] == u[p + 2] && vs[0] == v[r + 1] && vs[1] == v[r + 2];
    RoundLeading(w[..n], vs);
    var qhat := TrialDigit(u[p], u[p + 1], u[p + 2], v[r + 1], v[r + 2]);
    RoundTrial(w, vs, qhat);
    var t := MultiplySubtract(u, p, v, r, n, qhat);
    ghost var u1 := u[..];
    if HHalf(t) != 0 {
      AddBack(u, p, v, r, n);
      CorrectedTrial(u0, u1, u[..], vs, p, n, qhat);
      qhat := qhat - 1;
    } else {
      ExactTrial(u0, u1, vs, p, n, qhat);
    }
    q := ToDigit(qhat);
  }

  // ---------------------------------------------------------------- normalisation

  /**
   Shifting a digit left by one amount and right by the other, with s and t the two powers of two:
   the left shift keeps (x % t) * s, a multiple of s, and the right shift x / t, which is below s.
   The two parts that the source joins with `|' thus have no bit in common.
   */
  lemma ShiftDigit(x: Digit, s: int, t: int)
    requires 0 < s && 0 < t && s * t == B
    ensures x * s == (x / t) * B + (x % t) * s
    ensures 0 <= (x % t) * s <= B - s
    ensures 0 <= x / t < s
  {
    var q, r := x / t, x % t;
    assert x == q * t + r;
    assert x * s == q * (t * s) + r * s;
    MulMono(r, t - 1, s);
    assert (t - 1) * s == B - s;
    MulMono(0, r, s);
    if q >= s {
      MulMono(s, q, t);
    }
  }

  lemma ShiftedLow(x: Digit, s: int, t: int)
    requires 0 < s && 0 < t && s * t == B
    ensures 0 <= x * s < W32
    ensures LHalf(U32(x * s)) == (x % t) * s
  {
    ShiftDigit(x, s, t);
    var q, r := x / t, (x % t) * s;
    assert s <= B by {
      MulMono(1, t, s);
    }
    RemainderUnique(q * B + r, q, r);
    SmallWord(q * B + r);
  }

  lemma RemainderUnique(x: int, q: int, r: int)
    requires x == q * B + r && 0 <= r < B
    ensures x % B == r
  {
  }

  lemma MultipleOf(r: int, s: int)
    requires 0 < s && 0 <= r
    ensures (r * s) % s == 0
  {
    assert r * s == r * s + 0;
    var k := (r * s) / s;
    var e := (r * s) % s;
    assert r * s == k * s + e;
    assert (r - k) * s == e;
    if r - k >= 1 {
      MulMono(1, r - k, s);
    } else if r - k <= -1 {
      MulMono(r - k, -1, s);
    }
  }

  lemma PowersSplitDigit(sh: nat)
    requires sh <= 16
    ensures Pow2(sh) * Pow2(16 - sh) == B
  {
    assert Pow2(4) == 16;
    Pow2Add(4, 4);
    Pow2Add(8, 8);
    Pow2Add(sh, 16 - sh);
  }

  lemma {:induction false} Pow2Add(a: nat, b: nat)
    ensures Pow2(a + b) == Pow2(a) * Pow2(b)
  {
    if a > 0 {
      Pow2Add(a - 1, b);
    }
  }

  /** The first i digits of p0 shifted left, with the bits that come from the digit after them. */
  ghost predicate ShiftedPrefix(p: seq<Digit>, p0: seq<Digit>, o: nat, i: nat, s: int, t: int)
    requires t != 0
  {
    && o + i < |p|
    && SameOutside(p, p0, o, o + i)
    && Val(p[o..o + i]) == Val(p0[o..o + i]) * s + p0[o + i] / t
  }

  lemma ShiftStepVal(a: int, x: Digit, s: int, t: int, low: int)
    requires 0 < s && 0 < t && s * t == B
    ensures (a * s + x / t) * B + ((x % t) * s + low) == (a * B + x) * s + low
  {
    ShiftDigit(x, s, t);
    assert (a * s + x / t) * B == (a * B) * s + (x / t) * B;
    assert (a * B + x) * s == (a * B) * s + x * s;
  }

  lemma ShiftStep(p: seq<Digit>, p0: seq<Digit>, o: nat, i: nat, s: int, t: int, d: Digit, low: int)
    requires 0 < s && 0 < t && s * t == B
    requires ShiftedPrefix(p, p0, o, i, s, t)
    requires d == (p[o + i] % t) * s + low
    ensures SameOutside(p[o + i := d], p0, o, o + i + 1)
    ensures Val(p[o + i := d][o..o + i + 1]) == Val(p0[o..o + i + 1]) * s + low
  {
    var p' := p[o + i := d];
    assert p'[o..o + i + 1] == p[o..o + i] + [d];
    ValSnoc(p[o..o + i], d);
    assert p0[o..o + i + 1] == p0[o..o + i] + [p0[o + i]];
    ValSnoc(p0[o..o + i], p0[o + i]);
    ShiftStepVal(Val(p0[o..o + i]), p0[o + i], s, t, low);
  }

  /** The digit that shl stores, from the old digit and its right neighbour. */
  function ShiftedDigit(x: Digit, next: Digit, s: int, t: int): (d: Digit)
    requires 0 < s && 0 < t && s * t == B
    ensures d == (x % t) * s + next / t
  {
    ShiftedLow(x, s, t);
    ShiftDigit(x, s, t);
    ShiftDigit(next, s, t);
    ToDigit(LHalf(U32(x * s)) + next / t)
  }

  /** shl: shifts p[o..o+len] left by sh bits; the caller promises that nothing falls out. */
  method Shl(p: array<Digit>, o: nat, len: nat, sh: nat)
    requires o + len < p.Length && sh <= 16
    requires p[o] / Pow2(16 - sh) == 0
    modifies p
    ensures SameOutside(p[..], old(p[..]), o, o + len + 1)
    ensures Val(p[..][o..o + len + 1]) == Val(old(p[..])[o..o + len + 1]) * Pow2(sh)
  {
    ghost var p0 := p[..];
    var s, t := Pow2(sh), Pow2(16 - sh);
    PowersSplitDigit(sh);
    var i := 0;
    assert ShiftedPrefix(p0, p0, o, 0, s, t);
    hide ShiftedPrefix, ShiftedDigit, Val;
    while i < len
      invariant 0 <= i <= len
      invariant ShiftedPrefix(p[..], p0, o, i, s, t)
    {
      ghost var before := p[..];
      var d := ShiftedDigit(p[o + i], p[o + i + 1], s, t);
      ShiftStep(before, p0, o, i, s, t, d, p[o + i + 1] / t);
      p[o + i] := d;
      assert p[..] == before[o + i := d];
      i := i + 1;
    }
    ghost var before := p[..];
    var d := ShiftedDigit(p[o + i], 0, s, t);
    ShiftStep(before, p0, o, i, s, t, d, 0);
    p[o + i] := d;
    assert p[..] == before[o + i := d];
  }

  /** The digits from i on shifted right, with the bits from the digit before i in. */
  ghost predicate ShiftedSuffix(p: seq<Digit>, p0: seq<Digit>, i: nat, s: int)
    requires 0 < s
  {
    && 0 < i <= |p|
    && SameOutside(p, p0, i, |p0|)
    && Val(p[i..]) * s == Val(p0[i..]) + (p0[i - 1] % s) * PowB(|p| - i)
  }

  lemma UnshiftVal(x: Digit, above: Digit, s: int, t: int, pw: int, tail: int, tail0: int, d: int)
    requires 0 < s && 0 < t && s * t == B
    requires tail * s == tail0 + (x % s) * pw
    requires d == (above % s) * t + x / s
    ensures (d * pw + tail) * s == (x * pw + tail0) + (above % s) * (B * pw)
  {
    var a, q, r := above % s, x / s, x % s;
    assert d * s == a * B + q * s by {
      assert (a * t + q) * s == a * (t * s) + q * s;
    }
    calc {
      (d * pw + tail) * s;
      (d * s) * pw + tail * s;
      (a * B + q * s) * pw + r * pw + tail0;
      (a * B) * pw + (q * s + r) * pw + tail0;
      (x * pw + tail0) + a * (B * pw);
    }
  }

  lemma UnshiftStep(p: seq<Digit>, p0: seq<Digit>, i: nat, s: int, t: int, d: Digit)
    requires 0 < s && 0 < t && s * t == B
    requires ShiftedSuffix(p, p0, i, s)
    requires 2 <= i
    requires d == (p[i - 2] % s) * t + p[i - 1] / s
    ensures ShiftedSuffix(p[i - 1 := d], p0, i - 1, s)
  {
    var p' := p[i - 1 := d];
    assert p'[i - 1..][1..] == p[i..];
    assert p0[i - 1..][1..] == p0[i..];
    UnshiftVal(p0[i - 1], p0[i - 2], s, t, PowB(|p| - i), Val(p[i..]), Val(p0[i..]), d);
  }

  lemma AddMultiple(k: int, s: int, r: int)
    requires 0 < s
    ensures (k * s + r) % s == r % s
  {
    var x := k * s + r;
    assert x == (x / s) * s + x % s;
    assert r == (r / s) * s + r % s;
    var j := k + r / s - x / s;
    assert j * s == x % s - r % s by {
      assert j * s == k * s + (r / s) * s - (x / s) * s;
    }
    if j >= 1 {
      MulMono(1, j, s);
    } else if j <= -1 {
      MulMono(j, -1, s);
    }
  }

  lemma LastDigitRemainder(q: seq<Digit>, s: int, t: int)
    requires 0 < s && 0 < t && s * t == B && q != []
    ensures Val(q) % s == q[|q| - 1] % s
  {
    hide Val;
    var k := |q| - 1;
    assert q == q[..k] + [q[k]];
    ValSnoc(q[..k], q[k]);
    assert Val(q[..k]) * (s * t) == (Val(q[..k]) * t) * s;
    AddMultiple(Val(q[..k]) * t, s, q[k]);
  }

  /** The digit that the remainder loop stores, from the old digit and its left neighbour. */
  function UnshiftedDigit(above: Digit, x: Digit, s: int, t: int): (d: Digit)
    requires 0 < s && 0 < t && s * t == B
    ensures d == (above % s) * t + x / s
  {
    ShiftedDigit(above, x, t, s)
  }

  /** Shifts the last digits, p[lo..], right by sh bits and clears the digit before them. */
  method Unshift(p: array<Digit>, lo: nat, sh: nat)
    requires 1 <= lo < p.Length && sh <= 16
    requires p[lo - 1] == 0
    requires Val(p[lo..]) % Pow2(sh) == 0
    modifies p
    ensures SameOutside(p[..], old(p[..]), lo, p.Length)
    ensures Val(p[..][lo..]) * Pow2(sh) == Val(old(p[..])[lo..])
  {
    ghost var p0 := p[..];
    var s, t := Pow2(sh), Pow2(16 - sh);
    PowersSplitDigit(sh);
    UnshiftStart(p0, lo, s, t);
    hide ShiftedSuffix, UnshiftedDigit, ShiftedDigit, Val;
    var i := p.Length;
    while i > lo
      invariant lo <= i <= p.Length
      invariant ShiftedSuffix(p[..], p0, i, s)
    {
      ghost var before := p[..];
      i := i - 1;
      var d := UnshiftedDigit(p[i - 1], p[i], s, t);
      UnshiftStep(before, p0, i + 1, s, t, d);
      p[i] := d;
      assert p[..] == before[i := d];
    }
    ghost var before := p[..];
    p[lo - 1] := 0;
    assert p[..] == before;
    UnshiftDone(before, p0, lo, s);
  }

  lemma UnshiftStart(p0: seq<Digit>, lo: nat, s: int, t: int)
    requires 0 < s && 0 < t && s * t == B
    requires 1 <= lo < |p0| && Val(p0[lo..]) % s == 0
    ensures ShiftedSuffix(p0, p0, |p0|, s)
  {
    LastDigitRemainder(p0[lo..], s, t);
    assert p0[|p0|..] == [];
  }

  lemma UnshiftDone(p: seq<Digit>, p0: seq<Digit>, lo: nat, s: int)
    requires 0 < s && ShiftedSuffix(p, p0, lo, s) && p0[lo - 1] == 0
    ensures Val(p[lo..]) * s == Val(p0[lo..])
  {
    assert p0[lo - 1] % s == 0;
  }

  // ---------------------------------------------------------------- the whole division

  /**
   Before round j: the quotient digits found so far times v, scaled to their place, and what is left
   in us make up the dividend; the next window is below v*B.
   */
  ghost predicate Dividing(us: seq<Digit>, qs: seq<Digit>, n: nat, m: nat, j: nat, u: int, v: int) {
    && |us| == 5 && |qs| == 5 && 2 <= n && m + n <= 4 && j <= m + 1
    && var base := 4 - n - m + j;
    && (forall k | 0 <= k < base :: us[k] == 0)
    && Val(us[base..base + n]) < v
    && u == Val(qs[..4 - m + j]) * (PowB(m + 1 - j) * v) + Val(us)
  }

  lemma ValAround(us: seq<Digit>, p: nat, n: nat)
    requires p + n < |us|
    requires forall k | 0 <= k < p :: us[k] == 0
    ensures Val(us) == Val(Window(us, p, n)) * PowB(|us| - p - n - 1) + Val(us[p + n + 1..])
  {
    ValSkipZeros(us, p);
    assert us[p..] == Window(us, p, n) + us[p + n + 1..];
    ValConcat(Window(us, p, n), us[p + n + 1..]);
  }

  lemma LeadingZero(w: seq<Digit>, n: nat, v: int)
    requires |w| == n + 1 && Val(w) < v <= PowB(n)
    ensures w[0] == 0 && Val(w[1..]) == Val(w)
  {
    if w[0] >= 1 {
      MulMono(1, w[0], PowB(n));
    }
  }

  lemma RoundVal(u: int, qv: int, q: int, pw: int, v: int, w: int, w': int, rest: int)
    requires u == qv * ((B * pw) * v) + (w * pw + rest)
    requires w' == w - q * v
    ensures u == (qv * B + q) * (pw * v) + (w' * pw + rest)
  {
    assert qv * ((B * pw) * v) == (qv * B) * (pw * v);
    assert (qv * B + q) * (pw * v) == (qv * B) * (pw * v) + q * (pw * v);
    assert w' * pw == w * pw - (q * v) * pw;
    assert (q * v) * pw == q * (pw * v);
  }

  lemma RoundStepVal(us: seq<Digit>, us': seq<Digit>, p: nat, n: nat, v: int, q: Digit, u: int, qv: int)
    requires p + n < |us| && p + n < |us'|
    requires forall k | 0 <= k < p :: us[k] == 0
    requires RoundResult(us, us', p, n, v, q)
    requires u == qv * (PowB(|us| - p - n) * v) + Val(us)
    ensures u == (qv * B + q) * (PowB(|us| - p - n - 1) * v) + Val(us')
  {
    ValAround(us, p, n);
    ValAround(us', p, n);
    assert us'[p + n + 1..] == us[p + n + 1..];
    RoundVal(u, qv, q, PowB(|us| - p - n - 1), v, Val(Window(us, p, n)), Val(Window(us', p, n)),
             Val(us[p + n + 1..]));
  }

  lemma RoundWindow(us: seq<Digit>, us': seq<Digit>, p: nat, n: nat, v: int, q: Digit)
    requires p + n < |us| && |us'| == |us| && v <= PowB(n)
    requires forall k | 0 <= k < p :: us[k] == 0
    requires RoundResult(us, us', p, n, v, q)
    ensures forall k | 0 <= k < p + 1 :: us'[k] == 0
    ensures Val(us'[p + 1..p + 1 + n]) < v
  {
    LeadingZero(Window(us', p, n), n, v);
    assert Window(us', p, n)[1..] == us'[p + 1..p + 1 + n];
    assert us'[p] == Window(us', p, n)[0];
  }

  lemma RoundStep(us: seq<Digit>, us': seq<Digit>, qs: seq<Digit>, n: nat, m: nat, j: nat, u: int, v: int, q: Digit)
    requires Dividing(us, qs, n, m, j, u, v) && j <= m && v <= PowB(n)
    requires |us'| == 5 && RoundResult(us, us', 4 - n - m + j, n, v, q)
    ensures Dividing(us', qs[4 - m + j := q], n, m, j + 1, u, v)
  {
    hide RoundResult, Val, PowB;
    var p := 4 - n - m + j;
    RoundStepVal(us, us', p, n, v, q, u, Val(qs[..4 - m + j]));
    assert qs[4 - m + j := q][..4 - m + j + 1] == qs[..4 - m + j] + [q];
    ValSnoc(qs[..4 - m + j], q);
    RoundWindow(us, us', p, n, v, q);
  }

  lemma DivUnique(x: int, y: int, q: int, r: int)
    requires 0 < y && x == q * y + r && 0 <= r < y
    ensures q == x / y && r == x % y
  {
    var k := q - x / y;
    assert x == (x / y) * y + x % y;
    assert k * y == x % y - r;
    if k >= 1 {
      MulMono(1, k, y);
    } else if k <= -1 {
      MulMono(k, -1, y);
    }
  }

  /** Scaling dividend and divisor by s scales the remainder and keeps the quotient. */
  lemma ScaledDivision(u: int, v: int, s: int, q: int, r: int)
    requires 0 < s && 0 < v && u * s == q * (v * s) + r && 0 <= r < v * s
    ensures q == u / v && r == (u % v) * s
  {
    var x := u - q * v;
    assert x * s == r;
    CompareScaled(x, v, s);
    if x < 0 {
      MulMono(x, -1, s);
    }
    DivUnique(u, v, q, x);
  }

  lemma DivisionDone(us: seq<Digit>, qs: seq<Digit>, n: nat, m: nat, u: int, v: int, s: int)
    requires 0 < s && 0 < v
    requires Dividing(us, qs, n, m, m + 1, u * s, v * s)
    ensures Val(qs) == u / v
    ensures Val(us[5 - n..]) == (u % v) * s
    ensures Val(us[5 - n..]) % s == 0
  {
    assert qs[..5] == qs;
    ValSkipZeros(us, 5 - n);
    assert us[5 - n..] == us[5 - n..5 - n + n];
    assert PowB(0) * (v * s) == v * s;
    ScaledDivision(u, v, s, Val(qs), Val(us));
    MultipleOf(u % v, s);
  }

  /** Everything that normalising guarantees to the first round. */
  lemma FirstRound(us: seq<Digit>, vs: seq<Digit>, qs: seq<Digit>, n: nat, m: nat, s: int, u: int)
    requires |us| == 5 && |qs| == 5 && |vs| == n && 2 <= n && m + n <= 4
    requires forall k | 0 <= k < 4 - n - m :: us[k] == 0
    requires forall k | 0 <= k < 4 - m :: qs[k] == 0
    requires Val(us[4 - n - m..]) == u * s && 0 <= u < PowB(m + n)
    requires 0 < s <= B / 2 <= vs[0]
    ensures Dividing(us, qs, n, m, 0, u * s, Val(vs))
  {
    var p := 4 - n - m;
    ValSkipZeros(us, p);
    LeadingOne(us[p..]);
    assert us[p] < s by {
      CompareTop(us[p], s, u, PowB(m + n));
    }
    assert us[p..][0] == us[p];
    ValZeros(qs[..4 - m]);
    LeadingOne(us[p..p + n]);
    LeadingOne(vs);
    MulMono(us[p] + 1, vs[0], PowB(n - 1));
  }

  lemma CompareTop(a: int, s: int, u: int, p: int)
    requires 0 < p && 0 < s && u < p && a * p <= u * s
    ensures a < s
  {
    assert u * s < p * s by {
      MulMono(u, p - 1, s);
      assert (p - 1) * s == p * s - s;
    }
    CompareScaled(a, s, p);
  }

  /** The divisor keeps its digit count when shifted and its leading digit reaches B/2. */
  lemma NormalisedDivisor(vs: seq<Digit>, vs': seq<Digit>, s: int)
    requires |vs| >= 1 && |vs'| == |vs| && 0 < s
    requires Val(vs') == Val(vs) * s
    requires B / 2 <= vs[0] * s
    ensures B / 2 <= vs'[0]
  {
    LeadingOne(vs);
    LeadingOne(vs');
    ScaledTop(vs[0], vs'[0], Val(vs), s, PowB(|vs| - 1));
  }

  lemma ScaledTop(a: int, top: int, v: int, s: int, pw: int)
    requires 0 < pw && 0 < s && a * pw <= v && v * s < (top + 1) * pw && B / 2 <= a * s
    ensures B / 2 <= top
  {
    MulMono(a * pw, v, s);
    assert (a * pw) * s == (a * s) * pw;
    MulMono(B / 2, a * s, pw);
    CompareScaled(B / 2, top + 1, pw);
  }

  lemma {:induction false} Pow2Mono(a: nat, b: nat)
    requires a <= b
    ensures Pow2(a) <= Pow2(b)
  {
    if a < b {
      Pow2Mono(a, b - 1);
    }
  }

  lemma ShiftAmount(x: Digit, d: nat)
    requires 0 < x && x * Pow2(d) < B
    ensures d <= 15 && Pow2(d) <= B / 2
    ensures x / Pow2(16 - d) == 0
  {
    MulMono(1, x, Pow2(d));
    PowersSplitDigit(16);
    assert Pow2(0) == 1;
    if d >= 16 {
      Pow2Mono(16, d);
    }
    Pow2Mono(d, 15);
    PowersSplitDigit(1);
    assert Pow2(1) == 2;
    PowersSplitDigit(d);
    ShiftDigit(x, Pow2(d), Pow2(16 - d));
  }

  /** The d for which D1 shifts: the leading divisor digit times 2^d lies between B/2 and B. */
  method ShiftCount(x: Digit) returns (d: nat)
    requires x != 0
    ensures B / 2 <= x * Pow2(d) < B
  {
    d := 0;
    var t: Word32 := x;
    while t < B / 2
      invariant 0 < t < B && t == x * Pow2(d)
      decreases B - t
    {
      assert x * Pow2(d + 1) == 2 * (x * Pow2(d));
      t := U32(t * 2);
      d := d + 1;
    }
  }

  /** shl on all digits from lo on. */
  method ShlTail(p: array<Digit>, lo: nat, sh: nat)
    requires lo < p.Length && sh <= 16
    requires p[lo] / Pow2(16 - sh) == 0
    modifies p
    ensures p[..][..lo] == old(p[..])[..lo]
    ensures Val(p[..][lo..]) == Val(old(p[..])[lo..]) * Pow2(sh)
  {
    hide Val;
    ghost var p0 := p[..];
    Shl(p, lo, p.Length - lo - 1, sh);
    assert p[..][lo..p.Length] == p[..][lo..];
    assert p0[lo..p.Length] == p0[lo..];
  }

  /** D1: shifts dividend and divisor so that the divisor's leading digit is at least B/2. */
  method Normalise(us: array<Digit>, vs: array<Digit>, n: nat, m: nat) returns (d: nat)
    requires us != vs && us.Length == 5 && vs.Length == 5 && 2 <= n && m + n <= 4
    requires us[4 - n - m] == 0 && vs[5 - n] != 0
    modifies us, vs
    ensures d <= 15 && Pow2(d) <= B / 2 <= vs[5 - n]
    ensures us[..][..4 - n - m] == old(us[..])[..4 - n - m]
    ensures Val(us[..][4 - n - m..]) == Val(old(us[..])[4 - n - m..]) * Pow2(d)
    ensures Val(vs[..][5 - n..]) == Val(old(vs[..])[5 - n..]) * Pow2(d)
  {
    ghost var v0 := vs[..];
    d := ShiftCount(vs[5 - n]);
    ShiftAmount(vs[5 - n], d);
    if d > 0 {
      ShlTail(us, 4 - n - m, d);
      ShlTail(vs, 5 - n, d);
    }
    NormalisedDivisor(v0[5 - n..], vs[..][5 - n..], Pow2(d));
  }

  lemma NextWindow(us: seq<Digit>, qs: seq<Digit>, n: nat, m: nat, j: nat, u: int, v: int)
    requires Dividing(us, qs, n, m, j, u, v)
    ensures Val(us[4 - n - m + j..4 - m + j]) < v
  {
  }

  /** D2 to D7. */
  method DivideLoop(us: array<Digit>, vs: array<Digit>, qs: array<Digit>, n: nat, m: nat, ghost u: int)
    requires us != vs && us != qs && vs != qs
    requires us.Length == 5 && vs.Length == 5 && qs.Length == 5 && 2 <= n && m + n <= 4
    requires B / 2 <= vs[5 - n]
    requires Dividing(us[..], qs[..], n, m, 0, u, Val(vs[..][5 - n..]))
    modifies us, qs
    ensures Dividing(us[..], qs[..], n, m, m + 1, u, Val(old(vs[..])[5 - n..]))
    ensures qs[..4 - m] == old(qs[..4 - m])
  {
    hide Dividing, RoundResult, Val, PowB;
    ghost var v := vs[..][5 - n..];
    ValBound(v);
    var j := 0;
    while j <= m
      invariant 0 <= j <= m + 1
      invariant vs[..] == old(vs[..]) && qs[..4 - m] == old(qs[..4 - m])
      invariant Dividing(us[..], qs[..], n, m, j, u, Val(v))
    {
      ghost var us0, qs0 := us[..], qs[..];
      var p := 4 - n - m + j;
      assert us[..][p..p + n] == us[p..p + n];
      assert vs[4 - n + 1..4 - n + n + 1] == v;
      NextWindow(us0, qs0, n, m, j, u, Val(v));
      var q := Round(us, p, vs, 4 - n, n);
      RoundStep(us0, us[..], qs0, n, m, j, u, Val(v), q);
      qs[4 - m + j] := q;
      assert qs[..] == qs0[4 - m + j := q];
      j := j + 1;
    }
  }

  /** If the digits of u above the place of v's leading digit are zero and so is that one, u < v. */
  lemma LeadingPlace(us: seq<Digit>, v: seq<Digit>)
    requires |us| == 5 && 2 <= |v| <= 4 && v[0] != 0
    requires forall k | 0 <= k <= 5 - |v| :: us[k] == 0
    ensures Val(us) < Val(v)
  {
    var n := |v|;
    ValSkipZeros(us, 6 - n);
    ValBound(us[6 - n..]);
    LeadingOne(v);
    MulMono(1, v[0], PowB(n - 1));
  }

  lemma TailVal(s: seq<Digit>)
    requires |s| == 5 && s[0] == 0
    ensures Val(s) == Join(Combine(s[1], s[2]), Combine(s[3], s[4]))
  {
    ValSkipZeros(s, 1);
    ValFour(s[1], s[2], s[3], s[4]);
    assert s[1..] == [s[1], s[2], s[3], s[4]];
  }

  /** The number of quotient digits less one, m: skips the leading zero digits of the dividend. */
  method CountPlaces(us: array<Digit>, n: nat, ghost v: seq<Digit>) returns (m: nat)
    requires us.Length == 5 && us[0] == 0 && 2 <= n <= 4 && |v| == n && v[0] != 0
    requires Val(v) <= Val(us[..])
    ensures m + n <= 4
    ensures forall k | 0 <= k <= 4 - n - m :: us[k] == 0
  {
    m := 4 - n;
    var base := 0;
    while us[base + 1] == 0
      invariant 0 <= m && base == 4 - n - m
      invariant forall k | 0 <= k <= base :: us[k] == 0
      decreases m
    {
      if m == 0 {
        LeadingPlace(us[..], v);
        assert false;
      }
      m := m - 1;
      base := base + 1;
    }
  }

  /** Clears the quotient digits left of the first one to be computed. */
  method ClearQuotient(qs: array<Digit>, m: nat)
    requires qs.Length == 5 && m <= 4
    modifies qs
    ensures forall k | 0 <= k < 4 - m :: qs[k] == 0
  {
    var i := 4 - m;
    while i > 0
      invariant 0 <= i <= 4 - m
      invariant forall k | i <= k < 4 - m :: qs[k] == 0
    {
      i := i - 1;
      qs[i] := 0;
    }
  }

  /** Program D: leaves the quotient in qs and the shifted remainder in us. */
  method DivideShifted(us: array<Digit>, vs: array<Digit>, qs: array<Digit>, n: nat) returns (d: nat)
    requires us != vs && us != qs && vs != qs
    requires us.Length == 5 && vs.Length == 5 && qs.Length == 5 && 2 <= n <= 4
    requires us[0] == 0 && vs[5 - n] != 0
    requires Val(vs[..][5 - n..]) <= Val(us[..])
    modifies us, vs, qs
    ensures d <= 15 && qs[0] == 0
    ensures Val(qs[..]) == Val(old(us[..])) / Val(old(vs[..])[5 - n..])
    ensures forall k | 0 <= k < 5 - n :: us[k] == 0
    ensures Val(us[..][5 - n..]) == (Val(old(us[..])) % Val(old(vs[..])[5 - n..])) * Pow2(d)
    ensures Val(us[..][5 - n..]) % Pow2(d) == 0
  {
    ghost var u0, v0 := us[..], vs[..][5 - n..];
    DivisorPositive(v0);
    var m := CountPlaces(us, n, v0);
    ClearQuotient(qs, m);
    DividendPlace(u0, n, m);
    d := Normalise(us, vs, n, m);
    FirstRound(us[..], vs[..][5 - n..], qs[..], n, m, Pow2(d), Val(u0));
    DivideLoop(us, vs, qs, n, m, Val(u0) * Pow2(d));
    DivisionDone(us[..], qs[..], n, m, Val(u0), Val(v0), Pow2(d));
    assert qs[0] == qs[..4 - m][0];
  }

  lemma DivisorPositive(v: seq<Digit>)
    requires v != [] && v[0] != 0
    ensures Val(v) > 0
  {
    LeadingOne(v);
    MulMono(1, v[0], PowB(|v| - 1));
  }

  /** The case of a divisor with at least two digits. */
  method LongDivide(us: array<Digit>, vs: array<Digit>, n: nat, wantRem: bool) returns (quo: Word64, rem: Word64)
    requires us != vs && us.Length == 5 && vs.Length == 5 && 2 <= n <= 4
    requires us[0] == 0 && vs[5 - n] != 0
    requires Val(vs[..][5 - n..]) <= Val(us[..])
    modifies us, vs
    ensures quo == Val(old(us[..])) / Val(old(vs[..])[5 - n..])
    ensures wantRem ==> rem == Val(old(us[..])) % Val(old(vs[..])[5 - n..])
  {
    ghost var u, v := Val(us[..]), Val(vs[..][5 - n..]);
    DivisorPositive(vs[..][5 - n..]);
    var qs := new Digit[5];
    var d := DivideShifted(us, vs, qs, n);
    rem := 0;
    if wantRem {
      if d > 0 {
        assert us[5 - n..] == us[..][5 - n..];
        Unshift(us, 5 - n, d);
      }
      RemainderDone(us[..], n, u, v, Pow2(d));
      TailVal(us[..]);
      rem := Join(Combine(us[1], us[2]), Combine(us[3], us[4]));
    }
    TailVal(qs[..]);
    quo := Join(Combine(qs[1], qs[2]), Combine(qs[3], qs[4]));
  }

  lemma DividendPlace(us: seq<Digit>, n: nat, m: nat)
    requires |us| == 5 && m + n <= 4
    requires forall k | 0 <= k <= 4 - n - m :: us[k] == 0
    ensures Val(us) == Val(us[4 - n - m..]) < PowB(m + n)
  {
    ValSkipZeros(us, 4 - n - m);
    ValSkipZeros(us, 5 - n - m);
    ValBound(us[5 - n - m..]);
  }

  lemma RemainderDone(us: seq<Digit>, n: nat, u: int, v: int, s: int)
    requires |us| == 5 && 2 <= n <= 4 && 0 < s && 0 < v
    requires forall k | 0 <= k < 5 - n :: us[k] == 0
    requires Val(us[5 - n..]) * s == (u % v) * s
    ensures Val(us) == u % v && us[0] == 0
  {
    ValSkipZeros(us, 5 - n);
    Cancel(Val(us[5 - n..]), u % v, s);
  }

  lemma Cancel(a: int, b: int, s: int)
    requires 0 < s && a * s == b * s
    ensures a == b
  {
    if a < b {
      MulMono(a + 1, b, s);
    } else if b < a {
      MulMono(b + 1, a, s);
    }
  }

  /** One digit of short division: brings down u and divides by t. */
  lemma BringDown(a: int, q: int, r: int, u: Digit, t: Digit)
    requires 0 < t && a == q * t + r && 0 <= r < t
    ensures var rbj := r * B + u;
            && 0 <= rbj / t < B && 0 <= rbj % t < t
            && a * B + u == (q * B + rbj / t) * t + rbj % t
  {
    var rbj := r * B + u;
    MulMono(r, t - 1, B);
    QuotientBound(rbj, t);
    assert (q * B + rbj / t) * t == (q * t) * B + (rbj / t) * t;
  }

  /** The divisor is the single digit t: exercise 16 of the same section. */
  method ShortDivide(u1: Digit, u2: Digit, u3: Digit, u4: Digit, t: Digit) returns (quo: Word64, rem: Word64)
    requires t != 0
    ensures var u := Join(Combine(u1, u2), Combine(u3, u4)); quo == u / t && rem == u % t
  {
    QuotientBound(u1, t);
    var q1 := ToDigit(u1 / t);
    var rbj := Combine(u1 % t, u2);
    BringDown(u1, q1, u1 % t, u2, t);
    var q2 := ToDigit(rbj / t);
    ghost var a2, b2 := u1 * B + u2, q1 * B + q2;
    var r2 := rbj % t;
    rbj := Combine(rbj % t, u3);
    BringDown(a2, b2, r2, u3, t);
    var q3 := ToDigit(rbj / t);
    ghost var a3, b3 := a2 * B + u3, b2 * B + q3;
    var r3 := rbj % t;
    rbj := Combine(rbj % t, u4);
    BringDown(a3, b3, r3, u4, t);
    var q4 := ToDigit(rbj / t);
    ghost var a4, b4 := a3 * B + u4, b3 * B + q4;
    rem := rbj % t;
    DivUnique(a4, t, b4, rem);
    quo := Join(Combine(q1, q2), Combine(q3, q4));
  }

  /**
   __qdivrem: the quotient and, on request, the remainder.  A zero divisor ends in the processor's
   divide trap.
   */
  method QDivRem(ull: Word64, vll: Word64, wantRem: bool) returns (trap: bool, quo: Word64, rem: Word64)
    ensures trap <==> vll == 0
    ensures !trap ==> quo == ull / vll
    ensures !trap && wantRem ==> rem == ull % vll
  {
    if vll == 0 {
      return true, 0, ull;
    }
    if ull < vll {
      DivUnique(ull, vll, 0, ull);
      return false, 0, ull;
    }
    var us, vs := new Digit[5], new Digit[5];
    us[0], us[1], us[2], us[3], us[4] := 0, HHalf(Hi(ull)), LHalf(Hi(ull)), HHalf(Lo(ull)), LHalf(Lo(ull));
    vs[0], vs[1], vs[2], vs[3], vs[4] := 0, HHalf(Hi(vll)), LHalf(Hi(vll)), HHalf(Lo(vll)), LHalf(Lo(vll));
    SplitArray(us[..], ull);
    SplitArray(vs[..], vll);
    ghost var us0, vs0 := us[..], vs[..];
    var n := 4;
    while vs[5 - n] == 0
      invariant 2 <= n <= 4
      invariant us[..] == us0 && vs[..] == vs0
      invariant forall k | 0 <= k < 5 - n :: vs[k] == 0
      decreases n
    {
      n := n - 1;
      if n == 1 {
        TailVal(us0);
        TailVal(vs0);
        quo, rem := ShortDivide(us[1], us[2], us[3], us[4], vs[4]);
        return false, quo, rem;
      }
    }
    ValSkipZeros(vs0, 5 - n);
    quo, rem := LongDivide(us, vs, n, wantRem);
    trap := false;
  }

  lemma SplitArray(s: seq<Digit>, x: Word64)
    requires |s| == 5 && s[0] == 0 && s[1..] == Split(x)
    ensures Val(s) == x
  {
    ValSkipZeros(s, 1);
    SplitVal(x);
  }
}
