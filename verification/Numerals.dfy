/** Numbers as text: the digit loop of __pf_printnum, and atoi (src/common/libc). */
module Numerals {
  import opened Words

  const DIGITS: string := "0123456789abcdef"

  function DigitChar(d: nat): char
    requires d < 16
  {
    DIGITS[d]
  }

  predicate IsBase(b: nat) {
    b == 8 || b == 10 || b == 16
  }

  /** n in base b, the most significant digit first. */
  function Digits(n: nat, b: nat): (s: string)
    requires IsBase(b)
    ensures |s| > 0
  {
    if n < b then [DigitChar(n)] else Digits(n / b, b) + [DigitChar(n % b)]
  }

  // ---------------------------------------------------------------- what the digits mean

  /** The value of a digit, or -1. */
  function CharValue(c: char): int {
    if '0' <= c <= '9' then c as int - '0' as int
    else if 'a' <= c <= 'f' then 10 + (c as int - 'a' as int)
    else -1
  }

  /** The number that a string of digits spells in base b. */
  function ValueOf(s: string, b: nat): int {
    if s == "" then 0 else ValueOf(s[..|s| - 1], b) * b + CharValue(s[|s| - 1])
  }

  lemma DigitHasValue(d: nat)
    requires d < 16
    ensures CharValue(DigitChar(d)) == d
  {
    if d == 0 {} else if d == 1 {} else if d == 2 {} else if d == 3 {} else if d == 4 {} else if d == 5 {}
    else if d == 6 {} else if d == 7 {} else if d == 8 {} else if d == 9 {} else if d == 10 {} else if d == 11 {}
    else if d == 12 {} else if d == 13 {} else if d == 14 {} else {}
  }

  /** The digits of n spell n, each is a digit of the base, and there is no leading zero. */
  lemma {:induction false} DigitsSpell(n: nat, b: nat)
    requires IsBase(b)
    ensures ValueOf(Digits(n, b), b) == n
    ensures forall i | 0 <= i < |Digits(n, b)| :: 0 <= CharValue(Digits(n, b)[i]) < b
    ensures n > 0 ==> CharValue(Digits(n, b)[0]) > 0
    decreases n
  {
    hide DigitChar, CharValue;
    if n < b {
      DigitHasValue(n);
      assert [DigitChar(n)][..0] == "";
    } else {
      QuotientSmaller(n, b);
      DigitsSpell(n / b, b);
      DigitHasValue(n % b);
      var q, d := Digits(n / b, b), DigitChar(n % b);
      assert (q + [d])[..|q|] == q;
      hide ValueOf, Digits;
      forall i | 0 <= i < |q + [d]|
        ensures 0 <= CharValue((q + [d])[i]) < b
      {
        if i < |q| {
          assert (q + [d])[i] == q[i];
        }
      }
    }
  }

  lemma QuotientSmaller(n: nat, b: nat)
    requires IsBase(b) && n >= b
    ensures 0 < n / b < n && n % b < b && n / b * b + n % b == n
  {
    if b == 8 {} else if b == 10 {} else {}
  }

  // ---------------------------------------------------------------- the buffer

  /** Space for a long long in base 8, a terminator, and one more: 64 / 3 + 2. */
  const BUFSIZE: nat := 23

  function Pow8(k: nat): nat {
    if k == 0 then 1 else 8 * Pow8(k - 1)
  }

  /** A number below 8 to the k has at most k digits, in any of the bases. */
  lemma {:induction false} DigitsShort(n: nat, b: nat, k: nat)
    requires IsBase(b) && k > 0 && n < Pow8(k)
    ensures |Digits(n, b)| <= k
    decreases k
  {
    if n >= b {
      if b == 8 {
        assert n / 8 < Pow8(k - 1);
      } else if b == 10 {
        assert n / 10 < Pow8(k - 1);
      } else {
        assert n / 16 < Pow8(k - 1);
      }
      DigitsShort(n / b, b, k - 1);
    }
  }

  lemma Pow8Values()
    ensures Pow8(22) == 0x4_0000_0000_0000_0000
  {
    assert Pow8(2) == 64;
    assert Pow8(4) == 64 * Pow8(2);
    assert Pow8(6) == 64 * Pow8(4);
    assert Pow8(8) == 64 * Pow8(6);
    assert Pow8(10) == 64 * Pow8(8);
    assert Pow8(12) == 64 * Pow8(10);
    assert Pow8(14) == 64 * Pow8(12);
    assert Pow8(16) == 64 * Pow8(14);
    assert Pow8(18) == 64 * Pow8(16);
    assert Pow8(20) == 64 * Pow8(18);
    assert Pow8(22) == 64 * Pow8(20);
  }

  /** Every 64-bit number fits into the buffer, with its terminator. */
  lemma FitsBuffer(n: nat, b: nat)
    requires n < W64 && IsBase(b)
    ensures |Digits(n, b)| <= BUFSIZE - 1
  {
    Pow8Values();
    DigitsShort(n, b, 22);
  }

  lemma DigitStep(n: nat, b: nat, rest: string)
    requires IsBase(b)
    ensures n >= b ==> Digits(n / b, b) + ([DigitChar(n % b)] + rest) == Digits(n, b) + rest
    ensures n < b ==> [DigitChar(n % b)] + rest == Digits(n, b) + rest
  {
  }

  lemma DigitsShrink(n: nat, b: nat)
    requires IsBase(b) && n >= b
    ensures n / b < n && |Digits(n, b)| == |Digits(n / b, b)| + 1
  {
    if b == 8 {} else if b == 10 {} else {}
  }

  /** The loop of __pf_printnum: fills the buffer from right to left, and gives the place of the first digit. */
  method PrintDigits(num: nat, base: nat, buf: array<char>) returns (x: nat)
    requires num < W64 && IsBase(base) && buf.Length == BUFSIZE
    modifies buf
    ensures x < BUFSIZE && buf[x..BUFSIZE - 1] == Digits(num, base) && buf[BUFSIZE - 1] == '\0'
  {
    FitsBuffer(num, base);
    x := BUFSIZE - 1;
    buf[x] := '\0';
    var xnum: nat := num;
    var more := true;
    assert Digits(num, base) + buf[x..BUFSIZE - 1] == Digits(num, base);
    while more
      invariant x <= BUFSIZE - 1 && buf[BUFSIZE - 1] == '\0'
      invariant more ==> Digits(xnum, base) + buf[x..BUFSIZE - 1] == Digits(num, base) && |Digits(xnum, base)| <= x
      invariant !more ==> x < BUFSIZE - 1 && buf[x..BUFSIZE - 1] == Digits(num, base)
      decreases if more then xnum + 1 else 0
    {
      ghost var was := buf[x..BUFSIZE - 1];
      x := x - 1;
      buf[x] := DigitChar(xnum % base);
      assert buf[x..BUFSIZE - 1] == [DigitChar(xnum % base)] + was;
      DigitStep(xnum, base, was);
      if xnum >= base {
        DigitsShrink(xnum, base);
      }
      SmallQuotient(xnum, base);
      xnum := xnum / base;
      more := xnum > 0;
    }
  }

  lemma SmallQuotient(n: nat, b: nat)
    requires IsBase(b)
    ensures n / b > 0 <==> n >= b
  {
    if b == 8 {} else if b == 10 {} else {}
  }

  // ---------------------------------------------------------------- atoi

  predicate IsDigit(c: char) {
    '0' <= c <= '9'
  }

  predicate IsBlank(c: char) {
    c == ' ' || c == '\t'
  }

  function DigitValue(c: char): nat
    requires IsDigit(c)
  {
    c as nat - '0' as nat
  }

  /** The value of the digits that s starts with, after val, in 32 bits. */
  function ParseDigits(s: string, val: nat): nat {
    if s == "" || !IsDigit(s[0]) then val else ParseDigits(s[1..], (val * 10 + DigitValue(s[0])) % W32)
  }

  /** A 32-bit word as a signed number. */
  function Signed32(w: nat): int {
    if w % W32 < 0x8000_0000 then w % W32 else w % W32 - W32
  }

  function Negate32(w: nat): nat {
    (W32 - w % W32) % W32
  }

  function ParseSigned(s: string): int {
    if s != "" && s[0] == '-' then Signed32(Negate32(ParseDigits(s[1..], 0)))
    else if s != "" && s[0] == '+' then Signed32(ParseDigits(s[1..], 0))
    else Signed32(ParseDigits(s, 0))
  }

  /** What atoi computes: blanks, a sign, digits, and then anything. */
  function Parse(s: string): int {
    if s != "" && IsBlank(s[0]) then Parse(s[1..]) else ParseSigned(s)
  }

  /** atoi, on a string that ends where s does. */
  method Atoi(s: string) returns (r: int)
    ensures r == Parse(s)
  {
    var i := 0;
    while i < |s| && (s[i] == ' ' || s[i] == '\t')
      invariant i <= |s| && Parse(s[i..]) == Parse(s)
    {
      assert s[i..][1..] == s[i + 1..];
      i := i + 1;
    }
    assert Parse(s[i..]) == ParseSigned(s[i..]);
    var neg := false;
    ghost var j := i;
    if i < |s| && s[i] == '-' {
      neg := true;
      i := i + 1;
      assert s[j..][1..] == s[i..];
    } else if i < |s| && s[i] == '+' {
      i := i + 1;
      assert s[j..][1..] == s[i..];
    }
    ghost var start := i;
    var val: nat := 0;
    while i < |s| && IsDigit(s[i])
      invariant start <= i <= |s| && val < W32 && ParseDigits(s[i..], val) == ParseDigits(s[start..], 0)
    {
      assert s[i..][1..] == s[i + 1..];
      val := (val * 10 + DigitValue(s[i])) % W32;
      i := i + 1;
    }
    assert ParseDigits(s[i..], val) == val;
    if neg {
      return Signed32(Negate32(val));
    }
    return Signed32(val);
  }

  // ---------------------------------------------------------------- reading back what was printed

  /** A plus sign changes nothing. */
  lemma PlusSign(body: string)
    requires body != "" && IsDigit(body[0])
    ensures Parse("+" + body) == Parse(body)
  {
    hide ParseDigits, Signed32, Negate32;
    assert ("+" + body)[1..] == body;
  }

  /** No digit follows. */
  predicate Stops(rest: string) {
    rest == "" || !IsDigit(rest[0])
  }

  lemma DecimalDigit(d: nat)
    requires d < 10
    ensures IsDigit(DigitChar(d)) && DigitValue(DigitChar(d)) == d
  {
    if d == 0 {} else if d == 1 {} else if d == 2 {} else if d == 3 {} else if d == 4 {}
    else if d == 5 {} else if d == 6 {} else if d == 7 {} else if d == 8 {} else {}
  }

  lemma Rejoin(n: nat)
    ensures n / 10 * 10 + n % 10 == n && (n > 0 ==> n / 10 < n)
  {
  }

  /** Another digit after a number that was reduced to 32 bits. */
  lemma ReduceFirst(q: nat, r: nat)
    ensures (q % W32 * 10 + r) % W32 == (q * 10 + r) % W32
  {
    var x, k := q % W32 * 10 + r, q / W32 * 10;
    assert q * 10 + r == x + k * W32;
    DropMultiple(x, k);
  }

  lemma DropMultiple(x: int, k: int)
    ensures (x + k * W32) % W32 == x % W32
  {
    var r := x % W32;
    assert x == r + x / W32 * W32;
    assert x + k * W32 == r + (x / W32 + k) * W32;
    Residue32(x + k * W32, x / W32 + k, r);
  }

  lemma SplitDigits(n: nat)
    ensures n < 10 ==> Digits(n, 10) == [DigitChar(n)]
    ensures n >= 10 ==> Digits(n, 10) == Digits(n / 10, 10) + [DigitChar(n % 10)]
  {
  }

  lemma ReadOne(d: nat, rest: string, val: nat)
    requires d < 10
    ensures ParseDigits([DigitChar(d)] + rest, val) == ParseDigits(rest, (val * 10 + d) % W32)
  {
    DecimalDigit(d);
    assert ([DigitChar(d)] + rest)[1..] == rest;
  }

  /** The digits of every number are read as that number modulo 2^32, whatever follows. */
  lemma {:induction false} ReadsDigits(n: nat, rest: string)
    ensures ParseDigits(Digits(n, 10) + rest, 0) == ParseDigits(rest, n % W32)
    decreases n, 1
  {
    hide ParseDigits, Digits, DigitChar;
    SplitDigits(n);
    Rejoin(n);
    if n < 10 {
      ReadOne(n, rest, 0);
    } else {
      ReadsMore(n / 10, n % 10, n, rest);
    }
  }

  /** One more digit r after the digits of q. */
  lemma {:induction false} ReadsMore(q: nat, r: nat, n: nat, rest: string)
    requires r < 10 && q < n && q * 10 + r == n
    ensures ParseDigits(Digits(q, 10) + [DigitChar(r)] + rest, 0) == ParseDigits(rest, n % W32)
    decreases n, 0
  {
    hide ParseDigits, Digits, DigitChar;
    var tail := [DigitChar(r)] + rest;
    ReadOne(r, rest, q % W32);
    ReduceFirst(q, r);
    ReadsDigits(q, tail);
    assert Digits(q, 10) + [DigitChar(r)] + rest == Digits(q, 10) + tail;
  }

  function Fill(c: char, n: nat): string {
    if n == 0 then "" else [c] + Fill(c, n - 1)
  }

  lemma {:induction false} SkipsZeros(n: nat, rest: string)
    ensures ParseDigits(Fill('0', n) + rest, 0) == ParseDigits(rest, 0)
  {
    if n == 0 {
      assert Fill('0', 0) + rest == rest;
    } else {
      assert (Fill('0', n) + rest)[1..] == Fill('0', n - 1) + rest;
      SkipsZeros(n - 1, rest);
    }
  }

  lemma {:induction false} SkipsBlanks(n: nat, rest: string)
    ensures Parse(Fill(' ', n) + rest) == Parse(rest)
  {
    if n == 0 {
      assert Fill(' ', 0) + rest == rest;
    } else {
      assert (Fill(' ', n) + rest)[1..] == Fill(' ', n - 1) + rest;
      SkipsBlanks(n - 1, rest);
    }
  }

  predicate Fits32(n: int) {
    -0x8000_0000 <= n < 0x8000_0000
  }

  function Magnitude(n: int): nat {
    if n < 0 then -n else n
  }

  function Sign(n: int): string {
    if n < 0 then "-" else ""
  }

  lemma ReadsBody(m: nat, zeros: nat, rest: string)
    requires Stops(rest)
    ensures ParseDigits(Fill('0', zeros) + (Digits(m, 10) + rest), 0) == m % W32
  {
    hide Digits;
    ReadsDigits(m, rest);
    SkipsZeros(zeros, Digits(m, 10) + rest);
  }

  /** n reduced to a signed 32-bit number. */
  function S32(n: int): (w: int)
    ensures Fits32(w) && (w - n) % W32 == 0
  {
    Signed32(n % W32)
  }

  /**
   A sign, zeros, the digits of any number, and something else are read as that number reduced to 32 bits, which
   is the number exactly if it fits.
   */
  lemma ReadsNumber(n: int, zeros: nat, rest: string)
    requires Stops(rest)
    ensures Parse(Sign(n) + Fill('0', zeros) + Digits(Magnitude(n), 10) + rest) == S32(n)
    ensures Parse(Sign(n) + Fill('0', zeros) + Digits(Magnitude(n), 10) + rest) == n <==> Fits32(n)
  {
    hide ParseDigits, Digits, Signed32, Negate32, Fill, Stops, S32;
    var m := Magnitude(n);
    var body := Fill('0', zeros) + (Digits(m, 10) + rest);
    ReadsBody(m, zeros, rest);
    SignBack(n);
    StartsWithDigit(m, zeros, rest);
    assert Sign(n) + Fill('0', zeros) + Digits(m, 10) + rest == Sign(n) + body;
    SignedText(n, body);
  }

  /** A sign in front of digits. */
  lemma SignedText(n: int, body: string)
    requires body != "" && IsDigit(body[0])
    ensures Parse(Sign(n) + body) == if n < 0 then Signed32(Negate32(ParseDigits(body, 0)))
            else Signed32(ParseDigits(body, 0))
  {
    hide ParseDigits, Signed32, Negate32;
    if n < 0 {
      assert (Sign(n) + body)[1..] == body;
    } else {
      assert Sign(n) + body == body;
    }
  }

  lemma SignBack(n: int)
    ensures n < 0 ==> Signed32(Negate32(Magnitude(n) % W32)) == S32(n)
    ensures n >= 0 ==> Signed32(Magnitude(n) % W32) == S32(n)
    ensures S32(n) == n <==> Fits32(n)
  {
    hide Signed32, Negate32;
    NegateBack(n);
    FitsExactly(n);
  }

  lemma NegateBack(n: int)
    ensures n < 0 ==> Negate32(Magnitude(n) % W32) == n % W32
  {
    var k := n / W32;
    assert n == n % W32 + k * W32;
    if n < 0 {
      var r := if n % W32 == 0 then 0 else W32 - n % W32;
      Residue32(-n, if n % W32 == 0 then -k else -k - 1, r);
    }
  }

  lemma FitsExactly(n: int)
    ensures S32(n) == n <==> Fits32(n)
  {
    if 0 <= n < W32 {
      SmallWord(n);
    } else if -W32 <= n < 0 {
      Residue32(n, -1, n + W32);
    }
  }

  lemma {:induction false} FirstDigit(n: nat)
    ensures IsDigit(Digits(n, 10)[0])
    decreases n
  {
    if n < 10 {
      DecimalDigit(n);
    } else {
      FirstDigit(n / 10);
    }
  }

  lemma StartsWithDigit(m: nat, zeros: nat, rest: string)
    ensures IsDigit((Fill('0', zeros) + (Digits(m, 10) + rest))[0])
  {
    FirstDigit(m);
  }

  // ---------------------------------------------------------------- zeros after a number

  /** m after k more digits 0, in 32 bits. */
  function Zeroed(m: nat, k: nat): nat
    decreases k
  {
    if k == 0 then m else Zeroed((m * 10) % W32, k - 1)
  }

  lemma {:induction false} ReadsZeros(m: nat, k: nat)
    ensures ParseDigits(Fill('0', k), m) == Zeroed(m, k)
    decreases k
  {
    if k > 0 {
      assert Fill('0', k)[1..] == Fill('0', k - 1);
      assert DigitValue('0') == 0;
      ReadsZeros((m * 10) % W32, k - 1);
    }
  }

  ghost predicate Divides(d: int, x: int) {
    exists q :: x == d * q
  }

  lemma DividesBy(d: int, x: int, q: int)
    requires x == d * q
    ensures Divides(d, x)
  {
  }

  /** What divides a number and the modulus divides the residue. */
  lemma DividesResidue(d: int, x: int, w: int)
    requires Divides(d, x) && Divides(d, w) && w > 0
    ensures Divides(d, x % w)
  {
    var q :| x == d * q;
    var e :| w == d * e;
    var t := x / w;
    calc {
      x % w;
      x - w * t;
      d * q - d * e * t;
      { assert d * e * t == d * (e * t); assert d * q - d * (e * t) == d * (q - e * t); }
      d * (q - e * t);
    }
    DividesBy(d, x % w, q - e * t);
  }

  lemma DividesTen(d: int, x: int)
    requires Divides(d, x)
    ensures Divides(d, x * 10) && Divides(2 * d, x * 10)
  {
    var q :| x == d * q;
    assert x * 10 == d * (q * 10) && x * 10 == (2 * d) * (q * 5) by {
      assert d * q * 10 == d * (q * 10);
      assert (2 * d) * (q * 5) == d * q * 10;
    }
    DividesBy(d, x * 10, q * 10);
    DividesBy(2 * d, x * 10, q * 5);
  }

  /** The largest power of two that divides m. */
  function TwoPart(m: nat): nat
    requires m > 0
  {
    if m % 2 == 1 then 1 else 2 * TwoPart(m / 2)
  }

  lemma {:induction false} TwoPartExact(m: nat)
    requires m > 0
    ensures Divides(TwoPart(m), m) && !Divides(2 * TwoPart(m), m)
    decreases m
  {
    if m % 2 == 1 {
      DividesBy(1, m, m);
      forall q: int
        ensures m != 2 * q
      {
      }
    } else {
      var h, p := m / 2, TwoPart(m / 2);
      TwoPartExact(h);
      var q :| h == p * q;
      assert m == 2 * p * q;
      DividesBy(2 * p, m, q);
      forall q: int
        ensures m != 2 * (2 * p) * q
      {
        assert 2 * (2 * p) * q == 2 * ((2 * p) * q);
        if h == 2 * p * q {
          DividesBy(2 * p, h, q);
        }
      }
    }
  }

  lemma {:induction false} TwoPartDividesPower(m: nat, k: nat)
    requires 0 < m < Pow2(k)
    ensures Divides(2 * TwoPart(m), Pow2(k))
    decreases m
  {
    if m % 2 == 1 {
      DividesBy(2, Pow2(k), Pow2(k - 1));
    } else {
      TwoPartDividesPower(m / 2, k - 1);
      var p := 2 * TwoPart(m / 2);
      var q :| Pow2(k - 1) == p * q;
      assert Pow2(k) == 2 * p * q;
      DividesBy(2 * p, Pow2(k), q);
    }
  }

  lemma PowerIs()
    ensures Pow2(32) == W32
  {
    assert Pow2(8) == 256;
    assert Pow2(16) == 256 * Pow2(8);
    assert Pow2(24) == 256 * Pow2(16);
    assert Pow2(32) == 256 * Pow2(24);
  }

  lemma {:induction false} ZeroedDivides(m: nat, k: nat, d: nat)
    requires Divides(d, m) && Divides(d, W32)
    ensures Divides(d, Zeroed(m, k))
    decreases k
  {
    if k > 0 {
      DividesTen(d, m);
      DividesResidue(d, m * 10, W32);
      ZeroedDivides((m * 10) % W32, k - 1, d);
    }
  }

  /** A number other than 0 changes when zeros are added to it, even in 32 bits. */
  lemma ZeroedDiffers(m: nat, k: nat)
    requires m < W32
    ensures Zeroed(m, k) == m <==> m == 0 || k == 0
  {
    if m == 0 {
      ZeroStays(k);
    } else if k > 0 {
      PowerIs();
      var d := TwoPart(m);
      TwoPartExact(m);
      TwoPartDividesPower(m, 32);
      DividesTen(d, m);
      DividesResidue(2 * d, m * 10, W32);
      hide Divides, TwoPart;
      ZeroedDivides((m * 10) % W32, k - 1, 2 * d);
    }
  }

  lemma {:induction false} ZeroStays(k: nat)
    ensures Zeroed(0, k) == 0
  {
    if k > 0 {
      ZeroStays(k - 1);
    }
  }

  lemma {:induction false} ZeroedSmall(m: nat, k: nat)
    requires m < W32
    ensures Zeroed(m, k) < W32
    decreases k
  {
    if k > 0 {
      ZeroedSmall((m * 10) % W32, k - 1);
    }
  }

  lemma SignedOnce(z: nat, n: int)
    requires z < W32 && Fits32(n)
    ensures n < 0 ==> (Signed32(Negate32(z)) == n <==> z == Magnitude(n))
    ensures n >= 0 ==> (Signed32(z) == n <==> z == Magnitude(n))
  {
  }

  /** A number followed by zeros is read back as the number exactly if it is 0, or there are none. */
  lemma ReadsZeroTail(n: int, k: nat)
    requires Fits32(n)
    ensures Parse(Sign(n) + Digits(Magnitude(n), 10) + Fill('0', k)) == n <==> n == 0 || k == 0
  {
    hide ParseDigits, Digits, Signed32, Negate32, Fill, Zeroed, IsDigit, Sign, Parse;
    var m := Magnitude(n);
    assert m % W32 == m;
    var body := Digits(m, 10) + Fill('0', k);
    ReadsDigits(m, Fill('0', k));
    ReadsZeros(m, k);
    ZeroedSmall(m, k);
    ZeroedDiffers(m, k);
    SignedOnce(Zeroed(m, k), n);
    FirstDigit(m);
    assert Sign(n) + Digits(m, 10) + Fill('0', k) == Sign(n) + body;
    assert body[0] == Digits(m, 10)[0];
    SignedText(n, body);
  }
}
