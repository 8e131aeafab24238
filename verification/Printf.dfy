/**
 __vprintf (src/common/libc/printf/__printf.c), which goes through its format one character at a time, and
 snprintf (src/common/libc/printf/snprintf.c) on top of it.
 */
module Printf {
  import opened Numerals
  import opened Words

  datatype Size = INTSZ | LONGSZ | LLONGSZ | SIZETSZ

  /** An argument: a number, in two's complement, or a string. */
  datatype Arg = Number(v: int) | Text(s: string) | NoText

  /** What the modifiers of a directive have said so far. */
  datatype Spec = Spec(size: Size, alt: bool, left: bool, zero: bool, width: nat)

  const PLAIN := Spec(INTSZ, false, false, false, 0)

  // ---------------------------------------------------------------- what a format stands for

  predicate IsModifier(c: char) {
    c == '#' || c == '-' || c == 'l' || c == 'z' || IsDigit(c)
  }

  function Modify(spec: Spec, c: char): Spec
    requires IsModifier(c)
  {
    if c == '#' then spec.(alt := true)
    else if c == '-' then spec.(left := true)
    else if c == 'l' then spec.(size := if spec.size == LONGSZ then LLONGSZ else LONGSZ)
    else if c == 'z' then spec.(size := SIZETSZ)
    else if c == '0' && spec.width == 0 then spec.(zero := true)
    else spec.(width := spec.width * 10 + DigitValue(c))
  }

  /** The number of bits of an argument, on a 32-bit machine. */
  function Width(size: Size): nat {
    if size == LLONGSZ then W64 else W32
  }

  /** An argument as a number of so many bits, signed or not. */
  function AsUnsigned(v: int, w: nat): nat
    requires w > 0
  {
    v % w
  }

  function AsSigned(v: int, w: nat): int
    requires w > 0
  {
    if v % w < w / 2 then v % w else v % w - w
  }

  function ArgNumber(args: seq<Arg>): int {
    if args != [] && args[0].Number? then args[0].v else 0
  }

  function ArgText(args: seq<Arg>): string {
    if args != [] && args[0].Text? then args[0].s else "(null)"
  }

  function Rest(args: seq<Arg>): seq<Arg> {
    if args == [] then [] else args[1..]
  }

  predicate IsInteger(c: char) {
    c == 'd' || c == 'o' || c == 'u' || c == 'p' || c == 'x'
  }

  function BaseOf(c: char): nat {
    if c == 'x' || c == 'p' then 16 else if c == 'o' then 8 else 10
  }

  /** The sign and the magnitude to print. */
  predicate IsNegative(spec: Spec, c: char, v: int) {
    c == 'd' && AsSigned(v, Width(spec.size)) < 0
  }

  function ToPrint(spec: Spec, c: char, v: int): (n: nat)
    ensures n < W64
  {
    if c == 'p' then AsUnsigned(v, W32)
    else if c == 'd' then Magnitude(AsSigned(v, Width(spec.size)))
    else AsUnsigned(v, Width(spec.size))
  }

  function BasePrefix(spec: Spec, c: char): string {
    if (spec.alt || c == 'p') && BaseOf(c) == 16 then "0x"
    else if (spec.alt || c == 'p') && BaseOf(c) == 8 then "0"
    else ""
  }

  /** A field: prefixes and text, padded to the width on the left or on the right. */
  function Field(spec: Spec, prefix: string, prefix2: string, text: string): string {
    var len := |prefix| + |prefix2| + |text|;
    var pad := if spec.width > len then spec.width - len else 0;
    if spec.left then prefix + prefix2 + text + Numerals.Fill(if spec.zero then '0' else ' ', pad)
    else if spec.zero then prefix + prefix2 + Numerals.Fill('0', pad) + text
    else Numerals.Fill(' ', pad) + prefix + prefix2 + text
  }

  /** A character as a C string, which ends at a NUL. */
  function CharText(c: char): string {
    if c == '\0' then "" else [c]
  }

  predicate TakesArg(c: char) {
    IsInteger(c) || c == 's' || c == 'c'
  }

  /** What a directive prints. */
  function Directive(spec: Spec, c: char, args: seq<Arg>): string {
    if IsInteger(c) then
      var v := ArgNumber(args);
      Field(spec, if IsNegative(spec, c, v) then "-" else "", BasePrefix(spec, c),
            Digits(ToPrint(spec, c, v), BaseOf(c)))
    else if c == 's' then Field(spec, "", "", ArgText(args))
    else if c == 'c' then Field(spec, "", "", CharText((ArgNumber(args) % 256) as char))
    else Field(spec, "", "", CharText(c))
  }

  /** What a format prints, in ordinary text and within a directive. */
  function Render(fmt: string, args: seq<Arg>): string
    decreases |fmt|
  {
    if fmt == "" then ""
    else if fmt[0] != '%' then [fmt[0]] + Render(fmt[1..], args)
    else RenderIn(PLAIN, fmt[1..], args)
  }

  function RenderIn(spec: Spec, fmt: string, args: seq<Arg>): string
    decreases |fmt|
  {
    if fmt == "" then ""
    else if IsModifier(fmt[0]) then RenderIn(Modify(spec, fmt[0]), fmt[1..], args)
    else Directive(spec, fmt[0], args) + Render(fmt[1..], if TakesArg(fmt[0]) then Rest(args) else args)
  }

  // ---------------------------------------------------------------- snprintf's buffer

  /** The context of snprintf: stores what fits, and counts nothing. */
  class Snp {
    const buf: array<char>
    const buflen: nat
    var bufpos: nat
    ghost var sent: string

    /** The buffer starts with as much of the text sent as fits. */
    ghost predicate Valid()
      reads this, buf
    {
      && buflen <= buf.Length
      && bufpos == (if |sent| < buflen then |sent| else buflen)
      && buf[..bufpos] == sent[..bufpos]
    }

    constructor (buf: array<char>, len: nat)
      requires len <= buf.Length
      ensures this.buf == buf && buflen == (if len == 0 then 0 else len - 1) && Valid() && sent == ""
    {
      this.buf := buf;
      buflen := if len == 0 then 0 else len - 1;
      bufpos := 0;
      sent := "";
    }

    /** __snprintf_send. */
    method Send(data: string)
      requires Valid()
      modifies this, buf
      ensures Valid() && sent == old(sent) + data
      ensures buf[buflen..] == old(buf[buflen..])
    {
      var i := 0;
      assert old(sent) + data[..0] == old(sent);
      while i < |data|
        invariant i <= |data| && Valid() && sent == old(sent) + data[..i]
        invariant buf[buflen..] == old(buf[buflen..])
      {
        assert data[..i + 1] == data[..i] + [data[i]];
        if bufpos < buflen {
          buf[bufpos] := data[i];
          bufpos := bufpos + 1;
        }
        sent := sent + [data[i]];
        i := i + 1;
      }
      assert data[..i] == data;
    }
  }

  // ---------------------------------------------------------------- the printer

  class PF {
    const sink: Snp
    var args: seq<Arg>
    var charcount: nat
    var inPct: bool
    var size: Size
    var num: nat
    var neg: bool
    var spacing: nat
    var rightspc: bool
    var fillchar: char
    var base: nat
    var baseprefix: bool
    var altformat: bool

    ghost predicate Valid()
      reads this, sink, sink.buf
    {
      && sink.Valid() && charcount == |sink.sent|
      && num < W64 && (fillchar == ' ' || fillchar == '0')
      && (!inPct ==> Current() == PLAIN)
    }

    /** Between two characters of the format, no number is waiting to be printed. */
    ghost predicate Clean()
      reads this
    {
      !neg && !baseprefix
    }

    /** What the modifiers have said so far. */
    ghost function Current(): Spec
      reads this
    {
      Spec(size, altformat, rightspc, fillchar == '0', spacing)
    }

    /** What is still to come, given the rest of the format. */
    ghost function Pending(fmt: string): string
      reads this
    {
      if inPct then RenderIn(Current(), fmt, args) else Render(fmt, args)
    }

    constructor (sink: Snp, args: seq<Arg>)
      requires sink.Valid() && sink.sent == ""
      ensures this.sink == sink && this.args == args && Valid() && Clean() && !inPct && sink.sent == ""
    {
      this.sink := sink;
      this.args := args;
      charcount := 0;
      inPct, size, num, neg, spacing, rightspc := false, INTSZ, 0, false, 0, false;
      fillchar, base, baseprefix, altformat := ' ', 0, false, false;
    }

    /** __pf_print. */
    method Print(txt: string)
      requires sink.Valid() && charcount == |sink.sent|
      modifies this`charcount, sink, sink.buf
      ensures sink.Valid() && charcount == |sink.sent| && sink.sent == old(sink.sent) + txt
      ensures sink.buf[sink.buflen..] == old(sink.buf[sink.buflen..])
    {
      sink.Send(txt);
      charcount := charcount + |txt|;
    }

    /** __pf_endfield. */
    method EndField()
      requires sink.Valid() && charcount == |sink.sent|
      modifies this
      ensures Valid() && Clean() && !inPct && args == old(args) && charcount == old(charcount)
    {
      inPct, size, num, neg, spacing, rightspc := false, INTSZ, 0, false, 0, false;
      fillchar, base, baseprefix, altformat := ' ', 0, false, false;
    }

    /** __pf_modifier. */
    method Modifier(c: char)
      requires Valid() && inPct && IsModifier(c)
      modifies this
      ensures Valid() && inPct && Current() == Modify(old(Current()), c) && args == old(args)
      ensures neg == old(neg) && baseprefix == old(baseprefix)
    {
      if c == '#' {
        altformat := true;
      } else if c == '-' {
        rightspc := true;
      } else if c == 'l' {
        if size == LONGSZ {
          size := LLONGSZ;
        } else {
          size := LONGSZ;
        }
      } else if c == 'z' {
        size := SIZETSZ;
      } else if c == '0' {
        if spacing > 0 {
          spacing := spacing * 10;
        } else {
          fillchar := '0';
        }
      } else {
        spacing := spacing * 10 + DigitValue(c);
      }
    }

    /** __pf_fill. */
    method FillWith(n: nat)
      requires sink.Valid() && charcount == |sink.sent|
      modifies this`charcount, sink, sink.buf
      ensures sink.Valid() && charcount == |sink.sent| && sink.sent == old(sink.sent) + Numerals.Fill(fillchar, n)
      ensures sink.buf[sink.buflen..] == old(sink.buf[sink.buflen..])
    {
      var i := 0;
      while i < n
        invariant i <= n && sink.Valid() && charcount == |sink.sent|
        invariant sink.sent == old(sink.sent) + Numerals.Fill(fillchar, i)
        invariant sink.buf[sink.buflen..] == old(sink.buf[sink.buflen..])
      {
        FillMore(fillchar, i);
        Print([fillchar]);
        i := i + 1;
      }
    }

    /** Pads here, if this is the place for it. */
    method PadIf(here: bool, n: nat)
      requires sink.Valid() && charcount == |sink.sent|
      modifies this`charcount, sink, sink.buf
      ensures sink.Valid() && charcount == |sink.sent| && sink.sent == old(sink.sent) + Padding(here, fillchar, n)
      ensures sink.buf[sink.buflen..] == old(sink.buf[sink.buflen..])
    {
      if n > 0 && here {
        FillWith(n);
      }
    }

    /** __pf_printstuff. */
    method PrintStuff(prefix: string, prefix2: string, stuff: string)
      requires sink.Valid() && charcount == |sink.sent| && (fillchar == ' ' || fillchar == '0')
      modifies this`charcount, sink, sink.buf
      ensures sink.Valid() && charcount == |sink.sent|
      ensures sink.sent == old(sink.sent) + Field(Current(), prefix, prefix2, stuff)
      ensures sink.buf[sink.buflen..] == old(sink.buf[sink.buflen..])
    {
      hide Padding, Field, Snp.Valid;
      var len := |prefix| + |prefix2| + |stuff|;
      var spc := if spacing > len then spacing - len else 0;
      PadIf(!rightspc && fillchar != '0', spc);
      Print(prefix);
      Print(prefix2);
      PadIf(!rightspc && fillchar == '0', spc);
      Print(stuff);
      PadIf(rightspc, spc);
      FieldIs(Current(), fillchar, prefix, prefix2, stuff, old(sink.sent));
    }

    /** __pf_getnum: takes the argument that the type and the modifiers ask for. */
    method GetNum(c: char)
      requires Valid() && IsInteger(c)
      modifies this`num, this`neg, this`args
      ensures args == Rest(old(args)) && Valid()
      ensures num == ToPrint(Current(), c, ArgNumber(old(args)))
      ensures neg == (old(neg) || IsNegative(Current(), c, ArgNumber(old(args))))
    {
      var v := ArgNumber(args);
      args := Rest(args);
      if c == 'p' {
        num := AsUnsigned(v, W32);
      } else if c == 'd' {
        var signednum := AsSigned(v, Width(size));
        if signednum < 0 {
          neg := true;
          num := -signednum;
        } else {
          num := signednum;
        }
      } else {
        num := AsUnsigned(v, Width(size));
      }
    }

    /** __pf_setbase. */
    method SetBase(c: char)
      requires IsInteger(c)
      modifies this`base, this`baseprefix
      ensures base == BaseOf(c) && baseprefix == (old(baseprefix) || altformat || c == 'p')
    {
      if c == 'd' || c == 'u' {
        base := 10;
      } else if c == 'x' || c == 'p' {
        base := 16;
      } else {
        base := 8;
      }
      if altformat || c == 'p' {
        baseprefix := true;
      }
    }

    /** __pf_printnum. */
    method PrintNum()
      requires sink.Valid() && charcount == |sink.sent| && (fillchar == ' ' || fillchar == '0') && num < W64
               && IsBase(base)
      modifies this`charcount, sink, sink.buf
      ensures sink.Valid() && charcount == |sink.sent|
      ensures sink.sent == old(sink.sent)
                + Field(Current(), if neg then "-" else "",
                        if baseprefix && base == 16 then "0x" else if baseprefix && base == 8 then "0" else "",
                        Digits(num, base))
      ensures sink.buf[sink.buflen..] == old(sink.buf[sink.buflen..])
    {
      var buf := new char[BUFSIZE];
      var x := PrintDigits(num, base, buf);
      var bprefix := if baseprefix && base == 16 then "0x" else if baseprefix && base == 8 then "0" else "";
      var sprefix := if neg then "-" else "";
      PrintStuff(sprefix, bprefix, buf[x..BUFSIZE - 1]);
    }

    /** An integer directive. */
    method SendInteger(c: char)
      requires Valid() && Clean() && inPct && IsInteger(c)
      modifies this, sink, sink.buf
      ensures Valid() && Clean() && !inPct && args == Rest(old(args))
      ensures sink.sent == old(sink.sent) + Directive(old(Current()), c, old(args))
      ensures sink.buf[sink.buflen..] == old(sink.buf[sink.buflen..])
    {
      hide Digits, Field, ToPrint, IsNegative, Snp.Valid;
      GetNum(c);
      SetBase(c);
      PrintNum();
      EndField();
    }

    /** A directive that prints text. */
    method SendText(text: string, rest: seq<Arg>)
      requires Valid() && Clean() && inPct
      modifies this, sink, sink.buf
      ensures Valid() && Clean() && !inPct && args == rest
      ensures sink.sent == old(sink.sent) + Field(old(Current()), "", "", text)
      ensures sink.buf[sink.buflen..] == old(sink.buf[sink.buflen..])
    {
      PrintStuff("", "", text);
      args := rest;
      EndField();
    }

    /** A character that ends a directive. */
    method SendDirective(c: char)
      requires Valid() && Clean() && inPct && !IsModifier(c)
      modifies this, sink, sink.buf
      ensures Valid() && Clean() && !inPct && args == (if TakesArg(c) then Rest(old(args)) else old(args))
      ensures sink.sent == old(sink.sent) + Directive(old(Current()), c, old(args))
      ensures sink.buf[sink.buflen..] == old(sink.buf[sink.buflen..])
    {
      if IsInteger(c) {
        SendInteger(c);
      } else {
        TextDirective(Current(), c, args);
        hide Directive, Field, Snp.Valid;
        if c == 's' {
          SendText(ArgText(args), Rest(args));
        } else if c == 'c' {
          SendText(CharText((ArgNumber(args) % 256) as char), Rest(args));
        } else {
          SendText(CharText(c), args);
        }
      }
    }

    /** __pf_send: one character c of the format, of which rest is still to come. */
    method Send(c: char, ghost rest: string)
      requires Valid() && Clean()
      modifies this, sink, sink.buf
      ensures Valid() && Clean()
      ensures sink.sent + Pending(rest) == old(sink.sent + Pending([c] + rest))
      ensures sink.buf[sink.buflen..] == old(sink.buf[sink.buflen..])
    {
      PendingStep(inPct, Current(), c, rest, args);
      hide Render, RenderIn, Directive, Modify, Snp.Valid, TakesArg, IsModifier;
      if !inPct {
        if c != '%' {
          Joined(sink.sent, [c], Render(rest, args));
          Print([c]);
        } else {
          inPct := true;
        }
      } else if IsModifier(c) {
        Modifier(c);
      } else {
        Joined(sink.sent, Directive(Current(), c, args), Render(rest, if TakesArg(c) then Rest(args) else args));
        SendDirective(c);
      }
    }

    /** __vprintf. */
    method VPrintf(fmt: string) returns (chars: nat)
      requires Valid() && Clean() && !inPct && sink.sent == "" && '\0' !in fmt
      modifies this, sink, sink.buf
      ensures sink.Valid() && sink.sent == Render(fmt, old(args)) && chars == |sink.sent|
      ensures sink.buf[sink.buflen..] == old(sink.buf[sink.buflen..])
    {
      var i := 0;
      assert fmt[0..] == fmt;
      ghost var all := Render(fmt, args);
      while i < |fmt|
        invariant i <= |fmt| && Valid() && Clean()
        invariant sink.sent + Pending(fmt[i..]) == all
        invariant sink.buf[sink.buflen..] == old(sink.buf[sink.buflen..])
      {
        assert fmt[i..] == [fmt[i]] + fmt[i + 1..];
        Send(fmt[i], fmt[i + 1..]);
        i := i + 1;
      }
      assert Pending(fmt[i..]) == "";
      chars := charcount;
    }
  }

  lemma Joined(a: string, b: string, c: string)
    ensures a + (b + c) == a + b + c
  {
  }

  /** One character of a format. */
  lemma PendingStep(inPct: bool, spec: Spec, c: char, rest: string, args: seq<Arg>)
    ensures !inPct && c != '%' ==> Render([c] + rest, args) == [c] + Render(rest, args)
    ensures !inPct && c == '%' ==> Render([c] + rest, args) == RenderIn(PLAIN, rest, args)
    ensures inPct && IsModifier(c) ==> RenderIn(spec, [c] + rest, args) == RenderIn(Modify(spec, c), rest, args)
    ensures inPct && !IsModifier(c) ==>
              RenderIn(spec, [c] + rest, args)
                == Directive(spec, c, args) + Render(rest, if TakesArg(c) then Rest(args) else args)
  {
    assert ([c] + rest)[1..] == rest;
    hide Directive;
  }

  lemma TextDirective(spec: Spec, c: char, args: seq<Arg>)
    requires !IsInteger(c)
    ensures Directive(spec, c, args)
         == Field(spec, "", "",
                  if c == 's' then ArgText(args)
                  else if c == 'c' then CharText((ArgNumber(args) % 256) as char) else CharText(c))
  {
    hide Field;
  }

  /** vsnprintf: stores as much as fits, with a terminator, and returns the length of the whole text. */
  method Vsnprintf(buf: array<char>, len: nat, fmt: string, args: seq<Arg>) returns (chars: nat)
    requires len <= buf.Length && '\0' !in fmt
    modifies buf
    ensures chars == |Render(fmt, args)|
    ensures len > 0 ==> var n := if chars < len then chars else len - 1;
                        && buf[..n] == Render(fmt, args)[..n] && buf[n] == '\0'
    ensures buf[len..] == old(buf[len..])
  {
    hide Render;
    var snp := new Snp(buf, len);
    var pf := new PF(snp, args);
    chars := pf.VPrintf(fmt);
    ghost var b := if len == 0 then 0 else len - 1;
    TailOfTail(buf[..], old(buf[..]), b, len);
    if len > 0 {
      Terminate(buf, snp.bufpos, len);
    }
  }

  lemma TailOfTail(s: string, t: string, a: nat, b: nat)
    requires a <= b <= |s| == |t| && s[a..] == t[a..]
    ensures s[b..] == t[b..]
  {
    assert s[b..] == s[a..][b - a..] && t[b..] == t[a..][b - a..];
  }

  method Terminate(buf: array<char>, n: nat, len: nat)
    requires n < len <= buf.Length
    modifies buf
    ensures buf[..n] == old(buf[..n]) && buf[n] == '\0' && buf[len..] == old(buf[len..])
  {
    buf[n] := '\0';
  }

  function Padding(here: bool, c: char, n: nat): string {
    if here then Numerals.Fill(c, n) else ""
  }

  /** The pieces of a field, after what was there before. */
  lemma FieldIs(spec: Spec, fill: char, prefix: string, prefix2: string, stuff: string, s: string)
    requires spec.zero == (fill == '0') && (fill == ' ' || fill == '0')
    ensures var len := |prefix| + |prefix2| + |stuff|;
            var spc := if spec.width > len then spec.width - len else 0;
            s + Padding(!spec.left && fill != '0', fill, spc) + prefix + prefix2
              + Padding(!spec.left && fill == '0', fill, spc)
              + stuff + Padding(spec.left, fill, spc) == s + Field(spec, prefix, prefix2, stuff)
  {
    hide Numerals.Fill;
  }

  lemma {:induction false} FillMore(c: char, i: nat)
    ensures Numerals.Fill(c, i + 1) == Numerals.Fill(c, i) + [c]
  {
    if i > 0 {
      FillMore(c, i - 1);
    }
  }

  // ---------------------------------------------------------------- printing and parsing

  function ModifyAll(spec: Spec, mods: string): Spec
    requires forall i | 0 <= i < |mods| :: IsModifier(mods[i])
    decreases |mods|
  {
    if mods == "" then spec else ModifyAll(Modify(spec, mods[0]), mods[1..])
  }

  /** One modifier's effect on the field width as the source keeps it, in an int that wraps around. */
  function IntModify(width: int, c: char): int
    requires IsModifier(c)
  {
    if !IsDigit(c) || (c == '0' && width <= 0) then width else S32(width * 10 + DigitValue(c))
  }

  function IntWidth(width: int, mods: string): int
    requires forall i | 0 <= i < |mods| :: IsModifier(mods[i])
    decreases |mods|
  {
    if mods == "" then width else IntWidth(IntModify(width, mods[0]), mods[1..])
  }

  /** Modifiers never make a field narrower. */
  lemma {:induction false} WidthGrows(spec: Spec, mods: string)
    requires forall i | 0 <= i < |mods| :: IsModifier(mods[i])
    ensures ModifyAll(spec, mods).width >= spec.width
    decreases |mods|
  {
    if mods != "" {
      WidthGrows(Modify(spec, mods[0]), mods[1..]);
    }
  }

  lemma {:induction false} IntWidthFits(width: int, mods: string)
    requires (forall i | 0 <= i < |mods| :: IsModifier(mods[i])) && Fits32(width)
    ensures Fits32(IntWidth(width, mods))
    decreases |mods|
  {
    if mods != "" {
      IntWidthFits(IntModify(width, mods[0]), mods[1..]);
    }
  }

  lemma {:induction false} WidthAgrees(spec: Spec, mods: string)
    requires forall i | 0 <= i < |mods| :: IsModifier(mods[i])
    requires Fits32(ModifyAll(spec, mods).width)
    ensures IntWidth(spec.width, mods) == ModifyAll(spec, mods).width
    decreases |mods|
  {
    if mods != "" {
      var next := Modify(spec, mods[0]);
      WidthGrows(next, mods[1..]);
      FitsExactly(spec.width * 10 + if IsDigit(mods[0]) then DigitValue(mods[0]) else 0);
      assert IntModify(spec.width, mods[0]) == next.width;
      WidthAgrees(next, mods[1..]);
    }
  }

  /** The width in an int is the width that the modifiers spell exactly if that is below 2^31. */
  lemma WidthFits(mods: string)
    requires forall i | 0 <= i < |mods| :: IsModifier(mods[i])
    ensures IntWidth(0, mods) == ModifyAll(PLAIN, mods).width <==> ModifyAll(PLAIN, mods).width < 0x8000_0000
  {
    hide IntWidth, ModifyAll;
    IntWidthFits(0, mods);
    if Fits32(ModifyAll(PLAIN, mods).width) {
      WidthAgrees(PLAIN, mods);
    }
  }

  /** The modifiers of a directive take effect one after the other. */
  lemma {:induction false} RenderDirective(spec: Spec, mods: string, c: char, args: seq<Arg>)
    requires (forall i | 0 <= i < |mods| :: IsModifier(mods[i])) && !IsModifier(c)
    ensures RenderIn(spec, mods + [c], args) == Directive(ModifyAll(spec, mods), c, args)
    decreases |mods|
  {
    if mods == "" {
      assert mods + [c] == [c];
      assert [c][1..] == "";
      assert Directive(spec, c, args) + "" == Directive(spec, c, args);
    } else {
      assert (mods + [c])[1..] == mods[1..] + [c];
      RenderDirective(Modify(spec, mods[0]), mods[1..], c, args);
    }
  }

  lemma SmallSigned(n: int, size: Size)
    requires Fits32(n)
    ensures AsSigned(n, Width(size)) == n
  {
    if size == LLONGSZ {} else {}
  }

  /** The text of a %d directive. */
  function Decimal(spec: Spec, n: int): string {
    Field(spec, Sign(n), "", Digits(Magnitude(n), 10))
  }

  lemma RenderDecimal(mods: string, n: int)
    requires (forall i | 0 <= i < |mods| :: IsModifier(mods[i])) && Fits32(n)
    ensures Render("%" + mods + "d", [Number(n)]) == Decimal(ModifyAll(PLAIN, mods), n)
  {
    hide Render, RenderIn, Directive, Decimal, ModifyAll, Modify;
    var fmt := "%" + mods + "d";
    assert fmt[0] == '%' && fmt[1..] == mods + ['d'];
    RenderStart(fmt, [Number(n)]);
    RenderDirective(PLAIN, mods, 'd', [Number(n)]);
    DecimalDirective(ModifyAll(PLAIN, mods), n);
  }

  lemma RenderStart(fmt: string, args: seq<Arg>)
    requires fmt != "" && fmt[0] == '%'
    ensures Render(fmt, args) == RenderIn(PLAIN, fmt[1..], args)
  {
  }

  /**
   An unsigned directive prints, in its field, the argument modulo 2^32, or 2^64 for a long long, in base 10,
     8 or 16; with
   # or as a pointer the base is shown in front.
   */
  lemma UnsignedText(mods: string, c: char, v: int) returns (text: string)
    requires (forall i | 0 <= i < |mods| :: IsModifier(mods[i])) && c in "xoup"
    ensures var spec := ModifyAll(PLAIN, mods);
            var base := if c == 'o' then 8 else if c == 'u' then 10 else 16;
            var prefix := if c == 'p' || (spec.alt && c == 'x') then "0x" else if spec.alt && c == 'o' then "0" else "";
            && Render("%" + mods + [c], [Number(v)]) == Field(spec, "", prefix, text)
            && ValueOf(text, base) == v % (if spec.size == LLONGSZ && c != 'p' then W64 else W32)
            && (forall i | 0 <= i < |text| :: 0 <= CharValue(text[i]) < base)
            && text != "" && (text[0] == '0' ==> text == "0")
  {
    hide Render, RenderIn, ModifyAll, Modify, Field, ValueOf, CharValue, Digits;
    var spec := ModifyAll(PLAIN, mods);
    RenderOne(mods, c, [Number(v)]);
    var base := if c == 'o' then 8 else if c == 'u' then 10 else 16;
    var n := v % (if spec.size == LLONGSZ && c != 'p' then W64 else W32);
    text := Digits(n, base);
    DigitsSpell(n, base);
    LeadingZero(n, base);
  }

  lemma LeadingZero(n: nat, b: nat)
    requires IsBase(b)
    ensures Digits(n, b)[0] == '0' ==> Digits(n, b) == "0"
  {
    if n > 0 {
      hide Digits;
      DigitsSpell(n, b);
    }
  }

  lemma RenderOne(mods: string, c: char, args: seq<Arg>)
    requires (forall i | 0 <= i < |mods| :: IsModifier(mods[i])) && !IsModifier(c)
    ensures Render("%" + mods + [c], args) == Directive(ModifyAll(PLAIN, mods), c, args)
  {
    hide Render, RenderIn, Directive, ModifyAll, Modify;
    var fmt := "%" + mods + [c];
    assert fmt[0] == '%' && fmt[1..] == mods + [c];
    RenderStart(fmt, args);
    RenderDirective(PLAIN, mods, c, args);
  }

  /** A string, a character and a percent sign are printed as they are, in their field. */
  lemma PlainText(mods: string, s: string, c: char)
    requires forall i | 0 <= i < |mods| :: IsModifier(mods[i])
    requires '\0' < c <= 255 as char
    ensures var spec := ModifyAll(PLAIN, mods);
            && Render("%" + mods + "s", [Text(s)]) == Field(spec, "", "", s)
            && Render("%" + mods + "c", [Number(c as int)]) == Field(spec, "", "", [c])
            && Render("%" + mods + "%", []) == Field(spec, "", "", "%")
  {
    hide Render, RenderIn, ModifyAll, Modify, Field, Directive;
    RenderOne(mods, 's', [Text(s)]);
    RenderOne(mods, 'c', [Number(c as int)]);
    RenderOne(mods, '%', []);
    TextDirective(ModifyAll(PLAIN, mods), 's', [Text(s)]);
    TextDirective(ModifyAll(PLAIN, mods), 'c', [Number(c as int)]);
    TextDirective(ModifyAll(PLAIN, mods), '%', []);
    SmallChar(c);
  }

  lemma SmallChar(c: char)
    requires c <= 255 as char
    ensures (c as int % 256) as char == c
  {
  }

  lemma {:induction false} FillIs(c: char, n: nat)
    ensures |Numerals.Fill(c, n)| == n && forall i | 0 <= i < n :: Numerals.Fill(c, n)[i] == c
  {
    if n > 0 {
      FillIs(c, n - 1);
    }
  }

  /** A field is as wide as asked for, or as its text needs; the padding is outside the text, zeros after the sign. */
  lemma FieldIsPadded(spec: Spec, prefix: string, prefix2: string, text: string)
    ensures var f, len := Field(spec, prefix, prefix2, text), |prefix| + |prefix2| + |text|;
            var fill := if spec.zero then '0' else ' ';
            && |f| == (if spec.width > len then spec.width else len)
            && if spec.left then
                 f[..len] == prefix + prefix2 + text && forall i | len <= i < |f| :: f[i] == fill
               else if spec.zero then
                 && f[..|prefix| + |prefix2|] == prefix + prefix2 && f[|f| - |text|..] == text
                 && forall i | |prefix| + |prefix2| <= i < |f| - |text| :: f[i] == '0'
               else
                 f[|f| - len..] == prefix + prefix2 + text && forall i | 0 <= i < |f| - len :: f[i] == ' '
  {
    var len := |prefix| + |prefix2| + |text|;
    var pad := if spec.width > len then spec.width - len else 0;
    FillIs('0', pad);
    FillIs(' ', pad);
    hide Numerals.Fill;
  }

  lemma DecimalDirective(spec: Spec, n: int)
    requires Fits32(n)
    ensures Directive(spec, 'd', [Number(n)]) == Decimal(spec, n)
  {
    hide Field, Digits, AsSigned, AsUnsigned, Width;
    SmallSigned(n, spec.size);
  }

  /** How much a decimal is padded. */
  function DecimalPad(spec: Spec, n: int): nat {
    var len := |Sign(n)| + |Digits(Magnitude(n), 10)|;
    if spec.width > len then spec.width - len else 0
  }

  lemma BlanksStop(n: nat)
    ensures Stops(Numerals.Fill(' ', n))
  {
  }

  /** Parsing undoes printing, except for zeros on the right of a number other than 0. */
  lemma DecimalParses(spec: Spec, n: int)
    requires Fits32(n)
    ensures Parse(Decimal(spec, n)) == n <==> !(spec.left && spec.zero) || DecimalPad(spec, n) == 0 || n == 0
  {
    hide Parse, Digits, S32;
    var pad, sign, digits := DecimalPad(spec, n), Sign(n), Digits(Magnitude(n), 10);
    assert Numerals.Fill('0', 0) == "";
    if spec.left && spec.zero {
      ReadsZeroTail(n, pad);
      assert Decimal(spec, n) == sign + digits + Numerals.Fill('0', pad);
    } else if spec.left {
      BlanksStop(pad);
      ReadsNumber(n, 0, Numerals.Fill(' ', pad));
      assert Decimal(spec, n) == sign + "" + digits + Numerals.Fill(' ', pad);
    } else if spec.zero {
      ReadsNumber(n, pad, "");
      assert Decimal(spec, n) == sign + Numerals.Fill('0', pad) + digits + "";
    } else {
      ReadsNumber(n, 0, "");
      SkipsBlanks(pad, sign + "" + digits + "");
      assert Decimal(spec, n) == Numerals.Fill(' ', pad) + (sign + "" + digits + "");
    }
  }

  /**
   atoi of what %d prints gives the number back, for every 32-bit number and all modifiers, exactly under this
   condition.
   */
  lemma PrintThenParse(mods: string, n: int)
    requires (forall i | 0 <= i < |mods| :: IsModifier(mods[i])) && Fits32(n)
    ensures var spec := ModifyAll(PLAIN, mods);
            Parse(Render("%" + mods + "d", [Number(n)])) == n <==>
              !(spec.left && spec.zero) || DecimalPad(spec, n) == 0 || n == 0
  {
    hide Render, Decimal, Parse, DecimalPad;
    RenderDecimal(mods, n);
    DecimalParses(ModifyAll(PLAIN, mods), n);
  }

  lemma Flags()
    ensures var mods := "-02";
            (forall i | 0 <= i < |mods| :: IsModifier(mods[i]))
            && ModifyAll(PLAIN, mods) == Spec(INTSZ, false, true, true, 2)
  {
    var s1 := PLAIN.(left := true);
    var s2 := s1.(zero := true);
    assert "-02"[1..] == "02" && "02"[1..] == "2" && "2"[1..] == "";
    assert Modify(PLAIN, '-') == s1 && Modify(s1, '0') == s2 && Modify(s2, '2') == s2.(width := 2);
    assert ModifyAll(s2, "2") == ModifyAll(s2.(width := 2), "");
    assert ModifyAll(s1, "02") == ModifyAll(s2, "2");
  }

  /** With both flags it can fail: five in a field of two is printed as fifty. */
  lemma FiveIsFifty()
    ensures Render("%-02d", [Number(5)]) == "50" && Parse(Render("%-02d", [Number(5)])) != 5
  {
    var spec := Spec(INTSZ, false, true, true, 2);
    Flags();
    assert "%" + "-02" + "d" == "%-02d";
    RenderDecimal("-02", 5);
    PrintThenParse("-02", 5);
    assert Decimal(spec, 5) == "50" by {
      assert Digits(5, 10) == "5";
      assert Numerals.Fill('0', 1) == "0";
    }
    assert DecimalPad(spec, 5) == 1;
  }
}
