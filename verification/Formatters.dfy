/** The bounded output buffer and the routines that format one conversion into it. */
module Formatters {
  import opened CTypes
  import opened Numerals
  import opened IntegerText
  import opened IntRange
  import opened Wrappers

  /** Cells of a buffer of `size` cells that hold text when `n` characters are output. */
  function Kept(n: nat, size: nat): nat {
    if size == 0 then 0 else Min(n, size - 1)
  }

  /**
  The `str`, `*len` and `size` every routine passes on. `len` counts all characters output;
  the buffer keeps those that leave room for a NUL.
   */
  class OutBuffer {
    const str: array?<char>
    const size: nat
    var len: nat

    ghost const before: seq<char>  // the buffer's cells at the start
    ghost var text: string  // every character output so far

    ghost predicate Valid()
      reads this, str
    {
      && len == |text|
      && (str == null ==> size == 0)
      && (str != null ==>
            && size <= str.Length == |before|
            && forall i :: 0 <= i < str.Length ==>
                             str[i] == if i < Kept(|text|, size) then text[i] else before[i])
    }

    constructor (buffer: array?<char>, capacity: nat)
      requires buffer != null ==> capacity <= buffer.Length
      ensures Valid() && text == [] && str == buffer
      ensures size == if buffer == null then 0 else capacity
      ensures buffer != null ==> before == buffer[..]
    {
      str := buffer;
      size := if buffer == null && capacity != 0 then 0 else capacity;
      len := 0;
      before := if buffer == null then [] else buffer[..];
      text := [];
    }

    /** OUTCHAR */
    method OutChar(ch: char)
      requires Valid()
      modifies this, str
      ensures Valid() && text == old(text) + [ch]
    {
      len := len + 1;
      if len < size {
        str[len - 1] := ch;
      }
      text := text + [ch];
    }

    /** The terminating NUL; the characters that did not fit are lost, the cells after it are kept. */
    method Terminate()
      requires Valid()
      modifies str
      ensures str != null && size > 0 ==>
                var k := Kept(|text|, size);
                str[..] == text[..k] + [NUL] + before[k + 1..]
      ensures str != null && size == 0 ==> str[..] == before
    {
      if len < size {
        str[len] := NUL;
      } else if size > 0 {
        str[size - 1] := NUL;
      }
    }

    /** The padding loops: one character `n` times. */
    method Pad(ch: char, n: int)
      requires Valid()
      modifies this, str
      ensures Valid() && text == old(text) + Repeat(ch, n)
    {
      var left := n;
      while left > 0
        invariant n >= 0 ==> 0 <= left <= n
        invariant Valid() && text == old(text) + Repeat(ch, n - Max(left, 0))
      {
        OutChar(ch);
        left := left - 1;
      }
    }
  }

  /**
  Writes the digits of `value` into `buf` in reverse order, at most `size` of them, and returns
  how many it wrote.
   */
  method Convert(value: nat, buf: array<char>, size: nat, base: int, caps: bool) returns (pos: nat)
    requires 1 <= size <= buf.Length && FmtBase(base)
    modifies buf
    ensures pos == Min(|Numeral(value, base, caps)|, size)
    ensures forall k :: 0 <= k < pos ==>
                          buf[k] == Numeral(value, base, caps)[|Numeral(value, base, caps)| - 1 - k]
  {
    hide Numeral, DigitChar;
    ghost var all := Numeral(value, base, caps);
    var v: nat, more := value, true;
    pos := 0;
    while more
      invariant more ==> pos < size && |all| == pos + |Numeral(v, base, caps)|
                         && Numeral(v, base, caps) <= all
      invariant !more ==> pos == Min(|all|, size)
      invariant forall k :: 0 <= k < pos ==> buf[k] == all[|all| - 1 - k]
      decreases more, v
    {
      LastDigit(v, base, caps);
      buf[pos] := DigitChar(v % base, caps);
      pos := pos + 1;
      v := v / base;
      more := v != 0 && pos < size;
    }
  }

  /**
  Memory in which `fmtstr` finds the end of the string: a NUL, or a cell at the precision, which it reads
  before it compares the position with the precision.
   */
  predicate Readable(value: seq<char>, precision: int) {
    NUL in value || 0 <= precision < |value|
  }

  /** C99, section 7.19.6.1, paragraph 8: with a precision no larger than the array there need be no NUL. */
  predicate Admitted(value: seq<char>, precision: int) {
    NUL in value || 0 <= precision <= |value|
  }

  function Pointee(value: Option<seq<char>>): seq<char> {
    match value
    case None => [NUL]
    case Some(s) => s
  }

  /**
  The length loop of `fmtstr`. Its test looks at cell `strln` first, so when it ends inside the array it has
  read exactly the cells up to `strln`; otherwise its next read would be outside.
   */
  method BoundedLength(s: seq<char>, precision: int) returns (strln: nat, inside: bool)
    requires precision >= -1
    ensures inside <==> strln < |s|
    ensures inside <==> Readable(s, precision)
    ensures inside ==> s[..strln] == Clip(Text(s), precision)
  {
    strln := 0;
    while strln < |s| && s[strln] != NUL && (precision == -1 || strln < precision)
      invariant strln <= FirstNul(s) && strln <= |s|
      invariant precision == -1 || strln <= precision
      decreases |s| - strln
    {
      strln := strln + 1;
    }
    inside := strln < |s|;
    NulBefore(s);
  }

  lemma NulBefore(s: seq<char>)
    ensures NUL in s <==> FirstNul(s) < |s|
  {
    var n := FirstNul(s);
    if n == |s| { assert s[..n] == s; }
  }

  /**
  Of the arrays C99 admits the loop leaves exactly those of just `precision` cells without a NUL; it
  reads the cell past their end.
   */
  lemma ReadLeavesArray(s: seq<char>, precision: int)
    requires precision >= -1 && Admitted(s, precision)
    ensures !Readable(s, precision) <==> NUL !in s && precision == |s|
    ensures Admitted("ab", 2) && !Readable("ab", 2)
  {
  }

  /** The copying loop of `fmtstr`. */
  method PutClipped(out: OutBuffer, s: seq<char>, precision: int)
    requires out.Valid() && precision >= -1 && Readable(s, precision)
    modifies out, out.str
    ensures out.Valid() && out.text == old(out.text) + Clip(Text(s), precision)
  {
    var i, left := 0, precision;
    while s[i] != NUL && (precision == -1 || left > 0)
      invariant i <= FirstNul(s) && i < |s|
      invariant precision == -1 || left == precision - i >= 0
      invariant out.Valid() && out.text == old(out.text) + s[..i]
      decreases |s| - i
    {
      out.OutChar(s[i]);
      i := i + 1;
      left := left - 1;
    }
    assert s[..i] == Clip(Text(s), precision);
  }

  method FmtStr(out: OutBuffer, value: Option<seq<char>>, width: int, precision: int, flags: Flags)
    requires out.Valid() && precision >= -1 && Readable(Pointee(value), precision)
    modifies out, out.str
    ensures out.Valid()
    ensures out.text == old(out.text) + RenderStr(Text(Pointee(value)), width, precision, flags)
  {
    var s := Pointee(value);
    var strln, _ := BoundedLength(s, precision);
    var padlen := width - strln;
    if padlen < 0 {
      padlen := 0;
    }
    if flags.minus {
      padlen := -padlen;
    }
    out.Pad(' ', padlen);
    PutClipped(out, s, precision);
    out.Pad(' ', -padlen);
  }

  ghost function DigitsText(ds: string, separators: int): string {
    if separators > 0 then Grouped(ds) else ds
  }

  predicate CommaDue(separators: int, pos: int) { separators > 0 && pos > 0 && pos % 3 == 0 }

  /** What is still to print when `pos` digits remain. */
  ghost function TailText(ds: string, pos: nat, separators: int): string
    requires pos <= |ds|
  {
    DigitsText(ds[|ds| - pos..], separators)
  }

  lemma TailSplits(ds: string, pos: nat, separators: int)
    requires pos < |ds|
    ensures var c, after := [ds[|ds| - 1 - pos]], TailText(ds, pos, separators);
            TailText(ds, pos + 1, separators) == if CommaDue(separators, pos) then c + "," + after else c + after
  {
    var rest := ds[|ds| - pos - 1..];
    assert rest[1..] == ds[|ds| - pos..] && rest == [rest[0]] + rest[1..];
    if separators > 0 {
      GroupedFromLeft(rest);
      assert [rest[0]] + "" == [rest[0]];
    }
  }

  lemma NextDigit(done: string, ds: string, pos: nat, separators: int)
    requires pos < |ds|
    ensures var c, after := [ds[|ds| - 1 - pos]], TailText(ds, pos, separators);
            done + TailText(ds, pos + 1, separators) ==
            if CommaDue(separators, pos) then done + c + "," + after else done + c + after
  {
    TailSplits(ds, pos, separators);
    hide TailText;
    var c, after := [ds[|ds| - 1 - pos]], TailText(ds, pos, separators);
    assert done + (c + "," + after) == done + c + "," + after;
    assert done + (c + after) == done + c + after;
  }

  /** The digit loop of `fmtint`: digits come out of the reversed buffer, commas between groups. */
  method PutDigits(out: OutBuffer, iconvert: array<char>, digits: nat, separators: int, ghost ds: string)
    requires out.Valid() && iconvert != out.str && |ds| == digits <= iconvert.Length
    requires forall k :: 0 <= k < digits ==> iconvert[k] == ds[|ds| - 1 - k]
    modifies out, out.str
    ensures out.Valid()
    ensures out.text == old(out.text) + DigitsText(ds, separators)
  {
    var pos := digits;
    ghost var goal := out.text + DigitsText(ds, separators);
    assert ds[0..] == ds && TailText(ds, 0, separators) == [];
    hide OutBuffer.Valid, TailText, DigitsText;
    while pos > 0
      invariant 0 <= pos <= digits
      invariant out.Valid()
      invariant forall k :: 0 <= k < digits ==> iconvert[k] == ds[|ds| - 1 - k]
      invariant out.text + TailText(ds, pos, separators) == goal
    {
      pos := pos - 1;
      NextDigit(out.text, ds, pos, separators);
      out.OutChar(iconvert[pos]);
      if CommaDue(separators, pos) {
        PrintSep(out);
      }
    }
  }

  method PrintSep(out: OutBuffer)
    requires out.Valid()
    modifies out, out.str
    ensures out.Valid() && out.text == old(out.text) + ","
  {
    out.OutChar(',');
  }

  /** A `char` variable that is 0 when there is nothing to print. */
  function CharText(c: char): string { if c == NUL then "" else [c] }

  function PrefixText(c: char): string { if c == NUL then "" else ['0', c] }

  method SignOf(value: int, flags: Flags) returns (uvalue: nat, sign: char)
    requires -Modulus(W64) <= 2 * value < Modulus(W64)
    ensures uvalue == Magnitude(value, flags.uns) < Modulus(W64)
    ensures CharText(sign) == Sign(value, flags)
  {
    sign := NUL;
    if flags.uns {
      uvalue := AsUnsigned(value, W64);
    } else {
      uvalue := if value >= 0 then value else -value;
      if value < 0 {
        sign := '-';
      } else if flags.plus {
        sign := '+';
      } else if flags.space {
        sign := ' ';
      }
    }
  }

  /** The `#` flag: octal raises the precision, hexadecimal adds a prefix. */
  method Alternate(uvalue: nat, pos: int, base: int, precision: int, flags: Flags)
    returns (prec: int, hexprefix: char)
    ensures prec == RaisedPrecision(uvalue, pos, base, precision, flags)
    ensures PrefixText(hexprefix) == HexPrefix(uvalue, base, flags)
  {
    prec, hexprefix := precision, NUL;
    if flags.num && uvalue != 0 {
      match base {
        case 8 =>
          if prec <= pos {
            prec := pos + 1;
          }
        case 16 =>
          hexprefix := if flags.up then 'X' else 'x';
        case _ =>
      }
    }
  }

  /** The padding arithmetic; a negative `spadlen` pads on the right. */
  method PadLengths(width: int, pos: int, prec: int, separators: int, sign: char, hexprefix: char,
                    noPrecision: bool, flags: Flags, ghost l: Layout)
    returns (zpadlen: int, spadlen: int)
    requires |l.digits| == pos && l.precision == prec && l.separators == separators
    requires l.sign == CharText(sign) && l.prefix == PrefixText(hexprefix)
    ensures var p := PaddingOf(l, width, noPrecision, flags);
            zpadlen == p.zeros && Max(spadlen, 0) == p.left && Max(-spadlen, 0) == p.right
  {
    zpadlen := prec - pos - separators;
    spadlen := width - separators - Max(prec, pos) - (if sign != NUL then 1 else 0)
               - (if hexprefix != NUL then 2 else 0);
    if zpadlen < 0 {
      zpadlen := 0;
    }
    if spadlen < 0 {
      spadlen := 0;
    }
    if flags.minus {
      spadlen := -spadlen;
    } else if flags.zero && noPrecision {
      zpadlen := zpadlen + spadlen;
      spadlen := 0;
    }
  }

  lemma RepeatClamps(c: char, n: int)
    ensures Repeat(c, n) == Repeat(c, Max(n, 0))
  {
  }

  lemma DigitsAreBody(ds: string, flags: Flags)
    requires |ds| >= 1
    ensures DigitsText(ds, if flags.quote then NumSep(|ds|) else 0) == Body(ds, flags)
  {
    GroupedLength(ds);
  }

  /** The writing half of `fmtint`. */
  method PutField(out: OutBuffer, sign: char, hexprefix: char, zpadlen: int, spadlen: int,
                  iconvert: array<char>, pos: nat, separators: int, ghost ds: string)
    requires out.Valid() && iconvert != out.str && |ds| == pos <= iconvert.Length
    requires forall k :: 0 <= k < pos ==> iconvert[k] == ds[|ds| - 1 - k]
    modifies out, out.str
    ensures out.Valid()
    ensures out.text == old(out.text) + Repeat(' ', spadlen) + CharText(sign) + PrefixText(hexprefix)
                        + Repeat('0', zpadlen) + DigitsText(ds, separators) + Repeat(' ', -spadlen)
  {
    hide OutBuffer.Valid, Repeat, DigitsText, Grouped;
    out.Pad(' ', spadlen);
    ghost var t0 := out.text;
    if sign != NUL {
      out.OutChar(sign);
    }
    assert out.text == t0 + CharText(sign);
    ghost var t1 := out.text;
    if hexprefix != NUL {
      out.OutChar('0');
      out.OutChar(hexprefix);
    }
    assert out.text == t1 + PrefixText(hexprefix);
    out.Pad('0', zpadlen);
    PutDigits(out, iconvert, pos, separators, ds);
    out.Pad(' ', -spadlen);
  }

  lemma Appended(t: string, a: string, b: string, c: string, d: string, e: string, f: string)
    ensures t + a + b + c + d + e + f == t + (a + b + c + d + e + f)
  {
  }

  method FmtInt(out: OutBuffer, value: int, base: int, width: int, precision: int, flags: Flags)
    requires out.Valid() && FmtBase(base)
    requires -Modulus(W64) <= 2 * value < Modulus(W64)
    modifies out, out.str
    ensures out.Valid()
    ensures out.text == old(out.text) + RenderInt(value, base, width, precision, flags)
  {
    hide OutBuffer.Valid, Repeat, Numeral, Grouped, DigitsText, Body;
    var iconvert := new char[MAX_CONVERT_LENGTH];
    var uvalue, sign := SignOf(value, flags);
    var pos := Convert(uvalue, iconvert, MAX_CONVERT_LENGTH, base, flags.up);
    ghost var ds := Numeral(uvalue, base, flags.up);
    DigitsOf64(uvalue, base, flags.up);
    var prec, hexprefix := Alternate(uvalue, pos, base, precision, flags);
    var separators := if flags.quote then NumSep(pos) else 0;
    ghost var l := Layout(CharText(sign), PrefixText(hexprefix), ds, prec, separators);
    assert l == LayoutOf(value, base, precision, flags);
    var zpadlen, spadlen := PadLengths(width, pos, prec, separators, sign, hexprefix, precision == -1, flags, l);
    DigitsAreBody(ds, flags);
    RepeatClamps(' ', spadlen);
    RepeatClamps(' ', -spadlen);
    Appended(out.text, Repeat(' ', spadlen), l.sign, l.prefix, Repeat('0', zpadlen), Body(ds, flags),
             Repeat(' ', -spadlen));
    PutField(out, sign, hexprefix, zpadlen, spadlen, iconvert, pos, separators, ds);
  }
}
