/**
The integer conversions as ISO/IEC 9899:1999 (C99), section 7.19.6.1, words them, with the `'` flag of the Single UNIX
Specification, version 2 (SUSv2), and exactly when the printer's text is that text.
 */
module Conformance {
  import opened CTypes
  import opened Numerals
  import opened IntegerText

  /**
  Paragraph 8: at least `precision` digits; zero with precision zero is no characters. The `'` flag groups
  the digits of the value.
   */
  function C99Digits(u: nat, base: int, precision: int, flags: Flags): string
    requires FmtBase(base)
  {
    if u == 0 && precision == 0 then "" else
      var ds := Numeral(u, base, flags.up);
      Repeat('0', precision - |ds|) + Body(ds, flags)
  }

  /** Paragraph 6, `#` with `o`: the first digit is forced to be a zero. */
  function ForceZero(s: string): string { if s != "" && s[0] == '0' then s else "0" + s }

  function C99Number(u: nat, base: int, precision: int, flags: Flags): string
    requires FmtBase(base)
  {
    var s := C99Digits(u, base, precision, flags);
    if flags.num && base == 8 then ForceZero(s) else s
  }

  /**
  Paragraphs 4 to 8 for `d`, `i`, `o`, `u`, `x` and `X`: pad `sign prefix number` to the width,
  on the right for `-`, else with zeros for `0` without a precision, else on the left.
   */
  function C99Int(value: int, base: int, width: int, precision: int, flags: Flags): string
    requires FmtBase(base)
  {
    var u := Magnitude(value, flags.uns);
    var head := Sign(value, flags) + HexPrefix(u, base, flags);
    var number := C99Number(u, base, precision, flags);
    InField(head, number, width, flags.minus, flags.zero && precision == -1)
  }

  function InField(head: string, number: string, width: int, minus: bool, zero: bool): string {
    var pad := width - |head| - |number|;
    if minus then head + number + Repeat(' ', pad)
    else if zero then head + Repeat('0', pad) + number
    else Repeat(' ', pad) + head + number
  }

  /** A zero is printed where no digit is asked for. */
  predicate DropsEmptyNumber(value: int, base: int, precision: int, flags: Flags) {
    Magnitude(value, flags.uns) == 0 && precision == 0 && !(flags.num && base == 8)
  }

  /** Separators are printed and taken off the zeros that the precision, or the octal `#`, asks for. */
  predicate CommasForZeros(value: int, base: int, precision: int, flags: Flags)
    requires FmtBase(base)
  {
    var u := Magnitude(value, flags.uns);
    var n := |Numeral(u, base, flags.up)|;
    flags.quote && n > 3 && RaisedPrecision(u, n, base, precision, flags) > n
  }

  /** The padding asked for: the zeros make up the precision, whatever separators there are. */
  function AskedPadding(l: Layout, width: int, noPrecision: bool, flags: Flags): (p: Padding)
    ensures p.left >= 0 && p.zeros >= 0 && p.right >= 0
  {
    var zeros := Max(0, l.precision - |l.digits|);
    if flags.minus then Padding(0, zeros, l.SpacePad(width))
    else if flags.zero && noPrecision then Padding(0, zeros + l.SpacePad(width), 0)
    else Padding(l.SpacePad(width), zeros, 0)
  }

  lemma BodyStarts(ds: string, flags: Flags)
    requires |ds| >= 1
    ensures Body(ds, flags) != "" && Body(ds, flags)[0] == ds[0]
  {
    GroupedLength(ds);
  }

  lemma ZeroForced(u: nat, precision: int, flags: Flags)
    requires u != 0
    ensures var ds := Numeral(u, 8, flags.up);
            ForceZero(C99Digits(u, 8, precision, flags)) ==
            Repeat('0', (if precision <= |ds| then |ds| + 1 else precision) - |ds|) + Body(ds, flags)
  {
    var ds := Numeral(u, 8, flags.up);
    NumeralDigits(u, 8, flags.up);
    BodyStarts(ds, flags);
    assert DigitValue('0') == 0;
    hide Numeral, Body, DigitValue;
    if precision <= |ds| {
      ForcedInFront(Body(ds, flags));
      assert Repeat('0', precision - |ds|) == [] && [] + Body(ds, flags) == Body(ds, flags);
      hide Repeat, ForceZero;
    } else {
      assert Repeat('0', precision - |ds|)[0] == '0';
      hide Repeat;
    }
  }

  lemma ForcedInFront(body: string)
    requires body != "" && body[0] != '0'
    ensures ForceZero(body) == Repeat('0', 1) + body
  {
    assert Repeat('0', 1) == Repeat('0', 0) + "0" == "0";
  }

  lemma ZeroHasZero(precision: int, base: int, flags: Flags)
    requires FmtBase(base)
    ensures ForceZero(C99Digits(0, base, precision, flags)) == Repeat('0', precision - 1) + "0"
  {
    NumeralDigits(0, base, flags.up);
    assert Repeat('0', -1) == "" && "" + "0" == "0";
  }

  lemma NumberText(value: int, base: int, precision: int, flags: Flags)
    requires FmtBase(base) && precision >= -1 && !DropsEmptyNumber(value, base, precision, flags)
    ensures var l := LayoutOf(value, base, precision, flags);
            C99Number(Magnitude(value, flags.uns), base, precision, flags)
            == Repeat('0', l.precision - |l.digits|) + Body(l.digits, flags)
  {
    hide Numeral, Sign, HexPrefix, Magnitude, Repeat, ForceZero;
    var u := Magnitude(value, flags.uns);
    if flags.num && base == 8 {
      if u == 0 {
        NumeralDigits(0, base, flags.up);
        assert Grouped("0") == "0";
        ZeroHasZero(precision, base, flags);
      } else {
        ZeroForced(u, precision, flags);
      }
    }
  }

  lemma RepeatMax(c: char, n: int)
    ensures Repeat(c, Max(0, n)) == Repeat(c, n)
  {
  }

  lemma RepeatSum(c: char, m: int, n: int)
    requires m >= 0 && n >= 0
    ensures Repeat(c, m + n) == Repeat(c, n) + Repeat(c, m)
  {
  }

  /** The field asked for is made of the printer's parts. */
  lemma C99Shape(value: int, base: int, width: int, precision: int, flags: Flags)
    requires FmtBase(base) && precision >= -1 && !DropsEmptyNumber(value, base, precision, flags)
    ensures var l := LayoutOf(value, base, precision, flags);
            C99Int(value, base, width, precision, flags)
            == Assemble(l, AskedPadding(l, width, precision == -1, flags), flags)
  {
    hide LayoutOf, C99Number, Body, Repeat, InField, Assemble, AskedPadding, DropsEmptyNumber;
    NumberText(value, base, precision, flags);
    BodyLength(value, base, precision, flags);
    LayoutParts(value, base, precision, flags);
    var l := LayoutOf(value, base, precision, flags);
    PartsInField(l, width, precision == -1, flags);
    RepeatMax('0', l.precision - |l.digits|);
  }

  lemma PartsInField(l: Layout, width: int, noPrecision: bool, flags: Flags)
    requires |Body(l.digits, flags)| == |l.digits| + l.separators
    ensures InField(l.sign + l.prefix, Repeat('0', Max(0, l.precision - |l.digits|)) + Body(l.digits, flags), width,
                    flags.minus, flags.zero && noPrecision)
         == Assemble(l, AskedPadding(l, width, noPrecision, flags), flags)
  {
    hide Body, Repeat;
    var zeros := Max(0, l.precision - |l.digits|);
    var head, number := l.sign + l.prefix, Repeat('0', zeros) + Body(l.digits, flags);
    var pad := width - |head| - |number|;
    assert l.SpacePad(width) == Max(0, pad);
    RepeatMax(' ', pad);
    RepeatMax('0', pad);
    RepeatSum('0', zeros, l.SpacePad(width));
    AssembleShapes(l.sign, l.prefix, Repeat('0', zeros), Body(l.digits, flags), pad);
  }

  lemma LayoutParts(value: int, base: int, precision: int, flags: Flags)
    requires FmtBase(base)
    ensures var l := LayoutOf(value, base, precision, flags);
            l.sign == Sign(value, flags) && l.prefix == HexPrefix(Magnitude(value, flags.uns), base, flags)
  {
  }

  /** The three ways to pad, regrouped. */
  lemma AssembleShapes(sign: string, prefix: string, zeros: string, digits: string, pad: int)
    ensures var none, blanks := Repeat(' ', 0), Repeat(' ', pad);
            none + sign + prefix + zeros + digits + blanks == sign + prefix + (zeros + digits) + blanks
            && blanks + sign + prefix + zeros + digits + none == blanks + (sign + prefix) + (zeros + digits)
            && none + sign + prefix + (Repeat('0', pad) + zeros) + digits + none
               == sign + prefix + Repeat('0', pad) + (zeros + digits)
  {
  }

  lemma AssembledLength(l: Layout, p: Padding, flags: Flags)
    requires p.left >= 0 && p.zeros >= 0 && p.right >= 0
    ensures |Assemble(l, p, flags)| == p.left + |l.sign| + |l.prefix| + p.zeros + |Body(l.digits, flags)| + p.right
  {
  }

  lemma DepartingInt(value: int, base: int, width: int, precision: int, flags: Flags)
    requires FmtBase(base) && DropsEmptyNumber(value, base, precision, flags)
    ensures RenderInt(value, base, width, precision, flags) != C99Int(value, base, width, precision, flags)
  {
    NoDigits(value, base, width, precision, flags);
    SomeDigits(value, base, width, precision, flags);
  }

  /** Where no digit is asked for there is only a sign in blanks. */
  lemma NoDigits(value: int, base: int, width: int, precision: int, flags: Flags)
    requires FmtBase(base) && DropsEmptyNumber(value, base, precision, flags)
    ensures Strip(C99Int(value, base, width, precision, flags)) == ""
  {
    hide Strip, Numeral;
    StripDrops(C99Int(value, base, width, precision, flags));
  }

  /** The printer always prints a digit. */
  lemma SomeDigits(value: int, base: int, width: int, precision: int, flags: Flags)
    requires FmtBase(base)
    ensures Strip(RenderInt(value, base, width, precision, flags)) != ""
  {
    var l := LayoutOf(value, base, precision, flags);
    NumeralDigits(Magnitude(value, flags.uns), base, flags.up);
    PrefixIsNoFill(Magnitude(value, flags.uns), base, flags);
    hide Strip, Numeral, Assemble, Repeat, HexPrefix;
    AssembleStrips(l, PaddingOf(l, width, precision == -1, flags), flags);
  }

  lemma PrefixIsNoFill(u: nat, base: int, flags: Flags)
    ensures forall i :: 0 <= i < |HexPrefix(u, base, flags)| ==> !IsFill(HexPrefix(u, base, flags)[i])
  {
  }

  /**
  The field is the one asked for exactly unless the value and the precision are both zero and no octal `#`
  asks for a zero, or separators have been taken off its zeros.
   */
  lemma IntMeetsC99(value: int, base: int, width: int, precision: int, flags: Flags)
    requires FmtBase(base) && precision >= -1
    ensures RenderInt(value, base, width, precision, flags) == C99Int(value, base, width, precision, flags)
       <==> !DropsEmptyNumber(value, base, precision, flags) && !CommasForZeros(value, base, precision, flags)
  {
    if DropsEmptyNumber(value, base, precision, flags) {
      DepartingInt(value, base, width, precision, flags);
    } else {
      C99Shape(value, base, width, precision, flags);
      SeparatorsMatter(value, base, precision, flags);
      hide DropsEmptyNumber, CommasForZeros, LayoutOf, Assemble, C99Int, Body;
      var l := LayoutOf(value, base, precision, flags);
      AssembledLength(l, AskedPadding(l, width, precision == -1, flags), flags);
      AssembledLength(l, PaddingOf(l, width, precision == -1, flags), flags);
    }
  }

  lemma SeparatorsMatter(value: int, base: int, precision: int, flags: Flags)
    requires FmtBase(base)
    ensures var l := LayoutOf(value, base, precision, flags);
            && l.separators >= 0
            && (CommasForZeros(value, base, precision, flags) <==> l.separators > 0 && l.precision > |l.digits|)
  {
    hide Numeral;
  }

  /** Reading the field asked for back gives the value. */
  lemma C99RoundTrip(value: int, base: int, width: int, precision: int, flags: Flags)
    requires FmtBase(base) && precision >= -1 && !DropsEmptyNumber(value, base, precision, flags)
    ensures Read(C99Int(value, base, width, precision, flags), base)
         == if flags.uns then AsUnsigned(value, W64) else value
  {
    var u := Magnitude(value, flags.uns);
    var l := LayoutOf(value, base, precision, flags);
    NumeralDigits(u, base, flags.up);
    NumeralDenotes(u, base, flags.up);
    C99Shape(value, base, width, precision, flags);
    hide C99Int, Read, Numeral, Assemble;
    ReadAssembled(l, AskedPadding(l, width, precision == -1, flags), flags, base);
  }

  predicate LeadsWithZero(s: string) { s != "" && s[0] == '0' }

  /** When zeros are padded in front of an octal `#` numeral of a value that is not zero. */
  predicate OctalZeroFits(value: int, width: int, precision: int, flags: Flags) {
    var n := |Numeral(Magnitude(value, flags.uns), 8, flags.up)|;
    var separators := if flags.quote then NumSep(n) else 0;
    || separators == 0
    || precision > n + separators
    || (flags.zero && !flags.minus && precision == -1 && width > |Sign(value, flags)| + n + 1 + separators)
  }

  lemma OctalPadding(value: int, width: int, precision: int, flags: Flags)
    requires flags.num && precision >= -1 && Magnitude(value, flags.uns) != 0
    ensures PaddingOf(LayoutOf(value, 8, precision, flags), width, precision == -1, flags).zeros > 0
       <==> OctalZeroFits(value, width, precision, flags)
  {
    hide Numeral, Sign, Magnitude;
  }

  /**
  C99 asks `#o` for a leading zero. The field has one exactly when the separators the `'` flag adds
  have not used up the zero padding.
   */
  lemma OctalZero(value: int, width: int, precision: int, flags: Flags)
    requires flags.num && precision >= -1 && Magnitude(value, flags.uns) != 0
    ensures LeadsWithZero(Strip(RenderInt(value, 8, width, precision, flags)))
       <==> OctalZeroFits(value, width, precision, flags)
  {
    var l := LayoutOf(value, 8, precision, flags);
    var p := PaddingOf(l, width, precision == -1, flags);
    NumeralDigits(Magnitude(value, flags.uns), 8, flags.up);
    OctalPadding(value, width, precision, flags);
    AssembleStrips(l, p, flags);
    assert l.prefix == "";
    hide Numeral, Assemble, PaddingOf, OctalZeroFits, Strip;
    assert Strip(Assemble(l, p, flags)) == Repeat('0', p.zeros) + l.digits;
  }
}
