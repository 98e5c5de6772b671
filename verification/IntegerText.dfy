/** The text of one integer or string conversion, with no bound on its length. */
module IntegerText {
  import opened CTypes
  import opened Numerals

  /** The PRINT_F_* flag bits. */
  datatype Flags = Flags(minus: bool, plus: bool, space: bool, num: bool, zero: bool,
                         quote: bool, up: bool, uns: bool)

  const NO_FLAGS := Flags(false, false, false, false, false, false, false, false)

  /** The value as a 64-bit magnitude. */
  function Magnitude(value: int, uns: bool): nat {
    if uns then AsUnsigned(value, W64) else if value < 0 then -value else value
  }

  function Sign(value: int, flags: Flags): (s: string)
    ensures |s| <= 1 && forall i :: 0 <= i < |s| ==> IsFill(s[i])
  {
    if flags.uns then ""
    else if value < 0 then "-"
    else if flags.plus then "+"
    else if flags.space then " "
    else ""
  }

  function HexPrefix(u: nat, base: int, flags: Flags): (s: string)
    ensures |s| == 0 || |s| == 2
  {
    if flags.num && u != 0 && base == 16 then (if flags.up then "0X" else "0x") else ""
  }

  /** The precision after `#` has raised it for octal. */
  function RaisedPrecision(u: nat, digits: int, base: int, precision: int, flags: Flags): int {
    if flags.num && u != 0 && base == 8 && precision <= digits then digits + 1 else precision
  }

  /** The sizes `fmtint` computes before it writes anything. */
  datatype Layout = Layout(sign: string, prefix: string, digits: string, precision: int, separators: int) {
    function ZeroPad(): int { Max(0, precision - |digits| - separators) }

    function SpacePad(width: int): int {
      Max(0, width - separators - Max(precision, |digits|) - |sign| - |prefix|)
    }
  }

  function LayoutOf(value: int, base: int, precision: int, flags: Flags): (l: Layout)
    requires FmtBase(base)
    ensures |l.digits| >= 1
  {
    var u := Magnitude(value, flags.uns);
    var digits := Numeral(u, base, flags.up);
    Layout(Sign(value, flags), HexPrefix(u, base, flags), digits,
           RaisedPrecision(u, |digits|, base, precision, flags),
           if flags.quote then NumSep(|digits|) else 0)
  }

  function Body(digits: string, flags: Flags): string {
    if flags.quote then Grouped(digits) else digits
  }

  /** Where `fmtint` puts its padding: left blanks, zeros, right blanks. */
  datatype Padding = Padding(left: int, zeros: int, right: int)

  function PaddingOf(l: Layout, width: int, noPrecision: bool, flags: Flags): (p: Padding)
    ensures p.left >= 0 && p.zeros >= 0 && p.right >= 0
  {
    if flags.minus then Padding(0, l.ZeroPad(), l.SpacePad(width))
    else if flags.zero && noPrecision then Padding(0, l.ZeroPad() + l.SpacePad(width), 0)
    else Padding(l.SpacePad(width), l.ZeroPad(), 0)
  }

  function Assemble(l: Layout, p: Padding, flags: Flags): string {
    Repeat(' ', p.left) + l.sign + l.prefix + Repeat('0', p.zeros) + Body(l.digits, flags)
    + Repeat(' ', p.right)
  }

  /** All the characters `fmtint` hands to OUTCHAR. */
  function RenderInt(value: int, base: int, width: int, precision: int, flags: Flags): string
    requires FmtBase(base)
  {
    var l := LayoutOf(value, base, precision, flags);
    Assemble(l, PaddingOf(l, width, precision == -1, flags), flags)
  }

  /** The part of a string a precision lets through; -1 stands for no precision. */
  function Clip(s: string, precision: int): string {
    if precision == -1 || |s| <= precision then s else s[..Max(precision, 0)]
  }

  /** A text in a field: blanks on the right for `-`, else on the left. */
  function InBlanks(body: string, width: int, flags: Flags): string {
    var blanks := Repeat(' ', width - |body|);
    if flags.minus then body + blanks else blanks + body
  }

  /** All the characters `fmtstr` hands to OUTCHAR. */
  function RenderStr(s: string, width: int, precision: int, flags: Flags): string {
    InBlanks(Clip(s, precision), width, flags)
  }

  // ----- field size -----

  lemma BodyLength(value: int, base: int, precision: int, flags: Flags)
    requires FmtBase(base)
    ensures var l := LayoutOf(value, base, precision, flags);
            |Body(l.digits, flags)| == |l.digits| + l.separators && l.separators >= 0
  {
    GroupedLength(LayoutOf(value, base, precision, flags).digits);
  }

  /** The size C99 and SUSv2 ask for: at least the width, and room for every part. */
  function IdealSize(l: Layout, width: int): int {
    Max(width, |l.sign| + |l.prefix| + l.separators + Max(l.precision, |l.digits|))
  }

  /**
  The field has exactly the ideal size unless separators are printed into digits that the
  precision (or the octal `#`) has already widened; then it is too short.
   */
  lemma FieldSize(value: int, base: int, width: int, precision: int, flags: Flags)
    requires FmtBase(base)
    ensures var l := LayoutOf(value, base, precision, flags);
            var n := |RenderInt(value, base, width, precision, flags)|;
            (n == IdealSize(l, width) <==> l.separators == 0 || l.precision <= |l.digits|)
            && n <= IdealSize(l, width)
  {
    BodyLength(value, base, precision, flags);
  }

  /** `fmtstr` fills exactly the width or the clipped text, flush to the side `-` selects. */
  lemma StringField(s: string, width: int, precision: int, flags: Flags)
    requires precision >= -1
    ensures var r, n := RenderStr(s, width, precision, flags), if precision == -1 then |s| else Min(precision, |s|);
            |r| == Max(width, n)
            && (if flags.minus then r[..n] == s[..n] else r[|r| - n..] == s[..n])
            && forall i :: (if flags.minus then n <= i < |r| else 0 <= i < |r| - n) ==> r[i] == ' '
  {
  }

  // ----- reading the field back -----

  predicate HasHexPrefix(t: string) { |t| >= 2 && t[0] == '0' && (t[1] == 'x' || t[1] == 'X') }

  /** Drops blanks, commas, sign and hexadecimal prefix and reads the numeral that is left. */
  function Read(text: string, base: int): int
    requires FmtBase(base)
  {
    var t := Strip(text);
    var v := Value(if HasHexPrefix(t) then t[2..] else t, base);
    if '-' in text then -v else v
  }

  lemma {:induction false} GroupedChars(ds: string, c: char)
    requires c in Grouped(ds)
    ensures c == ',' || c in ds
  {
    if |ds| > 3 && c !in ds[|ds| - 3..] && c != ',' { GroupedChars(ds[..|ds| - 3], c); }
  }

  lemma BodyStrips(ds: string, flags: Flags)
    requires AllDigits(ds)
    ensures Strip(Body(ds, flags)) == ds
    ensures '-' !in Body(ds, flags)
  {
    if flags.quote {
      StripGrouped(ds);
      if '-' in Grouped(ds) { GroupedChars(ds, '-'); }
    } else {
      StripKeeps(ds);
    }
  }

  lemma StripConcat3(a: string, b: string, c: string)
    ensures Strip(a + b + c) == Strip(a) + Strip(b) + Strip(c)
  {
    StripConcat(a + b, c);
    StripConcat(a, b);
  }

  lemma Regroup(a: string, b: string, c: string, d: string, e: string, f: string)
    ensures a + b + c + d + e + f == (a + b + c) + (d + e + f)
  {
  }

  lemma AssembleStrips(l: Layout, p: Padding, flags: Flags)
    requires AllDigits(l.digits)
    requires forall i :: 0 <= i < |l.sign| ==> IsFill(l.sign[i])
    requires forall i :: 0 <= i < |l.prefix| ==> !IsFill(l.prefix[i])
    ensures Strip(Assemble(l, p, flags)) == l.prefix + (Repeat('0', p.zeros) + l.digits)
  {
    var left, zeros, right := Repeat(' ', p.left), Repeat('0', p.zeros), Repeat(' ', p.right);
    var body := Body(l.digits, flags);
    BodyStrips(l.digits, flags);
    StripDrops(left);
    StripDrops(l.sign);
    StripKeeps(l.prefix);
    StripKeeps(zeros);
    StripDrops(right);
    StripConcat3(left, l.sign, l.prefix);
    StripConcat3(zeros, body, right);
    StripConcat(left + l.sign + l.prefix, zeros + body + right);
    Regroup(left, l.sign, l.prefix, zeros, body, right);
    assert [] + [] + l.prefix == l.prefix;
    assert zeros + l.digits + [] == zeros + l.digits;
  }

  lemma MinusOnlyInSign(l: Layout, p: Padding, flags: Flags)
    requires AllDigits(l.digits) && '-' !in l.prefix
    ensures '-' in Assemble(l, p, flags) <==> '-' in l.sign
  {
    BodyStrips(l.digits, flags);
    assert '-' !in Repeat(' ', p.left) && '-' !in Repeat('0', p.zeros) && '-' !in Repeat(' ', p.right);
  }

  lemma ValueWithZeros(zeros: int, ds: string, base: int)
    requires AllDigits(ds) && FmtBase(base)
    ensures var t := Repeat('0', zeros) + ds;
            !HasHexPrefix(t) && Value(t, base) == Value(ds, base)
  {
    LeadingZeros(zeros, ds, base);
    var t := Repeat('0', zeros) + ds;
    assert |t| >= 2 ==> DigitValue(t[1]) >= 0;
  }

  lemma PrefixDropped(prefix: string, t: string)
    requires prefix == "0x" || prefix == "0X"
    ensures HasHexPrefix(prefix + t) && (prefix + t)[2..] == t
  {
  }

  lemma ReadAssembled(l: Layout, p: Padding, flags: Flags, base: int)
    requires AllDigits(l.digits) && FmtBase(base)
    requires forall i :: 0 <= i < |l.sign| ==> IsFill(l.sign[i])
    requires l.prefix == "" || l.prefix == "0x" || l.prefix == "0X"
    ensures Read(Assemble(l, p, flags), base)
         == if '-' in l.sign then -Value(l.digits, base) else Value(l.digits, base)
  {
    forall i | 0 <= i < |l.prefix|
      ensures !IsFill(l.prefix[i])
    {
      assert l.prefix[i] == '0' || l.prefix[i] == 'x' || l.prefix[i] == 'X';
    }
    AssembleStrips(l, p, flags);
    MinusOnlyInSign(l, p, flags);
    ValueWithZeros(p.zeros, l.digits, base);
    var t := Repeat('0', p.zeros) + l.digits;
    if l.prefix == "" {
      assert l.prefix + t == t;
    } else {
      PrefixDropped(l.prefix, t);
    }
  }

  /** Reading the field back gives the original value, modulo 2^64 for unsigned conversions. */
  lemma RoundTrip(value: int, base: int, width: int, precision: int, flags: Flags)
    requires FmtBase(base)
    ensures Read(RenderInt(value, base, width, precision, flags), base)
         == if flags.uns then AsUnsigned(value, W64) else value
  {
    var u := Magnitude(value, flags.uns);
    var l := LayoutOf(value, base, precision, flags);
    NumeralDigits(u, base, flags.up);
    NumeralDenotes(u, base, flags.up);
    ReadAssembled(l, PaddingOf(l, width, precision == -1, flags), flags, base);
  }
}
