/** The buffer and `int` ranges `fmtint` and `convert` rely on. */
module IntRange {
  import opened CTypes
  import opened Numerals
  import opened IntegerText

  /** MAX_CONVERT_LENGTH: cells of the digit buffer. */
  const MAX_CONVERT_LENGTH: nat := 43

  const TWO_128: nat := 0x1_0000_0000_0000_0000_0000_0000_0000_0000

  lemma Powers()
    ensures Power(8, 21) == 0x8000_0000_0000_0000 && Power(8, 22) == 4 * Modulus(W64)
    ensures Power(10, 20) == 100000000000000000000
    ensures Power(16, 16) == Modulus(W64)
    ensures Power(8, 42) == 0x4000_0000_0000_0000_0000_0000_0000_0000 && Power(8, 43) == 2 * TWO_128
  {
    assert Power(8, 7) == 0x20_0000;
    assert Power(8, 14) == 0x400_0000_0000;
    assert Power(8, 21) == 0x8000_0000_0000_0000;
    assert Power(8, 28) == 0x10_0000_0000_0000_0000_0000;
    assert Power(8, 35) == 0x200_0000_0000_0000_0000_0000_0000;
    assert Power(8, 42) == 0x4000_0000_0000_0000_0000_0000_0000_0000;
    assert Power(10, 10) == 10000000000;
    assert Power(16, 8) == 0x1_0000_0000;
  }

  /** Most digits a 64-bit value has. */
  function MaxDigits(base: int): int
    requires FmtBase(base)
  {
    if base == 8 then 22 else if base == 10 then 20 else 16
  }

  lemma DigitsOf64(u: nat, base: int, up: bool)
    requires u < Modulus(W64) && FmtBase(base)
    ensures |Numeral(u, base, up)| <= MaxDigits(base)
  {
    Powers();
    NumeralLength(u, base, up, MaxDigits(base));
  }

  /**
  Forty-three cells hold every numeral below 2^128 in every base, and no fewer would:
  the octal numeral of 2^128 - 1 fills them.
   */
  lemma BufferSuffices(u: nat, base: int, up: bool)
    requires FmtBase(base)
    ensures u < TWO_128 ==> |Numeral(u, base, up)| <= MAX_CONVERT_LENGTH
    ensures |Numeral(TWO_128 - 1, 8, up)| == MAX_CONVERT_LENGTH
  {
    Powers();
    OctalIsLongest(base, 43);
    NumeralLength(u, base, up, 43);
    NumeralLength(TWO_128 - 1, 8, up, 43);
    NumeralLength(TWO_128 - 1, 8, up, 42);
  }

  predicate InInt(x: int) { -INT_MAX - 1 <= x <= INT_MAX }

  /** Every `int` subexpression `fmtint` evaluates while it lays the field out is an `int`. */
  predicate LayoutInInt(l: Layout, width: int) {
    var pos := |l.digits|;
    && InInt(pos + 1)
    && InInt(l.precision - pos) && InInt(l.precision - pos - l.separators)
    && InInt(width - l.separators)
    && InInt(width - l.separators - Max(l.precision, pos))
    && InInt(width - l.separators - Max(l.precision, pos) - |l.sign|)
    && InInt(width - l.separators - Max(l.precision, pos) - |l.sign| - |l.prefix|)
    && InInt(-l.SpacePad(width))
    && (l.precision <= pos + 1 ==> InInt(l.ZeroPad() + l.SpacePad(width)))
  }

  /** What the conversions pass to `fmtint`; only the decimal ones are signed. */
  predicate IntArguments(value: int, base: int, width: int, precision: int, flags: Flags) {
    && FmtBase(base) && (base != 10 ==> flags.uns) && 0 <= width <= INT_MAX && -1 <= precision <= INT_MAX
    && -Modulus(W64) <= 2 * value < Modulus(W64)
  }

  lemma LayoutBounds(value: int, base: int, width: int, precision: int, flags: Flags)
    requires IntArguments(value, base, width, precision, flags)
    ensures var l := LayoutOf(value, base, precision, flags);
            1 <= |l.digits| <= 22 && 0 <= l.separators <= 7
            && |l.sign| + |l.prefix| + l.separators <= 7 && -1 <= l.precision <= INT_MAX
  {
    var u := Magnitude(value, flags.uns);
    DigitsOf64(u, base, flags.up);
    GroupedLength(Numeral(u, base, flags.up));
  }

  /** The layout stays in `int` exactly when the printed part exceeds the width by at most INT_MAX + 1. */
  lemma LayoutRange(value: int, base: int, width: int, precision: int, flags: Flags)
    requires IntArguments(value, base, width, precision, flags)
    ensures var l := LayoutOf(value, base, precision, flags);
            LayoutInInt(l, width) <==>
            l.separators + Max(l.precision, |l.digits|) + |l.sign| + |l.prefix| - width <= INT_MAX + 1
  {
    LayoutBounds(value, base, width, precision, flags);
  }

  lemma WidestOctal()
    ensures |Numeral(Modulus(W64) - 1, 8, false)| == 22
  {
    Powers();
    NumeralLength(Modulus(W64) - 1, 8, false, 22);
    NumeralLength(Modulus(W64) - 1, 8, false, 21);
    hide Numeral, Power;
  }

  /** A value, base and flags for which a precision of INT_MAX - 5 is too much. */
  lemma UnsafePrecision()
    ensures !LayoutInInt(LayoutOf(-1, 8, INT_MAX - 5, NO_FLAGS.(quote := true, uns := true)), 0)
  {
    hide Numeral;
    assert Magnitude(-1, true) == Modulus(W64) - 1;
    WidestOctal();
    hide Magnitude;
  }

  /** A precision of at most INT_MAX - 6 is always safe, and INT_MAX - 5 is not. */
  lemma SafePrecision(value: int, base: int, width: int, precision: int, flags: Flags)
    requires IntArguments(value, base, width, precision, flags)
    ensures precision <= INT_MAX - 6 ==> LayoutInInt(LayoutOf(value, base, precision, flags), width)
    ensures !LayoutInInt(LayoutOf(-1, 8, INT_MAX - 5, NO_FLAGS.(quote := true, uns := true)), 0)
  {
    hide Numeral, LayoutInInt, Sign, HexPrefix;
    LayoutRange(value, base, width, precision, flags);
    LayoutBounds(value, base, width, precision, flags);
    UnsafePrecision();
  }

  /** Every `int` expression `fmtstr` evaluates: the length it counts, and the padding, either sign. */
  predicate StringInInt(text: string, width: int) {
    && InInt(|text|) && InInt(width - |text|)
    && InInt(Max(width - |text|, 0)) && InInt(-Max(width - |text|, 0))
  }

  /** They stay in `int` exactly when the string, as far as the precision lets it through, is at most INT_MAX long. */
  lemma StringRange(s: string, width: int, precision: int)
    requires 0 <= width <= INT_MAX && -1 <= precision <= INT_MAX
    ensures StringInInt(Clip(s, precision), width) <==> |Clip(s, precision)| <= INT_MAX
    ensures precision >= 0 ==> StringInInt(Clip(s, precision), width)
  {
  }
}
