/**
The directives in their letters: what a format string of integer conversions prints, with every character, base and
number of bits written out, and what the other conversions do.
 */
module AskedText {
  import opened CTypes
  import opened Numerals
  import opened IntegerText
  import opened Conformance
  import opened FormatGrammar
  import opened FormatMeaning
  import opened FormatConformance
  import opened Wrappers

  // ----- arguments -----

  /** Bits of the argument a length modifier names. */
  function ArgBits(abi: Abi, m: string): int {
    if m == "hh" then 8
    else if m == "h" then 16
    else if m == "l" then (if abi.wideLong then 64 else 32)
    else if m == "ll" || m == "j" then 64
    else if m == "z" then (if abi.wideSize then 64 else 32)
    else if m == "t" then (if abi.widePtrdiff then 64 else 32)
    else 32
  }

  function TwoTo(bits: int): int {
    if bits == 8 then 256
    else if bits == 16 then 65536
    else if bits == 32 then 4294967296
    else 18446744073709551616
  }

  /** The low bits of a word, in two's complement when signed. */
  function LowValue(word: int, bits: int, signed: bool): int {
    var n := TwoTo(bits);
    var u := word % n;
    if signed && 2 * u >= n then u - n else u
  }

  // ----- integers -----

  function AskedDigits(u: nat, conv: char): string {
    if conv == 'o' then Numeral(u, 8, false)
    else if conv == 'x' then Numeral(u, 16, false)
    else if conv == 'X' then Numeral(u, 16, true)
    else Numeral(u, 10, false)
  }

  function AskedNumber(fs: string, precision: int, conv: char, u: nat): string {
    var ds := AskedDigits(u, conv);
    var shown := if '\'' in fs then Grouped(ds) else ds;
    var octal := conv == 'o' && '#' in fs;
    if u == 0 && precision == 0 then (if octal then "0" else "")
    else if octal && u != 0 && precision <= |ds| then "0" + shown
    else Repeat('0', precision - |ds|) + shown
  }

  function AskedSign(fs: string, conv: char, value: int): string {
    if conv != 'd' && conv != 'i' then ""
    else if value < 0 then "-"
    else if '+' in fs then "+"
    else if ' ' in fs then " "
    else ""
  }

  function AskedPrefix(fs: string, conv: char, value: int): string {
    if '#' !in fs || value == 0 then "" else if conv == 'x' then "0x" else if conv == 'X' then "0X" else ""
  }

  /** The text of an integer directive with the given flag characters; a precision of -1 is none. */
  function AskedInteger(fs: string, width: int, precision: int, conv: char, value: int): string {
    var head := AskedSign(fs, conv, value) + AskedPrefix(fs, conv, value);
    var number := AskedNumber(fs, precision, conv, if value < 0 then -value else value);
    var room := width - |head| - |number|;
    if '-' in fs then head + number + Repeat(' ', room)
    else if '0' in fs && precision == -1 then head + Repeat('0', room) + number
    else Repeat(' ', room) + head + number
  }

  predicate IntegerLetter(conv: char) {
    conv == 'd' || conv == 'i' || conv == 'o' || conv == 'u' || conv == 'x' || conv == 'X'
  }

  predicate SignedLetter(conv: char) { conv == 'd' || conv == 'i' }

  /** The flags stand for these characters. */
  predicate Letters(flags: Flags, fs: string) {
    && (flags.minus <==> '-' in fs) && (flags.plus <==> '+' in fs) && (flags.space <==> ' ' in fs)
    && (flags.num <==> '#' in fs) && (flags.zero <==> '0' in fs) && (flags.quote <==> '\'' in fs)
    && !flags.up && !flags.uns
  }

  lemma ValueIsAsked(abi: Abi, conv: char, m: string, word: int)
    requires IntegerLetter(conv) && IsMod(m)
    ensures C99Value(abi, conv, ModOf(m), word) == LowValue(word, ArgBits(abi, m), SignedLetter(conv))
  {
  }

  lemma NumberIsAsked(fs: string, precision: int, conv: char, value: int, flags: Flags)
    requires IntegerLetter(conv) && precision >= -1 && (SignedLetter(conv) || value >= 0)
    requires (flags.num <==> '#' in fs) && (flags.quote <==> '\'' in fs) && (flags.up <==> conv == 'X')
    ensures C99Number(if value < 0 then -value else value, BaseOf(conv), precision, flags)
         == AskedNumber(fs, precision, conv, if value < 0 then -value else value)
  {
    hide Numeral, Grouped, Repeat, ForceZero;
    var u := if value < 0 then -value else value;
    if flags.num && conv == 'o' {
      OctalIsAsked(fs, precision, u, flags);
    }
  }

  lemma OctalIsAsked(fs: string, precision: int, u: nat, flags: Flags)
    requires precision >= -1 && '#' in fs && (flags.quote <==> '\'' in fs) && !flags.up
    ensures ForceZero(C99Digits(u, 8, precision, flags)) == AskedNumber(fs, precision, 'o', u)
  {
    hide Numeral, Grouped, Repeat, ForceZero, C99Digits;
    if u == 0 {
      ZeroHasZero(precision, 8, flags);
      ZeroText(precision, flags);
    } else {
      ZeroForced(u, precision, flags);
      OneZero();
    }
  }

  lemma OneZero()
    ensures Repeat('0', 1) == "0"
  {
    assert Repeat('0', 0) == "";
  }

  lemma ZeroText(precision: int, flags: Flags)
    requires precision >= -1
    ensures Numeral(0, 8, false) == "0" && Grouped("0") == "0"
    ensures precision <= 1 ==> Repeat('0', precision - 1) == "" && "" + "0" == "0"
  {
    NumeralDigits(0, 8, false);
  }

  lemma HeadIsAsked(fs: string, conv: char, value: int, flags: Flags)
    requires IntegerLetter(conv) && (SignedLetter(conv) || value >= 0) && Letters(flags, fs)
    ensures var f := ConvFlags(conv, flags);
            Sign(value, f) == AskedSign(fs, conv, value)
            && HexPrefix(if value < 0 then -value else value, BaseOf(conv), f) == AskedPrefix(fs, conv, value)
  {
  }

  lemma MagnitudeIsAsked(abi: Abi, conv: char, m: string, word: int)
    requires IntegerLetter(conv)
    ensures var v := LowValue(word, ArgBits(abi, m), SignedLetter(conv));
            Magnitude(v, !SignedLetter(conv)) == (if v < 0 then -v else v) && (SignedLetter(conv) || v >= 0)
  {
  }

  lemma Flagged(conv: char, flags: Flags, fs: string)
    requires IntegerLetter(conv) && Letters(flags, fs)
    ensures var f := ConvFlags(conv, flags);
            && f.minus == ('-' in fs) && f.zero == ('0' in fs) && f.uns == !SignedLetter(conv)
            && f.num == ('#' in fs) && f.quote == ('\'' in fs) && f.up == (conv == 'X')
    ensures BaseOf(conv) == if conv == 'o' then 8 else if conv == 'x' || conv == 'X' then 16 else 10
  {
  }

  /** The text asked of an integer directive is the one in letters. */
  lemma IntegerIsAsked(abi: Abi, conv: char, p: Params, fs: string, m: string, slot: Slot)
    requires IntegerLetter(conv) && IsMod(m) && p.mod == ModOf(m) && p.precision >= -1 && Letters(p.flags, fs)
    ensures C99Integer(abi, conv, p, slot)
         == AskedInteger(fs, p.width, p.precision, conv, LowValue(slot.word, ArgBits(abi, m), SignedLetter(conv)))
  {
    hide LowValue, ArgBits, C99Value, AskedNumber, C99Number, AskedSign, AskedPrefix, Sign, HexPrefix, Repeat;
    hide Magnitude, BaseOf, ConvFlags, IntegerLetter, SignedLetter, Letters;
    var v := LowValue(slot.word, ArgBits(abi, m), SignedLetter(conv));
    Flagged(conv, p.flags, fs);
    ValueIsAsked(abi, conv, m, slot.word);
    MagnitudeIsAsked(abi, conv, m, slot.word);
    HeadIsAsked(fs, conv, v, p.flags);
    NumberIsAsked(fs, p.precision, conv, v, ConvFlags(conv, p.flags));
  }

  /** What the printer prints for an integer is that text exactly outside the departures. */
  lemma IntegerPrinted(abi: Abi, conv: char, p: Params, fs: string, m: string, slot: Slot)
    requires IntegerLetter(conv) && IsMod(m) && p.mod == ModOf(m) && p.precision >= -1 && Letters(p.flags, fs)
    ensures ConversionText(abi, conv, p, slot)
         == AskedInteger(fs, p.width, p.precision, conv, LowValue(slot.word, ArgBits(abi, m), SignedLetter(conv)))
       <==> !IntegerDeparts(abi, conv, p, slot)
  {
    hide ConversionText, AskedInteger, IntegerDeparts, C99Integer, LowValue;
    IntegerIsAsked(abi, conv, p, fs, m, slot);
    IntegerMeetsC99(abi, conv, p, slot);
  }

  /**
  Whatever the flags, width and precision: reading the text back, in base 16 for `x` and `X`, 8 for `o` and 10
  otherwise, gives the value fetched, modulo 2^64 when the conversion is not signed.
   */
  lemma IntegerReadsBack(abi: Abi, conv: char, p: Params, slot: Slot)
    requires !p.flags.uns
    ensures SignedLetter(conv) ==> Read(ConversionText(abi, conv, p, slot), 10) == SignedArg(abi, p.mod, slot.word)
    ensures var v := UnsignedArg(abi, p.mod, slot.word) % 18446744073709551616;
            && (conv == 'u' ==> Read(ConversionText(abi, conv, p, slot), 10) == v)
            && (conv == 'o' ==> Read(ConversionText(abi, conv, p, slot), 8) == v)
            && (conv == 'x' || conv == 'X' ==> Read(ConversionText(abi, conv, p, slot), 16) == v)
  {
    hide RenderInt, Read, SignedArg, UnsignedArg;
    var v := FetchedValue(abi, conv, p.mod, slot.word);
    RoundTrip(v, BaseOf(conv), p.width, p.precision, ConvFlags(conv, p.flags));
  }

  /** The digits of a numeral, by case. */
  lemma {:induction false} DigitCase(u: nat, base: int, up: bool)
    requires FmtBase(base)
    ensures forall c :: c in Numeral(u, base, up) ==>
                          '0' <= c <= '9' || (if up then 'A' <= c <= 'F' else 'a' <= c <= 'f')
  {
    Quotient(u, base);
    DigitCharCase(u % base, up);
    if u >= base {
      DigitCase(u / base, base, up);
      NumeralUnfolds(u, base, up);
    }
    hide DigitChar;
  }

  lemma DigitCharCase(d: int, up: bool)
    requires 0 <= d < 16
    ensures var c := DigitChar(d, up); '0' <= c <= '9' || (if up then 'A' <= c <= 'F' else 'a' <= c <= 'f')
  {
  }

  // ----- specifications -----

  /** The next argument read as a 32-bit signed integer. */
  function IntAt(env: Env, used: nat): int { LowValue(env.args(used).word, 32, true) }

  /** The flag characters, width and precision a specification comes to, and the arguments consumed by then. */
  datatype Numbers = Numbers(fs: string, width: int, precision: int, used: nat)

  function NumbersOf(spec: Spec, env: Env, used: nat): Numbers {
    var w := if spec.width.star then IntAt(env, used) else Value(spec.width.digits, 10);
    var next := if spec.width.star then used + 1 else used;
    var fs := if w < 0 then spec.flags + "-" else spec.flags;
    var width := if w < 0 then -w else w;
    match spec.precision
    case None => Numbers(fs, width, -1, next)
    case Some(f) =>
      if !f.star then Numbers(fs, width, Value(f.digits, 10), next)
      else Numbers(fs, width, if IntAt(env, next) < 0 then -1 else IntAt(env, next), next + 1)
  }

  lemma FlagsInLetters(fs: string, width: int)
    ensures Letters(WidthFlags(FlagsOf(fs), width), if width < 0 then fs + "-" else fs)
  {
    if width < 0 {
      assert (fs + "-")[|fs|] == '-' && forall c :: c in fs + "-" <==> c in fs || c == '-';
    }
  }

  lemma IntAtIs(env: Env, used: nat)
    ensures IntArg(env, used) == IntAt(env, used)
  {
  }

  lemma {:induction false} DigitsCount(ds: string)
    requires All(ds, Digit)
    ensures Value(ds, 10) >= 0
    decreases |ds|
  {
    if ds != "" { DigitsCount(ds[..|ds| - 1]); }
  }

  /** A specification is evaluated to its letters and numbers, unless a number is written above 2147483647. */
  lemma EvaluatedIsAsked(spec: Spec, env: Env, used: nat)
    requires All(spec.width.digits, Digit) && (spec.precision.Some? ==> All(spec.precision.value.digits, Digit))
    requires Value(spec.width.digits, 10) <= 2147483647
    requires spec.precision.Some? ==> Value(spec.precision.value.digits, 10) <= 2147483647
    ensures var e, n := EvalSpec(spec, env, used), NumbersOf(spec, env, used);
            && e.Evaluated? && e.used == n.used && Letters(e.params.flags, n.fs)
            && e.params.width == n.width && e.params.precision == n.precision >= -1 && e.params.mod == ModOf(spec.mod)
  {
    IntAtIs(env, used);
    IntAtIs(env, used + 1);
    DigitsCount(spec.width.digits);
    if spec.precision.Some? { DigitsCount(spec.precision.value.digits); }
    var w := if spec.width.star then IntAt(env, used) else Value(spec.width.digits, 10);
    FlagsInLetters(spec.flags, w);
    hide Value, IntAt, IntArg, FlagsOf, Letters, ModOf;
  }

  // ----- format strings -----

  predicate FlagLetters(fs: string) {
    forall c :: c in fs ==> c == '-' || c == '+' || c == ' ' || c == '#' || c == '0' || c == '\''
  }

  /** A width or precision in a format: digits, nothing, or `*`. */
  predicate NumberLetters(ds: string) { ds == "*" || forall c :: c in ds ==> '0' <= c <= '9' }

  function FieldOf(ds: string): Field { if ds == "*" then Field("", true) else Field(ds, false) }

  predicate ModLetters(m: string) {
    m == "" || m == "hh" || m == "h" || m == "l" || m == "ll" || m == "j" || m == "z" || m == "t"
  }

  predicate ConversionLetter(conv: char) {
    IntegerLetter(conv) || conv == 'c' || conv == 's' || conv == 'p' || conv == 'n' || conv == '%'
  }

  /** Flags, width, `.` and precision, modifier, as they are written. */
  function Written(fs: string, ws: string, ps: Option<string>, m: string): string {
    fs + ws + (match ps case None => "" case Some(ds) => "." + ds) + m
  }

  function SpecOf(fs: string, ws: string, ps: Option<string>, m: string): Spec {
    Spec(fs, FieldOf(ws), match ps case None => None case Some(ds) => Some(FieldOf(ds)), m)
  }

  lemma FieldShows(ds: string)
    requires NumberLetters(ds)
    ensures ShowField(FieldOf(ds)) == ds && All(FieldOf(ds).digits, Digit)
  {
    assert ds + "" == ds && "" + "*" == "*";
    assert forall i :: 0 <= i < |ds| ==> ds[i] in ds;
  }

  lemma SpecShows(fs: string, ws: string, ps: Option<string>, m: string)
    requires NumberLetters(ws) && (ps.Some? ==> NumberLetters(ps.value))
    ensures ShowSpec(SpecOf(fs, ws, ps, m)) == Written(fs, ws, ps, m)
  {
    FieldShows(ws);
    hide ShowField, FieldOf;
    var shown := ShowPrecision(SpecOf(fs, ws, ps, m).precision);
    if ps.Some? { FieldShows(ps.value); }
    assert fs + (ws + (shown + m)) == fs + ws + shown + m;
  }

  /** A text that begins with none of the letters a number or a flag goes on with. */
  predicate Breaks(after: string) {
    after != "" && !In(after[0], Digit) && !In(after[0], Flag) && after[0] != '*'
  }

  lemma ModifierBreaks(m: string, conv: char)
    requires ModLetters(m) && ConversionLetter(conv)
    ensures Breaks(m + [conv]) && (m + [conv])[0] != '.' && ModBefore(m, [conv])
  {
  }

  lemma FieldBreaks(ds: string, after: string)
    requires NumberLetters(ds) && Breaks(after)
    ensures FieldBefore(FieldOf(ds), after)
  {
    FieldShows(ds);
  }

  lemma WidthIsNoFlag(ws: string, after: string)
    requires NumberLetters(ws) && (ws != "" ==> ws[0] != '0') && Breaks(after)
    ensures !Starts(ws + after, Flag)
  {
    if ws != "" {
      assert (ws + after)[0] == ws[0] && ws[0] in ws;
    } else {
      assert ws + after == after;
    }
  }

  /** Every directive that is so written is read so. */
  lemma DirectiveIsRead(fs: string, ws: string, ps: Option<string>, m: string, conv: char)
    requires FlagLetters(fs) && NumberLetters(ws) && (ws != "" ==> ws[0] != '0')
    requires (ps.Some? ==> NumberLetters(ps.value)) && ModLetters(m) && ConversionLetter(conv)
    ensures Parse("%" + Written(fs, ws, ps, m) + [conv]) == Dir(SpecOf(fs, ws, ps, m), conv, End)
  {
    var spec, tail := SpecOf(fs, ws, ps, m), m + [conv];
    SpecShows(fs, ws, ps, m);
    ModifierBreaks(m, conv);
    FieldShows(ws);
    assert All(fs, Flag) by { FlagsAreFlags(fs); }
    if ps.Some? {
      FieldShows(ps.value);
      FieldBreaks(ps.value, tail);
    }
    hide Show, Parse, FieldBefore, ModBefore, ShowField, FieldOf, NumberLetters, ConversionLetter, Starts, All, Written;
    var afterWidth := ShowPrecision(spec.precision) + tail;
    assert Breaks(afterWidth);
    FieldBreaks(ws, afterWidth);
    WidthIsNoFlag(ws, afterWidth);
    assert PrecisionBefore(spec.precision, tail);
    assert SpecBefore(spec, [conv]);
    hide SpecBefore, ShowSpec;
    assert Show(End) == "" by { EndShows(); }
    assert "%" + Written(fs, ws, ps, m) + [conv] + "" == "%" + Written(fs, ws, ps, m) + [conv];
    assert WellFormed(End);
    DirectiveThen(spec, conv, End, "%" + Written(fs, ws, ps, m) + [conv]);
  }

  lemma FlagsAreFlags(fs: string)
    requires FlagLetters(fs)
    ensures All(fs, Flag)
  {
    assert forall i :: 0 <= i < |fs| ==> fs[i] in fs;
  }

  lemma EndShows()
    ensures Show(End) == ""
  {
  }

  /** A width or precision that is written is at most 2147483647. */
  predicate SmallEnough(ds: string) { ds == "*" || Value(ds, 10) <= 2147483647 }

  /**
  Every format that is one integer directive, however written: which arguments it takes, and exactly when its
  text is the one asked for.
   */
  lemma IntegerDirective(fs: string, ws: string, ps: Option<string>, m: string, conv: char, env: Env)
    requires FlagLetters(fs) && NumberLetters(ws) && (ws != "" ==> ws[0] != '0') && SmallEnough(ws)
    requires ps.Some? ==> NumberLetters(ps.value) && SmallEnough(ps.value)
    requires ModLetters(m) && IntegerLetter(conv)
    ensures var o := Meaning(Parse("%" + Written(fs, ws, ps, m) + [conv]), env, START);
            var e, n := EvalSpec(SpecOf(fs, ws, ps, m), env, 0), NumbersOf(SpecOf(fs, ws, ps, m), env, 0);
            var slot := env.args(n.used);
            var value := LowValue(slot.word, ArgBits(env.abi, m), SignedLetter(conv));
            && e.Evaluated? && !o.overflow && o.progress.used == n.used + 1 && o.progress.counts == []
            && (o.progress.text == AskedInteger(n.fs, n.width, n.precision, conv, value)
                <==> !IntegerDeparts(env.abi, conv, e.params, slot))
  {
    hide Parse, EvalSpec, NumbersOf, ConversionText, AskedInteger, IntegerDeparts, LowValue, Written, Meaning, Value;
    hide FlagLetters, NumberLetters, Letters, Perform;
    var spec := SpecOf(fs, ws, ps, m);
    DirectiveIsRead(fs, ws, ps, m, conv);
    SpecIsSmall(fs, ws, ps, m);
    EvaluatedIsAsked(spec, env, 0);
    var e, n := EvalSpec(spec, env, 0), NumbersOf(spec, env, 0);
    IntegerPrinted(env.abi, conv, e.params, n.fs, m, env.args(n.used));
    OneInteger(spec, conv, env);
  }

  lemma SpecIsSmall(fs: string, ws: string, ps: Option<string>, m: string)
    requires NumberLetters(ws) && SmallEnough(ws) && (ps.Some? ==> NumberLetters(ps.value) && SmallEnough(ps.value))
    ensures var spec := SpecOf(fs, ws, ps, m);
            && All(spec.width.digits, Digit) && Value(spec.width.digits, 10) <= 2147483647
            && (spec.precision.Some? ==>
                  All(spec.precision.value.digits, Digit) && Value(spec.precision.value.digits, 10) <= 2147483647)
  {
    FieldShows(ws);
    if ps.Some? { FieldShows(ps.value); }
    assert Value("", 10) == 0;
    hide Value, NumberLetters;
  }

  lemma OneInteger(spec: Spec, conv: char, env: Env)
    requires IntegerLetter(conv) && EvalSpec(spec, env, 0).Evaluated?
    ensures var e := EvalSpec(spec, env, 0);
            Meaning(Dir(spec, conv, End), env, START)
            == Outcome(Progress(ConversionText(env.abi, conv, e.params, env.args(e.used)), e.used + 1, []), false)
  {
    hide EvalSpec, ConversionText;
    var e := EvalSpec(spec, env, 0);
    var text := ConversionText(env.abi, conv, e.params, env.args(e.used));
    assert "" + text == text;
    assert Perform(env, conv, e.params, START.(used := e.used)) == Progress(text, e.used + 1, []);
    hide Perform;
  }

  // ----- the other conversions -----

  /** The text of a C string is what stands before its first zero character. */
  lemma TextEnds(s: CStr)
    ensures var t := Text(s); '\0' !in t && |t| < |s| && s[|t|] == '\0' && t == s[..|t|]
  {
    assert s[..|s|] == s;
  }

  /** A pointer argument: the low bits of the word. */
  function Pointer(env: Env, used: nat): int {
    env.args(used).word % (if env.abi.wideSize then TwoTo(64) else TwoTo(32))
  }

  /** A text in a field of blanks. */
  function Blanked(body: string, width: int, left: bool): string {
    if left then body + Repeat(' ', width - |body|) else Repeat(' ', width - |body|) + body
  }

  /** `%c`, `%%` and everything that is no conversion. */
  lemma CharacterConversions(env: Env, p: Params, now: Progress)
    ensures Perform(env, 'c', p, now)
         == Progress(now.text + [(env.args(now.used).word % 256) as char], now.used + 1, now.counts)
    ensures Perform(env, '%', p, now) == now.(text := now.text + "%")
    ensures forall conv :: !ConversionLetter(conv) ==> Perform(env, conv, p, now) == now
  {
    assert now.text + "" == now.text;
  }

  /** `%s`: the string, or the empty one for a null pointer, as far as the precision goes. */
  lemma StringConversion(env: Env, p: Params, now: Progress)
    requires p.precision >= -1
    ensures var t := if Pointer(env, now.used) == 0 then "" else Text(env.args(now.used).text);
            var body := if p.precision >= 0 && |t| > p.precision then t[..p.precision] else t;
            Perform(env, 's', p, now)
            == Progress(now.text + Blanked(body, p.width, p.flags.minus), now.used + 1, now.counts)
  {
    hide Repeat;
  }

  /** `%p`: `(nil)`, or the address as `%#lx` prints it. */
  lemma PointerConversion(env: Env, p: Params, now: Progress)
    ensures var a := Pointer(env, now.used);
            var long := p.(flags := p.flags.(num := true), mod := LongMod);
            var text := if a == 0 then Blanked("(nil)", p.width, p.flags.minus)
                        else ConversionText(env.abi, 'x', long, Slot(a, env.args(now.used).text));
            Perform(env, 'p', p, now) == Progress(now.text + text, now.used + 1, now.counts)
  {
    hide Repeat, RenderInt;
  }

  function BitsOf(w: Width): int {
    match w
    case W8 => 8
    case W16 => 16
    case W32 => 32
    case W64 => 64
  }

  /** `%n`: the low bits of the count so far, as many as the modifier says; for `t` as many as `long` has. */
  lemma CountConversion(env: Env, p: Params, m: string, now: Progress)
    requires IsMod(m) && p.mod == ModOf(m)
    ensures var bits := ArgBits(env.abi, if m == "t" then "l" else m);
            var next := Perform(env, 'n', p, now);
            && next.text == now.text && next.used == now.used + 1 && |next.counts| == |now.counts| + 1
            && next.counts[..|now.counts|] == now.counts
            && var c := next.counts[|now.counts|];
               c.address == Pointer(env, now.used) && BitsOf(c.width) == bits && c.bits == |now.text| % TwoTo(bits)
  {
    assert now.text + "" == now.text;
  }
}
