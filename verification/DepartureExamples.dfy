/** Each departure at a format and arguments that show it. */
module DepartureExamples {
  import opened CTypes
  import opened Numerals
  import opened IntegerText
  import opened Conformance
  import opened FormatGrammar
  import opened FormatMeaning
  import opened FormatConformance
  import opened Departures
  import opened Printer
  import opened Wrappers

  lemma OneDirective(spec: Spec, conv: char, s: string)
    requires s == "%" + ShowSpec(spec) + [conv] && SpecBefore(spec, [conv])
    ensures Parse(s) == Dir(spec, conv, End)
  {
    hide Parse, SpecBefore, ShowSpec;
    assert s == s + Show(End);
    DirectiveThen(spec, conv, End, s);
  }

  /** The outcome of one directive that prints, takes one argument and stores nothing. */
  function Prints(text: string): Outcome { Outcome(Progress(text, 1, []), false) }

  function Then(now: Progress, text: string): Progress { Progress(now.text + text, now.used + 1, now.counts) }

  /** A directive that prints and takes one argument. */
  lemma Continues(spec: Spec, conv: char, p: Params, rest: Format, env: Env, lib: Platform, now: Progress)
    requires EvalSpec(spec, env, now.used) == Evaluated(p, now.used)
    requires Defined(spec, conv, p) && conv != 'n' && !IsFloating(conv)
    ensures var f, slot := Dir(spec, conv, rest), env.args(now.used);
            && Meaning(f, env, now) == Meaning(rest, env, Then(now, ConversionText(env.abi, conv, p, slot)))
            && C99Meaning(f, env, lib, now)
               == C99Meaning(rest, env, lib, Then(now, C99Text(env.abi, lib, conv, p, slot)))
  {
    hide EvalSpec, Defined, ConversionText, C99Text;
    DefinedKinds(spec, conv, p);
    assert now.(used := now.used) == now;
    assert !IsLongDouble(Dir(spec, conv, rest)) by { LNotDefined(spec, conv, p); }
  }

  lemma LNotDefined(spec: Spec, conv: char, p: Params)
    requires Defined(spec, conv, p)
    ensures conv != 'L'
  {
  }

  lemma Printed(spec: Spec, conv: char, p: Params, env: Env, lib: Platform)
    requires EvalSpec(spec, env, 0) == Evaluated(p, 0) && Defined(spec, conv, p) && conv != 'n' && !IsFloating(conv)
    ensures var f := Dir(spec, conv, End);
            && Meaning(f, env, START) == Prints(ConversionText(env.abi, conv, p, env.args(0)))
            && C99Meaning(f, env, lib, START) == Prints(C99Text(env.abi, lib, conv, p, env.args(0)))
  {
    hide EvalSpec, Defined, ConversionText, C99Text;
    Continues(spec, conv, p, End, env, lib, START);
    var slot := env.args(0);
    assert "" + ConversionText(env.abi, conv, p, slot) == ConversionText(env.abi, conv, p, slot);
    assert "" + C99Text(env.abi, lib, conv, p, slot) == C99Text(env.abi, lib, conv, p, slot);
  }

  /** A specification without `*` evaluates to its numbers. */
  lemma Evaluates(spec: Spec, env: Env, width: int, precision: int, used: nat)
    requires !spec.width.star && 0 <= width <= INT_MAX && Value(spec.width.digits, 10) == width
    requires match spec.precision
             case None => precision == -1
             case Some(f) => !f.star && 0 <= precision <= INT_MAX && Value(f.digits, 10) == precision
    ensures EvalSpec(spec, env, used) == Evaluated(Params(FlagsOf(spec.flags), width, precision, ModOf(spec.mod)), used)
  {
    hide Value, FlagsOf, ModOf;
  }

  lemma DigitIs(ds: string, n: int)
    requires |ds| == 1 && DigitValue(ds[0]) == n
    ensures Value(ds, 10) == n
  {
    assert ds[..0] == "";
  }

  // ----- how the formats are read -----

  const POINT_ZERO := BARE.(precision := Some(Field("0", false)))

  lemma ReadsPointZero()
    ensures Parse("%.0d") == Dir(POINT_ZERO, 'd', End)
  {
    assert ShowSpec(POINT_ZERO) == ".0";
    OneDirective(POINT_ZERO, 'd', "%.0d");
  }

  const WIDTH_THREE := BARE.(width := Field("3", false))

  lemma ReadsWidthThree()
    ensures Parse("%3c") == Dir(WIDTH_THREE, 'c', End)
  {
    assert ShowSpec(WIDTH_THREE) == "3";
    OneDirective(WIDTH_THREE, 'c', "%3c");
  }

  lemma ReadsModifier(mod: string, conv: char, s: string)
    requires IsMod(mod) && |mod| == 1 && (conv == 'c' || conv == 'd' || conv == 'u' || conv == 's')
    requires s == ['%', mod[0], conv]
    ensures Parse(s) == Dir(BARE.(mod := mod), conv, End)
  {
    var spec := BARE.(mod := mod);
    assert ShowSpec(spec) == mod == [mod[0]];
    OneDirective(spec, conv, s);
  }

  lemma ReadsFloat()
    ensures Parse("%f") == Dir(BARE, 'f', End)
  {
    assert ShowSpec(BARE) == "";
    OneDirective(BARE, 'f', "%f");
  }

  const POINT_SIX := Spec("'", NO_FIELD, Some(Field("6", false)), "")

  lemma ReadsSeparated()
    ensures Parse("%'.6d") == Dir(POINT_SIX, 'd', End)
  {
    assert ShowSpec(POINT_SIX) == "'.6";
    OneDirective(POINT_SIX, 'd', "%'.6d");
  }

  const OCTAL_SEPARATED := Spec("'#", NO_FIELD, None, "")

  lemma ReadsOctal()
    ensures Parse("%'#o") == Dir(OCTAL_SEPARATED, 'o', End)
  {
    assert ShowSpec(OCTAL_SEPARATED) == "'#";
    OneDirective(OCTAL_SEPARATED, 'o', "%'#o");
  }

  // ----- the texts -----

  lemma ZeroLayout(value: int, base: int, precision: int, flags: Flags)
    requires FmtBase(base) && DropsEmptyNumber(value, base, precision, flags)
    ensures LayoutOf(value, base, precision, flags) == Layout(Sign(value, flags), "", "0", 0, 0)
  {
    NumeralDigits(0, base, flags.up);
  }

  lemma ZeroRendered(value: int, base: int, width: int, precision: int, flags: Flags)
    requires FmtBase(base) && DropsEmptyNumber(value, base, precision, flags)
    ensures RenderInt(value, base, width, precision, flags) == InBlanks(Sign(value, flags) + "0", width, flags)
  {
    hide LayoutOf, Sign, Numeral, Magnitude;
    ZeroLayout(value, base, precision, flags);
    var sign := Sign(value, flags);
    RepeatMax(' ', width - 1 - |sign|);
    assert Grouped("0") == "0";
    assert Repeat('0', 0) == "" && Repeat(' ', 0) == "";
    assert sign + "" == sign;
    hide Grouped, Repeat;
  }

  const ZERO_PRECISION := Params(NO_FLAGS, 0, 0, NoMod)

  lemma ZeroTexts(abi: Abi, lib: Platform, slot: Slot)
    requires slot.word == 0
    ensures ConversionText(abi, 'd', ZERO_PRECISION, slot) == "0" && C99Text(abi, lib, 'd', ZERO_PRECISION, slot) == ""
  {
    assert SignedArg(abi, NoMod, 0) == 0 == AsSigned(0, W32);
    ZeroRendered(0, 10, 0, 0, NO_FLAGS);
    NothingAsked(0, 10, 0, 0, NO_FLAGS);
    assert Repeat(' ', 0) == "" && Repeat(' ', -1) == "";
    hide RenderInt, C99Int, AsSigned, Repeat;
  }

  const THREE_WIDE := Params(NO_FLAGS, 3, -1, NoMod)

  lemma CharacterTexts(abi: Abi, lib: Platform, slot: Slot)
    requires slot.word == 'x' as int
    ensures ConversionText(abi, 'c', THREE_WIDE, slot) == "x" && C99Text(abi, lib, 'c', THREE_WIDE, slot) == "  x"
  {
    assert OneChar(slot) == "x";
    assert Repeat(' ', 2) == "  ";
    hide Repeat;
  }

  lemma Numeral1234()
    ensures Numeral(1234, 10, false) == "1234" && Grouped("1234") == "1,234"
  {
    assert Numeral(1, 10, false) == "1";
    assert Numeral(12, 10, false) == Numeral(1, 10, false) + "2";
    assert Numeral(123, 10, false) == Numeral(12, 10, false) + "3";
    assert Grouped("1") == "1";
    assert "1234"[..1] == "1" && "1234"[1..] == "234";
  }

  const SIX_SEPARATED := Params(NO_FLAGS.(quote := true), 0, 6, NoMod)

  lemma SeparatedLayout()
    ensures LayoutOf(1234, 10, 6, SIX_SEPARATED.flags) == Layout("", "", "1234", 6, 1)
    ensures Body("1234", SIX_SEPARATED.flags) == "1,234"
  {
    Numeral1234();
    hide Numeral, Grouped;
  }

  lemma SeparatedFields()
    ensures RenderInt(1234, 10, 0, 6, SIX_SEPARATED.flags) == "01,234"
    ensures C99Int(1234, 10, 0, 6, SIX_SEPARATED.flags) == "001,234"
  {
    hide LayoutOf, C99Int, Body;
    SeparatedLayout();
    C99Shape(1234, 10, 0, 6, SIX_SEPARATED.flags);
    assert Repeat('0', 1) == "0" && Repeat('0', 2) == "00" && Repeat(' ', 0) == "";
    hide Repeat;
  }

  lemma SeparatedTexts(abi: Abi, lib: Platform, slot: Slot)
    requires slot.word == 1234
    ensures ConversionText(abi, 'd', SIX_SEPARATED, slot) == "01,234"
    ensures C99Text(abi, lib, 'd', SIX_SEPARATED, slot) == "001,234"
  {
    assert SignedArg(abi, NoMod, 1234) == 1234 == AsSigned(1234, W32);
    hide AsSigned, RenderInt, C99Int;
    SeparatedFields();
  }

  lemma SeparatedSize()
    ensures IdealSize(LayoutOf(1234, 10, 6, SIX_SEPARATED.flags), 0) == 7
  {
    Numeral1234();
    hide Numeral;
  }

  lemma OctalText(abi: Abi, slot: Slot)
    requires slot.word == 4096
    ensures ConversionText(abi, 'o', Params(NO_FLAGS.(quote := true, num := true), 0, -1, NoMod), slot) == "10,000"
  {
    var flags := NO_FLAGS.(quote := true, num := true, uns := true);
    assert UnsignedArg(abi, NoMod, 4096) == 4096 == AsUnsigned(4096, W64);
    Numeral4096();
    hide Numeral, AsUnsigned, Grouped;
    assert LayoutOf(4096, 8, -1, flags) == Layout("", "", "10000", 6, 1);
    assert Repeat('0', 0) == "" && Repeat(' ', 0) == "";
    hide Repeat, LayoutOf;
  }

  lemma Numeral4096()
    ensures Numeral(4096, 8, false) == "10000" && Grouped("10000") == "10,000"
  {
    assert Numeral(1, 8, false) == "1";
    assert Numeral(8, 8, false) == Numeral(1, 8, false) + "0";
    assert Numeral(64, 8, false) == Numeral(8, 8, false) + "0";
    assert Numeral(512, 8, false) == Numeral(64, 8, false) + "0";
    assert Grouped("10") == "10";
    assert "10000"[..2] == "10" && "10000"[2..] == "000";
  }

  /** The numeral of a number in a field of no width. */
  lemma Unpadded(value: int, base: int, flags: Flags)
    requires FmtBase(base) && !flags.quote && !flags.num && !flags.plus && !flags.space && !flags.up && !flags.zero
    ensures RenderInt(value, base, 0, -1, flags)
         == (if value < 0 && !flags.uns then "-" else "") + Numeral(Magnitude(value, flags.uns), base, false)
  {
    hide Numeral, Magnitude;
    assert Repeat('0', 0) == "" && Repeat(' ', 0) == "";
    var l := LayoutOf(value, base, -1, flags);
    assert Assemble(l, PaddingOf(l, 0, true, flags), flags) == "" + l.sign + "" + "" + l.digits + "";
  }

  const SIZE := Params(NO_FLAGS, 0, -1, SizeMod)

  lemma SizeValues(abi: Abi, word: int)
    requires word == 0xFFFF_FFFF && !abi.wideSize
    ensures SignedArg(abi, SizeMod, word) == 0xFFFF_FFFF && C99Value(abi, 'd', SizeMod, word) == -1
    ensures Magnitude(-1, false) == 1 && Magnitude(0xFFFF_FFFF, false) == 0xFFFF_FFFF && Numeral(1, 10, false) == "1"
  {
  }

  lemma SizeTexts(abi: Abi, lib: Platform, slot: Slot)
    requires slot.word == 0xFFFF_FFFF && !abi.wideSize
    ensures ConversionText(abi, 'd', SIZE, slot) == Numeral(0xFFFF_FFFF, 10, false)
    ensures C99Text(abi, lib, 'd', SIZE, slot) == "-1"
  {
    hide RenderInt, C99Int, Numeral, SignedArg, C99Value, Magnitude;
    SizeValues(abi, slot.word);
    Unpadded(0xFFFF_FFFF, 10, NO_FLAGS);
    Unpadded(-1, 10, NO_FLAGS);
    IntMeetsC99(-1, 10, 0, -1, NO_FLAGS);
  }

  const PTRDIFF := Params(NO_FLAGS, 0, -1, PtrdiffMod)

  lemma PtrdiffValues(abi: Abi, word: int)
    requires word == 0xFFFF_FFFF && !abi.wideLong && !abi.widePtrdiff
    ensures UnsignedArg(abi, PtrdiffMod, word) == -1 && C99Value(abi, 'u', PtrdiffMod, word) == 0xFFFF_FFFF
    ensures Magnitude(-1, true) == 0xFFFF_FFFF_FFFF_FFFF && Magnitude(0xFFFF_FFFF, true) == 0xFFFF_FFFF
  {
  }

  lemma PtrdiffTexts(abi: Abi, lib: Platform, slot: Slot)
    requires slot.word == 0xFFFF_FFFF && !abi.wideLong && !abi.widePtrdiff
    ensures ConversionText(abi, 'u', PTRDIFF, slot) == Numeral(0xFFFF_FFFF_FFFF_FFFF, 10, false)
    ensures C99Text(abi, lib, 'u', PTRDIFF, slot) == Numeral(0xFFFF_FFFF, 10, false)
  {
    hide RenderInt, C99Int, Numeral, UnsignedArg, C99Value, Magnitude;
    var flags := NO_FLAGS.(uns := true);
    PtrdiffValues(abi, slot.word);
    Unpadded(-1, 10, flags);
    Unpadded(0xFFFF_FFFF, 10, flags);
    assert "" + Numeral(0xFFFF_FFFF, 10, false) == Numeral(0xFFFF_FFFF, 10, false);
    IntMeetsC99(0xFFFF_FFFF, 10, 0, -1, flags);
  }

  // ----- the departures -----

  lemma NoNumbers()
    ensures FlagsOf("") == NO_FLAGS && Value("", 10) == 0 && Value("0", 10) == 0 && Value("3", 10) == 3
    ensures Value("6", 10) == 6
    ensures FlagsOf("'") == NO_FLAGS.(quote := true) && FlagsOf("'#") == NO_FLAGS.(quote := true, num := true)
  {
    DigitIs("0", 0);
    DigitIs("3", 3);
    DigitIs("6", 6);
    hide Value;
    assert "'#"[1] == '#' && "'#"[0] == '\'' && "'"[0] == '\'';
  }

  /** `%.0d` with 0 prints a zero where C99 asks for nothing. */
  lemma ZeroIsPrinted(env: Env, lib: Platform)
    requires env.args(0).word == 0
    ensures Meaning(Parse("%.0d"), env, START) == Prints("0")
    ensures C99Meaning(Parse("%.0d"), env, lib, START) == Prints("")
  {
    hide Parse, Meaning, C99Meaning, EvalSpec, Value, FlagsOf, ConversionText, C99Text;
    NoNumbers();
    ReadsPointZero();
    Evaluates(POINT_ZERO, env, 0, 0, 0);
    ZeroTexts(env.abi, lib, env.args(0));
    Printed(POINT_ZERO, 'd', ZERO_PRECISION, env, lib);
  }

  /** `%'.6d` with 1234 prints a digit less than asked for, and the field is shorter than its parts. */
  lemma SeparatorTakesZero(env: Env, lib: Platform)
    requires env.args(0).word == 1234
    ensures Meaning(Parse("%'.6d"), env, START) == Prints("01,234")
    ensures C99Meaning(Parse("%'.6d"), env, lib, START) == Prints("001,234")
    ensures |"01,234"| < IdealSize(LayoutOf(1234, 10, 6, SIX_SEPARATED.flags), 0)
  {
    hide Parse, Meaning, C99Meaning, EvalSpec, Value, FlagsOf, ConversionText, C99Text, LayoutOf, IdealSize;
    SeparatedSize();
    NoNumbers();
    ReadsSeparated();
    Evaluates(POINT_SIX, env, 0, 6, 0);
    SeparatedTexts(env.abi, lib, env.args(0));
    Printed(POINT_SIX, 'd', SIX_SEPARATED, env, lib);
  }

  /** `%'#o` with 4096 has no leading zero. */
  lemma SeparatorTakesOctalZero(env: Env)
    requires env.args(0).word == 4096
    ensures Meaning(Parse("%'#o"), env, START) == Prints("10,000") && !LeadsWithZero("10,000")
  {
    hide Parse, EvalSpec, Value, FlagsOf, ConversionText;
    NoNumbers();
    ReadsOctal();
    Evaluates(OCTAL_SEPARATED, env, 0, -1, 0);
    OctalText(env.abi, env.args(0));
    assert START.(used := 0) == START;
  }

  /** `%3c` prints the character without its blanks. */
  lemma WidthIsIgnored(env: Env, lib: Platform)
    requires env.args(0).word == 'x' as int
    ensures Meaning(Parse("%3c"), env, START) == Prints("x")
    ensures C99Meaning(Parse("%3c"), env, lib, START) == Prints("  x")
  {
    hide Parse, Meaning, C99Meaning, EvalSpec, Value, FlagsOf, ConversionText, C99Text;
    NoNumbers();
    ReadsWidthThree();
    Evaluates(WIDTH_THREE, env, 3, -1, 0);
    CharacterTexts(env.abi, lib, env.args(0));
    Printed(WIDTH_THREE, 'c', THREE_WIDE, env, lib);
  }

  /** `%zd` with -1 prints 4294967295 where `size_t` has 32 bits. */
  lemma SizeIsUnsigned(env: Env, lib: Platform)
    requires env.args(0).word == 0xFFFF_FFFF && !env.abi.wideSize
    ensures Meaning(Parse("%zd"), env, START) == Prints(Numeral(0xFFFF_FFFF, 10, false))
    ensures C99Meaning(Parse("%zd"), env, lib, START) == Prints("-1")
  {
    hide Parse, Meaning, C99Meaning, EvalSpec, Value, FlagsOf, ConversionText, C99Text, Numeral;
    NoNumbers();
    ReadsModifier("z", 'd', "%zd");
    Evaluates(BARE.(mod := "z"), env, 0, -1, 0);
    SizeTexts(env.abi, lib, env.args(0));
    Printed(BARE.(mod := "z"), 'd', SIZE, env, lib);
  }

  /** `%tu` with 4294967295 prints 18446744073709551615 where `long` and `ptrdiff_t` have 32 bits. */
  lemma PtrdiffIsSigned(env: Env, lib: Platform)
    requires env.args(0).word == 0xFFFF_FFFF && !env.abi.wideLong && !env.abi.widePtrdiff
    ensures Meaning(Parse("%tu"), env, START) == Prints(Numeral(0xFFFF_FFFF_FFFF_FFFF, 10, false))
    ensures C99Meaning(Parse("%tu"), env, lib, START) == Prints(Numeral(0xFFFF_FFFF, 10, false))
  {
    hide Parse, Meaning, C99Meaning, EvalSpec, Value, FlagsOf, ConversionText, C99Text, Numeral;
    NoNumbers();
    ReadsModifier("t", 'u', "%tu");
    Evaluates(BARE.(mod := "t"), env, 0, -1, 0);
    PtrdiffTexts(env.abi, lib, env.args(0));
    Printed(BARE.(mod := "t"), 'u', PTRDIFF, env, lib);
  }

  const WIDE := Params(NO_FLAGS, 0, -1, LongMod)

  lemma LowByte(abi: Abi, slot: Slot)
    ensures ConversionText(abi, 'c', WIDE, slot) == [(slot.word % 0x100) as char]
  {
  }

  /** `%lc` prints the low byte of a wide character. */
  lemma WideCharacterIsCut(env: Env, lib: Platform)
    requires env.args(0).word == 0x141
    ensures Meaning(Parse("%lc"), env, START) == Prints("A")
    ensures C99Meaning(Parse("%lc"), env, lib, START) == Prints(InBlanks(lib.wideChar(0x141), 0, NO_FLAGS))
  {
    hide Parse, Meaning, C99Meaning, EvalSpec, Value, FlagsOf, ConversionText, InBlanks;
    NoNumbers();
    ReadsModifier("l", 'c', "%lc");
    Evaluates(BARE.(mod := "l"), env, 0, -1, 0);
    LowByte(env.abi, env.args(0));
    Printed(BARE.(mod := "l"), 'c', WIDE, env, lib);
  }

  /** `%ls` reads bytes: a wide string whose first byte is 0 is printed as nothing. */
  lemma WideStringIsBytes(env: Env, lib: Platform)
    requires Address(env.abi, env.args(0)) != 0 && Text(env.args(0).text) == ""
    ensures Meaning(Parse("%ls"), env, START) == Prints("")
    ensures C99Meaning(Parse("%ls"), env, lib, START) == Prints(InBlanks(lib.wideString(env.args(0), -1), 0, NO_FLAGS))
  {
    hide Parse, Meaning, C99Meaning, EvalSpec, Value, FlagsOf, ConversionText, C99Text, InBlanks;
    NoNumbers();
    ReadsModifier("l", 's', "%ls");
    Evaluates(BARE.(mod := "l"), env, 0, -1, 0);
    WideStringTexts(env.abi, lib, env.args(0));
    Printed(BARE.(mod := "l"), 's', WIDE, env, lib);
  }

  lemma WideStringTexts(abi: Abi, lib: Platform, slot: Slot)
    requires Address(abi, slot) != 0 && Text(slot.text) == ""
    ensures ConversionText(abi, 's', WIDE, slot) == ""
    ensures C99Text(abi, lib, 's', WIDE, slot) == InBlanks(lib.wideString(slot, -1), 0, NO_FLAGS)
  {
    assert Repeat(' ', 0) == "";
  }

  const NOTHING_SAID := Params(NO_FLAGS, 0, -1, NoMod)

  /** `%f` prints nothing and leaves its argument for the next directive. */
  lemma FloatingIsSkipped(env: Env, lib: Platform)
    ensures Meaning(Parse("%f"), env, START) == Outcome(START, false)
    ensures C99Meaning(Parse("%f"), env, lib, START) == Prints(lib.floating('f', NOTHING_SAID, env.args(0)))
  {
    hide Parse, EvalSpec, Value, FlagsOf;
    NoNumbers();
    ReadsFloat();
    Evaluates(BARE, env, 0, -1, 0);
    assert START.(used := 0) == START && START.text + "" == START.text;
    assert Defined(BARE, 'f', NOTHING_SAID);
    var text := lib.floating('f', NOTHING_SAID, env.args(0));
    assert "" + text == text;
  }

  const FULL_WIDTH := BARE.(width := Field("2147483647", false))

  lemma ReadsFullWidth()
    ensures Parse("%2147483647d") == Dir(FULL_WIDTH, 'd', End)
  {
    assert ShowSpec(FULL_WIDTH) == "2147483647";
    OneDirective(FULL_WIDTH, 'd', "%2147483647d");
  }

  lemma ValueGrows(ds: string, c: char, longer: string)
    requires longer == ds + [c]
    ensures Value(longer, 10) == 10 * Value(ds, 10) + DigitValue(c)
  {
    ValueSnoc(ds, c, 10);
  }

  lemma FullWidthIsIntMax()
    ensures Value("2147483647", 10) == INT_MAX
  {
    DigitIs("2", 2);
    hide Value;
    ValueGrows("2", '1', "21");
    ValueGrows("21", '4', "214");
    ValueGrows("214", '7', "2147");
    ValueGrows("2147", '4', "21474");
    ValueGrows("21474", '8', "214748");
    ValueGrows("214748", '3', "2147483");
    ValueGrows("2147483", '6', "21474836");
    ValueGrows("21474836", '4', "214748364");
    ValueGrows("214748364", '7', "2147483647");
  }

  const FULL := Params(NO_FLAGS, INT_MAX, -1, NoMod)

  lemma FullText(abi: Abi, slot: Slot)
    requires slot.word == 1
    ensures |ConversionText(abi, 'd', FULL, slot)| == INT_MAX
  {
    assert SignedArg(abi, NoMod, 1) == 1 == AsSigned(1, W32);
    assert Numeral(1, 10, false) == "1";
    assert LayoutOf(1, 10, -1, NO_FLAGS) == Layout("", "", "1", -1, 0);
    hide RenderInt, LayoutOf, AsSigned;
    FieldSize(1, 10, INT_MAX, -1, NO_FLAGS);
  }

  /** A text of INT_MAX characters, whose length is an `int`, is reported as a failure. */
  lemma FullLengthFails(env: Env, lib: Platform)
    requires env.args(0).word == 1
    ensures var o := Meaning(Parse("%2147483647d"), env, START);
            !o.overflow && |o.progress.text| == INT_MAX && Returned(o) == -1
  {
    hide Parse, Meaning, C99Meaning, EvalSpec, Value, FlagsOf, ConversionText, C99Text;
    NoNumbers();
    FullWidthIsIntMax();
    ReadsFullWidth();
    Evaluates(FULL_WIDTH, env, INT_MAX, -1, 0);
    FullText(env.abi, env.args(0));
    Printed(FULL_WIDTH, 'd', FULL, env, lib);
  }

  const PTRDIFF_COUNT := BARE.(mod := "t")

  lemma ReadsCount()
    ensures Parse("%tn") == Dir(PTRDIFF_COUNT, 'n', End)
  {
    assert ShowSpec(PTRDIFF_COUNT) == "t";
    OneDirective(PTRDIFF_COUNT, 'n', "%tn");
  }

  /** `%tn` stores eight bytes into a `ptrdiff_t` of four where only `long` is wide. */
  lemma CountIsTooWide(env: Env, lib: Platform)
    requires env.abi.wideLong && !env.abi.widePtrdiff
    ensures var a := Address(env.abi, env.args(0));
            && Meaning(Parse("%tn"), env, START) == Outcome(Progress("", 1, [Count(a, W64, 0)]), false)
            && C99Meaning(Parse("%tn"), env, lib, START) == Outcome(Progress("", 1, [Count(a, W32, 0)]), false)
  {
    hide Parse, EvalSpec, Value, FlagsOf, Address;
    NoNumbers();
    ReadsCount();
    Evaluates(PTRDIFF_COUNT, env, 0, -1, 0);
    assert START.(used := 0) == START && "" + "" == "";
    assert Defined(PTRDIFF_COUNT, 'n', PTRDIFF);
  }

  lemma ReadsLongDouble()
    ensures Parse("%Lf") == Dir(BARE, 'L', Lit('f', End))
  {
    var rest := Lit('f', End);
    assert ShowSpec(BARE) == "" && Show(rest) == "f" && WellFormed(rest);
    assert "%Lf" == "%" + "" + ['L'] + "f";
    DirectiveThen(BARE, 'L', rest, "%Lf");
  }

  /** `%Lf` prints its last letter and leaves its argument. */
  lemma LongDoubleIsALetter(env: Env, lib: Platform)
    ensures Meaning(Parse("%Lf"), env, START) == Outcome(Progress("f", 0, []), false)
    ensures C99Meaning(Parse("%Lf"), env, lib, START) == Prints(lib.longDouble('f', NOTHING_SAID, env.args(0)))
  {
    hide Parse, EvalSpec, Value, FlagsOf;
    NoNumbers();
    ReadsLongDouble();
    Evaluates(BARE, env, 0, -1, 0);
    assert START.(used := 0) == START && START.text + "" + "f" == "f";
    assert IsLongDouble(Dir(BARE, 'L', Lit('f', End)));
    var text := lib.longDouble('f', NOTHING_SAID, env.args(0));
    assert "" + text == text;
  }
}
