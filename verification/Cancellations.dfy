/** Formats whose departures cancel: why three kinds of directive are set apart from the steady ones. */
module Cancellations {
  import opened CTypes
  import opened Numerals
  import opened IntegerText
  import opened Conformance
  import opened FormatGrammar
  import opened FormatMeaning
  import opened FormatConformance
  import opened DepartureExamples

  // ----- separators and wide characters -----

  lemma ReadsTwo(first: Spec, second: Spec, conv: char, a: string, b: string, s: string)
    requires a == "%" + ShowSpec(first) + [conv] && b == "%" + ShowSpec(second) + [conv] && s == a + b
    requires SpecBefore(first, [conv]) && SpecBefore(second, [conv])
    ensures Parse(s) == Dir(first, conv, Dir(second, conv, End))
  {
    hide Parse, SpecBefore, ShowSpec;
    assert b == b + Show(End);
    DirectiveThen(second, conv, End, b);
    hide Show, WellFormed;
    DirectiveThen(first, conv, Dir(second, conv, End), s);
  }

  lemma ReadsZeroThenSeparated()
    ensures Parse("%.0d%'.6d") == Dir(POINT_ZERO, 'd', Dir(POINT_SIX, 'd', End))
  {
    assert ShowSpec(POINT_ZERO) == ".0" && ShowSpec(POINT_SIX) == "'.6";
    ReadsTwo(POINT_ZERO, POINT_SIX, 'd', "%.0d", "%'.6d", "%.0d%'.6d");
  }

  lemma ReadsTwoWide()
    ensures Parse("%lc%lc") == Dir(BARE.(mod := "l"), 'c', Dir(BARE.(mod := "l"), 'c', End))
  {
    var spec := BARE.(mod := "l");
    assert ShowSpec(spec) == "l";
    ReadsTwo(spec, spec, 'c', "%lc", "%lc", "%lc%lc");
  }

  /** With `'` the zero too many of one directive can be the zero too few of the next. */
  lemma SeparatorsCancel(env: Env, lib: Platform)
    requires env.args(0).word == 0 && env.args(1).word == 1234
    ensures var f := Parse("%.0d%'.6d");
            && Meaning(f, env, START) == C99Meaning(f, env, lib, START) == Outcome(Progress("001,234", 2, []), false)
            && !Conforms(f, env, lib, 0)
  {
    hide Parse, EvalSpec, Value, FlagsOf, ConversionText, C99Text, Conforms, C99Meaning, Meaning;
    NoNumbers();
    ReadsZeroThenSeparated();
    Evaluates(POINT_ZERO, env, 0, 0, 0);
    Evaluates(POINT_SIX, env, 0, 6, 1);
    ZeroTexts(env.abi, lib, env.args(0));
    SeparatedTexts(env.abi, lib, env.args(1));
    var g := Dir(POINT_SIX, 'd', End);
    assert Then(START, "0") == Progress("0", 1, []) && Then(START, "") == Progress("", 1, []);
    assert "0" + "01,234" == "001,234" && "" + "001,234" == "001,234";
    Continues(POINT_ZERO, 'd', ZERO_PRECISION, g, env, lib, START);
    Continues(POINT_SIX, 'd', SIX_SEPARATED, End, env, lib, Progress("0", 1, []));
    Continues(POINT_SIX, 'd', SIX_SEPARATED, End, env, lib, Progress("", 1, []));
    Ended(env, lib, Progress("001,234", 2, []));
    FirstDeparts(POINT_ZERO, 'd', ZERO_PRECISION, g, env, lib);
  }

  lemma Ended(env: Env, lib: Platform, now: Progress)
    ensures Meaning(End, env, now) == C99Meaning(End, env, lib, now) == Outcome(now, false)
  {
  }

  lemma FirstDeparts(spec: Spec, conv: char, p: Params, rest: Format, env: Env, lib: Platform)
    requires EvalSpec(spec, env, 0) == Evaluated(p, 0) && Defined(spec, conv, p) && p.precision >= -1 && !p.flags.uns
    requires conv != 'n' && !IsFloating(conv)
    requires ConversionText(env.abi, conv, p, env.args(0)) != C99Text(env.abi, lib, conv, p, env.args(0))
    ensures !Conforms(Dir(spec, conv, rest), env, lib, 0)
  {
    hide EvalSpec, Defined, ConversionText, C99Text, IsFloating, TextDeparts;
    DefinedKinds(spec, conv, p);
    TextMeetsC99(env.abi, lib, conv, p, env.args(0));
    hide Defined;
  }

  /** Where a wide character can have two characters or none, what one directive loses the next can add. */
  lemma WideCharactersCancel(env: Env, lib: Platform)
    requires env.args(0).word == 0x41 && env.args(1).word == 0x42
    requires lib.wideChar(0x41) == "AB" && lib.wideChar(0x42) == ""
    ensures var f := Parse("%lc%lc");
            && Meaning(f, env, START) == C99Meaning(f, env, lib, START) == Outcome(Progress("AB", 2, []), false)
            && !Conforms(f, env, lib, 0)
  {
    hide Parse, EvalSpec, Value, FlagsOf, ConversionText, C99Text, Conforms, C99Meaning, Meaning;
    NoNumbers();
    ReadsTwoWide();
    var spec := BARE.(mod := "l");
    Evaluates(spec, env, 0, -1, 0);
    Evaluates(spec, env, 0, -1, 1);
    LowByte(env.abi, env.args(0));
    LowByte(env.abi, env.args(1));
    WideChars(env.abi, lib, env.args(0));
    WideChars(env.abi, lib, env.args(1));
    var g := Dir(spec, 'c', End);
    assert Then(START, "A") == Progress("A", 1, []) && Then(START, "AB") == Progress("AB", 1, []);
    assert "A" + "B" == "AB" && "AB" + "" == "AB";
    Continues(spec, 'c', WIDE, g, env, lib, START);
    Continues(spec, 'c', WIDE, End, env, lib, Progress("A", 1, []));
    Continues(spec, 'c', WIDE, End, env, lib, Progress("AB", 1, []));
    Ended(env, lib, Progress("AB", 2, []));
    FirstDeparts(spec, 'c', WIDE, g, env, lib);
  }

  lemma WideChars(abi: Abi, lib: Platform, slot: Slot)
    ensures C99Text(abi, lib, 'c', WIDE, slot) == lib.wideChar(slot.word)
  {
    var body := lib.wideChar(slot.word);
    assert Repeat(' ', 0 - |body|) == "" && "" + body == body;
  }

  // ----- `%td` where `ptrdiff_t` is wider than `long` -----

  lemma CharOfDigit(c: char)
    requires '0' <= c <= '9'
    ensures DigitChar(c as int - '0' as int, false) == c
  {
    var d := c as int - '0' as int;
    assert d == 0 || d == 1 || d == 2 || d == 3 || d == 4 || d == 5 || d == 6 || d == 7 || d == 8 || d == 9;
  }

  /** One digit more, behind `p` and the digits so far. */
  lemma More(p: string, u: nat, text: string, c: char, longer: string)
    requires u >= 1 && '0' <= c <= '9' && Numeral(u, 10, false) == p + text && longer == text + [c]
    ensures Numeral(10 * u + (c as int - '0' as int), 10, false) == p + longer
  {
    CharOfDigit(c);
    var d := c as int - '0' as int;
    var x := 10 * u + d;
    assert x / 10 == u && x % 10 == d;
    assert p + text + [c] == p + longer;
  }

  lemma Shifted(p: string, u: nat)
    requires u >= 1 && Numeral(u, 10, false) == p
    ensures Numeral(100000 * u, 10, false) == p + "00000"
  {
    hide Numeral;
    assert p == p + "";
    More(p, u, "", '0', "0");
    More(p, 10 * u, "0", '0', "00");
    More(p, 100 * u, "00", '0', "000");
    More(p, 1000 * u, "000", '0', "0000");
    More(p, 10000 * u, "0000", '0', "00000");
  }

  lemma FourMore(p: string, u: nat)
    requires u >= 1 && Numeral(u, 10, false) == p
    ensures Numeral(10000 * u + 1557, 10, false) == p + "1557"
  {
    hide Numeral;
    assert p == p + "";
    More(p, u, "", '1', "1");
    More(p, 10 * u + 1, "1", '5', "15");
    More(p, 100 * u + 15, "15", '5', "155");
    More(p, 1000 * u + 155, "155", '7', "1557");
  }

  lemma SixMore(p: string, u: nat)
    requires u >= 1 && Numeral(u, 10, false) == p
    ensures Numeral(1000000 * u + 788672, 10, false) == p + "788672"
  {
    hide Numeral;
    assert p == p + "";
    More(p, u, "", '7', "7");
    More(p, 10 * u + 7, "7", '8', "78");
    More(p, 100 * u + 78, "78", '8', "788");
    More(p, 1000 * u + 788, "788", '6', "7886");
    More(p, 10000 * u + 7886, "7886", '7', "78867");
    More(p, 100000 * u + 78867, "78867", '2', "788672");
  }

  lemma SmallNumerals()
    ensures Numeral(1557, 10, false) == "1557" && Numeral(788672, 10, false) == "788672"
  {
    assert Numeral(1, 10, false) == "" + "1" && Numeral(7, 10, false) == "" + "7";
    hide Numeral;
    More("", 1, "1", '5', "15");
    More("", 15, "15", '5', "155");
    More("", 155, "155", '7', "1557");
    More("", 7, "7", '8', "78");
    More("", 78, "78", '8', "788");
    More("", 788, "788", '6', "7886");
    More("", 7886, "7886", '7', "78867");
    More("", 78867, "78867", '2', "788672");
  }

  /** The two numbers passed, and what is left of them in 32 bits. */
  const FIRST: int := 11984157171557
  const SECOND: int := 78867200000
  const FIRST_LOW: int := 1198415717
  const SECOND_LOW: int := 1557788672

  lemma SameDigits()
    ensures Numeral(FIRST_LOW, 10, false) + Numeral(SECOND_LOW, 10, false) + "00000"
         == Numeral(FIRST, 10, false) + Numeral(SECOND, 10, false)
  {
    SmallNumerals();
    hide Numeral;
    var p := Numeral(FIRST_LOW, 10, false);
    FourMore(p, FIRST_LOW);
    SixMore("1557", 1557);
    Shifted("788672", 788672);
    assert p + ("1557" + "788672") + "00000" == (p + "1557") + ("788672" + "00000");
  }

  lemma LowHalves()
    ensures AsSigned(FIRST, W32) == FIRST_LOW && AsSigned(FIRST, W64) == FIRST
    ensures AsSigned(SECOND, W32) == SECOND_LOW && AsSigned(SECOND, W64) == SECOND
  {
  }

  lemma CutTexts(abi: Abi, lib: Platform, slot: Slot)
    requires !abi.wideLong && abi.widePtrdiff && AsSigned(slot.word, W32) > 0 && AsSigned(slot.word, W64) > 0
    ensures ConversionText(abi, 'd', PTRDIFF, slot) == Numeral(AsSigned(slot.word, W32), 10, false)
    ensures C99Text(abi, lib, 'd', PTRDIFF, slot) == Numeral(AsSigned(slot.word, W64), 10, false)
  {
    hide RenderInt, C99Int, Numeral, AsSigned;
    var v, w := AsSigned(slot.word, W32), AsSigned(slot.word, W64);
    Unpadded(v, 10, NO_FLAGS);
    Unpadded(w, 10, NO_FLAGS);
    assert "" + Numeral(v, 10, false) == Numeral(v, 10, false) && "" + Numeral(w, 10, false) == Numeral(w, 10, false);
    IntMeetsC99(w, 10, 0, -1, NO_FLAGS);
  }

  /** `%.0d` so many times. */
  function Zeros(n: nat): Format { if n == 0 then End else Dir(POINT_ZERO, 'd', Zeros(n - 1)) }

  lemma {:induction false} ZerosPrint(n: nat, env: Env, lib: Platform, now: Progress)
    requires forall i :: now.used <= i < now.used + n ==> env.args(i).word == 0
    ensures Meaning(Zeros(n), env, now)
         == Outcome(Progress(now.text + Repeat('0', n), now.used + n, now.counts), false)
    ensures C99Meaning(Zeros(n), env, lib, now) == Outcome(Progress(now.text, now.used + n, now.counts), false)
  {
    hide EvalSpec, Value, FlagsOf, ConversionText, C99Text, Meaning, C99Meaning;
    if n == 0 {
      Ended(env, lib, now);
      assert now.text + "" == now.text;
    } else {
      NoNumbers();
      Evaluates(POINT_ZERO, env, 0, 0, now.used);
      ZeroTexts(env.abi, lib, env.args(now.used));
      Continues(POINT_ZERO, 'd', ZERO_PRECISION, Zeros(n - 1), env, lib, now);
      ZerosPrint(n - 1, env, lib, Then(now, "0"));
      ZerosPrint(n - 1, env, lib, Then(now, ""));
      assert now.text + "0" + Repeat('0', n - 1) == now.text + Repeat('0', n);
      assert now.text + "" == now.text;
    }
  }

  const CUT := BARE.(mod := "t")

  function CancelsByZeros(): Format { Dir(CUT, 'd', Dir(CUT, 'd', Zeros(5))) }

  /** What a format shows once `%.0d` is put in front of it. */
  lemma ZeroInFront(rest: Format, s: string, longer: string)
    requires Show(rest) == s && WellFormed(rest) && longer == "%.0d" + s
    ensures Show(Dir(POINT_ZERO, 'd', rest)) == longer && WellFormed(Dir(POINT_ZERO, 'd', rest))
  {
    assert ShowSpec(POINT_ZERO) == ".0" && SpecBefore(POINT_ZERO, ['d']);
    hide ShowSpec, SpecBefore, Show, WellFormed;
    assert longer == "%" + ".0" + ['d'] + s;
    DirectiveThen(POINT_ZERO, 'd', rest, longer);
  }

  lemma PtrdiffInFront(rest: Format, s: string, longer: string)
    requires Show(rest) == s && WellFormed(rest) && longer == "%td" + s
    ensures var f := Dir(CUT, 'd', rest); Show(f) == longer && WellFormed(f) && Parse(longer) == f
  {
    assert ShowSpec(CUT) == "t" && SpecBefore(CUT, ['d']);
    hide ShowSpec, SpecBefore, Show, WellFormed, Parse;
    assert longer == "%" + "t" + ['d'] + s;
    DirectiveThen(CUT, 'd', rest, longer);
  }

  lemma FiveZerosShow()
    ensures Show(Zeros(5)) == "%.0d%.0d%.0d%.0d%.0d" && WellFormed(Zeros(5))
  {
    assert Show(End) == "" && WellFormed(End) && Zeros(0) == End;
    hide Show, WellFormed;
    ZeroInFront(Zeros(0), "", "%.0d");
    ZeroInFront(Zeros(1), "%.0d", "%.0d%.0d");
    ZeroInFront(Zeros(2), "%.0d%.0d", "%.0d%.0d%.0d");
    ZeroInFront(Zeros(3), "%.0d%.0d%.0d", "%.0d%.0d%.0d%.0d");
    ZeroInFront(Zeros(4), "%.0d%.0d%.0d%.0d", "%.0d%.0d%.0d%.0d%.0d");
  }

  lemma ReadsCancelling()
    ensures Parse("%td%td%.0d%.0d%.0d%.0d%.0d") == CancelsByZeros()
  {
    hide Show, WellFormed, Parse, Zeros;
    OnePtrdiffShows();
    PtrdiffInFront(Dir(CUT, 'd', Zeros(5)), "%td%.0d%.0d%.0d%.0d%.0d", "%td%td%.0d%.0d%.0d%.0d%.0d");
  }

  lemma OnePtrdiffShows()
    ensures var f := Dir(CUT, 'd', Zeros(5)); Show(f) == "%td%.0d%.0d%.0d%.0d%.0d" && WellFormed(f)
  {
    hide Show, WellFormed, Parse, Zeros;
    FiveZerosShow();
    PtrdiffInFront(Zeros(5), "%.0d%.0d%.0d%.0d%.0d", "%td%.0d%.0d%.0d%.0d%.0d");
  }

  /**
  Where only `ptrdiff_t` has 64 bits: the digits cut off two numbers are made up for by five zeros that C99
  does not ask for.
   */
  lemma CutNumbersCancel(env: Env, lib: Platform)
    requires !env.abi.wideLong && env.abi.widePtrdiff && env.args(0).word == FIRST && env.args(1).word == SECOND
    requires forall i :: 2 <= i < 7 ==> env.args(i).word == 0
    ensures var f := Parse("%td%td%.0d%.0d%.0d%.0d%.0d");
            Meaning(f, env, START) == C99Meaning(f, env, lib, START) && !Conforms(f, env, lib, 0)
  {
    hide Parse, EvalSpec, Value, FlagsOf, ConversionText, C99Text, Conforms, C99Meaning, Meaning, Numeral, Zeros;
    NoNumbers();
    ReadsCancelling();
    LowHalves();
    CutTexts(env.abi, lib, env.args(0));
    CutTexts(env.abi, lib, env.args(1));
    Evaluates(CUT, env, 0, -1, 0);
    Evaluates(CUT, env, 0, -1, 1);
    var g := Dir(CUT, 'd', Zeros(5));
    var v1, w1 := Numeral(FIRST_LOW, 10, false), Numeral(FIRST, 10, false);
    var v2, w2 := Numeral(SECOND_LOW, 10, false), Numeral(SECOND, 10, false);
    assert "" + v1 == v1 && "" + w1 == w1;
    Continues(CUT, 'd', PTRDIFF, g, env, lib, START);
    Continues(CUT, 'd', PTRDIFF, Zeros(5), env, lib, Progress(v1, 1, []));
    Continues(CUT, 'd', PTRDIFF, Zeros(5), env, lib, Progress(w1, 1, []));
    ZerosPrint(5, env, lib, Progress(v1 + v2, 2, []));
    ZerosPrint(5, env, lib, Progress(w1 + w2, 2, []));
    assert Repeat('0', 5) == "00000";
    SameDigits();
    NumeralDenotes(FIRST_LOW, 10, false);
    NumeralDenotes(FIRST, 10, false);
    FirstDeparts(CUT, 'd', PTRDIFF, g, env, lib);
  }
}
