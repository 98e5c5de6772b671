/**
The outcome still to come when the printer stands inside a directive: one function for each of its states, and
for each transition of the printer the equation that says it keeps the outcome.
 */
module Resumption {
  import opened CTypes
  import opened Numerals
  import opened IntegerText
  import opened FormatGrammar
  import opened FormatMeaning

  /** Reading on from a number `n` that the digits before denote. */
  function Accumulate(n: int, ds: string): int
    decreases |ds|
  {
    if ds == "" then n else Accumulate(10 * n + DigitValue(ds[0]), ds[1..])
  }

  lemma {:induction false} AccumulateSnoc(n: int, ds: string, c: char)
    ensures Accumulate(n, ds + [c]) == 10 * Accumulate(n, ds) + DigitValue(c)
    decreases |ds|
  {
    if ds == "" {
      assert ds + [c] == [c] && [c][1..] == "";
    } else {
      assert (ds + [c])[1..] == ds[1..] + [c];
      AccumulateSnoc(10 * n + DigitValue(ds[0]), ds[1..], c);
    }
  }

  /** Reading a number left to right from zero gives its value. */
  lemma {:induction false} AccumulateIsValue(ds: string)
    ensures Accumulate(0, ds) == Value(ds, 10)
    decreases |ds|
  {
    if ds != "" {
      var front := ds[..|ds| - 1];
      assert ds == front + [ds[|ds| - 1]];
      AccumulateSnoc(0, front, ds[|ds| - 1]);
      AccumulateIsValue(front);
    }
  }

  /** Once a number is too big, more digits do not make it smaller. */
  lemma {:induction false} AccumulateGrows(n: int, ds: string)
    requires n >= 0 && All(ds, Digit)
    ensures Accumulate(n, ds) >= n
    decreases |ds|
  {
    if ds != "" { AccumulateGrows(10 * n + DigitValue(ds[0]), ds[1..]); }
  }

  // ----- the states -----

  function AtDefault(s: string, env: Env, now: Progress): Outcome { Meaning(Parse(s), env, now) }

  function AtConversion(s: string, p: Params, env: Env, now: Progress): Outcome {
    if s == "" then Outcome(now, false) else AtDefault(s[1..], env, Perform(env, s[0], p, now))
  }

  function AtModifier(s: string, flags: Flags, width: int, precision: int, env: Env, now: Progress): Outcome {
    var (m, after) := ReadMod(s);
    AtConversion(after, Params(flags, width, precision, ModOf(m)), env, now)
  }

  function AtPrecision(s: string, flags: Flags, width: int, n: int, env: Env, now: Progress): Outcome {
    var k := Span(s, Digit);
    var v := Accumulate(n, s[..k]);
    if v > INT_MAX then Outcome(now, true)
    else if StartsWith(s[k..], '*') then
      AtModifier(s[k + 1..], flags, width, Max(IntArg(env, now.used), -1), env, now.(used := now.used + 1))
    else AtModifier(s[k..], flags, width, v, env, now)
  }

  function AtDot(s: string, flags: Flags, width: int, env: Env, now: Progress): Outcome {
    if StartsWith(s, '.') then AtPrecision(s[1..], flags, width, 0, env, now)
    else AtModifier(s, flags, width, -1, env, now)
  }

  function AtWidth(s: string, flags: Flags, n: int, env: Env, now: Progress): Outcome {
    var k := Span(s, Digit);
    var v := Accumulate(n, s[..k]);
    if v > INT_MAX then Outcome(now, true)
    else if StartsWith(s[k..], '*') then
      var w := IntArg(env, now.used);
      AtDot(s[k + 1..], WidthFlags(flags, w), Magnified(w), env, now.(used := now.used + 1))
    else AtDot(s[k..], flags, v, env, now)
  }

  function Join(a: Flags, b: Flags): Flags {
    Flags(a.minus || b.minus, a.plus || b.plus, a.space || b.space, a.num || b.num, a.zero || b.zero,
          a.quote || b.quote, a.up || b.up, a.uns || b.uns)
  }

  function AtFlags(s: string, flags: Flags, env: Env, now: Progress): Outcome {
    var k := Span(s, Flag);
    AtWidth(s[k..], Join(flags, FlagsOf(s[..k])), 0, env, now)
  }

  // ----- the transitions -----

  lemma LiteralStep(s: string, env: Env, now: Progress)
    requires s != "" && s[0] != '%'
    ensures AtDefault(s, env, now) == AtDefault(s[1..], env, now.(text := now.text + [s[0]]))
  {
  }

  lemma WidthIsField(s: string, flags: Flags, env: Env, now: Progress)
    ensures AtWidth(s, flags, 0, env, now)
         == var (f, after) := ReadField(s);
            match EvalField(f, env, now.used)
            case TooBig => Outcome(now, true)
            case FieldValue(w, used) =>
              AtDot(after, WidthFlags(flags, w), Magnified(w), env, now.(used := used))
  {
    hide AtDot;
    var ds := s[..Span(s, Digit)];
    AccumulateIsValue(ds);
    AccumulateGrows(0, ds);
  }

  lemma PrecisionIsField(s: string, flags: Flags, width: int, env: Env, now: Progress)
    ensures AtPrecision(s, flags, width, 0, env, now)
         == var (f, after) := ReadField(s);
            match EvalField(f, env, now.used)
            case TooBig => Outcome(now, true)
            case FieldValue(n, used) => AtModifier(after, flags, width, Max(n, -1), env, now.(used := used))
  {
    hide AtModifier;
    var ds := s[..Span(s, Digit)];
    AccumulateIsValue(ds);
    AccumulateGrows(0, ds);
  }

  /** `%` enters the flags: evaluating part by part is evaluating the whole specification. */
  lemma PercentStep(s: string, env: Env, now: Progress)
    requires s != "" && s[0] == '%'
    ensures AtDefault(s, env, now) == AtFlags(s[1..], NO_FLAGS, env, now)
  {
    hide Span, ReadField, ReadMod, EvalField, AtWidth, AtPrecision, FlagsOf, Perform;
    var k := Span(s[1..], Flag);
    var flags := FlagsOf(s[1..][..k]);
    assert Join(NO_FLAGS, flags) == flags by { FlagsPlain(s[1..][..k]); }
    WidthIsField(s[1..][k..], flags, env, now);
    var (width, afterWidth) := ReadField(s[1..][k..]);
    match EvalField(width, env, now.used) {
      case TooBig =>
      case FieldValue(w, used) =>
        if StartsWith(afterWidth, '.') {
          PrecisionIsField(afterWidth[1..], WidthFlags(flags, w), Magnified(w), env, now.(used := used));
        }
    }
  }

  lemma FlagsPlain(fs: string)
    ensures !FlagsOf(fs).up && !FlagsOf(fs).uns
  {
  }

  lemma FlagStep(s: string, flags: Flags, env: Env, now: Progress)
    requires Starts(s, Flag)
    ensures AtFlags(s, flags, env, now) == AtFlags(s[1..], Join(flags, FlagsOf([s[0]])), env, now)
  {
    var k := Span(s, Flag);
    assert s[..k] == [s[0]] + s[1..][..k - 1] && s[k..] == s[1..][k - 1..];
  }

  lemma FlagsDone(s: string, flags: Flags, env: Env, now: Progress)
    requires !Starts(s, Flag)
    ensures AtFlags(s, flags, env, now) == AtWidth(s, flags, 0, env, now)
  {
    assert s[0..] == s && FlagsOf(s[..0]) == NO_FLAGS;
  }

  lemma WidthDigitStep(s: string, flags: Flags, n: int, env: Env, now: Progress)
    requires Starts(s, Digit) && n >= 0
    ensures AtWidth(s, flags, n, env, now)
         == var v := 10 * n + DigitValue(s[0]);
            if v > INT_MAX then Outcome(now, true) else AtWidth(s[1..], flags, v, env, now)
  {
    hide All, AtDot, AtModifier;
    var k := Span(s, Digit);
    assert s[..k][1..] == s[1..][..k - 1] && s[k..] == s[1..][k - 1..];
    AccumulateGrows(10 * n + DigitValue(s[0]), s[1..][..k - 1]);
  }

  lemma WidthDone(s: string, flags: Flags, n: int, env: Env, now: Progress)
    requires !Starts(s, Digit) && n <= INT_MAX
    ensures AtWidth(s, flags, n, env, now)
         == if StartsWith(s, '*') then
              var w := IntArg(env, now.used);
              AtDot(s[1..], WidthFlags(flags, w), Magnified(w), env, now.(used := now.used + 1))
            else AtDot(s, flags, n, env, now)
  {
    hide AtDot, All;
    assert s[0..] == s && s[..0] == "";
  }

  lemma PrecisionDigitStep(s: string, flags: Flags, width: int, n: int, env: Env, now: Progress)
    requires Starts(s, Digit) && n >= 0
    ensures AtPrecision(s, flags, width, n, env, now)
         == var v := 10 * n + DigitValue(s[0]);
            if v > INT_MAX then Outcome(now, true) else AtPrecision(s[1..], flags, width, v, env, now)
  {
    hide All, AtDot, AtModifier;
    var k := Span(s, Digit);
    assert s[..k][1..] == s[1..][..k - 1] && s[k..] == s[1..][k - 1..];
    AccumulateGrows(10 * n + DigitValue(s[0]), s[1..][..k - 1]);
  }

  lemma PrecisionDone(s: string, flags: Flags, width: int, n: int, env: Env, now: Progress)
    requires !Starts(s, Digit) && n <= INT_MAX
    ensures AtPrecision(s, flags, width, n, env, now)
         == if StartsWith(s, '*') then
              AtModifier(s[1..], flags, width, Max(IntArg(env, now.used), -1), env, now.(used := now.used + 1))
            else AtModifier(s, flags, width, n, env, now)
  {
    assert s[0..] == s && s[..0] == "";
  }
}
