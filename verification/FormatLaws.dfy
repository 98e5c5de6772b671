/** Laws of whole formats: concatenation, overflow, flags, truncation. */
module FormatLaws {
  import opened CTypes
  import opened Numerals
  import opened IntegerText
  import opened FormatGrammar
  import opened FormatMeaning
  import opened Formatters
  import opened Printer

  /** A call prints any text that is put together from well-formed parts as those parts say. */
  lemma PrintsAsWritten(f: Format, env: Env)
    requires WellFormed(f)
    ensures Meaning(Parse(Show(f)), env, START) == Meaning(f, env, START)
  {
    ParseShow(f);
  }

  // ----- concatenation -----

  /** A format that ends between directives. */
  predicate Complete(f: Format) {
    match f
    case End => true
    case Cut(_) => false
    case Lit(_, rest) => Complete(rest)
    case Dir(_, _, rest) => Complete(rest)
  }

  function Append(f: Format, g: Format): Format {
    match f
    case End => g
    case Cut(spec) => f
    case Lit(c, rest) => Lit(c, Append(rest, g))
    case Dir(spec, conv, rest) => Dir(spec, conv, Append(rest, g))
  }

  lemma Nested(a: string, b: string, c: string, d: string, e: string)
    ensures a + (b + (c + (d + e))) == a + (b + (c + d)) + e
  {
  }

  lemma {:induction false} ShowAppend(f: Format, g: Format)
    requires Complete(f)
    ensures Show(Append(f, g)) == Show(f) + Show(g)
  {
    hide ShowSpec, SpecBefore;
    match f {
      case End =>
      case Lit(c, rest) => ShowAppend(rest, g);
      case Dir(spec, conv, rest) =>
        ShowAppend(rest, g);
        Nested("%", ShowSpec(spec), [conv], Show(rest), Show(g));
    }
  }

  lemma {:induction false} WellFormedAppend(f: Format, g: Format)
    requires Complete(f) && WellFormed(f) && WellFormed(g)
    ensures WellFormed(Append(f, g))
  {
    hide SpecBefore;
    match f {
      case End =>
      case Lit(_, rest) => WellFormedAppend(rest, g);
      case Dir(_, _, rest) => WellFormedAppend(rest, g);
    }
  }

  lemma {:induction false} MeaningAppend(f: Format, g: Format, env: Env, now: Progress)
    requires Complete(f)
    ensures var o := Meaning(f, env, now);
            Meaning(Append(f, g), env, now) == if o.overflow then o else Meaning(g, env, o.progress)
    decreases f
  {
    hide Perform, EvalSpec;
    match f {
      case End =>
      case Lit(c, rest) => MeaningAppend(rest, g, env, now.(text := now.text + [c]));
      case Dir(spec, conv, rest) =>
        match EvalSpec(spec, env, now.used) {
          case Overflowed(_) =>
          case Evaluated(p, used) => MeaningAppend(rest, g, env, Perform(env, conv, p, now.(used := used)));
        }
    }
  }

  /** Neither the text printed nor the arguments consumed depend on what was printed before. */
  lemma {:induction false} EarlierTextIsKept(f: Format, env: Env, now: Progress, text: string, counts: seq<Count>)
    ensures var o, o' := Meaning(f, env, now), Meaning(f, env, now.(text := text + now.text, counts := counts));
            && o'.progress.text == text + o.progress.text
            && o'.progress.used == o.progress.used && o'.overflow == o.overflow
    decreases f
  {
    hide EvalSpec, ConversionText, CountOf;
    var now' := now.(text := text + now.text, counts := counts);
    match f {
      case End =>
      case Cut(_) =>
      case Lit(c, rest) =>
        var next := now.(text := now.text + [c]);
        assert now'.text + [c] == text + next.text;
        EarlierTextIsKept(rest, env, next, text, counts);
      case Dir(spec, conv, rest) =>
        match EvalSpec(spec, env, now.used) {
          case Overflowed(_) =>
          case Evaluated(p, used) =>
            var next := Perform(env, conv, p, now.(used := used));
            var next' := Perform(env, conv, p, now'.(used := used));
            assert next'.text == text + next.text;
            EarlierTextIsKept(rest, env, next, text, next'.counts);
        }
    }
  }

  /**
  Printing the concatenation of two formats is printing one after the other: nothing of a directive
  survives it, so the second starts from a clean state and takes up the arguments the first left.
   */
  lemma Concatenation(s: string, t: string, env: Env)
    requires Complete(Parse(s))
    ensures var first := Meaning(Parse(s), env, START);
            var whole := Meaning(Parse(s + t), env, START);
            if first.overflow then whole == first
            else
              var second := Meaning(Parse(t), env, START.(used := first.progress.used));
              && whole.progress.text == first.progress.text + second.progress.text
              && whole.progress.used == second.progress.used && whole.overflow == second.overflow
  {
    var f, g := Parse(s), Parse(t);
    ShowParse(s);
    ShowParse(t);
    ShowAppend(f, g);
    WellFormedAppend(f, g);
    ParseShow(Append(f, g));
    assert Parse(s + t) == Append(f, g);
    MeaningAppend(f, g, env, START);
    var first := Meaning(f, env, START);
    if !first.overflow {
      var now := first.progress;
      EarlierTextIsKept(g, env, START.(used := now.used), now.text, now.counts);
      assert now.text + "" == now.text;
    }
  }

  // ----- overflow -----

  predicate TooBigField(f: Field) { Value(f.digits, 10) > INT_MAX }

  predicate TooBigSpec(spec: Spec) {
    TooBigField(spec.width) || (spec.precision.Some? && TooBigField(spec.precision.value))
  }

  /** Some digit run of the format, finished or not, denotes a number above INT_MAX. */
  predicate HasTooBig(f: Format) {
    match f
    case End => false
    case Cut(spec) => TooBigSpec(spec)
    case Lit(_, rest) => HasTooBig(rest)
    case Dir(spec, _, rest) => TooBigSpec(spec) || HasTooBig(rest)
  }

  /** Overflow is reported exactly when a width or precision is written with a number above INT_MAX. */
  lemma {:induction false} OverflowIsExact(f: Format, env: Env, now: Progress)
    ensures Meaning(f, env, now).overflow <==> HasTooBig(f)
    decreases f
  {
    hide Perform;
    match f {
      case End =>
      case Cut(_) =>
      case Lit(c, rest) => OverflowIsExact(rest, env, now.(text := now.text + [c]));
      case Dir(spec, conv, rest) =>
        match EvalSpec(spec, env, now.used) {
          case Overflowed(_) =>
          case Evaluated(p, used) => OverflowIsExact(rest, env, Perform(env, conv, p, now.(used := used)));
        }
    }
  }

  // ----- the result -----

  /**
  C99, section 7.19.6.5, asks for the length of the text. It is returned exactly when no width or precision of the
  format is written with a number above INT_MAX and the length is below INT_MAX.
   */
  lemma ReturnIsLength(s: string, env: Env)
    ensures var o := Meaning(Parse(s), env, START);
            Returned(o) == |o.progress.text| <==> !HasTooBig(Parse(s)) && |o.progress.text| < INT_MAX
  {
    hide Meaning, HasTooBig, Parse;
    OverflowIsExact(Parse(s), env, START);
  }

  // ----- truncation -----

  lemma NulIsFirst(s: seq<char>, k: nat)
    requires k < |s| && s[k] == NUL && NUL !in s[..k]
    ensures FirstNul(s) == k
  {
  }

  /**
  Read as a C string, the buffer holds as much of the text as leaves room for the NUL, and
  the whole text when it fits. The cells after the NUL are the ones that were there before.
   */
  lemma BufferReadsBack(before: seq<char>, size: nat, text: string)
    requires 0 < size <= |before| && NUL !in text
    ensures var after := Shown(before, size, text);
            var kept := Text(after);
            && |after| == |before| && NUL in after && after[|kept|] == '\0'
            && kept == text[..Min(|text|, size - 1)]
            && after[|kept| + 1..] == before[|kept| + 1..]
  {
    var k := Kept(|text|, size);
    var after := Shown(before, size, text);
    assert after[k] == NUL && after[..k] == text[..k];
    NulIsFirst(after, k);
  }

  // ----- flags -----

  /** Flags as they act on an integer field: `-` and a precision cancel `0`, `+` cancels a blank. */
  function Normal(flags: Flags, precision: int): Flags {
    flags.(zero := flags.zero && !flags.minus && precision == -1, space := flags.space && !flags.plus)
  }

  lemma NormalField(value: int, base: int, width: int, precision: int, flags: Flags)
    requires FmtBase(base)
    ensures RenderInt(value, base, width, precision, flags)
         == RenderInt(value, base, width, precision, Normal(flags, precision))
  {
    var n := Normal(flags, precision);
    assert LayoutOf(value, base, precision, flags) == LayoutOf(value, base, precision, n);
  }

  /** Cancelled flags never change what an integer conversion prints. */
  lemma CancelledFlags(abi: Abi, conv: char, p: Params, flags: Flags, slot: Slot)
    requires IsInteger(conv) && Normal(p.flags, p.precision) == Normal(flags, p.precision)
    ensures ConversionText(abi, conv, p, slot) == ConversionText(abi, conv, p.(flags := flags), slot)
  {
    hide RenderInt, SignedArg, UnsignedArg;
    var value := if IsSigned(conv) then SignedArg(abi, p.mod, slot.word) else UnsignedArg(abi, p.mod, slot.word);
    var a, b := ConvFlags(conv, p.flags), ConvFlags(conv, flags);
    NormalField(value, BaseOf(conv), p.width, p.precision, a);
    NormalField(value, BaseOf(conv), p.width, p.precision, b);
    assert Normal(a, p.precision) == Normal(b, p.precision);
  }

  /** The order and the number of the flag characters never matter, in any directive. */
  lemma FlagOrder(spec: Spec, flags: string, conv: char, rest: Format, env: Env, now: Progress)
    requires forall c :: c in spec.flags <==> c in flags
    ensures Meaning(Dir(spec, conv, rest), env, now) == Meaning(Dir(spec.(flags := flags), conv, rest), env, now)
  {
    assert FlagsOf(spec.flags) == FlagsOf(flags);
    hide Perform, EvalField;
  }

  /** The arguments from `used` on are the same. */
  ghost predicate SameFrom(env: Env, other: Env, used: nat) {
    env.abi == other.abi && forall i: nat :: i >= used ==> env.args(i) == other.args(i)
  }

  lemma SameEvaluation(spec: Spec, env: Env, other: Env, used: nat)
    requires SameFrom(env, other, used)
    ensures EvalSpec(spec, env, used) == EvalSpec(spec, other, used) && EvalSpec(spec, env, used).used >= used
  {
  }

  /** Only the arguments still to come matter. */
  lemma {:induction false} SameArguments(f: Format, env: Env, other: Env, now: Progress)
    requires SameFrom(env, other, now.used)
    ensures Meaning(f, env, now) == Meaning(f, other, now)
    decreases f
  {
    hide EvalSpec;
    match f {
      case End =>
      case Cut(spec) => SameEvaluation(spec, env, other, now.used);
      case Lit(c, rest) => SameArguments(rest, env, other, now.(text := now.text + [c]));
      case Dir(spec, conv, rest) =>
        SameEvaluation(spec, env, other, now.used);
        match EvalSpec(spec, env, now.used) {
          case Overflowed(_) =>
          case Evaluated(p, used) =>
            var next := Perform(env, conv, p, now.(used := used));
            assert next == Perform(other, conv, p, now.(used := used)) && next.used >= used;
            hide Perform;
            SameArguments(rest, env, other, next);
        }
    }
  }

  /**
  `%*d` with -w is `%-*d` with w: the specification evaluates to the same, whatever follows the width,
  when the arguments after it are the same.
   */
  lemma NegativeStarEvaluates(spec: Spec, env: Env, positive: Env, used: nat)
    requires spec.width == Field("", true) && IntArg(env, used) < 0
    requires IntArg(positive, used) == -IntArg(env, used) && SameFrom(env, positive, used + 1)
    ensures var e := EvalSpec(spec, env, used);
            e == EvalSpec(spec.(flags := "-" + spec.flags), positive, used) && e.used >= used + 1
  {
    var flags := "-" + spec.flags;
    assert flags[0] == '-' && forall c :: c in flags <==> c == '-' || c in spec.flags;
    assert FlagsOf(flags) == FlagsOf(spec.flags).(minus := true);
  }

  /** A negative `*` width prints what a `-` flag and the positive width print, in any format. */
  lemma NegativeStarWidth(spec: Spec, conv: char, rest: Format, env: Env, positive: Env, now: Progress)
    requires spec.width == Field("", true) && IntArg(env, now.used) < 0
    requires IntArg(positive, now.used) == -IntArg(env, now.used) && SameFrom(env, positive, now.used + 1)
    ensures Meaning(Dir(spec, conv, rest), env, now)
         == Meaning(Dir(spec.(flags := "-" + spec.flags), conv, rest), positive, now)
  {
    NegativeStarEvaluates(spec, env, positive, now.used);
    hide EvalSpec;
    match EvalSpec(spec, env, now.used) {
      case Overflowed(_) =>
      case Evaluated(p, used) =>
        var next := Perform(env, conv, p, now.(used := used));
        assert next == Perform(positive, conv, p, now.(used := used)) && next.used >= used;
        hide Perform;
        SameArguments(rest, env, positive, next);
    }
  }
}
