/**
Whole directives against C99, section 7.19.6.1: which are defined, argument types, conversions, formats. A directive
C99 leaves undefined is taken to mean what the printer does.
 */
module FormatConformance {
  import opened CTypes
  import opened Numerals
  import opened IntegerText
  import opened Conformance
  import opened FormatGrammar
  import opened FormatMeaning

  // ----- integer arguments -----

  /** Paragraph 7: the width of the argument a length modifier names. */
  function WidthOf(abi: Abi, mod: Mod): Width {
    match mod
    case NoMod => W32
    case CharMod => W8
    case ShortMod => W16
    case LongMod => abi.Long()
    case LLongMod => W64
    case SizeMod => abi.Size()
    case PtrdiffMod => abi.Ptrdiff()
    case IntmaxMod => W64
  }

  /** The value of an integer argument: signed for `d` and `i`, unsigned for the others. */
  function C99Value(abi: Abi, conv: char, mod: Mod, word: int): int {
    if IsSigned(conv) then AsSigned(word, WidthOf(abi, mod)) else AsUnsigned(word, WidthOf(abi, mod))
  }

  function FetchedValue(abi: Abi, conv: char, mod: Mod, word: int): int {
    if IsSigned(conv) then SignedArg(abi, mod, word) else UnsignedArg(abi, mod, word)
  }

  /** The top bit of the word's low half is set. */
  predicate TopBit(word: int) { AsSigned(word, W32) < 0 }

  /** The upper half of the word is not the sign extension of the lower. */
  predicate NotExtended(word: int) { AsSigned(word, W32) != AsSigned(word, W64) }

  predicate HighHalf(word: int) { AsUnsigned(word, W32) != AsUnsigned(word, W64) }

  /**
  The fetches that see another value. `%zd` reads an unsigned `size_t`. The `t` conversions read a signed
  `long` instead of `ptrdiff_t` or its unsigned counterpart, which may also have another width.
   */
  predicate FetchedWrongly(abi: Abi, conv: char, mod: Mod, word: int) {
    if mod == SizeMod then IsSigned(conv) && !abi.wideSize && TopBit(word)
    else if mod != PtrdiffMod then false
    else if IsSigned(conv) then abi.wideLong != abi.widePtrdiff && NotExtended(word)
    else if abi.widePtrdiff then !abi.wideLong && NotExtended(word)
    else if abi.wideLong then HighHalf(word)
    else TopBit(word)
  }

  /** What the conversion makes of the value it is handed. */
  function Seen(conv: char, value: int): int {
    if IsSigned(conv) then value else AsUnsigned(value, W64)
  }

  lemma SignedFetch(abi: Abi, mod: Mod, word: int)
    ensures SignedArg(abi, mod, word) == AsSigned(word, WidthOf(abi, mod)) <==> !FetchedWrongly(abi, 'd', mod, word)
  {
    UnsignedThroughSigned64(word);
    hide AsSigned;
    assert mod == SizeMod && !abi.wideSize ==>
        (AsSigned(AsUnsigned(word, W32), W64) == AsSigned(word, W32) <==> !TopBit(word)) by { SizeExtends(word); }
    hide AsUnsigned;
    if mod == SizeMod && abi.wideSize {
      SignedOfUnsigned(word);
    }
  }

  lemma SizeExtends(word: int)
    ensures AsSigned(AsUnsigned(word, W32), W64) == AsSigned(word, W32) <==> !TopBit(word)
  {
  }

  lemma SignedOfUnsigned(word: int)
    ensures AsSigned(AsUnsigned(word, W64), W64) == AsSigned(word, W64)
  {
  }

  lemma Rewidened(word: int, w: Width)
    ensures AsUnsigned(AsSigned(AsUnsigned(word, w), W64), W64) == AsUnsigned(word, w)
    ensures AsUnsigned(AsUnsigned(word, w), W64) == AsUnsigned(word, w)
  {
  }

  /** A word read as a signed 32-bit `long` and then as an unsigned 64-bit value. */
  lemma SignExtended(word: int)
    ensures AsUnsigned(AsSigned(word, W32), W64) == AsUnsigned(word, W32) <==> !TopBit(word)
    ensures AsUnsigned(AsSigned(word, W32), W64) == AsUnsigned(word, W64) <==> !NotExtended(word)
  {
  }

  lemma UnsignedFetch(abi: Abi, mod: Mod, word: int)
    ensures AsUnsigned(UnsignedArg(abi, mod, word), W64) == AsUnsigned(word, WidthOf(abi, mod))
       <==> !FetchedWrongly(abi, 'u', mod, word)
  {
    hide AsUnsigned, AsSigned, TopBit, NotExtended;
    UnsignedThroughSigned64(word);
    Rewidened(word, WidthOf(abi, mod));
    SignExtended(word);
  }

  lemma FetchIsExact(abi: Abi, conv: char, mod: Mod, word: int)
    ensures Seen(conv, FetchedValue(abi, conv, mod, word)) == C99Value(abi, conv, mod, word)
       <==> !FetchedWrongly(abi, conv, mod, word)
  {
    hide SignedArg, UnsignedArg, AsSigned, AsUnsigned, WidthOf, TopBit, NotExtended, HighHalf;
    if IsSigned(conv) {
      SignedFetch(abi, mod, word);
    } else {
      UnsignedFetch(abi, mod, word);
    }
  }

  // ----- integer directives -----

  function C99Integer(abi: Abi, conv: char, p: Params, slot: Slot): string {
    C99Int(C99Value(abi, conv, p.mod, slot.word),
           if conv == 'o' then 8 else if conv == 'x' || conv == 'X' then 16 else 10,
           p.width, p.precision, ConvFlags(conv, p.flags))
  }

  /** Where an integer directive prints something else than C99 and SUSv2 say. */
  predicate IntegerDeparts(abi: Abi, conv: char, p: Params, slot: Slot) {
    var value, base, flags := C99Value(abi, conv, p.mod, slot.word), BaseOf(conv), ConvFlags(conv, p.flags);
    || FetchedWrongly(abi, conv, p.mod, slot.word)
    || DropsEmptyNumber(value, base, p.precision, flags)
    || CommasForZeros(value, base, p.precision, flags)
  }

  /** Only the value an unsigned conversion sees matters. */
  lemma SeenDecides(conv: char, v: int, w: int, width: int, precision: int, flags: Flags)
    requires Seen(conv, v) == Seen(conv, w) && (flags.uns <==> !IsSigned(conv))
    ensures RenderInt(v, BaseOf(conv), width, precision, flags) == RenderInt(w, BaseOf(conv), width, precision, flags)
  {
    assert LayoutOf(v, BaseOf(conv), precision, flags) == LayoutOf(w, BaseOf(conv), precision, flags);
  }

  /** The field of one value is never the one asked for another. */
  lemma OtherValue(conv: char, v: int, w: int, width: int, precision: int, flags: Flags)
    requires Seen(conv, v) != Seen(conv, w) && (flags.uns <==> !IsSigned(conv)) && precision >= -1
    ensures RenderInt(v, BaseOf(conv), width, precision, flags) != C99Int(w, BaseOf(conv), width, precision, flags)
  {
    hide RenderInt, C99Int, Strip, Read, DropsEmptyNumber;
    var base := BaseOf(conv);
    if DropsEmptyNumber(w, base, precision, flags) {
      NoDigits(w, base, width, precision, flags);
      SomeDigits(v, base, width, precision, flags);
    } else {
      RoundTrip(v, base, width, precision, flags);
      C99RoundTrip(w, base, width, precision, flags);
    }
  }

  /** An integer directive prints what is asked for exactly outside the departures. */
  lemma IntegerMeetsC99(abi: Abi, conv: char, p: Params, slot: Slot)
    requires IsInteger(conv) && p.precision >= -1 && !p.flags.uns
    ensures ConversionText(abi, conv, p, slot) == C99Integer(abi, conv, p, slot)
       <==> !IntegerDeparts(abi, conv, p, slot)
  {
    hide RenderInt, C99Int, SignedArg, UnsignedArg, FetchedWrongly, DropsEmptyNumber, CommasForZeros;
    var v, w := FetchedValue(abi, conv, p.mod, slot.word), C99Value(abi, conv, p.mod, slot.word);
    var base, flags := BaseOf(conv), ConvFlags(conv, p.flags);
    FetchIsExact(abi, conv, p.mod, slot.word);
    SeenOfC99(abi, conv, p.mod, slot.word);
    assert ConversionText(abi, conv, p, slot) == RenderInt(v, base, p.width, p.precision, flags);
    if FetchedWrongly(abi, conv, p.mod, slot.word) {
      OtherValue(conv, v, w, p.width, p.precision, flags);
    } else {
      SeenDecides(conv, v, w, p.width, p.precision, flags);
      IntMeetsC99(w, base, p.width, p.precision, flags);
    }
  }

  lemma SeenOfC99(abi: Abi, conv: char, mod: Mod, word: int)
    ensures Seen(conv, C99Value(abi, conv, mod, word)) == C99Value(abi, conv, mod, word)
  {
  }

  // ----- what C99 defines -----

  predicate IsFloating(conv: char) {
    conv == 'a' || conv == 'A' || conv == 'e' || conv == 'E' || conv == 'f' || conv == 'F' || conv == 'g' || conv == 'G'
  }

  /** `%c` and `%s` with the `l` modifier. */
  predicate IsWide(conv: char, mod: Mod) { (conv == 'c' || conv == 's') && mod == LongMod }

  /** What C99 leaves to the platform: the characters of floating-point numbers and of wide characters. */
  datatype Platform = Platform(floating: (char, Params, Slot) -> string, longDouble: (char, Params, Slot) -> string,
                               wideChar: int -> string, wideString: (Slot, int) -> string)

  /** A width or precision of C99: digits or a `*`, not both. */
  predicate OneOf(f: Field) { f.digits == "" || !f.star }

  predicate Regular(spec: Spec) { OneOf(spec.width) && (spec.precision.Some? ==> OneOf(spec.precision.value)) }

  /** Paragraphs 4 to 9: the directives this model compares; for the others the printer's own reading stands. */
  predicate Defined(spec: Spec, conv: char, p: Params) {
    && Regular(spec)
    && if IsInteger(conv) then (p.flags.num ==> BaseOf(conv) != 10) && (p.flags.quote ==> BaseOf(conv) == 10)
       else if IsFloating(conv) then (p.mod == NoMod || p.mod == LongMod) && (p.flags.quote ==> GroupsFloats(conv))
       else if conv == 'c' || conv == 's' then
         && (p.mod == NoMod || p.mod == LongMod) && !p.flags.num && !p.flags.zero && !p.flags.quote
         && (conv == 'c' ==> p.precision == -1)
       else conv == 'n' && spec == BARE.(mod := spec.mod)
  }

  /** SUSv2 has the `'` flag for `f`, `g` and `G`; `F` is the upper-case `f` of C99. */
  predicate GroupsFloats(conv: char) { conv == 'f' || conv == 'F' || conv == 'g' || conv == 'G' }

  /** `L` and a floating-point conversion, which the printer takes for an unknown conversion and a letter. */
  predicate IsLongDouble(f: Format) {
    && f.Dir? && f.conv == 'L' && f.rest.Lit? && IsFloating(f.rest.c)
    && Regular(f.spec) && f.spec.mod == "" && ('\'' in f.spec.flags ==> GroupsFloats(f.rest.c))
  }

  // ----- characters and strings -----

  function OneChar(slot: Slot): string { [AsUnsigned(slot.word, W8) as char] }

  /** The text a string argument points at; the printer takes a null pointer for the empty string. */
  function Pointed(abi: Abi, slot: Slot): string { if Address(abi, slot) == 0 then "" else Text(slot.text) }

  /** `%c` ignores the width, so without `l` it prints what C99 says exactly for a width of at most one. */
  lemma CharacterMeetsC99(abi: Abi, p: Params, slot: Slot)
    ensures ConversionText(abi, 'c', p, slot) == InBlanks(OneChar(slot), p.width, p.flags) <==> p.width <= 1
  {
    assert |InBlanks(OneChar(slot), p.width, p.flags)| == Max(p.width, 1);
    assert p.width <= 1 ==> Repeat(' ', p.width - 1) == "";
  }

  /** The characters C99 asks of `%lc` and `%ls`. */
  function WideText(abi: Abi, lib: Platform, conv: char, p: Params, slot: Slot): string {
    InBlanks(if conv == 'c' then lib.wideChar(slot.word)
             else if Address(abi, slot) == 0 then "" else lib.wideString(slot, p.precision), p.width, p.flags)
  }

  /** The texts are the same, or the longer is the shorter filled up with blanks, with room for both. */
  predicate SameInField(a: string, b: string, width: int, flags: Flags) {
    || a == b
    || (width >= Max(|a|, |b|) && if |a| <= |b| then b == InBlanks(a, |b|, flags) else a == InBlanks(b, |a|, flags))
  }

  /** A field filled in two steps. */
  lemma FilledTwice(a: string, n: int, width: int, flags: Flags)
    requires |a| <= n <= width
    ensures InBlanks(InBlanks(a, n, flags), width, flags) == InBlanks(a, width, flags)
  {
    RepeatSum(' ', width - n, n - |a|);
    RepeatSum(' ', n - |a|, width - n);
    var inner, outer := Repeat(' ', n - |a|), Repeat(' ', width - n);
    assert Repeat(' ', width - |a|) == inner + outer == outer + inner;
    assert (a + inner) + outer == a + (inner + outer) && outer + (inner + a) == (outer + inner) + a;
  }

  /** Two fields of a width are the same exactly for such texts. */
  lemma FieldsMeet(a: string, b: string, width: int, flags: Flags)
    requires |a| <= |b|
    ensures InBlanks(a, width, flags) == InBlanks(b, width, flags) <==> SameInField(a, b, width, flags)
    ensures SameInField(a, b, width, flags) <==> SameInField(b, a, width, flags)
  {
    TextInField(a, width, flags);
    TextInField(b, width, flags);
    if |a| < |b| <= width {
      FilledTwice(a, |b|, width, flags);
      TextInField(InBlanks(a, |b|, flags), width, flags);
    }
    hide InBlanks;
  }

  /** The text can be cut out of its field. */
  lemma TextInField(a: string, width: int, flags: Flags)
    ensures |InBlanks(a, width, flags)| == Max(width, |a|)
    ensures var f := InBlanks(a, width, flags); a == if flags.minus then f[..|a|] else f[|f| - |a|..]
  {
  }

  /** When `%lc` and `%ls` print what C99 asks: a condition on the platform's conversion of the argument. */
  predicate WideAgrees(abi: Abi, lib: Platform, conv: char, p: Params, slot: Slot) {
    if conv == 'c' then
      var wide := lib.wideChar(slot.word);
      (p.width <= 1 && wide == OneChar(slot)) || (p.width == 1 && wide == "" && OneChar(slot) == " ")
    else
      || Address(abi, slot) == 0
      || SameInField(Clip(Text(slot.text), p.precision), lib.wideString(slot, p.precision), p.width, p.flags)
  }

  lemma WideMeetsC99(abi: Abi, lib: Platform, conv: char, p: Params, slot: Slot)
    requires IsWide(conv, p.mod)
    ensures ConversionText(abi, conv, p, slot) == WideText(abi, lib, conv, p, slot)
       <==> WideAgrees(abi, lib, conv, p, slot)
  {
    assert Clip("", p.precision) == "";
    hide InBlanks, SameInField, Clip;
    if conv == 'c' {
      WideCharacterMeets(lib.wideChar(slot.word), OneChar(slot), p.width, p.flags);
    } else if Address(abi, slot) != 0 {
      var a, b := Clip(Text(slot.text), p.precision), lib.wideString(slot, p.precision);
      if |a| <= |b| {
        FieldsMeet(a, b, p.width, p.flags);
      } else {
        FieldsMeet(b, a, p.width, p.flags);
      }
    }
  }

  lemma WideCharacterMeets(wide: string, one: string, width: int, flags: Flags)
    requires |one| == 1
    ensures one == InBlanks(wide, width, flags)
       <==> (width <= 1 && wide == one) || (width == 1 && wide == "" && one == " ")
  {
    TextInField(wide, width, flags);
    assert Repeat(' ', 1) == Repeat(' ', 0) + " " == " ";
    assert wide + "" == wide && "" + wide == wide;
  }

  // ----- directives -----

  /** The text asked of a defined directive. */
  function C99Text(abi: Abi, lib: Platform, conv: char, p: Params, slot: Slot): string {
    if IsInteger(conv) then C99Integer(abi, conv, p, slot)
    else if IsFloating(conv) then lib.floating(conv, p, slot)
    else if IsWide(conv, p.mod) then WideText(abi, lib, conv, p, slot)
    else if conv == 'c' then InBlanks(OneChar(slot), p.width, p.flags)
    else if conv == 's' then InBlanks(Clip(Pointed(abi, slot), p.precision), p.width, p.flags)
    else ""
  }

  function C99Perform(env: Env, lib: Platform, spec: Spec, conv: char, p: Params, now: Progress): Progress {
    if !Defined(spec, conv, p) then Perform(env, conv, p, now)
    else
      var slot := env.args(now.used);
      Progress(now.text + C99Text(env.abi, lib, conv, p, slot), now.used + 1,
               if conv != 'n' then now.counts
               else now.counts + [Stored(Address(env.abi, slot), |now.text|, WidthOf(env.abi, p.mod))])
  }

  function C99LongDouble(env: Env, lib: Platform, conv: char, p: Params, now: Progress): Progress {
    now.(text := now.text + lib.longDouble(conv, p, env.args(now.used)), used := now.used + 1)
  }

  /** Where the characters of a directive that has some are others than those asked for. */
  predicate TextDeparts(abi: Abi, lib: Platform, conv: char, p: Params, slot: Slot) {
    || (IsInteger(conv) && IntegerDeparts(abi, conv, p, slot))
    || (IsWide(conv, p.mod) && !WideAgrees(abi, lib, conv, p, slot))
    || (conv == 'c' && p.mod != LongMod && p.width > 1)
  }

  /** Where `%n` stores an object of another width. */
  predicate CountDeparts(abi: Abi, conv: char, mod: Mod) {
    conv == 'n' && mod == PtrdiffMod && abi.wideLong != abi.widePtrdiff
  }

  /** Where a directive does something else than C99 and SUSv2 say. */
  predicate Departs(env: Env, lib: Platform, spec: Spec, conv: char, p: Params, used: nat) {
    && Defined(spec, conv, p)
    && (IsFloating(conv) || TextDeparts(env.abi, lib, conv, p, env.args(used)) || CountDeparts(env.abi, conv, p.mod))
  }

  lemma CountMeetsC99(abi: Abi, mod: Mod, address: int, n: nat)
    ensures CountOf(abi, mod, address, n) == Stored(address, n, WidthOf(abi, mod))
       <==> !(mod == PtrdiffMod && abi.wideLong != abi.widePtrdiff)
  {
  }

  lemma StringMeetsC99(abi: Abi, p: Params, slot: Slot)
    ensures ConversionText(abi, 's', p, slot) == InBlanks(Clip(Pointed(abi, slot), p.precision), p.width, p.flags)
  {
  }

  lemma AppendSame(t: string, x: string, y: string)
    ensures t + x == t + y <==> x == y
  {
    assert (t + x)[|t|..] == x && (t + y)[|t|..] == y;
  }

  lemma AppendOne(cs: seq<Count>, x: Count, y: Count)
    ensures cs + [x] == cs + [y] <==> x == y
  {
    assert (cs + [x])[|cs|] == x && (cs + [y])[|cs|] == y;
  }

  lemma TextMeetsC99(abi: Abi, lib: Platform, conv: char, p: Params, slot: Slot)
    requires p.precision >= -1 && !p.flags.uns && !IsFloating(conv) && TakesArgument(conv) && conv != 'p'
    ensures ConversionText(abi, conv, p, slot) == C99Text(abi, lib, conv, p, slot)
       <==> !TextDeparts(abi, lib, conv, p, slot)
  {
    hide C99Integer, InBlanks, IntegerDeparts, WideText, WideAgrees;
    if IsWide(conv, p.mod) {
      WideMeetsC99(abi, lib, conv, p, slot);
      hide ConversionText;
    } else if IsInteger(conv) {
      IntegerMeetsC99(abi, conv, p, slot);
      hide ConversionText;
    } else if conv == 'c' && p.mod != LongMod {
      CharacterMeetsC99(abi, p, slot);
      hide ConversionText;
    } else if conv == 's' && p.mod != LongMod {
      StringMeetsC99(abi, p, slot);
      hide ConversionText;
    }
  }

  lemma DefinedKinds(spec: Spec, conv: char, p: Params)
    requires Defined(spec, conv, p)
    ensures IsFloating(conv) || (TakesArgument(conv) && conv != 'p')
    ensures IsFloating(conv) ==> !TakesArgument(conv)
  {
  }

  /** One directive does what C99 says, in text, arguments and counts, exactly when it does not depart. */
  lemma DirectiveMeetsC99(env: Env, lib: Platform, spec: Spec, conv: char, p: Params, now: Progress)
    requires p.precision >= -1 && !p.flags.uns
    ensures Perform(env, conv, p, now) == C99Perform(env, lib, spec, conv, p, now)
       <==> !Departs(env, lib, spec, conv, p, now.used)
  {
    hide ConversionText, C99Text, TextDeparts, Defined, CountOf, WidthOf, Stored, IsFloating, TakesArgument;
    if Defined(spec, conv, p) {
      var slot := env.args(now.used);
      DefinedKinds(spec, conv, p);
      if !IsFloating(conv) {
        TextMeetsC99(env.abi, lib, conv, p, slot);
        AppendSame(now.text, ConversionText(env.abi, conv, p, slot), C99Text(env.abi, lib, conv, p, slot));
        CountMeetsC99(env.abi, p.mod, Address(env.abi, slot), |now.text|);
        AppendOne(now.counts, CountOf(env.abi, p.mod, Address(env.abi, slot), |now.text|),
                  Stored(Address(env.abi, slot), |now.text|, WidthOf(env.abi, p.mod)));
      }
    }
  }

  // ----- whole formats -----

  function C99Meaning(f: Format, env: Env, lib: Platform, now: Progress): Outcome
    decreases f
  {
    match f
    case End => Outcome(now, false)
    case Lit(c, rest) => C99Meaning(rest, env, lib, now.(text := now.text + [c]))
    case Cut(_) => Meaning(f, env, now)
    case Dir(spec, conv, rest) =>
      match EvalSpec(spec, env, now.used)
      case Overflowed(used) => Outcome(now.(used := used), true)
      case Evaluated(p, used) =>
        if IsLongDouble(f) then C99Meaning(rest.rest, env, lib, C99LongDouble(env, lib, rest.c, p, now.(used := used)))
        else C99Meaning(rest, env, lib, C99Perform(env, lib, spec, conv, p, now.(used := used)))
  }

  /** No directive that is performed departs from C99. */
  predicate Conforms(f: Format, env: Env, lib: Platform, used: nat)
    decreases f
  {
    match f
    case End => true
    case Lit(_, rest) => Conforms(rest, env, lib, used)
    case Cut(_) => true
    case Dir(spec, conv, rest) =>
      match EvalSpec(spec, env, used)
      case Overflowed(_) => true
      case Evaluated(p, used) =>
        && !IsLongDouble(f) && !Departs(env, lib, spec, conv, p, used)
        && Conforms(rest, env, lib, if TakesArgument(conv) then used + 1 else used)
  }

  lemma EvaluatedParams(spec: Spec, env: Env, used: nat)
    requires EvalSpec(spec, env, used).Evaluated?
    ensures var p := EvalSpec(spec, env, used).params; p.precision >= -1 && !p.flags.uns && !p.flags.up
  {
  }

  /** A format none of whose directives departs prints, consumes and stores what C99 and SUSv2 say. */
  lemma {:induction false} FormatMeetsC99(f: Format, env: Env, lib: Platform, now: Progress)
    requires Conforms(f, env, lib, now.used)
    ensures Meaning(f, env, now) == C99Meaning(f, env, lib, now)
    decreases f
  {
    hide EvalSpec, Departs, C99Perform, IsLongDouble;
    match f {
      case End =>
      case Cut(_) =>
      case Lit(c, rest) => FormatMeetsC99(rest, env, lib, now.(text := now.text + [c]));
      case Dir(spec, conv, rest) =>
        match EvalSpec(spec, env, now.used) {
          case Overflowed(_) =>
          case Evaluated(p, used) =>
            EvaluatedParams(spec, env, now.used);
            DirectiveMeetsC99(env, lib, spec, conv, p, now.(used := used));
            FormatMeetsC99(rest, env, lib, Perform(env, conv, p, now.(used := used)));
        }
    }
  }
}
