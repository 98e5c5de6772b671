/** What a format means: the text printed, the arguments consumed and the counts `%n` stores. */
module FormatMeaning {
  import opened CTypes
  import opened Numerals
  import opened IntegerText
  import opened FormatGrammar

  /** The platform and the variable arguments. */
  datatype Env = Env(abi: Abi, args: VaList)

  /** A store through the pointer argument of `%n`: where, how wide an object, and its bits. */
  datatype Count = Count(address: int, width: Width, bits: int)

  function Stored(address: int, n: int, width: Width): Count { Count(address, width, AsUnsigned(n, width)) }

  /** What has happened so far: characters output, arguments consumed, counts stored. */
  datatype Progress = Progress(text: string, used: nat, counts: seq<Count>)

  const START := Progress("", 0, [])

  datatype Outcome = Outcome(progress: Progress, overflow: bool)

  /** The PRINT_C_* length modifiers. */
  datatype Mod = NoMod | CharMod | ShortMod | LongMod | LLongMod | SizeMod | PtrdiffMod | IntmaxMod

  function ModOf(m: string): Mod {
    if m == "hh" then CharMod
    else if m == "h" then ShortMod
    else if m == "l" then LongMod
    else if m == "ll" then LLongMod
    else if m == "z" then SizeMod
    else if m == "j" then IntmaxMod
    else if m == "t" then PtrdiffMod
    else NoMod
  }

  /** What a conversion is performed with. */
  datatype Params = Params(flags: Flags, width: int, precision: int, mod: Mod)

  function FlagsOf(fs: string): Flags {
    Flags('-' in fs, '+' in fs, ' ' in fs, '#' in fs, '0' in fs, '\'' in fs, false, false)
  }

  // ----- evaluating a specification -----

  datatype FieldValue = TooBig | FieldValue(n: int, used: nat)

  function EvalField(f: Field, env: Env, used: nat): FieldValue {
    if Value(f.digits, 10) > INT_MAX then TooBig
    else if f.star then FieldValue(IntArg(env, used), used + 1)
    else FieldValue(Value(f.digits, 10), used)
  }

  /** The next argument read as an `int`. */
  function IntArg(env: Env, used: nat): int { AsSigned(env.args(used).word, W32) }

  datatype Evaluated = Overflowed(used: nat) | Evaluated(params: Params, used: nat)

  /** A negative `*` width is a `-` flag and a positive width. */
  function WidthFlags(flags: Flags, width: int): Flags {
    if width < 0 then flags.(minus := true) else flags
  }

  function Magnified(width: int): int { if width < 0 then -width else width }

  function EvalSpec(spec: Spec, env: Env, used: nat): Evaluated {
    match EvalField(spec.width, env, used)
    case TooBig => Overflowed(used)
    case FieldValue(w, usedByWidth) =>
      var flags, width := WidthFlags(FlagsOf(spec.flags), w), Magnified(w);
      match spec.precision
      case None => Evaluated(Params(flags, width, -1, ModOf(spec.mod)), usedByWidth)
      case Some(f) =>
        match EvalField(f, env, usedByWidth)
        case TooBig => Overflowed(usedByWidth)
        case FieldValue(p, usedByPrecision) =>
          Evaluated(Params(flags, width, Max(p, -1), ModOf(spec.mod)), usedByPrecision)
  }

  // ----- performing a conversion -----

  /** `d` and `i`: the value as the C code fetches it. */
  function SignedArg(abi: Abi, mod: Mod, word: int): int {
    match mod
    case CharMod => AsSigned(word, W8)
    case ShortMod => AsSigned(word, W16)
    case LongMod => AsSigned(word, abi.Long())
    case LLongMod => AsSigned(word, W64)
    case SizeMod => AsSigned(AsUnsigned(word, abi.Size()), W64)
    case IntmaxMod => AsSigned(word, W64)
    case PtrdiffMod => AsSigned(word, abi.Long())
    case NoMod => AsSigned(word, W32)
  }

  /** `o`, `u`, `x` and `X`: the value as the C code fetches it, in an INTMAX_T. */
  function UnsignedArg(abi: Abi, mod: Mod, word: int): int {
    match mod
    case CharMod => AsUnsigned(word, W8)
    case ShortMod => AsUnsigned(word, W16)
    case LongMod => AsSigned(AsUnsigned(word, abi.Long()), W64)
    case LLongMod => AsSigned(word, W64)
    case SizeMod => AsSigned(AsUnsigned(word, abi.Size()), W64)
    case IntmaxMod => AsSigned(word, W64)
    case PtrdiffMod => AsSigned(word, abi.Long())
    case NoMod => AsUnsigned(word, W32)
  }

  /** `n`: the object the count is stored into. */
  function CountOf(abi: Abi, mod: Mod, address: int, n: nat): Count {
    match mod
    case CharMod => Stored(address, n, W8)
    case ShortMod => Stored(address, n, W16)
    case LongMod => Stored(address, n, abi.Long())
    case LLongMod => Stored(address, n, W64)
    case SizeMod => Stored(address, n, abi.Size())
    case IntmaxMod => Stored(address, n, W64)
    case PtrdiffMod => Stored(address, n, abi.Long())
    case NoMod => Stored(address, n, W32)
  }

  function Address(abi: Abi, slot: Slot): int { AsUnsigned(slot.word, abi.Size()) }

  predicate IsInteger(conv: char) {
    conv == 'd' || conv == 'i' || conv == 'o' || conv == 'u' || conv == 'x' || conv == 'X'
  }

  predicate IsSigned(conv: char) { conv == 'd' || conv == 'i' }

  function BaseOf(conv: char): (base: int)
    ensures FmtBase(base)
  {
    if conv == 'x' || conv == 'X' then 16 else if conv == 'o' then 8 else 10
  }

  function ConvFlags(conv: char, flags: Flags): Flags {
    if IsSigned(conv) then flags else flags.(up := flags.up || conv == 'X', uns := true)
  }

  /** The characters one conversion prints, given its argument. */
  function ConversionText(abi: Abi, conv: char, p: Params, slot: Slot): string {
    if IsSigned(conv) then RenderInt(SignedArg(abi, p.mod, slot.word), 10, p.width, p.precision, p.flags)
    else if IsInteger(conv) then
      RenderInt(UnsignedArg(abi, p.mod, slot.word), BaseOf(conv), p.width, p.precision, ConvFlags(conv, p.flags))
    else if conv == 'c' then [AsUnsigned(slot.word, W8) as char]
    else if conv == 's' then
      RenderStr(if Address(abi, slot) == 0 then "" else Text(slot.text), p.width, p.precision, p.flags)
    else if conv == 'p' then
      (if Address(abi, slot) == 0 then RenderStr("(nil)", p.width, -1, p.flags)
       else RenderInt(AsSigned(AsUnsigned(Address(abi, slot), abi.Long()), W64), 16, p.width, p.precision,
                      p.flags.(num := true, uns := true)))
    else if conv == '%' then "%"
    else ""
  }

  predicate TakesArgument(conv: char) {
    IsInteger(conv) || conv == 'c' || conv == 's' || conv == 'p' || conv == 'n'
  }

  function Perform(env: Env, conv: char, p: Params, now: Progress): Progress {
    var slot := env.args(now.used);
    Progress(now.text + ConversionText(env.abi, conv, p, slot),
             if TakesArgument(conv) then now.used + 1 else now.used,
             if conv == 'n' then now.counts + [CountOf(env.abi, p.mod, Address(env.abi, slot), |now.text|)]
             else now.counts)
  }

  // ----- the meaning of a format -----

  function Meaning(f: Format, env: Env, now: Progress): Outcome
    decreases f
  {
    match f
    case End => Outcome(now, false)
    case Lit(c, rest) => Meaning(rest, env, now.(text := now.text + [c]))
    case Cut(spec) =>
      (match EvalSpec(spec, env, now.used)
       case Overflowed(used) => Outcome(now.(used := used), true)
       case Evaluated(_, used) => Outcome(now.(used := used), false))
    case Dir(spec, conv, rest) =>
      (match EvalSpec(spec, env, now.used)
       case Overflowed(used) => Outcome(now.(used := used), true)
       case Evaluated(p, used) => Meaning(rest, env, Perform(env, conv, p, now.(used := used))))
  }
}
