/** `Vsnprintf`: the character-driven state machine over the format string. */
module Printer {
  import opened CTypes
  import opened IntegerText
  import opened FormatGrammar
  import opened FormatMeaning
  import opened Formatters
  import opened Resumption
  import opened Wrappers

  /** Format read states: PRINT_S_*. */
  datatype ReadState = DEFAULT | FLAGS | WIDTH | DOT | PRECISION | MOD | CONV

  /** The order in which states follow each other without reading a character. */
  function Rank(state: ReadState): nat {
    match state
    case DEFAULT => 0
    case FLAGS => 6
    case WIDTH => 5
    case DOT => 4
    case PRECISION => 3
    case MOD => 2
    case CONV => 1
  }

  const FRESH := Params(NO_FLAGS, 0, -1, NoMod)

  /** What each state knows about the variables. */
  ghost predicate Sane(state: ReadState, p: Params) {
    && p.precision >= -1
    && (state == DEFAULT ==> p == FRESH)
    && (state == FLAGS ==> p == FRESH.(flags := p.flags))
    && (state == WIDTH ==> p == FRESH.(flags := p.flags, width := p.width) && 0 <= p.width <= INT_MAX)
    && (state == DOT ==> p.precision == -1 && p.mod == NoMod)
    && (state == PRECISION ==> p.precision <= INT_MAX && p.mod == NoMod)
    && (state == MOD ==> p.mod == NoMod)
  }

  /** The outcome still to come from a state, the text not yet read and the variables of the machine. */
  ghost function FutureOf(state: ReadState, rest: string, p: Params, env: Env, now: Progress): Outcome {
    match state
    case DEFAULT => AtDefault(rest, env, now)
    case FLAGS => AtFlags(rest, p.flags, env, now)
    case WIDTH => AtWidth(rest, p.flags, p.width, env, now)
    case DOT => AtDot(rest, p.flags, p.width, env, now)
    case PRECISION => AtPrecision(rest, p.flags, p.width, Max(p.precision, 0), env, now)
    case MOD => AtModifier(rest, p.flags, p.width, p.precision, env, now)
    case CONV => AtConversion(rest, p, env, now)
  }

  /** At the terminating NUL nothing more happens, wherever the format breaks off. */
  lemma NothingLeft(state: ReadState, p: Params, env: Env, now: Progress)
    requires Sane(state, p)
    ensures FutureOf(state, "", p, env, now) == Outcome(now, false)
  {
  }

  /** `o`, `u`, `x` and `X`, with the case fall-through that picks the base. */
  method PutUnsigned(out: OutBuffer, env: Env, ch: char, p: Params, word: int)
    requires out.Valid() && IsInteger(ch) && !IsSigned(ch)
    modifies out, out.str
    ensures out.Valid()
    ensures out.text == old(out.text)
                     + RenderInt(UnsignedArg(env.abi, p.mod, word),
                                 if ch == 'o' then 8 else if ch == 'u' then 10 else 16, p.width, p.precision,
                                 p.flags.(up := p.flags.up || ch == 'X', uns := true))
  {
    hide OutBuffer.Valid, RenderInt;
    var flags, base := p.flags, 0;
    if ch == 'X' {
      flags := flags.(up := true);
    }
    if ch == 'X' || ch == 'x' {
      base := 16;
    }
    if ch != 'u' && base == 0 {
      base := 8;
    }
    if base == 0 {
      base := 10;
    }
    flags := flags.(uns := true);
    FmtInt(out, UnsignedArg(env.abi, p.mod, word), base, p.width, p.precision, flags);
  }

  method PutPointer(out: OutBuffer, env: Env, p: Params, slot: Slot)
    requires out.Valid()
    modifies out, out.str
    ensures out.Valid() && out.text == old(out.text) + ConversionText(env.abi, 'p', p, slot)
  {
    hide OutBuffer.Valid, RenderInt, RenderStr;
    var address := Address(env.abi, slot);
    if address == 0 {
      var nil := "(nil)";
      assert Text(nil + [NUL]) == nil by { TextOfLiteral(nil); }
      FmtStr(out, Some(nil + [NUL]), p.width, -1, p.flags);
    } else {
      FmtInt(out, AsSigned(AsUnsigned(address, env.abi.Long()), W64), 16, p.width, p.precision,
             p.flags.(num := true, uns := true));
    }
  }

  lemma TextOfLiteral(t: string)
    requires NUL !in t
    ensures Text(t + [NUL]) == t
  {
    var s := t + [NUL];
    var n := FirstNul(s);
    assert NUL in s by { assert s[|t|] == NUL; }
    assert n < |s| by { assert s[..|s|] == s; }
  }

  lemma SignedArgRange(abi: Abi, mod: Mod, word: int)
    ensures -Modulus(W64) <= 2 * SignedArg(abi, mod, word) < Modulus(W64)
  {
  }

  /** The conversion switch. */
  method DoConversion(out: OutBuffer, env: Env, ch: char, p: Params, used: nat, counts: seq<Count>)
    returns (used': nat, counts': seq<Count>)
    requires out.Valid() && p.precision >= -1
    modifies out, out.str
    ensures out.Valid()
    ensures Progress(out.text, used', counts') == Perform(env, ch, p, Progress(old(out.text), used, counts))
  {
    assert out.len == |out.text| && out.text + "" == out.text;
    var slot := env.args(used);
    SignedArgRange(env.abi, p.mod, slot.word);
    hide OutBuffer.Valid, RenderInt, RenderStr, SignedArg, UnsignedArg, CountOf;
    used', counts' := used + 1, counts;
    match ch {
      case 'd' | 'i' =>
        FmtInt(out, SignedArg(env.abi, p.mod, slot.word), 10, p.width, p.precision, p.flags);
      case 'X' | 'x' | 'o' | 'u' =>
        PutUnsigned(out, env, ch, p, slot.word);
      case 'c' =>
        out.OutChar(AsUnsigned(slot.word, W8) as char);
      case 's' =>
        FmtStr(out, if Address(env.abi, slot) == 0 then None else Some(slot.text), p.width, p.precision, p.flags);
      case 'p' =>
        PutPointer(out, env, p, slot);
      case 'n' =>
        counts' := counts + [CountOf(env.abi, p.mod, Address(env.abi, slot), out.len)];
      case '%' =>
        used' := used;
        out.OutChar(ch);
      case _ =>
        used' := used;
    }
  }

  /** The format from `ch` on, when `format` points at index `next`, one past `ch`. */
  ghost function RestAt(fmt: CStr, next: nat): string
    requires 1 <= next <= FirstNul(fmt) + 1
  {
    Text(fmt)[next - 1..]
  }

  lemma ReadOn(fmt: CStr, next: nat)
    requires 1 <= next <= FirstNul(fmt) + 1
    ensures fmt[next - 1] == NUL <==> next == FirstNul(fmt) + 1
    ensures fmt[next - 1] == NUL ==> RestAt(fmt, next) == ""
    ensures fmt[next - 1] != NUL ==>
              && RestAt(fmt, next) != "" && RestAt(fmt, next)[0] == fmt[next - 1]
              && RestAt(fmt, next + 1) == RestAt(fmt, next)[1..]
  {
  }

  /** One flag character sets one flag. */
  function SetFlag(flags: Flags, c: char): Flags
    requires In(c, Flag)
  {
    match c
    case '-' => flags.(minus := true)
    case '+' => flags.(plus := true)
    case ' ' => flags.(space := true)
    case '#' => flags.(num := true)
    case '0' => flags.(zero := true)
    case _ => flags.(quote := true)
  }

  lemma SetFlagJoins(flags: Flags, c: char)
    requires In(c, Flag)
    ensures SetFlag(flags, c) == Join(flags, FlagsOf([c]))
  {
    assert FlagsOf([c]) == Flags(c == '-', c == '+', c == ' ', c == '#', c == '0', c == '\'', false, false);
    hide FlagsOf;
  }

  /** Case PRINT_S_FLAGS: sets a flag and reads on, or leaves the flags. */
  method FlagsCase(ch: char, flags: Flags, ghost rest: string, ghost env: Env, ghost now: Progress)
    returns (flags': Flags, read: bool)
    requires rest != "" && rest[0] == ch
    ensures AtFlags(rest, flags, env, now)
         == if read then AtFlags(rest[1..], flags', env, now) else AtWidth(rest, flags', 0, env, now)
  {
    hide AtFlags, AtWidth, Join, FlagsOf, SetFlag;
    flags', read := flags, In(ch, Flag);
    if read {
      FlagStep(rest, flags, env, now);
      SetFlagJoins(flags, ch);
      flags' := SetFlag(flags, ch);
    } else {
      FlagsDone(rest, flags, env, now);
    }
  }

  /** How a case ends: in the same state, in the next one, or in an overflow. */
  datatype Exit = Stay | Next | Fail

  /** Case PRINT_S_WIDTH. */
  method WidthCase(ch: char, flags: Flags, width: int, env: Env, used: nat, ghost rest: string, ghost now: Progress)
    returns (flags': Flags, width': int, used': nat, exit: Exit, read: bool)
    requires rest != "" && rest[0] == ch && 0 <= width <= INT_MAX && now.used == used
    ensures exit == Stay ==> read && flags' == flags && 0 <= width' <= INT_MAX
    ensures exit != Next ==> used' == used
    ensures AtWidth(rest, flags, width, env, now)
         == match exit
            case Stay => AtWidth(rest[1..], flags', width', env, now)
            case Next => AtDot(if read then rest[1..] else rest, flags', width', env, now.(used := used'))
            case Fail => Outcome(now, true)
  {
    hide AtWidth, AtDot;
    flags', width', used', exit, read := flags, width, used, Next, false;
    if IsDigit(ch) {
      WidthDigitStep(rest, flags, width, env, now);
      var d := ch as int - '0' as int;
      if width > (INT_MAX - d) / 10 {
        exit := Fail;
      } else {
        width', exit, read := 10 * width + d, Stay, true;
      }
    } else if ch == '*' {
      WidthDone(rest, flags, width, env, now);
      width', used', read := IntArg(env, used), used + 1, true;
      if width' < 0 {
        flags' := flags.(minus := true);
        width' := -width';
      }
    } else {
      WidthDone(rest, flags, width, env, now);
      assert now.(used := used) == now;
    }
  }

  /** Case PRINT_S_PRECISION. */
  method PrecisionCase(ch: char, precision: int, env: Env, used: nat,
                       ghost flags: Flags, ghost width: int, ghost rest: string, ghost now: Progress)
    returns (precision': int, used': nat, exit: Exit, read: bool)
    requires rest != "" && rest[0] == ch && -1 <= precision <= INT_MAX && now.used == used
    ensures precision' >= -1
    ensures exit == Stay ==> read && 0 <= precision' <= INT_MAX
    ensures exit != Next ==> used' == used
    ensures AtPrecision(rest, flags, width, Max(precision, 0), env, now)
         == match exit
            case Stay => AtPrecision(rest[1..], flags, width, precision', env, now)
            case Next => AtModifier(if read then rest[1..] else rest, flags, width, precision', env,
                                    now.(used := used'))
            case Fail => Outcome(now, true)
  {
    hide AtPrecision, AtModifier;
    precision', used', exit, read := precision, used, Next, false;
    if precision' == -1 {
      precision' := 0;
    }
    if IsDigit(ch) {
      PrecisionDigitStep(rest, flags, width, precision', env, now);
      var d := ch as int - '0' as int;
      if precision' > (INT_MAX - d) / 10 {
        exit := Fail;
      } else {
        precision', exit, read := 10 * precision' + d, Stay, true;
      }
    } else if ch == '*' {
      PrecisionDone(rest, flags, width, precision', env, now);
      precision', used', read := IntArg(env, used), used + 1, true;
      if precision' < 0 {
        precision' := -1;
      }
    } else {
      PrecisionDone(rest, flags, width, precision', env, now);
      assert now.(used := used) == now;
    }
  }

  /** The length modifier at the head of `s`, and what follows it. */
  ghost function ModifierAt(s: string): (Mod, string)
    requires s != ""
  {
    var after, doubled := s[1..], StartsWith(s[1..], s[0]);
    if s[0] == 'h' then (if doubled then (CharMod, after[1..]) else (ShortMod, after))
    else if s[0] == 'l' then (if doubled then (LLongMod, after[1..]) else (LongMod, after))
    else if s[0] == 'j' then (IntmaxMod, after)
    else if s[0] == 't' then (PtrdiffMod, after)
    else if s[0] == 'z' then (SizeMod, after)
    else (NoMod, s)
  }

  lemma ModifierStep(s: string, flags: Flags, width: int, precision: int, env: Env, now: Progress)
    requires s != ""
    ensures AtModifier(s, flags, width, precision, env, now)
         == AtConversion(ModifierAt(s).1, Params(flags, width, precision, ModifierAt(s).0), env, now)
  {
    hide AtConversion;
    var (m, after) := ReadMod(s);
    assert |m| >= 1 ==> m[0] == s[0];
    assert |m| == 2 ==> m[1] == s[1] && after == s[1..][1..];
    assert |m| == 1 ==> after == s[1..];
  }

  /** Case PRINT_S_MOD: reads no character, one, or two; never beyond the NUL. */
  method ModCase(fmt: CStr, next: nat, ghost flags: Flags, ghost width: int, ghost precision: int,
                 ghost env: Env, ghost now: Progress)
    returns (cflags: Mod, next': nat)
    requires 1 <= next <= FirstNul(fmt)
    ensures next <= next' <= FirstNul(fmt) + 1
    ensures AtModifier(RestAt(fmt, next), flags, width, precision, env, now)
         == AtConversion(RestAt(fmt, next'), Params(flags, width, precision, cflags), env, now)
  {
    hide AtConversion, AtModifier, RestAt, FirstNul;
    ReadOn(fmt, next);
    ReadOn(fmt, next + 1);
    ModifierStep(RestAt(fmt, next), flags, width, precision, env, now);
    cflags, next' := NoMod, next;
    match fmt[next - 1] {
      case 'h' =>
        next' := next + 1;
        if fmt[next' - 1] == 'h' {
          next', cflags := next' + 1, CharMod;
        } else {
          cflags := ShortMod;
        }
      case 'l' =>
        next' := next + 1;
        if fmt[next' - 1] == 'l' {
          next', cflags := next' + 1, LLongMod;
        } else {
          cflags := LongMod;
        }
      case 'j' =>
        next', cflags := next + 1, IntmaxMod;
      case 't' =>
        next', cflags := next + 1, PtrdiffMod;
      case 'z' =>
        next', cflags := next + 1, SizeMod;
      case _ =>
    }
  }

  /** Case PRINT_S_DOT. */
  lemma DotStep(rest: string, flags: Flags, width: int, env: Env, now: Progress)
    ensures StartsWith(rest, '.') ==>
              AtDot(rest, flags, width, env, now) == AtPrecision(rest[1..], flags, width, 0, env, now)
    ensures !StartsWith(rest, '.') ==>
              AtDot(rest, flags, width, env, now) == AtModifier(rest, flags, width, -1, env, now)
  {
  }

  /** Case PRINT_S_CONV. */
  lemma ConversionStep(rest: string, p: Params, env: Env, now: Progress)
    requires rest != ""
    ensures AtConversion(rest, p, env, now) == AtDefault(rest[1..], env, Perform(env, rest[0], p, now))
  {
  }

  /** The buffer after a call: what fits of the text, a NUL, and the cells after it as they were. */
  function Shown(before: seq<char>, size: nat, text: string): seq<char>
    requires size <= |before|
  {
    if size == 0 then before else
      var k := Kept(|text|, size);
      text[..k] + [NUL] + before[k + 1..]
  }

  /** What a call returns. */
  function Returned(o: Outcome): int {
    if o.overflow || |o.progress.text| >= INT_MAX then -1 else |o.progress.text|
  }

  method Vsnprintf(str: array?<char>, capacity: nat, format: Option<CStr>, env: Env)
    returns (r: int, used: nat, counts: seq<Count>)
    requires str != null ==> capacity <= str.Length
    modifies str
    ensures format == None ==> r == 0 && used == 0 && counts == []
    ensures format == None && str != null ==> str[..] == old(str[..])
    ensures format.Some? ==>
              var o := Meaning(Parse(Text(format.value)), env, START);
              && r == Returned(o) && used == o.progress.used && counts == o.progress.counts
              && (str != null ==> str[..] == Shown(old(str[..]), capacity, o.progress.text))
  {
    used, counts := 0, [];
    if format == None {
      return 0, used, counts;
    }
    var out := new OutBuffer(str, capacity);
    var overflow: bool;
    overflow, used, counts := Run(out, format.value, env);
    assert Outcome(Progress(out.text, used, counts), overflow) == Meaning(Parse(Text(format.value)), env, START);
    out.Terminate();
    r := if overflow || out.len >= INT_MAX then -1 else out.len;
  }

  /** The cases that read a directive and print nothing. */
  method DirectiveCase(fmt: CStr, next: nat, state: ReadState, p: Params, env: Env, used: nat, ghost now: Progress)
    returns (state': ReadState, p': Params, used': nat, overflow: bool, next': nat)
    requires 1 <= next <= FirstNul(fmt) && now.used == used
    requires state != DEFAULT && state != CONV && Sane(state, p)
    ensures next <= next' <= FirstNul(fmt) + 1
    ensures next < next' || overflow || Rank(state') < Rank(state)
    ensures FutureOf(state, RestAt(fmt, next), p, env, now)
         == if overflow then Outcome(now.(used := used'), true)
            else FutureOf(state', RestAt(fmt, next'), p', env, now.(used := used'))
    ensures !overflow ==> Sane(state', p')
  {
    hide FirstNul, RestAt, AtFlags, AtWidth, AtDot, AtPrecision, AtModifier, AtConversion;
    ReadOn(fmt, next);
    ghost var rest := RestAt(fmt, next);
    var ch := fmt[next - 1];
    assert now.(used := used) == now;
    var read, exit := false, Next;
    state', p', used', next' := state, p, used, next;
    match state {
      case FLAGS =>
        var flags;
        flags, read := FlagsCase(ch, p.flags, rest, env, now);
        p' := p.(flags := flags);
        state' := if read then FLAGS else WIDTH;
      case WIDTH =>
        var flags, width;
        flags, width, used', exit, read := WidthCase(ch, p.flags, p.width, env, used, rest, now);
        p' := p.(flags := flags, width := width);
        state' := if exit == Stay then WIDTH else DOT;
      case DOT =>
        DotStep(rest, p.flags, p.width, env, now);
        read := ch == '.';
        state' := if read then PRECISION else MOD;
      case PRECISION =>
        var precision;
        precision, used', exit, read := PrecisionCase(ch, p.precision, env, used, p.flags, p.width, rest, now);
        p' := p.(precision := precision);
        state' := if exit == Stay then PRECISION else MOD;
      case MOD =>
        var cflags;
        cflags, next' := ModCase(fmt, next, p.flags, p.width, p.precision, env, now);
        p' := p.(mod := cflags);
        state' := CONV;
    }
    overflow := exit == Fail;
    if read {
      next' := next + 1;
    }
  }

  lemma SaneSteps(p: Params)
    ensures Sane(DEFAULT, FRESH)
    ensures Sane(DEFAULT, p) ==> p == FRESH && Sane(FLAGS, p)
    ensures Sane(CONV, p) ==> p.precision >= -1
  {
  }

  /** The cases that print: a character of the format, or a conversion. Both read one character. */
  method PrintingCase(out: OutBuffer, fmt: CStr, next: nat, state: ReadState, p: Params, env: Env, used: nat,
                      counts: seq<Count>)
    returns (state': ReadState, p': Params, used': nat, counts': seq<Count>)
    requires out.Valid() && 1 <= next <= FirstNul(fmt) && Sane(state, p) && (state == DEFAULT || state == CONV)
    modifies out, out.str
    ensures out.Valid() && Sane(state', p')
    ensures FutureOf(state', RestAt(fmt, next + 1), p', env, Progress(out.text, used', counts'))
         == FutureOf(state, RestAt(fmt, next), p, env, Progress(old(out.text), used, counts))
  {
    hide OutBuffer.Valid, Perform, FirstNul, Text, RestAt;
    hide AtDefault, AtFlags, AtWidth, AtDot, AtPrecision, AtModifier, AtConversion;
    hide Sane, Rank;
    ReadOn(fmt, next);
    SaneSteps(p);
    ghost var rest, now := RestAt(fmt, next), Progress(out.text, used, counts);
    var ch := fmt[next - 1];
    state', p', used', counts' := state, p, used, counts;
    if state == CONV {
      ConversionStep(rest, p, env, now);
      used', counts' := DoConversion(out, env, ch, p, used, counts);
      state', p' := DEFAULT, FRESH;
    } else if ch == '%' {
      PercentStep(rest, env, now);
      state' := FLAGS;
    } else {
      LiteralStep(rest, env, now);
      out.OutChar(ch);
    }
  }

  lemma Begins(fmt: CStr, env: Env)
    ensures FutureOf(DEFAULT, RestAt(fmt, 1), FRESH, env, START) == AtDefault(Text(fmt), env, START)
    ensures Sane(DEFAULT, FRESH)
  {
    assert RestAt(fmt, 1) == Text(fmt);
    SaneSteps(FRESH);
  }

  /** The loop of `Vsnprintf`. */
  method Run(out: OutBuffer, fmt: CStr, env: Env) returns (overflow: bool, used: nat, counts: seq<Count>)
    requires out.Valid() && out.text == ""
    modifies out, out.str
    ensures out.Valid()
    ensures Outcome(Progress(out.text, used, counts), overflow) == AtDefault(Text(fmt), env, START)
  {
    hide OutBuffer.Valid, FirstNul, Text, RestAt, AtDefault, FutureOf, Sane, Rank, Meaning, Perform;
    Begins(fmt, env);
    used, counts, overflow := 0, [], false;
    ghost var goal := AtDefault(Text(fmt), env, START);
    var p, state, next := FRESH, DEFAULT, 1;
    var ch := fmt[0];
    while ch != NUL
      invariant 1 <= next <= FirstNul(fmt) + 1 && ch == fmt[next - 1]
      invariant out.Valid() && !overflow && Sane(state, p)
      invariant goal == FutureOf(state, RestAt(fmt, next), p, env, Progress(out.text, used, counts))
      decreases |fmt| - next, Rank(state)
    {
      ReadOn(fmt, next);
      if state == DEFAULT || state == CONV {
        state, p, used, counts := PrintingCase(out, fmt, next, state, p, env, used, counts);
        next := next + 1;
      } else {
        ghost var now := Progress(out.text, used, counts);
        state, p, used, overflow, next := DirectiveCase(fmt, next, state, p, env, used, now);
        if overflow {
          return;
        }
      }
      ch := fmt[next - 1];
    }
    ReadOn(fmt, next);
    NothingLeft(state, p, env, Progress(out.text, used, counts));
  }
}
