/** The user agent string the module builds and then patches into the game. */
module UserAgent {
  import opened CTypes
  import opened IntegerText
  import opened FormatGrammar
  import opened FormatMeaning
  import opened FormatLaws

  /** Literal text in front of a format. */
  function Lits(s: string, rest: Format): Format {
    if s == "" then rest else Lit(s[0], Lits(s[1..], rest))
  }

  lemma {:induction false} LitsPrint(s: string, rest: Format, env: Env, now: Progress)
    ensures Meaning(Lits(s, rest), env, now) == Meaning(rest, env, now.(text := now.text + s))
    decreases |s|
  {
    if s == "" {
      assert now.text + "" == now.text;
    } else {
      LitsPrint(s[1..], rest, env, now.(text := now.text + [s[0]]));
      assert now.text + s == now.text + [s[0]] + s[1..];
    }
  }

  lemma LitShows(c: char, rest: Format)
    requires c != '%' && WellFormed(rest)
    ensures Show(Lit(c, rest)) == [c] + Show(rest) && WellFormed(Lit(c, rest))
  {
    hide SpecBefore, ShowSpec;
  }

  lemma {:induction false} LitsShow(s: string, rest: Format)
    requires '%' !in s && WellFormed(rest)
    ensures Show(Lits(s, rest)) == s + Show(rest) && WellFormed(Lits(s, rest))
    decreases |s|
  {
    hide Show, WellFormed;
    if s == "" {
      assert "" + Show(rest) == Show(rest);
    } else {
      LitsShow(s[1..], rest);
      LitShows(s[0], Lits(s[1..], rest));
      assert s == [s[0]] + s[1..];
    }
  }

  /** The text of a bare `%c` or `%s`. */
  function PlainText(conv: char, env: Env, used: nat): string {
    var slot := env.args(used);
    if conv == 'c' then [AsUnsigned(slot.word, W8) as char] else Text(slot.text)
  }

  predicate Given(conv: char, env: Env, used: nat) {
    conv == 'c' || (conv == 's' && Address(env.abi, env.args(used)) != 0)
  }

  lemma PlainConversion(conv: char, env: Env, now: Progress)
    requires Given(conv, env, now.used)
    ensures EvalSpec(BARE, env, now.used) == Evaluated(Params(NO_FLAGS, 0, -1, NoMod), now.used)
    ensures Perform(env, conv, Params(NO_FLAGS, 0, -1, NoMod), now)
         == Progress(now.text + PlainText(conv, env, now.used), now.used + 1, now.counts)
  {
    var t := Text(env.args(now.used).text);
    assert RenderStr(t, 0, -1, NO_FLAGS) == t;
  }

  /** One bare directive and the literal text behind it. */
  function Step(conv: char, s: string, rest: Format): Format { Dir(BARE, conv, Lits(s, rest)) }

  lemma StepPrints(conv: char, s: string, rest: Format, env: Env, now: Progress)
    requires Given(conv, env, now.used)
    ensures Meaning(Step(conv, s, rest), env, now)
         == Meaning(rest, env, Progress(now.text + PlainText(conv, env, now.used) + s, now.used + 1, now.counts))
  {
    PlainConversion(conv, env, now);
    hide Perform, EvalSpec, PlainText, Lits;
    LitsPrint(s, rest, env, Progress(now.text + PlainText(conv, env, now.used), now.used + 1, now.counts));
    assert now.(used := now.used) == now;
  }

  lemma BareShows(conv: char)
    requires conv == 'c' || conv == 's'
    ensures ShowSpec(BARE) == "" && SpecBefore(BARE, [conv])
  {
  }

  lemma StepShows(conv: char, s: string, rest: Format)
    requires (conv == 'c' || conv == 's') && '%' !in s && WellFormed(rest)
    ensures Show(Step(conv, s, rest)) == "%" + [conv] + s + Show(rest) && WellFormed(Step(conv, s, rest))
  {
    hide Lits, Show, WellFormed, ShowSpec, SpecBefore, Parse;
    BareShows(conv);
    LitsShow(s, rest);
    assert "%" + "" + [conv] + (s + Show(rest)) == "%" + [conv] + s + Show(rest);
    DirectiveThen(BARE, conv, Lits(s, rest), "%" + [conv] + s + Show(rest));
  }

  const AGENT_FORMAT := "PatchworkLBP%c %s.%s %s"

  function AgentTail(): Format { Step('s', ".", Step('s', " ", Step('s', "", End))) }

  function AgentTree(): Format { Lits("PatchworkLBP", Step('c', " ", AgentTail())) }

  lemma AgentEndReading()
    ensures var f := Step('s', " ", Step('s', "", End)); Show(f) == "%s %s" && WellFormed(f)
  {
    assert Show(End) == "";
    TailEnds();
    hide Lits, Step, Show, WellFormed;
    StepShows('s', "", End);
    assert Show(Step('s', "", End)) == "%s";
    StepShows('s', " ", Step('s', "", End));
  }

  lemma AgentTailReading()
    ensures Show(AgentTail()) == "%s.%s %s" && WellFormed(AgentTail())
  {
    hide Lits, Step, Show, WellFormed;
    AgentEndReading();
    StepShows('s', ".", Step('s', " ", Step('s', "", End)));
  }

  lemma TailEnds()
    ensures WellFormed(End)
  {
  }

  lemma AgentReading()
    ensures Show(AgentTree()) == AGENT_FORMAT && WellFormed(AgentTree())
  {
    hide Lits, Step, Show, WellFormed, AgentTail;
    AgentTailReading();
    StepShows('c', " ", AgentTail());
    var f0 := Step('c', " ", AgentTail());
    assert Show(f0) == "%c " + "%s.%s %s";
    LitsShow("PatchworkLBP", f0);
  }

  function Agent(game: char, major: string, minor: string, key: string): string {
    "PatchworkLBP" + [game] + " " + major + "." + minor + " " + key
  }

  /** The string of LBP2 in version 1.0 without a key. */
  lemma AgentOfLBP2()
    ensures Agent('2', "1", "0", "NK") == "PatchworkLBP2 1.0 NK"
  {
  }

  lemma TailPrints(env: Env, t: string)
    requires Given('s', env, 1) && Given('s', env, 2) && Given('s', env, 3)
    ensures Meaning(AgentTail(), env, Progress(t, 1, []))
         == Outcome(Progress(t + PlainText('s', env, 1) + "." + PlainText('s', env, 2) + " " + PlainText('s', env, 3),
                             4, []), false)
  {
    var t2 := t + PlainText('s', env, 1) + ".";
    var t3 := t2 + PlainText('s', env, 2) + " ";
    var t4 := t3 + PlainText('s', env, 3) + "";
    assert Meaning(End, env, Progress(t4, 4, [])) == Outcome(Progress(t4, 4, []), false);
    hide Step, PlainText, Given, Meaning;
    var f3 := Step('s', "", End);
    var f2 := Step('s', " ", f3);
    StepPrints('s', ".", f2, env, Progress(t, 1, []));
    StepPrints('s', " ", f3, env, Progress(t2, 2, []));
    StepPrints('s', "", End, env, Progress(t3, 3, []));
  }

  lemma AgentPrints(env: Env)
    requires Given('s', env, 1) && Given('s', env, 2) && Given('s', env, 3)
    ensures Meaning(AgentTree(), env, START)
         == Outcome(Progress("PatchworkLBP" + PlainText('c', env, 0) + " " + PlainText('s', env, 1) + "."
                             + PlainText('s', env, 2) + " " + PlainText('s', env, 3), 4, []), false)
  {
    assert Given('c', env, 0);
    hide AgentTail, Step, PlainText, Given, Meaning, Lits;
    LitsPrint("PatchworkLBP", Step('c', " ", AgentTail()), env, START);
    var t: string := "PatchworkLBP";
    assert START.text + t == t;
    StepPrints('c', " ", AgentTail(), env, Progress(t, 0, []));
    TailPrints(env, t + PlainText('c', env, 0) + " ");
  }

  /** For every game, version and key suffix the text is the agent string, and all four arguments are used. */
  lemma UserAgentText(env: Env)
    requires Given('s', env, 1) && Given('s', env, 2) && Given('s', env, 3)
    ensures Meaning(Parse(AGENT_FORMAT), env, START)
         == Outcome(Progress(Agent(AsUnsigned(env.args(0).word, W8) as char, PlainText('s', env, 1),
                                   PlainText('s', env, 2), PlainText('s', env, 3)), 4, []), false)
  {
    AgentPrints(env);
    assert PlainText('c', env, 0) == [AsUnsigned(env.args(0).word, W8) as char];
    hide AgentTree, PlainText, Meaning, Parse, Show, WellFormed, AGENT_FORMAT;
    AgentReading();
    PrintsAsWritten(AgentTree(), env);
  }
}
