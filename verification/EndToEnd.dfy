/**
From the patch tables to the behaviour of the patched game: the bytes are written, the branch is fetched and decoded,
the hook or the join program runs, and the run leaves at the right address.
 */
module EndToEnd {
  import opened Memory
  import opened PowerPC
  import opened Machine
  import opened Hooks
  import opened ScriptBlock
  import opened ForceJoin
  import opened Patches
  import opened Tables
  import opened Wrappers

  predicate AllEncodable(program: seq<Instr>) { forall i :: 0 <= i < |program| ==> Encodable(program[i]) }

  /** The bytes of an assembled program. */
  function Assembled(program: seq<Instr>): (bs: seq<Byte>)
    requires AllEncodable(program)
    ensures |bs| == 4 * |program|
  {
    if program == [] then [] else WordBytes(Encode(program[0])) + Assembled(program[1..])
  }

  lemma {:induction false} AssembledWord(program: seq<Instr>, k: nat)
    requires AllEncodable(program) && k < |program|
    ensures Assembled(program)[4 * k..4 * k + 4] == WordBytes(Encode(program[k]))
  {
    hide Encode, Encodable;
    if k > 0 {
      AssembledWord(program[1..], k - 1);
      var first, rest := WordBytes(Encode(program[0])), Assembled(program[1..]);
      assert (first + rest)[4 * k..4 * k + 4] == rest[4 * (k - 1)..4 * (k - 1) + 4];
    }
  }

  lemma WordFromBytes(m: Mem, a: int, bs: seq<Byte>, i: nat, w: Word32)
    requires Bytes(m, a, |bs|) == bs && i + 4 <= |bs| && bs[i..i + 4] == WordBytes(w)
    ensures Word(m, a + i) == w
  {
    hide WordBytes, BytesWord;
    WordOfBytes(m, a, bs, i);
    WordRoundTrip(w);
    var four := bs[i..i + 4];
    assert four[0] == bs[i] && four[1] == bs[i + 1] && four[2] == bs[i + 2] && four[3] == bs[i + 3];
  }

  /** Memory that holds the assembled bytes holds the program. */
  lemma BytesInstall(m: Mem, at: int, program: seq<Instr>)
    requires AllEncodable(program) && Bytes(m, at, 4 * |program|) == Assembled(program)
    ensures Installed(m, at, program)
  {
    hide Assembled, Bytes, Encode, Encodable, Word;
    forall i | 0 <= i < |program|
      ensures Encodable(program[i]) && Word(m, at + 4 * i) == Encode(program[i])
    {
      AssembledWord(program, i);
      WordFromBytes(m, at, Assembled(program), 4 * i, Encode(program[i]));
    }
  }

  // ----- what has to hold before the table is applied -----

  /**
  The hook variable holds the branch word, the hook stands in memory where no entry writes, aligned and in
  branch range of the hooked instruction.
   */
  ghost predicate HookReady(m: Mem, ps: seq<GamePatch>, variable: Word32, origin: Word32, hook: Word32,
                            program: seq<Instr>)
  {
    && WellLaid(ps) && SourcesOutside(m, ps)
    && GamePatch(origin, variable, 4, DIRECT) in ps && variable != 0
    && Bytes(m, variable, 4) == WordBytes(RelativeBranch(hook, origin))
    && hook % 4 == 0 && origin % 4 == 0 && -0x200_0000 <= hook - origin < 0x200_0000
    && AllEncodable(program) && Bytes(m, hook, 4 * |program|) == Assembled(program)
    && Untouched(ps, hook, 4 * |program|)
  }

  ghost predicate JoinReady(m: Mem, ps: seq<GamePatch>, label_: Word32, base: Word32, program: seq<Instr>) {
    && WellLaid(ps) && SourcesOutside(m, ps)
    && GamePatch(base, label_, 4 * |program|, DIRECT) in ps && label_ != 0
    && AllEncodable(program) && Bytes(m, label_, 4 * |program|) == Assembled(program)
  }

  /** With the module above the game all that is left to ask is a hook and its branch word, within reach. */
  lemma AboveIsReady(m: Mem, ps: seq<GamePatch>, variable: Word32, origin: Word32, hook: Word32, program: seq<Instr>)
    requires WellLaid(ps) && TargetsBelow(ps) && SourcesAbove(m, ps) && GamePatch(origin, variable, 4, DIRECT) in ps
    requires Bytes(m, variable, 4) == WordBytes(RelativeBranch(hook, origin))
    requires AllEncodable(program) && Bytes(m, hook, 4 * |program|) == Assembled(program)
    requires hook % 4 == 0 && origin % 4 == 0 && GAME_END <= hook < origin + 0x200_0000
    ensures HookReady(m, ps, variable, origin, hook, program)
  {
    AboveIsOutside(m, ps);
    AllLive(ps);
    hide AllEncodable, Assembled, Bytes, RelativeBranch, SourceOf, Disjoint, WordBytes, SourcesOutside;
    OriginBelow(ps, GamePatch(origin, variable, 4, DIRECT));
  }

  lemma OriginBelow(ps: seq<GamePatch>, p: GamePatch)
    requires p in ps && TargetsBelow(ps) && p.size > 0
    ensures p.offset < GAME_END
  {
  }

  lemma SameBytes(m: Mem, n: Mem, a: int, k: nat)
    requires SameRange(m, n, a, k)
    ensures Bytes(m, a, k) == Bytes(n, a, k)
  {
  }

  /** After the table the origin holds the branch to the hook, and the hook is still there. */
  lemma HookInstalls(m: Mem, ps: seq<GamePatch>, variable: Word32, origin: Word32, hook: Word32, program: seq<Instr>)
    requires HookReady(m, ps, variable, origin, hook, program)
    ensures Fetch(ApplyAll(m, ps), origin) == Some(B(hook - origin, false, false))
    ensures Installed(ApplyAll(m, ps), hook, program)
  {
    hide ApplyAll, Bytes, Installed, Decode, RelativeBranch, WordBytes, Untouched, SourcesOutside, Word, Assembled;
    hide NoZero, Disjoint, AllEncodable;
    var n, p := ApplyAll(m, ps), GamePatch(origin, variable, 4, DIRECT);
    DisjointIsApart(m, ps);
    TargetFilled(m, ps, p);
    var bs := WordBytes(RelativeBranch(hook, origin));
    assert bs[0..4] == bs;
    WordFromBytes(n, origin, bs, 0, RelativeBranch(hook, origin));
    RelativeBranchReaches(hook, origin);
    UntouchedKept(m, ps, hook, 4 * |program|);
    SameBytes(m, n, hook, 4 * |program|);
    BytesInstall(n, hook, program);
  }

  /** After the table the join program stands at its base. */
  lemma JoinInstalls(m: Mem, ps: seq<GamePatch>, label_: Word32, base: Word32, program: seq<Instr>)
    requires JoinReady(m, ps, label_, base, program)
    ensures Installed(ApplyAll(m, ps), base, program)
  {
    hide ApplyAll, Bytes, Installed, Untouched, SourcesOutside, Assembled, NoZero, Disjoint, AllEncodable;
    DisjointIsApart(m, ps);
    TargetFilled(m, ps, GamePatch(base, label_, 4 * |program|, DIRECT));
    BytesInstall(ApplyAll(m, ps), base, program);
  }

  // ----- the parts of the join programs -----

  lemma LBP1JoinListing(code: Mem)
    requires Installed(code, LBP1_HEAD.base, LBP1_FORCE_JOIN)
    ensures LBP1JoinCode(code)
  {
    hide Installed;
    InstalledParts(code, LBP1_HEAD.base, HeadProgram(LBP1_HEAD), LBP1_ANSWER);
  }

  lemma LBP2JoinListing(code: Mem)
    requires Installed(code, LBP2_HEAD.base, LBP2_FORCE_JOIN)
    ensures LBP2JoinCode(code)
  {
    hide Installed;
    var at := LBP2_HEAD.base;
    InstalledParts(code, at, HeadProgram(LBP2_HEAD), LBP2_ANSWER + (LBP2_DEALING + LBP2_FORWARDING));
    InstalledParts(code, at + 40, LBP2_ANSWER, LBP2_DEALING + LBP2_FORWARDING);
    InstalledParts(code, at + 60, LBP2_DEALING, LBP2_FORWARDING);
  }

  lemma LBP3JoinListing(code: Mem, j: JoinSite)
    requires Installed(code, j.base, LBP3Join(j.high, j.low, j.find, j.deal))
    requires 0 <= j.base < 0x100_0000 && 0 < j.high < 0x8000 && 0 < j.low < 0x8000
    ensures JoinCode(code, j)
  {
    hide Installed;
    InstalledParts(code, j.base, LBP3Search(j.high, j.low, j.find), LBP3Deal(j.deal));
  }

  // ----- the patched game -----

  /**
  LBP1: after the table every run from the resource check leaves, at the bail address exactly for a script;
  otherwise AddToCSRQueue is called once, with the low word of r25.
   */
  lemma LBP1PatchedBlocksScripts(m: Mem, g: Globals, hook: Word32, s: State, routines: Routines)
    requires HookReady(m, LBP1Patches(g), g.scriptHook, LBP1_ORIGIN, hook, LBP1_SCRIPT_HOOK)
    requires !LBP1Region(hook).Has(LBP1_BAIL) && !LBP1Region(hook).Has(LBP1_CONTINUE) && s.pc == LBP1_ORIGIN
    ensures var code := ApplyAll(m, LBP1Patches(g));
            && (exists t :: Leaves(code, LBP1Region(hook), s, routines, t))
            && forall t :: Leaves(code, LBP1Region(hook), s, routines, t) ==>
                             if LBP1Type(s) == 0xB then t.pc == 0x81B40 && t.calls == s.calls
                             else t.pc == 0x81BCC && t.calls == s.calls + [QueueCall(s)]
  {
    hide ApplyAll, LBP1Patches, HookReady, Leaves, Fetch, Installed, LBP1Type, QueueCall, LBP1Exit;
    var code := ApplyAll(m, LBP1Patches(g));
    HookInstalls(m, LBP1Patches(g), g.scriptHook, LBP1_ORIGIN, hook, LBP1_SCRIPT_HOOK);
    LBP1Runs(code, hook, s, routines);
    forall t | Leaves(code, LBP1Region(hook), s, routines, t)
      ensures if LBP1Type(s) == 0xB then t.pc == 0x81B40 && t.calls == s.calls
              else t.pc == 0x81BCC && t.calls == s.calls + [QueueCall(s)]
    {
      LBP1BlocksScripts(code, hook, s, routines, t);
    }
  }

  /** LBP2: the run leaves at the bail address exactly when the game's own check or the script check says so. */
  lemma LBP2PatchedBlocksScripts(m: Mem, g: Globals, hook: Word32, s: State, routines: Routines)
    requires HookReady(m, LBP2Patches(g), g.scriptHook, LBP2_ORIGIN, hook, LBP2_SCRIPT_HOOK)
    requires !LBP2Region(hook).Has(LBP2_BAIL) && !LBP2Region(hook).Has(LBP2_CONTINUE) && s.pc == LBP2_ORIGIN
    ensures var code := ApplyAll(m, LBP2Patches(g));
            && (exists t :: Leaves(code, LBP2Region(hook), s, routines, t))
            && forall t :: Leaves(code, LBP2Region(hook), s, routines, t) ==>
                             t.calls == s.calls && t.pc == if LBP2Blocked(s) then 0x153D3C else 0x153D78
  {
    hide ApplyAll, LBP2Patches, HookReady, Leaves, Fetch, Installed, LBP2Blocked, LBP2Exit;
    var code := ApplyAll(m, LBP2Patches(g));
    HookInstalls(m, LBP2Patches(g), g.scriptHook, LBP2_ORIGIN, hook, LBP2_SCRIPT_HOOK);
    LBP2Runs(code, hook, s, routines);
    forall t | Leaves(code, LBP2Region(hook), s, routines, t)
      ensures t.calls == s.calls && t.pc == if LBP2Blocked(s) then 0x153D3C else 0x153D78
    {
      LBP2BlocksScripts(code, hook, s, routines, t);
    }
  }

  /** The two versions of LBP3: their tables, hook sites and join programs. */
  datatype Version = Version(offsets: LBP3Offsets, site: Site, join: JoinSite)

  const LBP3_VERSION := Version(LBP3_TARGETS, LBP3_SITE, LBP3_JOIN)

  const LBP3_JP_VERSION := Version(LBP3_JP_TARGETS, LBP3_JP_SITE, LBP3_JP_JOIN)

  /** LBP3, both versions: as for LBP2, with the bail address of the version. */
  lemma LBP3PatchedBlocksScripts(m: Mem, v: Version, g: Globals, hook: Word32, s: State, routines: Routines)
    requires v == LBP3_VERSION || v == LBP3_JP_VERSION
    requires HookReady(m, LBP3Table(v.offsets, g), g.scriptHook, v.site.origin, hook,
                       if v == LBP3_VERSION then LBP3_SCRIPT_HOOK else LBP3_JP_SCRIPT_HOOK)
    requires !LBP3Region(v.site, hook).Has(v.site.bail) && !LBP3Region(v.site, hook).Has(v.site.continue_)
    requires s.pc == v.site.origin
    ensures var code := ApplyAll(m, LBP3Table(v.offsets, g));
            && (exists t :: Leaves(code, LBP3Region(v.site, hook), s, routines, t))
            && forall t :: Leaves(code, LBP3Region(v.site, hook), s, routines, t) ==>
                             && t.calls == s.calls
                             && t.pc == (if LBP3Blocked(s) then (if v == LBP3_VERSION then 0x1CFD10 else 0x1CFBAC)
                                         else if v == LBP3_VERSION then 0x1CFC78 else 0x1CFB14)
  {
    assert v == LBP3_VERSION ==> v.site == Site(0x1CFC6C, 0x1CFD10, 0x1CFC78);
    assert v == LBP3_JP_VERSION ==> v != LBP3_VERSION && v.site == Site(0x1CFB08, 0x1CFBAC, 0x1CFB14);
    hide ApplyAll, LBP3Table, HookReady, Leaves, Fetch, Installed, LBP3Blocked, LBP3Exit, LBP3Hook;
    var code, program := ApplyAll(m, LBP3Table(v.offsets, g)), LBP3Hook(v.site.continue_, v.site.bail);
    HookInstalls(m, LBP3Table(v.offsets, g), g.scriptHook, v.site.origin, hook, program);
    LBP3Runs(code, v.site, hook, s, routines);
    forall t | Leaves(code, LBP3Region(v.site, hook), s, routines, t)
      ensures t.calls == s.calls && t.pc == if LBP3Blocked(s) then v.site.bail else v.site.continue_
    {
      LBP3BlocksScripts(code, v.site, hook, s, routines, t);
    }
  }

  /**
  LBP1: after the table a join request is accepted at once exactly for a local or invited joiner; a joiner who is
  not local is looked up once.
   */
  lemma LBP1PatchedJoins(m: Mem, g: Globals, s: State, routines: Routines)
    requires JoinReady(m, LBP1Patches(g), g.forceJoin, LBP1_HEAD.base, LBP1_FORCE_JOIN) && s.pc == LBP1_HEAD.base
    ensures var code := ApplyAll(m, LBP1Patches(g));
            && (exists t :: Leaves(code, LBP1_JOIN_REGION, s, routines, t))
            && forall t :: Leaves(code, LBP1_JOIN_REGION, s, routines, t) ==>
                             && t.pc == (if LBP1Accepts(s, routines) then LBP1_ACCEPT else LBP1_REJECT)
                             && t.calls == s.calls + SearchCalls(LBP1_HEAD, s)
  {
    hide ApplyAll, LBP1Patches, JoinReady, LBP1JoinCode, Leaves, Installed, LBP1Accepts, Local, Found, FindCall;
    JoinInstalls(m, LBP1Patches(g), g.forceJoin, LBP1_HEAD.base, LBP1_FORCE_JOIN);
    LBP1JoinListing(ApplyAll(m, LBP1Patches(g)));
    LBP1JoinIsSafe(ApplyAll(m, LBP1Patches(g)), s, routines);
    assert s.calls + [] == s.calls;
  }

  /**
  LBP2: the same, for a positive invitation word; any other request goes to the game's own handling, which makes
  the calls that the program's own theorem states.
   */
  lemma LBP2PatchedJoins(m: Mem, g: Globals, s: State, routines: Routines)
    requires JoinReady(m, LBP2Patches(g), g.forceJoin, LBP2_HEAD.base, LBP2_FORCE_JOIN) && s.pc == LBP2_HEAD.base
    ensures var code := ApplyAll(m, LBP2Patches(g));
            && (exists t :: Leaves(code, LBP2_JOIN_REGION, s, routines, t))
            && forall t :: Leaves(code, LBP2_JOIN_REGION, s, routines, t) ==>
                             && t.pc == (if LBP2Accepts(s, routines) then LBP2_ACCEPT else LBP2_DONE)
                             && t.calls == s.calls + SearchCalls(LBP2_HEAD, s) + LBP2Handled(s, routines)
    ensures !LBP2Accepts(s, routines) ==> DenialShape(LBP2Handled(s, routines), s)
  {
    hide ApplyAll, LBP2Patches, JoinReady, LBP2JoinCode, Leaves, Installed, LBP2Accepts;
    hide SearchCalls, DenialShape, LBP2Handled;
    JoinInstalls(m, LBP2Patches(g), g.forceJoin, LBP2_HEAD.base, LBP2_FORCE_JOIN);
    LBP2JoinListing(ApplyAll(m, LBP2Patches(g)));
    LBP2JoinIsSafe(ApplyAll(m, LBP2Patches(g)), s, routines);
  }

  /**
  LBP3, both versions: the request is dealt with once, with skip_checks = 1 exactly for a local or invited
  joiner.
   */
  lemma LBP3PatchedJoins(m: Mem, v: Version, g: Globals, s: State, routines: Routines)
    requires v == LBP3_VERSION || v == LBP3_JP_VERSION
    requires JoinReady(m, LBP3Table(v.offsets, g), g.forceJoin, v.join.base,
                       if v == LBP3_VERSION then LBP3_FORCE_JOIN else LBP3_JP_FORCE_JOIN)
    requires s.pc == v.join.base
    ensures var code := ApplyAll(m, LBP3Table(v.offsets, g));
            && (exists t :: Leaves(code, JoinRegion(v.join), s, routines, t))
            && forall t :: Leaves(code, JoinRegion(v.join), s, routines, t) ==> Join3Done(v.join, s, routines, t)
  {
    hide ApplyAll, LBP3Table, JoinReady, JoinCode, Leaves, Installed, Join3Done, LBP3Join;
    var code, j := ApplyAll(m, LBP3Table(v.offsets, g)), v.join;
    JoinInstalls(m, LBP3Table(v.offsets, g), g.forceJoin, j.base, LBP3Join(j.high, j.low, j.find, j.deal));
    LBP3JoinListing(code, j);
    LBP3JoinIsSafe(code, j, s, routines);
  }
}
