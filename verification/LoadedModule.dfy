/** A module in memory above the game meets what the end-to-end theorems ask, for every game. */
module LoadedModule {
  import opened Memory
  import opened PowerPC
  import opened Hooks
  import opened ScriptBlock
  import opened ForceJoin
  import opened Patches
  import opened Tables
  import opened EndToEnd

  const VARIABLE: Word32 := 0x0110_0000  // the branch word
  const HOOK: Word32 := 0x0120_0000
  const JOIN: Word32 := 0x0130_0000

  /** Null pointers, and the hook, its branch word and the join program at their places. */
  const PLACED :=
    Globals(0x0100_0000, 0x0100_0004, 0x0100_0008, 0x0100_000C, 0x0100_0010, 0x0100_0014, VARIABLE, JOIN)

  function Image(origin: Word32, hook: seq<Instr>, join: seq<Instr>): Mem
    requires AllEncodable(hook) && AllEncodable(join)
  {
    Write(Write(Write(_ => 0, VARIABLE, WordBytes(RelativeBranch(HOOK, origin))), HOOK, Assembled(hook)),
          JOIN, Assembled(join))
  }

  lemma ImageHolds(origin: Word32, hook: seq<Instr>, join: seq<Instr>)
    requires AllEncodable(hook) && AllEncodable(join) && |hook| < 0x1_0000
    ensures var m := Image(origin, hook, join);
            && Bytes(m, VARIABLE, 4) == WordBytes(RelativeBranch(HOOK, origin))
            && Bytes(m, HOOK, 4 * |hook|) == Assembled(hook) && Bytes(m, JOIN, 4 * |join|) == Assembled(join)
            && forall a :: a + 4 <= VARIABLE ==> Word(m, a) == 0
  {
    hide RelativeBranch, WordBytes, Assembled, AllEncodable;
  }

  lemma PointersAreNull(n: nat, m: Mem)
    requires forall a :: a + 4 <= VARIABLE ==> Word(m, a) == 0
    ensures SourcesAbove(m, TableOf(n, PLACED))
  {
    hide Word;
    forall p | p in TableOf(n, PLACED)
      ensures p.source >= GAME_END && (p.kind == INDIRECT ==> p.source + 4 <= VARIABLE)
    {
      SourcesPlaced(n, p);
    }
    hide TableOf;
  }

  lemma SourcesPlaced(n: nat, p: GamePatch)
    requires p in TableOf(n, PLACED)
    ensures p.source >= GAME_END && (p.kind == INDIRECT ==> p.source + 4 <= VARIABLE)
  {
    if n == 0 {
      LBP1SourcesPlaced(p);
    } else if n == 1 {
      LBP2SourcesPlaced(p);
    } else {
      hide LBP1Patches, LBP2Patches;
    }
  }

  lemma LBP1SourcesPlaced(p: GamePatch)
    requires p in LBP1Patches(PLACED)
    ensures p.source >= GAME_END && (p.kind == INDIRECT ==> p.source + 4 <= VARIABLE)
  {
  }

  lemma LBP2SourcesPlaced(p: GamePatch)
    requires p in LBP2Patches(PLACED)
    ensures p.source >= GAME_END && (p.kind == INDIRECT ==> p.source + 4 <= VARIABLE)
  {
  }

  lemma ImageIsReady(n: nat, origin: Word32, base: Word32, hook: seq<Instr>, join: seq<Instr>)
    requires AllEncodable(hook) && AllEncodable(join) && |hook| < 0x1_0000 && origin % 4 == 0
    requires GamePatch(origin, VARIABLE, 4, DIRECT) in TableOf(n, PLACED)
    requires GamePatch(base, JOIN, 4 * |join|, DIRECT) in TableOf(n, PLACED)
    ensures HookReady(Image(origin, hook, join), TableOf(n, PLACED), VARIABLE, origin, HOOK, hook)
    ensures JoinReady(Image(origin, hook, join), TableOf(n, PLACED), JOIN, base, join)
  {
    hide TableOf, SourcesAbove, Image, WellLaid, TargetsBelow, Bytes, Word, RelativeBranch, Assembled, AllEncodable;
    var m, ps := Image(origin, hook, join), TableOf(n, PLACED);
    ImageHolds(origin, hook, join);
    PointersAreNull(n, m);
    ShippedLayout(n, PLACED);
    AboveIsReady(m, ps, VARIABLE, origin, HOOK, hook);
  }

  lemma ShippedHooksEncodable()
    ensures AllEncodable(LBP1_SCRIPT_HOOK) && AllEncodable(LBP2_SCRIPT_HOOK)
    ensures AllEncodable(LBP3_SCRIPT_HOOK) && AllEncodable(LBP3_JP_SCRIPT_HOOK)
  {
  }

  lemma LBP1JoinEncodable()
    ensures AllEncodable(LBP1_FORCE_JOIN)
  {
  }

  lemma LBP2JoinEncodable()
    ensures AllEncodable(LBP2_FORCE_JOIN)
  {
    hide Encodable;
    LBP2HeadEncodable();
    LBP2RestEncodable();
  }

  lemma LBP2HeadEncodable()
    ensures AllEncodable(JoinHead(23, 0x73, 0xd9, 0xb35c, 0x1c, 0x264148)) && AllEncodable(LBP2_ANSWER)
  {
  }

  lemma LBP2RestEncodable()
    ensures AllEncodable(LBP2_DEALING) && AllEncodable(LBP2_FORWARDING)
  {
  }

  lemma LBP3JoinEncodable(high: Half, low: Half, find: Word32, deal: Word32)
    requires 0 < high < 0x8000 && 0 < low < 0x8000
    requires find < 0x200_0000 && find % 4 == 0 && deal < 0x200_0000 && deal % 4 == 0
    ensures AllEncodable(LBP3Join(high, low, find, deal))
  {
  }

  /** The hypotheses of the end-to-end theorems are met together, in each of the four games. */
  lemma ShippedGamesCanBeReady()
    ensures !LBP1Region(HOOK).Has(LBP1_BAIL) && !LBP1Region(HOOK).Has(LBP1_CONTINUE)
    ensures !LBP2Region(HOOK).Has(LBP2_BAIL) && !LBP2Region(HOOK).Has(LBP2_CONTINUE)
    ensures !LBP3Region(LBP3_SITE, HOOK).Has(LBP3_SITE.bail) && !LBP3Region(LBP3_SITE, HOOK).Has(LBP3_SITE.continue_)
    ensures !LBP3Region(LBP3_JP_SITE, HOOK).Has(LBP3_JP_SITE.bail)
    ensures !LBP3Region(LBP3_JP_SITE, HOOK).Has(LBP3_JP_SITE.continue_)
    ensures exists m ::
              HookReady(m, LBP1Patches(PLACED), VARIABLE, LBP1_ORIGIN, HOOK, LBP1_SCRIPT_HOOK) &&
              JoinReady(m, LBP1Patches(PLACED), JOIN, LBP1_HEAD.base, LBP1_FORCE_JOIN)
    ensures exists m ::
              HookReady(m, LBP2Patches(PLACED), VARIABLE, LBP2_ORIGIN, HOOK, LBP2_SCRIPT_HOOK) &&
              JoinReady(m, LBP2Patches(PLACED), JOIN, LBP2_HEAD.base, LBP2_FORCE_JOIN)
    ensures exists m ::
              HookReady(m, LBP3Patches(PLACED), VARIABLE, LBP3_SITE.origin, HOOK, LBP3_SCRIPT_HOOK) &&
              JoinReady(m, LBP3Patches(PLACED), JOIN, LBP3_JOIN.base, LBP3_FORCE_JOIN)
    ensures exists m ::
              HookReady(m, LBP3JPPatches(PLACED), VARIABLE, LBP3_JP_SITE.origin, HOOK, LBP3_JP_SCRIPT_HOOK) &&
              JoinReady(m, LBP3JPPatches(PLACED), JOIN, LBP3_JP_JOIN.base, LBP3_JP_FORCE_JOIN)
  {
    hide HookReady, JoinReady, Image, AllEncodable;
    ShippedHooksEncodable();
    LBP1JoinEncodable();
    LBP2JoinEncodable();
    LBP3JoinEncodable(0xf8, 0x5a80, 0x2eb594, 0x305090);
    LBP3JoinEncodable(0xf6, 0x6000, 0x2e821c, 0x3018a8);
    ImageIsReady(0, LBP1_ORIGIN, LBP1_HEAD.base, LBP1_SCRIPT_HOOK, LBP1_FORCE_JOIN);
    ImageIsReady(1, LBP2_ORIGIN, LBP2_HEAD.base, LBP2_SCRIPT_HOOK, LBP2_FORCE_JOIN);
    ImageIsReady(2, LBP3_SITE.origin, LBP3_JOIN.base, LBP3_SCRIPT_HOOK, LBP3_FORCE_JOIN);
    ImageIsReady(3, LBP3_JP_SITE.origin, LBP3_JP_JOIN.base, LBP3_JP_SCRIPT_HOOK, LBP3_JP_FORCE_JOIN);
  }
}
