/** The script-resource hooks: from the hooked instruction to the exit, for every machine state. */
module ScriptBlock {
  import opened Memory
  import opened PowerPC
  import opened Machine
  import opened Hooks
  import opened Wrappers

  lemma CallReturns(routines: Routines, target: int, s: State)
    ensures CallOut(routines, target, s).pc == s.pc + 4
    ensures CallOut(routines, target, s).calls == s.calls + [Call(target, s.gpr[3..11])]
  {
  }

  /** The condition registers after the type is compared in field 7. */
  function TypeCompared(s: State, kind: Byte): Conds { s.cr[7 := Compare(kind, RESOURCE_TYPE_SCRIPT, s.so)] }

  // ----- LBP1 -----

  const LBP1_ORIGIN: int := 0x81BC8
  const LBP1_BAIL: int := 0x81B40
  const LBP1_CONTINUE: int := 0x81BCC

  /** The resource type: byte 39 of the structure r3 points at. */
  function LBP1Type(s: State): Byte { s.mem(Low64(Word(s.mem, s.gpr[3]) + 39)) }

  /** The state in which the hook calls the retained routine. */
  function LBP1AtCall(s: State, at: int): State {
    s.(pc := at + 20, gpr := s.gpr[3 := Low32(s.gpr[25])], cr := TypeCompared(s, LBP1Type(s)))
  }

  /** The state in which the run leaves. */
  function LBP1Exit(s: State, at: int, routines: Routines): State {
    if LBP1Type(s) == RESOURCE_TYPE_SCRIPT then
      s.(pc := LBP1_BAIL, gpr := s.gpr[3 := LBP1Type(s)], cr := TypeCompared(s, LBP1Type(s)))
    else CallOut(routines, 0x7D1EC, LBP1AtCall(s, at)).(pc := LBP1_CONTINUE)
  }

  function LBP1Region(at: int): Region { Region(LBP1_ORIGIN, at, at + 32) }

  /** The branch at the origin and the hook it leads to, which lies apart from its exits. */
  ghost predicate LBP1Code(code: Mem, at: int) {
    && Fetch(code, LBP1_ORIGIN) == Some(B(at - LBP1_ORIGIN, false, false)) && 0 <= at < TWO_64
    && Installed(code, at, LBP1_SCRIPT_HOOK)
    && !LBP1Region(at).Has(LBP1_BAIL) && !LBP1Region(at).Has(LBP1_CONTINUE)
  }

  /** The state at the branch that decides. */
  function LBP1AtBranch(s: State, at: int): State {
    s.(pc := at + 12, gpr := s.gpr[3 := LBP1Type(s)], cr := TypeCompared(s, LBP1Type(s)))
  }

  lemma LBP1Reads(code: Mem, at: int, s: State, routines: Routines, t: State)
    requires LBP1Code(code, at) && s.pc == LBP1_ORIGIN
    requires Leaves(code, LBP1Region(at), LBP1AtBranch(s, at), routines, t)
    ensures Leaves(code, LBP1Region(at), s, routines, t)
  {
    hide Leaves, Installed, Fetch, Word, Low64, Low32, Signed32, Compare;
    Fetches4(code, at, LBP1_SCRIPT_HOOK, 0);
    SmallIs(LBP1Type(s));
    SmallIs(s.gpr[3]);
    var s0 := s.(pc := at);
    var s1 := Set(s0, 3, Word(s.mem, s.gpr[3]));
    var s2 := Set(s1, 3, LBP1Type(s));
    assert s2.gpr == s.gpr[3 := LBP1Type(s)];
    GoCmpwi(code, LBP1Region(at), s2, 7, 3, RESOURCE_TYPE_SCRIPT, routines, t);
    GoLbz(code, LBP1Region(at), s1, 3, 39, 3, routines, t);
    GoLwz(code, LBP1Region(at), s0, 3, 0, 3, routines, t);
    GoRelative(code, LBP1Region(at), s, at - LBP1_ORIGIN, routines, t);
  }

  lemma LBP1Decides(code: Mem, at: int, s: State, routines: Routines)
    requires LBP1Code(code, at)
    ensures Leaves(code, LBP1Region(at), LBP1AtBranch(s, at), routines, LBP1Exit(s, at, routines))
  {
    hide Leaves, Installed, Fetch, Low32, CallOut, LBP1Type;
    Fetches4(code, at, LBP1_SCRIPT_HOOK, 0);
    Fetches4(code, at, LBP1_SCRIPT_HOOK, 4);
    var region, t, s3 := LBP1Region(at), LBP1Exit(s, at, routines), LBP1AtBranch(s, at);
    Ends(code, region, t, routines);
    if LBP1Type(s) == RESOURCE_TYPE_SCRIPT {
      GoAbsolute(code, region, s3.(pc := at + 28), LBP1_BAIL, routines, t);
    } else {
      var s5 := LBP1AtCall(s, at);
      CallReturns(routines, 0x7D1EC, s5);
      GoAbsolute(code, region, CallOut(routines, 0x7D1EC, s5), LBP1_CONTINUE, routines, t);
      GoCall(code, region, s5, 0x7D1EC, routines, t);
      assert s5.gpr == s3.gpr[3 := Low32(s.gpr[25])];
      GoClearWord(code, region, s3.(pc := at + 16), 3, 25, routines, t);
    }
    GoBranchEq(code, region, s3, true, 7, 16, routines, t);
  }

  /** From the resource check every run leaves, and leaves in the state above. */
  lemma LBP1Runs(code: Mem, at: int, s: State, routines: Routines)
    requires LBP1Code(code, at) && s.pc == LBP1_ORIGIN
    ensures Leaves(code, LBP1Region(at), s, routines, LBP1Exit(s, at, routines))
  {
    hide *;
    LBP1Decides(code, at, s, routines);
    LBP1Reads(code, at, s, routines, LBP1Exit(s, at, routines));
  }

  /** The call of AddToCSRQueue: r3 is the low word of r25, the other argument registers are as they were. */
  function QueueCall(s: State): Call { Call(0x7D1EC, [Low32(s.gpr[25])] + s.gpr[4..11]) }

  /**
  Every run from the LBP1 resource check leaves at the bail address exactly for a script; for
  anything else it calls AddToCSRQueue once, with the low word of r25, and goes on.
   */
  lemma LBP1BlocksScripts(code: Mem, at: int, s: State, routines: Routines, t: State)
    requires LBP1Code(code, at) && s.pc == LBP1_ORIGIN && Leaves(code, LBP1Region(at), s, routines, t)
    ensures LBP1Type(s) == 0xB ==> t.pc == 0x81B40 && t.calls == s.calls && t.mem == s.mem
    ensures LBP1Type(s) != 0xB ==> t.pc == 0x81BCC && t.calls == s.calls + [QueueCall(s)]
  {
    hide Leaves, LBP1Type, Low32, Fetch, LBP1Code, CallOut;
    assert LBP1AtCall(s, at).gpr[3..11] == QueueCall(s).args;
    LBP1Runs(code, at, s, routines);
    LeavesOnce(code, LBP1Region(at), s, routines, t, LBP1Exit(s, at, routines));
    CallReturns(routines, 0x7D1EC, LBP1AtCall(s, at));
  }

  // ----- LBP2 -----

  const LBP2_ORIGIN: int := 0x153D74
  const LBP2_BAIL: int := 0x153D3C
  const LBP2_CONTINUE: int := 0x153D78

  /** The resource type: byte 35 of the structure r29 points at. */
  function TypeAtR29(s: State): Byte {
    var base: int := s.gpr[29];
    s.mem(Low64(base + 35))
  }

  /** The check retained from the game, or the script check, fails. */
  predicate LBP2Blocked(s: State) { s.cr[7].eq || TypeAtR29(s) == 0xB }

  function LBP2Exit(s: State): State {
    var kind := TypeAtR29(s);
    if s.cr[7].eq then s.(pc := LBP2_BAIL)
    else s.(pc := if kind == RESOURCE_TYPE_SCRIPT then LBP2_BAIL else LBP2_CONTINUE,
            gpr := s.gpr[0 := kind], cr := TypeCompared(s, kind))
  }

  function LBP2Region(at: int): Region { Region(LBP2_ORIGIN, at, at + 24) }

  ghost predicate LBP2Code(code: Mem, at: int) {
    && Fetch(code, LBP2_ORIGIN) == Some(B(at - LBP2_ORIGIN, false, false)) && 0 <= at < TWO_64
    && Installed(code, at, LBP2_SCRIPT_HOOK)
    && !LBP2Region(at).Has(LBP2_BAIL) && !LBP2Region(at).Has(LBP2_CONTINUE)
  }

  lemma LBP2Runs(code: Mem, at: int, s: State, routines: Routines)
    requires LBP2Code(code, at) && s.pc == LBP2_ORIGIN
    ensures Leaves(code, LBP2Region(at), s, routines, LBP2Exit(s))
  {
    hide Leaves, Installed, Fetch, Low64, Low32, Signed32;
    Fetches4(code, at, LBP2_SCRIPT_HOOK, 0);
    Fetches4(code, at, LBP2_SCRIPT_HOOK, 2);
    var region, t, kind := LBP2Region(at), LBP2Exit(s), TypeAtR29(s);
    SmallIs(kind);
    var s0 := s.(pc := at);
    var s3 := SetCond(Set(s0.(pc := at + 4), 0, kind), 7, kind, RESOURCE_TYPE_SCRIPT);
    Ends(code, region, t, routines);
    if s.cr[7].eq {
      GoAbsolute(code, region, s0.(pc := at + 20), LBP2_BAIL, routines, t);
    } else {
      if kind == RESOURCE_TYPE_SCRIPT {
        GoAbsolute(code, region, s3.(pc := at + 20), LBP2_BAIL, routines, t);
      } else {
        GoAbsolute(code, region, s3.(pc := at + 16), LBP2_CONTINUE, routines, t);
      }
      GoBranchEq(code, region, s3, true, 7, 8, routines, t);
      GoCmpwi(code, region, Set(s0.(pc := at + 4), 0, kind), 7, 0, RESOURCE_TYPE_SCRIPT, routines, t);
      GoLbz(code, region, s0.(pc := at + 4), 0, 35, 29, routines, t);
    }
    GoBranchEq(code, region, s0, true, 7, 20, routines, t);
    GoRelative(code, region, s, at - LBP2_ORIGIN, routines, t);
  }

  /**
  Every run from the LBP2 resource check leaves at the bail address exactly when the game's own check or
  the script check says so; it calls nothing and touches no register but r0 and condition field 7.
   */
  lemma LBP2BlocksScripts(code: Mem, at: int, s: State, routines: Routines, t: State)
    requires LBP2Code(code, at) && s.pc == LBP2_ORIGIN && Leaves(code, LBP2Region(at), s, routines, t)
    ensures t.pc == if LBP2Blocked(s) then 0x153D3C else 0x153D78
    ensures t.gpr[1..] == s.gpr[1..] && t.cr[..7] == s.cr[..7] && t.calls == s.calls && t.mem == s.mem
  {
    hide Leaves, TypeAtR29, Fetch;
    LBP2Runs(code, at, s, routines);
    LeavesOnce(code, LBP2Region(at), s, routines, t, LBP2Exit(s));
  }

  // ----- LBP3, two versions of the game -----

  /** Where a version of LBP3 is hooked, fails, and goes on. */
  datatype Site = Site(origin: int, bail: Word32, continue_: Word32)

  const LBP3_SITE := Site(0x1CFC6C, 0x1CFD10, 0x1CFC78)

  const LBP3_JP_SITE := Site(0x1CFB08, 0x1CFBAC, 0x1CFB14)

  /** The result of the game's own check is not zero, or the resource is a script. */
  predicate LBP3Blocked(s: State) { s.gpr[3] % 0x1_0000_0000 != 0 || TypeAtR29(s) == 0xB }

  /** The condition registers after r3 is compared with zero in field 0. */
  function CheckCompared(s: State): Conds { s.cr[0 := Compare(Signed32(Low32(s.gpr[3])), 0, s.so)] }

  function LBP3Exit(site: Site, s: State): State {
    var kind, checked := TypeAtR29(s), s.(cr := CheckCompared(s));
    if Low32(s.gpr[3]) != 0 then checked.(pc := site.bail)
    else checked.(pc := if kind == RESOURCE_TYPE_SCRIPT then site.bail else site.continue_,
                  gpr := s.gpr[3 := kind], cr := TypeCompared(checked, kind))
  }

  function LBP3Region(site: Site, at: int): Region { Region(site.origin, at, at + 28) }

  ghost predicate LBP3Code(code: Mem, site: Site, at: int) {
    && Fetch(code, site.origin) == Some(B(at - site.origin, false, false)) && 0 <= at < TWO_64
    && Installed(code, at, LBP3Hook(site.continue_, site.bail))
    && !LBP3Region(site, at).Has(site.bail) && !LBP3Region(site, at).Has(site.continue_)
  }

  lemma SignedZero(x: Word32)
    ensures Signed32(x) == 0 <==> x == 0
  {
  }

  lemma LBP3Runs(code: Mem, site: Site, at: int, s: State, routines: Routines)
    requires LBP3Code(code, site, at) && s.pc == site.origin
    ensures Leaves(code, LBP3Region(site, at), s, routines, LBP3Exit(site, s))
  {
    hide Leaves, Installed, Fetch, Low64, Low32, Signed32, TypeAtR29;
    Fetches4(code, at, LBP3Hook(site.continue_, site.bail), 0);
    Fetches4(code, at, LBP3Hook(site.continue_, site.bail), 3);
    var region, t, kind := LBP3Region(site, at), LBP3Exit(site, s), TypeAtR29(s);
    SmallIs(kind);
    SignedZero(Low32(s.gpr[3]));
    var s1 := s.(pc := at + 4, cr := CheckCompared(s));
    Ends(code, region, t, routines);
    if Low32(s.gpr[3]) != 0 {
      GoAbsolute(code, region, s1.(pc := at + 24), site.bail, routines, t);
    } else {
      LBP3Decides(code, site, at, s, s1.(pc := at + 8), routines);
    }
    GoBranchEq(code, region, s1, false, 0, 20, routines, t);
    GoCmpwi(code, region, s.(pc := at), 0, 3, 0, routines, t);
    GoRelative(code, region, s, at - site.origin, routines, t);
  }

  lemma LBP3Decides(code: Mem, site: Site, at: int, s: State, s2: State, routines: Routines)
    requires LBP3Code(code, site, at) && Low32(s.gpr[3]) == 0
    requires s2 == s.(pc := at + 8, cr := CheckCompared(s))
    ensures Leaves(code, LBP3Region(site, at), s2, routines, LBP3Exit(site, s))
  {
    hide Leaves, Installed, Fetch, Low64, Low32, Signed32, CheckCompared;
    Fetches4(code, at, LBP3Hook(site.continue_, site.bail), 0);
    Fetches4(code, at, LBP3Hook(site.continue_, site.bail), 3);
    var region, t, kind := LBP3Region(site, at), LBP3Exit(site, s), TypeAtR29(s);
    SmallIs(kind);
    var s3 := Set(s2, 3, kind);
    var s4 := SetCond(s3, 7, kind, RESOURCE_TYPE_SCRIPT);
    Ends(code, region, t, routines);
    if kind == RESOURCE_TYPE_SCRIPT {
      GoAbsolute(code, region, s4.(pc := at + 24), site.bail, routines, t);
    } else {
      GoAbsolute(code, region, s4.(pc := at + 20), site.continue_, routines, t);
    }
    GoBranchEq(code, region, s4, true, 7, 8, routines, t);
    GoCmpwi(code, region, s3, 7, 3, RESOURCE_TYPE_SCRIPT, routines, t);
    GoLbz(code, region, s2, 3, 0x23, 29, routines, t);
  }

  /**
  Every run from the resource check of either LBP3 version leaves at its bail address exactly when the game's
  own check or the script check says so; it calls nothing and keeps every register but r3 and two condition fields.
   */
  lemma LBP3BlocksScripts(code: Mem, site: Site, at: int, s: State, routines: Routines, t: State)
    requires LBP3Code(code, site, at) && s.pc == site.origin && Leaves(code, LBP3Region(site, at), s, routines, t)
    ensures t.pc == if LBP3Blocked(s) then site.bail else site.continue_
    ensures t.gpr == s.gpr[3 := t.gpr[3]] && t.cr[1..7] == s.cr[1..7] && t.calls == s.calls && t.mem == s.mem
  {
    hide Leaves, TypeAtR29, Fetch, Low32;
    LowParts(s.gpr[3]);
    LBP3Runs(code, site, at, s, routines);
    LeavesOnce(code, LBP3Region(site, at), s, routines, t, LBP3Exit(site, s));
  }
}
