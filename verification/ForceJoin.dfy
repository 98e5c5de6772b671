/** The join-request programs: from their first instruction to the exit, for every state and every callee. */
module ForceJoin {
  import opened Memory
  import opened PowerPC
  import opened Machine
  import opened Hooks
  import opened ScriptBlock

  // ----- the part LBP1 and LBP2 share: is the joiner local, and is there a friend entry? -----

  /**
  Where the program starts, the register that holds isLocalPlayerJoining, the operand of the branch to
  the success path, the halves of the manager's address, the manager's friend slot, and the search routine.
   */
  datatype Head = Head(base: int, flag: Reg, skip: int, high: Half, low: Half, slot: int, find: Word32)

  const LBP1_HEAD := Head(0x3ab70c, 25, 0x3b, 0x86, 0xd930, 0x18, 0x128b8c)

  const LBP2_HEAD := Head(0x285fb8, 23, 0x73, 0xd9, 0xb35c, 0x1c, 0x264148)

  function HeadProgram(h: Head): seq<Instr> { JoinHead(h.flag, h.skip, h.high, h.low, h.slot, h.find) }

  ghost predicate HeadCode(code: Mem, h: Head) {
    Installed(code, h.base, HeadProgram(h)) && 0 < h.high < 0x8000 && 0 <= h.slot < 0x8000
  }

  predicate Local(h: Head, s: State) { s.gpr[h.flag] % 0x100 != 0 }

  /** r3 at the search: the friends manager of the network manager. */
  function FriendsManager(h: Head, m: Mem): Word32 { Word(m, Word(m, h.high * 0x1_0000 + h.low) + h.slot) }

  /** The state after isLocalPlayerJoining is compared. */
  function FlagCompared(h: Head, s: State): State {
    s.(pc := h.base + 8, gpr := s.gpr[0 := Low8(s.gpr[h.flag])],
       cr := s.cr[7 := Compare(Low8(s.gpr[h.flag]), 0, s.so)])
  }

  /** The state in which the search is called: manager, source, null. */
  function AtFind(h: Head, s: State): State {
    var c := FlagCompared(h, s);
    c.(pc := h.base + 36, gpr := c.gpr[3 := FriendsManager(h, s.mem)][4 := s.gpr[27]][5 := 0])
  }

  function Found(h: Head, s: State, routines: Routines): State { CallOut(routines, h.find, AtFind(h, s)) }

  /** The search call: manager, source, null. */
  function FindCall(h: Head, s: State): Call {
    Call(h.find, [FriendsManager(h, s.mem), s.gpr[27], 0] + FlagCompared(h, s).gpr[6..11])
  }

  lemma FoundFacts(h: Head, s: State, routines: Routines)
    ensures Found(h, s, routines).pc == h.base + 40
    ensures Found(h, s, routines).calls == s.calls + [FindCall(h, s)]
  {
    hide CallOut, FriendsManager, Low8;
    CallReturns(routines, h.find, AtFind(h, s));
    assert AtFind(h, s).gpr[3..11] == FindCall(h, s).args;
  }

  lemma Flagged(code: Mem, h: Head, region: Region, s: State, routines: Routines, t: State)
    requires HeadCode(code, h) && s.pc == h.base && region.from <= h.base && h.base + 40 <= region.to
    requires Leaves(code, region, FlagCompared(h, s), routines, t)
    ensures Leaves(code, region, s, routines, t)
  {
    hide Leaves, Installed, Fetch, Low32, Low64, Low8, Signed32, Compare;
    Fetches4(code, h.base, HeadProgram(h), 0);
    SmallIs(Low8(s.gpr[h.flag]));
    GoCmpwi(code, region, Set(s, 0, Low8(s.gpr[h.flag])), 7, 0, 0, routines, t);
    GoClearByte(code, region, s, 0, h.flag, routines, t);
  }

  lemma Skips(code: Mem, h: Head, region: Region, s: State, routines: Routines, t: State)
    requires HeadCode(code, h) && s.pc == h.base && region.from <= h.base && h.base + 40 <= region.to
    requires Local(h, s)
    requires Leaves(code, region, FlagCompared(h, s).(pc := h.base + 8 + Displacement(h.skip)), routines, t)
    ensures Leaves(code, region, s, routines, t)
  {
    hide Leaves, Installed, Fetch, Low8, Displacement;
    LowParts(s.gpr[h.flag]);
    Fetches4(code, h.base, HeadProgram(h), 0);
    GoBranchEq(code, region, FlagCompared(h, s), false, 7, Displacement(h.skip), routines, t);
    hide FlagCompared;
    Flagged(code, h, region, s, routines, t);
  }

  lemma Asks(code: Mem, h: Head, region: Region, s: State, routines: Routines, t: State)
    requires HeadCode(code, h) && s.pc == h.base && region.from <= h.base && h.base + 40 <= region.to
    requires !Local(h, s) && Leaves(code, region, Found(h, s, routines), routines, t)
    ensures Leaves(code, region, s, routines, t)
  {
    hide Leaves, Installed, Fetch, Low8, Displacement, CallOut, FriendsManager;
    LowParts(s.gpr[h.flag]);
    Fetches4(code, h.base, HeadProgram(h), 0);
    Fetches4(code, h.base, HeadProgram(h), 6);
    var c := FlagCompared(h, s);
    GoCall(code, region, AtFind(h, s), h.find, routines, t);
    LoadsManager(code, h, region, c.(pc := h.base + 12), routines, t);
    GoBranchEq(code, region, c, false, 7, Displacement(h.skip), routines, t);
    hide FlagCompared;
    Flagged(code, h, region, s, routines, t);
  }

  lemma LoadsManager(code: Mem, h: Head, region: Region, s: State, routines: Routines, t: State)
    requires HeadCode(code, h) && s.pc == h.base + 12 && region.from <= h.base && h.base + 40 <= region.to
    requires Leaves(code, region, s.(pc := h.base + 36,
                                     gpr := s.gpr[3 := FriendsManager(h, s.mem)][4 := s.gpr[27]][5 := 0]), routines, t)
    ensures Leaves(code, region, s, routines, t)
  {
    hide Leaves, Installed, Fetch, Word, Low64;
    Fetches4(code, h.base, HeadProgram(h), 3);
    Fetches4(code, h.base, HeadProgram(h), 6);
    var global: Word64 := h.high * 0x1_0000 + h.low;
    var manager := Word(s.mem, global);
    SmallIs(global);
    SmallIs(manager + h.slot);
    var s4 := Set(s, 3, h.high * 0x1_0000);
    var s5 := Set(s4, 3, global);
    var s6 := Set(s5, 3, manager);
    var s7 := Set(s6, 3, FriendsManager(h, s.mem));
    assert s7.gpr == s.gpr[3 := FriendsManager(h, s.mem)];
    GoLi(code, region, Set(s7, 4, s.gpr[27]), 5, 0, routines, t);
    GoMove(code, region, s7, 4, 27, Or(4, 27, 27), routines, t);
    GoLwz(code, region, s6, 3, h.slot, 3, routines, t);
    GoLwz(code, region, s5, 3, 0, 3, routines, t);
    GoOri(code, region, s4, 3, 3, h.low, routines, t);
    GoLis(code, region, s, 3, h.high, routines, t);
  }

  /** r3 of a finished search: the friend entry, or null. */
  predicate NoFriend(s: State) { s.gpr[3] % 0x1_0000_0000 == 0 }

  function InviteWord(s: State, offset: int): Word32 {
    var base: int := s.gpr[3];
    Word(s.mem, Low64(base + offset))
  }

  // ----- LBP1 -----

  const LBP1_ACCEPT: int := 0x3ab74c
  const LBP1_REJECT: int := 0x3ab808

  const LBP1_JOIN_REGION := Region(0x3ab70c, 0x3ab70c, 0x3ab74c)

  ghost predicate LBP1JoinCode(code: Mem) {
    HeadCode(code, LBP1_HEAD) && Installed(code, LBP1_HEAD.base + 40, LBP1_ANSWER)
  }

  /** The joiner is local, or has a friend entry whose invitation word is not zero. */
  predicate LBP1Accepts(s: State, routines: Routines) {
    Local(LBP1_HEAD, s) ||
    var found := Found(LBP1_HEAD, s, routines);
    !NoFriend(found) && InviteWord(found, 0x108) != 0
  }

  /** The condition registers after r3 is compared with zero in field `f`. */
  function EntryCompared(s: State, f: CondField): Conds {
    s.cr[f := Compare(Signed32(Low32(s.gpr[3])), 0, s.so)]
  }

  /** Where LBP1 goes once the search is done. */
  lemma LBP1Judges(code: Mem, s: State, routines: Routines) returns (t: State)
    requires LBP1JoinCode(code) && s.pc == LBP1_HEAD.base + 40
    ensures Leaves(code, LBP1_JOIN_REGION, s, routines, t)
    ensures t.pc == if !NoFriend(s) && InviteWord(s, 0x108) != 0 then LBP1_ACCEPT else LBP1_REJECT
    ensures t.calls == s.calls && t.mem == s.mem
  {
    hide Leaves, Installed, Fetch, Low32, Low64, Signed32, HeadCode, Word;
    LowParts(s.gpr[3]);
    Fetches4(code, LBP1_HEAD.base + 40, LBP1_ANSWER, 0);
    var b, region := LBP1_HEAD.base, LBP1_JOIN_REGION;
    var s1 := s.(pc := b + 44, cr := EntryCompared(s, 7));
    SignedZero(Low32(s.gpr[3]));
    if NoFriend(s) {
      t := s1.(pc := LBP1_REJECT);
      Ends(code, region, t, routines);
    } else {
      t := LBP1Invited(code, s1.(pc := b + 48), routines);
      assert InviteWord(s1.(pc := b + 48), 0x108) == InviteWord(s, 0x108);
    }
    GoBranchEq(code, region, s1, true, 7, 0xd0, routines, t);
    GoCmpwi(code, region, s, 7, 3, 0, routines, t);
  }

  lemma LBP1Invited(code: Mem, s: State, routines: Routines) returns (t: State)
    requires LBP1JoinCode(code) && s.pc == LBP1_HEAD.base + 48
    ensures Leaves(code, LBP1_JOIN_REGION, s, routines, t)
    ensures t.pc == if InviteWord(s, 0x108) != 0 then LBP1_ACCEPT else LBP1_REJECT
    ensures t.calls == s.calls && t.mem == s.mem
  {
    hide Leaves, Installed, Fetch, Low32, Low64, Signed32, HeadCode, Word;
    Fetches4(code, LBP1_HEAD.base + 40, LBP1_ANSWER, 2);
    var b, region, w := LBP1_HEAD.base, LBP1_JOIN_REGION, InviteWord(s, 0x108);
    WordCompares(w);
    var s1 := Set(s, 6, w);
    var s2 := SetCond(s1, 7, Signed32(w), 0);
    if w == 0 {
      t := s2.(pc := LBP1_REJECT);
      Ends(code, region, t, routines);
    } else {
      t := Set(s2.(pc := b + 60), 0, s2.gpr[0]);
      Ends(code, region, t, routines);
      GoMove(code, region, s2.(pc := b + 60), 0, 0, Ori(0, 0, 0), routines, t);
    }
    GoBranchEq(code, region, s2, true, 7, 0xc4, routines, t);
    GoCmpwi(code, region, s1, 7, 6, 0, routines, t);
    GoLwz(code, region, s, 6, 0x108, 3, routines, t);
  }

  lemma WordCompares(w: Word32)
    ensures Low32(w) == w && (Signed32(w) == 0 <==> w == 0) && (Signed32(w) > 0 <==> 0 < w < 0x8000_0000)
  {
  }

  /**
  Every run of the LBP1 program leaves, and goes on to accept the request exactly when the joiner is local or
  was invited. A local joiner is not looked up; any other is looked up once.
   */
  lemma LBP1JoinIsSafe(code: Mem, s: State, routines: Routines)
    requires LBP1JoinCode(code) && s.pc == LBP1_HEAD.base
    ensures exists t :: Leaves(code, LBP1_JOIN_REGION, s, routines, t)
    ensures forall t :: Leaves(code, LBP1_JOIN_REGION, s, routines, t) ==>
                          && t.pc == (if LBP1Accepts(s, routines) then LBP1_ACCEPT else LBP1_REJECT)
                          && t.calls == if Local(LBP1_HEAD, s) then s.calls else s.calls + [FindCall(LBP1_HEAD, s)]
  {
    hide Leaves, Fetch, HeadCode, FlagCompared, CallOut, NoFriend, InviteWord, Low8, FindCall, Found;
    var t: State;
    if Local(LBP1_HEAD, s) {
      t := FlagCompared(LBP1_HEAD, s).(pc := LBP1_ACCEPT);
      Ends(code, LBP1_JOIN_REGION, t, routines);
      Skips(code, LBP1_HEAD, LBP1_JOIN_REGION, s, routines, t);
      FlagComparedCalls(LBP1_HEAD, s);
    } else {
      var found := Found(LBP1_HEAD, s, routines);
      FoundFacts(LBP1_HEAD, s, routines);
      t := LBP1Judges(code, found, routines);
      Asks(code, LBP1_HEAD, LBP1_JOIN_REGION, s, routines, t);
    }
    forall u | Leaves(code, LBP1_JOIN_REGION, s, routines, u)
      ensures u == t
    {
      LeavesOnce(code, LBP1_JOIN_REGION, s, routines, t, u);
    }
  }

  lemma FlagComparedCalls(h: Head, s: State)
    ensures FlagCompared(h, s).calls == s.calls
  {
  }

  // ----- LBP2 -----

  const LBP2_ACCEPT: int := 0x286030
  const LBP2_DONE: int := 0x285f28

  const LBP2_JOIN_REGION := Region(0x285fb8, 0x285fb8, 0x286030)

  const LBP2_DEAL: Word32 := 0x285914
  const LBP2_FORWARD: Word32 := 0x282440

  ghost predicate LBP2JoinCode(code: Mem) {
    && HeadCode(code, LBP2_HEAD) && Installed(code, LBP2_HEAD.base + 40, LBP2_ANSWER)
    && LBP2DealCode(code) && LBP2ForwardCode(code)
  }

  ghost predicate LBP2DealCode(code: Mem) { Installed(code, LBP2_HEAD.base + 60, LBP2_DEALING) }

  ghost predicate LBP2ForwardCode(code: Mem) { Installed(code, LBP2_HEAD.base + 100, LBP2_FORWARDING) }

  /** The joiner is local, or has a friend entry whose invitation word is positive as a signed word. */
  predicate LBP2Accepts(s: State, routines: Routines) {
    Local(LBP2_HEAD, s) ||
    var found := Found(LBP2_HEAD, s, routines);
    !NoFriend(found) && 0 < InviteWord(found, 0xe8) < 0x8000_0000
  }

  /** The base-game call that deals with a request that is not accepted at once. */
  function AtDeal(s: State): State {
    s.(pc := LBP2_HEAD.base + 84,
       gpr := s.gpr[3 := Low32(s.gpr[25])][4 := Low32(s.gpr[28])][5 := s.gpr[27]][6 := 0][7 := 0][8 := 12])
  }

  function Dealt(s: State, routines: Routines): State { CallOut(routines, LBP2_DEAL, AtDeal(s)) }

  /** The state in which the request is forwarded, once the result of the first call is compared. */
  function AtForward(d: State): State {
    d.(pc := LBP2_HEAD.base + 112, cr := d.cr[7 := Compare(Low8(d.gpr[3]), 0, d.so)],
       gpr := d.gpr[3 := Low32(d.gpr[25])][4 := Low32(d.gpr[28])][5 := d.gpr[27]])
  }

  function CallAt(target: int, s: State): Call { Call(target, s.gpr[3..11]) }

  /** The calls of the path that does not accept: deal, and forward when dealing reports failure. */
  function DenialCalls(s: State, routines: Routines): seq<Call> {
    var d := Dealt(s, routines);
    [CallAt(LBP2_DEAL, AtDeal(s))] + if Low8(d.gpr[3]) == 0 then [CallAt(LBP2_FORWARD, AtForward(d))] else []
  }

  lemma Deals(code: Mem, s: State, routines: Routines, t: State)
    requires LBP2DealCode(code) && s.pc == LBP2_HEAD.base + 60
    requires Leaves(code, LBP2_JOIN_REGION, Dealt(s, routines), routines, t)
    ensures Leaves(code, LBP2_JOIN_REGION, s, routines, t)
  {
    hide Leaves, Installed, Fetch, Low32, CallOut;
    Fetches4(code, LBP2_HEAD.base + 60, LBP2_DEALING, 0);
    Fetches4(code, LBP2_HEAD.base + 60, LBP2_DEALING, 3);
    var region := LBP2_JOIN_REGION;
    var s1 := Set(s, 3, Low32(s.gpr[25]));
    var s2 := Set(s1, 4, Low32(s.gpr[28]));
    var s3 := Set(s2, 5, s.gpr[27]);
    var s4 := Set(s3, 6, 0);
    var s5 := Set(s4, 7, 0);
    GoCall(code, region, AtDeal(s), LBP2_DEAL, routines, t);
    GoLi(code, region, s5, 8, 12, routines, t);
    GoLi(code, region, s4, 7, 0, routines, t);
    GoLi(code, region, s3, 6, 0, routines, t);
    GoMove(code, region, s2, 5, 27, Or(5, 27, 27), routines, t);
    GoClearWord(code, region, s1, 4, 28, routines, t);
    GoClearWord(code, region, s, 3, 25, routines, t);
  }

  lemma Forwards(code: Mem, d: State, s: State, routines: Routines, t: State)
    requires LBP2ForwardCode(code)
    requires s.pc == LBP2_HEAD.base + 100 && s.(pc := AtForward(d).pc, gpr := AtForward(d).gpr) == AtForward(d)
    requires s.gpr == d.gpr[3 := s.gpr[3]]
    requires t == CallOut(routines, LBP2_FORWARD, AtForward(d)).(pc := LBP2_DONE)
    ensures Leaves(code, LBP2_JOIN_REGION, s, routines, t)
  {
    hide Leaves, Installed, Fetch, Low32, Low8, CallOut;
    Fetches4(code, LBP2_HEAD.base + 100, LBP2_FORWARDING, 0);
    Fetches4(code, LBP2_HEAD.base + 100, LBP2_FORWARDING, 1);
    var region, f := LBP2_JOIN_REGION, AtForward(d);
    CallReturns(routines, LBP2_FORWARD, f);
    Ends(code, region, t, routines);
    GoRelative(code, region, CallOut(routines, LBP2_FORWARD, f), -0x104, routines, t);
    GoCall(code, region, f, LBP2_FORWARD, routines, t);
    var s1 := Set(s, 3, Low32(s.gpr[25]));
    var s2 := Set(s1, 4, Low32(s.gpr[28]));
    assert Set(s2, 5, s.gpr[27]).gpr == f.gpr;
    GoMove(code, region, s2, 5, 27, Or(5, 27, 27), routines, t);
    GoClearWord(code, region, s1, 4, 28, routines, t);
    GoClearWord(code, region, s, 3, 25, routines, t);
  }

  /** The path that does not accept ends at the same place, whatever the two routines do. */
  lemma LBP2Denies(code: Mem, s: State, routines: Routines) returns (t: State)
    requires LBP2DealCode(code) && LBP2ForwardCode(code) && s.pc == LBP2_HEAD.base + 60
    ensures Leaves(code, LBP2_JOIN_REGION, s, routines, t) && t.pc == LBP2_DONE
    ensures t.calls == s.calls + DenialCalls(s, routines)
  {
    hide Leaves, Installed, Fetch, Low32, Low8, Signed32, CallOut, LBP2ForwardCode, AtForward;
    Fetches4(code, LBP2_HEAD.base + 60, LBP2_DEALING, 6);
    var b, region, d := LBP2_HEAD.base, LBP2_JOIN_REGION, Dealt(s, routines);
    CallReturns(routines, LBP2_DEAL, AtDeal(s));
    SmallIs(Low8(d.gpr[3]));
    var s1 := Set(d, 3, Low8(d.gpr[3]));
    var s2 := SetCond(s1, 7, Low8(d.gpr[3]), 0);
    if Low8(d.gpr[3]) == 0 {
      CallReturns(routines, LBP2_FORWARD, AtForward(d));
      t := CallOut(routines, LBP2_FORWARD, AtForward(d)).(pc := LBP2_DONE);
      ForwardShape(d, s2.(pc := b + 100));
      Forwards(code, d, s2.(pc := b + 100), routines, t);
    } else {
      t := s2.(pc := LBP2_DONE);
      Ends(code, region, t, routines);
    }
    GoBranchEq(code, region, s2, false, 7, -0xf0, routines, t);
    GoCmpwi(code, region, s1, 7, 3, 0, routines, t);
    GoClearByte(code, region, d, 3, 3, routines, t);
    Deals(code, s, routines, t);
  }

  lemma ForwardShape(d: State, s: State)
    requires s == SetCond(Set(d, 3, Low8(d.gpr[3])), 7, Low8(d.gpr[3]), 0).(pc := LBP2_HEAD.base + 100)
    ensures s.(pc := AtForward(d).pc, gpr := AtForward(d).gpr) == AtForward(d) && s.gpr == d.gpr[3 := s.gpr[3]]
    ensures AtForward(d).calls == d.calls
  {
  }

  /** The state after an invitation word that does not accept is compared. */
  function Uninvited(s: State): State {
    var w := InviteWord(s, 0xe8);
    s.(pc := LBP2_HEAD.base + 60, gpr := s.gpr[6 := w], cr := s.cr[7 := Compare(Signed32(w), 0, s.so)])
  }

  /** The state in which a request that is not accepted starts to be dealt with. */
  function Denied(s: State): State {
    var c := s.(pc := LBP2_HEAD.base + 60, cr := EntryCompared(s, 7));
    if NoFriend(s) then c else Uninvited(c)
  }

  /** Where LBP2 goes once the search is done. */
  lemma LBP2Judges(code: Mem, s: State, routines: Routines) returns (t: State)
    requires LBP2JoinCode(code) && s.pc == LBP2_HEAD.base + 40
    ensures Leaves(code, LBP2_JOIN_REGION, s, routines, t)
    ensures var accepted := !NoFriend(s) && 0 < InviteWord(s, 0xe8) < 0x8000_0000;
            && t.pc == (if accepted then LBP2_ACCEPT else LBP2_DONE)
            && t.calls == s.calls + if accepted then [] else DenialCalls(Denied(s), routines)
  {
    hide Leaves, Installed, Fetch, Low32, Low64, Signed32, HeadCode, Word, LBP2DealCode, LBP2ForwardCode, DenialCalls;
    LowParts(s.gpr[3]);
    Fetches4(code, LBP2_HEAD.base + 40, LBP2_ANSWER, 0);
    var b, region := LBP2_HEAD.base, LBP2_JOIN_REGION;
    var s1 := s.(pc := b + 44, cr := EntryCompared(s, 7));
    SignedZero(Low32(s.gpr[3]));
    if NoFriend(s) {
      t := LBP2Denies(code, s1.(pc := b + 60), routines);
    } else {
      t := LBP2Invited(code, s1.(pc := b + 48), routines);
      assert InviteWord(s1.(pc := b + 48), 0xe8) == InviteWord(s, 0xe8);
      assert Uninvited(s1.(pc := b + 48)) == Denied(s);
    }
    assert s.calls + [] == s.calls;
    GoBranchEq(code, region, s1, true, 7, 0x10, routines, t);
    GoCmpwi(code, region, s, 7, 3, 0, routines, t);
  }

  lemma LBP2Invited(code: Mem, s: State, routines: Routines) returns (t: State)
    requires LBP2JoinCode(code) && s.pc == LBP2_HEAD.base + 48
    ensures Leaves(code, LBP2_JOIN_REGION, s, routines, t)
    ensures var accepted := 0 < InviteWord(s, 0xe8) < 0x8000_0000;
            && t.pc == (if accepted then LBP2_ACCEPT else LBP2_DONE)
            && t.calls == s.calls + if accepted then [] else DenialCalls(Uninvited(s), routines)
  {
    hide Leaves, Installed, Fetch, Low32, Low64, Signed32, HeadCode, Word, LBP2DealCode, LBP2ForwardCode, DenialCalls;
    Fetches4(code, LBP2_HEAD.base + 40, LBP2_ANSWER, 1);
    var b, region, w := LBP2_HEAD.base, LBP2_JOIN_REGION, InviteWord(s, 0xe8);
    WordCompares(w);
    var s1 := Set(s, 6, w);
    var s2 := SetCond(s1, 7, Signed32(w), 0);
    if Signed32(w) > 0 {
      t := s2.(pc := LBP2_ACCEPT);
      Ends(code, region, t, routines);
    } else {
      t := LBP2Denies(code, s2.(pc := b + 60), routines);
    }
    assert s.calls + [] == s.calls;
    GoBranchGt(code, region, s2, true, 7, 0x40, routines, t);
    GoCmpwi(code, region, s1, 7, 6, 0, routines, t);
    GoLwz(code, region, s, 6, 0xe8, 3, routines, t);
  }

  /** The denied request is dealt with under the joiner's source, and forwarded at most once. */
  predicate DenialShape(calls: seq<Call>, s: State) {
    && 1 <= |calls| <= 2
    && calls[0].target == LBP2_DEAL && |calls[0].args| == 8
    && calls[0].args[..6] == [Low32(s.gpr[25]), Low32(s.gpr[28]), s.gpr[27], 0, 0, 12]
    && (|calls| == 2 ==>
          && calls[1].target == LBP2_FORWARD && |calls[1].args| == 8
          && calls[1].args[..3] == [Low32(s.gpr[25]), Low32(s.gpr[28]), s.gpr[27]])
  }

  lemma KeptOverCall(routines: Routines, target: int, s: State, r: Reg)
    requires KeptGpr(r)
    ensures CallOut(routines, target, s).gpr[r] == s.gpr[r]
  {
  }

  lemma DenialIsShaped(denied: State, routines: Routines, s: State)
    requires denied.gpr[25] == s.gpr[25] && denied.gpr[27] == s.gpr[27] && denied.gpr[28] == s.gpr[28]
    ensures DenialShape(DenialCalls(denied, routines), s)
  {
    hide CallOut, Low32, Low8;
    var d := Dealt(denied, routines);
    KeptOverCall(routines, LBP2_DEAL, AtDeal(denied), 25);
    KeptOverCall(routines, LBP2_DEAL, AtDeal(denied), 27);
    KeptOverCall(routines, LBP2_DEAL, AtDeal(denied), 28);
    assert AtDeal(denied).gpr[3..11][..6] == [Low32(s.gpr[25]), Low32(s.gpr[28]), s.gpr[27], 0, 0, 12];
    assert AtForward(d).gpr[3..11][..3] == [Low32(s.gpr[25]), Low32(s.gpr[28]), s.gpr[27]];
  }

  /** How many calls the search makes: none for a local joiner. */
  function SearchCalls(h: Head, s: State): seq<Call> { if Local(h, s) then [] else [FindCall(h, s)] }

  /** The calls after the search: none on acceptance. */
  function LBP2Handled(s: State, routines: Routines): seq<Call> {
    if LBP2Accepts(s, routines) then [] else DenialCalls(Denied(Found(LBP2_HEAD, s, routines)), routines)
  }

  /**
  Every run of the LBP2 program leaves, and accepts the request exactly when the joiner is local or was invited.
  Any other request is dealt with once, and forwarded exactly when dealing with it returns a zero byte.
   */
  lemma LBP2JoinIsSafe(code: Mem, s: State, routines: Routines)
    requires LBP2JoinCode(code) && s.pc == LBP2_HEAD.base
    ensures exists t :: Leaves(code, LBP2_JOIN_REGION, s, routines, t)
    ensures forall t :: Leaves(code, LBP2_JOIN_REGION, s, routines, t) ==>
                          && t.pc == (if LBP2Accepts(s, routines) then LBP2_ACCEPT else LBP2_DONE)
                          && t.calls == s.calls + SearchCalls(LBP2_HEAD, s) + LBP2Handled(s, routines)
    ensures !LBP2Accepts(s, routines) ==> DenialShape(LBP2Handled(s, routines), s)
  {
    hide Leaves;
    var t := LBP2Outcome(code, s, routines);
    forall u | Leaves(code, LBP2_JOIN_REGION, s, routines, u)
      ensures u == t
    {
      LeavesOnce(code, LBP2_JOIN_REGION, s, routines, t, u);
    }
  }

  lemma LBP2Outcome(code: Mem, s: State, routines: Routines) returns (t: State)
    requires LBP2JoinCode(code) && s.pc == LBP2_HEAD.base
    ensures Leaves(code, LBP2_JOIN_REGION, s, routines, t)
    ensures t.pc == if LBP2Accepts(s, routines) then LBP2_ACCEPT else LBP2_DONE
    ensures t.calls == s.calls + SearchCalls(LBP2_HEAD, s) + LBP2Handled(s, routines)
    ensures !LBP2Accepts(s, routines) ==> DenialShape(LBP2Handled(s, routines), s)
  {
    hide Leaves, Fetch, HeadCode, LBP2DealCode, LBP2ForwardCode, NoFriend, InviteWord, Signed32;
    hide DenialShape, DenialCalls;
    if Local(LBP2_HEAD, s) {
      hide Low8, FlagCompared;
      t := FlagCompared(LBP2_HEAD, s).(pc := LBP2_ACCEPT);
      Ends(code, LBP2_JOIN_REGION, t, routines);
      Skips(code, LBP2_HEAD, LBP2_JOIN_REGION, s, routines, t);
      FlagComparedCalls(LBP2_HEAD, s);
      assert s.calls + [] + [] == s.calls;
    } else {
      hide Low8, FlagCompared, Found, FindCall, Denied;
      var found := Found(LBP2_HEAD, s, routines);
      FoundFacts(LBP2_HEAD, s, routines);
      t := LBP2Judges(code, found, routines);
      FoundKeeps(LBP2_HEAD, s, routines);
      DeniedKeeps(found);
      DenialIsShaped(Denied(found), routines, s);
      Asks(code, LBP2_HEAD, LBP2_JOIN_REGION, s, routines, t);
    }
  }

  lemma DeniedKeeps(s: State)
    ensures Denied(s).gpr == s.gpr[6 := Denied(s).gpr[6]] && Denied(s).calls == s.calls
  {
    hide InviteWord, Compare, Signed32;
  }

  /** The search keeps the registers the denial passes on. */
  lemma FoundKeeps(h: Head, s: State, routines: Routines)
    ensures var found := Found(h, s, routines);
            found.gpr[25] == s.gpr[25] && found.gpr[27] == s.gpr[27] && found.gpr[28] == s.gpr[28]
  {
    hide CallOut, FriendsManager, Low8;
    KeptOverCall(routines, h.find, AtFind(h, s), 25);
    KeptOverCall(routines, h.find, AtFind(h, s), 27);
    KeptOverCall(routines, h.find, AtFind(h, s), 28);
  }

  // ----- LBP3, two versions of the game -----

  /** Where a version's program starts, the halves of its manager's address, and its two routines. */
  datatype JoinSite = JoinSite(base: int, high: Half, low: Half, find: Word32, deal: Word32)

  const LBP3_JOIN := JoinSite(0x30561c, 0xf8, 0x5a80, 0x2eb594, 0x305090)

  const LBP3_JP_JOIN := JoinSite(0x301e34, 0xf6, 0x6000, 0x2e821c, 0x3018a8)

  function JoinRegion(j: JoinSite): Region { Region(j.base, j.base, j.base + 112) }

  ghost predicate JoinCode(code: Mem, j: JoinSite) {
    && 0 <= j.base < 0x100_0000 && 0 < j.high < 0x8000 && 0 < j.low < 0x8000
    && JoinSearchCode(code, j) && JoinDealCode(code, j)
  }

  ghost predicate JoinSearchCode(code: Mem, j: JoinSite) {
    Installed(code, j.base, LBP3Search(j.high, j.low, j.find))
  }

  ghost predicate JoinDealCode(code: Mem, j: JoinSite) { Installed(code, j.base + 64, LBP3Deal(j.deal)) }

  predicate Local3(s: State) { s.gpr[28] % 0x1_0000_0000 != 0 }

  function FriendsManager3(j: JoinSite, m: Mem): Word32 { Word(m, j.high * 0x1_0000 - j.low + 0x1c) }

  function Flag3Compared(j: JoinSite, s: State): State {
    s.(pc := j.base + 4, cr := s.cr[0 := Compare(Signed32(Low32(s.gpr[28])), 0, s.so)])
  }

  function AtFind3(j: JoinSite, s: State): State {
    Flag3Compared(j, s).(pc := j.base + 28, ca := true,
                         gpr := s.gpr[3 := FriendsManager3(j, s.mem)][4 := s.gpr[31]][5 := 0])
  }

  function Found3(j: JoinSite, s: State, routines: Routines): State { CallOut(routines, j.find, AtFind3(j, s)) }

  /** The state in which the search is called, from one past the flag's branch. */
  function ManagerLoaded(j: JoinSite, s: State): State {
    s.(pc := j.base + 28, ca := true, gpr := s.gpr[3 := FriendsManager3(j, s.mem)][4 := s.gpr[31]][5 := 0])
  }

  lemma LoadsManager3(code: Mem, j: JoinSite, s: State, routines: Routines, t: State)
    requires JoinCode(code, j) && s.pc == j.base + 8
    requires Leaves(code, JoinRegion(j), ManagerLoaded(j, s), routines, t)
    ensures Leaves(code, JoinRegion(j), s, routines, t)
  {
    hide Leaves, Installed, Fetch, Word, Low64, JoinDealCode;
    Fetches4(code, j.base, LBP3Search(j.high, j.low, j.find), 2);
    Fetches4(code, j.base, LBP3Search(j.high, j.low, j.find), 4);
    var region := JoinRegion(j);
    var low: int := j.low;
    var global: Word64 := j.high * 0x1_0000 - low;
    SmallIs(global + 0x1c);
    var s1 := Set(s, 3, j.high * 0x1_0000);
    var s2 := Set(s1, 3, global).(ca := true);
    var s3 := Set(s2, 3, FriendsManager3(j, s.mem));
    assert s3.gpr == s.gpr[3 := FriendsManager3(j, s.mem)];
    GoLi(code, region, Set(s3, 4, s.gpr[31]), 5, 0, routines, t);
    GoMove(code, region, s3, 4, 31, Or(4, 31, 31), routines, t);
    GoLwz(code, region, s2, 3, 0x1c, 3, routines, t);
    GoSubic(code, region, s1, 3, 3, -low, routines, t);
    GoLis(code, region, s, 3, j.high, routines, t);
  }

  lemma Asks3(code: Mem, j: JoinSite, s: State, routines: Routines, t: State)
    requires JoinCode(code, j) && s.pc == j.base
    requires Leaves(code, JoinRegion(j), if Local3(s) then Flag3Compared(j, s).(pc := j.base + 52)
                                         else Found3(j, s, routines), routines, t)
    ensures Leaves(code, JoinRegion(j), s, routines, t)
  {
    hide Leaves, Installed, Fetch, JoinDealCode, Low32, Signed32, CallOut, FriendsManager3;
    LowParts(s.gpr[28]);
    Fetches4(code, j.base, LBP3Search(j.high, j.low, j.find), 0);
    Fetches4(code, j.base, LBP3Search(j.high, j.low, j.find), 4);
    var region, c := JoinRegion(j), Flag3Compared(j, s);
    SignedZero(Low32(s.gpr[28]));
    if !Local3(s) {
      GoCall(code, region, AtFind3(j, s), j.find, routines, t);
      LoadsManager3(code, j, c.(pc := j.base + 8), routines, t);
    }
    GoBranchEq(code, region, c, false, 0, 0x30, routines, t);
    GoCmpwi(code, region, s, 0, 28, 0, routines, t);
  }

  /** The joiner is local, or has a friend entry whose invitation word is not zero. */
  predicate SkipsChecks(j: JoinSite, s: State, routines: Routines) {
    Local3(s) ||
    var found := Found3(j, s, routines);
    !NoFriend(found) && InviteWord(found, 0xf0) != 0
  }

  /** From the decision to the common tail: r26 is skip_checks, and nothing the tail passes on has changed. */
  ghost predicate Decided(j: JoinSite, s: State, u: State, skip: bool) {
    && u.pc == j.base + 64 && u.gpr[26] == (if skip then 1 else 0) && u.calls == s.calls && u.mem == s.mem
    && forall r: Reg :: 28 <= r ==> u.gpr[r] == s.gpr[r]
  }

  /** skip_checks is set, at the tail. */
  function Succeeded(j: JoinSite, s: State): State { s.(pc := j.base + 64, gpr := s.gpr[26 := 1]) }

  lemma Succeeds(code: Mem, j: JoinSite, s: State, routines: Routines, t: State)
    requires JoinCode(code, j) && s.pc == j.base + 52
    requires Leaves(code, JoinRegion(j), Succeeded(j, s), routines, t)
    ensures Leaves(code, JoinRegion(j), s, routines, t)
  {
    hide Leaves, Installed, Fetch, JoinDealCode;
    Fetches4(code, j.base, LBP3Search(j.high, j.low, j.find), 12);
    GoRelative(code, JoinRegion(j), Set(s, 26, 1), 8, routines, t);
    GoLi(code, JoinRegion(j), s, 26, 1, routines, t);
  }

  /** Where the search leads: the state at the tail. */
  lemma Judges3(code: Mem, j: JoinSite, s: State, routines: Routines) returns (u: State)
    requires JoinCode(code, j) && s.pc == j.base + 32
    ensures Decided(j, s, u, !NoFriend(s) && InviteWord(s, 0xf0) != 0)
    ensures forall t :: Leaves(code, JoinRegion(j), u, routines, t) ==> Leaves(code, JoinRegion(j), s, routines, t)
  {
    hide Leaves, Installed, Fetch, JoinDealCode, Low32, Low64, Signed32, Word;
    LowParts(s.gpr[3]);
    Fetches4(code, j.base, LBP3Search(j.high, j.low, j.find), 8);
    Fetches4(code, j.base, LBP3Search(j.high, j.low, j.find), 12);
    var b, region, w := j.base, JoinRegion(j), InviteWord(s, 0xf0);
    SignedZero(Low32(s.gpr[3]));
    WordCompares(w);
    var s1 := s.(pc := b + 36, cr := EntryCompared(s, 0));
    var s2 := Set(s1.(pc := b + 40), 3, w);
    var s3 := SetCond(s2, 0, Signed32(w), 0);
    if NoFriend(s) {
      u := Set(s1.(pc := b + 60), 26, 0);
    } else if w == 0 {
      u := Set(s3.(pc := b + 60), 26, 0);
    } else {
      u := s3.(pc := b + 64, gpr := s3.gpr[26 := 1]);
    }
    forall t | Leaves(code, region, u, routines, t)
      ensures Leaves(code, region, s, routines, t)
    {
      if NoFriend(s) {
        GoLi(code, region, s1.(pc := b + 60), 26, 0, routines, t);
      } else {
        if w == 0 {
          GoLi(code, region, s3.(pc := b + 60), 26, 0, routines, t);
        } else {
          Succeeds(code, j, s3.(pc := b + 52), routines, t);
        }
        GoBranchEq(code, region, s3, true, 0, 0xc, routines, t);
        GoCmpwi(code, region, s2, 0, 3, 0, routines, t);
        GoLwz(code, region, s1.(pc := b + 40), 3, 0xf0, 3, routines, t);
      }
      GoBranchEq(code, region, s1, true, 0, 0x18, routines, t);
      GoCmpwi(code, region, s, 0, 3, 0, routines, t);
    }
  }

  /** The state in which the request is dealt with. */
  function AtDeal3(j: JoinSite, u: State): State {
    u.(pc := j.base + 92,
       gpr := u.gpr[3 := u.gpr[29]][4 := u.gpr[30]][5 := u.gpr[31]][6 := u.gpr[28]][7 := u.gpr[26]][8 := 13][9 := 6])
  }

  function Dealt3(j: JoinSite, u: State, routines: Routines): State { CallOut(routines, j.deal, AtDeal3(j, u)) }

  /** The first four arguments are moved into place. */
  function Moved3(j: JoinSite, u: State): State {
    u.(pc := j.base + 80, gpr := u.gpr[3 := u.gpr[29]][4 := u.gpr[30]][5 := u.gpr[31]][6 := u.gpr[28]])
  }

  lemma Moves3(code: Mem, j: JoinSite, u: State, routines: Routines, t: State)
    requires JoinCode(code, j) && u.pc == j.base + 64
    requires Leaves(code, JoinRegion(j), Moved3(j, u), routines, t)
    ensures Leaves(code, JoinRegion(j), u, routines, t)
  {
    hide Leaves, Installed, Fetch, JoinSearchCode;
    Fetches4(code, j.base + 64, LBP3Deal(j.deal), 0);
    var region := JoinRegion(j);
    var s1 := Set(u, 3, u.gpr[29]);
    var s2 := Set(s1, 4, u.gpr[30]);
    var s3 := Set(s2, 5, u.gpr[31]);
    GoMove(code, region, s3, 6, 28, Ori(6, 28, 0), routines, t);
    GoMove(code, region, s2, 5, 31, Ori(5, 31, 0), routines, t);
    GoMove(code, region, s1, 4, 30, Ori(4, 30, 0), routines, t);
    GoMove(code, region, u, 3, 29, Ori(3, 29, 0), routines, t);
  }

  lemma Deals3(code: Mem, j: JoinSite, u: State, routines: Routines, t: State)
    requires JoinCode(code, j) && u.pc == j.base + 64
    requires Leaves(code, JoinRegion(j), Dealt3(j, u, routines), routines, t)
    ensures Leaves(code, JoinRegion(j), u, routines, t)
  {
    hide Leaves, Installed, Fetch, CallOut, JoinSearchCode;
    Fetches4(code, j.base + 64, LBP3Deal(j.deal), 4);
    var region, s4 := JoinRegion(j), Moved3(j, u);
    var s5 := Set(s4, 7, u.gpr[26]);
    var s6 := Set(s5, 8, 13);
    GoCall(code, region, AtDeal3(j, u), j.deal, routines, t);
    GoLi(code, region, s6, 9, 6, routines, t);
    GoLi(code, region, s5, 8, 13, routines, t);
    GoMove(code, region, s4, 7, 26, Or(7, 26, 26), routines, t);
    Moves3(code, j, u, routines, t);
  }

  /** Past the checks with skip_checks set or a non-zero result, into the checks otherwise. */
  function Join3Exit(j: JoinSite, skip: bool, result: Word64): int {
    if skip || Low32(result) != 0 then j.base + 148 else j.base + 112
  }

  lemma Finishes3(code: Mem, j: JoinSite, d: State, skip: bool, routines: Routines) returns (t: State)
    requires JoinCode(code, j) && d.pc == j.base + 96 && d.gpr[26] == if skip then 1 else 0
    ensures Leaves(code, JoinRegion(j), d, routines, t)
    ensures t.pc == Join3Exit(j, skip, d.gpr[3]) && t.calls == d.calls && t.gpr == d.gpr
  {
    hide Leaves, Installed, Fetch, Low32, Signed32, JoinSearchCode;
    Fetches4(code, j.base + 64, LBP3Deal(j.deal), 8);
    var b, region := j.base, JoinRegion(j);
    SmallIs(d.gpr[26]);
    SignedZero(Low32(d.gpr[3]));
    var s1 := SetCond(d, 0, d.gpr[26], 0);
    var s2 := SetCond(s1.(pc := b + 104), 0, Signed32(Low32(d.gpr[3])), 0);
    if skip {
      t := s1.(pc := b + 148);
      Ends(code, region, t, routines);
    } else {
      t := s2.(pc := Join3Exit(j, skip, d.gpr[3]));
      Ends(code, region, t, routines);
      GoBranchEq(code, region, s2, false, 0, 0x28, routines, t);
      GoCmpwi(code, region, s1.(pc := b + 104), 0, 3, 0, routines, t);
    }
    GoBranchEq(code, region, s1, false, 0, 0x30, routines, t);
    GoCmpwi(code, region, d, 0, 26, 0, routines, t);
  }

  /** The call that deals with the request: this, message, source, local, skip_checks, 13, 6. */
  predicate DealCall(j: JoinSite, c: Call, s: State, skip: bool) {
    && c.target == j.deal && |c.args| == 8
    && c.args[..7] == [s.gpr[29], s.gpr[30], s.gpr[31], s.gpr[28], if skip then 1 else 0, 13, 6]
  }

  lemma TailRuns(code: Mem, j: JoinSite, s: State, u: State, skip: bool, routines: Routines) returns (t: State)
    requires JoinCode(code, j) && Decided(j, s, u, skip)
    ensures Leaves(code, JoinRegion(j), u, routines, t)
    ensures |t.calls| == |s.calls| + 1 && t.calls[..|s.calls|] == s.calls && DealCall(j, t.calls[|s.calls|], s, skip)
    ensures t.pc == Join3Exit(j, skip, t.gpr[3])
  {
    hide Leaves, Fetch, CallOut, JoinCode, Low32;
    var a, d := AtDeal3(j, u), Dealt3(j, u, routines);
    CallReturns(routines, j.deal, a);
    KeptOverCall(routines, j.deal, a, 26);
    assert a.gpr[3..11][..7] == [s.gpr[29], s.gpr[30], s.gpr[31], s.gpr[28], if skip then 1 else 0, 13, 6];
    t := Finishes3(code, j, d, skip, routines);
    Deals3(code, j, u, routines, t);
  }

  /** The search call of LBP3: manager, source, null. */
  function FindCall3(j: JoinSite, s: State): Call {
    Call(j.find, [FriendsManager3(j, s.mem), s.gpr[31], 0] + s.gpr[6..11])
  }

  function SearchCalls3(j: JoinSite, s: State): seq<Call> { if Local3(s) then [] else [FindCall3(j, s)] }

  lemma Found3Facts(j: JoinSite, s: State, routines: Routines)
    ensures var found := Found3(j, s, routines);
            && found.pc == j.base + 32 && found.calls == s.calls + [FindCall3(j, s)]
            && found.gpr[28] == s.gpr[28] && found.gpr[29] == s.gpr[29] && found.gpr[30] == s.gpr[30]
            && found.gpr[31] == s.gpr[31]
  {
    hide CallOut, FriendsManager3, Low32;
    var a := AtFind3(j, s);
    CallReturns(routines, j.find, a);
    assert a.gpr[3..11] == FindCall3(j, s).args;
    KeptOverCall(routines, j.find, a, 28);
    KeptOverCall(routines, j.find, a, 29);
    KeptOverCall(routines, j.find, a, 30);
    KeptOverCall(routines, j.find, a, 31);
  }

  /** What a finished run of the LBP3 program has done. */
  ghost predicate Join3Done(j: JoinSite, s: State, routines: Routines, t: State) {
    var before := s.calls + SearchCalls3(j, s);
    var skip := SkipsChecks(j, s, routines);
    && |t.calls| == |before| + 1 && t.calls[..|before|] == before
    && DealCall(j, t.calls[|before|], s, skip) && t.pc == Join3Exit(j, skip, t.gpr[3])
  }

  lemma Join3Outcome(code: Mem, j: JoinSite, s: State, routines: Routines) returns (t: State)
    requires JoinCode(code, j) && s.pc == j.base
    ensures Leaves(code, JoinRegion(j), s, routines, t) && Join3Done(j, s, routines, t)
  {
    hide Leaves, JoinCode, CallOut, Low32, NoFriend, InviteWord, FindCall3, Flag3Compared, Found3, Join3Exit;
    var skip := SkipsChecks(j, s, routines);
    if Local3(s) {
      var c := Flag3Compared(j, s).(pc := j.base + 52);
      FlagKept(j, s);
      var u := c.(pc := j.base + 64, gpr := c.gpr[26 := 1]);
      assert s.calls + [] == s.calls;
      t := TailRuns(code, j, s, u, true, routines);
      assert JoinCode(code, j);
      Succeeds(code, j, c, routines, t);
    } else {
      var found := Found3(j, s, routines);
      Found3Facts(j, s, routines);
      var u := Judges3(code, j, found, routines);
      t := TailRuns(code, j, found, u, skip, routines);
    }
    Asks3(code, j, s, routines, t);
  }

  lemma FlagKept(j: JoinSite, s: State)
    ensures Flag3Compared(j, s).gpr == s.gpr && Flag3Compared(j, s).calls == s.calls && Flag3Compared(j, s).mem == s.mem
  {
  }

  /**
  Every run of the LBP3 program, in both versions, leaves after dealing with the request once, and passes
  skip_checks = 1 exactly when the joiner is local or was invited.
   */
  lemma LBP3JoinIsSafe(code: Mem, j: JoinSite, s: State, routines: Routines)
    requires JoinCode(code, j) && s.pc == j.base
    ensures exists t :: Leaves(code, JoinRegion(j), s, routines, t)
    ensures forall t :: Leaves(code, JoinRegion(j), s, routines, t) ==> Join3Done(j, s, routines, t)
  {
    hide Leaves, JoinCode, Join3Done;
    var t := Join3Outcome(code, j, s, routines);
    forall u | Leaves(code, JoinRegion(j), s, routines, u)
      ensures Join3Done(j, s, routines, u)
    {
      LeavesOnce(code, JoinRegion(j), s, routines, t, u);
    }
  }

  // ----- in addresses -----

  /** Whom the programs call to find a friend, with what manager, the source, and null. */
  lemma SearchesCalled(s: State)
    ensures FindCall(LBP1_HEAD, s)
         == Call(0x128b8c, [Word(s.mem, Word(s.mem, 0x86d930) + 0x18), s.gpr[27], 0] + s.gpr[6..11])
    ensures FindCall(LBP2_HEAD, s)
         == Call(0x264148, [Word(s.mem, Word(s.mem, 0xd9b35c) + 0x1c), s.gpr[27], 0] + s.gpr[6..11])
    ensures FindCall3(LBP3_JOIN, s) == Call(0x2eb594, [Word(s.mem, 0xf7a59c), s.gpr[31], 0] + s.gpr[6..11])
    ensures FindCall3(LBP3_JP_JOIN, s) == Call(0x2e821c, [Word(s.mem, 0xf5a01c), s.gpr[31], 0] + s.gpr[6..11])
  {
    hide Word, Low8, Compare;
    assert FlagCompared(LBP1_HEAD, s).gpr[6..11] == s.gpr[6..11];
    assert FlagCompared(LBP2_HEAD, s).gpr[6..11] == s.gpr[6..11];
  }

  /** Where the LBP3 programs call and leave. */
  lemma LBP3Addresses(skip: bool, result: Word64)
    ensures LBP3_JOIN.deal == 0x305090 && LBP3_JP_JOIN.deal == 0x3018a8
    ensures Join3Exit(LBP3_JOIN, skip, result)
         == if skip || result % 0x1_0000_0000 != 0 then 0x3056B0 else 0x30568C
    ensures Join3Exit(LBP3_JP_JOIN, skip, result)
         == if skip || result % 0x1_0000_0000 != 0 then 0x301EC8 else 0x301EA4
  {
  }
}
