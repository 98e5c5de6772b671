/** The two versions of the LBP3 join program run in lockstep, under a renaming of their addresses. */
module JoinVersions {
  import opened Memory
  import opened PowerPC
  import opened Machine
  import opened Hooks
  import opened ForceJoin
  import opened Wrappers

  function Program(j: JoinSite): seq<Instr> { LBP3Join(j.high, j.low, j.find, j.deal) }

  predicate InRange(j: JoinSite) {
    0 <= j.base < 0x100_0000 && j.base % 4 == 0 && 0 < j.high < 0x8000 && 0 < j.low < 0x8000
  }

  /** The same but for the program counter and the calls made. */
  ghost predicate Alike(s: State, t: State) {
    s.gpr == t.gpr && s.cr == t.cr && s.ca == t.ca && s.so == t.so && s.mem == t.mem
  }

  /** The routines of one version behave as those of the other. */
  ghost predicate Counterparts(j: JoinSite, k: JoinSite, r: Routines, q: Routines) {
    forall s, t :: Alike(s, t) ==> r(j.find, s) == q(k.find, t) && r(j.deal, s) == q(k.deal, t)
  }

  /** Routines that answer alike are counterparts, whatever the answer. */
  lemma CounterpartsExist(j: JoinSite, k: JoinSite, e: Effect)
    ensures Counterparts(j, k, (_, _) => e, (_, _) => e)
  {
  }

  /** The same arguments, to the routine of the other version. */
  predicate Renames(j: JoinSite, k: JoinSite, c: Call, d: Call) {
    c.args == d.args && ((c.target == j.find && d.target == k.find) || (c.target == j.deal && d.target == k.deal))
  }

  predicate SameCalls(j: JoinSite, k: JoinSite, cs: seq<Call>, ds: seq<Call>) {
    |cs| == |ds| && forall i :: 0 <= i < |cs| ==> Renames(j, k, cs[i], ds[i])
  }

  /** Where r3 holds an address of the version: after `lis`, and after `subic`. */
  function Address(j: JoinSite, at: int): Word64
    requires InRange(j)
  {
    if at == 12 then j.high * 0x1_0000 else j.high * 0x1_0000 - j.low
  }

  /** The registers agree, but for r3 while it holds the address of the network manager. */
  predicate SameRegisters(j: JoinSite, k: JoinSite, at: int, g: Gprs, h: Gprs)
    requires InRange(j) && InRange(k)
  {
    if at == 12 || at == 16 then g[3] == Address(j, at) && h == g[3 := Address(k, at)] else h == g
  }

  /**
  The two states stand at the same instruction, and agree on everything but the renamed addresses; until
  it is loaded, the friends manager is the same.
   */
  ghost predicate Lockstep(j: JoinSite, k: JoinSite, s: State, t: State)
    requires InRange(j) && InRange(k)
  {
    var at := s.pc - j.base;
    && t.pc - k.base == at && at % 4 == 0
    && s.cr == t.cr && s.ca == t.ca && s.so == t.so && s.mem == t.mem
    && SameRegisters(j, k, at, s.gpr, t.gpr)
    && SameCalls(j, k, s.calls, t.calls)
    && (at <= 16 ==> FriendsManager3(j, s.mem) == FriendsManager3(k, t.mem))
  }

  /** No call, no absolute address, and no step back. */
  predicate Plain(i: Instr) {
    Encodable(i) && (i.B? ==> !i.aa && !i.lk && i.li > 0) && (i.Bc? ==> i.bd > 0)
  }

  /** Not a branch into the address computation from before it. */
  predicate SearchesLater(i: Instr) { !i.B? && (i.Bc? ==> i.bd > 16) }

  /** The versions differ in four instructions. */
  lemma SameProgram(j: JoinSite, k: JoinSite, n: nat)
    requires n < 28 && n != 2 && n != 3 && n != 7 && n != 23
    ensures Program(j)[n] == Program(k)[n]
  {
    hide Displacement;
  }

  lemma PlainProgram(j: JoinSite, n: nat)
    requires n < 28 && n != 2 && n != 3 && n != 7 && n != 23
    ensures Plain(Program(j)[n])
    ensures n < 2 ==> SearchesLater(Program(j)[n])
  {
  }

  lemma SameExec(i: Instr, s: State, t: State, r: Routines, q: Routines)
    requires Plain(i) && Alike(s, t) && 0 <= s.pc < 0x1000_0000 && 0 <= t.pc < 0x1000_0000
    ensures Alike(Exec(i, s, r), Exec(i, t, q))
    ensures Exec(i, s, r).pc - s.pc == Exec(i, t, q).pc - t.pc >= 4 && (Exec(i, s, r).pc - s.pc) % 4 == 0
    ensures var hop := Exec(i, s, r).pc - s.pc; hop == 4 || (i.Bc? && hop == i.bd) || (i.B? && hop == i.li)
    ensures Exec(i, s, r).calls == s.calls && Exec(i, t, q).calls == t.calls && Exec(i, s, r).mem == s.mem
  {
    hide BitOr, MaskWord, Rotate, LowBits, Word, Low32, Signed32, CallOut, Compare;
    if i.B? {
      DoRelative(s, i.li, r);
      DoRelative(t, i.li, q);
    }
    hide Low64;
  }

  lemma SameCall(j: JoinSite, k: JoinSite, s: State, t: State, to: Word32, other: Word32, r: Routines, q: Routines)
    requires Counterparts(j, k, r, q) && Alike(s, t) && SameCalls(j, k, s.calls, t.calls)
    requires (to == j.find && other == k.find) || (to == j.deal && other == k.deal)
    ensures Alike(CallOut(r, to, s), CallOut(q, other, t))
    ensures CallOut(r, to, s).pc == s.pc + 4 && CallOut(q, other, t).pc == t.pc + 4
    ensures SameCalls(j, k, CallOut(r, to, s).calls, CallOut(q, other, t).calls)
  {
    var a := s.(calls := s.calls + [Call(to, s.gpr[3..11])]);
    var b := t.(calls := t.calls + [Call(other, t.gpr[3..11])]);
    assert Alike(a, b);
    assert r(to, a) == q(other, b);
  }

  /** Away from the renamed instructions a step keeps the lockstep. */
  lemma PlainStep(j: JoinSite, k: JoinSite, s: State, t: State, i: Instr, r: Routines, q: Routines)
    requires InRange(j) && InRange(k) && Lockstep(j, k, s, t) && Plain(i)
    requires 0 <= s.pc - j.base < 112 && s.pc - j.base !in {8, 12, 16}
    requires s.pc - j.base < 8 ==> SearchesLater(i)
    ensures Lockstep(j, k, Exec(i, s, r), Exec(i, t, q))
  {
    hide Exec, Plain, FriendsManager3;
    SameExec(i, s, t, r, q);
  }

  /** `lis` */
  lemma HighStep(j: JoinSite, k: JoinSite, s: State, t: State, r: Routines, q: Routines)
    requires InRange(j) && InRange(k) && Lockstep(j, k, s, t) && s.pc - j.base == 8
    ensures Lockstep(j, k, Exec(Lis(3, j.high), s, r), Exec(Lis(3, k.high), t, q))
  {
    hide Exec, FriendsManager3, SameCalls;
    DoLis(s, 3, j.high, r);
    DoLis(t, 3, k.high, q);
  }

  /** `subic` */
  lemma LowStep(j: JoinSite, k: JoinSite, s: State, t: State, r: Routines, q: Routines)
    requires InRange(j) && InRange(k) && Lockstep(j, k, s, t) && s.pc - j.base == 12
    ensures Lockstep(j, k, Exec(Subic(3, 3, j.low), s, r), Exec(Subic(3, 3, k.low), t, q))
  {
    hide Exec, FriendsManager3, SameCalls;
    var low: int, other: int := j.low, k.low;
    DoSubic(s, 3, 3, -low, r);
    DoSubic(t, 3, 3, -other, q);
  }

  /** `lwz` of the friends manager: from here on the registers agree. */
  lemma LoadStep(j: JoinSite, k: JoinSite, s: State, t: State, r: Routines, q: Routines)
    requires InRange(j) && InRange(k) && Lockstep(j, k, s, t) && s.pc - j.base == 16
    ensures Lockstep(j, k, Exec(Lwz(3, 0x1c, 3), s, r), Exec(Lwz(3, 0x1c, 3), t, q))
  {
    hide Exec, Word, SameCalls;
    DoLwz(s, 3, 0x1c, 3, r);
    DoLwz(t, 3, 0x1c, 3, q);
    Loaded(j, s);
    Loaded(k, t);
  }

  lemma Loaded(j: JoinSite, s: State)
    requires InRange(j) && s.gpr[3] == Address(j, 16)
    ensures Word(s.mem, Low64(Base(s, 3) + 0x1c)) == FriendsManager3(j, s.mem)
  {
    hide Word;
  }

  /** A call of one of the two routines. */
  lemma CallStep(j: JoinSite, k: JoinSite, s: State, t: State, to: Word32, other: Word32, r: Routines, q: Routines)
    requires InRange(j) && InRange(k) && Lockstep(j, k, s, t) && Counterparts(j, k, r, q) && s.pc - j.base > 16
    requires (to == j.find && other == k.find) || (to == j.deal && other == k.deal)
    ensures Lockstep(j, k, Exec(Bla(to), s, r), Exec(Bla(other), t, q))
  {
    hide Exec, SameCalls, Counterparts, FriendsManager3, CallOut;
    SameCall(j, k, s, t, to, other, r, q);
    DoAbsolute(s, to, r);
    DoAbsolute(t, other, q);
  }

  /** One instruction of each version. */
  lemma StepTogether(j: JoinSite, k: JoinSite, n: nat, s: State, t: State, r: Routines, q: Routines)
    requires InRange(j) && InRange(k) && Lockstep(j, k, s, t) && Counterparts(j, k, r, q)
    requires n < 28 && s.pc == j.base + 4 * n
    ensures Lockstep(j, k, Exec(Program(j)[n], s, r), Exec(Program(k)[n], t, q))
  {
    hide Exec, Lockstep, Counterparts, Plain, SearchesLater;
    if n == 2 {
      HighStep(j, k, s, t, r, q);
    } else if n == 3 {
      LowStep(j, k, s, t, r, q);
    } else if n == 4 {
      LoadStep(j, k, s, t, r, q);
    } else if n == 7 {
      CallStep(j, k, s, t, j.find, k.find, r, q);
    } else if n == 23 {
      CallStep(j, k, s, t, j.deal, k.deal, r, q);
    } else {
      hide Program;
      SameProgram(j, k, n);
      PlainProgram(j, n);
      PlainStep(j, k, s, t, Program(j)[n], r, q);
    }
  }

  /** One step of each version. */
  lemma StepsMatch(code: Mem, other: Mem, j: JoinSite, k: JoinSite, s: State, t: State, r: Routines, q: Routines)
    requires InRange(j) && InRange(k) && Installed(code, j.base, Program(j)) && Installed(other, k.base, Program(k))
    requires Lockstep(j, k, s, t) && Counterparts(j, k, r, q) && JoinRegion(j).Has(s.pc)
    ensures Step(code, s, r).Some? && Step(other, t, q).Some?
    ensures Lockstep(j, k, Step(code, s, r).value, Step(other, t, q).value)
  {
    hide Installed, Fetch, Exec, Counterparts, LBP3Join, SameRegisters, SameCalls, FriendsManager3;
    var n := (s.pc - j.base) / 4;
    ProgramLength(j);
    ProgramLength(k);
    Fetches(code, j.base, Program(j), n);
    Fetches(other, k.base, Program(k), n);
    StepTogether(j, k, n, s, t, r, q);
  }

  lemma ProgramLength(j: JoinSite)
    ensures |Program(j)| == 28
  {
  }

  /**
  After any number of instructions both versions are still running, in lockstep, or both have left the
  program: for all states that start together and all routines that correspond.
   */
  lemma {:induction false} RunTogether(code: Mem, other: Mem, j: JoinSite, k: JoinSite, s: State, t: State,
                                       r: Routines, q: Routines, n: nat)
    requires InRange(j) && InRange(k) && Installed(code, j.base, Program(j)) && Installed(other, k.base, Program(k))
    requires Lockstep(j, k, s, t) && Counterparts(j, k, r, q)
    ensures match (Run(code, JoinRegion(j), s, r, n), Run(other, JoinRegion(k), t, q, n))
            case (Some(u), Some(v)) => Lockstep(j, k, u, v)
            case (None, None) => true
            case _ => false
    decreases n
  {
    hide Installed, Step, Counterparts, Program;
    SameRegion(j, k, s, t);
    hide Lockstep;
    if n > 0 && JoinRegion(j).Has(s.pc) {
      StepsMatch(code, other, j, k, s, t, r, q);
      RunTogether(code, other, j, k, Step(code, s, r).value, Step(other, t, q).value, r, q, n - 1);
    }
  }

  lemma SameRegion(j: JoinSite, k: JoinSite, s: State, t: State)
    requires InRange(j) && InRange(k) && Lockstep(j, k, s, t)
    ensures JoinRegion(j).Has(s.pc) <==> JoinRegion(k).Has(t.pc)
  {
  }

  /** The runs of the two versions leave together, at the same place past their bases. */
  lemma LeaveTogether(code: Mem, other: Mem, j: JoinSite, k: JoinSite, s: State, t: State,
                      r: Routines, q: Routines, u: State)
    requires InRange(j) && InRange(k) && Installed(code, j.base, Program(j)) && Installed(other, k.base, Program(k))
    requires Lockstep(j, k, s, t) && Counterparts(j, k, r, q) && Leaves(code, JoinRegion(j), s, r, u)
    ensures exists v :: Leaves(other, JoinRegion(k), t, q, v) && Lockstep(j, k, u, v)
  {
    hide Installed, Counterparts, Program, Run, Lockstep;
    var n: nat :| Run(code, JoinRegion(j), s, r, n) == Some(u);
    RunTogether(code, other, j, k, s, t, r, q, n);
    var v := Run(other, JoinRegion(k), t, q, n).value;
    SameRegion(j, k, u, v);
    assert Leaves(other, JoinRegion(k), t, q, v);
  }

  /** The shipped pair: LBP3 and LBP3JP leave their join programs together. */
  lemma ShippedVersionsLeaveTogether(code: Mem, other: Mem, s: State, t: State, r: Routines, q: Routines, u: State)
    requires Installed(code, LBP3_JOIN.base, LBP3_FORCE_JOIN) && Installed(other, LBP3_JP_JOIN.base, LBP3_JP_FORCE_JOIN)
    requires s.pc == LBP3_JOIN.base && t.pc == LBP3_JP_JOIN.base && Alike(s, t) && s.calls == [] && t.calls == []
    requires FriendsManager3(LBP3_JOIN, s.mem) == FriendsManager3(LBP3_JP_JOIN, t.mem)
    requires Counterparts(LBP3_JOIN, LBP3_JP_JOIN, r, q) && Leaves(code, JoinRegion(LBP3_JOIN), s, r, u)
    ensures exists v :: Leaves(other, JoinRegion(LBP3_JP_JOIN), t, q, v) && Lockstep(LBP3_JOIN, LBP3_JP_JOIN, u, v)
  {
    hide Installed, Counterparts, Leaves, FriendsManager3, LBP3Join;
    LeaveTogether(code, other, LBP3_JOIN, LBP3_JP_JOIN, s, t, r, q, u);
  }
}
