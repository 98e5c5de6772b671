/** A small-step machine for the instructions of the hooks. */
module Machine {
  import opened Memory
  import opened PowerPC
  import opened Wrappers

  /** One condition register field. */
  datatype Cond = Cond(lt: bool, gt: bool, eq: bool, so: bool)

  type Gprs = g: seq<Word64> | |g| == 32 witness seq(32, _ => 0)

  type Conds = c: seq<Cond> | |c| == 8 witness seq(8, _ => Cond(false, false, false, false))

  /** A call made: the target and the argument registers r3 to r10. */
  datatype Call = Call(target: int, args: seq<Word64>)

  datatype State = State(pc: int, gpr: Gprs, cr: Conds, ca: bool, so: bool, mem: Mem, calls: seq<Call>)

  /** What a called routine leaves behind; it is free in everything but the non-volatile registers. */
  datatype Effect = Effect(gpr: Gprs, cr: Conds, ca: bool, so: bool, mem: Mem)

  /** The routines of the game: the effect of calling an address in a state, otherwise arbitrary. */
  type Routines = (int, State) -> Effect

  /** r1, r2 and r13 to r31, and the condition fields 2 to 4, survive a call. */
  predicate KeptGpr(r: int) { r == 1 || r == 2 || r >= 13 }

  predicate KeptCond(f: int) { 2 <= f <= 4 }

  function CallOut(routines: Routines, target: int, s: State): State {
    var after := s.(calls := s.calls + [Call(target, s.gpr[3..11])]);
    var r := routines(target, after);
    after.(pc := s.pc + 4,
           gpr := seq(32, i requires 0 <= i < 32 => if KeptGpr(i) then s.gpr[i] else r.gpr[i]),
           cr := seq(8, i requires 0 <= i < 8 => if KeptCond(i) then s.cr[i] else r.cr[i]),
           ca := r.ca, so := r.so, mem := r.mem)
  }

  /**
  Any contents of the volatile registers and of memory are what some routine leaves; it cannot touch r1, r2, r13 to
  r31 and the condition fields 2 to 4, and it returns to the next instruction.
   */
  lemma CalleeIsFree(target: int, s: State, e: Effect)
    ensures var t := CallOut((_, _) => e, target, s);
            && t.pc == s.pc + 4 && t.mem == e.mem && t.ca == e.ca && t.so == e.so
            && (forall i :: i == 0 || 3 <= i <= 12 ==> t.gpr[i] == e.gpr[i])
            && (forall i :: 1 <= i <= 2 || 13 <= i <= 31 ==> t.gpr[i] == s.gpr[i])
            && (forall i :: 0 <= i <= 1 || 5 <= i <= 7 ==> t.cr[i] == e.cr[i])
            && (forall i :: 2 <= i <= 4 ==> t.cr[i] == s.cr[i])
  {
  }

  /** Addresses wrap at 2^64. */
  lemma AddressWraps(x: int)
    ensures Low64(x) == x % 0x1_0000_0000_0000_0000
  {
  }

  /** Bitwise or. */
  function BitOr(x: nat, y: nat): nat
    decreases x + y
  {
    if x == 0 then y else if y == 0 then x else 2 * BitOr(x / 2, y / 2) + (if x % 2 == 1 || y % 2 == 1 then 1 else 0)
  }

  function ShiftLeft(x: nat, n: nat): nat { if n == 0 then x else 2 * ShiftLeft(x, n - 1) }

  function ShiftRight(x: nat, n: nat): nat { if n == 0 then x else ShiftRight(x / 2, n - 1) }

  /** The low `n` bits. */
  function LowBits(x: nat, n: nat): nat { if n == 0 then 0 else 2 * LowBits(x / 2, n - 1) + x % 2 }

  /** Rotate left within `width` bits. */
  function Rotate(x: nat, n: nat, width: nat): nat
    requires n <= width
  {
    LowBits(ShiftLeft(x, n), width) + ShiftRight(x, width - n)
  }

  /**
  Bits `mb` to `me` of a rotated word, the most significant being bit 0, kept in place. The rotated word stands in
  both halves of the register, and a range that wraps covers the upper half.
   */
  function MaskWord(x: nat, mb: Reg, me: Reg): nat
    decreases mb > me
  {
    if mb <= me then ShiftLeft(LowBits(ShiftRight(x, 31 - me), me - mb + 1), 31 - me)
    else ShiftLeft(x, 32) + MaskWord(x, 0, me) + MaskWord(x, mb, 31)
  }

  /** (rA|0) */
  function Base(s: State, ra: Reg): Word64 { if ra == 0 then 0 else s.gpr[ra] }

  function Put(s: State, r: Reg, x: int): State { s.(pc := s.pc + 4, gpr := s.gpr[r := Low64(x)]) }

  function Compare(a: int, b: int, so: bool): Cond { Cond(a < b, a > b, a == b, so) }

  predicate CondBit(s: State, bi: Reg) {
    var c := s.cr[bi / 4];
    if bi % 4 == 0 then c.lt else if bi % 4 == 1 then c.gt else if bi % 4 == 2 then c.eq else c.so
  }

  /** The effect of one instruction. */
  function Exec(i: Instr, s: State, routines: Routines): State
  {
    match i
    case Addi(rt, ra, si) => Put(s, rt, Base(s, ra) + si)
    case Addis(rt, ra, si) => Put(s, rt, Base(s, ra) + si * 0x1_0000)
    case Addic(rt, ra, si) => Put(s, rt, s.gpr[ra] + si).(ca := s.gpr[ra] + Low64(si) >= TWO_64)
    case Ori(ra, rs, ui) => Put(s, ra, BitOr(s.gpr[rs], ui))
    case Lwz(rt, d, ra) => Put(s, rt, Word(s.mem, Low64(Base(s, ra) + d)))
    case Lbz(rt, d, ra) => Put(s, rt, s.mem(Low64(Base(s, ra) + d)))
    case Cmpwi(bf, ra, si) =>
      s.(pc := s.pc + 4, cr := s.cr[bf := Compare(Signed32(Low32(s.gpr[ra])), si, s.so)])
    case Bc(onTrue, bi, bd) => s.(pc := if CondBit(s, bi) == onTrue then s.pc + bd else s.pc + 4)
    case B(li, aa, lk) =>
      var target := Low64(if aa then li else s.pc + li);
      if lk then CallOut(routines, target, s) else s.(pc := target)
    case Or(ra, rs, rb) => Put(s, ra, BitOr(s.gpr[rs], s.gpr[rb]))
    case Rlwinm(ra, rs, sh, mb, me) => Put(s, ra, MaskWord(Rotate(Low32(s.gpr[rs]), sh, 32), mb, me))
    case Rldicl(ra, rs, sh, mb) => Put(s, ra, LowBits(Rotate(s.gpr[rs], sh, 64), 64 - mb))
  }

  /** The code, as it is at the start of the run, at an address. */
  function Fetch(code: Mem, pc: int): Option<Instr> { Decode(Word(code, pc)) }

  function Step(code: Mem, s: State, routines: Routines): Option<State> {
    match Fetch(code, s.pc)
    case None => None
    case Some(i) => Some(Exec(i, s, routines))
  }

  /** The code a run may pass through: an entry instruction, and a stretch from `from` up to `to`. */
  datatype Region = Region(entry: int, from: int, to: int) {
    predicate Has(pc: int) { pc == entry || from <= pc < to }
  }

  /** Running `n` instructions, all of them inside the region. */
  function Run(code: Mem, region: Region, s: State, routines: Routines, n: nat): Option<State>
    decreases n
  {
    if n == 0 then Some(s)
    else if !region.Has(s.pc) then None
    else match Step(code, s, routines)
      case None => None
      case Some(t) => Run(code, region, t, routines, n - 1)
  }

  /** The run from `s` leaves the region, for the first time, in state `t`. */
  ghost predicate Leaves(code: Mem, region: Region, s: State, routines: Routines, t: State) {
    !region.Has(t.pc) && exists n: nat :: Run(code, region, s, routines, n) == Some(t)
  }

  /** A run leaves a region in one way only. */
  lemma LeavesOnce(code: Mem, region: Region, s: State, routines: Routines, t: State, u: State)
    requires Leaves(code, region, s, routines, t) && Leaves(code, region, s, routines, u)
    ensures t == u
  {
    var m: nat :| Run(code, region, s, routines, m) == Some(t);
    var n: nat :| Run(code, region, s, routines, n) == Some(u);
    SameLength(code, region, s, routines, m, n);
  }

  lemma {:induction false} SameLength(code: Mem, region: Region, s: State, routines: Routines, m: nat, n: nat)
    requires Run(code, region, s, routines, m).Some? && !region.Has(Run(code, region, s, routines, m).value.pc)
    requires Run(code, region, s, routines, n).Some? && !region.Has(Run(code, region, s, routines, n).value.pc)
    ensures m == n
    decreases m
  {
    hide Step;
    if region.Has(s.pc) {
      SameLength(code, region, Step(code, s, routines).value, routines, m - 1, n - 1);
    }
  }

  // ----- programs in memory -----

  /** The program stands in memory at `at`, one word an instruction. */
  ghost predicate Installed(code: Mem, at: int, program: seq<Instr>) {
    forall i :: 0 <= i < |program| ==> Encodable(program[i]) && Word(code, at + 4 * i) == Encode(program[i])
  }

  /** A state outside the region is where the run ends. */
  lemma Ends(code: Mem, region: Region, t: State, routines: Routines)
    requires !region.Has(t.pc)
    ensures Leaves(code, region, t, routines, t)
  {
    assert Run(code, region, t, routines, 0) == Some(t);
  }

  /** Where a step leads, the run leads. */
  lemma Follows(code: Mem, region: Region, s: State, routines: Routines, t: State)
    requires region.Has(s.pc) && Step(code, s, routines).Some?
    requires Leaves(code, region, Step(code, s, routines).value, routines, t)
    ensures Leaves(code, region, s, routines, t)
  {
    var u := Step(code, s, routines).value;
    var n: nat :| Run(code, region, u, routines, n) == Some(t);
    assert Run(code, region, s, routines, n + 1) == Some(t);
  }

  /** An installed program is what the machine fetches. */
  lemma Fetches(code: Mem, at: int, program: seq<Instr>, k: nat)
    requires Installed(code, at, program) && k < |program|
    ensures Fetch(code, at + 4 * k) == Some(program[k])
  {
    hide Encode, Decode;
    DecodeEncode(program[k]);
  }

  /** Four instructions in a row. */
  lemma Fetches4(code: Mem, at: int, program: seq<Instr>, k: nat)
    requires Installed(code, at, program) && k + 4 <= |program|
    ensures Fetch(code, at + 4 * k) == Some(program[k]) && Fetch(code, at + 4 * k + 4) == Some(program[k + 1])
    ensures Fetch(code, at + 4 * k + 8) == Some(program[k + 2]) && Fetch(code, at + 4 * k + 12) == Some(program[k + 3])
  {
    hide *;
    Fetches(code, at, program, k);
    Fetches(code, at, program, k + 1);
    Fetches(code, at, program, k + 2);
    Fetches(code, at, program, k + 3);
  }

  /** Two programs, one after the other. */
  lemma InstalledParts(code: Mem, at: int, program: seq<Instr>, next: seq<Instr>)
    requires Installed(code, at, program + next)
    ensures Installed(code, at, program) && Installed(code, at + 4 * |program|, next)
  {
    hide Encodable, Encode, Word;
    var both := program + next;
    assert forall i :: 0 <= i < |program| ==> both[i] == program[i];
    forall i | 0 <= i < |next|
      ensures Encodable(next[i]) && Word(code, at + 4 * |program| + 4 * i) == Encode(next[i])
    {
      assert both[|program| + i] == next[i];
    }
  }

  /** One instruction. */
  lemma Goes(code: Mem, region: Region, s: State, i: Instr, routines: Routines, t: State)
    requires region.Has(s.pc) && Fetch(code, s.pc) == Some(i)
    requires Leaves(code, region, Exec(i, s, routines), routines, t)
    ensures Leaves(code, region, s, routines, t)
  {
    hide Fetch, Exec, Leaves;
    Follows(code, region, s, routines, t);
  }

  lemma {:induction false} ShiftRightSum(x: nat, m: nat, n: nat)
    ensures ShiftRight(x, m + n) == ShiftRight(ShiftRight(x, m), n)
    decreases m
  {
    if m > 0 { ShiftRightSum(x / 2, m - 1, n); }
  }

  lemma {:induction false} ShiftLeftSum(x: nat, m: nat, n: nat)
    ensures ShiftLeft(x, m + n) == ShiftLeft(ShiftLeft(x, n), m)
    decreases m
  {
    if m > 0 { ShiftLeftSum(x, m - 1, n); }
  }

  lemma {:induction false} Recompose(x: nat, n: nat)
    ensures x == ShiftLeft(ShiftRight(x, n), n) + LowBits(x, n)
    decreases n
  {
    if n > 0 { Recompose(x / 2, n - 1); }
  }

  /** Shifts by whole bytes divide and multiply. */
  lemma ShiftByte(x: nat)
    ensures ShiftRight(x, 8) == x / 0x100 && ShiftLeft(x, 8) == 0x100 * x
  {
    ShiftTwo(x);
    ShiftTwo(x / 2 / 2);
    ShiftTwo(x / 2 / 2 / 2 / 2);
    ShiftTwo(x / 2 / 2 / 2 / 2 / 2 / 2);
    ShiftRightSum(x, 2, 6);
    ShiftRightSum(x / 2 / 2, 2, 4);
    ShiftRightSum(x / 2 / 2 / 2 / 2, 2, 2);
    ShiftTwo(4 * x);
    ShiftTwo(16 * x);
    ShiftTwo(64 * x);
    ShiftLeftSum(x, 6, 2);
    ShiftLeftSum(4 * x, 4, 2);
    ShiftLeftSum(16 * x, 2, 2);
  }

  lemma ShiftTwo(x: nat)
    ensures ShiftRight(x, 2) == x / 2 / 2 && ShiftLeft(x, 2) == 4 * x
  {
    assert ShiftRight(x / 2, 1) == x / 2 / 2;
    assert ShiftLeft(x, 1) == 2 * x;
  }

  lemma ShiftWord(x: nat)
    ensures ShiftRight(x, 32) == x / 0x1_0000_0000 && ShiftLeft(x, 32) == 0x1_0000_0000 * x
  {
    var x1 := x / 0x100;
    var x2 := x1 / 0x100;
    ShiftByte(x);
    ShiftByte(x1);
    ShiftByte(x2);
    ShiftByte(x2 / 0x100);
    ShiftRightSum(x, 8, 24);
    ShiftRightSum(x1, 8, 16);
    ShiftRightSum(x2, 8, 8);
    ShiftByte(0x100 * x);
    ShiftByte(0x1_0000 * x);
    ShiftByte(0x100_0000 * x);
    ShiftLeftSum(x, 24, 8);
    ShiftLeftSum(0x100 * x, 16, 8);
    ShiftLeftSum(0x1_0000 * x, 8, 8);
  }

  /** `rlwinm rA,rS,0,24,31` keeps the low byte. */
  lemma ClearToByte(x: Word32)
    ensures MaskWord(Rotate(x, 0, 32), 24, 31) == x % 0x100
  {
    ShiftWord(x);
    ShiftWord(0);
    Recompose(x, 32);
    assert ShiftLeft(x, 0) == x && ShiftRight(x, 0) == x;
    assert Rotate(x, 0, 32) == x;
    assert MaskWord(x, 24, 31) == LowBits(x, 8);
    ShiftByte(x);
    ShiftByte(x / 0x100);
    Recompose(x, 8);
  }

  /** `rldicl rA,rS,0,32` keeps the low word. */
  lemma ClearToWord(x: Word64)
    ensures LowBits(Rotate(x, 0, 64), 32) == Low32(x)
  {
    var high := x / 0x1_0000_0000;
    ShiftWord(x);
    ShiftWord(high);
    ShiftRightSum(x, 32, 32);
    ShiftWord(0);
    ShiftLeftSum(0, 32, 32);
    Recompose(x, 64);
    assert ShiftLeft(x, 0) == x;
    assert Rotate(x, 0, 64) == x;
    Recompose(x, 32);
  }

  lemma {:induction false} OrSelf(x: nat)
    ensures BitOr(x, x) == x
  {
    if x > 0 { OrSelf(x / 2); }
  }

  /** `ori` onto a register whose low half-word is clear adds. */
  lemma OrLow(x: nat, y: Half)
    requires x % 0x1_0000 == 0
    ensures BitOr(x, y) == x + y
  {
    var h := x / 0x1_0000;
    ShiftByte(1);
    ShiftByte(0x100);
    ShiftLeftSum(1, 8, 8);
    ShiftByte(h);
    ShiftByte(0x100 * h);
    ShiftLeftSum(h, 8, 8);
    OrDisjoint(h, y, 16);
  }

  lemma {:induction false} OrDisjoint(h: nat, y: nat, n: nat)
    requires y < ShiftLeft(1, n)
    ensures BitOr(ShiftLeft(h, n), y) == ShiftLeft(h, n) + y
    decreases n
  {
    if n > 0 { OrDisjoint(h, y / 2, n - 1); }
  }

  // ----- the effect of the instructions, as the hooks use them -----

  function Set(s: State, r: Reg, x: Word64): State { s.(pc := s.pc + 4, gpr := s.gpr[r := x]) }

  function SetCond(s: State, f: CondField, x: int, si: int): State {
    s.(pc := s.pc + 4, cr := s.cr[f := Compare(x, si, s.so)])
  }

  /** Small values are their own low words. */
  lemma SmallIs(x: Word64)
    ensures Low64(x) == x && (x < 0x8000_0000 ==> Signed32(Low32(x)) == x)
  {
  }

  lemma PutSmall(s: State, r: Reg, x: Word64)
    ensures Put(s, r, x) == Set(s, r, x)
  {
    assert Low64(x) == x;
  }

  lemma DoLwz(s: State, rt: Reg, d: int, ra: Reg, routines: Routines)
    ensures Exec(Lwz(rt, d, ra), s, routines) == Set(s, rt, Word(s.mem, Low64(Base(s, ra) + d)))
  {
    PutSmall(s, rt, Word(s.mem, Low64(Base(s, ra) + d)));
  }

  lemma DoLbz(s: State, rt: Reg, d: int, ra: Reg, routines: Routines)
    ensures Exec(Lbz(rt, d, ra), s, routines) == Set(s, rt, s.mem(Low64(Base(s, ra) + d)))
  {
    PutSmall(s, rt, s.mem(Low64(Base(s, ra) + d)));
  }

  lemma DoLi(s: State, rt: Reg, si: Half, routines: Routines)
    ensures Exec(Addi(rt, 0, si), s, routines) == Set(s, rt, si)
  {
    PutSmall(s, rt, si);
  }

  lemma DoLis(s: State, rt: Reg, si: Half, routines: Routines)
    ensures Exec(Addis(rt, 0, si), s, routines) == Set(s, rt, si * 0x1_0000)
  {
    PutSmall(s, rt, si * 0x1_0000);
  }

  lemma DoClearWord(s: State, ra: Reg, rs: Reg, routines: Routines)
    ensures Exec(Rldicl(ra, rs, 0, 32), s, routines) == Set(s, ra, Low32(s.gpr[rs]))
  {
    ClearToWord(s.gpr[rs]);
    PutSmall(s, ra, Low32(s.gpr[rs]));
  }

  /** The low byte of a register. */
  function Low8(x: Word64): Byte { x % 0x100 }

  lemma LowParts(x: Word64)
    ensures Low8(x) == x % 0x100 && Low32(x) == x % 0x1_0000_0000
  {
  }

  lemma DoClearByte(s: State, ra: Reg, rs: Reg, routines: Routines)
    ensures Exec(Rlwinm(ra, rs, 0, 24, 31), s, routines) == Set(s, ra, Low8(s.gpr[rs]))
  {
    hide MaskWord, Rotate;
    ClearToByte(Low32(s.gpr[rs]));
    assert Low32(s.gpr[rs]) % 0x100 == s.gpr[rs] % 0x100;
    PutSmall(s, ra, Low8(s.gpr[rs]));
  }

  lemma DoMove(s: State, ra: Reg, rs: Reg, routines: Routines)
    ensures Exec(Or(ra, rs, rs), s, routines) == Set(s, ra, s.gpr[rs])
    ensures Exec(Ori(ra, rs, 0), s, routines) == Set(s, ra, s.gpr[rs])
  {
    OrSelf(s.gpr[rs]);
    PutSmall(s, ra, s.gpr[rs]);
    hide BitOr, Put;
    assert BitOr(s.gpr[rs], 0) == s.gpr[rs] by { OrZero(s.gpr[rs]); }
  }

  lemma OrZero(x: nat)
    ensures BitOr(x, 0) == x
  {
  }

  lemma DoOri(s: State, ra: Reg, rs: Reg, ui: Half, routines: Routines)
    requires s.gpr[rs] % 0x1_0000 == 0 && s.gpr[rs] < 0x1_0000_0000
    ensures Exec(Ori(ra, rs, ui), s, routines) == Set(s, ra, s.gpr[rs] + ui)
  {
    OrLow(s.gpr[rs], ui);
    PutSmall(s, ra, s.gpr[rs] + ui);
    hide BitOr;
  }

  lemma DoCmpwi(s: State, f: CondField, ra: Reg, si: int, routines: Routines)
    ensures Exec(Cmpwi(f, ra, si), s, routines) == SetCond(s, f, Signed32(Low32(s.gpr[ra])), si)
  {
  }

  /** A branch on the eq bit of a field. */
  lemma DoBranchEq(s: State, onTrue: bool, f: CondField, bd: int, routines: Routines)
    ensures Exec(Bc(onTrue, 4 * f + 2, bd), s, routines)
         == s.(pc := if s.cr[f].eq == onTrue then s.pc + bd else s.pc + 4)
  {
    assert (4 * f + 2) / 4 == f && (4 * f + 2) % 4 == 2;
  }

  /** A branch on the gt bit of a field. */
  lemma DoBranchGt(s: State, onTrue: bool, f: CondField, bd: int, routines: Routines)
    ensures Exec(Bc(onTrue, 4 * f + 1, bd), s, routines)
         == s.(pc := if s.cr[f].gt == onTrue then s.pc + bd else s.pc + 4)
  {
    assert (4 * f + 1) / 4 == f && (4 * f + 1) % 4 == 1;
  }

  /** An absolute branch, and an absolute call. */
  lemma DoAbsolute(s: State, target: Word32, routines: Routines)
    ensures Exec(B(target, true, false), s, routines) == s.(pc := target)
    ensures Exec(B(target, true, true), s, routines) == CallOut(routines, target, s)
  {
    assert Low64(target) == target;
    hide CallOut;
  }

  lemma DoRelative(s: State, li: int, routines: Routines)
    requires 0 <= s.pc + li < TWO_64
    ensures Exec(B(li, false, false), s, routines) == s.(pc := s.pc + li)
  {
    assert Low64(s.pc + li) == s.pc + li;
  }

  /** `subic` from a register that holds more. */
  lemma DoSubic(s: State, rt: Reg, ra: Reg, si: int, routines: Routines)
    requires si < 0 && 0 <= s.gpr[ra] + si && -0x8000 <= si
    ensures Exec(Addic(rt, ra, si), s, routines) == Set(s, rt, s.gpr[ra] + si).(ca := true)
  {
    PutSmall(s, rt, s.gpr[ra] + si);
    assert Low64(si) == si + TWO_64;
  }

  // ----- one instruction of a run -----

  lemma GoLwz(code: Mem, region: Region, s: State, rt: Reg, d: int, ra: Reg, routines: Routines, t: State)
    requires region.Has(s.pc) && Fetch(code, s.pc) == Some(Lwz(rt, d, ra))
    requires Leaves(code, region, Set(s, rt, Word(s.mem, Low64(Base(s, ra) + d))), routines, t)
    ensures Leaves(code, region, s, routines, t)
  {
    hide *;
    DoLwz(s, rt, d, ra, routines);
    Goes(code, region, s, Lwz(rt, d, ra), routines, t);
  }

  lemma GoLbz(code: Mem, region: Region, s: State, rt: Reg, d: int, ra: Reg, routines: Routines, t: State)
    requires region.Has(s.pc) && Fetch(code, s.pc) == Some(Lbz(rt, d, ra))
    requires Leaves(code, region, Set(s, rt, s.mem(Low64(Base(s, ra) + d))), routines, t)
    ensures Leaves(code, region, s, routines, t)
  {
    hide *;
    DoLbz(s, rt, d, ra, routines);
    Goes(code, region, s, Lbz(rt, d, ra), routines, t);
  }

  lemma GoLi(code: Mem, region: Region, s: State, rt: Reg, si: Half, routines: Routines, t: State)
    requires region.Has(s.pc) && Fetch(code, s.pc) == Some(Addi(rt, 0, si))
    requires Leaves(code, region, Set(s, rt, si), routines, t)
    ensures Leaves(code, region, s, routines, t)
  {
    hide *;
    DoLi(s, rt, si, routines);
    Goes(code, region, s, Addi(rt, 0, si), routines, t);
  }

  lemma GoLis(code: Mem, region: Region, s: State, rt: Reg, si: Half, routines: Routines, t: State)
    requires region.Has(s.pc) && Fetch(code, s.pc) == Some(Addis(rt, 0, si))
    requires Leaves(code, region, Set(s, rt, si * 0x1_0000), routines, t)
    ensures Leaves(code, region, s, routines, t)
  {
    hide *;
    DoLis(s, rt, si, routines);
    Goes(code, region, s, Addis(rt, 0, si), routines, t);
  }

  lemma GoSubic(code: Mem, region: Region, s: State, rt: Reg, ra: Reg, si: int, routines: Routines, t: State)
    requires region.Has(s.pc) && Fetch(code, s.pc) == Some(Addic(rt, ra, si))
    requires si < 0 && 0 <= s.gpr[ra] + si && -0x8000 <= si
    requires Leaves(code, region, Set(s, rt, s.gpr[ra] + si).(ca := true), routines, t)
    ensures Leaves(code, region, s, routines, t)
  {
    hide *;
    DoSubic(s, rt, ra, si, routines);
    Goes(code, region, s, Addic(rt, ra, si), routines, t);
  }

  lemma GoOri(code: Mem, region: Region, s: State, ra: Reg, rs: Reg, ui: Half, routines: Routines, t: State)
    requires region.Has(s.pc) && Fetch(code, s.pc) == Some(Ori(ra, rs, ui))
    requires s.gpr[rs] % 0x1_0000 == 0 && s.gpr[rs] < 0x1_0000_0000
    requires Leaves(code, region, Set(s, ra, s.gpr[rs] + ui), routines, t)
    ensures Leaves(code, region, s, routines, t)
  {
    hide *;
    DoOri(s, ra, rs, ui, routines);
    Goes(code, region, s, Ori(ra, rs, ui), routines, t);
  }

  lemma GoMove(code: Mem, region: Region, s: State, ra: Reg, rs: Reg, i: Instr, routines: Routines, t: State)
    requires region.Has(s.pc) && Fetch(code, s.pc) == Some(i)
    requires i == Or(ra, rs, rs) || i == Ori(ra, rs, 0)
    requires Leaves(code, region, Set(s, ra, s.gpr[rs]), routines, t)
    ensures Leaves(code, region, s, routines, t)
  {
    hide *;
    DoMove(s, ra, rs, routines);
    Goes(code, region, s, i, routines, t);
  }

  lemma GoClearWord(code: Mem, region: Region, s: State, ra: Reg, rs: Reg, routines: Routines, t: State)
    requires region.Has(s.pc) && Fetch(code, s.pc) == Some(Rldicl(ra, rs, 0, 32))
    requires Leaves(code, region, Set(s, ra, Low32(s.gpr[rs])), routines, t)
    ensures Leaves(code, region, s, routines, t)
  {
    hide *;
    DoClearWord(s, ra, rs, routines);
    Goes(code, region, s, Rldicl(ra, rs, 0, 32), routines, t);
  }

  lemma GoClearByte(code: Mem, region: Region, s: State, ra: Reg, rs: Reg, routines: Routines, t: State)
    requires region.Has(s.pc) && Fetch(code, s.pc) == Some(Rlwinm(ra, rs, 0, 24, 31))
    requires Leaves(code, region, Set(s, ra, Low8(s.gpr[rs])), routines, t)
    ensures Leaves(code, region, s, routines, t)
  {
    hide *;
    DoClearByte(s, ra, rs, routines);
    Goes(code, region, s, Rlwinm(ra, rs, 0, 24, 31), routines, t);
  }

  lemma GoCmpwi(code: Mem, region: Region, s: State, f: CondField, ra: Reg, si: int, routines: Routines, t: State)
    requires region.Has(s.pc) && Fetch(code, s.pc) == Some(Cmpwi(f, ra, si))
    requires Leaves(code, region, SetCond(s, f, Signed32(Low32(s.gpr[ra])), si), routines, t)
    ensures Leaves(code, region, s, routines, t)
  {
    hide *;
    DoCmpwi(s, f, ra, si, routines);
    Goes(code, region, s, Cmpwi(f, ra, si), routines, t);
  }

  lemma GoBranchEq(code: Mem, region: Region, s: State, onTrue: bool, f: CondField, bd: int, routines: Routines,
                   t: State)
    requires region.Has(s.pc) && Fetch(code, s.pc) == Some(Bc(onTrue, 4 * f + 2, bd))
    requires Leaves(code, region, s.(pc := if s.cr[f].eq == onTrue then s.pc + bd else s.pc + 4), routines, t)
    ensures Leaves(code, region, s, routines, t)
  {
    hide *;
    DoBranchEq(s, onTrue, f, bd, routines);
    Goes(code, region, s, Bc(onTrue, 4 * f + 2, bd), routines, t);
  }

  lemma GoBranchGt(code: Mem, region: Region, s: State, onTrue: bool, f: CondField, bd: int, routines: Routines,
                   t: State)
    requires region.Has(s.pc) && Fetch(code, s.pc) == Some(Bc(onTrue, 4 * f + 1, bd))
    requires Leaves(code, region, s.(pc := if s.cr[f].gt == onTrue then s.pc + bd else s.pc + 4), routines, t)
    ensures Leaves(code, region, s, routines, t)
  {
    hide *;
    DoBranchGt(s, onTrue, f, bd, routines);
    Goes(code, region, s, Bc(onTrue, 4 * f + 1, bd), routines, t);
  }

  lemma GoAbsolute(code: Mem, region: Region, s: State, target: Word32, routines: Routines, t: State)
    requires region.Has(s.pc) && Fetch(code, s.pc) == Some(B(target, true, false))
    requires Leaves(code, region, s.(pc := target), routines, t)
    ensures Leaves(code, region, s, routines, t)
  {
    hide *;
    DoAbsolute(s, target, routines);
    Goes(code, region, s, B(target, true, false), routines, t);
  }

  lemma GoCall(code: Mem, region: Region, s: State, target: Word32, routines: Routines, t: State)
    requires region.Has(s.pc) && Fetch(code, s.pc) == Some(B(target, true, true))
    requires Leaves(code, region, CallOut(routines, target, s), routines, t)
    ensures Leaves(code, region, s, routines, t)
  {
    hide *;
    DoAbsolute(s, target, routines);
    Goes(code, region, s, B(target, true, true), routines, t);
  }

  lemma GoRelative(code: Mem, region: Region, s: State, li: int, routines: Routines, t: State)
    requires region.Has(s.pc) && Fetch(code, s.pc) == Some(B(li, false, false))
    requires 0 <= s.pc + li < TWO_64
    requires Leaves(code, region, s.(pc := s.pc + li), routines, t)
    ensures Leaves(code, region, s, routines, t)
  {
    hide *;
    DoRelative(s, li, routines);
    Goes(code, region, s, B(li, false, false), routines, t);
  }
}
