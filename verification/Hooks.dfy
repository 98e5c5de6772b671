/** The assembly programs the module installs, and the branch that leads to a hook. */
module Hooks {
  import opened Memory
  import opened PowerPC
  import opened Wrappers

  // ----- assembler mnemonics -----

  /** A numeric branch operand: its two low bits are not part of the displacement. */
  function Displacement(operand: int): int { operand - operand % 4 }

  function Beq(f: CondField, operand: int): Instr { Bc(true, 4 * f + 2, Displacement(operand)) }

  function Bne(f: CondField, operand: int): Instr { Bc(false, 4 * f + 2, Displacement(operand)) }

  function Bgt(f: CondField, operand: int): Instr { Bc(true, 4 * f + 1, Displacement(operand)) }

  function Ba(target: int): Instr { B(target, true, false) }

  function Bla(target: int): Instr { B(target, true, true) }

  function Rel(operand: int): Instr { B(Displacement(operand), false, false) }

  function Li(rt: Reg, si: int): Instr { Addi(rt, 0, si) }

  function Lis(rt: Reg, si: int): Instr { Addis(rt, 0, si) }

  function Subic(rt: Reg, ra: Reg, si: int): Instr { Addic(rt, ra, -si) }

  function Clrldi(ra: Reg, rs: Reg, n: Bit6): Instr { Rldicl(ra, rs, 0, n) }

  // ----- RelativeBranch -----

  const OPCODE_B: int := 0x4800_0000

  function RelativeBranch(destination: Word32, origin: Word32): Word32 {
    OPCODE_B + (destination - origin) % 0x1_0000_0000 % 0x400_0000
  }

  /** The branch a 26-bit distance stands for: AA and LK are clear only for a whole number of words. */
  function BranchOver(distance: int): Instr
    requires 0 <= distance < 0x400_0000
  {
    var words, rest := distance / 4, distance % 4;
    B(4 * (if words < 0x80_0000 then words else words - 0x100_0000), rest >= 2, rest == 1 || rest == 3)
  }

  lemma BranchOverEncodes(distance: int)
    requires 0 <= distance < 0x400_0000
    ensures Encodable(BranchOver(distance)) && Encode(BranchOver(distance)) == OPCODE_B + distance
  {
    var words, rest := distance / 4, distance % 4;
    var li := BranchOver(distance).li;
    assert li % 0x400_0000 == 4 * words;
    assert 2 * Bit(rest >= 2) + Bit(rest == 1 || rest == 3) == rest;
  }

  /** Whatever the addresses, the word decodes to the I-form branch of their distance modulo 2^26. */
  lemma RelativeBranchDecodes(destination: Word32, origin: Word32)
    ensures Decode(RelativeBranch(destination, origin)) == Some(BranchOver((destination - origin) % 0x400_0000))
  {
    var d := (destination - origin) % 0x400_0000;
    assert (destination - origin) % 0x1_0000_0000 % 0x400_0000 == d;
    BranchOverEncodes(d);
    DecodeEncode(BranchOver(d));
    hide Decode, Encode, BranchOver;
  }

  /** For word-aligned addresses the branch goes to the destination exactly when that is within 32 MB. */
  lemma RelativeBranchReaches(destination: Word32, origin: Word32)
    requires destination % 4 == 0 && origin % 4 == 0
    ensures Decode(RelativeBranch(destination, origin)) == Some(B(destination - origin, false, false))
       <==> -0x200_0000 <= destination - origin < 0x200_0000
  {
    RelativeBranchDecodes(destination, origin);
    hide Decode, RelativeBranch;
    var x := destination - origin;
    var d := x % 0x400_0000;
    assert d % 4 == 0;
    assert -0x200_0000 <= x < 0x200_0000 ==> d == if x < 0 then x + 0x400_0000 else x;
  }

  // ----- script-block.s -----

  const RESOURCE_TYPE_SCRIPT: int := 0xB

  const LBP1_SCRIPT_HOOK: seq<Instr> :=
    [ Lwz(3, 0, 3), Lbz(3, 39, 3), Cmpwi(7, 3, RESOURCE_TYPE_SCRIPT), Beq(7, 16),
      Clrldi(3, 25, 32), Bla(0x7D1EC), Ba(0x81BCC),
      Ba(0x81B40) ]

  const LBP2_SCRIPT_HOOK: seq<Instr> :=
    [ Beq(7, 20), Lbz(0, 35, 29), Cmpwi(7, 0, RESOURCE_TYPE_SCRIPT), Beq(7, 8),
      Ba(0x153D78),
      Ba(0x153D3C) ]

  /** The LBP3 hook, for its two versions: where to go on and where to fail. */
  function LBP3Hook(continue_: int, bail: int): seq<Instr> {
    [ Cmpwi(0, 3, 0), Bne(0, 20), Lbz(3, 0x23, 29), Cmpwi(7, 3, RESOURCE_TYPE_SCRIPT), Beq(7, 8),
      Ba(continue_),
      Ba(bail) ]
  }

  const LBP3_SCRIPT_HOOK: seq<Instr> := LBP3Hook(0x1CFC78, 0x1CFD10)

  const LBP3_JP_SCRIPT_HOOK: seq<Instr> := LBP3Hook(0x1CFB14, 0x1CFBAC)

  // ----- forcejoin-patch.s -----

  /** How LBP1 and LBP2 begin: a local joiner skips ahead, any other is looked up. */
  function JoinHead(flag: Reg, skip: int, high: Half, low: Half, slot: int, find: Word32): seq<Instr> {
    [ Rlwinm(0, flag, 0, 0x18, 0x1f), Cmpwi(7, 0, 0), Bne(7, skip),
      Lis(3, high), Ori(3, 3, low), Lwz(3, 0, 3), Lwz(3, slot, 3), Or(4, 27, 27), Li(5, 0), Bla(find) ]
  }

  const LBP1_ANSWER: seq<Instr> :=
    [ Cmpwi(7, 3, 0), Beq(7, 0xd3), Lwz(6, 0x108, 3), Cmpwi(7, 6, 0), Beq(7, 0xc7), Ori(0, 0, 0) ]

  const LBP1_FORCE_JOIN: seq<Instr> := JoinHead(25, 0x3b, 0x86, 0xd930, 0x18, 0x128b8c) + LBP1_ANSWER

  const LBP2_ANSWER: seq<Instr> :=
    [ Cmpwi(7, 3, 0), Beq(7, 0x10), Lwz(6, 0xe8, 3), Cmpwi(7, 6, 0), Bgt(7, 0x43) ]

  const LBP2_DEALING: seq<Instr> :=
    [ Rldicl(3, 25, 0, 0x20), Rldicl(4, 28, 0, 0x20), Or(5, 27, 27), Li(6, 0), Li(7, 0), Li(8, 0xc), Bla(0x285914),
      Rlwinm(3, 3, 0, 0x18, 0x1f), Cmpwi(7, 3, 0), Bne(7, -0xf0) ]

  const LBP2_FORWARDING: seq<Instr> :=
    [ Rldicl(3, 25, 0, 0x20), Rldicl(4, 28, 0, 0x20), Or(5, 27, 27), Bla(0x282440), Rel(-0x104) ]

  const LBP2_FORCE_JOIN: seq<Instr> :=
    JoinHead(23, 0x73, 0xd9, 0xb35c, 0x1c, 0x264148) + (LBP2_ANSWER + (LBP2_DEALING + LBP2_FORWARDING))

  /** The LBP3 join program, for its two versions: the search, with the network manager and the routine. */
  function LBP3Search(high: int, low: int, find: int): seq<Instr> {
    [ Cmpwi(0, 28, 0), Bne(0, 0x33), Lis(3, high), Subic(3, 3, low), Lwz(3, 0x1c, 3), Or(4, 31, 31), Li(5, 0),
      Bla(find), Cmpwi(0, 3, 0), Beq(0, 0x1b), Lwz(3, 0xf0, 3), Cmpwi(0, 3, 0), Beq(0, 0xf),
      Li(26, 1), Rel(8),
      Li(26, 0) ]
  }

  /** And the call of the routine that deals with the request. */
  function LBP3Deal(deal: int): seq<Instr> {
    [ Ori(3, 29, 0), Ori(4, 30, 0), Ori(5, 31, 0), Ori(6, 28, 0), Or(7, 26, 26), Li(8, 0xd), Li(9, 6), Bla(deal),
      Cmpwi(0, 26, 0), Bne(0, 0x33), Cmpwi(0, 3, 0), Bne(0, 0x2b) ]
  }

  function LBP3Join(high: int, low: int, find: int, deal: int): seq<Instr> {
    LBP3Search(high, low, find) + LBP3Deal(deal)
  }

  const LBP3_FORCE_JOIN: seq<Instr> := LBP3Join(0xf8, 0x5a80, 0x2eb594, 0x305090)

  const LBP3_JP_FORCE_JOIN: seq<Instr> := LBP3Join(0xf6, 0x6000, 0x2e821c, 0x3018a8)
}
