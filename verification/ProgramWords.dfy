/** The programs as the machine words an assembler makes of their source. */
module ProgramWords {
  import opened PowerPC
  import opened Hooks
  import opened ForceJoin

  /** One instruction. */
  predicate Is(i: Instr, word: int) { Encodable(i) && Encode(i) == word }

  /** The words of a stretch of a program. */
  predicate IsCode(program: seq<Instr>, words: seq<int>) {
    |program| == |words| && forall i :: 0 <= i < |program| ==> Is(program[i], words[i])
  }

  lemma CodeOfBoth(p: seq<Instr>, q: seq<Instr>, v: seq<int>, w: seq<int>)
    requires IsCode(p, v) && IsCode(q, w)
    ensures IsCode(p + q, v + w)
  {
    hide Is;
  }

  lemma LBP1HookWords0()
    ensures var p := LBP1_SCRIPT_HOOK;
            && Is(p[0], 0x8063_0000)
            && Is(p[1], 0x8863_0027)
            && Is(p[2], 0x2F83_000B)
            && Is(p[3], 0x419E_0010)
  {
  }

  lemma LBP1HookWords4()
    ensures var p := LBP1_SCRIPT_HOOK;
            && Is(p[4], 0x7B23_0020)
            && Is(p[5], 0x4807_D1EF)
            && Is(p[6], 0x4808_1BCE)
            && Is(p[7], 0x4808_1B42)
  {
  }

  lemma LBP1HookWords()
    ensures IsCode(LBP1_SCRIPT_HOOK,
                   [ 0x8063_0000, 0x8863_0027, 0x2F83_000B, 0x419E_0010, 0x7B23_0020, 0x4807_D1EF,
                     0x4808_1BCE, 0x4808_1B42 ])
  {
    hide Is;
    LBP1HookWords0();
    LBP1HookWords4();
  }

  lemma LBP2HookWords()
    ensures IsCode(LBP2_SCRIPT_HOOK,
                   [ 0x419E_0014, 0x881D_0023, 0x2F80_000B, 0x419E_0008, 0x4815_3D7A, 0x4815_3D3E ])
  {
  }

  lemma LBP3HookWords0()
    ensures var p := LBP3_SCRIPT_HOOK;
            && Is(p[0], 0x2C03_0000)
            && Is(p[1], 0x4082_0014)
            && Is(p[2], 0x887D_0023)
            && Is(p[3], 0x2F83_000B)
  {
  }

  lemma LBP3HookWords4()
    ensures var p := LBP3_SCRIPT_HOOK;
            && Is(p[4], 0x419E_0008)
            && Is(p[5], 0x481C_FC7A)
            && Is(p[6], 0x481C_FD12)
  {
  }

  lemma LBP3HookWords()
    ensures IsCode(LBP3_SCRIPT_HOOK,
                   [ 0x2C03_0000, 0x4082_0014, 0x887D_0023, 0x2F83_000B, 0x419E_0008, 0x481C_FC7A,
                     0x481C_FD12 ])
  {
    hide Is;
    LBP3HookWords0();
    LBP3HookWords4();
  }

  lemma LBP3JPHookWords0()
    ensures var p := LBP3_JP_SCRIPT_HOOK;
            && Is(p[0], 0x2C03_0000)
            && Is(p[1], 0x4082_0014)
            && Is(p[2], 0x887D_0023)
            && Is(p[3], 0x2F83_000B)
  {
  }

  lemma LBP3JPHookWords4()
    ensures var p := LBP3_JP_SCRIPT_HOOK;
            && Is(p[4], 0x419E_0008)
            && Is(p[5], 0x481C_FB16)
            && Is(p[6], 0x481C_FBAE)
  {
  }

  lemma LBP3JPHookWords()
    ensures IsCode(LBP3_JP_SCRIPT_HOOK,
                   [ 0x2C03_0000, 0x4082_0014, 0x887D_0023, 0x2F83_000B, 0x419E_0008, 0x481C_FB16,
                     0x481C_FBAE ])
  {
    hide Is;
    LBP3JPHookWords0();
    LBP3JPHookWords4();
  }

  lemma LBP1HeadWords0()
    ensures var p := HeadProgram(LBP1_HEAD);
            && Is(p[0], 0x5720_063E)
            && Is(p[1], 0x2F80_0000)
            && Is(p[2], 0x409E_0038)
            && Is(p[3], 0x3C60_0086)
  {
  }

  lemma LBP1HeadWords4()
    ensures var p := HeadProgram(LBP1_HEAD);
            && Is(p[4], 0x6063_D930)
            && Is(p[5], 0x8063_0000)
            && Is(p[6], 0x8063_0018)
            && Is(p[7], 0x7F64_DB78)
  {
  }

  lemma LBP1HeadWords8()
    ensures var p := HeadProgram(LBP1_HEAD);
            && Is(p[8], 0x38A0_0000)
            && Is(p[9], 0x4812_8B8F)
  {
  }

  lemma LBP1HeadWords()
    ensures IsCode(HeadProgram(LBP1_HEAD),
                   [ 0x5720_063E, 0x2F80_0000, 0x409E_0038, 0x3C60_0086, 0x6063_D930, 0x8063_0000,
                     0x8063_0018, 0x7F64_DB78, 0x38A0_0000, 0x4812_8B8F ])
  {
    hide Is;
    LBP1HeadWords0();
    LBP1HeadWords4();
    LBP1HeadWords8();
  }

  lemma LBP1AnswerWords()
    ensures IsCode(LBP1_ANSWER,
                   [ 0x2F83_0000, 0x419E_00D0, 0x80C3_0108, 0x2F86_0000, 0x419E_00C4, 0x6000_0000 ])
  {
  }

  lemma LBP2HeadWords0()
    ensures var p := HeadProgram(LBP2_HEAD);
            && Is(p[0], 0x56E0_063E)
            && Is(p[1], 0x2F80_0000)
            && Is(p[2], 0x409E_0070)
            && Is(p[3], 0x3C60_00D9)
  {
  }

  lemma LBP2HeadWords4()
    ensures var p := HeadProgram(LBP2_HEAD);
            && Is(p[4], 0x6063_B35C)
            && Is(p[5], 0x8063_0000)
            && Is(p[6], 0x8063_001C)
            && Is(p[7], 0x7F64_DB78)
  {
  }

  lemma LBP2HeadWords8()
    ensures var p := HeadProgram(LBP2_HEAD);
            && Is(p[8], 0x38A0_0000)
            && Is(p[9], 0x4826_414B)
  {
  }

  lemma LBP2HeadWords()
    ensures IsCode(HeadProgram(LBP2_HEAD),
                   [ 0x56E0_063E, 0x2F80_0000, 0x409E_0070, 0x3C60_00D9, 0x6063_B35C, 0x8063_0000,
                     0x8063_001C, 0x7F64_DB78, 0x38A0_0000, 0x4826_414B ])
  {
    hide Is;
    LBP2HeadWords0();
    LBP2HeadWords4();
    LBP2HeadWords8();
  }

  lemma LBP2AnswerWords()
    ensures IsCode(LBP2_ANSWER,
                   [ 0x2F83_0000, 0x419E_0010, 0x80C3_00E8, 0x2F86_0000, 0x419D_0040 ])
  {
  }

  lemma LBP2DealingWords0()
    ensures var p := LBP2_DEALING;
            && Is(p[0], 0x7B23_0020)
            && Is(p[1], 0x7B84_0020)
            && Is(p[2], 0x7F65_DB78)
            && Is(p[3], 0x38C0_0000)
  {
  }

  lemma LBP2DealingWords4()
    ensures var p := LBP2_DEALING;
            && Is(p[4], 0x38E0_0000)
            && Is(p[5], 0x3900_000C)
            && Is(p[6], 0x4828_5917)
            && Is(p[7], 0x5463_063E)
  {
  }

  lemma LBP2DealingWords8()
    ensures var p := LBP2_DEALING;
            && Is(p[8], 0x2F83_0000)
            && Is(p[9], 0x409E_FF10)
  {
  }

  lemma LBP2DealingWords()
    ensures IsCode(LBP2_DEALING,
                   [ 0x7B23_0020, 0x7B84_0020, 0x7F65_DB78, 0x38C0_0000, 0x38E0_0000, 0x3900_000C,
                     0x4828_5917, 0x5463_063E, 0x2F83_0000, 0x409E_FF10 ])
  {
    hide Is;
    LBP2DealingWords0();
    LBP2DealingWords4();
    LBP2DealingWords8();
  }

  lemma LBP2ForwardingWords()
    ensures IsCode(LBP2_FORWARDING,
                   [ 0x7B23_0020, 0x7B84_0020, 0x7F65_DB78, 0x4828_2443, 0x4BFF_FEFC ])
  {
  }

  lemma LBP3SearchWords0()
    ensures var p := LBP3Search(0xf8, 0x5a80, 0x2eb594);
            && Is(p[0], 0x2C1C_0000)
            && Is(p[1], 0x4082_0030)
            && Is(p[2], 0x3C60_00F8)
            && Is(p[3], 0x3063_A580)
  {
  }

  lemma LBP3SearchWords4()
    ensures var p := LBP3Search(0xf8, 0x5a80, 0x2eb594);
            && Is(p[4], 0x8063_001C)
            && Is(p[5], 0x7FE4_FB78)
            && Is(p[6], 0x38A0_0000)
            && Is(p[7], 0x482E_B597)
  {
  }

  lemma LBP3SearchWords8()
    ensures var p := LBP3Search(0xf8, 0x5a80, 0x2eb594);
            && Is(p[8], 0x2C03_0000)
            && Is(p[9], 0x4182_0018)
            && Is(p[10], 0x8063_00F0)
            && Is(p[11], 0x2C03_0000)
  {
  }

  lemma LBP3SearchWords12()
    ensures var p := LBP3Search(0xf8, 0x5a80, 0x2eb594);
            && Is(p[12], 0x4182_000C)
            && Is(p[13], 0x3B40_0001)
            && Is(p[14], 0x4800_0008)
            && Is(p[15], 0x3B40_0000)
  {
  }

  lemma LBP3SearchWords()
    ensures IsCode(LBP3Search(0xf8, 0x5a80, 0x2eb594),
                   [ 0x2C1C_0000, 0x4082_0030, 0x3C60_00F8, 0x3063_A580, 0x8063_001C, 0x7FE4_FB78,
                     0x38A0_0000, 0x482E_B597, 0x2C03_0000, 0x4182_0018, 0x8063_00F0, 0x2C03_0000,
                     0x4182_000C, 0x3B40_0001, 0x4800_0008, 0x3B40_0000 ])
  {
    hide Is;
    LBP3SearchWords0();
    LBP3SearchWords4();
    LBP3SearchWords8();
    LBP3SearchWords12();
  }

  lemma LBP3DealWords0()
    ensures var p := LBP3Deal(0x305090);
            && Is(p[0], 0x63A3_0000)
            && Is(p[1], 0x63C4_0000)
            && Is(p[2], 0x63E5_0000)
            && Is(p[3], 0x6386_0000)
  {
  }

  lemma LBP3DealWords4()
    ensures var p := LBP3Deal(0x305090);
            && Is(p[4], 0x7F47_D378)
            && Is(p[5], 0x3900_000D)
            && Is(p[6], 0x3920_0006)
            && Is(p[7], 0x4830_5093)
  {
  }

  lemma LBP3DealWords8()
    ensures var p := LBP3Deal(0x305090);
            && Is(p[8], 0x2C1A_0000)
            && Is(p[9], 0x4082_0030)
            && Is(p[10], 0x2C03_0000)
            && Is(p[11], 0x4082_0028)
  {
  }

  lemma LBP3DealWords()
    ensures IsCode(LBP3Deal(0x305090),
                   [ 0x63A3_0000, 0x63C4_0000, 0x63E5_0000, 0x6386_0000, 0x7F47_D378, 0x3900_000D,
                     0x3920_0006, 0x4830_5093, 0x2C1A_0000, 0x4082_0030, 0x2C03_0000, 0x4082_0028 ])
  {
    hide Is;
    LBP3DealWords0();
    LBP3DealWords4();
    LBP3DealWords8();
  }

  lemma LBP3JPSearchWords0()
    ensures var p := LBP3Search(0xf6, 0x6000, 0x2e821c);
            && Is(p[0], 0x2C1C_0000)
            && Is(p[1], 0x4082_0030)
            && Is(p[2], 0x3C60_00F6)
            && Is(p[3], 0x3063_A000)
  {
  }

  lemma LBP3JPSearchWords4()
    ensures var p := LBP3Search(0xf6, 0x6000, 0x2e821c);
            && Is(p[4], 0x8063_001C)
            && Is(p[5], 0x7FE4_FB78)
            && Is(p[6], 0x38A0_0000)
            && Is(p[7], 0x482E_821F)
  {
  }

  lemma LBP3JPSearchWords8()
    ensures var p := LBP3Search(0xf6, 0x6000, 0x2e821c);
            && Is(p[8], 0x2C03_0000)
            && Is(p[9], 0x4182_0018)
            && Is(p[10], 0x8063_00F0)
            && Is(p[11], 0x2C03_0000)
  {
  }

  lemma LBP3JPSearchWords12()
    ensures var p := LBP3Search(0xf6, 0x6000, 0x2e821c);
            && Is(p[12], 0x4182_000C)
            && Is(p[13], 0x3B40_0001)
            && Is(p[14], 0x4800_0008)
            && Is(p[15], 0x3B40_0000)
  {
  }

  lemma LBP3JPSearchWords()
    ensures IsCode(LBP3Search(0xf6, 0x6000, 0x2e821c),
                   [ 0x2C1C_0000, 0x4082_0030, 0x3C60_00F6, 0x3063_A000, 0x8063_001C, 0x7FE4_FB78,
                     0x38A0_0000, 0x482E_821F, 0x2C03_0000, 0x4182_0018, 0x8063_00F0, 0x2C03_0000,
                     0x4182_000C, 0x3B40_0001, 0x4800_0008, 0x3B40_0000 ])
  {
    hide Is;
    LBP3JPSearchWords0();
    LBP3JPSearchWords4();
    LBP3JPSearchWords8();
    LBP3JPSearchWords12();
  }

  lemma LBP3JPDealWords0()
    ensures var p := LBP3Deal(0x3018a8);
            && Is(p[0], 0x63A3_0000)
            && Is(p[1], 0x63C4_0000)
            && Is(p[2], 0x63E5_0000)
            && Is(p[3], 0x6386_0000)
  {
  }

  lemma LBP3JPDealWords4()
    ensures var p := LBP3Deal(0x3018a8);
            && Is(p[4], 0x7F47_D378)
            && Is(p[5], 0x3900_000D)
            && Is(p[6], 0x3920_0006)
            && Is(p[7], 0x4830_18AB)
  {
  }

  lemma LBP3JPDealWords8()
    ensures var p := LBP3Deal(0x3018a8);
            && Is(p[8], 0x2C1A_0000)
            && Is(p[9], 0x4082_0030)
            && Is(p[10], 0x2C03_0000)
            && Is(p[11], 0x4082_0028)
  {
  }

  lemma LBP3JPDealWords()
    ensures IsCode(LBP3Deal(0x3018a8),
                   [ 0x63A3_0000, 0x63C4_0000, 0x63E5_0000, 0x6386_0000, 0x7F47_D378, 0x3900_000D,
                     0x3920_0006, 0x4830_18AB, 0x2C1A_0000, 0x4082_0030, 0x2C03_0000, 0x4082_0028 ])
  {
    hide Is;
    LBP3JPDealWords0();
    LBP3JPDealWords4();
    LBP3JPDealWords8();
  }

  /** Two instructions the module writes by itself: `li r0, 0` and `li r3, 0`. */
  lemma NotificationWords()
    ensures Is(Li(0, 0), 0x3800_0000) && Is(Li(3, 0), 0x3860_0000)
  {
  }

  /** A branch from the LBP1 resource check to a hook at 0x1200000, and back. */
  lemma BranchWords()
    ensures RelativeBranch(0x0120_0000, 0x81BC8) == 0x4917_E438 && RelativeBranch(0x81BC8, 0x0120_0000) == 0x4AE8_1BC8
  {
  }
}
