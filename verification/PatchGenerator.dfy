/** The Go tool that turns the hooks into emulator patches: hook extraction and patch entries. */
module PatchGenerator {
  import opened Memory
  import opened PowerPC
  import opened Hooks
  import opened EndToEnd
  import opened Wrappers

  // ----- GetHook -----

  /**
  `instruction & baMask == baMask` for baMask = 0x48000002, and a last byte with a clear low bit:
  bits 30 and 27, which are the two upper bits of the opcode's mask, and bit 1 are set, bit 0 is not.
   */
  predicate LooksLikeBa(w: Word32) {
    var op := w / 0x400_0000;
    op / 16 % 2 == 1 && op / 2 % 2 == 1 && w / 2 % 2 == 1 && w % 2 == 0
  }

  /** The word at a byte offset of the section. */
  function WordAt(data: seq<Byte>, at: nat): Word32
    requires at + 4 <= |data|
  {
    BytesWord(data[at], data[at + 1], data[at + 2], data[at + 3])
  }

  /** How many of the first `n` words from `at` look like `ba`. */
  function Matches(data: seq<Byte>, at: nat, n: nat): nat
    requires at + 4 * n <= |data|
  {
    if n == 0 then 0
    else Matches(data, at, n - 1) + if LooksLikeBa(WordAt(data, at + 4 * (n - 1))) then 1 else 0
  }

  lemma {:induction false} MatchesGrow(data: seq<Byte>, at: nat, m: nat, n: nat)
    requires m <= n && at + 4 * n <= |data|
    ensures Matches(data, at, m) <= Matches(data, at, n)
    decreases n
  {
    if m < n { MatchesGrow(data, at, m, n - 1); }
  }

  /**
  The shortest run of whole words from the offset that holds two matching words, so the last of
  them is final; a failure when the section ends before there are two.
   */
  ghost predicate IsHook(data: seq<Byte>, at: nat, r: Result<seq<Byte>, string>) {
    match r
    case Ok(hook) =>
      && |hook| % 4 == 0 && at + |hook| <= |data| && hook == data[at..at + |hook|]
      && |hook| >= 4 && Matches(data, at, |hook| / 4) == 2 && Matches(data, at, |hook| / 4 - 1) == 1
    case Err(_) => forall n: nat :: at + 4 * n <= |data| ==> Matches(data, at, n) < 2
  }

  lemma MatchesStep(data: seq<Byte>, at: nat, n: nat, word: seq<Byte>)
    requires at + 4 * n + 4 <= |data| && |word| == 4 && word == data[at + 4 * n..at + 4 * n + 4]
    ensures Matches(data, at, n + 1)
         == Matches(data, at, n) + if LooksLikeBa(BytesWord(word[0], word[1], word[2], word[3])) then 1 else 0
  {
    hide LooksLikeBa, BytesWord;
  }

  /** No run of whole words holds more matches than the longest. */
  lemma TooFew(data: seq<Byte>, at: nat, n: nat)
    requires at + 4 * n + 4 > |data| && (n > 0 ==> at + 4 * n <= |data| && Matches(data, at, n) < 2)
    ensures IsHook(data, at, Err("EOF"))
  {
    forall k: nat | at + 4 * k <= |data|
      ensures Matches(data, at, k) < 2
    {
      if k > 0 { MatchesGrow(data, at, k, n); }
    }
  }

  method GetHook(data: seq<Byte>, hookOffset: nat) returns (r: Result<seq<Byte>, string>)
    ensures IsHook(data, hookOffset, r)
  {
    hide LooksLikeBa, BytesWord;
    var baFound := false;
    var i := hookOffset;
    var outBuf: seq<Byte> := [];
    ghost var n: nat := 0;
    while true
      invariant i == hookOffset + 4 * n && |outBuf| == 4 * n
      invariant n > 0 ==> i <= |data|
      invariant n > 0 ==> outBuf == data[hookOffset..i]
      invariant n > 0 ==> Matches(data, hookOffset, n) == if baFound then 1 else 0
      invariant n == 0 ==> !baFound
      decreases |data| - i
    {
      if i + 4 > |data| {
        TooFew(data, hookOffset, n);
        return Err("EOF");
      }
      var insBuf := data[i..i + 4];
      outBuf := outBuf + insBuf;
      var instruction := BytesWord(insBuf[0], insBuf[1], insBuf[2], insBuf[3]);
      MatchesStep(data, hookOffset, n, insBuf);
      n := n + 1;
      if LooksLikeBa(instruction) {
        if baFound {
          return Ok(outBuf);
        }
        baFound := true;
      }
      i := i + 4;
    }
  }

  /** The forms the predicate takes for `ba`: absolute branches without link, and rotates by 32 or more. */
  predicate TakenForBa(i: Instr) { (i.B? && i.aa && !i.lk) || (i.Rldicl? && i.sh6 >= 32) }

  lemma OpcodeOf(op: int, a: Reg, b: Reg, low: Half)
    requires 0 <= op < 64
    ensures 0 <= Fields(op, a, b, low) < 0x1_0000_0000
    ensures LooksLikeBa(Fields(op, a, b, low))
       <==> op / 16 % 2 == 1 && op / 2 % 2 == 1 && low / 2 % 2 == 1 && low % 2 == 0
  {
    var w, high := Fields(op, a, b, low), (op * 32 + a) * 32 + b;
    assert w == op * 0x400_0000 + (a * 32 + b) * 0x1_0000 + low;
    assert w / 0x400_0000 == op && w / 2 == high * 0x8000 + low / 2;
  }

  /** Every `ba` matches and no `bla`, `b` or `bl` does; of the other forms only wide rotates do. */
  lemma BaMaskMeans(i: Instr)
    requires Encodable(i)
    ensures LooksLikeBa(Encode(i)) <==> TakenForBa(i)
  {
    hide LooksLikeBa, Fields;
    match i {
      case Addi(rt, ra, si) => OpcodeOf(14, rt, ra, si % 0x1_0000);
      case Addis(rt, ra, si) => OpcodeOf(15, rt, ra, si % 0x1_0000);
      case Addic(rt, ra, si) => OpcodeOf(12, rt, ra, si % 0x1_0000);
      case Ori(ra, rs, ui) => OpcodeOf(24, rs, ra, ui);
      case Lwz(rt, d, ra) => OpcodeOf(32, rt, ra, d % 0x1_0000);
      case Lbz(rt, d, ra) => OpcodeOf(34, rt, ra, d % 0x1_0000);
      case Cmpwi(bf, ra, si) => OpcodeOf(11, bf * 4, ra, si % 0x1_0000);
      case Bc(onTrue, bi, bd) => OpcodeOf(16, if onTrue then 12 else 4, bi, bd % 0x1_0000);
      case B(li, aa, lk) => BranchMatches(li, aa, lk);
      case Or(ra, rs, rb) => OpcodeOf(31, rs, ra, rb * 0x800 + 444 * 2);
      case Rlwinm(ra, rs, sh, mb, me) => OpcodeOf(21, rs, ra, ((sh * 32 + mb) * 32 + me) * 2);
      case Rldicl(ra, rs, sh, mb) => RotateMatches(ra, rs, sh, mb);
    }
  }

  lemma BranchMatches(li: int, aa: bool, lk: bool)
    requires Encodable(B(li, aa, lk))
    ensures LooksLikeBa(Encode(B(li, aa, lk))) <==> aa && !lk
  {
    var field := li % 0x400_0000;
    var w := 18 * 0x400_0000 + field + 2 * Bit(aa) + Bit(lk);
    assert field % 4 == 0;
    assert w / 0x400_0000 == 18;
    assert w / 2 == 18 * 0x200_0000 + field / 2 + Bit(aa) && field / 2 % 2 == 0;
  }

  lemma RotateMatches(ra: Reg, rs: Reg, sh: Bit6, mb: Bit6)
    ensures LooksLikeBa(Encode(Rldicl(ra, rs, sh, mb))) <==> sh >= 32
  {
    var upper := (sh % 32 * 32 + mb % 32) * 2 + mb / 32;
    var low: Half := (upper * 16 + sh / 32) * 2;
    OpcodeOf(30, rs, ra, low);
    assert low / 2 == upper * 16 + sh / 32;
  }

  // ----- the shipped hooks -----

  function CountTaken(program: seq<Instr>, n: nat): nat
    requires n <= |program|
  {
    if n == 0 then 0 else CountTaken(program, n - 1) + if TakenForBa(program[n - 1]) then 1 else 0
  }

  /** Over assembled code the matching words are the instructions taken for `ba`. */
  lemma {:induction false} MatchesAssembled(data: seq<Byte>, at: nat, program: seq<Instr>, n: nat)
    requires AllEncodable(program) && n <= |program| && at + 4 * |program| <= |data|
    requires data[at..at + 4 * |program|] == Assembled(program)
    ensures Matches(data, at, n) == CountTaken(program, n)
  {
    hide Encode, LooksLikeBa, TakenForBa, Encodable;
    if n > 0 {
      MatchesAssembled(data, at, program, n - 1);
      AssembledWord(program, n - 1);
      AssembledWordAt(data, at, program, n - 1);
      BaMaskMeans(program[n - 1]);
    }
  }

  lemma AssembledWordAt(data: seq<Byte>, at: nat, program: seq<Instr>, k: nat)
    requires AllEncodable(program) && k < |program| && at + 4 * |program| <= |data|
    requires data[at..at + 4 * |program|] == Assembled(program)
    ensures WordAt(data, at + 4 * k) == Encode(program[k])
  {
    hide Encode, Encodable, WordBytes, BytesWord;
    AssembledWord(program, k);
    WordRoundTrip(Encode(program[k]));
    var code := data[at..at + 4 * |program|];
    var four := code[4 * k..4 * k + 4];
    assert four == WordBytes(Encode(program[k]));
    assert forall i :: 0 <= i < 4 ==> four[i] == data[at + 4 * k + i];
  }

  /** A hook whose last instruction is the second one taken for `ba`. */
  predicate EndsWithSecondBa(program: seq<Instr>) {
    |program| >= 1 && CountTaken(program, |program|) == 2 && CountTaken(program, |program| - 1) == 1
  }

  /** From such a hook, whatever follows it in the section, `GetHook` returns its bytes and no more. */
  lemma HookExtracted(data: seq<Byte>, at: nat, program: seq<Instr>, r: Result<seq<Byte>, string>)
    requires AllEncodable(program) && at + 4 * |program| <= |data|
    requires data[at..at + 4 * |program|] == Assembled(program) && EndsWithSecondBa(program)
    requires IsHook(data, at, r)
    ensures r == Ok(Assembled(program))
  {
    hide Assembled, CountTaken, AllEncodable, Matches;
    var n := |program|;
    MatchesAssembled(data, at, program, n);
    MatchesAssembled(data, at, program, n - 1);
    if r.Ok? {
      var k := |r.value| / 4;
      if k < n {
        MatchesGrow(data, at, k, n - 1);
      } else if n < k {
        MatchesGrow(data, at, n, k - 1);
      }
    }
  }

  lemma {:induction false} NoneTaken(program: seq<Instr>, n: nat)
    requires n <= |program| && forall i :: 0 <= i < n ==> !TakenForBa(program[i])
    ensures CountTaken(program, n) == 0
  {
    if n > 0 { NoneTaken(program, n - 1); }
  }

  lemma LastTwoTaken(program: seq<Instr>)
    requires |program| >= 2 && TakenForBa(program[|program| - 2]) && TakenForBa(program[|program| - 1])
    requires forall i :: 0 <= i < |program| - 2 ==> !TakenForBa(program[i])
    ensures EndsWithSecondBa(program)
  {
    hide TakenForBa;
    NoneTaken(program, |program| - 2);
    assert CountTaken(program, |program| - 1) == 1;
  }

  /** All four script hooks are of this shape. */
  lemma ShippedHooksEnd()
    ensures EndsWithSecondBa(LBP1_SCRIPT_HOOK) && EndsWithSecondBa(LBP2_SCRIPT_HOOK)
    ensures EndsWithSecondBa(LBP3_SCRIPT_HOOK) && EndsWithSecondBa(LBP3_JP_SCRIPT_HOOK)
  {
    hide EndsWithSecondBa, CountTaken;
    LastTwoTaken(LBP1_SCRIPT_HOOK);
    LastTwoTaken(LBP2_SCRIPT_HOOK);
    LastTwoTaken(LBP3_SCRIPT_HOOK);
    LastTwoTaken(LBP3_JP_SCRIPT_HOOK);
  }
}
