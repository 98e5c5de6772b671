/**
The instructions the hooks are written in, and their encoding after the Power ISA, Book I, section 1.6 and the
instruction descriptions.
 */
module PowerPC {
  import opened Memory
  import opened Wrappers

  const TWO_64: int := 0x1_0000_0000_0000_0000

  type Word64 = x: int | 0 <= x < 0x1_0000_0000_0000_0000

  function Low64(x: int): Word64 { x % TWO_64 }

  function Low32(x: int): Word32 { x % 0x1_0000_0000 }

  function Signed32(x: Word32): int { if x < 0x8000_0000 then x else x - 0x1_0000_0000 }

  function Signed16(x: int): int
    requires 0 <= x < 0x1_0000
  {
    if x < 0x8000 then x else x - 0x1_0000
  }

  type Reg = r: int | 0 <= r < 32

  type CondField = f: int | 0 <= f < 8

  type Half = h: int | 0 <= h < 0x1_0000

  type Bit6 = b: int | 0 <= b < 64

  datatype Instr =
    | Addi(rt: Reg, ra: Reg, si: int)
    | Addis(rt: Reg, ra: Reg, si: int)
    | Addic(rt: Reg, ra: Reg, si: int)
    | Ori(ra: Reg, rs: Reg, ui: Half)
    | Lwz(rt: Reg, d: int, ra: Reg)
    | Lbz(rt: Reg, d: int, ra: Reg)
    | Cmpwi(bf: CondField, ra: Reg, si: int)
    | Bc(onTrue: bool, bi: Reg, bd: int)
    | B(li: int, aa: bool, lk: bool)
    | Or(ra: Reg, rs: Reg, rb: Reg)
    | Rlwinm(ra: Reg, rs: Reg, sh: Reg, mb: Reg, me: Reg)
    | Rldicl(ra: Reg, rs: Reg, sh6: Bit6, mb6: Bit6)

  predicate In16(x: int) { -0x8000 <= x < 0x8000 }

  /** The operands fit their fields; branch displacements are whole words. */
  predicate Encodable(i: Instr) {
    match i
    case Addi(_, _, si) => In16(si)
    case Addis(_, _, si) => In16(si)
    case Addic(_, _, si) => In16(si)
    case Ori(_, _, _) => true
    case Lwz(_, d, _) => In16(d)
    case Lbz(_, d, _) => In16(d)
    case Cmpwi(_, _, si) => In16(si)
    case Bc(_, _, bd) => In16(bd) && bd % 4 == 0
    case B(li, _, _) => -0x200_0000 <= li < 0x200_0000 && li % 4 == 0
    case Or(_, _, _) => true
    case Rlwinm(_, _, _, _, _) => true
    case Rldicl(_, _, _, _) => true
  }

  function Bit(b: bool): int { if b then 1 else 0 }

  /** Opcode, two register fields and the low half-word. */
  function Fields(op: int, a: int, b: int, low: int): int {
    ((op * 32 + a) * 32 + b) * 0x1_0000 + low
  }

  /** MD-form: low five bits of `sh`, low five bits and high bit of `mb`, then the high bit of `sh`. */
  function Doubleword(sh: int, mb: int, mbHigh: int, shHigh: int): int {
    (((sh * 32 + mb) * 2 + mbHigh) * 16 + shHigh) * 2
  }

  function Encode(i: Instr): Word32
    requires Encodable(i)
  {
    match i
    case Addi(rt, ra, si) => Fields(14, rt, ra, si % 0x1_0000)
    case Addis(rt, ra, si) => Fields(15, rt, ra, si % 0x1_0000)
    case Addic(rt, ra, si) => Fields(12, rt, ra, si % 0x1_0000)
    case Ori(ra, rs, ui) => Fields(24, rs, ra, ui)
    case Lwz(rt, d, ra) => Fields(32, rt, ra, d % 0x1_0000)
    case Lbz(rt, d, ra) => Fields(34, rt, ra, d % 0x1_0000)
    case Cmpwi(bf, ra, si) => Fields(11, bf * 4, ra, si % 0x1_0000)
    case Bc(onTrue, bi, bd) => Fields(16, if onTrue then 12 else 4, bi, bd % 0x1_0000)
    case B(li, aa, lk) => 18 * 0x400_0000 + li % 0x400_0000 + 2 * Bit(aa) + Bit(lk)
    case Or(ra, rs, rb) => Fields(31, rs, ra, rb * 0x800 + 444 * 2)
    case Rlwinm(ra, rs, sh, mb, me) => Fields(21, rs, ra, ((sh * 32 + mb) * 32 + me) * 2)
    case Rldicl(ra, rs, sh, mb) =>
      Fields(30, rs, ra, Doubleword(sh % 32, mb % 32, mb / 32, sh / 32))
  }

  /** The instruction a word stands for, if it is one of the forms above. */
  function Decode(w: Word32): Option<Instr> {
    var high, low := w / 0x1_0000, w % 0x1_0000;
    var b, opA := high % 32, high / 32;
    var a, op := opA % 32, opA / 32;
    if op == 14 then Some(Addi(a, b, Signed16(low)))
    else if op == 15 then Some(Addis(a, b, Signed16(low)))
    else if op == 12 then Some(Addic(a, b, Signed16(low)))
    else if op == 24 then Some(Ori(b, a, low))
    else if op == 32 then Some(Lwz(a, Signed16(low), b))
    else if op == 34 then Some(Lbz(a, Signed16(low), b))
    else if op == 11 && a % 4 == 0 then Some(Cmpwi(a / 4, b, Signed16(low)))
    else if op == 16 && (a == 12 || a == 4) && low % 4 == 0 then Some(Bc(a == 12, b, Signed16(low)))
    else if op == 18 then Some(DecodeB(w))
    else if op == 31 && low % 0x800 == 444 * 2 then Some(Or(b, a, low / 0x800))
    else if op == 21 then DecodeMask(a, b, low)
    else if op == 30 then DecodeDoubleword(a, b, low)
    else None
  }

  /** M-form: `sh`, `mb`, `me` and a clear Rc bit. */
  function DecodeMask(rs: Reg, ra: Reg, low: int): Option<Instr>
    requires 0 <= low < 0x1_0000
  {
    var me, shMb := low / 2 % 32, low / 2 / 32;
    var mb, sh := shMb % 32, shMb / 32;
    if low % 2 == 0 then Some(Rlwinm(ra, rs, sh, mb, me)) else None
  }

  /** MD-form: Rc and the extended opcode are zero. */
  function DecodeDoubleword(rs: Reg, ra: Reg, low: int): Option<Instr>
    requires 0 <= low < 0x1_0000
  {
    var shHigh, upper := low / 2 % 16, low / 2 / 16;
    var mbHigh, shMb := upper % 2, upper / 2;
    var mb, sh := shMb % 32, shMb / 32;
    if low % 2 == 0 && shHigh <= 1 then Some(Rldicl(ra, rs, sh + 32 * shHigh, mb + 32 * mbHigh)) else None
  }

  /** I-form (section 1.6): a signed 24-bit word displacement, then AA and LK. */
  function DecodeB(w: Word32): Instr {
    var field := w / 4 % 0x100_0000;
    B(4 * (if field < 0x80_0000 then field else field - 0x100_0000), w % 4 >= 2, w % 2 == 1)
  }

  /** Taking the lowest field off a packed number, for the field sizes in use. */
  lemma Peel(q: int, d: int, r: int)
    requires d == 2 || d == 4 || d == 16 || d == 32 || d == 0x1_0000
    requires 0 <= r < d
    ensures (q * d + r) / d == q && (q * d + r) % d == r
  {
    if d == 2 {
    } else if d == 4 {
    } else if d == 16 {
    } else if d == 32 {
    } else {
    }
  }

  lemma FieldsSplit(op: int, a: Reg, b: Reg, low: int)
    requires 0 <= op < 64 && 0 <= low < 0x1_0000
    ensures var w := Fields(op, a, b, low);
            && 0 <= w < 0x1_0000_0000 && w / 0x1_0000 == (op * 32 + a) * 32 + b && w % 0x1_0000 == low
            && w / 0x1_0000 % 32 == b && w / 0x1_0000 / 32 == op * 32 + a
            && w / 0x1_0000 / 32 % 32 == a && w / 0x1_0000 / 32 / 32 == op
  {
    Peel((op * 32 + a) * 32 + b, 0x1_0000, low);
    Peel(op * 32 + a, 32, b);
    Peel(op, 32, a);
  }

  lemma BranchSplit(li: int, aa: bool, lk: bool)
    requires Encodable(B(li, aa, lk))
    ensures var w := 18 * 0x400_0000 + li % 0x400_0000 + 2 * Bit(aa) + Bit(lk);
            0 <= w < 0x1_0000_0000 && w / 0x1_0000 / 32 / 32 == 18 && DecodeB(w) == B(li, aa, lk)
  {
    var words := if li < 0 then li / 4 + 0x100_0000 else li / 4;
    assert li % 0x400_0000 == 4 * words;
    var low := 2 * Bit(aa) + Bit(lk);
    Peel(18 * 0x100_0000 + words, 4, low);
    var w := 18 * 0x400_0000 + li % 0x400_0000 + 2 * Bit(aa) + Bit(lk);
    assert w == (18 * 0x100_0000 + words) * 4 + low;
    assert w / 4 % 0x100_0000 == words;
    Peel(2 * (18 * 0x100_0000 + words) + Bit(aa), 2, Bit(lk));
  }

  lemma SignedField(x: int)
    requires In16(x)
    ensures 0 <= x % 0x1_0000 < 0x1_0000 && Signed16(x % 0x1_0000) == x
  {
  }

  lemma DecodeImmediate(op: int, a: Reg, b: Reg, low: int)
    requires 0 <= low < 0x1_0000
    requires op == 14 || op == 15 || op == 12 || op == 24 || op == 32 || op == 34
    ensures Decode(Fields(op, a, b, low)) ==
            Some(if op == 14 then Addi(a, b, Signed16(low))
                 else if op == 15 then Addis(a, b, Signed16(low))
                 else if op == 12 then Addic(a, b, Signed16(low))
                 else if op == 24 then Ori(b, a, low)
                 else if op == 32 then Lwz(a, Signed16(low), b)
                 else Lbz(a, Signed16(low), b))
  {
    FieldsSplit(op, a, b, low);
    hide Fields, Signed16, DecodeB;
  }

  lemma DecodeCompare(bf: CondField, ra: Reg, low: int)
    requires 0 <= low < 0x1_0000
    ensures Decode(Fields(11, bf * 4, ra, low)) == Some(Cmpwi(bf, ra, Signed16(low)))
  {
    FieldsSplit(11, bf * 4, ra, low);
    hide Fields, Signed16, DecodeB;
  }

  lemma DecodeConditional(onTrue: bool, bi: Reg, low: int)
    requires 0 <= low < 0x1_0000 && low % 4 == 0
    ensures Decode(Fields(16, if onTrue then 12 else 4, bi, low)) == Some(Bc(onTrue, bi, Signed16(low)))
  {
    FieldsSplit(16, if onTrue then 12 else 4, bi, low);
    hide Fields, Signed16, DecodeB;
  }

  lemma DecodeOr(ra: Reg, rs: Reg, rb: Reg)
    ensures Decode(Encode(Or(ra, rs, rb))) == Some(Or(ra, rs, rb))
  {
    var low := rb * 0x800 + 444 * 2;
    FieldsSplit(31, rs, ra, low);
    assert low / 0x800 == rb && low % 0x800 == 444 * 2;
    hide Fields, Signed16, DecodeB;
  }

  lemma MaskFields(rs: Reg, ra: Reg, sh: Reg, mb: Reg, me: Reg)
    ensures var low := ((sh * 32 + mb) * 32 + me) * 2;
            0 <= low < 0x1_0000 && DecodeMask(rs, ra, low) == Some(Rlwinm(ra, rs, sh, mb, me))
  {
    Peel((sh * 32 + mb) * 32 + me, 2, 0);
    Peel(sh * 32 + mb, 32, me);
    Peel(sh, 32, mb);
  }

  lemma DecodeRlwinm(ra: Reg, rs: Reg, sh: Reg, mb: Reg, me: Reg)
    requires Encodable(Rlwinm(ra, rs, sh, mb, me))
    ensures Decode(Encode(Rlwinm(ra, rs, sh, mb, me))) == Some(Rlwinm(ra, rs, sh, mb, me))
  {
    MaskFields(rs, ra, sh, mb, me);
    FieldsSplit(21, rs, ra, ((sh * 32 + mb) * 32 + me) * 2);
    hide Fields, Signed16, DecodeB, DecodeMask;
  }

  lemma DoublewordFields(rs: Reg, ra: Reg, low: Half, a: int, b: int, c: int, sh: int, mb: int, mbHigh: int,
                         shHigh: int)
    requires 0 <= sh < 32 && 0 <= mb < 32 && 0 <= mbHigh < 2 && 0 <= shHigh < 2
    requires a == sh * 32 + mb && b == a * 2 + mbHigh && c == b * 16 + shHigh && low == c * 2 + 0
    ensures DecodeDoubleword(rs, ra, low) == Some(Rldicl(ra, rs, sh + 32 * shHigh, mb + 32 * mbHigh))
  {
    Peel(c, 2, 0);
    Peel(b, 16, shHigh);
    Peel(a, 2, mbHigh);
    Peel(sh, 32, mb);
    assert low / 2 == c && c / 16 == b && b / 2 == a && a / 32 == sh;
  }

  lemma DecodeRldicl(ra: Reg, rs: Reg, sh: Bit6, mb: Bit6)
    ensures Decode(Encode(Rldicl(ra, rs, sh, mb))) == Some(Rldicl(ra, rs, sh, mb))
  {
    var a := sh % 32 * 32 + mb % 32;
    var b := a * 2 + mb / 32;
    var c := b * 16 + sh / 32;
    DoublewordFields(rs, ra, c * 2, a, b, c, sh % 32, mb % 32, mb / 32, sh / 32);
    FieldsSplit(30, rs, ra, c * 2);
    hide Fields, Signed16, DecodeB, DecodeDoubleword;
  }

  /** Every instruction form decodes from its encoding. */
  lemma DecodeEncode(i: Instr)
    requires Encodable(i)
    ensures Decode(Encode(i)) == Some(i)
  {
    hide Decode, Fields;
    match i {
      case Addi(rt, ra, si) => SignedField(si); DecodeImmediate(14, rt, ra, si % 0x1_0000);
      case Addis(rt, ra, si) => SignedField(si); DecodeImmediate(15, rt, ra, si % 0x1_0000);
      case Addic(rt, ra, si) => SignedField(si); DecodeImmediate(12, rt, ra, si % 0x1_0000);
      case Ori(ra, rs, ui) => DecodeImmediate(24, rs, ra, ui);
      case Lwz(rt, d, ra) => SignedField(d); DecodeImmediate(32, rt, ra, d % 0x1_0000);
      case Lbz(rt, d, ra) => SignedField(d); DecodeImmediate(34, rt, ra, d % 0x1_0000);
      case Cmpwi(bf, ra, si) => SignedField(si); DecodeCompare(bf, ra, si % 0x1_0000);
      case Bc(onTrue, bi, bd) => SignedField(bd); DecodeConditional(onTrue, bi, bd % 0x1_0000);
      case B(li, aa, lk) => DecodeBranch(li, aa, lk);
      case Or(ra, rs, rb) => DecodeOr(ra, rs, rb);
      case Rlwinm(ra, rs, sh, mb, me) => DecodeRlwinm(ra, rs, sh, mb, me);
      case Rldicl(ra, rs, sh, mb) => DecodeRldicl(ra, rs, sh, mb);
    }
  }

  lemma DecodeBranch(li: int, aa: bool, lk: bool)
    requires Encodable(B(li, aa, lk))
    ensures Decode(Encode(B(li, aa, lk))) == Some(B(li, aa, lk))
  {
    BranchSplit(li, aa, lk);
    hide DecodeB, Signed16;
  }
}
