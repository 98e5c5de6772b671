/** The Go tool's patch entries: overwrites and code written as lists of 32-bit words for the emulator. */
module EmulatorPatches {
  import opened Numerals
  import opened Memory
  import opened Patches
  import opened Wrappers

  const SPACE: int := 0x1_0000_0000

  datatype PatchEntry = PatchEntry(kind: string, address: Word32, value: string)

  function HexByte(b: Byte): string { [DigitChar(b / 16, false), DigitChar(b % 16, false)] }

  /** `%#08x` of four bytes: ten characters, so the width of eight adds nothing. */
  function HexText(a: Byte, b: Byte, c: Byte, d: Byte): string {
    "0x" + HexByte(a) + HexByte(b) + HexByte(c) + HexByte(d)
  }

  function HexOf(patch: seq<Byte>, i: nat): string
    requires i + 4 <= |patch|
  {
    HexText(patch[i], patch[i + 1], patch[i + 2], patch[i + 3])
  }

  /** One entry a word, at consecutive addresses modulo 2^32. */
  function OverwriteEntries(offset: nat, patch: seq<Byte>): seq<PatchEntry>
    requires |patch| % 4 == 0
    decreases |patch|
  {
    if patch == [] then []
    else [PatchEntry("be32", offset % SPACE, HexOf(patch, 0))] + OverwriteEntries(offset + 4, patch[4..])
  }

  /** The number of words to allocate, then the words, which carry no address. */
  function CodeEntries(hookOffset: Word32, patch: seq<Byte>): seq<PatchEntry>
    requires |patch| % 4 == 0
  {
    [PatchEntry("calloc", hookOffset, Numeral(|patch| / 4, 10, false))] + WordEntries(patch)
  }

  function WordEntries(patch: seq<Byte>): seq<PatchEntry>
    requires |patch| % 4 == 0
    decreases |patch|
  {
    if patch == [] then [] else [PatchEntry("be32", 0, HexOf(patch, 0))] + WordEntries(patch[4..])
  }

  lemma {:induction false} OverwriteEntryAt(offset: nat, patch: seq<Byte>, k: nat)
    requires |patch| % 4 == 0 && 4 * k <= |patch|
    ensures |OverwriteEntries(offset, patch)| == |patch| / 4
    ensures 4 * k < |patch| ==>
              OverwriteEntries(offset, patch)[k] == PatchEntry("be32", (offset + 4 * k) % SPACE, HexOf(patch, 4 * k))
    decreases |patch|
  {
    hide HexText;
    if patch != [] {
      OverwriteEntryAt(offset + 4, patch[4..], if k == 0 then 0 else k - 1);
    }
  }

  lemma {:induction false} WordEntryAt(patch: seq<Byte>, k: nat)
    requires |patch| % 4 == 0 && 4 * k <= |patch|
    ensures |WordEntries(patch)| == |patch| / 4
    ensures 4 * k < |patch| ==> WordEntries(patch)[k] == PatchEntry("be32", 0, HexOf(patch, 4 * k))
    decreases |patch|
  {
    hide HexText;
    if patch != [] {
      WordEntryAt(patch[4..], if k == 0 then 0 else k - 1);
    }
  }

  const BLANK: PatchEntry := PatchEntry("", 0, "")

  method MakeOverwritePatch(hookOffset: Word32, patch: seq<Byte>) returns (r: Result<seq<PatchEntry>, string>)
    ensures r == if |patch| % 4 != 0 then Err("invalid patch size") else Ok(OverwriteEntries(hookOffset, patch))
    ensures r.Ok? ==> AllWords(r.value)
  {
    hide OverwriteEntries, HexOf, IsHexWord;
    if |patch| % 4 != 0 {
      return Err("invalid patch size");
    }
    var out := new PatchEntry[|patch| / 4](_ => BLANK);
    var i := 0;
    while i < |patch|
      invariant 0 <= i <= |patch| && i % 4 == 0
      invariant forall k :: 0 <= k < i / 4 ==>
                              out[k] == PatchEntry("be32", (hookOffset + 4 * k) % SPACE, HexOf(patch, 4 * k))
    {
      out[i / 4] := PatchEntry("be32", (hookOffset + i) % SPACE, HexOf(patch, i));
      i := i + 4;
    }
    OverwriteEntryAt(hookOffset, patch, 0);
    forall k | 0 <= k < |patch| / 4
      ensures out[..][k] == OverwriteEntries(hookOffset, patch)[k]
    {
      OverwriteEntryAt(hookOffset, patch, k);
    }
    assert out[..] == OverwriteEntries(hookOffset, patch);
    OverwriteWords(hookOffset, patch);
    return Ok(out[..]);
  }

  method MakeCodePatch(hookOffset: Word32, patch: seq<Byte>) returns (r: Result<seq<PatchEntry>, string>)
    ensures r == if |patch| % 4 != 0 then Err("invalid patch size") else Ok(CodeEntries(hookOffset, patch))
    ensures r.Ok? ==> |r.value| >= 1 && AllWords(r.value[1..])
  {
    hide WordEntries, HexOf, IsHexWord, Numeral;
    if |patch| % 4 != 0 {
      return Err("invalid patch size");
    }
    var out := new PatchEntry[|patch| / 4 + 1](_ => BLANK);
    out[0] := PatchEntry("calloc", hookOffset, Numeral(|patch| / 4, 10, false));
    var i := 0;
    while i < |patch|
      invariant 0 <= i <= |patch| && i % 4 == 0
      invariant out[0] == PatchEntry("calloc", hookOffset, Numeral(|patch| / 4, 10, false))
      invariant forall k :: 0 <= k < i / 4 ==> out[k + 1] == PatchEntry("be32", 0, HexOf(patch, 4 * k))
    {
      out[i / 4 + 1] := PatchEntry("be32", 0, HexOf(patch, i));
      i := i + 4;
    }
    WordEntryAt(patch, 0);
    forall k | 0 <= k < |patch| / 4
      ensures out[..][k + 1] == WordEntries(patch)[k]
    {
      WordEntryAt(patch, k);
    }
    assert out[..] == [out[0]] + WordEntries(patch);
    WordEntriesRebuild(patch);
    assert out[..][1..] == WordEntries(patch);
    return Ok(out[..]);
  }

  // ----- reading the entries back -----

  /** A hexadecimal word: `0x` and eight digits, the letters in lower case. */
  predicate IsHexWord(v: string) {
    |v| == 10 && v[..2] == "0x" && forall i :: 2 <= i < 10 ==> '0' <= v[i] <= '9' || 'a' <= v[i] <= 'f'
  }

  lemma LowerCase(d: int)
    requires 0 <= d < 16
    ensures var c := DigitChar(d, false); '0' <= c <= '9' || 'a' <= c <= 'f'
  {
  }

  lemma HexWordText(a: Byte, b: Byte, c: Byte, d: Byte)
    ensures IsHexWord(HexText(a, b, c, d))
  {
    LowerCase(a / 16);
    LowerCase(a % 16);
    LowerCase(b / 16);
    LowerCase(b % 16);
    LowerCase(c / 16);
    LowerCase(c % 16);
    LowerCase(d / 16);
    LowerCase(d % 16);
    hide DigitChar;
    var v := HexText(a, b, c, d);
    assert v[..2] == "0x";
  }

  /** The word the text of an entry denotes. */
  function WordOf(e: PatchEntry): Word32
    requires IsHexWord(e.value)
  {
    Value(e.value[2..], 16) % SPACE
  }

  lemma HexDigit(ds: string, b: Byte)
    ensures Value(ds + HexByte(b), 16) == 256 * Value(ds, 16) + b
  {
    ValueSnoc(ds, DigitChar(b / 16, false), 16);
    ValueSnoc(ds + [DigitChar(b / 16, false)], DigitChar(b % 16, false), 16);
    DigitCharValue(b / 16, false);
    DigitCharValue(b % 16, false);
    assert ds + HexByte(b) == ds + [DigitChar(b / 16, false)] + [DigitChar(b % 16, false)];
    hide Value;
  }

  lemma HexPair(a: Byte, b: Byte)
    ensures Value(HexByte(a) + HexByte(b), 16) == 256 * a + b
  {
    assert [] + HexByte(a) == HexByte(a);
    assert Value([], 16) == 0;
    HexDigit([], a);
    hide Value, HexByte;
    HexDigit(HexByte(a), b);
  }

  lemma HexReads(a: Byte, b: Byte, c: Byte, d: Byte)
    ensures Value(HexText(a, b, c, d)[2..], 16) == BytesWord(a, b, c, d)
  {
    hide Value, HexByte;
    var two := HexByte(a) + HexByte(b);
    var three := two + HexByte(c);
    HexPair(a, b);
    HexDigit(two, c);
    HexDigit(three, d);
    assert HexText(a, b, c, d) == "0x" + (three + HexByte(d));
  }

  /** The text of a word of the patch denotes it. */
  lemma EntryReads(kind: string, address: Word32, patch: seq<Byte>, i: nat)
    requires i + 4 <= |patch|
    ensures IsHexWord(HexOf(patch, i))
    ensures WordBytes(WordOf(PatchEntry(kind, address, HexOf(patch, i)))) == patch[i..i + 4]
  {
    hide Value, WordBytes, BytesWord;
    HexWordText(patch[i], patch[i + 1], patch[i + 2], patch[i + 3]);
    HexReads(patch[i], patch[i + 1], patch[i + 2], patch[i + 3]);
    hide IsHexWord, HexText;
    BytesRoundTrip(patch[i], patch[i + 1], patch[i + 2], patch[i + 3]);
  }

  /** Entries that hold a 32-bit word. */
  predicate AllWords(es: seq<PatchEntry>) { forall e :: e in es ==> e.kind == "be32" && IsHexWord(e.value) }

  /** The bytes a list of word entries holds. */
  function BytesOf(es: seq<PatchEntry>): seq<Byte>
    requires AllWords(es)
  {
    if es == [] then [] else WordBytes(WordOf(es[0])) + BytesOf(es[1..])
  }

  /** Each entry in turn is a big-endian word write. */
  function Emulate(m: Mem, es: seq<PatchEntry>): Mem
    requires AllWords(es)
  {
    if es == [] then m else Emulate(Write(m, es[0].address, WordBytes(WordOf(es[0]))), es[1..])
  }

  lemma {:induction false} WordEntriesRebuild(patch: seq<Byte>)
    requires |patch| % 4 == 0
    ensures AllWords(WordEntries(patch)) && BytesOf(WordEntries(patch)) == patch
    decreases |patch|
  {
    hide HexOf, WordOf, WordBytes;
    if patch != [] {
      var first, rest := PatchEntry("be32", 0, HexOf(patch, 0)), WordEntries(patch[4..]);
      EntryReads("be32", 0, patch, 0);
      WordEntriesRebuild(patch[4..]);
      assert WordEntries(patch) == [first] + rest;
      assert patch[0..4] + patch[4..] == patch;
    }
  }

  /** A code patch says how many words it has, at the hook's address, and its words are the patch. */
  lemma CodeRebuilds(hookOffset: Word32, patch: seq<Byte>)
    requires |patch| % 4 == 0
    ensures var es := CodeEntries(hookOffset, patch);
            && |es| >= 1 && es[0].kind == "calloc" && es[0].address == hookOffset
            && Value(es[0].value, 10) == |es| - 1
            && AllWords(es[1..]) && BytesOf(es[1..]) == patch
  {
    hide WordEntries, Value, Numeral;
    NumeralDenotes(|patch| / 4, 10, false);
    WordEntryAt(patch, 0);
    WordEntriesRebuild(patch);
    assert CodeEntries(hookOffset, patch)[1..] == WordEntries(patch);
  }

  /** The entries for the instruction that LBP2's notification switch is set to. */
  lemma OneWord()
    ensures OverwriteEntries(0x23B398, [0x38, 0, 0, 0]) == [PatchEntry("be32", 0x23B398, "0x38000000")]
    ensures CodeEntries(0x23B398, [0x38, 0, 0, 0])
         == [PatchEntry("calloc", 0x23B398, "1"), PatchEntry("be32", 0, "0x38000000")]
  {
    var patch: seq<Byte> := [0x38, 0, 0, 0];
    OneWordText();
    hide HexText;
    assert patch[4..] == [] && OverwriteEntries(0x23B398 + 4, []) == [] && WordEntries([]) == [];
    assert Numeral(1, 10, false) == "1";
  }

  /** Addresses wrap at 2^32. */
  lemma TwoWords()
    ensures OverwriteEntries(0xFFFF_FFFC, [0x38, 0, 0, 0, 0x38, 0, 0, 0])
         == [PatchEntry("be32", 0xFFFF_FFFC, "0x38000000"), PatchEntry("be32", 0, "0x38000000")]
  {
    var patch: seq<Byte> := [0x38, 0, 0, 0, 0x38, 0, 0, 0];
    var rest: seq<Byte> := [0x38, 0, 0, 0];
    OneWordText();
    hide HexText;
    assert patch[4..] == rest && rest[4..] == [] && OverwriteEntries(0x1_0000_0004, []) == [];
    assert OverwriteEntries(0x1_0000_0000, rest) == [PatchEntry("be32", 0, "0x38000000")];
  }

  lemma OneWordText()
    ensures HexText(0x38, 0, 0, 0) == "0x38000000"
  {
    assert HexByte(0x38) == "38" && HexByte(0) == "00";
    hide HexByte;
  }

  lemma OverwriteWords(offset: nat, patch: seq<Byte>)
    requires |patch| % 4 == 0
    ensures AllWords(OverwriteEntries(offset, patch))
  {
    hide OverwriteEntries;
    var es := OverwriteEntries(offset, patch);
    OverwriteEntryAt(offset, patch, 0);
    forall k | 0 <= k < |es|
      ensures es[k].kind == "be32" && IsHexWord(es[k].value)
    {
      OverwriteEntryAt(offset, patch, k);
      EntryReads("be32", 0, patch, 4 * k);
    }
  }

  /** Writing the first word and then the rest is writing it all. */
  lemma WriteSplit(m: Mem, at: int, bs: seq<Byte>)
    requires |bs| >= 4
    ensures Same(Write(Write(m, at, bs[0..4]), at + 4, bs[4..]), Write(m, at, bs))
  {
  }

  lemma {:induction false} EmulateSame(m: Mem, n: Mem, es: seq<PatchEntry>)
    requires AllWords(es) && Same(m, n)
    ensures Same(Emulate(m, es), Emulate(n, es))
    decreases |es|
  {
    hide WordOf, WordBytes;
    if es != [] {
      var bs := WordBytes(WordOf(es[0]));
      EmulateSame(Write(m, es[0].address, bs), Write(n, es[0].address, bs), es[1..]);
    }
  }

  lemma {:induction false} EmulateAppend(m: Mem, es: seq<PatchEntry>, fs: seq<PatchEntry>)
    requires AllWords(es) && AllWords(fs)
    ensures Emulate(m, es + fs) == Emulate(Emulate(m, es), fs)
    decreases |es|
  {
    hide WordOf, WordBytes;
    if es == [] {
      assert es + fs == fs;
    } else {
      assert (es + fs)[0] == es[0] && (es + fs)[1..] == es[1..] + fs;
      EmulateAppend(Write(m, es[0].address, WordBytes(WordOf(es[0]))), es[1..], fs);
    }
  }

  /** The overwrite entries, run in order, write the patch at the offset. */
  lemma {:induction false} OverwriteAgrees(m: Mem, offset: nat, patch: seq<Byte>)
    requires |patch| % 4 == 0 && offset + |patch| <= SPACE
    ensures AllWords(OverwriteEntries(offset, patch))
    ensures Same(Emulate(m, OverwriteEntries(offset, patch)), Write(m, offset, patch))
    decreases |patch|
  {
    hide HexOf, WordOf, WordBytes;
    OverwriteWords(offset, patch);
    if patch != [] {
      var first, rest := PatchEntry("be32", offset % SPACE, HexOf(patch, 0)), OverwriteEntries(offset + 4, patch[4..]);
      EntryReads("be32", offset % SPACE, patch, 0);
      assert offset % SPACE == offset;
      OverwriteAgrees(Write(m, offset, patch[0..4]), offset + 4, patch[4..]);
      assert OverwriteEntries(offset, patch)[1..] == rest;
      WriteSplit(m, offset, patch);
    }
  }

  // ----- whole tables -----

  /** A table the tool can express: entries without a source, or of whole words inside the address space. */
  predicate Expressible(m: Mem, ps: seq<GamePatch>) {
    forall p :: p in ps && SourceOf(m, p) != 0 ==> p.size % 4 == 0 && p.offset + p.size <= SPACE
  }

  /** The entries for a table, the bytes of every entry taken from the memory before it; none without a source. */
  function TableEntries(m: Mem, ps: seq<GamePatch>): seq<PatchEntry>
    requires Expressible(m, ps)
  {
    if ps == [] then []
    else
      assert ps[0] in ps;
      PatchEntries(m, ps[0]) + TableEntries(m, ps[1..])
  }

  function PatchEntries(m: Mem, p: GamePatch): seq<PatchEntry>
    requires SourceOf(m, p) != 0 ==> p.size % 4 == 0
  {
    if SourceOf(m, p) == 0 then [] else OverwriteEntries(p.offset, Bytes(m, SourceOf(m, p), p.size))
  }

  lemma {:induction false} TableEntriesSame(m: Mem, n: Mem, ps: seq<GamePatch>)
    requires Expressible(m, ps) && SameSources(m, n, ps)
    ensures Expressible(n, ps) && TableEntries(n, ps) == TableEntries(m, ps)
    decreases |ps|
  {
    hide OverwriteEntries, SourceOf;
    assert forall p :: p in ps ==> SameSource(m, n, p);
    if ps != [] {
      var p := ps[0];
      assert p in ps && SameSource(m, n, p);
      if SourceOf(m, p) != 0 {
        assert Bytes(m, SourceOf(m, p), p.size) == Bytes(n, SourceOf(n, p), p.size);
      }
      TableEntriesSame(m, n, ps[1..]);
    }
  }

  /** One entry of a table. */
  lemma PatchAgrees(m: Mem, p: GamePatch)
    requires SourceOf(m, p) != 0 ==> p.size % 4 == 0 && p.offset + p.size <= SPACE
    ensures AllWords(PatchEntries(m, p)) && Same(Emulate(m, PatchEntries(m, p)), ApplyOne(m, p))
  {
    hide SourceOf, OverwriteEntries;
    if SourceOf(m, p) != 0 {
      OverwriteAgrees(m, p.offset, Bytes(m, SourceOf(m, p), p.size));
    }
  }

  /** Run in order, the entries of a table, up to a zero offset, leave the memory `ApplyGamePatches` leaves. */
  lemma {:induction false} EmulatorAgrees(m: Mem, ps: seq<GamePatch>)
    requires SourcesOutside(m, ps) && Expressible(m, Live(ps))
    ensures AllWords(TableEntries(m, Live(ps)))
    ensures Same(Emulate(m, TableEntries(m, Live(ps))), ApplyAll(m, ps))
    decreases |ps|
  {
    assert Emulate(m, []) == m;
    hide PatchEntries, SourceOf, Untouched, Emulate, WordOf, ApplyOne;
    if ps != [] && ps[0].offset != 0 {
      var p, rest := ps[0], ps[1..];
      assert ps == [p] + rest && Live(ps) == [p] + Live(rest);
      assert p in Live(ps) && Live(ps)[1..] == Live(rest);
      var first, n := PatchEntries(m, p), ApplyOne(m, p);
      StillOutside(m, p, rest);
      TableEntriesSame(m, n, Live(rest));
      EmulatorAgrees(n, rest);
      PatchAgrees(m, p);
      EmulateAppend(m, first, TableEntries(m, Live(rest)));
      EmulateSame(Emulate(m, first), n, TableEntries(m, Live(rest)));
    }
  }
}
