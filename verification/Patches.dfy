/** `ApplyGamePatches`: a table of direct and indirect byte writes folded into memory. */
module Patches {
  import opened Memory

  datatype PatchType = DIRECT | INDIRECT

  /** Target address, source address, length and type; a source of 0 is the null pointer. */
  datatype GamePatch = GamePatch(offset: Word32, source: Word32, size: nat, kind: PatchType) {
    predicate Covers(a: int) { offset <= a < offset + size }
  }

  /** Where the bytes come from: the source itself, or the pointer stored there; 0 when there is none. */
  function SourceOf(m: Mem, p: GamePatch): Word32 {
    if p.kind == INDIRECT then Word(m, p.source) else p.source
  }

  function ApplyOne(m: Mem, p: GamePatch): Mem {
    if SourceOf(m, p) == 0 then m else Write(m, p.offset, Bytes(m, SourceOf(m, p), p.size))
  }

  /** A zero offset ends the table. */
  function ApplyAll(m: Mem, ps: seq<GamePatch>): Mem {
    if ps == [] || ps[0].offset == 0 then m else ApplyAll(ApplyOne(m, ps[0]), ps[1..])
  }

  class GameMemory {
    var cells: Mem

    constructor (m: Mem)
      ensures cells == m
    {
      cells := m;
    }

    /** `memcpy`: the target gets the bytes the source had, every other byte stays. */
    method Copy(to: Word32, from: Word32, n: nat)
      modifies this
      ensures forall a :: to <= a < to + n ==> cells(a) == old(cells)(from + (a - to))
      ensures forall a :: !(to <= a < to + n) ==> cells(a) == old(cells)(a)
      ensures cells == Write(old(cells), to, Bytes(old(cells), from, n))
    {
      cells := Write(cells, to, Bytes(cells, from, n));
    }

    method ApplyGamePatches(patches: seq<GamePatch>, count: nat)
      requires count <= |patches|
      modifies this
      ensures cells == ApplyAll(old(cells), patches[..count])
    {
      ghost var goal := ApplyAll(cells, patches[..count]);
      assert patches[0..count] == patches[..count];
      for i := 0 to count
        invariant ApplyAll(cells, patches[i..count]) == goal
      {
        var p := patches[i];
        assert patches[i..count][0] == p && patches[i..count][1..] == patches[i + 1..count];
        if p.offset == 0 {
          break;
        }
        if p.kind == INDIRECT {
          var source := Word(cells, p.source);
          if source != 0 {
            Copy(p.offset, source, p.size);
          }
        } else if p.source != 0 {
          Copy(p.offset, p.source, p.size);
        }
      }
    }
  }

  // ----- what the table does to each byte -----

  /** The entries before the first zero offset. */
  function Live(ps: seq<GamePatch>): seq<GamePatch> {
    if ps == [] || ps[0].offset == 0 then [] else [ps[0]] + Live(ps[1..])
  }

  /** The range is written by no live entry. */
  predicate Untouched(ps: seq<GamePatch>, a: int, n: nat) {
    forall p :: p in Live(ps) ==> Apart(p.offset, p.size, a, n)
  }

  /** Pointers and source bytes lie outside every target, so no write feeds a later one. */
  predicate SourcesOutside(m: Mem, ps: seq<GamePatch>) {
    forall p :: p in Live(ps) ==>
                  && (p.kind == INDIRECT ==> Untouched(ps, p.source, 4))
                  && (SourceOf(m, p) != 0 ==> Untouched(ps, SourceOf(m, p), p.size))
  }

  /** An entry that has bytes to write, and writes this one. */
  predicate Writes(m: Mem, p: GamePatch, a: int) { SourceOf(m, p) != 0 && p.Covers(a) }

  /** The byte at `a` after the table, read off the memory before it: the last entry that writes it decides. */
  function Patched(m: Mem, ps: seq<GamePatch>, a: int): Byte {
    if ps == [] then m(a)
    else
      var p := ps[|ps| - 1];
      if Writes(m, p, a) then m(SourceOf(m, p) + (a - p.offset)) else Patched(m, ps[..|ps| - 1], a)
  }

  /** The two memories agree on a range. */
  ghost predicate SameRange(m: Mem, n: Mem, a: int, k: nat) { forall x :: a <= x < a + k ==> m(x) == n(x) }

  /** The two memories give an entry the same bytes. */
  ghost predicate SameSource(m: Mem, n: Mem, p: GamePatch) {
    SourceOf(m, p) == SourceOf(n, p) && (SourceOf(m, p) != 0 ==> SameRange(m, n, SourceOf(m, p), p.size))
  }

  ghost predicate SameSources(m: Mem, n: Mem, ps: seq<GamePatch>) { forall p :: p in ps ==> SameSource(m, n, p) }

  lemma {:induction false} PatchedFromFront(m: Mem, n: Mem, p: GamePatch, ps: seq<GamePatch>, a: int)
    requires SameSources(m, n, ps)
    requires n(a) == if Writes(m, p, a) then m(SourceOf(m, p) + (a - p.offset)) else m(a)
    ensures Patched(m, [p] + ps, a) == Patched(n, ps, a)
    decreases |ps|
  {
    var all := [p] + ps;
    if ps == [] {
      assert all[..0] == [];
    } else {
      var q := ps[|ps| - 1];
      assert all[|all| - 1] == q && all[..|all| - 1] == [p] + ps[..|ps| - 1];
      assert q in ps && SameSource(m, n, q);
      if !Writes(m, q, a) {
        PatchedFromFront(m, n, p, ps[..|ps| - 1], a);
      }
    }
  }

  lemma ApplyOneKeeps(m: Mem, p: GamePatch, a: int, k: nat)
    requires Apart(p.offset, p.size, a, k)
    ensures SameRange(m, ApplyOne(m, p), a, k)
  {
  }

  lemma SourcesSurvive(m: Mem, p: GamePatch, ps: seq<GamePatch>, q: GamePatch)
    requires p in Live(ps) && q in Live(ps) && SourcesOutside(m, ps)
    ensures SameSource(m, ApplyOne(m, p), q)
  {
    hide ApplyOne, Live;
    if q.kind == INDIRECT {
      ApplyOneKeeps(m, p, q.source, 4);
    }
    if SourceOf(m, q) != 0 {
      ApplyOneKeeps(m, p, SourceOf(m, q), q.size);
    }
  }

  lemma StillOutside(m: Mem, p: GamePatch, ps: seq<GamePatch>)
    requires p.offset != 0 && SourcesOutside(m, [p] + ps)
    ensures SourcesOutside(ApplyOne(m, p), ps) && SameSources(m, ApplyOne(m, p), Live(ps))
  {
    var all := [p] + ps;
    assert all[1..] == ps && Live(all) == [p] + Live(ps);
    hide ApplyOne, Live, SourceOf;
    forall q | q in Live(ps)
      ensures SameSource(m, ApplyOne(m, p), q)
    {
      SourcesSurvive(m, p, all, q);
    }
  }

  lemma ApplyOneAt(m: Mem, p: GamePatch, a: int)
    ensures ApplyOne(m, p)(a) == if Writes(m, p, a) then m(SourceOf(m, p) + (a - p.offset)) else m(a)
  {
    hide SourceOf;
  }

  lemma Unfolds(m: Mem, ps: seq<GamePatch>)
    requires ps != [] && ps[0].offset != 0
    ensures ApplyAll(m, ps) == ApplyAll(ApplyOne(m, ps[0]), ps[1..]) && Live(ps) == [ps[0]] + Live(ps[1..])
  {
  }

  /**
  Last writer wins: after the table each byte is the one the last live entry that covers it brings from
  the memory before; a byte no entry covers is unchanged.
   */
  lemma {:induction false} LastWriterWins(m: Mem, ps: seq<GamePatch>, a: int)
    requires SourcesOutside(m, ps)
    ensures ApplyAll(m, ps)(a) == Patched(m, Live(ps), a)
    decreases |ps|
  {
    if ps != [] && ps[0].offset != 0 {
      hide ApplyAll, ApplyOne, Live, Patched, SourceOf, Writes, SourcesOutside;
      var p, rest := ps[0], ps[1..];
      assert ps == [p] + rest;
      Unfolds(m, ps);
      StillOutside(m, p, rest);
      LastWriterWins(ApplyOne(m, p), rest, a);
      ApplyOneAt(m, p, a);
      PatchedFromFront(m, ApplyOne(m, p), p, Live(rest), a);
    }
  }

  /** A range no entry writes keeps its bytes, whatever the sources are. */
  lemma {:induction false} UntouchedKept(m: Mem, ps: seq<GamePatch>, a: int, n: nat)
    requires Untouched(ps, a, n)
    ensures SameRange(m, ApplyAll(m, ps), a, n)
    decreases |ps|
  {
    if ps != [] && ps[0].offset != 0 {
      var p, rest := ps[0], ps[1..];
      assert Live(ps) == [p] + Live(rest);
      assert p in Live(ps);
      ApplyOneKeeps(m, p, a, n);
      UntouchedKept(ApplyOne(m, p), rest, a, n);
    }
  }

  lemma SourcesKept(m: Mem, ps: seq<GamePatch>)
    requires SourcesOutside(m, ps)
    ensures SameSources(m, ApplyAll(m, ps), Live(ps))
  {
    hide ApplyAll, Live, Untouched;
    forall q | q in Live(ps)
      ensures SameSource(m, ApplyAll(m, ps), q)
    {
      if q.kind == INDIRECT {
        UntouchedKept(m, ps, q.source, 4);
      }
      if SourceOf(m, q) != 0 {
        UntouchedKept(m, ps, SourceOf(m, q), q.size);
      }
    }
  }

  lemma {:induction false} PatchedAgain(m: Mem, n: Mem, ps: seq<GamePatch>, a: int)
    requires SameSources(m, n, ps) && n(a) == Patched(m, ps, a)
    ensures Patched(n, ps, a) == Patched(m, ps, a)
    decreases |ps|
  {
    if ps != [] {
      var q := ps[|ps| - 1];
      assert q in ps && SameSource(m, n, q);
      if !Writes(m, q, a) {
        PatchedAgain(m, n, ps[..|ps| - 1], a);
      }
    }
  }

  /** Applying a table twice is applying it once. */
  lemma ApplyingTwice(m: Mem, ps: seq<GamePatch>)
    requires SourcesOutside(m, ps)
    ensures Same(ApplyAll(ApplyAll(m, ps), ps), ApplyAll(m, ps))
  {
    hide ApplyAll, Live, Patched, Untouched, SourceOf;
    var n := ApplyAll(m, ps);
    SourcesKept(m, ps);
    forall a
      ensures ApplyAll(n, ps)(a) == n(a)
    {
      LastWriterWins(m, ps, a);
      LastWriterWins(n, ps, a);
      PatchedAgain(m, n, Live(ps), a);
    }
  }

  // ----- tables whose targets do not overlap -----

  predicate Disjoint(ps: seq<GamePatch>) {
    forall i, j :: 0 <= i < j < |ps| ==> Apart(ps[i].offset, ps[i].size, ps[j].offset, ps[j].size)
  }

  predicate NoZero(ps: seq<GamePatch>) { forall p :: p in ps ==> p.offset != 0 }

  lemma {:induction false} AllLive(ps: seq<GamePatch>)
    requires NoZero(ps)
    ensures Live(ps) == ps
  {
    if ps != [] {
      assert ps[0] in ps && ps == [ps[0]] + ps[1..];
      AllLive(ps[1..]);
    }
  }

  lemma {:induction false} PatchedByNone(m: Mem, ps: seq<GamePatch>, a: int)
    requires forall p :: p in ps ==> !Writes(m, p, a)
    ensures Patched(m, ps, a) == m(a)
    decreases |ps|
  {
    if ps != [] {
      assert ps[|ps| - 1] in ps;
      PatchedByNone(m, ps[..|ps| - 1], a);
    }
  }

  /** No two different entries that have bytes to write overlap. */
  predicate EffectiveApart(m: Mem, ps: seq<GamePatch>) {
    forall p, q :: p in ps && q in ps && p != q && SourceOf(m, p) != 0 && SourceOf(m, q) != 0 ==>
                     Apart(p.offset, p.size, q.offset, q.size)
  }

  lemma {:induction false} PatchedByOne(m: Mem, ps: seq<GamePatch>, p: GamePatch, a: int)
    requires p in ps && Writes(m, p, a) && forall q :: q in ps && Writes(m, q, a) ==> q == p
    ensures Patched(m, ps, a) == m(SourceOf(m, p) + (a - p.offset))
    decreases |ps|
  {
    var q := ps[|ps| - 1];
    assert q in ps;
    if !Writes(m, q, a) {
      PatchedByOne(m, ps[..|ps| - 1], p, a);
    }
  }

  lemma OneWriter(m: Mem, ps: seq<GamePatch>, p: GamePatch, a: int)
    requires EffectiveApart(m, ps) && p in ps && Writes(m, p, a)
    ensures forall q :: q in ps && Writes(m, q, a) ==> q == p
  {
    hide SourceOf;
  }

  /**
  The live entries that have a source may be applied in any order, and more than once, as long as they do not
  overlap: two tables with the same live entries leave the same memory.
   */
  lemma AnyOrder(m: Mem, ps: seq<GamePatch>, qs: seq<GamePatch>)
    requires SourcesOutside(m, ps) && EffectiveApart(m, Live(ps))
    requires forall p :: p in Live(ps) <==> p in Live(qs)
    ensures Same(ApplyAll(m, ps), ApplyAll(m, qs))
  {
    hide ApplyAll, Live, SourceOf, Apart, Writes;
    assert SourcesOutside(m, qs);
    assert EffectiveApart(m, Live(qs));
    forall a
      ensures ApplyAll(m, ps)(a) == ApplyAll(m, qs)(a)
    {
      LastWriterWins(m, ps, a);
      LastWriterWins(m, qs, a);
      if p :| p in Live(ps) && Writes(m, p, a) {
        OneWriter(m, Live(ps), p, a);
        OneWriter(m, Live(qs), p, a);
        PatchedByOne(m, Live(ps), p, a);
        PatchedByOne(m, Live(qs), p, a);
      } else {
        PatchedByNone(m, Live(ps), a);
        PatchedByNone(m, Live(qs), a);
      }
    }
  }

  lemma ByteFilled(m: Mem, ps: seq<GamePatch>, p: GamePatch, i: nat)
    requires SourcesOutside(m, ps) && EffectiveApart(m, Live(ps)) && p in Live(ps) && SourceOf(m, p) != 0 && i < p.size
    ensures ApplyAll(m, ps)(p.offset + i) == m(SourceOf(m, p) + i)
  {
    hide ApplyAll, Live, SourceOf, EffectiveApart, SourcesOutside, Patched;
    var a := p.offset + i;
    LastWriterWins(m, ps, a);
    OneWriter(m, Live(ps), p, a);
    PatchedByOne(m, Live(ps), p, a);
    assert a - p.offset == i;
  }

  /** After such a table the target of every live entry with a source holds the bytes of the source. */
  lemma TargetFilled(m: Mem, ps: seq<GamePatch>, p: GamePatch)
    requires SourcesOutside(m, ps) && EffectiveApart(m, Live(ps)) && p in Live(ps) && SourceOf(m, p) != 0
    ensures Bytes(ApplyAll(m, ps), p.offset, p.size) == Bytes(m, SourceOf(m, p), p.size)
  {
    hide ApplyAll, SourcesOutside, Live, EffectiveApart, SourceOf;
    var after, source := Bytes(ApplyAll(m, ps), p.offset, p.size), Bytes(m, SourceOf(m, p), p.size);
    forall i | 0 <= i < p.size
      ensures after[i] == source[i]
    {
      ByteFilled(m, ps, p, i);
    }
  }

  /** A table without overlaps and without a zero offset is one of those. */
  lemma DisjointIsApart(m: Mem, ps: seq<GamePatch>)
    requires NoZero(ps) && Disjoint(ps)
    ensures Live(ps) == ps && EffectiveApart(m, Live(ps))
  {
    AllLive(ps);
    hide SourceOf, Live;
    forall p, q | p in ps && q in ps && p != q
      ensures Apart(p.offset, p.size, q.offset, q.size)
    {
      var i :| 0 <= i < |ps| && ps[i] == p;
      var j :| 0 <= j < |ps| && ps[j] == q;
      assert i < j || j < i;
    }
  }

  // ----- what becomes of one entry -----

  /** No two different live entries overlap, whether or not they have a source. */
  predicate LiveApart(ps: seq<GamePatch>) {
    forall p, q :: p in Live(ps) && q in Live(ps) && p != q ==> Apart(p.offset, p.size, q.offset, q.size)
  }

  lemma RangeUnwritten(m: Mem, ps: seq<GamePatch>, p: GamePatch)
    requires SourcesOutside(m, ps) && LiveApart(ps) && p in Live(ps) && SourceOf(m, p) == 0
    ensures Bytes(ApplyAll(m, ps), p.offset, p.size) == Bytes(m, p.offset, p.size)
  {
    hide ApplyAll, SourcesOutside, Live, SourceOf;
    var after, before := Bytes(ApplyAll(m, ps), p.offset, p.size), Bytes(m, p.offset, p.size);
    forall i | 0 <= i < p.size
      ensures after[i] == before[i]
    {
      var a := p.offset + i;
      LastWriterWins(m, ps, a);
      assert forall q :: q in Live(ps) ==> !Writes(m, q, a);
      PatchedByNone(m, Live(ps), a);
    }
  }

  /**
  An indirect entry copies from where the variable points, and a null pointer is skipped; a direct entry copies
  the variable itself.
   */
  lemma EntryDone(m: Mem, ps: seq<GamePatch>, p: GamePatch)
    requires SourcesOutside(m, ps) && LiveApart(ps) && p in Live(ps)
    ensures var after := Bytes(ApplyAll(m, ps), p.offset, p.size);
            && (p.kind == INDIRECT && Word(m, p.source) != 0 ==> after == Bytes(m, Word(m, p.source), p.size))
            && (p.kind == INDIRECT && Word(m, p.source) == 0 ==> after == Bytes(m, p.offset, p.size))
            && (p.kind == DIRECT && p.source != 0 ==> after == Bytes(m, p.source, p.size))
            && (p.kind == DIRECT && p.source == 0 ==> after == Bytes(m, p.offset, p.size))
  {
    assert SourceOf(m, p) == if p.kind == INDIRECT then Word(m, p.source) else p.source;
    hide ApplyAll, SourcesOutside, Live, SourceOf, Bytes, Word;
    if SourceOf(m, p) == 0 {
      RangeUnwritten(m, ps, p);
    } else {
      TargetFilled(m, ps, p);
    }
  }

  /** An entry at address 0 ends the table, whatever follows it. */
  lemma {:induction false} EndsAtZero(m: Mem, ps: seq<GamePatch>, end: GamePatch, rest: seq<GamePatch>)
    requires end.offset == 0
    ensures ApplyAll(m, ps + [end] + rest) == ApplyAll(m, ps)
    decreases |ps|
  {
    var all := ps + [end] + rest;
    if ps == [] {
      assert all[0] == end;
    } else {
      assert all[0] == ps[0] && all[1..] == ps[1..] + [end] + rest;
      if ps[0].offset != 0 { EndsAtZero(ApplyOne(m, ps[0]), ps[1..], end, rest); }
    }
  }
}
