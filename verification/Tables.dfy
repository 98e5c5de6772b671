/** The four patch tables the module ships. */
module Tables {
  import opened Memory
  import opened Patches

  const URL_LENGTH: nat := 70
  const DIGEST_LENGTH: nat := 18
  const NETWORK_KEY_SIZE: nat := 16
  const USER_AGENT_LENGTH: nat := 22

  /** The addresses of the module's variables and code labels the tables refer to. */
  datatype Globals = Globals(networkKey: Word32, userAgent: Word32, serverURL: Word32, serverDigest: Word32,
                             playlist: Word32, notification: Word32, scriptHook: Word32, forceJoin: Word32)

  function LBP1Patches(g: Globals): seq<GamePatch> {
    [ GamePatch(0x0074C418, g.networkKey, NETWORK_KEY_SIZE, INDIRECT),
      GamePatch(0x0079FDA0, g.userAgent, USER_AGENT_LENGTH, INDIRECT),
      GamePatch(0x00767C40, g.serverURL, URL_LENGTH, INDIRECT),  // HTTPS
      GamePatch(0x00767CF8, g.serverURL, URL_LENGTH, INDIRECT),  // HTTP
      GamePatch(0x0079FBC0, g.serverDigest, DIGEST_LENGTH, INDIRECT),
      GamePatch(0x0074C2C0, g.playlist, 1, DIRECT),
      GamePatch(0x00081BC8, g.scriptHook, 4, DIRECT),
      GamePatch(0x003ab70c, g.forceJoin, 64, DIRECT) ]
  }

  function LBP2Patches(g: Globals): seq<GamePatch> {
    [ GamePatch(0x00C248CC, g.networkKey, NETWORK_KEY_SIZE, INDIRECT),
      GamePatch(0x00C36320, g.userAgent, USER_AGENT_LENGTH, INDIRECT),
      GamePatch(0x00C51B68, g.serverURL, URL_LENGTH, INDIRECT),  // HTTPS
      GamePatch(0x00C51C08, g.serverURL, URL_LENGTH, INDIRECT),  // HTTP
      GamePatch(0x00C361D0, g.serverDigest, DIGEST_LENGTH, INDIRECT),
      GamePatch(0x0023B398, g.notification, 4, DIRECT),
      GamePatch(0x00153D74, g.scriptHook, 4, DIRECT),
      GamePatch(0x00285fb8, g.forceJoin, 120, DIRECT) ]
  }

  /** The target addresses of a version of LBP3, in table order. */
  datatype LBP3Offsets = LBP3Offsets(networkKey: Word32, userAgent: Word32, https: Word32, http: Word32,
                                     presence: Word32, live: Word32, digest: Word32, notification: Word32,
                                     resourceCheck: Word32, forceJoin: Word32)

  const LBP3_TARGETS :=
    LBP3Offsets(0x00D9D21C, 0x00D8BF50, 0x00D9E5D8, 0x00D9E4C4, 0x00D9E53C, 0x00D9E58C, 0x00D8BD08, 0x002C15D0,
                0x001CFC6C, 0x0030561C)

  const LBP3_JP_TARGETS :=
    LBP3Offsets(0x00D8305C, 0x00D71DE8, 0x00D84338, 0x00D84224, 0x00D8429C, 0x00D842EC, 0x00D71BA0, 0x002BF520,
                0x001CFB08, 0x00301e34)

  /** Both LBP3 tables have the same entries, at the offsets of their version. */
  function LBP3Table(o: LBP3Offsets, g: Globals): seq<GamePatch> {
    [ GamePatch(o.networkKey, g.networkKey, NETWORK_KEY_SIZE, INDIRECT),
      GamePatch(o.userAgent, g.userAgent, USER_AGENT_LENGTH, INDIRECT),
      GamePatch(o.https, g.serverURL, URL_LENGTH, INDIRECT),
      GamePatch(o.http, g.serverURL, URL_LENGTH, INDIRECT),
      GamePatch(o.presence, g.serverURL, URL_LENGTH, INDIRECT),
      GamePatch(o.live, g.serverURL, URL_LENGTH, INDIRECT),
      GamePatch(o.digest, g.serverDigest, DIGEST_LENGTH, INDIRECT),
      GamePatch(o.notification, g.notification, 4, DIRECT),
      GamePatch(o.resourceCheck, g.scriptHook, 4, DIRECT),
      GamePatch(o.forceJoin, g.forceJoin, 112, DIRECT) ]
  }

  function LBP3Patches(g: Globals): seq<GamePatch> { LBP3Table(LBP3_TARGETS, g) }

  function LBP3JPPatches(g: Globals): seq<GamePatch> { LBP3Table(LBP3_JP_TARGETS, g) }

  /** The targets of a shipped table do not overlap, and no entry ends the table early. */
  predicate WellLaid(ps: seq<GamePatch>) { NoZero(ps) && Disjoint(ps) }

  lemma LBP1WellLaid(g: Globals)
    ensures WellLaid(LBP1Patches(g))
  {
  }

  lemma LBP2WellLaid(g: Globals)
    ensures WellLaid(LBP2Patches(g))
  {
  }

  lemma LBP3WellLaid(g: Globals)
    ensures WellLaid(LBP3Patches(g))
  {
  }

  lemma LBP3JPWellLaid(g: Globals)
    ensures WellLaid(LBP3JPPatches(g))
  {
  }

  // ----- a module loaded above the game -----

  /** The targets of the four tables all lie below this address. */
  const GAME_END: int := 0x0100_0000

  predicate TargetsBelow(ps: seq<GamePatch>) { forall p :: p in ps ==> p.offset + p.size <= GAME_END }

  /** The module's variables, and the strings its pointers lead to, lie above the game. */
  predicate SourcesAbove(m: Mem, ps: seq<GamePatch>) {
    forall p :: p in ps ==> p.source >= GAME_END && (SourceOf(m, p) == 0 || SourceOf(m, p) >= GAME_END)
  }

  function TableOf(n: nat, g: Globals): seq<GamePatch> {
    if n == 0 then LBP1Patches(g) else if n == 1 then LBP2Patches(g)
    else if n == 2 then LBP3Patches(g) else LBP3JPPatches(g)
  }

  lemma ShippedLayout(n: nat, g: Globals)
    ensures WellLaid(TableOf(n, g)) && TargetsBelow(TableOf(n, g))
  {
    hide WellLaid;
    LBP1WellLaid(g);
    LBP2WellLaid(g);
    LBP3WellLaid(g);
    LBP3JPWellLaid(g);
  }

  lemma AboveIsOutside(m: Mem, ps: seq<GamePatch>)
    requires NoZero(ps) && TargetsBelow(ps) && SourcesAbove(m, ps)
    ensures SourcesOutside(m, ps)
  {
    AllLive(ps);
    hide SourceOf, Live;
  }

  /**
  The four shipped tables: every target with a source holds its bytes, every byte outside the targets is
  unchanged, and a second application changes nothing.
   */
  lemma ShippedTables(m: Mem, n: nat, g: Globals)
    requires SourcesAbove(m, TableOf(n, g))
    ensures var ps, after := TableOf(n, g), ApplyAll(m, TableOf(n, g));
            && Same(ApplyAll(after, ps), after)
            && (forall p :: p in ps && SourceOf(m, p) != 0 ==>
                              Bytes(after, p.offset, p.size) == Bytes(m, SourceOf(m, p), p.size))
            && (forall a :: (forall p :: p in ps ==> !Writes(m, p, a)) ==> after(a) == m(a))
  {
    var ps := TableOf(n, g);
    ShippedLayout(n, g);
    hide SourcesAbove, SourceOf, ApplyAll, Bytes, TableOf, Live, Disjoint, NoZero, TargetsBelow, Writes, SourcesOutside;
    AboveIsOutside(m, ps);
    DisjointIsApart(m, ps);
    ApplyingTwice(m, ps);
    forall p | p in ps && SourceOf(m, p) != 0
      ensures Bytes(ApplyAll(m, ps), p.offset, p.size) == Bytes(m, SourceOf(m, p), p.size)
    {
      TargetFilled(m, ps, p);
    }
    forall a | forall p :: p in ps ==> !Writes(m, p, a)
      ensures ApplyAll(m, ps)(a) == m(a)
    {
      AllLive(ps);
      LastWriterWins(m, ps, a);
      PatchedByNone(m, ps, a);
    }
  }

  // ----- the tables, address by address -----

  /** The bytes a variable points at stand at an address; for a null pointer the address is as it was. */
  ghost predicate Pointed(m: Mem, after: Mem, at: int, n: nat, variable: int) {
    Bytes(after, at, n) == if Word(m, variable) == 0 then Bytes(m, at, n) else Bytes(m, Word(m, variable), n)
  }

  /** The bytes of a variable stand at an address. */
  ghost predicate Copied(m: Mem, after: Mem, at: int, n: nat, variable: int) {
    Bytes(after, at, n) == Bytes(m, variable, n)
  }

  lemma LaidIsLiveApart(ps: seq<GamePatch>)
    requires WellLaid(ps)
    ensures Live(ps) == ps && LiveApart(ps)
  {
    AllLive(ps);
    hide Live;
    forall p, q | p in ps && q in ps && p != q
      ensures Apart(p.offset, p.size, q.offset, q.size)
    {
      var i :| 0 <= i < |ps| && ps[i] == p;
      var j :| 0 <= j < |ps| && ps[j] == q;
      assert i < j || j < i;
    }
  }

  lemma RowDone(m: Mem, n: nat, g: Globals, p: GamePatch)
    requires SourcesAbove(m, TableOf(n, g)) && p in TableOf(n, g)
    ensures var after := ApplyAll(m, TableOf(n, g));
            && (p.kind == INDIRECT ==> Pointed(m, after, p.offset, p.size, p.source))
            && (p.kind == DIRECT ==> Copied(m, after, p.offset, p.size, p.source))
  {
    var ps := TableOf(n, g);
    assert p.source >= GAME_END;
    ShippedLayout(n, g);
    hide SourcesAbove, ApplyAll, Bytes, Word, TableOf, Live, TargetsBelow, SourcesOutside, WellLaid, LiveApart;
    assert NoZero(ps) by { LaidHasNoZero(ps); }
    AboveIsOutside(m, ps);
    LaidIsLiveApart(ps);
    EntryDone(m, ps, p);
  }

  lemma LaidHasNoZero(ps: seq<GamePatch>)
    requires WellLaid(ps)
    ensures NoZero(ps)
  {
  }

  /** LBP1: network key, user agent, two URLs, digest, playlist switch, branch to the hook, join program. */
  lemma LBP1Filled(m: Mem, g: Globals)
    requires SourcesAbove(m, LBP1Patches(g))
    ensures var after := ApplyAll(m, LBP1Patches(g));
            && Pointed(m, after, 0x0074C418, 16, g.networkKey)
            && Pointed(m, after, 0x0079FDA0, 22, g.userAgent)
            && Pointed(m, after, 0x00767C40, 70, g.serverURL)
            && Pointed(m, after, 0x00767CF8, 70, g.serverURL)
            && Pointed(m, after, 0x0079FBC0, 18, g.serverDigest)
            && Copied(m, after, 0x0074C2C0, 1, g.playlist)
            && Copied(m, after, 0x00081BC8, 4, g.scriptHook)
            && Copied(m, after, 0x003AB70C, 64, g.forceJoin)
  {
    var ps := LBP1Patches(g);
    assert ps == TableOf(0, g);
    assert ps[0] == GamePatch(0x0074C418, g.networkKey, 16, INDIRECT)
           && ps[1] == GamePatch(0x0079FDA0, g.userAgent, 22, INDIRECT)
           && ps[2] == GamePatch(0x00767C40, g.serverURL, 70, INDIRECT)
           && ps[3] == GamePatch(0x00767CF8, g.serverURL, 70, INDIRECT)
           && ps[4] == GamePatch(0x0079FBC0, g.serverDigest, 18, INDIRECT)
           && ps[5] == GamePatch(0x0074C2C0, g.playlist, 1, DIRECT)
           && ps[6] == GamePatch(0x00081BC8, g.scriptHook, 4, DIRECT)
           && ps[7] == GamePatch(0x003AB70C, g.forceJoin, 64, DIRECT);
    hide ApplyAll, SourcesAbove, Pointed, Copied, LBP1Patches;
    RowDone(m, 0, g, ps[0]);
    RowDone(m, 0, g, ps[1]);
    RowDone(m, 0, g, ps[2]);
    RowDone(m, 0, g, ps[3]);
    RowDone(m, 0, g, ps[4]);
    RowDone(m, 0, g, ps[5]);
    RowDone(m, 0, g, ps[6]);
    RowDone(m, 0, g, ps[7]);
  }

  /** LBP2, with the notification switch. */
  lemma LBP2Filled(m: Mem, g: Globals)
    requires SourcesAbove(m, LBP2Patches(g))
    ensures var after := ApplyAll(m, LBP2Patches(g));
            && Pointed(m, after, 0x00C248CC, 16, g.networkKey)
            && Pointed(m, after, 0x00C36320, 22, g.userAgent)
            && Pointed(m, after, 0x00C51B68, 70, g.serverURL)
            && Pointed(m, after, 0x00C51C08, 70, g.serverURL)
            && Pointed(m, after, 0x00C361D0, 18, g.serverDigest)
            && Copied(m, after, 0x0023B398, 4, g.notification)
            && Copied(m, after, 0x00153D74, 4, g.scriptHook)
            && Copied(m, after, 0x00285FB8, 120, g.forceJoin)
  {
    var ps := LBP2Patches(g);
    assert ps == TableOf(1, g);
    assert ps[0] == GamePatch(0x00C248CC, g.networkKey, 16, INDIRECT)
           && ps[1] == GamePatch(0x00C36320, g.userAgent, 22, INDIRECT)
           && ps[2] == GamePatch(0x00C51B68, g.serverURL, 70, INDIRECT)
           && ps[3] == GamePatch(0x00C51C08, g.serverURL, 70, INDIRECT)
           && ps[4] == GamePatch(0x00C361D0, g.serverDigest, 18, INDIRECT)
           && ps[5] == GamePatch(0x0023B398, g.notification, 4, DIRECT)
           && ps[6] == GamePatch(0x00153D74, g.scriptHook, 4, DIRECT)
           && ps[7] == GamePatch(0x00285FB8, g.forceJoin, 120, DIRECT);
    hide ApplyAll, SourcesAbove, Pointed, Copied, LBP2Patches;
    RowDone(m, 1, g, ps[0]);
    RowDone(m, 1, g, ps[1]);
    RowDone(m, 1, g, ps[2]);
    RowDone(m, 1, g, ps[3]);
    RowDone(m, 1, g, ps[4]);
    RowDone(m, 1, g, ps[5]);
    RowDone(m, 1, g, ps[6]);
    RowDone(m, 1, g, ps[7]);
  }

  /** LBP3, with four URLs. */
  lemma LBP3Filled(m: Mem, g: Globals)
    requires SourcesAbove(m, LBP3Patches(g))
    ensures var after := ApplyAll(m, LBP3Patches(g));
            && Pointed(m, after, 0x00D9D21C, 16, g.networkKey)
            && Pointed(m, after, 0x00D8BF50, 22, g.userAgent)
            && Pointed(m, after, 0x00D9E5D8, 70, g.serverURL)
            && Pointed(m, after, 0x00D9E4C4, 70, g.serverURL)
            && Pointed(m, after, 0x00D9E53C, 70, g.serverURL)
            && Pointed(m, after, 0x00D9E58C, 70, g.serverURL)
            && Pointed(m, after, 0x00D8BD08, 18, g.serverDigest)
            && Copied(m, after, 0x002C15D0, 4, g.notification)
            && Copied(m, after, 0x001CFC6C, 4, g.scriptHook)
            && Copied(m, after, 0x0030561C, 112, g.forceJoin)
  {
    var ps := LBP3Patches(g);
    assert ps == TableOf(2, g);
    assert ps[0] == GamePatch(0x00D9D21C, g.networkKey, 16, INDIRECT)
           && ps[1] == GamePatch(0x00D8BF50, g.userAgent, 22, INDIRECT)
           && ps[2] == GamePatch(0x00D9E5D8, g.serverURL, 70, INDIRECT)
           && ps[3] == GamePatch(0x00D9E4C4, g.serverURL, 70, INDIRECT)
           && ps[4] == GamePatch(0x00D9E53C, g.serverURL, 70, INDIRECT)
           && ps[5] == GamePatch(0x00D9E58C, g.serverURL, 70, INDIRECT)
           && ps[6] == GamePatch(0x00D8BD08, g.serverDigest, 18, INDIRECT)
           && ps[7] == GamePatch(0x002C15D0, g.notification, 4, DIRECT)
           && ps[8] == GamePatch(0x001CFC6C, g.scriptHook, 4, DIRECT)
           && ps[9] == GamePatch(0x0030561C, g.forceJoin, 112, DIRECT);
    hide ApplyAll, SourcesAbove, Pointed, Copied, LBP3Patches;
    RowDone(m, 2, g, ps[0]);
    RowDone(m, 2, g, ps[1]);
    RowDone(m, 2, g, ps[2]);
    RowDone(m, 2, g, ps[3]);
    RowDone(m, 2, g, ps[4]);
    RowDone(m, 2, g, ps[5]);
    RowDone(m, 2, g, ps[6]);
    RowDone(m, 2, g, ps[7]);
    RowDone(m, 2, g, ps[8]);
    RowDone(m, 2, g, ps[9]);
  }

  /** The Japanese LBP3. */
  lemma LBP3JPFilled(m: Mem, g: Globals)
    requires SourcesAbove(m, LBP3JPPatches(g))
    ensures var after := ApplyAll(m, LBP3JPPatches(g));
            && Pointed(m, after, 0x00D8305C, 16, g.networkKey)
            && Pointed(m, after, 0x00D71DE8, 22, g.userAgent)
            && Pointed(m, after, 0x00D84338, 70, g.serverURL)
            && Pointed(m, after, 0x00D84224, 70, g.serverURL)
            && Pointed(m, after, 0x00D8429C, 70, g.serverURL)
            && Pointed(m, after, 0x00D842EC, 70, g.serverURL)
            && Pointed(m, after, 0x00D71BA0, 18, g.serverDigest)
            && Copied(m, after, 0x002BF520, 4, g.notification)
            && Copied(m, after, 0x001CFB08, 4, g.scriptHook)
            && Copied(m, after, 0x00301E34, 112, g.forceJoin)
  {
    var ps := LBP3JPPatches(g);
    assert ps == TableOf(3, g);
    assert ps[0] == GamePatch(0x00D8305C, g.networkKey, 16, INDIRECT)
           && ps[1] == GamePatch(0x00D71DE8, g.userAgent, 22, INDIRECT)
           && ps[2] == GamePatch(0x00D84338, g.serverURL, 70, INDIRECT)
           && ps[3] == GamePatch(0x00D84224, g.serverURL, 70, INDIRECT)
           && ps[4] == GamePatch(0x00D8429C, g.serverURL, 70, INDIRECT)
           && ps[5] == GamePatch(0x00D842EC, g.serverURL, 70, INDIRECT)
           && ps[6] == GamePatch(0x00D71BA0, g.serverDigest, 18, INDIRECT)
           && ps[7] == GamePatch(0x002BF520, g.notification, 4, DIRECT)
           && ps[8] == GamePatch(0x001CFB08, g.scriptHook, 4, DIRECT)
           && ps[9] == GamePatch(0x00301E34, g.forceJoin, 112, DIRECT);
    hide ApplyAll, SourcesAbove, Pointed, Copied, LBP3JPPatches;
    RowDone(m, 3, g, ps[0]);
    RowDone(m, 3, g, ps[1]);
    RowDone(m, 3, g, ps[2]);
    RowDone(m, 3, g, ps[3]);
    RowDone(m, 3, g, ps[4]);
    RowDone(m, 3, g, ps[5]);
    RowDone(m, 3, g, ps[6]);
    RowDone(m, 3, g, ps[7]);
    RowDone(m, 3, g, ps[8]);
    RowDone(m, 3, g, ps[9]);
  }
}
