/**
 Truncating twice (storage/truncate.go): rolling back to h1 and then further to h2 equals
 rolling back to h2 at once, on every bucket, exactly when no normal-tx row in the gap
 belongs to a scid whose only evidence above h2 was already removed by the first step.
 */
module TruncateLaws {
  import opened IndexTypes
  import opened WriteBatches
  import opened IndexDb
  import opened BatchBoundary
  import opened DerivedIndexes
  import opened TurboHistory
  import opened Rollback

  lemma GapSplit<V>(m: map<ScidHeight, V>, h1: nat, h2: nat)
    requires h2 <= h1
    ensures ScidsAbove(m, h2) == ScidsAbove(m, h1) + ScidsAbove(KeepRows(m, h1), h2)
    ensures KeepRows(KeepRows(m, h1), h2) == KeepRows(m, h2)
  {
    forall s | s in ScidsAbove(m, h2) ensures s in ScidsAbove(m, h1) + ScidsAbove(KeepRows(m, h1), h2) {
      var k :| k in m && k.height > h2 && k.scid == s;
      if k.height <= h1 { assert k in KeepRows(m, h1); }
    }
  }

  lemma AffectedSplit(db: Db, h1: nat, h2: nat)
    requires h2 <= h1
    ensures Affected(db, h2) == Affected(db, h1) + Affected(Truncate(db, h1), h2)
    ensures InstalledAbove(db, h2) == InstalledAbove(db, h1) + InstalledAbove(Truncate(db, h1), h2)
  {
    hide ScidsAbove, KeepRows, KeepInvokes, KeepNorms, KeepHashes, KeepOwnerEdges, TruncatedEdges, TruncatedLatest;
    hide StaleClassRows;
    GapSplit(db.heights, h1, h2);
    GapSplit(db.scvars, h1, h2);
    GapSplit(db.installs, h1, h2);
  }

  lemma CoveredAfter(db: Db, h: nat)
    requires InvokesCovered(db)
    ensures Truncate(db, h).invokes == InvokesUpTo(db.invokes, h)
    ensures InvokesCovered(Truncate(db, h))
  {
    hide Affected, TruncatedEdges, TruncatedLatest, InstalledAbove, KeepNorms, KeepHashes, KeepOwnerEdges;
    hide KeepInvokes, StaleClassRows;
    TruncateInvokes(db, h);
  }

  lemma DetailTwice(db: Db, h1: nat, h2: nat)
    requires InvokesCovered(db) && h2 <= h1
    ensures SameDetail(Truncate(Truncate(db, h1), h2), Truncate(db, h2))
  {
    hide Truncate, InvokesCovered, InvokesUpTo, KeepRows, KeepNorms, KeepHashes;
    var t1 := Truncate(db, h1);
    CoveredAfter(db, h1);
    CoveredAfter(db, h2);
    CoveredAfter(t1, h2);
    GapSplit(db.scvars, h1, h2);
    GapSplit(db.heights, h1, h2);
    GapSplit(db.installs, h1, h2);
    KeepTwice(db, h1, h2);
    DetailFields(db, h1);
    DetailFields(db, h2);
    DetailFields(t1, h2);
  }

  lemma DetailFields(db: Db, h: nat)
    ensures var t := Truncate(db, h);
            && t.scvars == KeepRows(db.scvars, h) && t.heights == KeepRows(db.heights, h)
            && t.installs == KeepRows(db.installs, h)
            && t.normTxs == KeepNorms(db.normTxs, h) && t.blockHashes == KeepHashes(db.blockHashes, h)
  {
  }

  lemma KeepTwice(db: Db, h1: nat, h2: nat)
    requires h2 <= h1
    ensures InvokesUpTo(InvokesUpTo(db.invokes, h1), h2) == InvokesUpTo(db.invokes, h2)
    ensures KeepNorms(KeepNorms(db.normTxs, h1), h2) == KeepNorms(db.normTxs, h2)
    ensures KeepHashes(KeepHashes(db.blockHashes, h1), h2) == KeepHashes(db.blockHashes, h2)
  {
  }

  lemma EntitiesTwice(db: Db, h1: nat, h2: nat)
    requires h2 <= h1
    ensures var two, one := Truncate(Truncate(db, h1), h2), Truncate(db, h2);
            && SameEntities(two, one) && two.invalid == one.invalid && two.classRows == one.classRows
            && two.scCount == one.scCount && two.last == one.last && two.tela == one.tela
            && two.reg == one.reg && two.burn == one.burn && two.norm == one.norm
  {
    hide TruncatedEdges, TruncatedLatest, KeepInvokes, KeepRows, KeepNorms, KeepHashes, KeepOwnerEdges, StaleClassRows;
    hide DropOwners, Removed, RollBackLast, InstalledAbove, Affected, KeepTela;
    TelaTwice(db.tela, Affected(db, h1), Affected(Truncate(db, h1), h2));
    var t1 := Truncate(db, h1);
    AffectedSplit(db, h1, h2);
    var x, y := InstalledAbove(db, h1), InstalledAbove(t1, h2);
    DropTwice(db.owners, x, y);
    DropTwice(db.classIdx, x, y);
    DropTwice(db.scCodes, x, y);
    DropTwice(db.invalid, x, y);
    StaleTwice(db, t1, x, y);
    CountTwice(db.scCount, db.owners, x, y);
    assert KeepOwnerEdges(KeepOwnerEdges(db.ownerScids, x), y) == KeepOwnerEdges(db.ownerScids, x + y) by {
      OwnerEdgesTwice(db.ownerScids, x, y);
    }
    assert RollBackLast(RollBackLast(db.last, h1), h2) == RollBackLast(db.last, h2) by { LastTwice(db.last, h1, h2); }
  }

  lemma DropTwice<V>(m: map<Scid, V>, x: set<Scid>, y: set<Scid>)
    ensures (m - x) - y == m - (x + y)
  {
  }

  lemma TelaTwice(m: map<TelaKey, string>, x: set<Scid>, y: set<Scid>)
    ensures KeepTela(KeepTela(m, x), y) == KeepTela(m, x + y)
  {
  }

  lemma OwnerEdgesTwice(es: set<OwnerEdge>, x: set<Scid>, y: set<Scid>)
    ensures KeepOwnerEdges(KeepOwnerEdges(es, x), y) == KeepOwnerEdges(es, x + y)
  {
  }

  lemma LastTwice(last: Option<nat>, h1: nat, h2: nat)
    requires h2 <= h1
    ensures RollBackLast(RollBackLast(last, h1), h2) == RollBackLast(last, h2)
  {
  }

  lemma StaleTwice(db: Db, t1: Db, x: set<Scid>, y: set<Scid>)
    requires t1.classIdx == db.classIdx - x
    ensures (db.classRows - StaleClassRows(db, x)) - StaleClassRows(t1, y) == db.classRows - StaleClassRows(db, x + y)
  {
    assert StaleClassRows(db, x + y) == StaleClassRows(db, x) + StaleClassRows(t1, y);
    hide StaleClassRows, StaleRows;
  }

  lemma CountTwice(n: Option<int>, owners: map<Scid, Addr>, x: set<Scid>, y: set<Scid>)
    ensures DropOwners(DropOwners(n, Removed(owners, x)), Removed(owners - x, y)) ==
            DropOwners(n, Removed(owners, x + y))
  {
    RemovedTwice(owners, x, y);
    hide Removed;
  }

  lemma RemovedTwice(owners: map<Scid, Addr>, x: set<Scid>, y: set<Scid>)
    ensures Removed(owners, x + y) == Removed(owners, x) + Removed(owners - x, y)
  {
    var a, b := owners.Keys * x, (owners - x).Keys * y;
    assert owners.Keys * (x + y) == a + b && a !! b;
    assert |a + b| == |a| + |b|;
  }

  lemma LatestTwice(db: Db, h1: nat, h2: nat)
    requires h2 <= h1
    ensures Truncate(Truncate(db, h1), h2).latest == Truncate(db, h2).latest
  {
    hide Truncate, TruncatedLatest;
    LatestField(db, h2);
    LatestField(Truncate(db, h1), h2);
    forall s: Scid
      ensures s in TruncatedLatest(Truncate(db, h1), h2) <==> s in TruncatedLatest(db, h2)
      ensures s in TruncatedLatest(db, h2) ==> TruncatedLatest(Truncate(db, h1), h2)[s] == TruncatedLatest(db, h2)[s]
    {
      LatestTwiceAt(db, h1, h2, s);
    }
  }

  lemma LatestField(db: Db, h: nat)
    ensures Truncate(db, h).latest == TruncatedLatest(db, h)
  {
  }

  lemma LatestTwiceAt(db: Db, h1: nat, h2: nat, s: Scid)
    requires h2 <= h1
    ensures var t1 := Truncate(db, h1);
            && (s in TruncatedLatest(t1, h2) <==> s in TruncatedLatest(db, h2))
            && (s in TruncatedLatest(db, h2) ==> TruncatedLatest(t1, h2)[s] == TruncatedLatest(db, h2)[s])
  {
    hide Truncate, Affected, KeptSnapshot, KeepRows;
    LatestField(db, h1);
    AffectedSplit(db, h1, h2);
    SnapshotsTwice(db, h1, h2, s);
  }

  lemma SnapshotsTwice(db: Db, h1: nat, h2: nat, s: Scid)
    requires h2 <= h1
    ensures SurvivingSnapshot(Truncate(db, h1), s, h2) == SurvivingSnapshot(db, s, h2)
    ensures s !in Affected(Truncate(db, h1), h2) ==> SurvivingSnapshot(db, s, h1) == SurvivingSnapshot(db, s, h2)
  {
    hide Truncate, ScidsAbove, KeptSnapshot, KeepRows, InstalledAbove;
    DetailFields(db, h1);
    KeptSnapshotTwice(db.scvars, h1, h2, s);
  }

  lemma KeptSnapshotTwice(m: map<ScidHeight, Variables>, h1: nat, h2: nat, s: Scid)
    requires h2 <= h1
    ensures KeptSnapshot(KeepRows(m, h1), s, h2) == KeptSnapshot(m, s, h2)
    ensures s !in ScidsAbove(KeepRows(m, h1), h2) ==> KeptSnapshot(m, s, h1) == KeptSnapshot(m, s, h2)
  {
    var m1 := KeepRows(m, h1);
    assert (set k | k in m1 && k.scid == s && k.height <= h2 :: k.height) ==
           set k | k in m && k.scid == s && k.height <= h2 :: k.height;
    if s !in ScidsAbove(m1, h2) {
      forall k | k in m && k.scid == s && k.height <= h1 ensures k.height <= h2 {
        assert k in m1 && (k.height > h2 ==> s in ScidsAbove(m1, h2));
      }
      assert (set k | k in m && k.scid == s && k.height <= h1 :: k.height) ==
             set k | k in m && k.scid == s && k.height <= h2 :: k.height;
    }
  }

  // ---------- Address edges ----------

  /** Normal-tx touches of an edge in the gap (h2, h1]. */
  ghost function GapTouches(db: Db, e: Edge, h1: nat, h2: nat): set<TouchKey> {
    set k | k in db.normTxs && Edge(k.addr, k.scid) == e && h2 < k.height <= h1 :: ByNormal(k)
  }

  ghost function ScidsBetween<V>(m: map<ScidHeight, V>, h1: nat, h2: nat): set<Scid> {
    set k | k in m && h2 < k.height <= h1 :: k.scid
  }

  /** Scids with an interaction, a snapshot or an install in the gap (h2, h1]. */
  ghost function EvidenceBetween(db: Db, h1: nat, h2: nat): set<Scid> {
    ScidsBetween(db.heights, h1, h2) + ScidsBetween(db.scvars, h1, h2) + ScidsBetween(db.installs, h1, h2)
  }

  /**
   The first step strands no normal-tx row: a scid with one in the gap keeps other evidence in the gap,
   or has none above h1 either.
   */
  ghost predicate GapCovered(db: Db, h1: nat, h2: nat) {
    forall e <- db.addrScids ::
      e.scid in Affected(db, h1) && e.scid !in EvidenceBetween(db, h1, h2) ==> GapTouches(db, e, h1, h2) == {}
  }

  lemma KeptBetween<V>(m: map<ScidHeight, V>, h1: nat, h2: nat)
    ensures ScidsAbove(KeepRows(m, h1), h2) == ScidsBetween(m, h1, h2)
  {
    forall s: Scid ensures s in ScidsAbove(KeepRows(m, h1), h2) <==> s in ScidsBetween(m, h1, h2) {
      if s in ScidsBetween(m, h1, h2) {
        var k :| k in m && h2 < k.height <= h1 && k.scid == s;
        assert k in KeepRows(m, h1);
      }
      if s in ScidsAbove(KeepRows(m, h1), h2) {
        var k :| k in KeepRows(m, h1) && k.height > h2 && k.scid == s;
        assert k in m && k.height <= h1;
      }
    }
  }

  /** What the second truncation finds is what the first store holds in the gap. */
  lemma AffectedAfter(db: Db, h1: nat, h2: nat)
    ensures Affected(Truncate(db, h1), h2) == EvidenceBetween(db, h1, h2)
  {
    hide Truncate, ScidsAbove, ScidsBetween, KeepRows;
    DetailFields(db, h1);
    KeptBetween(db.heights, h1, h2);
    KeptBetween(db.scvars, h1, h2);
    KeptBetween(db.installs, h1, h2);
  }

  lemma TouchesTwice(db: Db, h1: nat, h2: nat, e: Edge)
    requires InvokesCovered(db) && h2 <= h1
    ensures Survivor(Truncate(db, h1), e, h2) == Survivor(db, e, h2)
  {
    hide Truncate, InvokesCovered, Rollup, TouchesUpTo, OwnerInstalls;
    LowTouches(db, h1, h2, e);
    LowInstalls(db, h1, h2, e);
  }

  lemma LowTouches(db: Db, h1: nat, h2: nat, e: Edge)
    requires InvokesCovered(db) && h2 <= h1
    ensures TouchesUpTo(Truncate(db, h1), e, h2) == TouchesUpTo(db, e, h2)
  {
    hide Truncate, InvokesCovered;
    CoveredAfter(db, h1);
    DetailFields(db, h1);
  }

  lemma LowInstalls(db: Db, h1: nat, h2: nat, e: Edge)
    requires h2 <= h1
    ensures OwnerInstalls(Truncate(db, h1), e, h2) == OwnerInstalls(db, e, h2)
  {
    hide Truncate;
    DetailFields(db, h1);
  }

  lemma SurvivorGrows(db: Db, h1: nat, h2: nat, e: Edge)
    requires h2 <= h1
    ensures Survivor(db, e, h2).Some? ==> Survivor(db, e, h1).Some?
  {
    hide TouchesOf;
    assert TouchesUpTo(db, e, h2) <= TouchesUpTo(db, e, h1);
    assert OwnerInstalls(db, e, h2) <= OwnerInstalls(db, e, h1);
    hide TouchesUpTo, OwnerInstalls;
  }

  /** Without other evidence in the gap, only normal-tx rows can separate the two recomputations. */
  lemma QuietGap(db: Db, h1: nat, h2: nat, e: Edge)
    requires InvokesCovered(db) && h2 <= h1
    requires e.scid !in Affected(Truncate(db, h1), h2)
    ensures TouchesUpTo(db, e, h1) == TouchesUpTo(db, e, h2) + GapTouches(db, e, h1, h2)
    ensures OwnerInstalls(db, e, h1) == OwnerInstalls(db, e, h2)
  {
    hide Truncate, TouchesOf;
    QuietRows(db, h1, h2, e.scid);
    forall k | k in db.invokes && k.scid == e.scid && k.height <= h1 ensures k.height <= h2 {
      assert ScidHeight(k.scid, k.height) in db.heights;
    }
    GapSplitTouches(db, h1, h2, e);
  }

  /** No interaction and no install of an unaffected scid lies in the gap. */
  lemma QuietRows(db: Db, h1: nat, h2: nat, s: Scid)
    requires h2 <= h1 && s !in Affected(Truncate(db, h1), h2)
    ensures forall k | k in db.heights && k.scid == s && k.height <= h1 :: k.height <= h2
    ensures forall k | k in db.installs && k.scid == s && k.height <= h1 :: k.height <= h2
  {
    hide Truncate;
    DetailFields(db, h1);
    var t1 := Truncate(db, h1);
    forall k | k in db.heights && k.scid == s && k.height <= h1 ensures k.height <= h2 {
      assert k in t1.heights && (k.height > h2 ==> s in ScidsAbove(t1.heights, h2));
    }
    forall k | k in db.installs && k.scid == s && k.height <= h1 ensures k.height <= h2 {
      assert k in t1.installs && (k.height > h2 ==> s in ScidsAbove(t1.installs, h2));
    }
  }

  lemma GapSplitTouches(db: Db, h1: nat, h2: nat, e: Edge)
    requires h2 <= h1
    requires forall k | k in db.invokes && k.scid == e.scid && k.height <= h1 :: k.height <= h2
    ensures TouchesUpTo(db, e, h1) == TouchesUpTo(db, e, h2) + GapTouches(db, e, h1, h2)
  {
  }

  lemma GapSeparates(db: Db, h1: nat, h2: nat, e: Edge)
    requires InvokesCovered(db) && h2 <= h1
    requires e.scid !in Affected(Truncate(db, h1), h2)
    ensures Survivor(db, e, h1) == Survivor(db, e, h2) <==> GapTouches(db, e, h1, h2) == {}
  {
    hide Affected, Truncate, InvokesCovered;
    QuietGap(db, h1, h2, e);
    var low, gap := TouchesUpTo(db, e, h2), GapTouches(db, e, h1, h2);
    if gap == {} {
      assert low + gap == low;
    } else {
      var t :| t in gap;
      assert t.Height() in HeightsOf(low + gap) && t.Height() > h2;
      assert forall x <- HeightsOf(low) :: x <= h2;
      assert Survivor(db, e, h1).value.last > h2;
      assert forall x <- OwnerInstalls(db, e, h2) :: x <= h2;
      assert Survivor(db, e, h2).Some? ==> Survivor(db, e, h2).value.last <= h2;
    }
  }

  lemma EdgeTwice(db: Db, h1: nat, h2: nat, e: Edge)
    requires InvokesCovered(db) && h2 <= h1
    ensures At(Truncate(Truncate(db, h1), h2).addrScids, e) == At(Truncate(db, h2).addrScids, e) <==>
            (e in db.addrScids && e.scid in Affected(db, h1) && e.scid !in Affected(Truncate(db, h1), h2)
             ==> GapTouches(db, e, h1, h2) == {})
  {
    hide Affected, Survivor, TruncatedEdges, Truncate, InvokesCovered, GapTouches, TruncatedLatest;
    var t1 := Truncate(db, h1);
    EdgeField(db, h1);
    EdgeField(db, h2);
    EdgeField(t1, h2);
    TruncatedAt(db, h1, e);
    TruncatedAt(db, h2, e);
    TruncatedAt(t1, h2, e);
    AffectedSplit(db, h1, h2);
    TouchesTwice(db, h1, h2, e);
    SurvivorGrows(db, h1, h2, e);
    if e.scid !in Affected(t1, h2) {
      GapSeparates(db, h1, h2, e);
    }
  }

  lemma EdgeField(db: Db, h: nat)
    ensures Truncate(db, h).addrScids == TruncatedEdges(db, h)
  {
  }

  /** Truncation composes on every bucket exactly when the gap is covered. */
  lemma TruncateComposes(db: Db, h1: nat, h2: nat)
    requires InvokesCovered(db) && h2 <= h1
    ensures Truncate(Truncate(db, h1), h2) == Truncate(db, h2) <==> GapCovered(db, h1, h2)
  {
    hide Truncate, InvokesCovered, Affected, GapTouches, EvidenceBetween;
    AffectedAfter(db, h1, h2);
    var two, one := Truncate(Truncate(db, h1), h2), Truncate(db, h2);
    DetailTwice(db, h1, h2);
    EntitiesTwice(db, h1, h2);
    LatestTwice(db, h1, h2);
    forall e: Edge
      ensures At(two.addrScids, e) == At(one.addrScids, e) <==>
              (e in db.addrScids && e.scid in Affected(db, h1) && e.scid !in Affected(Truncate(db, h1), h2)
               ==> GapTouches(db, e, h1, h2) == {})
    {
      EdgeTwice(db, h1, h2, e);
    }
    if GapCovered(db, h1, h2) {
      forall e: Edge
        ensures (e in two.addrScids <==> e in one.addrScids)
                && (e in two.addrScids ==> two.addrScids[e] == one.addrScids[e])
      {
        assert At(two.addrScids, e) == At(one.addrScids, e);
      }
      assert two.addrScids == one.addrScids;
    }
  }

  /** Truncating twice to the same height is truncating once, on every bucket of every covered store. */
  lemma TruncateIdempotent(db: Db, h: nat)
    requires InvokesCovered(db)
    ensures Truncate(Truncate(db, h), h) == Truncate(db, h)
  {
    hide Truncate, InvokesCovered, Affected;
    TruncateComposes(db, h, h);
  }

  /** Every store of a turbo-mode history is covered, so both laws apply to it. */
  lemma HistoriesAreCovered(bs: seq<Block>)
    requires GoodHistory(bs)
    ensures InvokesCovered(IndexOf(bs))
  {
    hide IndexOf, EventsOf, ApplyEvents, DistinctDeploys, NamedEvents, Footprint, InstallsInvoked, InvokesCovered;
    hide DerivedAgree;
    GoodIndex(bs);
    StoreCoherent(EventsOf(bs));
  }

  /**
   A ring touch in block 1 and an invocation in block 2: truncating to 1 and truncating to 0 each roll the
   index back exactly, yet truncating to 1 and then to 0 leaves the edge that truncating straight to 0 removes.
   */
  lemma CoverageAtBothHeightsIsNotEnough(a: Addr, s: Scid, txid: string, hash: Hash, invoke: Tx)
    requires a != "" && s != "" && invoke.InvokeTx? && invoke.scid == s
    ensures var bs := [Block(hash, [RingTx(a, txid, s, 0)]), Block(hash, [invoke])];
            && GoodHistory(bs) && RollsBack(bs, 1) && RollsBack(bs, 0)
            && Truncate(Truncate(IndexOf(bs), 1), 0) != Truncate(IndexOf(bs), 0)
  {
    hide *;
    var first, second := Block(hash, [RingTx(a, txid, s, 0)]), Block(hash, [invoke]);
    TwoBlocks(a, s, txid, hash, invoke);
    TouchedOnce(a, s, txid, hash, invoke);
    StrandedTouch(first, second, s, ByNormal(NormKey(a, 1, txid, s)));
    HistoriesAreCovered([first, second]);
    TruncateComposes(IndexOf([first, second]), 1, 0);
  }

  lemma TwoBlockEvents(first: Block, second: Block)
    ensures var bs := [first, second];
            && EventsOf(bs) == BlockEvents(first, 1) + BlockEvents(second, 2)
            && EventsAbove(bs, 1) == BlockEvents(second, 2) && EventsAbove(bs, 0) == EventsOf(bs)
            && EventsOf(UpTo(bs, 1)) == BlockEvents(first, 1) && EventsOf(UpTo(bs, 0)) == []
  {
    hide BlockEvents;
    var bs := [first, second];
    assert bs[..1] == [first] && bs[..0] == [];
    FirstBlockEvents(first);
    SecondBlockEvents(first, second);
  }

  /** Both single truncations meet the condition of exact rollback. */
  lemma TwoBlocks(a: Addr, s: Scid, txid: string, hash: Hash, invoke: Tx)
    requires a != "" && s != "" && invoke.InvokeTx? && invoke.scid == s
    ensures var bs := [Block(hash, [RingTx(a, txid, s, 0)]), Block(hash, [invoke])];
            GoodHistory(bs) && RollsBack(bs, 1) && RollsBack(bs, 0)
  {
    hide EventsOf, EventsAbove, UpTo, TouchesOn;
    var first, second := Block(hash, [RingTx(a, txid, s, 0)]), Block(hash, [invoke]);
    var bs := [first, second];
    TwoBlockEvents(first, second);
    var pre, post := BlockEvents(first, 1), BlockEvents(second, 2);
    var ring, seal := Event(1, RingTx(a, txid, s, 0)), Event(1, SealTx(hash));
    assert pre == [ring, seal] && post == [Event(2, invoke), Event(2, SealTx(hash))];
    assert (pre + post)[2] == Event(2, invoke) && Activates((pre + post)[2], s);
    assert Active(EventsAbove(bs, 0), s);
    forall e: Edge ensures Distinct(TouchesOn(EventsOf(UpTo(bs, 1)), e))
        && Distinct(TouchesOn(EventsOf(UpTo(bs, 0)), e)) {
      OneTouch(ring, seal, e);
    }
  }

  lemma OneTouch(ring: Event, seal: Event, e: Edge)
    requires seal.tx.SealTx?
    ensures Distinct(TouchesOn([ring, seal], e)) && Distinct(TouchesOn([], e))
  {
    hide TouchOf;
    assert [ring, seal][..1] == [ring] && [ring][..0] == [];
    assert TouchOf(seal) == None by { SealTouches(seal); }
    assert |TouchesOn([ring], e)| <= 1;
  }

  lemma SealTouches(seal: Event)
    requires seal.tx.SealTx?
    ensures TouchOf(seal) == None
  {
  }

  lemma SameAffected(x: Db, y: Db, h: nat)
    requires SamePrimaries(x, y)
    ensures Affected(x, h) == Affected(y, h)
  {
  }

  /** Blocks whose first records a ring touch of s and does not activate it, and whose second does. */
  ghost predicate Strands(first: Block, second: Block, s: Scid, t: TouchKey) {
    var pre, post := BlockEvents(first, 1), BlockEvents(second, 2);
    && GoodHistory([first, second]) && RollsBack([first, second], 1)
    && (exists ev <- pre :: TouchOf(ev) == Some(t)) && !Active(pre, s) && Active(post, s)
    && t.ByNormal? && t.norm.scid == s && t.norm.addr != "" && t.norm.height == 1
  }

  lemma TouchedOnce(a: Addr, s: Scid, txid: string, hash: Hash, invoke: Tx)
    requires a != "" && s != "" && invoke.InvokeTx? && invoke.scid == s
    ensures Strands(Block(hash, [RingTx(a, txid, s, 0)]), Block(hash, [invoke]), s, ByNormal(NormKey(a, 1, txid, s)))
  {
    var first, second := Block(hash, [RingTx(a, txid, s, 0)]), Block(hash, [invoke]);
    TwoBlocks(a, s, txid, hash, invoke);
    hide GoodHistory, RollsBack;
    var ring := Event(1, RingTx(a, txid, s, 0));
    var pre, post := BlockEvents(first, 1), BlockEvents(second, 2);
    assert pre == [ring, Event(1, SealTx(hash))] && post == [Event(2, invoke), Event(2, SealTx(hash))];
    assert post[0] in post && Activates(post[0], s);
    assert ring in pre && TouchOf(ring) == Some(ByNormal(NormKey(a, 1, txid, s)));
  }

  /** The touch is in the detail rows, and so is its edge. */
  lemma StrandedRows(first: Block, second: Block, s: Scid, t: TouchKey)
    requires Strands(first, second, s, t)
    ensures var db := IndexOf([first, second]); t.norm in db.normTxs && t.OnEdge() in db.addrScids
  {
    hide Activates, BlockEvents, EventsOf, IndexOf, TouchOf, TouchesOn, ApplyEvents, GoodHistory, DistinctDeploys;
    hide DerivedAgree;
    hide RollsBack, TouchesOf, Active;
    var pre, post := BlockEvents(first, 1), BlockEvents(second, 2);
    var ev :| ev in pre && TouchOf(ev) == Some(t);
    assert ev in pre + post;
    TwoBlockEvents(first, second);
    GoodIndex([first, second]);
    GoodIsDistinct([first, second]);
    TouchInto(pre + post, ev, t);
    EdgeAt(pre + post, t.OnEdge());
    DetailOf(pre + post, t);
    NormalDetail(IndexOf([first, second]), t);
  }

  /** Its scid is affected above 1, and nothing else of it lies at 1. */
  lemma StrandedScid(first: Block, second: Block, s: Scid, t: TouchKey)
    requires Strands(first, second, s, t)
    ensures var db := IndexOf([first, second]); s in Affected(db, 1) && s !in EvidenceBetween(db, 1, 0)
  {
    hide Activates, BlockEvents, EventsOf, EventsAbove, IndexOf, Truncate, Affected, TouchOf, ApplyEvents, GoodHistory;
    hide DerivedAgree, EvidenceBetween, SamePrimaries, RollsBack, UpTo;
    var bs := [first, second];
    var pre, post := BlockEvents(first, 1), BlockEvents(second, 2);
    TwoBlockEvents(first, second);
    BlockHeights(first, 1);
    BlockHeights(second, 2);
    GoodIndex(bs);
    GoodPrefix(bs, 1);
    GoodIndex(UpTo(bs, 1));
    AffectedBy(pre, post, 1, s);
    AffectedBy([], pre, 0, s);
    assert [] + pre == pre;
    RollbackAllButEdges(bs, 1);
    SameAffected(Truncate(IndexOf(bs), 1), IndexOf(UpTo(bs, 1)), 0);
    AffectedAfter(IndexOf(bs), 1, 0);
  }

  /** The ring touch lies in the gap, and the only other evidence of its scid lies above it. */
  lemma StrandedTouch(first: Block, second: Block, s: Scid, t: TouchKey)
    requires Strands(first, second, s, t)
    ensures !GapCovered(IndexOf([first, second]), 1, 0)
  {
    hide Activates, BlockEvents, IndexOf, Affected, TouchOf, GoodHistory, EvidenceBetween, RollsBack;
    StrandedRows(first, second, s, t);
    StrandedScid(first, second, s, t);
    assert t in GapTouches(IndexOf([first, second]), t.OnEdge(), 1, 0);
  }

  lemma NormalDetail(db: Db, t: TouchKey)
    requires t.ByNormal? && t in TouchesOf(db)
    ensures t.norm in db.normTxs
  {
  }
}
