/**
 The derived indexes agree with the data they are derived from in every state that
 FlushBatch, StoreOwner, StoreSCIDVariableDetails, TruncateToHeight and ResetIndex can
 reach (storage/bbolt.go, storage/truncate.go).
 */
module DerivedIndexes {
  import opened IndexTypes
  import opened WriteBatches
  import opened IndexDb
  import opened BatchBoundary

  /** A class row exists exactly for each class_scid entry, at its class and install height. */
  ghost predicate ClassRowsAgree(db: Db) {
    forall k: ClassKey ::
      && (k in db.classRows <==> k.scid in db.classIdx && k == RowOf(k.scid, db.classIdx[k.scid]))
      && (k in db.classRows ==> db.classRows[k] == db.classIdx[k.scid])
  }

  /** scvars_latest holds the greatest positive snapshot height, and no row otherwise. */
  ghost predicate LatestAgrees(db: Db) {
    && (forall k <- db.scvars :: k.scid != "")
    && (forall s <- db.latest :: s != "" && db.latest[s] > 0)
    && (forall s: Scid :: GetOr(db.latest, s, 0) == MaxOf(SnapshotHeights(db.scvars.Keys, s)))
  }

  ghost predicate CountAgrees(db: Db) {
    db.scCount.Some? ==> db.scCount.value == |db.owners|
  }

  ghost predicate OwnerEdgesAgree(db: Db) {
    forall s <- db.owners :: s != "" && db.owners[s] != "" ==> OwnerEdge(db.owners[s], s) in db.ownerScids
  }

  ghost predicate DerivedAgree(db: Db) {
    ClassRowsAgree(db) && LatestAgrees(db) && CountAgrees(db) && OwnerEdgesAgree(db)
  }

  /** What AddOwner guarantees of a batch, and the shape of a snapshot key. */
  ghost predicate WellIndexed(b: Batch) {
    && (forall s <- b.owners :: s != "" && b.owners[s] != "" ==> OwnerEdge(b.owners[s], s) in b.ownerScids)
    && (forall k <- b.variables :: k.scid != "")
  }

  ghost predicate SnapshotsNamed(calls: seq<Call>) {
    forall c <- calls :: c.Snapshot? ==> c.scid != ""
  }

  lemma {:induction false} BuildWellIndexed(calls: seq<Call>)
    requires SnapshotsNamed(calls)
    ensures WellIndexed(Build(calls))
  {
    hide Apply, WellIndexed;
    if calls == [] {
      EmptyWellIndexed();
    } else {
      BuildWellIndexed(calls[..|calls| - 1]);
      ApplyWellIndexed(Build(calls[..|calls| - 1]), calls[|calls| - 1]);
    }
  }

  lemma EmptyWellIndexed()
    ensures WellIndexed(EMPTY_BATCH)
  {
  }

  lemma ApplyWellIndexed(b: Batch, c: Call)
    requires WellIndexed(b) && (c.Snapshot? ==> c.scid != "")
    ensures WellIndexed(Apply(b, c))
  {
    hide AddHeight, AddTouch;
  }

  // ---------- FlushBatch ----------

  lemma FlushKeepsClassRows(db: Db, b: Batch)
    requires ClassRowsAgree(db)
    ensures ClassRowsAgree(Flush(db, b))
  {
    hide AddHeights, RaiseLatest, CountOwners, MergeEdges, PutInvocations, PutNormals;
    forall k: ClassKey {
      PutClassRowsAt(db.classRows, db.classIdx, NonEmptyClasses(b.classes), k);
    }
    hide PutClassRows;
  }

  lemma FlushKeepsLatest(db: Db, b: Batch)
    requires LatestAgrees(db) && WellIndexed(b)
    ensures LatestAgrees(Flush(db, b))
  {
    hide AddHeights, CountOwners, MergeEdges, PutInvocations, PutNormals, PutClassRows;
    assert (db.scvars + b.variables).Keys == db.scvars.Keys + b.variables.Keys;
    RaiseKeepsLatest(db.latest, db.scvars.Keys, b.variables.Keys);
  }

  /** Pointers that agree with the snapshots in x agree, once raised by y, with those in x + y. */
  lemma RaiseKeepsLatest(l: map<Scid, nat>, x: set<ScidHeight>, y: set<ScidHeight>)
    requires forall s <- l :: s != "" && l[s] > 0
    requires forall s: Scid :: GetOr(l, s, 0) == MaxOf(SnapshotHeights(x, s))
    requires forall k <- y :: k.scid != ""
    ensures forall s <- RaiseLatest(l, y) :: s != "" && RaiseLatest(l, y)[s] > 0
    ensures forall s: Scid :: GetOr(RaiseLatest(l, y), s, 0) == MaxOf(SnapshotHeights(x + y, s))
  {
    forall s: Scid
      ensures s in RaiseLatest(l, y) ==> s != "" && RaiseLatest(l, y)[s] > 0
      ensures GetOr(RaiseLatest(l, y), s, 0) == MaxOf(SnapshotHeights(x + y, s))
    {
      RaiseKeepsLatestAt(l, x, y, s);
    }
  }

  lemma RaiseKeepsLatestAt(l: map<Scid, nat>, x: set<ScidHeight>, y: set<ScidHeight>, s: Scid)
    requires s in l ==> s != "" && l[s] > 0
    requires GetOr(l, s, 0) == MaxOf(SnapshotHeights(x, s))
    requires forall k <- y :: k.scid != ""
    ensures s in RaiseLatest(l, y) ==> s != "" && RaiseLatest(l, y)[s] > 0
    ensures GetOr(RaiseLatest(l, y), s, 0) == MaxOf(SnapshotHeights(x + y, s))
  {
    assert SnapshotHeights(x + y, s) == SnapshotHeights(x, s) + SnapshotHeights(y, s);
    MaxOfUnion(SnapshotHeights(x, s), SnapshotHeights(y, s));
    if s == "" {
      assert SnapshotHeights(y, s) == {};
    } else {
      RaiseLatestAt(l, y, s);
      if s in RaiseLatest(l, y) && s !in l {
        var k :| k in y && k.scid != "" && k.height > 0 && k.scid == s;
        assert k.height in SnapshotHeights(y, s);
      }
    }
  }

  lemma FlushKeepsOwners(db: Db, b: Batch)
    requires OwnerEdgesAgree(db) && WellIndexed(b) && CountAgrees(db)
    ensures OwnerEdgesAgree(Flush(db, b)) && CountAgrees(Flush(db, b))
  {
    hide AddHeights, RaiseLatest, MergeEdges, PutInvocations, PutNormals, PutClassRows, NewOwners;
    SizeAfter(db.owners, b.owners);
  }

  lemma FlushKeepsDerived(db: Db, b: Batch)
    requires DerivedAgree(db) && WellIndexed(b)
    ensures DerivedAgree(Flush(db, b))
  {
    hide Flush, ClassRowsAgree, LatestAgrees, CountAgrees, OwnerEdgesAgree, WellIndexed;
    FlushKeepsClassRows(db, b);
    FlushKeepsLatest(db, b);
    FlushKeepsOwners(db, b);
  }

  // ---------- TruncateToHeight ----------

  lemma TruncateKeepsClassRows(db: Db, h: nat)
    requires ClassRowsAgree(db)
    ensures ClassRowsAgree(Truncate(db, h))
  {
    hide InstalledAbove, Affected, TruncatedEdges, TruncatedLatest;
    DropKeepsClassRows(db, InstalledAbove(db, h));
  }

  lemma DropKeepsClassRows(db: Db, gone: set<Scid>)
    requires ClassRowsAgree(db)
    ensures ClassRowsAgree(db.(classIdx := db.classIdx - gone, classRows := db.classRows - StaleClassRows(db, gone)))
  {
    forall k: ClassKey ensures k in db.classRows && k in StaleClassRows(db, gone) <==>
        k in db.classRows && k.scid in gone {
    }
    hide StaleClassRows, StaleRows;
  }

  lemma TruncateKeepsLatest(db: Db, h: nat)
    requires LatestAgrees(db)
    ensures LatestAgrees(Truncate(db, h))
  {
    LatestFields(db, h);
    hide Truncate;
    forall s: Scid
      ensures s in TruncatedLatest(db, h) ==> s != "" && TruncatedLatest(db, h)[s] > 0
      ensures GetOr(TruncatedLatest(db, h), s, 0) == MaxOf(SnapshotHeights(KeepRows(db.scvars, h).Keys, s))
    {
      hide LoweredLatest, Affected, Truncate, SnapshotHeights;
      AffectedSnapshots(db, h);
      LoweredLatestAt(db.latest, db.scvars, Affected(db, h), h, s);
    }
    hide Truncate, LoweredLatest, TruncatedLatest, SnapshotHeights, GetOr;
  }

  lemma LatestFields(db: Db, h: nat)
    ensures Truncate(db, h).latest == TruncatedLatest(db, h) && Truncate(db, h).scvars == KeepRows(db.scvars, h)
  {
    hide TruncatedEdges, TruncatedLatest, InstalledAbove, Affected;
  }

  lemma AffectedSnapshots(db: Db, h: nat)
    ensures ScidsAbove(db.scvars, h) <= Affected(db, h)
  {
    hide ScidsAbove, InstalledAbove;
  }

  lemma LoweredLatestAt(l: map<Scid, nat>, m: map<ScidHeight, Variables>, aff: set<Scid>, h: nat, s: Scid)
    requires ScidsAbove(m, h) <= aff && (forall k <- m :: k.scid != "") && (s in l ==> s != "" && l[s] > 0)
    requires GetOr(l, s, 0) == MaxOf(SnapshotHeights(m.Keys, s))
    ensures s in LoweredLatest(l, m, aff, h) ==> s != "" && LoweredLatest(l, m, aff, h)[s] > 0
    ensures GetOr(LoweredLatest(l, m, aff, h), s, 0) == MaxOf(SnapshotHeights(KeepRows(m, h).Keys, s))
  {
    var kept := SnapshotHeights(KeepRows(m, h).Keys, s);
    assert kept == set k | k in m && k.scid == s && k.height <= h :: k.height;
    if s in aff {
      assert s == "" ==> kept == {};
    } else {
      assert forall k | k in m && k.scid == s :: s in ScidsAbove(m, h) || k.height <= h;
      assert kept == SnapshotHeights(m.Keys, s);
    }
  }

  lemma TruncateKeepsOwners(db: Db, h: nat)
    requires OwnerEdgesAgree(db) && CountAgrees(db)
    ensures OwnerEdgesAgree(Truncate(db, h)) && CountAgrees(Truncate(db, h))
  {
    hide TruncatedEdges, TruncatedLatest, Affected, InstalledAbove, Removed;
    SizeWithout(db.owners, InstalledAbove(db, h));
  }

  lemma SizeWithout(m: map<Scid, Addr>, gone: set<Scid>)
    ensures |m - gone| == |m| - Removed(m, gone)
  {
    var cut := m.Keys * gone;
    assert (m - gone).Keys == m.Keys - cut;
    assert m.Keys == (m.Keys - cut) + cut;
    assert |m.Keys - cut| == |m.Keys| - |cut|;
    assert |m| == |m.Keys| && |m - gone| == |(m - gone).Keys|;
  }

  lemma TruncateKeepsDerived(db: Db, h: nat)
    requires DerivedAgree(db)
    ensures DerivedAgree(Truncate(db, h))
  {
    hide Truncate, ClassRowsAgree, LatestAgrees, CountAgrees, OwnerEdgesAgree;
    TruncateKeepsClassRows(db, h);
    TruncateKeepsLatest(db, h);
    TruncateKeepsOwners(db, h);
  }

  // ---------- The other writers, and whole runs ----------

  lemma StoreOwnerKeepsDerived(db: Db, s: Scid, o: Addr)
    requires DerivedAgree(db)
    ensures DerivedAgree(StoreOwnerIn(db, s, o))
  {
    hide ClassRowsAgree, LatestAgrees;
    SameClassesAndSnapshots(db, StoreOwnerIn(db, s, o));
    OwnerAdded(db.owners, s, o);
  }

  lemma OwnerAdded(m: map<Scid, Addr>, s: Scid, o: Addr)
    ensures |m[s := o]| == |m| + (if s in m then 0 else 1)
  {
    assert m[s := o].Keys == m.Keys + {s};
    assert |m[s := o]| == |m[s := o].Keys| && |m| == |m.Keys|;
  }

  lemma SameClassesAndSnapshots(a: Db, b: Db)
    requires a.classRows == b.classRows && a.classIdx == b.classIdx && a.scvars == b.scvars && a.latest == b.latest
    requires ClassRowsAgree(a) && LatestAgrees(a)
    ensures ClassRowsAgree(b) && LatestAgrees(b)
  {
  }

  lemma StoreVariablesKeepsDerived(db: Db, s: Scid, h: nat, vars: Variables)
    requires DerivedAgree(db) && s != ""
    ensures DerivedAgree(StoreVariablesIn(db, s, h, vars))
  {
    hide RaiseLatest, ClassRowsAgree;
    var after := StoreVariablesIn(db, s, h, vars);
    assert ClassRowsAgree(after) by {
      assert forall k: ClassKey :: k in db.classRows <==> k in after.classRows;
      SameRows(db, after);
    }
    assert after.scvars.Keys == db.scvars.Keys + {ScidHeight(s, h)};
    RaiseKeepsLatest(db.latest, db.scvars.Keys, {ScidHeight(s, h)});
  }

  lemma SameRows(a: Db, b: Db)
    requires a.classRows == b.classRows && a.classIdx == b.classIdx && ClassRowsAgree(a)
    ensures ClassRowsAgree(b)
  {
  }

  lemma ResetKeepsDerived(db: Db)
    ensures DerivedAgree(ResetDb(db))
  {
    assert forall s: Scid :: SnapshotHeights({}, s) == {};
  }

  datatype Op =
    | FlushOp(calls: seq<Call>)
    | StoreOwnerOp(scid: Scid, owner: Addr)
    | StoreVariablesOp(scid: Scid, height: nat, vars: Variables)
    | TruncateOp(target: int)
    | ResetOp

  ghost predicate Allowed(op: Op) {
    match op
    case FlushOp(calls) => SnapshotsNamed(calls)
    case StoreVariablesOp(s, _, _) => s != ""
    case _ => true
  }

  /** A negative truncation height is clamped to 0. */
  function Clamp(h: int): nat { if h < 0 then 0 else h }

  ghost function Exec(db: Db, op: Op): Db {
    match op
    case FlushOp(calls) => Flush(db, Build(calls))
    case StoreOwnerOp(s, o) => StoreOwnerIn(db, s, o)
    case StoreVariablesOp(s, h, vars) => StoreVariablesIn(db, s, h, vars)
    case TruncateOp(h) => Truncate(db, Clamp(h))
    case ResetOp => ResetDb(db)
  }

  ghost function ExecAll(ops: seq<Op>): Db {
    if ops == [] then EMPTY_DB else Exec(ExecAll(ops[..|ops| - 1]), ops[|ops| - 1])
  }

  /** Every reachable store has derived indexes that agree with a plain scan. */
  lemma {:induction false} ReachableDerivedAgree(ops: seq<Op>)
    requires forall op <- ops :: Allowed(op)
    ensures DerivedAgree(ExecAll(ops))
    ensures ScidCount(ExecAll(ops)) == |ExecAll(ops).owners|
  {
    hide ClassRowsAgree, LatestAgrees, OwnerEdgesAgree, Flush, Truncate, StoreOwnerIn, StoreVariablesIn, ResetDb;
    if ops == [] {
      ResetKeepsDerived(EMPTY_DB);
      EmptyIsReset();
    } else {
      var init, op := ops[..|ops| - 1], ops[|ops| - 1];
      ReachableDerivedAgree(init);
      assert Allowed(op);
      match op {
        case FlushOp(calls) => BuildWellIndexed(calls); FlushKeepsDerived(ExecAll(init), Build(calls));
        case StoreOwnerOp(s, o) => StoreOwnerKeepsDerived(ExecAll(init), s, o);
        case StoreVariablesOp(s, h, vars) => StoreVariablesKeepsDerived(ExecAll(init), s, h, vars);
        case TruncateOp(h) => TruncateKeepsDerived(ExecAll(init), Clamp(h));
        case ResetOp => ResetKeepsDerived(ExecAll(init));
      }
    }
  }

  lemma EmptyIsReset()
    ensures ResetDb(EMPTY_DB) == EMPTY_DB
  {
  }

  // ---------- Derived buckets are functions of their sources ----------

  /** Equal class_scid and scvars buckets force equal class and scvars_latest buckets. */
  lemma DerivedDetermined(a: Db, b: Db)
    requires DerivedAgree(a) && DerivedAgree(b)
    requires a.classIdx == b.classIdx && a.scvars == b.scvars && a.owners == b.owners
    ensures a.classRows == b.classRows && a.latest == b.latest && ScidCount(a) == ScidCount(b)
  {
    forall s: Scid ensures (s in a.latest <==> s in b.latest) && (s in a.latest ==> a.latest[s] == b.latest[s]) {
      assert GetOr(a.latest, s, 0) == GetOr(b.latest, s, 0);
    }
  }
}
