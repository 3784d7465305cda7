/**
 Batch boundaries do not matter (storage/bbolt.go, FlushBatch): however a stream of Add*
 calls is cut into batches, the store ends up the same.
 */
module BatchBoundary {
  import opened IndexTypes
  import opened WriteBatches
  import opened IndexDb

  /** Every class row is the row of its scid's class_scid entry. */
  ghost predicate NoStrayRows(db: Db) {
    forall k <- db.classRows :: k.scid in db.classIdx && k == RowOf(k.scid, db.classIdx[k.scid])
  }

  /** What Build guarantees of every batch, given classifier results with a class name. */
  ghost predicate Named(b: Batch) {
    && (forall s <- b.classes :: b.classes[s].className != "")
    && (forall s <- b.scCodes :: b.scCodes[s].code != "")
    && (forall e <- b.ownerScids :: e.owner != "")
  }

  ghost predicate NamedCalls(calls: seq<Call>) {
    forall c <- calls :: c.Class? ==> c.meta.className != ""
  }

  lemma {:induction false} BuildNamed(calls: seq<Call>)
    requires NamedCalls(calls)
    ensures Named(Build(calls))
  {
    hide Apply, Named;
    if calls == [] {
      EmptyNamed();
    } else {
      BuildNamed(calls[..|calls| - 1]);
      ApplyNamed(Build(calls[..|calls| - 1]), calls[|calls| - 1]);
    }
  }

  lemma EmptyNamed()
    ensures Named(EMPTY_BATCH)
  {
  }

  lemma ApplyNamed(b: Batch, c: Call)
    requires Named(b) && (c.Class? ==> c.meta.className != "")
    ensures Named(Apply(b, c))
  {
    hide AddHeight, AddTouch;
  }

  lemma {:induction false} PutInvocationsTwice(m: map<InvokeKey, Invocation>, x: seq<Invocation>, y: seq<Invocation>)
    ensures PutInvocations(PutInvocations(m, x), y) == PutInvocations(m, x + y)
  {
    if y == [] {
      assert x + y == x;
    } else {
      PutInvocationsTwice(m, x, y[..|y| - 1]);
      assert (x + y)[..|x + y| - 1] == x + y[..|y| - 1];
    }
  }

  lemma {:induction false} PutNormalsTwice(m: map<NormKey, NormalTx>, x: seq<NormalTxRef>, y: seq<NormalTxRef>)
    ensures PutNormals(PutNormals(m, x), y) == PutNormals(m, x + y)
  {
    if y == [] {
      assert x + y == x;
    } else {
      PutNormalsTwice(m, x, y[..|y| - 1]);
      assert (x + y)[..|x + y| - 1] == x + y[..|y| - 1];
    }
  }

  lemma MaxOfUnion(x: set<nat>, y: set<nat>)
    ensures MaxOf(x + y) == Max(MaxOf(x), MaxOf(y))
  {
    assert x + y != {} ==> MaxOf(x + y) in x || MaxOf(x + y) in y;
    if x != {} { assert MaxOf(x) in x + y; }
    if y != {} { assert MaxOf(y) in x + y; }
    assert x == {} ==> x + y == y;
    assert y == {} ==> x + y == x;
  }

  /** keys hold a positive snapshot of s. */
  ghost predicate Raised(keys: set<ScidHeight>, s: Scid) {
    s != "" && exists k <- keys :: k.scid == s && k.height > 0
  }

  lemma RaisedKeys(l: map<Scid, nat>, x: set<ScidHeight>, s: Scid)
    ensures s in RaiseLatest(l, x) <==> s in l || Raised(x, s)
  {
  }

  lemma RaiseLatestTwice(l: map<Scid, nat>, x: set<ScidHeight>, y: set<ScidHeight>)
    ensures RaiseLatest(RaiseLatest(l, x), y) == RaiseLatest(l, x + y)
  {
    hide RaiseLatest;
    var one, two, both := RaiseLatest(l, x), RaiseLatest(RaiseLatest(l, x), y), RaiseLatest(l, x + y);
    forall s ensures s in two <==> s in both {
      RaisedKeys(l, x, s);
      RaisedKeys(one, y, s);
      RaisedKeys(l, x + y, s);
    }
    hide Raised;
    forall s | s in two ensures two[s] == both[s] {
      RaiseLatestTwiceAt(l, x, y, s);
    }
  }

  lemma RaiseLatestTwiceAt(l: map<Scid, nat>, x: set<ScidHeight>, y: set<ScidHeight>, s: Scid)
    requires s in RaiseLatest(RaiseLatest(l, x), y) && s in RaiseLatest(l, x + y)
    ensures RaiseLatest(RaiseLatest(l, x), y)[s] == RaiseLatest(l, x + y)[s]
  {
    if s != "" {
      hide RaiseLatest;
      RaiseLatestAt(l, x, s);
      RaiseLatestAt(RaiseLatest(l, x), y, s);
      RaiseLatestAt(l, x + y, s);
      assert SnapshotHeights(x + y, s) == SnapshotHeights(x, s) + SnapshotHeights(y, s);
      hide SnapshotHeights;
      MaxOfUnion(SnapshotHeights(x, s), SnapshotHeights(y, s));
    }
  }

  /** A missing pointer reads 0, and so does a scid whose only snapshots are at height 0. */
  lemma RaiseLatestAt(l: map<Scid, nat>, x: set<ScidHeight>, s: Scid)
    requires s != ""
    ensures GetOr(RaiseLatest(l, x), s, 0) == Max(GetOr(l, s, 0), MaxOf(SnapshotHeights(x, s)))
  {
    var m := MaxOf(SnapshotHeights(x, s));
    if m > 0 {
      assert m in SnapshotHeights(x, s);
      var k :| k in x && k.scid == s && k.height == m;
      assert s in RaiseLatest(l, x);
    }
  }

  lemma AddHeightsTwice(m: map<ScidHeight, nat>, x: map<Scid, seq<nat>>, y: map<Scid, seq<nat>>)
    ensures AddHeights(AddHeights(m, x), y) == AddHeights(m, MergeHeights(x, y))
  {
    hide AddHeights, MergeHeights;
    forall k: ScidHeight {
      AddHeightsTwiceAt(m, x, y, k);
    }
  }

  lemma AddHeightsTwiceAt(m: map<ScidHeight, nat>, x: map<Scid, seq<nat>>, y: map<Scid, seq<nat>>, k: ScidHeight)
    ensures k in AddHeights(AddHeights(m, x), y) <==> k in AddHeights(m, MergeHeights(x, y))
    ensures k in AddHeights(AddHeights(m, x), y) ==>
              AddHeights(AddHeights(m, x), y)[k] == AddHeights(m, MergeHeights(x, y))[k]
  {
    hide AddHeights, Occurrences, MergeHeights;
    OccurrencesThen(x, y, k);
    AddHeightsAt(AddHeights(m, x), y, k);
    AddHeightsAt(m, x, k);
    AddHeightsAt(m, MergeHeights(x, y), k);
  }

  lemma AddHeightsAt(m: map<ScidHeight, nat>, x: map<Scid, seq<nat>>, k: ScidHeight)
    ensures k in AddHeights(m, x) <==> k in m || Occurrences(x, k) > 0
    ensures k in AddHeights(m, x) ==> AddHeights(m, x)[k] == GetOr(m, k, 0) + Occurrences(x, k)
    ensures GetOr(AddHeights(m, x), k, 0) == GetOr(m, k, 0) + Occurrences(x, k)
  {
    HeightKeysAt(x, k);
  }

  lemma OccurrencesThen(x: map<Scid, seq<nat>>, y: map<Scid, seq<nat>>, k: ScidHeight)
    ensures Occurrences(MergeHeights(x, y), k) == Occurrences(x, k) + Occurrences(y, k)
  {
    var a, b := GetOr(x, k.scid, []), GetOr(y, k.scid, []);
    assert multiset(a + b) == multiset(a) + multiset(b);
  }

  lemma HeightKeysAt(x: map<Scid, seq<nat>>, k: ScidHeight)
    ensures k in HeightKeys(x) <==> k.scid in x && k.height in x[k.scid]
    ensures k in HeightKeys(x) <==> Occurrences(x, k) > 0
  {
    if k.scid in x {
      assert k.height in x[k.scid] <==> k.height in multiset(x[k.scid]);
    }
    assert k == ScidHeight(k.scid, k.height);
  }

  /** The counter after new owners, in terms of how many there are. */
  lemma CountOwnersIs(n: Option<int>, m: map<Scid, Addr>, x: map<Scid, Addr>)
    ensures CountOwners(n, m, x) ==
            if NewOwners(m, x) == 0 then n else Some((if n.Some? then n.value else OwnerRows(m)) + NewOwners(m, x))
  {
    hide NewOwners, OwnerRows;
    SizeAfter(m, x);
  }

  lemma CountOwnersTwice(n: Option<int>, m: map<Scid, Addr>, x: map<Scid, Addr>, y: map<Scid, Addr>)
    ensures CountOwners(CountOwners(n, m, x), m + x, y) == CountOwners(n, m, x + y)
  {
    hide NewOwners, CountOwners, OwnerRows;
    NewOwnersTwice(m, x, y);
    SizeAfter(m, x);
    CountOwnersIs(n, m, x);
    CountOwnersIs(n, m, x + y);
    CountOwnersIs(CountOwners(n, m, x), m + x, y);
  }

  lemma NewOwnersTwice(m: map<Scid, Addr>, x: map<Scid, Addr>, y: map<Scid, Addr>)
    ensures NewOwners(m, x + y) == NewOwners(m, x) + NewOwners(m + x, y)
  {
    var dx, dy := x.Keys - m.Keys, y.Keys - (m + x).Keys;
    assert (x + y).Keys - m.Keys == dx + dy && dx !! dy;
  }

  lemma SizeAfter(m: map<Scid, Addr>, y: map<Scid, Addr>)
    ensures OwnerRows(m + y) == OwnerRows(m) + NewOwners(m, y)
  {
    var added := y.Keys - m.Keys;
    assert (m + y).Keys == m.Keys + added && m.Keys !! added;
    assert |m + y| == |(m + y).Keys| && |m| == |m.Keys|;
  }

  lemma PutClassRowsTwice(rows: map<ClassKey, ClassMeta>, idx: map<Scid, ClassMeta>,
                          x: map<Scid, ClassMeta>, y: map<Scid, ClassMeta>)
    requires forall k <- rows :: k.scid in idx && k == RowOf(k.scid, idx[k.scid])
    ensures PutClassRows(PutClassRows(rows, idx, x), idx + x, y) == PutClassRows(rows, idx, x + y)
  {
    hide PutClassRows;
    forall k: ClassKey {
      PutClassRowsTwiceAt(rows, idx, x, y, k);
    }
  }

  lemma PutClassRowsTwiceAt(rows: map<ClassKey, ClassMeta>, idx: map<Scid, ClassMeta>,
                            x: map<Scid, ClassMeta>, y: map<Scid, ClassMeta>, k: ClassKey)
    requires k in rows ==> k.scid in idx && k == RowOf(k.scid, idx[k.scid])
    ensures var two, both := PutClassRows(PutClassRows(rows, idx, x), idx + x, y), PutClassRows(rows, idx, x + y);
            (k in two <==> k in both) && (k in two ==> two[k] == both[k])
  {
    hide PutClassRows;
    PutClassRowsAt(rows, idx, x, k);
    PutClassRowsAt(PutClassRows(rows, idx, x), idx + x, y, k);
    PutClassRowsAt(rows, idx, x + y, k);
  }

  /** A row after the write: the new row of a written scid, or an old row that did not move. */
  lemma PutClassRowsAt(rows: map<ClassKey, ClassMeta>, idx: map<Scid, ClassMeta>, add: map<Scid, ClassMeta>,
      k: ClassKey)
    ensures var after := PutClassRows(rows, idx, add);
            if k.scid in add && k == RowOf(k.scid, add[k.scid]) then k in after && after[k] == add[k.scid]
            else && (k in after <==> k in rows && !(k.scid in add && k.scid in idx && k == RowOf(k.scid, idx[k.scid])))
                 && (k in after ==> after[k] == rows[k])
  {
    var fresh' := map s | s in add :: RowOf(s, add[s]) := add[s];
    if k.scid in add && k == RowOf(k.scid, add[k.scid]) {
      assert k in fresh';
    }
  }

  lemma MergeEdgesAssoc(m: map<Edge, AddrEntry>, x: map<Edge, AddrEntry>, y: map<Edge, AddrEntry>)
    ensures MergeEdges(MergeEdges(m, x), y) == MergeEdges(m, MergeEdges(x, y))
  {
  }

  /** One flush of the combined batch equals two flushes. */
  lemma FlushThen(db: Db, a: Batch, b: Batch)
    requires NoStrayRows(db) && Named(a) && Named(b)
    ensures Flush(Flush(db, a), b) == Flush(db, Then(a, b))
  {
    hide Flush, Then, NoStrayRows, Named;
    FlushThenScan(db, a, b);
    FlushThenRoute(db, a, b);
  }

  lemma FlushThenScan(db: Db, a: Batch, b: Batch)
    ensures var two, one := Flush(Flush(db, a), b), Flush(db, Then(a, b));
            && two.owners == one.owners && two.invokes == one.invokes && two.scvars == one.scvars
            && two.latest == one.latest && two.heights == one.heights && two.normTxs == one.normTxs
            && two.invalid == one.invalid && two.reg == one.reg && two.burn == one.burn && two.norm == one.norm
            && two.scCount == one.scCount && two.last == one.last && two.tela == one.tela
  {
    hide RaiseLatest, AddHeights, MergeHeights, CountOwners, PutClassRows, MergeEdges, PutInvocations, PutNormals;
    hide NonEmptyClasses, NonEmptyCodes, NonEmptyOwners;
    OverrideAssoc(db.owners, a.owners, b.owners);
    OverrideAssoc(db.scvars, a.variables, b.variables);
    OverrideAssoc(db.invalid, a.invalid, b.invalid);
    PutInvocationsTwice(db.invokes, a.invocations, b.invocations);
    PutNormalsTwice(db.normTxs, a.normalTxs, b.normalTxs);
    assert (a.variables + b.variables).Keys == a.variables.Keys + b.variables.Keys;
    RaiseLatestTwice(db.latest, a.variables.Keys, b.variables.Keys);
    AddHeightsTwice(db.heights, a.heights, b.heights);
    CountOwnersTwice(db.scCount, db.owners, a.owners, b.owners);
  }

  lemma FlushThenRoute(db: Db, a: Batch, b: Batch)
    requires NoStrayRows(db) && Named(a) && Named(b)
    ensures var two, one := Flush(Flush(db, a), b), Flush(db, Then(a, b));
            && two.blockHashes == one.blockHashes && two.installs == one.installs && two.classIdx == one.classIdx
            && two.classRows == one.classRows && two.scCodes == one.scCodes && two.ownerScids == one.ownerScids
            && two.addrScids == one.addrScids
  {
    hide RaiseLatest, AddHeights, MergeHeights, CountOwners, PutClassRows, MergeEdges, PutInvocations, PutNormals;
    hide NonEmptyClasses, NonEmptyCodes, NonEmptyOwners;
    OverrideAssoc(db.blockHashes, a.blockHashes, b.blockHashes);
    OverrideAssoc(db.installs, a.installs, b.installs);
    OverrideAssoc(db.classIdx, a.classes, b.classes);
    OverrideAssoc(db.scCodes, a.scCodes, b.scCodes);
    assert (db.ownerScids + a.ownerScids) + b.ownerScids == db.ownerScids + (a.ownerScids + b.ownerScids);
    AllNamed(a);
    AllNamed(b);
    AllNamed(Then(a, b));
    PutClassRowsTwice(db.classRows, db.classIdx, a.classes, b.classes);
    MergeEdgesAssoc(db.addrScids, a.addrScids, b.addrScids);
  }

  lemma OverrideAssoc<K, V>(m: map<K, V>, x: map<K, V>, y: map<K, V>)
    ensures (m + x) + y == m + (x + y)
  {
  }

  lemma AllNamed(b: Batch)
    requires Named(b)
    ensures NonEmptyClasses(b.classes) == b.classes && NonEmptyCodes(b.scCodes) == b.scCodes
    ensures NonEmptyOwners(b.ownerScids) == b.ownerScids
  {
  }

  lemma FlushEmpty(db: Db)
    ensures Flush(db, EMPTY_BATCH) == db
  {
    hide Flush;
    FlushEmptyScan(db);
    FlushEmptyRoute(db);
  }

  lemma FlushEmptyScan(db: Db)
    ensures var after := Flush(db, EMPTY_BATCH);
            && after.owners == db.owners && after.invokes == db.invokes && after.scvars == db.scvars
            && after.latest == db.latest && after.heights == db.heights && after.normTxs == db.normTxs
            && after.invalid == db.invalid && after.reg == db.reg && after.burn == db.burn && after.norm == db.norm
            && after.scCount == db.scCount && after.last == db.last && after.tela == db.tela
  {
    hide MergeEdges, CountOwners, AddHeights, RaiseLatest, PutClassRows, NonEmptyClasses, NonEmptyCodes, NonEmptyOwners;
    assert EMPTY_BATCH.variables.Keys == {};
    EmptyRaise(db.latest);
    EmptyHeights(db.heights);
    EmptyCount(db.scCount, db.owners);
  }

  lemma FlushEmptyRoute(db: Db)
    ensures var after := Flush(db, EMPTY_BATCH);
            && after.blockHashes == db.blockHashes && after.installs == db.installs && after.classIdx == db.classIdx
            && after.classRows == db.classRows && after.scCodes == db.scCodes && after.ownerScids == db.ownerScids
            && after.addrScids == db.addrScids
  {
    FlushEmptyRows(db);
    FlushEmptyNamed(db);
    hide Flush;
  }

  lemma FlushEmptyRows(db: Db)
    ensures var after := Flush(db, EMPTY_BATCH);
            after.blockHashes == db.blockHashes && after.installs == db.installs && after.addrScids == db.addrScids
  {
    hide MergeEdges, CountOwners, AddHeights, RaiseLatest, PutClassRows, NonEmptyClasses, NonEmptyCodes, NonEmptyOwners;
    EdgesEmpty(db.addrScids);
  }

  lemma FlushEmptyNamed(db: Db)
    ensures var after := Flush(db, EMPTY_BATCH);
            && after.classIdx == db.classIdx && after.classRows == db.classRows
            && after.scCodes == db.scCodes && after.ownerScids == db.ownerScids
  {
    hide MergeEdges, CountOwners, AddHeights, RaiseLatest, PutClassRows, NonEmptyClasses, NonEmptyCodes, NonEmptyOwners;
    AllNamed(EMPTY_BATCH);
    EmptyRows(db.classRows, db.classIdx);
  }

  lemma EmptyRaise(l: map<Scid, nat>)
    ensures RaiseLatest(l, {}) == l
  {
    assert forall s :: SnapshotHeights({}, s) == {};
  }

  lemma EmptyHeights(m: map<ScidHeight, nat>)
    ensures AddHeights(m, map[]) == m
  {
    assert HeightKeys(map[]) == {};
  }

  lemma EmptyCount(n: Option<int>, m: map<Scid, Addr>)
    ensures CountOwners(n, m, map[]) == n
  {
    var none: map<Scid, Addr> := map[];
    assert none.Keys - m.Keys == {};
  }

  lemma EmptyRows(rows: map<ClassKey, ClassMeta>, idx: map<Scid, ClassMeta>)
    ensures PutClassRows(rows, idx, map[]) == rows
  {
    assert forall k :: k in rows <==> k in PutClassRows(rows, idx, map[]);
  }

  lemma FlushKeepsRows(db: Db, b: Batch)
    requires NoStrayRows(db) && Named(b)
    ensures NoStrayRows(Flush(db, b))
  {
    AllNamed(b);
    forall k | k in Flush(db, b).classRows
      ensures k.scid in Flush(db, b).classIdx && k == RowOf(k.scid, Flush(db, b).classIdx[k.scid])
    {
      PutClassRowsAt(db.classRows, db.classIdx, b.classes, k);
    }
  }

  // ---------- Any number of batches ----------

  ghost function FlushAll(db: Db, batches: seq<seq<Call>>): Db {
    if batches == [] then db
    else Flush(FlushAll(db, batches[..|batches| - 1]), Build(batches[|batches| - 1]))
  }

  function Concat<T>(parts: seq<seq<T>>): seq<T> {
    if parts == [] then [] else Concat(parts[..|parts| - 1]) + parts[|parts| - 1]
  }

  ghost predicate GoodCalls(calls: seq<Call>) {
    NamedCalls(calls) && PositiveLasts(calls)
  }

  /** Flushing the batch of c and then the batch of d is flushing the batch of c + d. */
  lemma FlushInTwo(db: Db, c: seq<Call>, d: seq<Call>)
    requires NoStrayRows(db) && GoodCalls(c) && GoodCalls(d)
    ensures Flush(Flush(db, Build(c)), Build(d)) == Flush(db, Build(c + d))
  {
    hide Flush, Build, Then, Named, NoStrayRows;
    BuildNamed(c);
    BuildNamed(d);
    BuildThen(c, d);
    FlushThen(db, Build(c), Build(d));
  }

  lemma {:induction false} FlushAllIsOneFlush(db: Db, batches: seq<seq<Call>>)
    requires NoStrayRows(db) && GoodCalls(Concat(batches))
    ensures FlushAll(db, batches) == Flush(db, Build(Concat(batches)))
  {
    hide Flush, NoStrayRows;
    if batches == [] {
      FlushEmpty(db);
    } else {
      var init, last := batches[..|batches| - 1], batches[|batches| - 1];
      assert forall c <- Concat(init) :: c in Concat(batches);
      assert forall c <- last :: c in Concat(batches);
      FlushAllIsOneFlush(db, init);
      FlushInTwo(db, Concat(init), last);
    }
  }

  /** Two ways of cutting the same calls into batches leave the same store. */
  lemma BatchingIsInvisible(db: Db, x: seq<seq<Call>>, y: seq<seq<Call>>)
    requires NoStrayRows(db) && GoodCalls(Concat(x)) && Concat(x) == Concat(y)
    ensures FlushAll(db, x) == FlushAll(db, y)
  {
    FlushAllIsOneFlush(db, x);
    FlushAllIsOneFlush(db, y);
  }
}
