/**
 One FlushBatch and one TruncateToHeight row by row (storage/bbolt.go, storage/truncate.go): for any store and
 any batch or height, which rows a bucket holds afterwards, in terms of the rows before and nothing else.
 */
module StoreRows {
  import opened IndexTypes
  import opened WriteBatches
  import opened IndexDb
  import opened BatchBoundary
  import opened TurboHistory
  import opened Rollback

  // ---------- FlushBatch ----------

  /** An invocation record is written under its own fields unless its scid is empty; the last one wins. */
  predicate WritesAt(inv: Invocation, k: InvokeKey) {
    && inv.scid != "" && k == InvokeKey(inv.scid, inv.sender, inv.details.txid, inv.height, inv.entrypoint)
  }

  lemma {:induction false} PutInvocationsAt(m: map<InvokeKey, Invocation>, q: seq<Invocation>, k: InvokeKey)
    ensures k in PutInvocations(m, q) <==> k in m || exists i :: 0 <= i < |q| && WritesAt(q[i], k)
    ensures forall i | 0 <= i < |q| && WritesAt(q[i], k) && (forall j | i < j < |q| :: !WritesAt(q[j], k)) ::
              PutInvocations(m, q)[k] == q[i]
    ensures (forall i | 0 <= i < |q| :: !WritesAt(q[i], k)) && k in m ==> PutInvocations(m, q)[k] == m[k]
  {
    if q != [] {
      var init, last := q[..|q| - 1], q[|q| - 1];
      PutInvocationsAt(m, init, k);
      assert forall i | 0 <= i < |init| :: init[i] == q[i];
      assert PutInvocations(m, q) == if last.scid == "" then PutInvocations(m, init)
                                     else PutInvocations(m, init)[KeyOfInvocation(last) := last];
      assert WritesAt(last, k) <==> last.scid != "" && k == KeyOfInvocation(last);
      hide PutInvocations, WritesAt, KeyOfInvocation;
    }
  }

  predicate RecordedAt(e: NormalTxRef, k: NormKey) { k == NormKey(e.addr, e.tx.height, e.tx.txid, e.tx.scid) }

  lemma {:induction false} PutNormalsAt(m: map<NormKey, NormalTx>, q: seq<NormalTxRef>, k: NormKey)
    ensures k in PutNormals(m, q) <==> k in m || exists i :: 0 <= i < |q| && RecordedAt(q[i], k)
    ensures forall i | 0 <= i < |q| && RecordedAt(q[i], k) && (forall j | i < j < |q| :: !RecordedAt(q[j], k)) ::
              PutNormals(m, q)[k] == q[i].tx
    ensures (forall i | 0 <= i < |q| :: !RecordedAt(q[i], k)) && k in m ==> PutNormals(m, q)[k] == m[k]
  {
    if q != [] {
      var init := q[..|q| - 1];
      PutNormalsAt(m, init, k);
      assert forall i | 0 <= i < |init| :: init[i] == q[i];
    }
  }

  /** The list buckets of a flush. */
  lemma FlushLists(db: Db, b: Batch, k: InvokeKey, n: NormKey)
    ensures k in Flush(db, b).invokes <==>
            k in db.invokes || exists i :: 0 <= i < |b.invocations| && WritesAt(b.invocations[i], k)
    ensures forall i | 0 <= i < |b.invocations| && WritesAt(b.invocations[i], k)
                    && (forall j | i < j < |b.invocations| :: !WritesAt(b.invocations[j], k)) ::
              Flush(db, b).invokes[k] == b.invocations[i]
    ensures n in Flush(db, b).normTxs <==>
            n in db.normTxs || exists i :: 0 <= i < |b.normalTxs| && RecordedAt(b.normalTxs[i], n)
    ensures forall i | 0 <= i < |b.normalTxs| && RecordedAt(b.normalTxs[i], n)
                    && (forall j | i < j < |b.normalTxs| :: !RecordedAt(b.normalTxs[j], n)) ::
              Flush(db, b).normTxs[n] == b.normalTxs[i].tx
  {
    PutInvocationsAt(db.invokes, b.invocations, k);
    PutNormalsAt(db.normTxs, b.normalTxs, n);
    hide PutInvocations, PutNormals, WritesAt, RecordedAt, RaiseLatest, AddHeights, CountOwners, NonEmptyClasses;
    hide PutClassRows, NonEmptyCodes, NonEmptyOwners, MergeEdges;
  }

  /** The merged buckets: interaction counts add up, and an edge on both sides spans and counts both. */
  lemma FlushMerges(db: Db, b: Batch, s: Scid, h: nat, e: Edge)
    ensures var k, now := ScidHeight(s, h), Flush(db, b).heights;
            && (k in now <==> k in db.heights || (s in b.heights && h in b.heights[s]))
            && (k in now ==> now[k] == (if k in db.heights then db.heights[k] else 0) +
                                       (if s in b.heights then multiset(b.heights[s])[h] else 0))
    ensures var now := Flush(db, b).addrScids;
            && (e in now <==> e in db.addrScids || e in b.addrScids)
            && (e in db.addrScids && e in b.addrScids ==>
                  var x, y := db.addrScids[e], b.addrScids[e];
                  now[e] == AddrEntry(if x.first < y.first then x.first else y.first,
                                      if x.last > y.last then x.last else y.last, x.count + y.count))
            && (e in db.addrScids && e !in b.addrScids ==> now[e] == db.addrScids[e])
            && (e !in db.addrScids && e in b.addrScids ==> now[e] == b.addrScids[e])
  {
    hide PutInvocations, PutNormals, RaiseLatest, CountOwners, PutClassRows, AddHeights, NonEmptyClasses;
    hide NonEmptyCodes, NonEmptyOwners;
    AddHeightsAt(db.heights, b.heights, ScidHeight(s, h));
  }

  /** The contract's own rows take the batch's, but unclassified, empty and unnamed ones are left out. */
  lemma FlushEntities(db: Db, b: Batch, s: Scid, o: OwnerEdge)
    ensures var now := Flush(db, b).classIdx; var named := s in b.classes && b.classes[s].className != "";
            && (s in now <==> s in db.classIdx || named)
            && (s in now ==> now[s] == if named then b.classes[s] else db.classIdx[s])
    ensures var now := Flush(db, b).scCodes; var named := s in b.scCodes && b.scCodes[s].code != "";
            && (s in now <==> s in db.scCodes || named)
            && (s in now ==> now[s] == if named then b.scCodes[s] else db.scCodes[s])
    ensures o in Flush(db, b).ownerScids <==> o in db.ownerScids || (o in b.ownerScids && o.owner != "")
    ensures var now := Flush(db, b).invalid;
            && (s in now <==> s in db.invalid || s in b.invalid)
            && (s in now ==> now[s] == if s in b.invalid then b.invalid[s] else db.invalid[s])
  {
    hide PutInvocations, PutNormals, RaiseLatest, CountOwners, PutClassRows, AddHeights, MergeEdges;
  }

  /** A pointer becomes the greatest positive height at which the batch snapshots the contract, if that is higher. */
  lemma FlushPointers(db: Db, b: Batch, s: Scid)
    ensures var now := Flush(db, b).latest;
            && (s in now <==> s in db.latest || (s != "" && exists k <- b.variables :: k.scid == s && k.height > 0))
            && (s in now && s in db.latest ==> now[s] >= db.latest[s])
            && (s in now && s != "" ==> forall k <- b.variables :: k.scid == s ==> k.height <= now[s])
            && (s in now ==> (s in db.latest && now[s] == db.latest[s]) ||
                             (s != "" && ScidHeight(s, now[s]) in b.variables))
  {
    PointersAt(db.latest, b.variables.Keys, s);
    hide PutInvocations, PutNormals, RaiseLatest, CountOwners, PutClassRows, AddHeights, MergeEdges;
  }

  lemma PointersAt(latest: map<Scid, nat>, keys: set<ScidHeight>, s: Scid)
    ensures var now := RaiseLatest(latest, keys);
            && (s in now <==> s in latest || (s != "" && exists k <- keys :: k.scid == s && k.height > 0))
            && (s in now && s in latest ==> now[s] >= latest[s])
            && (s in now && s != "" ==> forall k <- keys :: k.scid == s ==> k.height <= now[s])
            && (s in now ==> (s in latest && now[s] == latest[s]) || (s != "" && ScidHeight(s, now[s]) in keys))
  {
    var hs := SnapshotHeights(keys, s);
    assert forall k <- keys :: k.scid == s ==> k.height in hs;
    assert forall h <- hs :: ScidHeight(s, h) in keys;
    hide SnapshotHeights;
  }

  /** A batch without a height leaves the stored one; the counter of contracts counts new owners. */
  lemma FlushStats(db: Db, b: Batch)
    ensures Flush(db, b).last == if b.lastHeight > 0 then Some(b.lastHeight) else db.last
    ensures db.scCount == Some(|db.owners|) ==> Flush(db, b).scCount == Some(|Flush(db, b).owners|)
    ensures db.scCount == None && Flush(db, b).owners.Keys != db.owners.Keys ==>
              Flush(db, b).scCount == Some(|Flush(db, b).owners|)
    ensures Flush(db, b).owners.Keys == db.owners.Keys ==> Flush(db, b).scCount == db.scCount
  {
    CountIsSize(db.scCount, db.owners, b.owners);
    hide PutInvocations, PutNormals, RaiseLatest, PutClassRows, AddHeights, MergeEdges, CountOwners, NonEmptyClasses;
    hide NonEmptyCodes, NonEmptyOwners;
  }

  lemma CountIsSize(n: Option<int>, before: map<Scid, Addr>, add: map<Scid, Addr>)
    ensures var after, now := before + add, CountOwners(n, before, add);
            && (n == Some(|before|) ==> now == Some(|after|))
            && (n == None && after.Keys != before.Keys ==> now == Some(|after|))
            && (after.Keys == before.Keys ==> now == n)
  {
    AddedSize(before, add);
    CountByAdded(n, before, add, NewOwners(before, add));
    hide *;
  }

  lemma CountByAdded(n: Option<int>, before: map<Scid, Addr>, add: map<Scid, Addr>, added: nat)
    requires added == NewOwners(before, add)
    ensures CountOwners(n, before, add) ==
            if added == 0 then n else if n.Some? then Some(n.value + added) else Some(|before + add|)
  {
    hide NewOwners;
  }

  lemma AddedSize(before: map<Scid, Addr>, add: map<Scid, Addr>)
    ensures |before + add| == |before| + NewOwners(before, add)
    ensures NewOwners(before, add) == 0 <==> (before + add).Keys == before.Keys
  {
    SizeAfter(before, add);
    NoneAdded(before, add);
    hide NewOwners;
  }

  lemma NoneAdded(before: map<Scid, Addr>, add: map<Scid, Addr>)
    ensures NewOwners(before, add) == 0 <==> (before + add).Keys == before.Keys
  {
    var added := add.Keys - before.Keys;
    assert NewOwners(before, add) == |added|;
    hide NewOwners;
    if added == {} {
      assert forall s | s in add.Keys :: s !in added;
      assert (before + add).Keys == before.Keys;
    } else {
      var s :| s in added;
      assert s in (before + add).Keys && s !in before.Keys;
    }
  }

  /** A failed deploy of the batch's calls is kept with the fees of the last one. */
  lemma {:induction false} FailedDeploys(calls: seq<Call>, s: Scid)
    ensures s in Build(calls).invalid <==> exists i :: 0 <= i < |calls| && calls[i].Invalid? && calls[i].scid == s
    ensures forall i | 0 <= i < |calls| && calls[i].Invalid? && calls[i].scid == s
                    && (forall j | i < j < |calls| :: !(calls[j].Invalid? && calls[j].scid == s)) ::
              Build(calls).invalid[s] == calls[i].fees
  {
    hide Apply;
    if calls != [] {
      var init := calls[..|calls| - 1];
      FailedDeploys(init, s);
      InvalidStep(Build(init), calls[|calls| - 1]);
      assert forall i | 0 <= i < |init| :: init[i] == calls[i];
    }
  }

  lemma InvalidStep(b: Batch, c: Call)
    ensures Apply(b, c).invalid == if c.Invalid? then b.invalid[c.scid := c.fees] else b.invalid
  {
  }

  /** After a reset the index is built as from scratch; old block hashes stay under the new ones. */
  lemma ResetThenFlush(db: Db, b: Batch)
    ensures Flush(ResetDb(db), b) == Flush(EMPTY_DB, b).(blockHashes := db.blockHashes + b.blockHashes)
  {
    hide PutInvocations, PutNormals, RaiseLatest, CountOwners, PutClassRows, AddHeights, MergeEdges;
  }

  /** The single-owner writer does what a flush of that owner alone does, for a named contract. */
  lemma StoreOwnerIsFlush(db: Db, s: Scid, o: Addr)
    requires s != ""
    ensures StoreOwnerIn(db, s, o) == Flush(db, Build([Owner(s, o)]))
  {
    OneOwnerCount(db.scCount, db.owners, s, o);
    assert StoreOwnerIn(db, s, o) == ApplyCall(db, Owner(s, o)) by { hide CountOwners; }
    hide Flush, Apply, ApplyCall, StoreOwnerIn;
    assert [Owner(s, o)][..0] == [] && Build([]) == EMPTY_BATCH;
    assert Build([Owner(s, o)]) == Apply(EMPTY_BATCH, Owner(s, o));
    FlushOfCall(db, Owner(s, o));
  }

  lemma OneOwnerCount(n: Option<int>, owners: map<Scid, Addr>, s: Scid, o: Addr)
    ensures CountOwners(n, owners, map[s := o]) ==
            if s in owners then n else if n.Some? then Some(n.value + 1) else Some(|owners[s := o]|)
  {
    OneOwner(owners, s, o);
    hide NewOwners;
  }

  lemma OneOwner(owners: map<Scid, Addr>, s: Scid, o: Addr)
    ensures NewOwners(owners, map[s := o]) == if s in owners then 0 else 1
    ensures owners + map[s := o] == owners[s := o]
  {
    assert map[s := o].Keys - owners.Keys == if s in owners then {} else {s};
  }

  // ---------- TruncateToHeight ----------

  /** The contract has an interaction, a snapshot or an install above h. */
  ghost predicate RowAbove(db: Db, s: Scid, h: nat) {
    exists k: ScidHeight :: k.scid == s && k.height > h && (k in db.heights || k in db.scvars || k in db.installs)
  }

  ghost predicate InstallAbove(db: Db, s: Scid, h: nat) {
    exists k <- db.installs :: k.scid == s && k.height > h
  }

  lemma AffectedIsRowAbove(db: Db, h: nat, s: Scid)
    ensures s in Affected(db, h) <==> RowAbove(db, s, h)
    ensures s in InstalledAbove(db, h) <==> InstallAbove(db, s, h)
  {
  }

  /** A cached body stays if and only if its contract has no such row. */
  lemma TelaRows(db: Db, h: nat, k: TelaKey)
    ensures k in Truncate(db, h).tela <==> k in db.tela && !RowAbove(db, k.scid, h)
    ensures k in Truncate(db, h).tela ==> Truncate(db, h).tela[k] == db.tela[k]
  {
    AffectedIsRowAbove(db, h, k.scid);
    hide Affected, InstalledAbove, RowAbove, InstallAbove, TruncatedLatest, TruncatedEdges, DropOwners;
  }

  /** On the index of a chain: if and only if no event above h deploys, invokes or snapshots the contract. */
  lemma TelaOfChain(pre: seq<Event>, post: seq<Event>, h: nat, tela: map<TelaKey, string>, k: TelaKey)
    requires forall ev <- pre :: ev.height <= h
    requires forall ev <- post :: ev.height > h
    ensures k in Truncate(StoreOf(pre + post).(tela := tela), h).tela <==>
            k in tela && forall ev <- post ::
                           !((ev.tx.DeployTx? || (ev.tx.InvokeTx? && ev.tx.scid != "") || ev.tx.SnapshotTx?)
                             && ev.tx.scid == k.scid)
  {
    AffectedBy(pre, post, h, k.scid);
    hide StoreOf;
    var db := StoreOf(pre + post).(tela := tela);
    assert Affected(db, h) == Affected(StoreOf(pre + post), h);
    hide Affected, InstalledAbove, TruncatedLatest, TruncatedEdges, DropOwners;
  }

  /** An invocation row goes if and only if it is above h and its contract has one of those rows above h. */
  lemma InvocationRows(db: Db, h: nat, k: InvokeKey)
    ensures k in Truncate(db, h).invokes <==> k in db.invokes && (k.height <= h || !RowAbove(db, k.scid, h))
    ensures k in Truncate(db, h).invokes ==> Truncate(db, h).invokes[k] == db.invokes[k]
  {
    AffectedIsRowAbove(db, h, k.scid);
    hide Affected, InstalledAbove, RowAbove, InstallAbove, TruncatedLatest, TruncatedEdges, DropOwners;
  }

  /** Rows keyed by height stay if and only if they are at or below h. */
  lemma HeightRows(db: Db, h: nat, k: ScidHeight, n: NormKey, at: nat)
    ensures var now := Truncate(db, h);
            && (k in now.scvars <==> k in db.scvars && k.height <= h)
            && (k in now.scvars ==> now.scvars[k] == db.scvars[k])
            && (k in now.heights <==> k in db.heights && k.height <= h)
            && (k in now.heights ==> now.heights[k] == db.heights[k])
            && (k in now.installs <==> k in db.installs && k.height <= h)
            && (k in now.installs ==> now.installs[k] == db.installs[k])
            && (n in now.normTxs <==> n in db.normTxs && n.height <= h)
            && (n in now.normTxs ==> now.normTxs[n] == db.normTxs[n])
            && (at in now.blockHashes <==> at in db.blockHashes && at <= h)
            && (at in now.blockHashes ==> now.blockHashes[at] == db.blockHashes[at])
  {
    hide Affected, InstalledAbove, TruncatedLatest, TruncatedEdges, DropOwners, KeepTela, KeepInvokes;
  }

  /** A contract's own rows go if and only if it has an install above h. */
  lemma EntityRows(db: Db, h: nat, s: Scid, o: OwnerEdge, c: ClassKey)
    ensures var now, gone := Truncate(db, h), InstallAbove(db, s, h);
            && (s in now.owners <==> s in db.owners && !gone) && (s in now.owners ==> now.owners[s] == db.owners[s])
            && (s in now.classIdx <==> s in db.classIdx && !gone)
            && (s in now.classIdx ==> now.classIdx[s] == db.classIdx[s])
            && (s in now.scCodes <==> s in db.scCodes && !gone)
            && (s in now.scCodes ==> now.scCodes[s] == db.scCodes[s])
            && (s in now.invalid <==> s in db.invalid && !gone)
            && (s in now.invalid ==> now.invalid[s] == db.invalid[s])
    ensures o in Truncate(db, h).ownerScids <==> o in db.ownerScids && !InstallAbove(db, o.scid, h)
    ensures c in Truncate(db, h).classRows <==>
            c in db.classRows && !(InstallAbove(db, c.scid, h) && c.scid in db.classIdx
                                   && db.classIdx[c.scid].className == c.className
                                   && db.classIdx[c.scid].installHeight == c.height)
  {
    AffectedIsRowAbove(db, h, s);
    AffectedIsRowAbove(db, h, o.scid);
    AffectedIsRowAbove(db, h, c.scid);
    hide Affected, InstalledAbove, RowAbove, InstallAbove, TruncatedLatest, TruncatedEdges, DropOwners, KeepTela;
    hide KeepInvokes, KeepRows, KeepNorms, KeepHashes;
  }

  /** An affected pointer becomes the greatest positive surviving snapshot height, or goes. */
  lemma PointerRows(db: Db, h: nat, s: Scid)
    ensures var now := Truncate(db, h).latest;
            if !RowAbove(db, s, h) then (s in now <==> s in db.latest) && (s in now ==> now[s] == db.latest[s])
            else
              && (s in now <==> exists k <- db.scvars :: k.scid == s && 0 < k.height <= h)
              && (s in now ==> ScidHeight(s, now[s]) in db.scvars && 0 < now[s] <= h
                               && forall k <- db.scvars :: k.scid == s && k.height <= h ==> k.height <= now[s])
  {
    AffectedIsRowAbove(db, h, s);
    KeptAt(db.scvars, s, h);
    hide Affected, InstalledAbove, RowAbove, InstallAbove, KeptSnapshot, TruncatedEdges, DropOwners, KeepTela;
    hide KeepInvokes, KeepRows, KeepNorms, KeepHashes;
  }

  lemma KeptAt(scvars: map<ScidHeight, Variables>, s: Scid, h: nat)
    ensures var m := KeptSnapshot(scvars, s, h);
            && (m > 0 <==> exists k <- scvars :: k.scid == s && 0 < k.height <= h)
            && (m > 0 ==> ScidHeight(s, m) in scvars && m <= h)
            && (forall k <- scvars :: k.scid == s && k.height <= h ==> k.height <= m)
  {
    var hs := set k | k in scvars && k.scid == s && k.height <= h :: k.height;
    assert KeptSnapshot(scvars, s, h) == MaxOf(hs);
    assert forall k <- scvars :: k.scid == s && k.height <= h ==> k.height in hs;
    assert forall x <- hs :: ScidHeight(s, x) in scvars && x <= h;
  }

  /** The counter drops by the owners that went and not below 0; the counters of transactions stay. */
  lemma StatRows(db: Db, h: nat)
    ensures var now := Truncate(db, h);
            && now.reg == db.reg && now.burn == db.burn && now.norm == db.norm
            && (now.scCount.Some? <==> db.scCount.Some?)
            && (db.scCount.Some? && db.scCount.value >= |db.owners| ==>
                  now.scCount.value == db.scCount.value - (|db.owners| - |now.owners|))
            && (db.scCount.Some? && 0 <= db.scCount.value < |db.owners| - |now.owners| ==> now.scCount.value == 0)
            && now.last == Some(if db.last.Some? && db.last.value < h then db.last.value else h)
  {
    DropIsSize(db.owners, InstalledAbove(db, h));
    hide Affected, InstalledAbove, TruncatedLatest, TruncatedEdges, KeepTela, KeepInvokes, KeepRows, KeepNorms;
    hide KeepHashes, Removed, KeepOwnerEdges, StaleClassRows;
  }

  lemma DropIsSize(owners: map<Scid, Addr>, gone: set<Scid>)
    ensures |owners - gone| == |owners| - Removed(owners, gone)
  {
    var held := owners.Keys * gone;
    assert (owners - gone).Keys == owners.Keys - held;
    assert |owners.Keys - held| == |owners.Keys| - |held|;
  }

  // ---------- Address edges ----------

  /** A detail row of the edge at or below h: an invocation or a ring record. */
  predicate IsDetail(db: Db, e: Edge, h: nat, t: TouchKey) {
    match t
    case ByInvoke(k) => k in db.invokes && k.sender == e.addr && k.scid == e.scid && k.height <= h
    case ByNormal(k) => k in db.normTxs && k.addr == e.addr && k.scid == e.scid && k.height <= h
  }

  ghost function DetailOfEdge(db: Db, e: Edge, h: nat): set<TouchKey> {
    (set k | k in db.invokes && IsDetail(db, e, h, ByInvoke(k)) :: ByInvoke(k)) +
    (set k | k in db.normTxs && IsDetail(db, e, h, ByNormal(k)) :: ByNormal(k))
  }

  function RowHeight(t: TouchKey): nat { if t.ByInvoke? then t.inv.height else t.norm.height }

  lemma DetailIsTouches(db: Db, e: Edge, h: nat)
    ensures TouchesUpTo(db, e, h) == DetailOfEdge(db, e, h)
  {
    forall t: TouchKey ensures t in TouchesUpTo(db, e, h) <==> t in DetailOfEdge(db, e, h) {
      assert t in TouchesOf(db) <==> if t.ByInvoke? then t.inv in db.invokes else t.norm in db.normTxs;
      hide TouchesOf;
    }
    hide TouchesUpTo, DetailOfEdge;
  }

  /** The entry spans the heights of some rows and counts them. */
  ghost predicate Summarizes(x: AddrEntry, ts: set<TouchKey>) {
    && x.count == |ts| && (forall t <- ts :: x.first <= RowHeight(t) <= x.last)
    && (exists t <- ts :: RowHeight(t) == x.first) && (exists t <- ts :: RowHeight(t) == x.last)
  }

  /** An install of the contract at or below h that names the edge's address as owner. */
  ghost predicate OwnsAt(db: Db, e: Edge, h: nat, at: nat) {
    && at <= h && e.addr != "" && ScidHeight(e.scid, at) in db.installs
    && db.installs[ScidHeight(e.scid, at)].owner == e.addr
  }

  /**
   An edge of an affected contract is recomputed from its surviving detail rows, or, when it has none, from the
   lowest surviving install that names its address; with neither it goes. Every other edge stays as it is.
   */
  lemma EdgeRows(db: Db, h: nat, e: Edge)
    requires e in db.addrScids
    ensures var now, detail := Truncate(db, h).addrScids, DetailOfEdge(db, e, h);
            if !RowAbove(db, e.scid, h) then e in now && now[e] == db.addrScids[e]
            else if detail != {} then e in now && Summarizes(now[e], detail)
            else
              && (e in now <==> exists at: nat :: OwnsAt(db, e, h, at))
              && (e in now ==> OwnsAt(db, e, h, now[e].first) && now[e] == AddrEntry(now[e].first, now[e].first, 1)
                               && forall at: nat :: OwnsAt(db, e, h, at) ==> now[e].first <= at)
  {
    AffectedIsRowAbove(db, h, e.scid);
    DetailIsTouches(db, e, h);
    if DetailOfEdge(db, e, h) != {} {
      RollupSummarizes(DetailOfEdge(db, e, h));
    }
    OwnerInstallsAt(db, e, h);
    hide Affected, InstalledAbove, RowAbove, InstallAbove, TruncatedLatest, DropOwners, KeepTela, OwnsAt, DetailOfEdge;
    hide KeepInvokes, KeepRows, KeepNorms, KeepHashes, TouchesUpTo, Rollup, Summarizes, OwnerInstalls;
  }

  lemma NoNewEdges(db: Db, h: nat, e: Edge)
    requires e !in db.addrScids
    ensures e !in Truncate(db, h).addrScids
  {
    hide Affected, InstalledAbove, TruncatedLatest, DropOwners, KeepTela, KeepInvokes, KeepRows, KeepNorms, KeepHashes;
    hide Survivor;
  }

  lemma RollupSummarizes(ts: set<TouchKey>)
    requires ts != {}
    ensures Rollup(ts).Some? && Summarizes(Rollup(ts).value, ts)
  {
    var hs := HeightsOf(ts);
    assert forall t <- ts :: RowHeight(t) == t.Height() && t.Height() in hs;
    var t :| t in ts;
    assert t.Height() in hs && hs != {};
    assert MinOf(hs) in hs && MaxOf(hs) in hs;
    hide MinOf, MaxOf;
  }

  lemma OwnerInstallsAt(db: Db, e: Edge, h: nat)
    ensures var owned := OwnerInstalls(db, e, h);
            && (forall at: nat :: at in owned <==> OwnsAt(db, e, h, at))
            && (owned != {} <==> exists at: nat :: OwnsAt(db, e, h, at))
  {
    forall at: nat ensures at in OwnerInstalls(db, e, h) <==> OwnsAt(db, e, h, at) {
      if OwnsAt(db, e, h, at) {
        assert ScidHeight(e.scid, at) in db.installs;
      }
    }
    hide OwnerInstalls, OwnsAt;
  }
}
