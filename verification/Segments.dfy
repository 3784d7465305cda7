/**
 Map-reduce sync (indexer/segment.go): the chain is cut into segments, each worker fills a
 store of its own, and the stores are merged into the main one through write batches.
 */
module Segments {
  import opened IndexTypes
  import opened WriteBatches
  import opened IndexDb
  import opened BatchBoundary
  import opened BboltStores

  // ---------- Cutting the range ----------

  /** A half-open height range. */
  datatype Segment = Segment(id: nat, start: int, end: int)

  /** Contiguous, in order, numbered from 0, and of length `size` up to a shorter last piece. */
  ghost predicate Tiling(segs: seq<Segment>, start: int, end: int, size: nat) {
    && (segs == [] <==> start >= end)
    && (segs != [] ==> segs[0].start == start && segs[|segs| - 1].end == end)
    && (forall i | 0 <= i < |segs| :: segs[i].id == i && segs[i].start < segs[i].end <= segs[i].start + size)
    && (forall i | 0 < i < |segs| :: segs[i - 1].end == segs[i].start == segs[i - 1].start + size)
  }

  method BuildSegments(start: int, end: int, size: nat) returns (segs: seq<Segment>)
    requires size >= 1
    ensures Tiling(segs, start, end, size)
  {
    segs := [];
    var id, h := 0, start;
    while h < end
      invariant id == |segs| && (segs == [] ==> h == start)
      invariant Tiling(segs, start, if h < end then h else end, size)
      invariant segs != [] ==> start < end && h == segs[|segs| - 1].start + size
      decreases end - h
    {
      var e := h + size;
      if e > end {
        e := end;
      }
      TilingMore(segs, start, h, size, e);
      segs := segs + [Segment(id, h, e)];
      h := h + size;
      id := id + 1;
      hide Tiling;
    }
  }

  lemma TilingMore(segs: seq<Segment>, start: int, h: int, size: nat, e: int)
    requires Tiling(segs, start, h, size) && (segs == [] ==> h == start)
    requires segs != [] ==> h == segs[|segs| - 1].start + size
    requires h < e <= h + size
    ensures Tiling(segs + [Segment(|segs|, h, e)], start, e, size)
  {
  }

  /** Every height of the range is in exactly one segment. */
  lemma EachHeightOnce(segs: seq<Segment>, start: int, end: int, size: nat, h: int)
    requires size >= 1 && Tiling(segs, start, end, size)
    ensures start <= h < end <==> exists i :: 0 <= i < |segs| && segs[i].start <= h < segs[i].end
    ensures forall i, j | 0 <= i < |segs| && 0 <= j < |segs| && segs[i].start <= h < segs[i].end &&
                          segs[j].start <= h < segs[j].end :: i == j
  {
    Ordered(segs, start, end, size);
    if start <= h < end {
      FindSegment(segs, start, end, size, h, |segs|);
    }
  }

  lemma {:induction false} FindSegment(segs: seq<Segment>, start: int, end: int, size: nat, h: int, n: nat)
    requires Tiling(segs, start, end, size) && 1 <= n <= |segs| && start <= h < segs[n - 1].end
    ensures exists i :: 0 <= i < n && segs[i].start <= h < segs[i].end
  {
    if h < segs[n - 1].start {
      assert segs[0].start == start;
      assert segs[n - 2].end == segs[n - 1].start;
      FindSegment(segs, start, end, size, h, n - 1);
    }
  }

  lemma Ordered(segs: seq<Segment>, start: int, end: int, size: nat)
    requires Tiling(segs, start, end, size)
    ensures forall i, j | 0 <= i < j < |segs| :: start <= segs[i].start && segs[i].end <= segs[j].start
    ensures forall i | 0 <= i < |segs| :: start <= segs[i].start && segs[i].end <= end
  {
    forall i, j | 0 <= i < j < |segs| ensures start <= segs[i].start && segs[i].end <= segs[j].start {
      OrderedAt(segs, start, end, size, i, j);
    }
    forall i | 0 <= i < |segs| ensures start <= segs[i].start && segs[i].end <= end {
      if i < |segs| - 1 {
        OrderedAt(segs, start, end, size, i, |segs| - 1);
      } else {
        OrderedAt(segs, start, end, size, 0, |segs| - 1);
      }
    }
  }

  lemma {:induction false} OrderedAt(segs: seq<Segment>, start: int, end: int, size: nat, i: nat, j: nat)
    requires Tiling(segs, start, end, size) && i <= j < |segs|
    ensures start <= segs[i].start <= segs[j].start && (i < j ==> segs[i].end <= segs[j].start)
    decreases j, i
  {
    if i < j {
      OrderedAt(segs, start, end, size, i, j - 1);
    } else if 0 < i {
      OrderedAt(segs, start, end, size, 0, i - 1);
    }
  }

  // ---------- Reading a segment store into a batch ----------

  const MAX_HEIGHT_COUNT := 0x10_0000

  /**
   The heights DecodeHeightEntry makes of a count: a missing count, read here as 0, means one height;
   a count past the bound is refused, and the merge skips its row.
   */
  function DecodedCount(count: nat): nat {
    if count == 0 then 1 else if count <= MAX_HEIGHT_COUNT then count else 0
  }

  function Readable(rows: map<ScidHeight, nat>, k: ScidHeight): nat {
    if k in rows then DecodedCount(rows[k]) else 0
  }

  ghost function EdgesFrom(owners: map<Scid, Addr>): set<OwnerEdge> {
    set s | s in owners && s != "" && owners[s] != "" :: OwnerEdge(owners[s], s)
  }

  lemma OneMoreOwnerEdge(done: map<Scid, Addr>, s: Scid, o: Addr)
    requires s !in done
    ensures EdgesFrom(done[s := o]) == EdgesFrom(done) + (if o == "" || s == "" then {} else {OwnerEdge(o, s)})
  {
    var m := done[s := o];
    forall e: OwnerEdge
      ensures e in EdgesFrom(m) <==> e in EdgesFrom(done) + (if o == "" || s == "" then {} else {OwnerEdge(o, s)})
    {
      assert e in EdgesFrom(m) <==> e.scid in m && e.scid != "" && m[e.scid] != "" && e.owner == m[e.scid];
      assert e in EdgesFrom(done) <==> e.scid in done && e.scid != "" && done[e.scid] != "" && e.owner == done[e.scid];
    }
  }

  method MergeOwners(bucket: map<Scid, Addr>, batch: WriteBatch)
    requires batch.Valid()
    modifies batch
    ensures batch.Valid()
    ensures var b := old(batch.View());
            batch.View() == b.(owners := b.owners + bucket, ownerScids := b.ownerScids + EdgesFrom(bucket))
  {
    hide PartOf;
    ghost var b := batch.View();
    var todo := bucket.Keys;
    ghost var done: map<Scid, Addr> := map[];
    NothingOf(done, bucket);
    assert EdgesFrom(map[]) == {};
    while todo != {}
      invariant batch.Valid() && PartOf(done, bucket, todo)
      invariant batch.View() == b.(owners := b.owners + done, ownerScids := b.ownerScids + EdgesFrom(done))
      decreases |todo|
    {
      hide EdgesFrom;
      var s :| s in todo;
      OneMoreOf(done, bucket, todo, s);
      AddedOwner(b, done, s, bucket[s]);
      batch.AddOwner(s, bucket[s]);
      done, todo := done[s := bucket[s]], todo - {s};
    }
    WholeOf(done, bucket);
  }

  lemma AddedOwner(b: Batch, done: map<Scid, Addr>, s: Scid, o: Addr)
    requires s !in done
    ensures Apply(b.(owners := b.owners + done, ownerScids := b.ownerScids + EdgesFrom(done)), Owner(s, o)) ==
            b.(owners := b.owners + done[s := o], ownerScids := b.ownerScids + EdgesFrom(done[s := o]))
  {
    OneMoreOwnerEdge(done, s, o);
    OverrideThen(b.owners, done, s, o);
    var es, es' := EdgesFrom(done), EdgesFrom(done[s := o]);
    hide EdgesFrom;
    assert (b.ownerScids + es) + {OwnerEdge(o, s)} == b.ownerScids + (es + {OwnerEdge(o, s)});
    assert es + {} == es;
    ApplyOwner(b.(owners := b.owners + done, ownerScids := b.ownerScids + es), s, o);
    hide Apply;
  }

  lemma ApplyOwner(b: Batch, s: Scid, o: Addr)
    ensures Apply(b, Owner(s, o)) ==
            b.(owners := b.owners[s := o],
               ownerScids := if o == "" || s == "" then b.ownerScids else b.ownerScids + {OwnerEdge(o, s)})
  {
  }

  method MergeSnapshots(bucket: map<ScidHeight, Variables>, batch: WriteBatch)
    requires batch.Valid()
    modifies batch
    ensures batch.Valid()
    ensures var b := old(batch.View()); batch.View() == b.(variables := b.variables + bucket)
  {
    hide PartOf;
    ghost var b := batch.View();
    var todo := bucket.Keys;
    ghost var done: map<ScidHeight, Variables> := map[];
    NothingOf(done, bucket);
    while todo != {}
      invariant batch.Valid() && PartOf(done, bucket, todo)
      invariant batch.View() == b.(variables := b.variables + done)
      decreases |todo|
    {
      var k :| k in todo;
      OneMoreOf(done, bucket, todo, k);
      OverrideThen(b.variables, done, k, bucket[k]);
      batch.AddVariables(k.scid, k.height, bucket[k]);
      done, todo := done[k := bucket[k]], todo - {k};
    }
    WholeOf(done, bucket);
  }

  method MergeInvalid(bucket: map<Scid, nat>, batch: WriteBatch)
    requires batch.Valid()
    modifies batch
    ensures batch.Valid()
    ensures var b := old(batch.View()); batch.View() == b.(invalid := b.invalid + bucket)
  {
    hide PartOf;
    ghost var b := batch.View();
    var todo := bucket.Keys;
    ghost var done: map<Scid, nat> := map[];
    NothingOf(done, bucket);
    while todo != {}
      invariant batch.Valid() && PartOf(done, bucket, todo)
      invariant batch.View() == b.(invalid := b.invalid + done)
      decreases |todo|
    {
      var s :| s in todo;
      OneMoreOf(done, bucket, todo, s);
      OverrideThen(b.invalid, done, s, bucket[s]);
      batch.invalidScids := batch.invalidScids[s := bucket[s]];
      done, todo := done[s := bucket[s]], todo - {s};
    }
    WholeOf(done, bucket);
  }

  /** Flushing `heights` adds each readable row's count and nothing else. */
  ghost predicate HeightsOf(heights: map<Scid, seq<nat>>, rows: map<ScidHeight, nat>) {
    forall k: ScidHeight :: Occurrences(heights, k) == Readable(rows, k)
  }

  lemma CountMore(heights: map<Scid, seq<nat>>, s: Scid, h: nat, k: ScidHeight)
    ensures Occurrences(AddHeight(heights, s, h), k) == Occurrences(heights, k) +
            (if k == ScidHeight(s, h) then 1 else 0)
  {
    if k.scid == s {
      assert AddHeight(heights, s, h)[s] == GetOr(heights, s, []) + [h];
    }
  }

  lemma ApplyInteraction(b: Batch, s: Scid, h: nat)
    ensures Apply(b, Interaction(s, h)) == b.(heights := AddHeight(b.heights, s, h))
  {
  }

  /** One row: DecodeHeightEntry expands the count into that many equal heights, at least one. */
  method MergeHeightRow(k: ScidHeight, count: nat, batch: WriteBatch)
    requires batch.Valid()
    modifies batch
    ensures batch.Valid()
    ensures var b := old(batch.View()); batch.View() == b.(heights := batch.View().heights)
    ensures forall j: ScidHeight :: Occurrences(batch.View().heights, j) ==
              Occurrences(old(batch.View()).heights, j) + (if j == k then DecodedCount(count) else 0)
  {
    hide Occurrences, AddHeight, Apply;
    var n := 1;
    if count > 0 {
      n := count;
    }
    if n > MAX_HEIGHT_COUNT {
      return;
    }
    ghost var b := batch.View();
    var i := 0;
    while i < n
      invariant i <= n && batch.Valid()
      invariant batch.View() == b.(heights := batch.View().heights)
      invariant forall j: ScidHeight :: Occurrences(batch.View().heights, j) == Occurrences(b.heights, j) +
                  (if j == k then i else 0)
    {
      ghost var before := batch.View();
      batch.AddInteractionHeight(k.scid, k.height);
      ApplyInteraction(before, k.scid, k.height);
      forall j: ScidHeight
        ensures Occurrences(batch.View().heights, j) == Occurrences(b.heights, j) + (if j == k then i + 1 else 0)
      {
        CountMore(before.heights, k.scid, k.height, j);
      }
      i := i + 1;
    }
  }

  method MergeHeights(bucket: map<ScidHeight, nat>, batch: WriteBatch)
    requires batch.Valid() && batch.View().heights == map[]
    modifies batch
    ensures batch.Valid()
    ensures var b := old(batch.View()); batch.View() == b.(heights := batch.View().heights)
    ensures HeightsOf(batch.View().heights, bucket)
  {
    hide PartOf;
    ghost var b := batch.View();
    var todo := bucket.Keys;
    ghost var done: map<ScidHeight, nat> := map[];
    NothingOf(done, bucket);
    while todo != {}
      invariant batch.Valid() && PartOf(done, bucket, todo)
      invariant batch.View() == b.(heights := batch.View().heights)
      invariant HeightsOf(batch.View().heights, done)
      decreases |todo|
    {
      hide Occurrences;
      var k :| k in todo;
      OneMoreOf(done, bucket, todo, k);
      MergeHeightRow(k, bucket[k], batch);
      done, todo := done[k := bucket[k]], todo - {k};
    }
    WholeOf(done, bucket);
  }

  /** The records re-create exactly these rows. */
  ghost predicate PutsNormals(es: seq<NormalTxRef>, rows: map<NormKey, NormalTx>) {
    && (forall m: map<NormKey, NormalTx> :: PutNormals(m, es) == m + rows)
    && (forall e <- es :: KeyOfNormal(e) in rows && rows[KeyOfNormal(e)] == e.tx)
  }

  ghost predicate PutsInvokes(invs: seq<Invocation>, rows: map<InvokeKey, Invocation>) {
    forall m: map<InvokeKey, Invocation> :: PutInvocations(m, invs) == m + rows
  }

  /** A ring row's key repeats its record; an invocation row's key and fields repeat its details. */
  ghost predicate OwnKeys(seg: Db) {
    NormalKeys(seg.normTxs) && InvokeKeys(seg.invokes)
  }

  predicate SelfContained(inv: Invocation) {
    inv.sender == inv.details.sender && inv.entrypoint == inv.details.entrypoint && inv.height == inv.details.height
  }

  lemma OneMoreNormal(es: seq<NormalTxRef>, rows: map<NormKey, NormalTx>, e: NormalTxRef)
    requires PutsNormals(es, rows) && KeyOfNormal(e) !in rows
    ensures PutsNormals(es + [e], rows[KeyOfNormal(e) := e.tx])
  {
    forall m: map<NormKey, NormalTx> ensures PutNormals(m, es + [e]) == m + rows[KeyOfNormal(e) := e.tx] {
      assert (es + [e])[..|es|] == es;
      assert PutNormals(m, es) == m + rows;
      OverrideThen(m, rows, KeyOfNormal(e), e.tx);
    }
    hide PutNormals;
  }

  lemma OneMoreInvoke(invs: seq<Invocation>, rows: map<InvokeKey, Invocation>, inv: Invocation)
    requires PutsInvokes(invs, rows) && inv.scid != ""
    ensures PutsInvokes(invs + [inv], rows[KeyOfInvocation(inv) := inv])
  {
    forall m: map<InvokeKey, Invocation>
        ensures PutInvocations(m, invs + [inv]) == m + rows[KeyOfInvocation(inv) := inv] {
      assert (invs + [inv])[..|invs|] == invs;
      assert PutInvocations(m, invs) == m + rows;
      OverrideThen(m, rows, KeyOfInvocation(inv), inv);
    }
  }

  lemma NoRows()
    ensures PutsNormals([], map[]) && PutsInvokes([], map[])
  {
  }

  lemma ApplyRecords(b: Batch, e: NormalTxRef, inv: Invocation)
    ensures Apply(b, Normal(e.addr, e.tx.txid, e.tx.scid, e.tx.fees, e.tx.height)) == b.(normalTxs := b.normalTxs + [e])
    ensures Apply(b, Invoke(inv)) == b.(invocations := b.invocations + [inv])
  {
  }

  method MergeNormals(bucket: map<NormKey, NormalTx>, batch: WriteBatch)
    requires batch.Valid() && batch.View().normalTxs == []
    requires forall k <- bucket :: KeyOfNormal(NormalTxRef(k.addr, bucket[k])) == k
    modifies batch
    ensures batch.Valid()
    ensures var b := old(batch.View()); batch.View() == b.(normalTxs := batch.View().normalTxs)
    ensures PutsNormals(batch.View().normalTxs, bucket)
  {
    hide PartOf, PutsNormals, Apply;
    ghost var b := batch.View();
    var todo := bucket.Keys;
    ghost var done: map<NormKey, NormalTx> := map[];
    NothingOf(done, bucket);
    NoRows();
    while todo != {}
      invariant batch.Valid() && PartOf(done, bucket, todo)
      invariant batch.View() == b.(normalTxs := batch.View().normalTxs)
      invariant PutsNormals(batch.View().normalTxs, done)
      decreases |todo|
    {
      var k :| k in todo;
      OneMoreOf(done, bucket, todo, k);
      var tx := bucket[k];
      OneMoreNormal(batch.View().normalTxs, done, NormalTxRef(k.addr, tx));
      ApplyRecords(batch.View(), NormalTxRef(k.addr, tx),
          Invocation("", "", "", 0, ScTx("", "", "", "", false, 0, 0, "")));
      batch.AddNormalTx(k.addr, tx.txid, tx.scid, tx.fees, tx.height);
      done, todo := done[k := tx], todo - {k};
    }
    WholeOf(done, bucket);
  }

  /** The default branch: a bucket named by its scid holds that scid's invocations. */
  method MergeInvocations(bucket: map<InvokeKey, Invocation>, batch: WriteBatch)
    requires batch.Valid() && batch.View().invocations == []
    requires forall k <- bucket :: k.scid != "" && KeyOfInvocation(bucket[k]) == k && SelfContained(bucket[k])
    modifies batch
    ensures batch.Valid()
    ensures var b := old(batch.View()); batch.View() == b.(invocations := batch.View().invocations)
    ensures PutsInvokes(batch.View().invocations, bucket)
  {
    hide PartOf, PutsInvokes, Apply;
    ghost var b := batch.View();
    var todo := bucket.Keys;
    ghost var done: map<InvokeKey, Invocation> := map[];
    NothingOf(done, bucket);
    NoRows();
    while todo != {}
      invariant batch.Valid() && PartOf(done, bucket, todo)
      invariant batch.View() == b.(invocations := batch.View().invocations)
      invariant PutsInvokes(batch.View().invocations, done)
      decreases |todo|
    {
      var k :| k in todo;
      OneMoreOf(done, bucket, todo, k);
      var d := bucket[k].details;
      var inv := Invocation(k.scid, d.sender, d.entrypoint, d.height, d);
      assert inv == bucket[k];
      OneMoreInvoke(batch.View().invocations, done, inv);
      ApplyRecords(batch.View(), NormalTxRef("", NormalTx("", "", 0, 0)), inv);
      batch.AddInvocation(inv);
      done, todo := done[k := inv], todo - {k};
    }
    WholeOf(done, bucket);
  }

  method MergeCounters(reg: nat, burn: nat, norm: nat, batch: WriteBatch)
    requires batch.Valid()
    modifies batch
    ensures batch.Valid()
    ensures var b := old(batch.View());
            batch.View() == b.(reg := b.reg + reg, burn := b.burn + burn, norm := b.norm + norm)
  {
    batch.regTxCount := batch.regTxCount + reg;
    batch.burnTxCount := batch.burnTxCount + burn;
    batch.normTxCount := batch.normTxCount + norm;
  }

  // ---------- Merging into the main store ----------

  ghost function AddRows(m: map<ScidHeight, nat>, rows: map<ScidHeight, nat>): map<ScidHeight, nat> {
    map k | k in m.Keys + rows.Keys && (k in m || Readable(rows, k) > 0) :: GetOr(m, k, 0) + Readable(rows, k)
  }

  /** The main store after one segment store was merged in. */
  ghost function MergedInto(main: Db, seg: Db): Db {
    main.(owners := main.owners + seg.owners, invokes := main.invokes + seg.invokes,
          scvars := main.scvars + seg.scvars, latest := RaiseLatest(main.latest, seg.scvars.Keys),
          heights := AddRows(main.heights, seg.heights), normTxs := main.normTxs + seg.normTxs,
          invalid := main.invalid + seg.invalid,
          reg := main.reg + seg.reg, burn := main.burn + seg.burn, norm := main.norm + seg.norm,
          scCount := CountOwners(main.scCount, main.owners, seg.owners),
          ownerScids := main.ownerScids + EdgesFrom(seg.owners))
  }

  /** What the merge's batch holds, up to the order of its records. */
  ghost predicate Carries(b: Batch, seg: Db) {
    && b.owners == seg.owners && b.ownerScids == EdgesFrom(seg.owners) && b.variables == seg.scvars
    && HeightsOf(b.heights, seg.heights) && PutsNormals(b.normalTxs, seg.normTxs)
    && PutsInvokes(b.invocations, seg.invokes)
    && b.invalid == seg.invalid && b.reg == seg.reg && b.burn == seg.burn && b.norm == seg.norm
    && b.lastHeight == 0 && b.blockHashes == map[] && b.installs == map[] && b.classes == map[]
    && b.addrScids == map[] && b.scCodes == map[]
  }

  method ReadSegment(seg: Db) returns (batch: WriteBatch)
    requires OwnKeys(seg)
    ensures fresh(batch) && batch.Valid() && Carries(batch.View(), seg)
  {
    hide HeightsOf, PutsNormals, PutsInvokes, EdgesFrom, EdgesOf, WriteBatch.View, WriteBatch.Valid;
    batch := new WriteBatch();
    MergeOwners(seg.owners, batch);
    MergeSnapshots(seg.scvars, batch);
    MergeHeights(seg.heights, batch);
    MergeNormals(seg.normTxs, batch);
    MergeInvalid(seg.invalid, batch);
    MergeCounters(seg.reg, seg.burn, seg.norm, batch);
    MergeInvocations(seg.invokes, batch);
  }

  /** mergeSegmentDB: reads the whole segment store into one batch and flushes it. */
  method MergeSegment(main: BboltStore, seg: Db)
    requires OwnKeys(seg)
    modifies main
    ensures main.View() == MergedInto(old(main.View()), seg)
  {
    hide Carries, Flush, MergedInto;
    var batch := ReadSegment(seg);
    ghost var b := batch.View();
    assert Consistent(batch.normalTxs) by { CarriesConsistent(batch, seg); }
    var _ := main.FlushBatch(batch);
    FlushCarried(old(main.View()), b, seg);
  }

  lemma CarriesConsistent(batch: WriteBatch, seg: Db)
    requires Carries(batch.View(), seg)
    ensures Consistent(batch.normalTxs)
  {
    assert batch.View().normalTxs == batch.normalTxs by { BatchOrder(batch); }
    assert PutsNormals(batch.normalTxs, seg.normTxs) by { hide PutsNormals, HeightsOf, PutsInvokes, EdgesFrom; }
    hide Carries;
  }

  lemma AddedRows(m: map<ScidHeight, nat>, heights: map<Scid, seq<nat>>, rows: map<ScidHeight, nat>)
    requires HeightsOf(heights, rows)
    ensures AddHeights(m, heights) == AddRows(m, rows)
  {
    hide AddHeights, Occurrences;
    forall k: ScidHeight
      ensures k in AddHeights(m, heights) <==> k in AddRows(m, rows)
      ensures k in AddHeights(m, heights) ==> AddHeights(m, heights)[k] == AddRows(m, rows)[k]
    {
      AddHeightsAt(m, heights, k);
      assert Occurrences(heights, k) == Readable(rows, k);
    }
    hide AddRows;
  }

  lemma CarriedActors(main: Db, b: Batch, seg: Db)
    requires Carries(b, seg)
    ensures var after, merged := Flush(main, b), MergedInto(main, seg);
            && after.owners == merged.owners && after.invokes == merged.invokes && after.invalid == merged.invalid
            && after.scCount == merged.scCount && after.last == merged.last && after.tela == merged.tela
  {
    assert PutInvocations(main.invokes, b.invocations) == main.invokes + seg.invokes;
    hide HeightsOf, PutsNormals, PutsInvokes, EdgesFrom, AddHeights, AddRows, RaiseLatest, CountOwners, PutClassRows;
    hide MergeEdges, PutNormals, PutInvocations, NonEmptyClasses, NonEmptyCodes, NonEmptyOwners;
  }

  lemma CarriedRows(main: Db, b: Batch, seg: Db)
    requires Carries(b, seg)
    ensures var after, merged := Flush(main, b), MergedInto(main, seg);
            && after.scvars == merged.scvars && after.latest == merged.latest && after.heights == merged.heights
            && after.normTxs == merged.normTxs
  {
    assert PutNormals(main.normTxs, b.normalTxs) == main.normTxs + seg.normTxs;
    hide HeightsOf, PutsNormals, PutsInvokes, EdgesFrom, AddHeights, AddRows, RaiseLatest, CountOwners, PutClassRows;
    hide MergeEdges, PutNormals, PutInvocations, NonEmptyClasses, NonEmptyCodes, NonEmptyOwners;
    AddedRows(main.heights, b.heights, seg.heights);
  }

  lemma CarriedCounters(main: Db, b: Batch, seg: Db)
    requires Carries(b, seg)
    ensures var after, merged := Flush(main, b), MergedInto(main, seg);
            after.reg == merged.reg && after.burn == merged.burn && after.norm == merged.norm
  {
    hide HeightsOf, PutsNormals, PutsInvokes, EdgesFrom, AddHeights, AddRows, RaiseLatest, CountOwners, PutClassRows;
    hide MergeEdges, PutNormals, PutInvocations, NonEmptyClasses, NonEmptyCodes, NonEmptyOwners;
  }

  lemma CarriedRoute(main: Db, b: Batch, seg: Db)
    requires Carries(b, seg)
    ensures var after, merged := Flush(main, b), MergedInto(main, seg);
            && after.blockHashes == merged.blockHashes && after.installs == merged.installs
            && after.classIdx == merged.classIdx && after.classRows == merged.classRows
            && after.scCodes == merged.scCodes
            && after.ownerScids == merged.ownerScids && after.addrScids == merged.addrScids
  {
    hide HeightsOf, PutsNormals, PutsInvokes, AddHeights, AddRows, RaiseLatest, CountOwners, PutClassRows;
    hide MergeEdges, PutNormals, PutInvocations, NonEmptyClasses, NonEmptyCodes, NonEmptyOwners;
    NothingNamed();
    EmptyRows(main.classRows, main.classIdx);
    EdgesEmpty(main.addrScids);
    OwnedEdges(seg.owners);
    hide EdgesFrom;
  }

  lemma NothingNamed()
    ensures NonEmptyClasses(map[]) == map[] && NonEmptyCodes(map[]) == map[]
  {
  }

  lemma OwnedEdges(owners: map<Scid, Addr>)
    ensures NonEmptyOwners(EdgesFrom(owners)) == EdgesFrom(owners)
  {
  }

  lemma FlushCarried(main: Db, b: Batch, seg: Db)
    requires Carries(b, seg)
    ensures Flush(main, b) == MergedInto(main, seg)
  {
    hide Flush, MergedInto, Carries;
    CarriedActors(main, b, seg);
    CarriedRows(main, b, seg);
    CarriedCounters(main, b, seg);
    CarriedRoute(main, b, seg);
  }

  // ---------- Map-reduce sync equals sequential sync ----------

  /** The calls a segment worker makes; it writes no hashes, installs, classes, code or address edges. */
  predicate WorkerCall(c: Call) {
    c.Owner? || c.Snapshot? || c.Interaction? || c.Normal? || c.Invalid? || c.Counts? || c.Last? ||
    (c.Invoke? && c.inv.scid != "" && SelfContained(c.inv))
  }

  ghost predicate Worked(b: Batch) {
    && b.blockHashes == map[] && b.installs == map[] && b.classes == map[] && b.addrScids == map[] && b.scCodes == map[]
    && (forall inv <- b.invocations :: inv.scid != "" && SelfContained(inv))
    && EdgesFrom(b.owners) <= b.ownerScids && "" !in (set e <- b.ownerScids :: e.owner)
    && (forall e <- b.ownerScids :: e.scid in b.owners)
  }

  lemma ApplyWorked(b: Batch, c: Call)
    requires Worked(b) && WorkerCall(c)
    ensures Worked(Apply(b, c))
  {
    hide AddHeight;
  }

  lemma {:induction false} BuildWorked(calls: seq<Call>)
    requires forall c <- calls :: WorkerCall(c)
    ensures Worked(Build(calls))
  {
    hide Worked, Apply;
    if calls == [] {
      NothingWorked();
    } else {
      BuildWorked(calls[..|calls| - 1]);
      ApplyWorked(Build(calls[..|calls| - 1]), calls[|calls| - 1]);
    }
  }

  lemma NothingWorked()
    ensures Worked(EMPTY_BATCH)
  {
  }

  lemma {:induction false} NormalsOver(m: map<NormKey, NormalTx>, es: seq<NormalTxRef>)
    ensures PutNormals(m, es) == m + PutNormals(map[], es)
    ensures forall k <- PutNormals(map[], es) :: KeyOfNormal(NormalTxRef(k.addr, PutNormals(map[], es)[k])) == k
  {
    if es != [] {
      var init, e := es[..|es| - 1], es[|es| - 1];
      NormalsOver(m, init);
      OverrideThen(m, PutNormals(map[], init), KeyOfNormal(e), e.tx);
    }
  }

  lemma {:induction false} InvokesOver(m: map<InvokeKey, Invocation>, invs: seq<Invocation>)
    requires forall inv <- invs :: inv.scid != "" && SelfContained(inv)
    ensures PutInvocations(m, invs) == m + PutInvocations(map[], invs)
    ensures var rows := PutInvocations(map[], invs);
            forall k <- rows :: k.scid != "" && KeyOfInvocation(rows[k]) == k && SelfContained(rows[k])
  {
    if invs != [] {
      var init, inv := invs[..|invs| - 1], invs[|invs| - 1];
      assert inv in invs && forall x <- init :: x in invs;
      InvokesOver(m, init);
      OverrideThen(m, PutInvocations(map[], init), KeyOfInvocation(inv), inv);
    }
  }

  /** The store a worker's batch leaves in an empty segment store. */
  lemma SegmentFields(b: Batch)
    requires Worked(b)
    ensures var seg := Flush(EMPTY_DB, b);
            && seg.owners == b.owners && seg.scvars == b.variables && seg.invalid == b.invalid
            && seg.heights == AddHeights(map[], b.heights) && seg.normTxs == PutNormals(map[], b.normalTxs)
            && seg.invokes == PutInvocations(map[], b.invocations)
            && seg.reg == b.reg && seg.burn == b.burn && seg.norm == b.norm && seg.ownerScids == b.ownerScids
  {
    hide AddHeights, RaiseLatest, CountOwners, PutClassRows, MergeEdges, PutNormals, PutInvocations, EdgesFrom;
    hide NonEmptyClasses, NonEmptyCodes, SelfContained;
    assert NonEmptyOwners(b.ownerScids) == b.ownerScids;
    hide NonEmptyOwners;
  }

  /** Equal in every bucket but the height row, the interaction counts and the owner edges. */
  ghost predicate SameButHeights(merged: Db, direct: Db) {
    direct == merged.(last := direct.last, heights := direct.heights, ownerScids := direct.ownerScids)
  }

  lemma FlushedFields(db: Db, b: Batch)
    ensures var d := Flush(db, b);
            && d.owners == db.owners + b.owners && d.invokes == PutInvocations(db.invokes, b.invocations)
            && d.invalid == db.invalid + b.invalid && d.scCount == CountOwners(db.scCount, db.owners, b.owners)
            && d.reg == db.reg + b.reg && d.burn == db.burn + b.burn && d.norm == db.norm + b.norm && d.tela == db.tela
            && d.scvars == db.scvars + b.variables && d.latest == RaiseLatest(db.latest, b.variables.Keys)
            && d.normTxs == PutNormals(db.normTxs, b.normalTxs) && d.heights == AddHeights(db.heights, b.heights)
            && d.ownerScids == db.ownerScids + NonEmptyOwners(b.ownerScids)
  {
    hide AddHeights, AddRows, RaiseLatest, CountOwners, PutClassRows, MergeEdges, PutNormals, PutInvocations, EdgesFrom;
    hide NonEmptyClasses, NonEmptyCodes, NonEmptyOwners;
  }

  lemma MergedFields(main: Db, seg: Db)
    ensures var m := MergedInto(main, seg);
            && m.owners == main.owners + seg.owners && m.invokes == main.invokes + seg.invokes
            && m.invalid == main.invalid + seg.invalid
            && m.scCount == CountOwners(main.scCount, main.owners, seg.owners)
            && m.reg == main.reg + seg.reg && m.burn == main.burn + seg.burn && m.norm == main.norm + seg.norm
            && m.tela == main.tela && m.scvars == main.scvars + seg.scvars
            && m.latest == RaiseLatest(main.latest, seg.scvars.Keys) && m.normTxs == main.normTxs + seg.normTxs
            && m.heights == AddRows(main.heights, seg.heights)
            && m.ownerScids == main.ownerScids + EdgesFrom(seg.owners)
  {
    hide AddHeights, AddRows, RaiseLatest, CountOwners, PutClassRows, MergeEdges, PutNormals, PutInvocations, EdgesFrom;
    hide NonEmptyClasses, NonEmptyCodes, NonEmptyOwners;
  }

  lemma SameFields(merged: Db, direct: Db)
    requires SameButHeights(merged, direct)
    ensures merged.owners == direct.owners && merged.invokes == direct.invokes && merged.invalid == direct.invalid
    ensures merged.scCount == direct.scCount && merged.reg == direct.reg && merged.burn == direct.burn
    ensures merged.norm == direct.norm && merged.tela == direct.tela && merged.scvars == direct.scvars
    ensures merged.latest == direct.latest && merged.normTxs == direct.normTxs
  {
  }

  lemma MergeStepOwners(merged: Db, direct: Db, b: Batch)
    requires Worked(b) && SameButHeights(merged, direct)
    ensures var m, d := MergedInto(merged, Flush(EMPTY_DB, b)), Flush(direct, b);
            m.owners == d.owners && m.scCount == d.scCount && m.invalid == d.invalid
  {
    hide *;
    SegmentFields(b);
    FlushedFields(direct, b);
    MergedFields(merged, Flush(EMPTY_DB, b));
    SameFields(merged, direct);
  }

  lemma MergeStepInvokes(merged: Db, direct: Db, b: Batch)
    requires Worked(b) && SameButHeights(merged, direct)
    ensures var m, d := MergedInto(merged, Flush(EMPTY_DB, b)), Flush(direct, b);
            m.invokes == d.invokes
  {
    assert direct.invokes + PutInvocations(map[], b.invocations) == PutInvocations(direct.invokes, b.invocations) by {
      InvokesOver(direct.invokes, b.invocations);
    }
    hide *;
    SegmentFields(b);
    FlushedFields(direct, b);
    MergedFields(merged, Flush(EMPTY_DB, b));
    SameFields(merged, direct);
  }

  lemma MergeStepNormals(merged: Db, direct: Db, b: Batch)
    requires Worked(b) && SameButHeights(merged, direct)
    ensures var m, d := MergedInto(merged, Flush(EMPTY_DB, b)), Flush(direct, b);
            m.normTxs == d.normTxs
  {
    NormalsOver(direct.normTxs, b.normalTxs);
    hide *;
    SegmentFields(b);
    FlushedFields(direct, b);
    MergedFields(merged, Flush(EMPTY_DB, b));
    SameFields(merged, direct);
  }

  lemma MergeStepSnapshots(merged: Db, direct: Db, b: Batch)
    requires Worked(b) && SameButHeights(merged, direct)
    ensures var m, d := MergedInto(merged, Flush(EMPTY_DB, b)), Flush(direct, b);
            m.scvars == d.scvars && m.latest == d.latest
  {
    hide *;
    SegmentFields(b);
    FlushedFields(direct, b);
    MergedFields(merged, Flush(EMPTY_DB, b));
    SameFields(merged, direct);
  }

  lemma MergeStepCounters(merged: Db, direct: Db, b: Batch)
    requires Worked(b) && SameButHeights(merged, direct)
    ensures var m, d := MergedInto(merged, Flush(EMPTY_DB, b)), Flush(direct, b);
            m.reg == d.reg && m.burn == d.burn && m.norm == d.norm && m.tela == d.tela
  {
    hide *;
    SegmentFields(b);
    FlushedFields(direct, b);
    MergedFields(merged, Flush(EMPTY_DB, b));
    SameFields(merged, direct);
  }

  lemma MergeStepRoute(merged: Db, direct: Db, b: Batch)
    requires Worked(b) && SameButHeights(merged, direct)
    ensures var m, d := MergedInto(merged, Flush(EMPTY_DB, b)), Flush(direct, b);
            && m.blockHashes == d.blockHashes && m.installs == d.installs && m.classIdx == d.classIdx
            && m.classRows == d.classRows && m.scCodes == d.scCodes && m.addrScids == d.addrScids
  {
    hide AddHeights, AddRows, RaiseLatest, CountOwners, PutClassRows, MergeEdges, PutNormals, PutInvocations, EdgesFrom;
    hide NonEmptyClasses, NonEmptyCodes, NonEmptyOwners, SelfContained;
    NothingNamed();
    EmptyRows(direct.classRows, direct.classIdx);
    EdgesEmpty(direct.addrScids);
  }

  lemma MergeStep(merged: Db, direct: Db, b: Batch)
    requires Worked(b) && SameButHeights(merged, direct)
    ensures SameButHeights(MergedInto(merged, Flush(EMPTY_DB, b)), Flush(direct, b))
  {
    hide Flush, MergedInto, Worked;
    MergeStepOwners(merged, direct, b);
    MergeStepInvokes(merged, direct, b);
    MergeStepNormals(merged, direct, b);
    MergeStepSnapshots(merged, direct, b);
    MergeStepCounters(merged, direct, b);
    MergeStepRoute(merged, direct, b);
  }

  /** No interaction count of the segment is past the decode bound of 2^20. */
  ghost predicate Fits(seg: Db) { forall k <- seg.heights :: seg.heights[k] <= 0x10_0000 }

  ghost predicate AllFit(segs: seq<seq<seq<Call>>>) {
    forall batches <- segs :: Fits(FlushAll(EMPTY_DB, batches))
  }

  lemma MergeStepHeights(merged: map<ScidHeight, nat>, direct: map<ScidHeight, nat>, add: map<Scid, seq<nat>>,
      k: ScidHeight)
    requires GetOr(merged, k, 0) <= GetOr(direct, k, 0)
    ensures var m, d := AddRows(merged, AddHeights(map[], add)), AddHeights(direct, add);
            && GetOr(m, k, 0) <= GetOr(d, k, 0)
            && (GetOr(m, k, 0) == GetOr(d, k, 0) <==>
                  GetOr(merged, k, 0) == GetOr(direct, k, 0) && GetOr(AddHeights(map[], add), k, 0) <= MAX_HEIGHT_COUNT)
            && (k in m <==> k in merged || Readable(AddHeights(map[], add), k) > 0)
            && (k in d <==> k in direct || Occurrences(add, k) > 0)
            && GetOr(AddHeights(map[], add), k, 0) == Occurrences(add, k)
            && (Readable(AddHeights(map[], add), k) > 0 <==> 0 < Occurrences(add, k) <= MAX_HEIGHT_COUNT)
  {
    AddHeightsAt(map[], add, k);
    AddHeightsAt(direct, add, k);
    hide AddHeights, Occurrences;
  }

  lemma HeightFields(merged: Db, direct: Db, b: Batch)
    requires Worked(b)
    ensures MergedInto(merged, Flush(EMPTY_DB, b)).heights == AddRows(merged.heights, AddHeights(map[], b.heights))
    ensures Flush(EMPTY_DB, b).heights == AddHeights(map[], b.heights)
    ensures Flush(direct, b).heights == AddHeights(direct.heights, b.heights)
  {
    SegmentFields(b);
    FlushedFields(direct, b);
    MergedFields(merged, Flush(EMPTY_DB, b));
    hide *;
  }

  lemma SegmentIsOneFlush(db: Db, batches: seq<seq<Call>>)
    requires NoStrayRows(db) && GoodCalls(Concat(batches)) && forall c <- Concat(batches) :: WorkerCall(c)
    ensures FlushAll(db, batches) == Flush(db, Build(Concat(batches))) && NoStrayRows(FlushAll(db, batches))
    ensures Worked(Build(Concat(batches)))
  {
    hide Flush, Build, NoStrayRows, FlushAll;
    FlushAllIsOneFlush(db, batches);
    BuildNamed(Concat(batches));
    FlushKeepsRows(db, Build(Concat(batches)));
    BuildWorked(Concat(batches));
  }

  lemma {:induction false} FlushAllCat(db: Db, x: seq<seq<Call>>, y: seq<seq<Call>>)
    ensures FlushAll(db, x + y) == FlushAll(FlushAll(db, x), y)
  {
    hide Flush, Build;
    if y == [] {
      assert x + y == x;
    } else {
      FlushAllCat(db, x, y[..|y| - 1]);
      assert (x + y)[..|x + y| - 1] == x + y[..|y| - 1];
    }
  }

  /** The reduce phase: each segment's store, filled by its worker's batches, merged in order. */
  ghost function MergeAll(main: Db, segs: seq<seq<seq<Call>>>): Db {
    if segs == [] then main
    else MergedInto(MergeAll(main, segs[..|segs| - 1]), FlushAll(EMPTY_DB, segs[|segs| - 1]))
  }

  ghost predicate GoodSegments(segs: seq<seq<seq<Call>>>) {
    forall batches <- segs :: GoodCalls(Concat(batches)) && forall c <- Concat(batches) :: WorkerCall(c)
  }

  /**
   Merging the segment stores in order leaves what flushing the same batches into one store leaves,
   up to the height row (written once at the end), the owner edges and the interaction counts.
   */
  lemma {:induction false} MapReduceIsSequential(main: Db, segs: seq<seq<seq<Call>>>)
    requires NoStrayRows(main) && GoodSegments(segs)
    ensures SameButHeights(MergeAll(main, segs), FlushAll(main, Concat(segs)))
    ensures NoStrayRows(FlushAll(main, Concat(segs)))
  {
    hide Flush, FlushAll, MergedInto, NoStrayRows, GoodCalls, Worked, SameButHeights;
    if segs == [] {
      NothingMerged(main);
    } else {
      var init, batches := segs[..|segs| - 1], segs[|segs| - 1];
      assert batches in segs && forall x <- init :: x in segs;
      MapReduceIsSequential(main, init);
      FlushAllCat(main, Concat(init), batches);
      SegmentIsOneFlush(FlushAll(main, Concat(init)), batches);
      NoRowsAtAll();
      SegmentIsOneFlush(EMPTY_DB, batches);
      MergeStep(MergeAll(main, init), FlushAll(main, Concat(init)), Build(Concat(batches)));
    }
  }

  lemma NothingMerged(main: Db)
    ensures SameButHeights(main, FlushAll(main, [])) && FlushAll(main, []) == main
  {
  }

  lemma NoRowsAtAll()
    ensures NoStrayRows(EMPTY_DB)
  {
  }

  lemma {:induction false} CountsAt(main: Db, segs: seq<seq<seq<Call>>>, k: ScidHeight)
    requires NoStrayRows(main) && GoodSegments(segs)
    ensures var m, d := MergeAll(main, segs).heights, FlushAll(main, Concat(segs)).heights;
            && GetOr(m, k, 0) <= GetOr(d, k, 0)
            && (GetOr(m, k, 0) == GetOr(d, k, 0) <==>
                  forall batches <- segs :: GetOr(FlushAll(EMPTY_DB, batches).heights, k, 0) <= MAX_HEIGHT_COUNT)
            && (AllFit(segs) ==> (k in m <==> k in d))
  {
    hide Flush, FlushAll, MergedInto, NoStrayRows, GoodCalls, Worked, AddRows, AddHeights, Occurrences;
    if segs == [] {
      NothingMerged(main);
    } else {
      var init, batches := segs[..|segs| - 1], segs[|segs| - 1];
      assert segs == init + [batches] && forall x <- init :: x in segs;
      CountsAt(main, init, k);
      MapReduceIsSequential(main, init);
      FlushAllCat(main, Concat(init), batches);
      SegmentIsOneFlush(FlushAll(main, Concat(init)), batches);
      NoRowsAtAll();
      SegmentIsOneFlush(EMPTY_DB, batches);
      var b := Build(Concat(batches));
      hide Build, Concat;
      HeightFields(MergeAll(main, init), FlushAll(main, Concat(init)), b);
      MergeStepHeights(MergeAll(main, init).heights, FlushAll(main, Concat(init)).heights, b.heights, k);
    }
  }

  /** The interaction counts come out equal exactly when no segment counts past the decode bound. */
  lemma CountsSurviveExactlyWithinBound(main: Db, segs: seq<seq<seq<Call>>>)
    requires NoStrayRows(main) && GoodSegments(segs)
    ensures MergeAll(main, segs).heights == FlushAll(main, Concat(segs)).heights <==> AllFit(segs)
  {
    var m, d := MergeAll(main, segs).heights, FlushAll(main, Concat(segs)).heights;
    hide MergeAll, FlushAll, NoStrayRows, GoodSegments;
    if AllFit(segs) {
      forall k: ScidHeight ensures (k in m <==> k in d) && (k in m ==> m[k] == d[k]) {
        CountsAt(main, segs, k);
        assert forall batches <- segs :: Fits(FlushAll(EMPTY_DB, batches));
      }
    } else {
      var batches :| batches in segs && !Fits(FlushAll(EMPTY_DB, batches));
      var rows := FlushAll(EMPTY_DB, batches).heights;
      var k :| k in rows && rows[k] > MAX_HEIGHT_COUNT;
      CountsAt(main, segs, k);
      assert GetOr(rows, k, 0) > MAX_HEIGHT_COUNT;
      assert GetOr(m, k, 0) != GetOr(d, k, 0);
    }
  }

  /** One more interaction than the decoder accepts, all at one height: the merge drops the row. */
  lemma CountPastBoundIsLost(main: Db, s: Scid, h: nat)
    requires NoStrayRows(main)
    ensures var segs := [[seq(MAX_HEIGHT_COUNT + 1, _ => Interaction(s, h))]];
            GoodSegments(segs) && MergeAll(main, segs).heights != FlushAll(main, Concat(segs)).heights
  {
    var calls := seq(MAX_HEIGHT_COUNT + 1, _ => Interaction(s, h));
    var segs := [[calls]];
    OneBatch(calls);
    hide MergeAll, FlushAll, NoStrayRows, Build, Flush, Concat, Worked, AddHeights, Occurrences;
    assert GoodSegments(segs);
    NoRowsAtAll();
    SegmentIsOneFlush(EMPTY_DB, [calls]);
    HeightFields(EMPTY_DB, EMPTY_DB, Build(calls));
    ManyInteractions(s, h, MAX_HEIGHT_COUNT + 1);
    AddHeightsAt(map[], Build(calls).heights, ScidHeight(s, h));
    assert segs[0] == [calls] && !Fits(FlushAll(EMPTY_DB, segs[0]));
    CountsSurviveExactlyWithinBound(main, segs);
  }

  lemma {:induction false} ManyInteractions(s: Scid, h: nat, n: nat)
    ensures Occurrences(Build(seq(n, _ => Interaction(s, h))).heights, ScidHeight(s, h)) == n
  {
    var calls := seq(n, _ => Interaction(s, h));
    if n > 0 {
      ManyInteractions(s, h, n - 1);
      assert calls[..n - 1] == seq(n - 1, _ => Interaction(s, h)) && calls[n - 1] == Interaction(s, h);
      CountMore(Build(calls[..n - 1]).heights, s, h, ScidHeight(s, h));
      hide AddHeight, Occurrences;
    }
  }

  /** Some worker recorded the edge; some segment's owners row still carries it. */
  ghost predicate Recorded(segs: seq<seq<seq<Call>>>, e: OwnerEdge) {
    exists i :: 0 <= i < |segs| && e in FlushAll(EMPTY_DB, segs[i]).ownerScids
  }

  ghost predicate Rebuilt(segs: seq<seq<seq<Call>>>, e: OwnerEdge) {
    exists i :: 0 <= i < |segs| && e in EdgesFrom(FlushAll(EMPTY_DB, segs[i]).owners)
  }

  /** Every recorded edge is already in the main store or comes back from an owners row. */
  ghost predicate EdgesKept(main: Db, segs: seq<seq<seq<Call>>>) {
    forall e: OwnerEdge :: Recorded(segs, e) ==> e in main.ownerScids || Rebuilt(segs, e)
  }

  /** The merge rebuilds owner edges from owners rows; flushing keeps the recorded ones. */
  lemma {:induction false} OwnerEdgesAt(main: Db, segs: seq<seq<seq<Call>>>, e: OwnerEdge)
    requires NoStrayRows(main) && GoodSegments(segs)
    ensures e in MergeAll(main, segs).ownerScids <==> e in main.ownerScids || Rebuilt(segs, e)
    ensures e in FlushAll(main, Concat(segs)).ownerScids <==> e in main.ownerScids || Recorded(segs, e)
    ensures Rebuilt(segs, e) ==> Recorded(segs, e)
  {
    hide Flush, FlushAll, MergedInto, NoStrayRows, GoodCalls, EdgesFrom, Worked, Recorded, Rebuilt;
    if segs == [] {
      NothingMerged(main);
      NoEdgesYet(e);
    } else {
      var init, batches := segs[..|segs| - 1], segs[|segs| - 1];
      assert batches in segs && forall x <- init :: x in segs;
      OwnerEdgesAt(main, init, e);
      MapReduceIsSequential(main, init);
      FlushAllCat(main, Concat(init), batches);
      SegmentIsOneFlush(FlushAll(main, Concat(init)), batches);
      NoRowsAtAll();
      SegmentIsOneFlush(EMPTY_DB, batches);
      var b := Build(Concat(batches));
      hide Build, Concat;
      EdgeFields(MergeAll(main, init), FlushAll(main, Concat(init)), b);
      OneMoreSegment(init, batches, e);
      assert segs == init + [batches];
    }
  }

  lemma NoEdgesYet(e: OwnerEdge)
    ensures !Recorded([], e) && !Rebuilt([], e)
  {
  }

  lemma OneMoreSegment(init: seq<seq<seq<Call>>>, batches: seq<seq<Call>>, e: OwnerEdge)
    ensures Recorded(init + [batches], e) <==> Recorded(init, e) || e in FlushAll(EMPTY_DB, batches).ownerScids
    ensures Rebuilt(init + [batches], e) <==> Rebuilt(init, e) || e in EdgesFrom(FlushAll(EMPTY_DB, batches).owners)
  {
    hide FlushAll, EdgesFrom;
    var segs := init + [batches];
    assert segs[|init|] == batches && forall i | 0 <= i < |init| :: segs[i] == init[i];
    if Recorded(init, e) {
      var i :| 0 <= i < |init| && e in FlushAll(EMPTY_DB, init[i]).ownerScids;
      assert e in FlushAll(EMPTY_DB, segs[i]).ownerScids;
    }
    if Rebuilt(init, e) {
      var i :| 0 <= i < |init| && e in EdgesFrom(FlushAll(EMPTY_DB, init[i]).owners);
      assert e in EdgesFrom(FlushAll(EMPTY_DB, segs[i]).owners);
    }
    if e in FlushAll(EMPTY_DB, batches).ownerScids {
      assert e in FlushAll(EMPTY_DB, segs[|init|]).ownerScids;
    }
    if e in EdgesFrom(FlushAll(EMPTY_DB, batches).owners) {
      assert e in EdgesFrom(FlushAll(EMPTY_DB, segs[|init|]).owners);
    }
  }

  /** The merge never invents an owner edge, and keeps them all exactly when each can be rebuilt or was there. */
  lemma OwnerEdgesOfMerge(main: Db, segs: seq<seq<seq<Call>>>)
    requires NoStrayRows(main) && GoodSegments(segs)
    ensures MergeAll(main, segs).ownerScids <= FlushAll(main, Concat(segs)).ownerScids
    ensures MergeAll(main, segs).ownerScids == FlushAll(main, Concat(segs)).ownerScids <==> EdgesKept(main, segs)
  {
    hide MergeAll, FlushAll, NoStrayRows, GoodSegments, Recorded, Rebuilt;
    var m, d := MergeAll(main, segs).ownerScids, FlushAll(main, Concat(segs)).ownerScids;
    forall e: OwnerEdge
      ensures e in m ==> e in d
      ensures (e in m <==> e in d) <==> (Recorded(segs, e) ==> e in main.ownerScids || Rebuilt(segs, e))
    {
      OwnerEdgesAt(main, segs, e);
    }
    if EdgesKept(main, segs) {
      assert forall e :: e in m <==> e in d;
    }
  }

  // ---------- Owners that change within a segment ----------

  /** No two owner calls name the same scid. */
  ghost predicate DistinctOwners(calls: seq<Call>) {
    forall i, j | 0 <= i < j < |calls| :: calls[i].Owner? && calls[j].Owner? ==> calls[i].scid != calls[j].scid
  }

  lemma {:induction false} OwnerCalls(calls: seq<Call>, s: Scid)
    ensures s in Build(calls).owners ==> exists i :: 0 <= i < |calls| && calls[i].Owner? && calls[i].scid == s
  {
    if calls != [] {
      var init, c := calls[..|calls| - 1], calls[|calls| - 1];
      OwnerCalls(init, s);
      OwnersAfter(Build(init), c);
      hide Build, Apply;
      if s in Build(init).owners {
        var i :| 0 <= i < |init| && init[i].Owner? && init[i].scid == s;
        assert calls[i] == init[i];
      }
    }
  }

  lemma OwnersAfter(b: Batch, c: Call)
    ensures Apply(b, c).owners == if c.Owner? then b.owners[c.scid := c.owner] else b.owners
    ensures Apply(b, c).ownerScids ==
            if c.Owner? && c.owner != "" && c.scid != "" then b.ownerScids + {OwnerEdge(c.owner, c.scid)}
                else b.ownerScids
  {
    hide AddHeight, AddTouch;
  }

  lemma {:induction false} DistinctOwnersKeepEdges(calls: seq<Call>)
    requires DistinctOwners(calls)
    ensures Build(calls).ownerScids == EdgesFrom(Build(calls).owners)
  {
    if calls != [] {
      var init, c := calls[..|calls| - 1], calls[|calls| - 1];
      assert forall i | 0 <= i < |init| :: init[i] == calls[i];
      DistinctOwnersKeepEdges(init);
      OwnersAfter(Build(init), c);
      hide Apply;
      if c.Owner? {
        OwnerCalls(init, c.scid);
        OneMoreOwnerEdge(Build(init).owners, c.scid, c.owner);
      }
    }
  }

  /** When no segment sees a contract deployed twice, the merge keeps every owner edge. */
  lemma DeployedOnceKeepsEdges(main: Db, segs: seq<seq<seq<Call>>>)
    requires NoStrayRows(main) && GoodSegments(segs)
    requires forall i | 0 <= i < |segs| :: DistinctOwners(Concat(segs[i]))
    ensures MergeAll(main, segs).ownerScids == FlushAll(main, Concat(segs)).ownerScids
  {
    hide MergeAll, FlushAll, NoStrayRows, DistinctOwners, Concat, Build, EdgesFrom, Flush, Worked, GoodCalls;
    forall e: OwnerEdge | Recorded(segs, e) ensures Rebuilt(segs, e) {
      var i :| 0 <= i < |segs| && e in FlushAll(EMPTY_DB, segs[i]).ownerScids;
      assert segs[i] in segs;
      NoRowsAtAll();
      SegmentIsOneFlush(EMPTY_DB, segs[i]);
      EdgeFields(EMPTY_DB, EMPTY_DB, Build(Concat(segs[i])));
      DistinctOwnersKeepEdges(Concat(segs[i]));
    }
    OwnerEdgesOfMerge(main, segs);
  }

  /** A contract deployed twice in one segment: the first owner's edge is recorded and lost in the merge. */
  lemma OverwrittenOwnerLosesEdge(s: Scid, a: Addr, b: Addr)
    requires s != "" && a != "" && b != "" && a != b
    ensures var segs := [[[Owner(s, a), Owner(s, b)]]];
            && GoodSegments(segs)
            && OwnerEdge(a, s) in FlushAll(EMPTY_DB, Concat(segs)).ownerScids
            && OwnerEdge(a, s) !in MergeAll(EMPTY_DB, segs).ownerScids
  {
    hide *;
    var calls := [Owner(s, a), Owner(s, b)];
    LoneSegment(calls, OwnerEdge(a, s));
    TwoOwners(s, a, b);
    NoRowsAtAll();
    SegmentIsOneFlush(EMPTY_DB, [calls]);
    EdgeFields(EMPTY_DB, EMPTY_DB, Build(calls));
    OwnerEdgesAt(EMPTY_DB, [[calls]], OwnerEdge(a, s));
    NothingIndexed(OwnerEdge(a, s));
  }

  lemma NothingIndexed(e: OwnerEdge)
    ensures e !in EMPTY_DB.ownerScids
  {
  }

  lemma LoneSegment(calls: seq<Call>, e: OwnerEdge)
    ensures Concat([calls]) == calls
    ensures GoodSegments([[calls]]) <==> GoodCalls(calls) && forall c <- calls :: WorkerCall(c)
    ensures Recorded([[calls]], e) <==> e in FlushAll(EMPTY_DB, [calls]).ownerScids
    ensures Rebuilt([[calls]], e) <==> e in EdgesFrom(FlushAll(EMPTY_DB, [calls]).owners)
  {
    hide *;
    OneBatch(calls);
    OneOf([calls], e);
  }

  lemma OneOf(batches: seq<seq<Call>>, e: OwnerEdge)
    ensures GoodSegments([batches]) <==> GoodCalls(Concat(batches)) && forall c <- Concat(batches) :: WorkerCall(c)
    ensures Recorded([batches], e) <==> e in FlushAll(EMPTY_DB, batches).ownerScids
    ensures Rebuilt([batches], e) <==> e in EdgesFrom(FlushAll(EMPTY_DB, batches).owners)
  {
    hide Concat, GoodCalls, WorkerCall, FlushAll, EdgesFrom;
    assert [batches][0] == batches;
  }

  lemma OneBatch(calls: seq<Call>)
    ensures Concat([calls]) == calls
  {
    assert [calls][..0] == [];
    assert [] + calls == calls;
  }

  lemma TwoOwners(s: Scid, a: Addr, b: Addr)
    requires s != "" && a != "" && b != "" && a != b
    ensures var calls := [Owner(s, a), Owner(s, b)];
            && GoodCalls(calls) && (forall c <- calls :: WorkerCall(c))
            && OwnerEdge(a, s) in Build(calls).ownerScids && OwnerEdge(a, s) !in EdgesFrom(Build(calls).owners)
  {
    var calls := [Owner(s, a), Owner(s, b)];
    assert calls[..1] == [Owner(s, a)] && [Owner(s, a)][..0] == [];
    OwnersAfter(EMPTY_BATCH, Owner(s, a));
    OwnersAfter(Build([Owner(s, a)]), Owner(s, b));
    hide Apply;
  }

  lemma EdgeFields(merged: Db, direct: Db, b: Batch)
    requires Worked(b)
    ensures MergedInto(merged, Flush(EMPTY_DB, b)).ownerScids == merged.ownerScids + EdgesFrom(b.owners)
    ensures Flush(direct, b).ownerScids == direct.ownerScids + b.ownerScids
    ensures Flush(EMPTY_DB, b).ownerScids == b.ownerScids && Flush(EMPTY_DB, b).owners == b.owners
    ensures EdgesFrom(b.owners) <= b.ownerScids
  {
    assert NonEmptyOwners(b.ownerScids) == b.ownerScids;
    assert EdgesFrom(b.owners) <= b.ownerScids;
    hide *;
    SegmentFields(b);
    FlushedFields(direct, b);
    MergedFields(merged, Flush(EMPTY_DB, b));
  }

  ghost predicate NormalKeys(rows: map<NormKey, NormalTx>) {
    forall k <- rows :: KeyOfNormal(NormalTxRef(k.addr, rows[k])) == k
  }

  ghost predicate InvokeKeys(rows: map<InvokeKey, Invocation>) {
    forall k <- rows :: k.scid != "" && KeyOfInvocation(rows[k]) == k && SelfContained(rows[k])
  }

  lemma BatchKeys(b: Batch)
    requires Worked(b)
    ensures OwnKeys(Flush(EMPTY_DB, b))
  {
    var norms, invokes := PutNormals(map[], b.normalTxs), PutInvocations(map[], b.invocations);
    assert NormalKeys(norms) by { NormalsOver(map[], b.normalTxs); }
    assert InvokeKeys(invokes) by { InvokesOver(map[], b.invocations); }
    SegmentFields(b);
    hide Flush, PutNormals, PutInvocations, Worked, SelfContained, KeyOfInvocation, KeyOfNormal;
  }

  /** A worker's store can be merged: its rows carry their own keys. */
  lemma SegmentsCarryKeys(batches: seq<seq<Call>>)
    requires GoodCalls(Concat(batches)) && forall c <- Concat(batches) :: WorkerCall(c)
    ensures OwnKeys(FlushAll(EMPTY_DB, batches))
  {
    hide FlushAll, Flush, Build, Concat, Worked, OwnKeys, NoStrayRows, GoodCalls;
    NoRowsAtAll();
    SegmentIsOneFlush(EMPTY_DB, batches);
    BatchKeys(Build(Concat(batches)));
  }

  /** The reduce phase of Run: every store in segment order, then the height row. */
  method Reduce(main: BboltStore, stores: seq<Db>, ghost segs: seq<seq<seq<Call>>>, endHeight: nat)
    requires |stores| == |segs| && GoodSegments(segs)
    requires forall i | 0 <= i < |segs| :: stores[i] == FlushAll(EMPTY_DB, segs[i])
    modifies main
    ensures main.View() == MergeAll(old(main.View()), segs).(last := Some(endHeight))
  {
    hide FlushAll, MergedInto, GoodCalls, BboltStore.View;
    ghost var start := main.View();
    var i := 0;
    while i < |stores|
      invariant i <= |stores| && main.View() == MergeAll(start, segs[..i])
    {
      assert segs[i] in segs;
      SegmentsCarryKeys(segs[i]);
      assert segs[..i + 1][..i] == segs[..i] && segs[..i + 1][i] == segs[i];
      MergeSegment(main, stores[i]);
      i := i + 1;
    }
    assert segs[..i] == segs;
    hide MergeAll;
    StoreLastIndexHeight(main, endHeight);
  }

  method StoreLastIndexHeight(main: BboltStore, height: nat)
    modifies main
    ensures main.View() == old(main.View()).(last := Some(height))
  {
    main.lastIndexedHeight := Some(height);
  }
}
