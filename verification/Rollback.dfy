/**
 Rolling back equals never having indexed (storage/truncate.go against storage/bbolt.go):
 truncating a turbo-mode history to h leaves the index of its first h blocks exactly when
 two conditions on the history hold, and every bucket but addr_scids always does.
 */
module Rollback {
  import opened IndexTypes
  import opened WriteBatches
  import opened IndexDb
  import opened BatchBoundary
  import opened DerivedIndexes
  import opened TurboHistory

  // ---------- Invariants of a turbo-mode store ----------

  ghost function InstalledScids(db: Db): set<Scid> {
    set k | k in db.installs :: k.scid
  }

  /** Every invocation row has an interaction row at its height. */
  ghost predicate InvokesCovered(db: Db) {
    forall k <- db.invokes :: ScidHeight(k.scid, k.height) in db.heights
  }

  /** Every install left its own invocation row (the install invocation's txid is the scid). */
  ghost predicate InstallsInvoked(db: Db) {
    forall k <- db.installs ::
      InvokeKey(k.scid, db.installs[k].owner, k.scid, k.height, db.installs[k].entrypoint) in db.invokes
  }

  /** Owner, class, code and reverse-owner rows belong to installed scids. */
  ghost predicate Footprint(db: Db) {
    && db.owners.Keys == InstalledScids(db)
    && db.classIdx.Keys == InstalledScids(db)
    && db.scCodes.Keys <= InstalledScids(db)
    && (forall e <- db.ownerScids :: e.scid in InstalledScids(db))
  }

  ghost predicate Coherent(db: Db) {
    InvokesCovered(db) && InstallsInvoked(db) && Footprint(db)
  }

  ghost predicate Fresh(db: Db, ev: Event) {
    ev.tx.DeployTx? ==> ev.tx.scid != "" && ev.tx.scid !in InstalledScids(db)
  }

  lemma InstalledStep(db: Db, ev: Event)
    ensures InstalledScids(ApplyEvent(db, ev)) == InstalledScids(db) + (if ev.tx.DeployTx? then {ev.tx.scid} else {})
  {
    hide OwnersAfter, InvokesAfter, ScvarsAfter, LatestAfter, HeightsAfter, NormsAfter, CountAfter, LastAfter;
    hide HashesAfter;
    hide ClassIdxAfter, ClassRowsAfter, CodesAfter, OwnerEdgesAfter, EdgesAfter;
    if ev.tx.DeployTx? {
      assert InstallsAfter(db.installs, ev).Keys == db.installs.Keys + {ScidHeight(ev.tx.scid, ev.height)};
    }
  }

  lemma CoherentStep(db: Db, ev: Event)
    requires Coherent(db) && Fresh(db, ev)
    ensures Coherent(ApplyEvent(db, ev))
  {
    hide InvokesCovered, InstallsInvoked, Footprint, ApplyEvent;
    InvokesCoveredStep(db, ev);
    InstallsInvokedStep(db, ev);
    FootprintStep(db, ev);
  }

  lemma InvokesCoveredStep(db: Db, ev: Event)
    requires InvokesCovered(db)
    ensures InvokesCovered(ApplyEvent(db, ev))
  {
    forall k | k in InvokesAfter(db.invokes, ev) ensures ScidHeight(k.scid, k.height) in HeightsAfter(db.heights, ev) {
    }
    hide InvokesAfter, HeightsAfter;
  }

  lemma InstallsInvokedStep(db: Db, ev: Event)
    requires InstallsInvoked(db) && (ev.tx.DeployTx? ==> ev.tx.scid != "")
    ensures InstallsInvoked(ApplyEvent(db, ev))
  {
    forall k | k in InstallsAfter(db.installs, ev)
      ensures var rec := InstallsAfter(db.installs, ev)[k];
              InvokeKey(k.scid, rec.owner, k.scid, k.height, rec.entrypoint) in InvokesAfter(db.invokes, ev)
    {
    }
    hide InvokesAfter, InstallsAfter;
  }

  lemma FootprintStep(db: Db, ev: Event)
    requires Footprint(db) && (ev.tx.DeployTx? ==> ev.tx.scid != "")
    ensures Footprint(ApplyEvent(db, ev))
  {
    hide InstalledScids, OwnersAfter, ClassIdxAfter, CodesAfter, OwnerEdgesAfter;
    InstalledStep(db, ev);
    EntityKeys(db, ev);
  }

  lemma EntityKeys(db: Db, ev: Event)
    ensures var deployed := if ev.tx.DeployTx? then {ev.tx.scid} else {};
            && OwnersAfter(db.owners, ev).Keys == db.owners.Keys + deployed
            && ClassIdxAfter(db.classIdx, ev).Keys == db.classIdx.Keys + deployed
            && CodesAfter(db.scCodes, ev).Keys <= db.scCodes.Keys + deployed
            && (forall e <- OwnerEdgesAfter(db.ownerScids, ev) :: e in db.ownerScids || e.scid in deployed)
  {
  }

  // ---------- An event above h is invisible to truncation ----------

  /** Agreement on the buckets that are not derived from others. */
  ghost predicate SamePrimaries(a: Db, b: Db) {
    SameDetail(a, b) && SameEntities(a, b)
  }

  ghost predicate SameDetail(a: Db, b: Db) {
    && a.invokes == b.invokes && a.scvars == b.scvars && a.heights == b.heights
    && a.normTxs == b.normTxs && a.blockHashes == b.blockHashes && a.installs == b.installs
  }

  ghost predicate SameEntities(a: Db, b: Db) {
    && a.owners == b.owners && a.classIdx == b.classIdx && a.scCodes == b.scCodes && a.ownerScids == b.ownerScids
  }

  ghost function InvokesUpTo(m: map<InvokeKey, Invocation>, h: nat): map<InvokeKey, Invocation> {
    map k | k in m && k.height <= h :: m[k]
  }

  /** With its interaction rows in place, every invocation row above h is found and deleted. */
  lemma TruncateInvokes(db: Db, h: nat)
    requires InvokesCovered(db)
    ensures KeepInvokes(db.invokes, Affected(db, h), h) == InvokesUpTo(db.invokes, h)
  {
    forall k | k in db.invokes && k.height > h ensures k.scid in Affected(db, h) {
      assert ScidHeight(k.scid, k.height) in db.heights;
    }
    hide Affected;
  }

  lemma RowsStepAbove(db: Db, ev: Event, h: nat)
    requires ev.height > h
    ensures InvokesUpTo(InvokesAfter(db.invokes, ev), h) == InvokesUpTo(db.invokes, h)
    ensures KeepRows(ScvarsAfter(db.scvars, ev), h) == KeepRows(db.scvars, h)
    ensures KeepRows(HeightsAfter(db.heights, ev), h) == KeepRows(db.heights, h)
    ensures KeepRows(InstallsAfter(db.installs, ev), h) == KeepRows(db.installs, h)
    ensures KeepNorms(NormsAfter(db.normTxs, ev), h) == KeepNorms(db.normTxs, h)
    ensures KeepHashes(HashesAfter(db.blockHashes, ev), h) == KeepHashes(db.blockHashes, h)
  {
  }

  lemma DetailStepAbove(db: Db, ev: Event, h: nat)
    requires InvokesCovered(db) && ev.height > h
    ensures SameDetail(Truncate(ApplyEvent(db, ev), h), Truncate(db, h))
  {
    hide TruncatedEdges, TruncatedLatest, Affected, InstalledAbove, InvokesCovered, KeepInvokes, KeepRows, KeepNorms;
    hide KeepHashes;
    hide InvokesAfter, ScvarsAfter, HeightsAfter, InstallsAfter, NormsAfter, HashesAfter, InvokesUpTo;
    InvokesCoveredStep(db, ev);
    RowsStepAbove(db, ev, h);
    TruncateInvokes(db, h);
    TruncateInvokes(ApplyEvent(db, ev), h);
  }

  lemma EntitiesStepAbove(db: Db, ev: Event, h: nat)
    requires Footprint(db) && Fresh(db, ev) && ev.height > h
    ensures SameEntities(Truncate(ApplyEvent(db, ev), h), Truncate(db, h))
  {
    hide TruncatedEdges, TruncatedLatest, Affected, InstalledAbove, KeepOwnerEdges;
    hide OwnersAfter, ClassIdxAfter, CodesAfter, OwnerEdgesAfter;
    GoneStep(db, ev, h);
    FreshEntityDropped(db, ev, InstalledAbove(db, h));
  }

  lemma FreshEntityDropped(db: Db, ev: Event, gone: set<Scid>)
    requires Footprint(db) && Fresh(db, ev)
    ensures var gone' := gone + (if ev.tx.DeployTx? then {ev.tx.scid} else {});
            && OwnersAfter(db.owners, ev) - gone' == db.owners - gone
            && ClassIdxAfter(db.classIdx, ev) - gone' == db.classIdx - gone
            && CodesAfter(db.scCodes, ev) - gone' == db.scCodes - gone
            && KeepOwnerEdges(OwnerEdgesAfter(db.ownerScids, ev), gone') == KeepOwnerEdges(db.ownerScids, gone)
  {
    hide InstalledScids;
  }

  lemma GoneStep(db: Db, ev: Event, h: nat)
    ensures InstalledAbove(ApplyEvent(db, ev), h) ==
            InstalledAbove(db, h) + (if ev.tx.DeployTx? && ev.height > h then {ev.tx.scid} else {})
  {
    hide ScidsAbove, InstallsAfter;
    ScidsAboveStep(db, ev, h);
  }

  lemma ScidsAboveStep(db: Db, ev: Event, h: nat)
    ensures ScidsAbove(InstallsAfter(db.installs, ev), h) ==
            ScidsAbove(db.installs, h) + (if ev.tx.DeployTx? && ev.height > h then {ev.tx.scid} else {})
    ensures ScidsAbove(HeightsAfter(db.heights, ev), h) ==
            ScidsAbove(db.heights, h) + (if (ev.tx.DeployTx? || Interacts(ev)) && ev.height > h then {ev.tx.scid}
                else {})
    ensures ScidsAbove(ScvarsAfter(db.scvars, ev), h) ==
            ScidsAbove(db.scvars, h) + (if ev.tx.SnapshotTx? && ev.height > h then {ev.tx.scid} else {})
  {
    if ev.tx.DeployTx? {
      PutRow(db.installs, ScidHeight(ev.tx.scid, ev.height), InstallsAfter(db.installs, ev), h);
    }
    if ev.tx.DeployTx? || Interacts(ev) {
      PutRow(db.heights, ScidHeight(ev.tx.scid, ev.height), HeightsAfter(db.heights, ev), h);
    }
    if ev.tx.SnapshotTx? {
      PutRow(db.scvars, ScidHeight(ev.tx.scid, ev.height), ScvarsAfter(db.scvars, ev), h);
    }
    hide ScidsAbove;
  }

  lemma PutRow<V>(m: map<ScidHeight, V>, k: ScidHeight, after: map<ScidHeight, V>, h: nat)
    requires after.Keys == m.Keys + {k}
    ensures ScidsAbove(after, h) == ScidsAbove(m, h) + (if k.height > h then {k.scid} else {})
  {
  }

  // ---------- Whole histories ----------

  /** Each scid is deployed at most once, under a non-empty scid. */
  ghost predicate DistinctDeploys(es: seq<Event>) {
    && (forall ev <- es :: ev.tx.DeployTx? ==> ev.tx.scid != "")
    && (forall i, j | 0 <= i < j < |es| && es[i].tx.DeployTx? && es[j].tx.DeployTx? :: es[i].tx.scid != es[j].tx.scid)
  }

  ghost function StoreOf(es: seq<Event>): Db { ApplyEvents(EMPTY_DB, es) }

  lemma {:induction false} InstalledOf(es: seq<Event>)
    ensures forall s <- InstalledScids(StoreOf(es)) ::
              exists i :: 0 <= i < |es| && es[i].tx.DeployTx? && es[i].tx.scid == s
  {
    hide ApplyEvent, InstalledScids;
    if es == [] {
      assert InstalledScids(EMPTY_DB) == {} by { EmptyInstalled(); }
    } else {
      var init := es[..|es| - 1];
      InstalledOf(init);
      InstalledStep(StoreOf(init), es[|es| - 1]);
      forall s | s in InstalledScids(StoreOf(es))
        ensures exists i :: 0 <= i < |es| && es[i].tx.DeployTx? && es[i].tx.scid == s
      {
        if s in InstalledScids(StoreOf(init)) {
          var i :| 0 <= i < |init| && init[i].tx.DeployTx? && init[i].tx.scid == s;
          assert es[i] == init[i];
        } else {
          assert es[|es| - 1].tx.DeployTx?;
        }
      }
    }
  }

  lemma EmptyInstalled()
    ensures InstalledScids(EMPTY_DB) == {}
    ensures Coherent(EMPTY_DB)
  {
  }

  lemma FreshLast(es: seq<Event>)
    requires es != [] && DistinctDeploys(es)
    ensures Fresh(StoreOf(es[..|es| - 1]), es[|es| - 1])
  {
    hide ApplyEvents, InstalledScids;
    InstalledOf(es[..|es| - 1]);
  }

  lemma {:induction false} StoreCoherent(es: seq<Event>)
    requires DistinctDeploys(es)
    ensures Coherent(StoreOf(es))
  {
    hide ApplyEvent, Coherent, Fresh;
    if es == [] {
      EmptyInstalled();
    } else {
      StoreCoherent(es[..|es| - 1]);
      FreshLast(es);
      CoherentStep(StoreOf(es[..|es| - 1]), es[|es| - 1]);
    }
  }

  /** Truncating below a run of events gives the same primary buckets as truncating before it. */
  lemma {:induction false} TruncateSkips(pre: seq<Event>, post: seq<Event>, h: nat)
    requires DistinctDeploys(pre + post)
    requires forall ev <- post :: ev.height > h
    ensures SamePrimaries(Truncate(StoreOf(pre + post), h), Truncate(StoreOf(pre), h))
  {
    hide Truncate, ApplyEvent, Fresh, Footprint, InvokesCovered, InstallsInvoked;
    if post == [] {
      assert pre + post == pre;
    } else {
      var init, ev := post[..|post| - 1], post[|post| - 1];
      assert (pre + post)[..|pre + post| - 1] == pre + init;
      TruncateSkips(pre, init, h);
      StoreCoherent(pre + init);
      FreshLast(pre + post);
      DetailStepAbove(StoreOf(pre + init), ev, h);
      EntitiesStepAbove(StoreOf(pre + init), ev, h);
    }
  }

  /** All height-keyed rows are at or below h. */
  ghost predicate Within(db: Db, h: nat) {
    && (forall k <- db.invokes :: k.height <= h)
    && (forall k <- db.scvars :: k.height <= h)
    && (forall k <- db.heights :: k.height <= h)
    && (forall k <- db.normTxs :: k.height <= h)
    && (forall k <- db.blockHashes :: k <= h)
    && (forall k <- db.installs :: k.height <= h)
  }

  lemma WithinStep(db: Db, ev: Event, h: nat)
    requires Within(db, h) && ev.height <= h
    ensures Within(ApplyEvent(db, ev), h)
  {
    hide OwnersAfter, LatestAfter, CountAfter, ClassIdxAfter, ClassRowsAfter, CodesAfter, OwnerEdgesAfter, EdgesAfter;
  }

  lemma {:induction false} StoreWithin(es: seq<Event>, h: nat)
    requires forall ev <- es :: ev.height <= h
    ensures Within(StoreOf(es), h)
  {
    hide ApplyEvent;
    if es != [] {
      StoreWithin(es[..|es| - 1], h);
      WithinStep(StoreOf(es[..|es| - 1]), es[|es| - 1], h);
    }
  }

  /** Truncating a store that holds nothing above h changes no primary bucket. */
  lemma TruncateWithin(db: Db, h: nat)
    requires Within(db, h)
    ensures SamePrimaries(Truncate(db, h), db)
    ensures Affected(db, h) == {}
  {
    hide TruncatedEdges, TruncatedLatest, KeepInvokes, KeepRows, KeepNorms, KeepHashes, KeepOwnerEdges;
    assert InstalledAbove(db, h) == {} && Affected(db, h) == {};
    hide ScidsAbove;
    KeepsAll(db, h);
  }

  lemma KeepsAll(db: Db, h: nat)
    requires Within(db, h)
    ensures KeepInvokes(db.invokes, {}, h) == db.invokes && KeepRows(db.scvars, h) == db.scvars
    ensures KeepRows(db.heights, h) == db.heights && KeepRows(db.installs, h) == db.installs
    ensures KeepNorms(db.normTxs, h) == db.normTxs && KeepHashes(db.blockHashes, h) == db.blockHashes
    ensures KeepOwnerEdges(db.ownerScids, {}) == db.ownerScids
    ensures db.owners - {} == db.owners && db.classIdx - {} == db.classIdx && db.scCodes - {} == db.scCodes
  {
  }

  // ---------- Who is affected ----------

  predicate Activates(ev: Event, s: Scid) {
    (ev.tx.DeployTx? || Interacts(ev) || ev.tx.SnapshotTx?) && ev.tx.scid == s
  }

  lemma AffectedStep(db: Db, ev: Event, h: nat, s: Scid)
    ensures s in Affected(ApplyEvent(db, ev), h) <==> s in Affected(db, h) || (ev.height > h && Activates(ev, s))
  {
    hide ScidsAbove, InstallsAfter, HeightsAfter, ScvarsAfter;
    ScidsAboveStep(db, ev, h);
  }

  /** Affected is exactly: some event above h deploys, invokes or snapshots the scid. */
  lemma {:induction false} AffectedBy(pre: seq<Event>, post: seq<Event>, h: nat, s: Scid)
    requires forall ev <- pre :: ev.height <= h
    requires forall ev <- post :: ev.height > h
    ensures s in Affected(StoreOf(pre + post), h) <==> exists ev <- post :: Activates(ev, s)
  {
    hide ApplyEvent, Affected, Activates;
    if post == [] {
      assert pre + post == pre;
      StoreWithin(pre, h);
      TruncateWithin(StoreOf(pre), h);
    } else {
      var init, ev := post[..|post| - 1], post[|post| - 1];
      assert (pre + post)[..|pre + post| - 1] == pre + init;
      AffectedBy(pre, init, h, s);
      AffectedStep(StoreOf(pre + init), ev, h, s);
      assert post == init + [ev];
    }
  }

  // ---------- Address edges ----------

  /** The touches of one edge, in event order, repeats included. */
  function TouchesOn(es: seq<Event>, e: Edge): seq<TouchKey> {
    if es == [] then []
    else
      var before := TouchesOn(es[..|es| - 1], e);
      match TouchOf(es[|es| - 1])
      case Some(t) => if t.OnEdge() == e then before + [t] else before
      case None => before
  }

  function RollupSeq(q: seq<TouchKey>): Option<AddrEntry> {
    if q == [] then None
    else
      var t := q[|q| - 1];
      match RollupSeq(q[..|q| - 1])
      case None => Some(Touched(t.Height()))
      case Some(e) => Some(MergeEntry(e, Touched(t.Height())))
  }

  /** The maintained entry of an edge is the rollup of its touches. */
  lemma {:induction false} EdgeOf(es: seq<Event>, e: Edge)
    ensures e in StoreOf(es).addrScids <==> TouchesOn(es, e) != []
    ensures e in StoreOf(es).addrScids ==> RollupSeq(TouchesOn(es, e)) == Some(StoreOf(es).addrScids[e])
  {
    hide TouchOf;
    if es != [] {
      EdgeOf(es[..|es| - 1], e);
      var q := TouchesOn(es, e);
      if q != TouchesOn(es[..|es| - 1], e) {
        assert q[..|q| - 1] == TouchesOn(es[..|es| - 1], e);
      }
    }
  }

  lemma {:induction false} TouchesOnCat(x: seq<Event>, y: seq<Event>, e: Edge)
    ensures TouchesOn(x + y, e) == TouchesOn(x, e) + TouchesOn(y, e)
  {
    hide TouchOf;
    if y == [] {
      assert x + y == x;
    } else {
      TouchesOnCat(x, y[..|y| - 1], e);
      assert (x + y)[..|x + y| - 1] == x + y[..|y| - 1];
    }
  }

  lemma {:induction false} TouchFrom(es: seq<Event>, e: Edge, t: TouchKey)
    requires t in TouchesOn(es, e)
    ensures t.OnEdge() == e && exists ev <- es :: TouchOf(ev) == Some(t)
  {
    hide TouchOf;
    var init, last := es[..|es| - 1], es[|es| - 1];
    if t in TouchesOn(init, e) {
      TouchFrom(init, e, t);
      var ev :| ev in init && TouchOf(ev) == Some(t);
      assert ev in es;
    } else {
      assert last in es && TouchOf(last) == Some(t);
    }
  }

  lemma {:induction false} TouchInto(es: seq<Event>, ev: Event, t: TouchKey)
    requires ev in es && TouchOf(ev) == Some(t)
    ensures t in TouchesOn(es, t.OnEdge())
  {
    hide TouchOf;
    var init, last := es[..|es| - 1], es[|es| - 1];
    if ev != last {
      assert ev in init;
      TouchInto(init, ev, t);
    }
  }

  lemma TouchHeight(ev: Event)
    ensures TouchOf(ev).Some? ==> TouchOf(ev).value.Height() == ev.height && TouchOf(ev).value.OnEdge().addr != ""
  {
  }

  lemma TouchesStep(db: Db, ev: Event, t: TouchKey)
    requires t.OnEdge().addr != "" && (ev.tx.DeployTx? ==> ev.tx.scid != "")
    ensures t in TouchesOf(ApplyEvent(db, ev)) <==> t in TouchesOf(db) || TouchOf(ev) == Some(t)
  {
    hide OwnersAfter, ScvarsAfter, LatestAfter, HeightsAfter, CountAfter, LastAfter, HashesAfter, InstallsAfter;
    hide ClassIdxAfter, ClassRowsAfter, CodesAfter, OwnerEdgesAfter, EdgesAfter;
    assert t in TouchesOf(ApplyEvent(db, ev)) <==>
      if t.ByInvoke? then t.inv in InvokesAfter(db.invokes, ev) else t.norm in NormsAfter(db.normTxs, ev);
    assert t in TouchesOf(db) <==> if t.ByInvoke? then t.inv in db.invokes else t.norm in db.normTxs;
    hide TouchesOf;
  }

  /** The detail rows of an edge are exactly its touches, without repeats. */
  lemma {:induction false} DetailOf(es: seq<Event>, t: TouchKey)
    requires t.OnEdge().addr != "" && DistinctDeploys(es)
    ensures t in TouchesOf(StoreOf(es)) <==> t in TouchesOn(es, t.OnEdge())
  {
    hide ApplyEvent, TouchOf;
    if es == [] {
      assert TouchesOf(EMPTY_DB) == {};
    } else {
      DetailOf(es[..|es| - 1], t);
      TouchesStep(StoreOf(es[..|es| - 1]), es[|es| - 1], t);
      hide TouchesOf;
    }
  }

  // ---------- Rollups of lists and of sets ----------

  ghost predicate Distinct(q: seq<TouchKey>) {
    forall i, j | 0 <= i < j < |q| :: q[i] != q[j]
  }

  ghost function Elements(q: seq<TouchKey>): set<TouchKey> { set t | t in q }

  lemma {:induction false} DistinctSize(q: seq<TouchKey>)
    ensures |Elements(q)| <= |q|
    ensures |Elements(q)| == |q| <==> Distinct(q)
  {
    if q == [] {
      assert Elements(q) == {};
    } else {
      var init, t := q[..|q| - 1], q[|q| - 1];
      DistinctSize(init);
      assert q == init + [t];
      assert Elements(q) == Elements(init) + {t};
      if t in Elements(init) {
        var i :| 0 <= i < |init| && init[i] == t;
        assert q[i] == q[|q| - 1] && Elements(q) == Elements(init);
      } else {
        assert forall i | 0 <= i < |init| :: init[i] in Elements(init);
        assert Distinct(q) <==> Distinct(init);
      }
    }
  }

  lemma {:induction false} RollupBounds(q: seq<TouchKey>)
    requires q != []
    ensures var e := RollupSeq(q).value;
            && RollupSeq(q).Some? && e.count == |q|
            && e.first == MinOf(HeightsOf(Elements(q))) && e.last == MaxOf(HeightsOf(Elements(q)))
  {
    hide Elements, HeightsOf;
    var init, t := q[..|q| - 1], q[|q| - 1];
    HeightsOfSnoc(init, t);
    assert init + [t] == q;
    MaxOfUnion(HeightsOf(Elements(init)), {t.Height()});
    if init == [] {
      assert RollupSeq(init) == None;
      assert HeightsOf(Elements(q)) == {t.Height()} by { HeightsOfNone(); }
    } else {
      RollupBounds(init);
      HeightsOfSome(init);
      MinOfInsert(HeightsOf(Elements(init)), t.Height());
    }
  }

  lemma HeightsOfNone()
    ensures HeightsOf(Elements([])) == {}
  {
  }

  lemma HeightsOfSome(q: seq<TouchKey>)
    requires q != []
    ensures HeightsOf(Elements(q)) != {}
  {
    assert q[0] in Elements(q);
    assert q[0].Height() in HeightsOf(Elements(q));
  }

  lemma HeightsOfSnoc(q: seq<TouchKey>, t: TouchKey)
    ensures HeightsOf(Elements(q + [t])) == HeightsOf(Elements(q)) + {t.Height()}
  {
    assert Elements(q + [t]) == Elements(q) + {t};
  }

  lemma MinOfInsert(x: set<nat>, h: nat)
    requires x != {}
    ensures MinOf(x + {h}) == Min(MinOf(x), h)
  {
    assert MinOf(x) in x + {h} && h in x + {h};
  }

  /** A list rolls up like its set of elements exactly when it has no repeats. */
  lemma RollupAgree(q: seq<TouchKey>)
    requires q != []
    ensures RollupSeq(q) == Rollup(Elements(q)) <==> Distinct(q)
  {
    hide RollupSeq, HeightsOf, Distinct;
    RollupBounds(q);
    DistinctSize(q);
    assert q[0] in Elements(q);
    hide Elements;
  }

  // ---------- When an edge rolls back ----------

  ghost predicate Active(post: seq<Event>, s: Scid) {
    exists ev <- post :: Activates(ev, s)
  }

  /** An active scid's edge is recomputed, so repeats must be absent; another's is left alone. */
  ghost predicate EdgeCondition(pre: seq<Event>, post: seq<Event>, e: Edge) {
    if Active(post, e.scid) then Distinct(TouchesOn(pre, e)) else TouchesOn(post, e) == []
  }

  ghost predicate SplitAt(pre: seq<Event>, post: seq<Event>, h: nat) {
    && (forall ev <- pre :: ev.height <= h)
    && (forall ev <- post :: ev.height > h)
    && DistinctDeploys(pre + post)
  }

  lemma SurvivingTouches(pre: seq<Event>, post: seq<Event>, h: nat, e: Edge)
    requires SplitAt(pre, post, h) && e.addr != ""
    ensures TouchesUpTo(StoreOf(pre + post), e, h) == Elements(TouchesOn(pre, e))
  {
    forall t: TouchKey ensures t in TouchesUpTo(StoreOf(pre + post), e, h) <==> t in TouchesOn(pre, e) {
      hide ApplyEvents, TouchesOn, TouchesOf, TouchOf;
      TouchesOnCat(pre, post, e);
      if t.OnEdge() == e {
        DetailOf(pre + post, t);
      }
      if t in TouchesOn(pre, e) {
        TouchFrom(pre, e, t);
        var ev :| ev in pre && TouchOf(ev) == Some(t);
        TouchHeight(ev);
      }
      if t in TouchesOn(post, e) {
        TouchFrom(post, e, t);
        var ev :| ev in post && TouchOf(ev) == Some(t);
        TouchHeight(ev);
      }
    }
    hide TouchesUpTo, TouchesOn, ApplyEvents;
  }

  /** The install-row fallback never fires: an install left its own invocation. */
  lemma NoFallback(db: Db, e: Edge, h: nat)
    requires InstallsInvoked(db) && TouchesUpTo(db, e, h) == {}
    ensures OwnerInstalls(db, e, h) == {}
  {
    forall k | k in db.installs && k.scid == e.scid && k.height <= h ensures db.installs[k].owner != e.addr {
      var t := ByInvoke(InvokeKey(k.scid, db.installs[k].owner, k.scid, k.height, db.installs[k].entrypoint));
      assert t in TouchesOf(db) && t.OnEdge() == Edge(db.installs[k].owner, k.scid);
      assert t !in TouchesUpTo(db, e, h);
    }
  }

  lemma RecomputedEdge(pre: seq<Event>, post: seq<Event>, h: nat, e: Edge)
    requires SplitAt(pre, post, h) && e.addr != ""
    ensures Survivor(StoreOf(pre + post), e, h) == Rollup(Elements(TouchesOn(pre, e)))
  {
    hide ApplyEvents, TouchesOn, TouchesUpTo, OwnerInstalls, InstallsInvoked, InvokesCovered, Footprint;
    SurvivingTouches(pre, post, h, e);
    StoreCoherent(pre + post);
    if TouchesUpTo(StoreOf(pre + post), e, h) == {} {
      NoFallback(StoreOf(pre + post), e, h);
    }
  }

  function At(m: map<Edge, AddrEntry>, e: Edge): Option<AddrEntry> {
    if e in m then Some(m[e]) else None
  }

  lemma EdgeAt(es: seq<Event>, e: Edge)
    ensures At(StoreOf(es).addrScids, e) == RollupSeq(TouchesOn(es, e))
    ensures e.addr == "" ==> TouchesOn(es, e) == []
  {
    hide ApplyEvents, TouchesOn, TouchOf;
    EdgeOf(es, e);
    if TouchesOn(es, e) != [] {
      var t := TouchesOn(es, e)[0];
      TouchFrom(es, e, t);
      var ev :| ev in es && TouchOf(ev) == Some(t);
      TouchHeight(ev);
    }
  }

  lemma LongerDiffers(q: seq<TouchKey>, r: seq<TouchKey>)
    requires r != []
    ensures RollupSeq(q + r) != RollupSeq(q)
  {
    hide HeightsOf, Elements;
    RollupBounds(q + r);
    if q != [] {
      RollupBounds(q);
    }
  }

  lemma EmptyElements()
    ensures Elements([]) == {} && Distinct([])
  {
  }

  lemma TruncatedAt(db: Db, h: nat, e: Edge)
    ensures At(TruncatedEdges(db, h), e) ==
            if e !in db.addrScids then None
            else if e.scid in Affected(db, h) then Survivor(db, e, h) else Some(db.addrScids[e])
  {
    hide Survivor, Affected;
  }

  lemma EdgeRollback(pre: seq<Event>, post: seq<Event>, h: nat, e: Edge)
    requires SplitAt(pre, post, h)
    ensures At(TruncatedEdges(StoreOf(pre + post), h), e) == At(StoreOf(pre).addrScids, e) <==>
            EdgeCondition(pre, post, e)
  {
    hide TruncatedEdges, Survivor, Affected, TouchesOn, ApplyEvents, RollupSeq, Rollup, Elements, Distinct, Activates;
    hide DistinctDeploys;
    var q, r := TouchesOn(pre, e), TouchesOn(post, e);
    TouchesOnCat(pre, post, e);
    EdgeAt(pre + post, e);
    EdgeAt(pre, e);
    AffectedBy(pre, post, h, e.scid);
    TruncatedAt(StoreOf(pre + post), h, e);
    EmptyElements();
    if q + r == [] {
      assert RollupSeq([]) == None by { RollupNone(); }
    } else if Active(post, e.scid) {
      RecomputedEdge(pre, post, h, e);
      RollupBounds(q + r);
      RollupNone();
      if q != [] {
        RollupAgree(q);
      }
    } else if r == [] {
      assert q + r == q;
    } else {
      LongerDiffers(q, r);
    }
  }

  /** The touch count of an edge, 0 when there is no entry. */
  function CountAt(m: map<Edge, AddrEntry>, e: Edge): nat { if e in m then m[e].count else 0 }

  /** An edge that is not rolled back shows it in its touch count. */
  lemma EdgeCountTells(pre: seq<Event>, post: seq<Event>, h: nat, e: Edge)
    requires SplitAt(pre, post, h)
    ensures CountAt(TruncatedEdges(StoreOf(pre + post), h), e) == CountAt(StoreOf(pre).addrScids, e) <==>
            EdgeCondition(pre, post, e)
  {
    hide TruncatedEdges, Survivor, Affected, TouchesOn, ApplyEvents, RollupSeq, Elements, Distinct, Activates;
    hide DistinctDeploys, HeightsOf;
    var q, r := TouchesOn(pre, e), TouchesOn(post, e);
    TouchesOnCat(pre, post, e);
    EdgeAt(pre + post, e);
    EdgeAt(pre, e);
    AffectedBy(pre, post, h, e.scid);
    TruncatedAt(StoreOf(pre + post), h, e);
    EmptyElements();
    RollupNone();
    DistinctSize(q);
    if q != [] {
      RollupBounds(q);
      assert q[0] in Elements(q) by { ElementIn(q); }
    }
    if q + r == [] {
    } else if Active(post, e.scid) {
      RecomputedEdge(pre, post, h, e);
      RollupBounds(q + r);
    } else {
      RollupBounds(q + r);
    }
  }

  lemma ElementIn(q: seq<TouchKey>)
    requires q != []
    ensures q[0] in Elements(q)
  {
  }

  lemma RollupNone()
    ensures RollupSeq([]) == None && Rollup({}) == None
  {
  }

  // ---------- The theorem ----------

  /** The first h blocks, or all of them. */
  function UpTo(bs: seq<Block>, h: nat): seq<Block> {
    if h <= |bs| then bs[..h] else bs
  }

  /** The events of the blocks above h. */
  function EventsAbove(bs: seq<Block>, h: nat): seq<Event> {
    if |bs| <= h then [] else EventsAbove(bs[..|bs| - 1], h) + BlockEvents(bs[|bs| - 1], |bs|)
  }

  lemma {:induction false} EventsSplit(bs: seq<Block>, h: nat)
    ensures EventsOf(bs) == EventsOf(UpTo(bs, h)) + EventsAbove(bs, h)
    ensures forall ev <- EventsAbove(bs, h) :: ev.height > h
  {
    hide BlockEvents;
    if |bs| <= h {
      assert UpTo(bs, h) == bs;
    } else {
      var init := bs[..|bs| - 1];
      assert UpTo(init, h) == UpTo(bs, h);
      EventsSplit(init, h);
      BlockHeights(bs[|bs| - 1], |bs|);
    }
  }

  lemma BlockHeights(b: Block, h: nat)
    ensures forall ev <- BlockEvents(b, h) :: ev.height == h
  {
  }

  lemma SplitBlocks(bs: seq<Block>, h: nat)
    requires DistinctDeploys(EventsOf(bs))
    ensures EventsOf(bs) == EventsOf(UpTo(bs, h)) + EventsAbove(bs, h)
    ensures SplitAt(EventsOf(UpTo(bs, h)), EventsAbove(bs, h), h)
  {
    hide EventsOf, DistinctDeploys, EventsAbove;
    EventsSplit(bs, h);
    EventHeights(UpTo(bs, h));
  }

  /** Equality of two stores on every bucket that truncation promises to restore. */
  ghost predicate SameIndex(a: Db, b: Db) {
    && SamePrimaries(a, b)
    && a.latest == b.latest && a.classRows == b.classRows && ScidCount(a) == ScidCount(b)
    && LastIndexHeight(a) == LastIndexHeight(b)
    && a.addrScids == b.addrScids
  }

  /** Every ring touch above h is of a scid that a block above h also deploys, invokes or snapshots. */
  ghost predicate RingCovered(bs: seq<Block>, h: nat) {
    forall ev <- EventsAbove(bs, h) :: ev.tx.RingTx? && ev.tx.addr != "" ==> Active(EventsAbove(bs, h), ev.tx.scid)
  }

  /** No scid touched above h has a touch record repeated at or below h. */
  ghost predicate NoCoalescedTouch(bs: seq<Block>, h: nat) {
    forall e: Edge :: Active(EventsAbove(bs, h), e.scid) ==> Distinct(TouchesOn(EventsOf(UpTo(bs, h)), e))
  }

  /** Distinct deploys, a class name for each, and no snapshot of the empty scid. */
  ghost predicate GoodHistory(bs: seq<Block>) {
    var es := EventsOf(bs);
    DistinctDeploys(es) && NamedEvents(es) && (forall ev <- es :: ev.tx.SnapshotTx? ==> ev.tx.scid != "")
  }

  lemma EdgesRollBack(pre: seq<Event>, post: seq<Event>, h: nat)
    requires SplitAt(pre, post, h)
    ensures TruncatedEdges(StoreOf(pre + post), h) == StoreOf(pre).addrScids
            <==> forall e: Edge :: EdgeCondition(pre, post, e)
  {
    hide TruncatedEdges, EdgeCondition, ApplyEvents, DistinctDeploys;
    var a, b := TruncatedEdges(StoreOf(pre + post), h), StoreOf(pre).addrScids;
    forall e: Edge ensures At(a, e) == At(b, e) <==> EdgeCondition(pre, post, e) {
      EdgeRollback(pre, post, h, e);
    }
    if forall e: Edge :: EdgeCondition(pre, post, e) {
      assert forall e: Edge :: At(a, e) == At(b, e);
      forall e: Edge ensures (e in a <==> e in b) && (e in a ==> a[e] == b[e]) {
        assert At(a, e) == At(b, e);
      }
    }
  }

  /** An invoke or deploy above h activates its scid, so only ring touches can be uncovered. */
  lemma ConditionMeansCovered(pre: seq<Event>, post: seq<Event>)
    requires forall ev <- post :: ev.tx.DeployTx? ==> ev.tx.scid != ""
    ensures (forall e: Edge :: EdgeCondition(pre, post, e)) <==>
            && (forall ev <- post :: ev.tx.RingTx? && ev.tx.addr != "" ==> Active(post, ev.tx.scid))
            && (forall e: Edge :: Active(post, e.scid) ==> Distinct(TouchesOn(pre, e)))
  {
    hide TouchesOn, Distinct, TouchOf;
    if forall e: Edge :: EdgeCondition(pre, post, e) {
      forall ev | ev in post && ev.tx.RingTx? && ev.tx.addr != "" ensures Active(post, ev.tx.scid) {
        RingTouches(ev);
        TouchInto(post, ev, TouchOf(ev).value);
        assert EdgeCondition(pre, post, TouchOf(ev).value.OnEdge());
      }
      forall e: Edge | Active(post, e.scid) ensures Distinct(TouchesOn(pre, e)) {
        assert EdgeCondition(pre, post, e);
      }
    } else {
      var e: Edge :| !EdgeCondition(pre, post, e);
      if !Active(post, e.scid) {
        var t := TouchesOn(post, e)[0];
        TouchFrom(post, e, t);
        var ev :| ev in post && TouchOf(ev) == Some(t);
        TouchKind(ev);
      }
    }
  }

  lemma RingTouches(ev: Event)
    requires ev.tx.RingTx? && ev.tx.addr != ""
    ensures TouchOf(ev).Some? && TouchOf(ev).value.OnEdge() == Edge(ev.tx.addr, ev.tx.scid)
  {
  }

  lemma TouchKind(ev: Event)
    requires TouchOf(ev).Some? && (ev.tx.DeployTx? ==> ev.tx.scid != "")
    ensures TouchOf(ev).value.OnEdge().scid == ev.tx.scid
    ensures (ev.tx.RingTx? && ev.tx.addr != "") || Activates(ev, ev.tx.scid)
  {
  }

  lemma {:induction false} LastOf(bs: seq<Block>)
    ensures StoreOf(EventsOf(bs)).last == if bs == [] then None else Some(|bs|)
  {
    if bs != [] {
      var init := EventsOf(bs[..|bs| - 1]);
      var es := EventsOf(bs);
      assert es[..|es| - 1] == init + BlockEvents(bs[|bs| - 1], |bs|)[..|bs[|bs| - 1].txs|];
    }
  }

  lemma {:induction false} StoreDerived(es: seq<Event>)
    requires NamedEvents(es) && Positive(es)
    requires forall ev <- es :: ev.tx.SnapshotTx? ==> ev.tx.scid != ""
    ensures DerivedAgree(StoreOf(es))
  {
    hide DerivedAgree, Flush, Build, EventCalls, ApplyEvents, WellIndexed;
    EventCallsGood(es);
    EventSnapshots(es);
    FlushIsRun(EMPTY_DB, EventCalls(es));
    RunOfEvents(EMPTY_DB, es);
    EmptyIsReset();
    ResetKeepsDerived(EMPTY_DB);
    BuildWellIndexed(EventCalls(es));
    FlushKeepsDerived(EMPTY_DB, Build(EventCalls(es)));
  }

  lemma {:induction false} EventSnapshots(es: seq<Event>)
    requires forall ev <- es :: ev.tx.SnapshotTx? ==> ev.tx.scid != ""
    ensures SnapshotsNamed(EventCalls(es))
  {
    hide CallsOf;
    if es != [] {
      EventSnapshots(es[..|es| - 1]);
      CallSnapshots(es[|es| - 1]);
    }
  }

  lemma CallSnapshots(ev: Event)
    requires ev.tx.SnapshotTx? ==> ev.tx.scid != ""
    ensures SnapshotsNamed(CallsOf(ev))
  {
  }

  lemma GoodPrefix(bs: seq<Block>, h: nat)
    requires GoodHistory(bs)
    ensures GoodHistory(UpTo(bs, h))
  {
    hide EventsOf, EventsAbove;
    EventsSplit(bs, h);
    var pre, post := EventsOf(UpTo(bs, h)), EventsAbove(bs, h);
    assert forall i | 0 <= i < |pre| :: pre[i] == (pre + post)[i];
    assert forall ev <- pre :: ev in pre + post;
  }

  lemma GoodIndex(bs: seq<Block>)
    requires GoodHistory(bs)
    ensures IndexOf(bs) == StoreOf(EventsOf(bs)) && DerivedAgree(IndexOf(bs))
  {
    hide EventsOf, DerivedAgree, ApplyEvents, Flush, DistinctDeploys;
    IndexOfIsEvents(bs);
    EventHeights(bs);
    StoreDerived(EventsOf(bs));
  }

  /** Whatever the history, every bucket but addr_scids (and the height row) is rolled back exactly. */
  lemma RollbackAllButEdges(bs: seq<Block>, h: nat)
    requires GoodHistory(bs)
    ensures var back, kept := Truncate(IndexOf(bs), h), IndexOf(UpTo(bs, h));
            && SamePrimaries(back, kept) && back.latest == kept.latest && back.classRows == kept.classRows
            && ScidCount(back) == ScidCount(kept)
  {
    hide IndexOf, EventsOf, EventsAbove, DerivedAgree, Truncate, ApplyEvents, DistinctDeploys, Within, GoodHistory;
    var pre, post := EventsOf(UpTo(bs, h)), EventsAbove(bs, h);
    GoodPrefix(bs, h);
    GoodIndex(bs);
    GoodIndex(UpTo(bs, h));
    assert DistinctDeploys(EventsOf(bs)) by { GoodIsDistinct(bs); }
    SplitBlocks(bs, h);
    TruncateSkips(pre, post, h);
    StoreWithin(pre, h);
    TruncateWithin(StoreOf(pre), h);
    TruncateKeepsDerived(IndexOf(bs), h);
    DerivedDetermined(Truncate(IndexOf(bs), h), IndexOf(UpTo(bs, h)));
  }

  lemma GoodIsDistinct(bs: seq<Block>)
    requires GoodHistory(bs)
    ensures DistinctDeploys(EventsOf(bs))
  {
  }

  lemma LastRollsBack(bs: seq<Block>, h: nat)
    requires GoodHistory(bs)
    ensures LastIndexHeight(Truncate(IndexOf(bs), h)) == LastIndexHeight(IndexOf(UpTo(bs, h))) <==>
            (bs == [] ==> h == 0)
  {
    hide IndexOf, EventsOf, DerivedAgree, TruncatedEdges, TruncatedLatest, InstalledAbove, Affected, ApplyEvents;
    hide GoodHistory;
    GoodPrefix(bs, h);
    GoodIndex(bs);
    GoodIndex(UpTo(bs, h));
    LastOf(bs);
    LastOf(UpTo(bs, h));
  }

  /** Truncation leaves the stored height alone or lowers it, unless there is no such row and h is above 0. */
  lemma LastRisesOnlyFromNone(db: Db, h: nat)
    ensures LastIndexHeight(Truncate(db, h)) <= LastIndexHeight(db) <==> db.last.Some? || h == 0
  {
    hide TruncatedEdges, TruncatedLatest, InstalledAbove, Affected;
  }

  lemma EdgesRollBackBlocks(bs: seq<Block>, h: nat)
    requires GoodHistory(bs)
    ensures Truncate(IndexOf(bs), h).addrScids == IndexOf(UpTo(bs, h)).addrScids
            <==> RingCovered(bs, h) && NoCoalescedTouch(bs, h)
  {
    hide IndexOf, EventsOf, EventsAbove, DerivedAgree, TruncatedEdges, TruncatedLatest, ApplyEvents, InstalledAbove;
    hide Affected;
    hide EdgeCondition, TouchesOn, Distinct, Active;
    var pre, post := EventsOf(UpTo(bs, h)), EventsAbove(bs, h);
    GoodPrefix(bs, h);
    GoodIndex(bs);
    GoodIndex(UpTo(bs, h));
    SplitBlocks(bs, h);
    EdgesRollBack(pre, post, h);
    assert forall ev <- post :: ev in pre + post;
    ConditionMeansCovered(pre, post);
  }

  /** When a condition fails, some edge's touch count comes out wrong. */
  lemma WrongCount(bs: seq<Block>, h: nat)
    requires GoodHistory(bs) && !(RingCovered(bs, h) && NoCoalescedTouch(bs, h))
    ensures exists e: Edge :: CountAt(Truncate(IndexOf(bs), h).addrScids, e) !=
                             CountAt(IndexOf(UpTo(bs, h)).addrScids, e)
  {
    hide IndexOf, EventsOf, EventsAbove, DerivedAgree, TruncatedEdges, TruncatedLatest, ApplyEvents, InstalledAbove;
    hide Affected;
    hide EdgeCondition, TouchesOn, Distinct, Active;
    var pre, post := EventsOf(UpTo(bs, h)), EventsAbove(bs, h);
    GoodPrefix(bs, h);
    GoodIndex(bs);
    GoodIndex(UpTo(bs, h));
    SplitBlocks(bs, h);
    assert forall ev <- post :: ev in pre + post;
    ConditionMeansCovered(pre, post);
    var e: Edge :| !EdgeCondition(pre, post, e);
    EdgeCountTells(pre, post, h, e);
  }

  /** What a caller can check before truncating: both touch conditions, and a height row to lower. */
  ghost predicate RollsBack(bs: seq<Block>, h: nat) {
    RingCovered(bs, h) && NoCoalescedTouch(bs, h) && (bs == [] ==> h == 0)
  }

  lemma RollbackOfIndex(bs: seq<Block>, h: nat)
    requires GoodHistory(bs)
    ensures SameIndex(Truncate(IndexOf(bs), h), IndexOf(UpTo(bs, h))) <==> RollsBack(bs, h)
  {
    hide IndexOf, Truncate, RingCovered, NoCoalescedTouch, GoodHistory, SamePrimaries, LastIndexHeight, ScidCount;
    RollbackAllButEdges(bs, h);
    LastRollsBack(bs, h);
    EdgesRollBackBlocks(bs, h);
  }

  /**
   Flushing a history in any batches and truncating to h equals flushing only its blocks
   up to h, in any batches, if and only if RollsBack holds. A negative h means 0.
   */
  lemma RollbackEqualsNeverIndexing(bs: seq<Block>, h: int, batches: seq<seq<Call>>, kept: seq<seq<Call>>)
    requires GoodHistory(bs)
    requires Concat(batches) == BlockCalls(bs) && Concat(kept) == BlockCalls(UpTo(bs, Clamp(h)))
    ensures SameIndex(Exec(FlushAll(EMPTY_DB, batches), TruncateOp(h)), FlushAll(EMPTY_DB, kept))
            <==> RollsBack(bs, Clamp(h))
  {
    hide SameIndex, Flush, Truncate, Build, RollsBack, GoodHistory, EventsOf, EventCalls;
    GoodPrefix(bs, Clamp(h));
    AnyBatching(bs, batches);
    AnyBatching(UpTo(bs, Clamp(h)), kept);
    RollbackOfIndex(bs, Clamp(h));
  }

  lemma AnyBatching(bs: seq<Block>, batches: seq<seq<Call>>)
    requires GoodHistory(bs) && Concat(batches) == BlockCalls(bs)
    ensures FlushAll(EMPTY_DB, batches) == IndexOf(bs)
  {
    hide Flush, Build, EventsOf, EventCalls, DistinctDeploys;
    EventHeights(bs);
    EventCallsGood(EventsOf(bs));
    FlushAllIsOneFlush(EMPTY_DB, batches);
  }

  // ---------- The conditions are needed ----------

  lemma FirstBlockEvents(b: Block)
    ensures EventsOf([b]) == BlockEvents(b, 1) && EventsAbove([b], 0) == BlockEvents(b, 1)
  {
    assert [b][..0] == [];
  }

  /** A ring touch alone above h: its edge survives truncation, its normal-tx row does not. */
  lemma UncoveredTouchSurvives(a: Addr, s: Scid, txid: string, hash: Hash)
    requires a != ""
    ensures var bs := [Block(hash, [RingTx(a, txid, s, 0)])];
            GoodHistory(bs) && !SameIndex(Truncate(IndexOf(bs), 0), IndexOf(UpTo(bs, 0)))
  {
    hide SameIndex, Truncate, IndexOf, EventsOf, EventsAbove, UpTo, NoCoalescedTouch;
    var b := Block(hash, [RingTx(a, txid, s, 0)]);
    FirstBlockEvents(b);
    var es := BlockEvents(b, 1);
    assert es == [Event(1, RingTx(a, txid, s, 0)), Event(1, SealTx(hash))];
    assert es[0].tx.RingTx? && !Active(es, s);
    RollbackOfIndex([b], 0);
  }

  /** One ring record counted twice (two payloads of one asset) is recomputed as a single touch. */
  lemma RepeatedTouchIsRecounted(a: Addr, s: Scid, txid: string)
    requires a != "" && s != ""
    ensures var ring := RingTx(a, txid, s, 0);
            var bs := [Block("", [ring, ring]), Block("", [InvokeTx(s, "", txid, "", 0)])];
            GoodHistory(bs) && !SameIndex(Truncate(IndexOf(bs), 1), IndexOf(UpTo(bs, 1)))
  {
    hide SameIndex, Truncate, IndexOf, EventsOf, EventsAbove, TouchesOn, RingCovered;
    var ring := RingTx(a, txid, s, 0);
    var first, second := Block("", [ring, ring]), Block("", [InvokeTx(s, "", txid, "", 0)]);
    var bs := [first, second];
    assert bs[..1] == [first];
    FirstBlockEvents(first);
    SecondBlockEvents(first, second);
    var pre, post := BlockEvents(first, 1), BlockEvents(second, 2);
    assert pre == [Event(1, ring), Event(1, ring), Event(1, SealTx(""))];
    assert post == [Event(2, second.txs[0]), Event(2, SealTx(""))];
    assert Activates(post[0], s) && post[0] in post;
    RepeatedTouches(Event(1, ring), Event(1, SealTx("")));
    assert Active(EventsAbove(bs, 1), s) && !Distinct(TouchesOn(EventsOf(UpTo(bs, 1)), Edge(a, s)));
    RollbackOfIndex(bs, 1);
  }

  lemma SecondBlockEvents(a: Block, b: Block)
    ensures EventsOf([a, b]) == BlockEvents(a, 1) + BlockEvents(b, 2)
    ensures EventsAbove([a, b], 1) == BlockEvents(b, 2)
  {
    hide BlockEvents;
    FirstBlockEvents(a);
    assert [a, b][..1] == [a];
  }

  lemma RepeatedTouches(ring: Event, seal: Event)
    requires TouchOf(ring).Some? && TouchOf(seal).None?
    ensures !Distinct(TouchesOn([ring, ring, seal], TouchOf(ring).value.OnEdge()))
  {
    hide TouchOf;
    var e, t := TouchOf(ring).value.OnEdge(), TouchOf(ring).value;
    assert [ring, ring, seal][..2] == [ring, ring] && [ring, ring][..1] == [ring] && [ring][..0] == [];
    assert TouchesOn([ring], e) == [t];
    assert TouchesOn([ring, ring], e) == [t, t];
    assert TouchesOn([ring, ring, seal], e)[0] == TouchesOn([ring, ring, seal], e)[1];
  }
}
