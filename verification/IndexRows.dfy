/**
 The rows of the index, written out from the events of a chain (indexer/indexer.go:975-1058 with storage/bbolt.go):
 for every bucket which rows there are and what each holds, in terms of the events alone.
 */
module IndexRows {
  import opened IndexTypes
  import opened WriteBatches
  import opened IndexDb
  import opened BatchBoundary
  import opened TurboHistory
  import opened Rollback

  /** Block b of a chain contributes its transactions and its seal, at height b + 1. */
  lemma {:induction false} ChainEvents(bs: seq<Block>, ev: Event)
    ensures ev in EventsOf(bs) <==>
            exists b :: 0 <= b < |bs| && ev.height == b + 1 && (ev.tx in bs[b].txs || ev.tx == SealTx(bs[b].hash))
  {
    if bs != [] {
      var init, last := bs[..|bs| - 1], bs[|bs| - 1];
      ChainEvents(init, ev);
      InBlock(last, |bs|, ev);
      hide BlockEvents;
      assert forall b | 0 <= b < |init| :: bs[b] == init[b];
    }
  }

  lemma InBlock(b: Block, h: nat, ev: Event)
    ensures ev in BlockEvents(b, h) <==> ev.height == h && (ev.tx in b.txs || ev.tx == SealTx(b.hash))
  {
    var q := seq(|b.txs|, i requires 0 <= i < |b.txs| => Event(h, b.txs[i]));
    if ev.height == h && ev.tx in b.txs {
      var i :| 0 <= i < |b.txs| && b.txs[i] == ev.tx;
      assert q[i] == ev;
    }
    assert BlockEvents(b, h) == q + [Event(h, SealTx(b.hash))];
  }

  /** The last event of a run writes bucket by bucket. */
  lemma LastEvent(es: seq<Event>)
    requires es != []
    ensures var db, now, ev := StoreOf(es[..|es| - 1]), StoreOf(es), es[|es| - 1];
            && now.owners == OwnersAfter(db.owners, ev) && now.invokes == InvokesAfter(db.invokes, ev)
            && now.scvars == ScvarsAfter(db.scvars, ev) && now.latest == LatestAfter(db.latest, ev)
            && now.heights == HeightsAfter(db.heights, ev) && now.normTxs == NormsAfter(db.normTxs, ev)
            && now.last == LastAfter(db.last, ev) && now.blockHashes == HashesAfter(db.blockHashes, ev)
            && now.installs == InstallsAfter(db.installs, ev) && now.classIdx == ClassIdxAfter(db.classIdx, ev)
            && now.scCodes == CodesAfter(db.scCodes, ev) && now.ownerScids == OwnerEdgesAfter(db.ownerScids, ev)
            && now.addrScids == EdgesAfter(db.addrScids, ev)
  {
    hide OwnersAfter, InvokesAfter, ScvarsAfter, LatestAfter, HeightsAfter, NormsAfter, CountAfter, LastAfter;
    hide HashesAfter, InstallsAfter, ClassIdxAfter, ClassRowsAfter, CodesAfter, OwnerEdgesAfter, EdgesAfter;
  }

  lemma NoEvents()
    ensures StoreOf([]) == EMPTY_DB
  {
  }

  // ---------- Invocations ----------

  /** The event is the invocation the key names; a deploy invokes under its scid as txid. */
  predicate Invokes(ev: Event, k: InvokeKey) {
    && k.scid != "" && ev.height == k.height
    && ((ev.tx.InvokeTx? && ev.tx.scid == k.scid && ev.tx.sender == k.sender && ev.tx.txid == k.txid
         && ev.tx.entrypoint == k.entrypoint) ||
        (ev.tx.DeployTx? && ev.tx.scid == k.scid && ev.tx.sender == k.sender && k.txid == k.scid
         && ev.tx.entrypoint == k.entrypoint))
  }

  lemma {:induction false} InvocationKept(es: seq<Event>, i: nat, k: InvokeKey)
    requires i < |es| && Invokes(es[i], k) && forall j | i < j < |es| :: !Invokes(es[j], k)
    ensures k in StoreOf(es).invokes
    ensures var tx := es[i].tx;
            StoreOf(es).invokes[k] ==
            Invocation(k.scid, k.sender, k.entrypoint, k.height,
                       ScTx(k.txid, k.scid, k.entrypoint, k.sender, tx.DeployTx?, tx.fees, k.height, ""))
  {
    hide StoreOf;
    LastEvent(es);
    if i < |es| - 1 {
      InvocationKept(es[..|es| - 1], i, k);
    }
  }

  /** The last invoke under a key leaves its record there, every field of it. */
  lemma InvokeRow(es: seq<Event>, i: nat, s: Scid, a: Addr, txid: string, ep: string, fees: nat)
    requires i < |es| && es[i].tx == InvokeTx(s, a, txid, ep, fees) && s != ""
    requires forall j | i < j < |es| :: !Invokes(es[j], InvokeKey(s, a, txid, es[i].height, ep))
    ensures var h := es[i].height; var k, rows := InvokeKey(s, a, txid, h, ep), StoreOf(es).invokes;
            k in rows && rows[k] == Invocation(s, a, ep, h, ScTx(txid, s, ep, a, false, fees, h, ""))
  {
    InvocationKept(es, i, InvokeKey(s, a, txid, es[i].height, ep));
    hide StoreOf;
  }

  /** A deploy leaves its record under its own scid as txid. */
  lemma DeployInvocationRow(es: seq<Event>, i: nat, s: Scid, a: Addr, ep: string, fees: nat)
    requires i < |es| && es[i].tx.DeployTx? && s != ""
    requires es[i].tx.scid == s && es[i].tx.sender == a && es[i].tx.entrypoint == ep && es[i].tx.fees == fees
    requires forall j | i < j < |es| :: !Invokes(es[j], InvokeKey(s, a, s, es[i].height, ep))
    ensures var h := es[i].height; var k, rows := InvokeKey(s, a, s, h, ep), StoreOf(es).invokes;
            k in rows && rows[k] == Invocation(s, a, ep, h, ScTx(s, s, ep, a, true, fees, h, ""))
  {
    InvocationKept(es, i, InvokeKey(s, a, s, es[i].height, ep));
    hide StoreOf;
  }

  /** There is no other invocation row. */
  lemma {:induction false} InvocationRowsAreEvents(es: seq<Event>, k: InvokeKey)
    ensures k in StoreOf(es).invokes <==> exists i :: 0 <= i < |es| && Invokes(es[i], k)
  {
    hide StoreOf;
    if es == [] {
      NoEvents();
    } else {
      var init := es[..|es| - 1];
      InvocationRowsAreEvents(init, k);
      LastEvent(es);
      assert forall i | 0 <= i < |init| :: init[i] == es[i];
      assert k in InvokesAfter(StoreOf(init).invokes, es[|es| - 1]) <==>
             k in StoreOf(init).invokes || Invokes(es[|es| - 1], k);
      hide InvokesAfter, Invokes;
    }
  }

  /** The same for the index of a chain, whatever batches it was flushed in. */
  lemma InvocationOfChain(bs: seq<Block>, i: nat, k: InvokeKey)
    requires NamedEvents(EventsOf(bs)) && i < |EventsOf(bs)| && Invokes(EventsOf(bs)[i], k)
    requires forall j | i < j < |EventsOf(bs)| :: !Invokes(EventsOf(bs)[j], k)
    ensures k in IndexOf(bs).invokes
    ensures var tx := EventsOf(bs)[i].tx;
            IndexOf(bs).invokes[k] ==
            Invocation(k.scid, k.sender, k.entrypoint, k.height,
                       ScTx(k.txid, k.scid, k.entrypoint, k.sender, tx.DeployTx?, tx.fees, k.height, ""))
  {
    IndexOfIsEvents(bs);
    assert IndexOf(bs) == StoreOf(EventsOf(bs)) by { hide IndexOf, EventsOf, ApplyEvents; }
    hide *;
    InvocationKept(EventsOf(bs), i, k);
  }

  lemma InvocationsOfChain(bs: seq<Block>, k: InvokeKey)
    requires NamedEvents(EventsOf(bs))
    ensures k in IndexOf(bs).invokes <==> exists i :: 0 <= i < |EventsOf(bs)| && Invokes(EventsOf(bs)[i], k)
  {
    IndexOfIsEvents(bs);
    assert IndexOf(bs) == StoreOf(EventsOf(bs)) by { hide IndexOf, EventsOf, ApplyEvents; }
    hide *;
    InvocationRowsAreEvents(EventsOf(bs), k);
  }

  // ---------- What a deploy leaves ----------

  predicate Deploys(ev: Event, s: Scid) { ev.tx.DeployTx? && ev.tx.scid == s }

  /** The last deploy of a contract decides its owner, class record, install and code. */
  lemma {:induction false} DeployRows(es: seq<Event>, i: nat, s: Scid)
    requires i < |es| && Deploys(es[i], s) && forall j | i < j < |es| :: !Deploys(es[j], s)
    ensures var db, tx, h := StoreOf(es), es[i].tx, es[i].height;
            && s in db.owners && db.owners[s] == tx.sender
            && s in db.classIdx && db.classIdx[s] == ClassMeta(tx.className, h, h, tx.columns)
            && ScidHeight(s, h) in db.installs
            && db.installs[ScidHeight(s, h)] == InstallRecord(tx.sender, tx.entrypoint, tx.fees)
            && (s != "" && tx.code != "" ==> s in db.scCodes && db.scCodes[s] == CodeEntry(tx.code, h))
  {
    hide StoreOf;
    LastEvent(es);
    if i < |es| - 1 {
      DeployRows(es[..|es| - 1], i, s);
    }
  }

  /** No contract has such rows without being deployed; owner edges keep every deploy with a named owner. */
  lemma {:induction false} DeployRowsOnly(es: seq<Event>, s: Scid, h: nat, a: Addr)
    ensures var db := StoreOf(es);
            && (s in db.owners <==> exists i :: 0 <= i < |es| && Deploys(es[i], s))
            && (s in db.classIdx <==> exists i :: 0 <= i < |es| && Deploys(es[i], s))
            && (ScidHeight(s, h) in db.installs <==>
                  exists i :: 0 <= i < |es| && Deploys(es[i], s) && es[i].height == h)
            && (s in db.scCodes <==> exists i :: 0 <= i < |es| && Deploys(es[i], s) && s != "" && es[i].tx.code != "")
            && (OwnerEdge(a, s) in db.ownerScids <==>
                  exists i :: 0 <= i < |es| && Deploys(es[i], s) && es[i].tx.sender == a && a != "" && s != "")
  {
    hide StoreOf;
    if es == [] {
      NoEvents();
    } else {
      var init, ev := es[..|es| - 1], es[|es| - 1];
      DeployRowsOnly(init, s, h, a);
      LastEvent(es);
      assert forall i | 0 <= i < |init| :: init[i] == es[i];
      DeployStep(StoreOf(init), ev, s, h, a);
      hide OwnersAfter, ClassIdxAfter, InstallsAfter, CodesAfter, OwnerEdgesAfter, Deploys;
    }
  }

  lemma DeployStep(db: Db, ev: Event, s: Scid, h: nat, a: Addr)
    ensures s in OwnersAfter(db.owners, ev) <==> s in db.owners || Deploys(ev, s)
    ensures s in ClassIdxAfter(db.classIdx, ev) <==> s in db.classIdx || Deploys(ev, s)
    ensures ScidHeight(s, h) in InstallsAfter(db.installs, ev) <==>
            ScidHeight(s, h) in db.installs || (Deploys(ev, s) && ev.height == h)
    ensures s in CodesAfter(db.scCodes, ev) <==>
            s in db.scCodes || (Deploys(ev, s) && s != "" && ev.tx.code != "")
    ensures OwnerEdge(a, s) in OwnerEdgesAfter(db.ownerScids, ev) <==>
            OwnerEdge(a, s) in db.ownerScids || (Deploys(ev, s) && ev.tx.sender == a && a != "" && s != "")
  {
  }

  // ---------- Snapshots and ring records ----------

  predicate Snapshots(ev: Event, s: Scid) { ev.tx.SnapshotTx? && ev.tx.scid == s }

  /** The last snapshot of a contract at a height is the one stored there. */
  lemma {:induction false} SnapshotRow(es: seq<Event>, i: nat, s: Scid)
    requires i < |es| && Snapshots(es[i], s)
    requires forall j | i < j < |es| :: !(Snapshots(es[j], s) && es[j].height == es[i].height)
    ensures var k := ScidHeight(s, es[i].height);
            k in StoreOf(es).scvars && StoreOf(es).scvars[k] == es[i].tx.vars
  {
    hide StoreOf;
    LastEvent(es);
    if i < |es| - 1 {
      SnapshotRow(es[..|es| - 1], i, s);
    }
  }

  /** No other snapshot is stored, and the pointer is the greatest positive snapshot height. */
  lemma {:induction false} SnapshotRowsOnly(es: seq<Event>, s: Scid, h: nat)
    ensures var db := StoreOf(es);
            && (ScidHeight(s, h) in db.scvars <==>
                  exists i :: 0 <= i < |es| && Snapshots(es[i], s) && es[i].height == h)
            && (s in db.latest <==> s != "" && exists i :: 0 <= i < |es| && Snapshots(es[i], s) && es[i].height > 0)
            && (s in db.latest ==>
                  && (exists i :: 0 <= i < |es| && Snapshots(es[i], s) && es[i].height == db.latest[s])
                  && forall i | 0 <= i < |es| && Snapshots(es[i], s) :: es[i].height <= db.latest[s])
  {
    hide StoreOf;
    if es == [] {
      NoEvents();
    } else {
      var init, ev := es[..|es| - 1], es[|es| - 1];
      SnapshotRowsOnly(init, s, h);
      LastEvent(es);
      assert forall i | 0 <= i < |init| :: init[i] == es[i];
      SnapshotStep(StoreOf(init), ev, s, h);
      hide ScvarsAfter, LatestAfter;
    }
  }

  lemma SnapshotStep(db: Db, ev: Event, s: Scid, h: nat)
    ensures ScidHeight(s, h) in ScvarsAfter(db.scvars, ev) <==>
            ScidHeight(s, h) in db.scvars || (Snapshots(ev, s) && ev.height == h)
    ensures var now := LatestAfter(db.latest, ev);
            if Snapshots(ev, s) && s != "" && ev.height > 0
            then s in now && now[s] == if s in db.latest && db.latest[s] > ev.height then db.latest[s] else ev.height
            else (s in now <==> s in db.latest) && (s in now ==> now[s] == db.latest[s])
  {
    if ev.tx.SnapshotTx? {
      var k := ScidHeight(ev.tx.scid, ev.height);
      assert SnapshotHeights({k}, s) == if ev.tx.scid == s then {ev.height} else {};
    }
  }

  predicate Rings(ev: Event, k: NormKey) {
    && ev.tx.RingTx? && ev.height == k.height && ev.tx.addr == k.addr && ev.tx.txid == k.txid && ev.tx.scid == k.scid
  }

  /** The last ring membership under a key leaves its record there. */
  lemma {:induction false} RingRow(es: seq<Event>, i: nat, k: NormKey)
    requires i < |es| && Rings(es[i], k) && forall j | i < j < |es| :: !Rings(es[j], k)
    ensures k in StoreOf(es).normTxs
    ensures StoreOf(es).normTxs[k] == NormalTx(k.txid, k.scid, es[i].tx.fees, k.height)
  {
    hide StoreOf;
    LastEvent(es);
    if i < |es| - 1 {
      RingRow(es[..|es| - 1], i, k);
    }
  }

  lemma {:induction false} RingRowsOnly(es: seq<Event>, k: NormKey)
    ensures k in StoreOf(es).normTxs <==> exists i :: 0 <= i < |es| && Rings(es[i], k)
  {
    hide StoreOf;
    if es == [] {
      NoEvents();
    } else {
      var init := es[..|es| - 1];
      RingRowsOnly(init, k);
      LastEvent(es);
      assert forall i | 0 <= i < |init| :: init[i] == es[i];
      assert k in NormsAfter(StoreOf(init).normTxs, es[|es| - 1]) <==>
             k in StoreOf(init).normTxs || Rings(es[|es| - 1], k);
      hide NormsAfter, Rings;
    }
  }

  // ---------- Counted rows ----------

  /** A deploy or an invoke of the contract at the height; an invoke without a scid is dropped. */
  predicate Interaction(ev: Event, k: ScidHeight) {
    && ev.height == k.height
    && ((ev.tx.DeployTx? && ev.tx.scid == k.scid) || (ev.tx.InvokeTx? && ev.tx.scid == k.scid && k.scid != ""))
  }

  ghost function InteractionsAt(es: seq<Event>, k: ScidHeight): set<nat> {
    set i: nat | i < |es| && Interaction(es[i], k)
  }

  lemma BumpRow(m: map<ScidHeight, nat>, ev: Event, k: ScidHeight)
    ensures var now := HeightsAfter(m, ev);
            && (k in now <==> k in m || Interaction(ev, k))
            && (k in now ==> now[k] == (if k in m then m[k] else 0) + (if Interaction(ev, k) then 1 else 0))
  {
  }

  lemma InteractionsMore(es: seq<Event>, k: ScidHeight)
    requires es != []
    ensures var n := |es| - 1; var init := InteractionsAt(es[..n], k);
            InteractionsAt(es, k) == (if Interaction(es[n], k) then init + {n} else init) && n !in init
  {
    assert forall i: nat | i < |es| - 1 :: es[..|es| - 1][i] == es[i];
    hide Interaction;
  }

  /** A height row counts the interactions at its height, one each. */
  lemma {:induction false} InteractionRow(es: seq<Event>, k: ScidHeight)
    ensures k in StoreOf(es).heights <==> InteractionsAt(es, k) != {}
    ensures k in StoreOf(es).heights ==> StoreOf(es).heights[k] == |InteractionsAt(es, k)|
  {
    hide StoreOf;
    if es == [] {
      NoEvents();
    } else {
      InteractionRow(es[..|es| - 1], k);
      LastEvent(es);
      InteractionsMore(es, k);
      BumpRow(StoreOf(es[..|es| - 1]).heights, es[|es| - 1], k);
      hide *;
    }
  }

  /** The event names the address on the contract: a sender of a deploy or invoke, or a ring member. */
  predicate Touches(ev: Event, e: Edge) {
    && e.addr != ""
    && ((ev.tx.DeployTx? && ev.tx.sender == e.addr && ev.tx.scid == e.scid) ||
        (ev.tx.InvokeTx? && ev.tx.sender == e.addr && ev.tx.scid == e.scid && e.scid != "") ||
        (ev.tx.RingTx? && ev.tx.addr == e.addr && ev.tx.scid == e.scid))
  }

  ghost function TouchesAt(es: seq<Event>, e: Edge): set<nat> {
    set i: nat | i < |es| && Touches(es[i], e)
  }

  lemma TouchesMore(es: seq<Event>, e: Edge)
    requires es != []
    ensures var n := |es| - 1; var init := TouchesAt(es[..n], e);
            TouchesAt(es, e) == (if Touches(es[n], e) then init + {n} else init) && n !in init
  {
    assert forall i: nat | i < |es| - 1 :: es[..|es| - 1][i] == es[i];
    hide Touches;
  }

  lemma TouchStep(m: map<Edge, AddrEntry>, ev: Event, e: Edge)
    ensures var now := EdgesAfter(m, ev);
            && (e in now <==> e in m || Touches(ev, e))
            && (e in now && !Touches(ev, e) ==> now[e] == m[e])
            && (Touches(ev, e) && e !in m ==> now[e] == AddrEntry(ev.height, ev.height, 1))
            && (Touches(ev, e) && e in m ==>
                  now[e] == AddrEntry(if ev.height < m[e].first then ev.height else m[e].first,
                                      if ev.height > m[e].last then ev.height else m[e].last, m[e].count + 1))
  {
  }

  /** The heights of an entry bound those of its touches and are met by some. */
  ghost predicate Spans(es: seq<Event>, at: set<nat>, x: AddrEntry)
    requires forall i <- at :: i < |es|
  {
    && (forall i <- at :: x.first <= es[i].height <= x.last)
    && (exists i <- at :: es[i].height == x.first) && (exists i <- at :: es[i].height == x.last)
  }

  /** An address edge counts its touches, one each, between its first and its last. */
  lemma {:induction false} EdgeRow(es: seq<Event>, e: Edge)
    ensures e in StoreOf(es).addrScids <==> TouchesAt(es, e) != {}
    ensures e in StoreOf(es).addrScids ==> StoreOf(es).addrScids[e].count == |TouchesAt(es, e)|
    ensures e in StoreOf(es).addrScids ==> Spans(es, TouchesAt(es, e), StoreOf(es).addrScids[e])
  {
    hide StoreOf;
    if es == [] {
      NoEvents();
    } else {
      var init, n := es[..|es| - 1], |es| - 1;
      EdgeRow(init, e);
      LastEvent(es);
      TouchesMore(es, e);
      TouchStep(StoreOf(init).addrScids, es[n], e);
      TouchesInRange(init, e);
      TouchesInRange(es, e);
      var m, at := StoreOf(init).addrScids, TouchesAt(init, e);
      hide *;
      SpansStep(es, at, if e in m then Some(m[e]) else None);
    }
  }

  lemma TouchesInRange(es: seq<Event>, e: Edge)
    ensures forall i <- TouchesAt(es, e) :: i < |es|
  {
    hide Touches;
  }

  /** One more event, which may touch the edge with entry x. */
  lemma SpansStep(es: seq<Event>, at: set<nat>, x: Option<AddrEntry>)
    requires es != [] && forall i <- at :: i < |es| - 1
    requires x.Some? <==> at != {}
    requires x.Some? ==> x.value.count == |at| && Spans(es[..|es| - 1], at, x.value)
    ensures var n, h := |es| - 1, es[|es| - 1].height;
            && |at + {n}| == |at| + 1 && |{n}| == 1 && (at == {} ==> at + {n} == {n})
            && Spans(es, {n}, AddrEntry(h, h, 1))
    ensures x.Some? ==> Spans(es, at, x.value)
    ensures x.Some? ==>
              var n, h := |es| - 1, es[|es| - 1].height;
              Spans(es, at + {n}, AddrEntry(if h < x.value.first then h else x.value.first,
                                            if h > x.value.last then h else x.value.last, x.value.count + 1))
  {
    hide Spans;
    SpansOne(es);
    if x.Some? {
      SpansMore(es[..|es| - 1], at, x.value, es);
    }
  }

  lemma SpansOne(es: seq<Event>)
    requires es != []
    ensures var n, h := |es| - 1, es[|es| - 1].height; Spans(es, {n}, AddrEntry(h, h, 1))
  {
    assert |es| - 1 in {|es| - 1};
  }

  lemma SpansMore(init: seq<Event>, at: set<nat>, x: AddrEntry, es: seq<Event>)
    requires es != [] && init == es[..|es| - 1] && (forall i <- at :: i < |init|) && Spans(init, at, x)
    ensures Spans(es, at, x)
    ensures var n, h := |es| - 1, es[|es| - 1].height;
            Spans(es, at + {n}, AddrEntry(if h < x.first then h else x.first, if h > x.last then h else x.last,
                                          x.count + 1))
  {
    assert forall i <- at :: init[i] == es[i];
    var n, h := |es| - 1, es[|es| - 1].height;
    var i :| i in at && es[i].height == x.first;
    var j :| j in at && es[j].height == x.last;
    var y := AddrEntry(if h < x.first then h else x.first, if h > x.last then h else x.last, x.count + 1);
    assert es[if h < x.first then n else i].height == y.first && es[if h > x.last then n else j].height == y.last;
  }

  // ---------- Seals ----------

  predicate Seals(ev: Event, h: nat) { ev.tx.SealTx? && ev.height == h }

  /** The last sealed height with a hash is stored with it, and the stored height is that of the last seal. */
  lemma {:induction false} SealRow(es: seq<Event>, i: nat)
    requires i < |es| && es[i].tx.SealTx?
    ensures es[i].tx.hash != "" && (forall j | i < j < |es| && Seals(es[j], es[i].height) :: es[j].tx.hash == "") ==>
              es[i].height in StoreOf(es).blockHashes && StoreOf(es).blockHashes[es[i].height] == es[i].tx.hash
    ensures es[i].height > 0 && (forall j | i < j < |es| && es[j].tx.SealTx? :: es[j].height == 0) ==>
              StoreOf(es).last == Some(es[i].height)
  {
    hide StoreOf;
    LastEvent(es);
    if i < |es| - 1 {
      SealRow(es[..|es| - 1], i);
    }
  }

  lemma {:induction false} SealRowsOnly(es: seq<Event>, h: nat)
    ensures h in StoreOf(es).blockHashes <==>
            exists i :: 0 <= i < |es| && Seals(es[i], h) && es[i].tx.hash != ""
    ensures StoreOf(es).last.Some? <==> exists i :: 0 <= i < |es| && es[i].tx.SealTx? && es[i].height > 0
  {
    hide StoreOf;
    if es == [] {
      NoEvents();
    } else {
      var init, ev := es[..|es| - 1], es[|es| - 1];
      SealRowsOnly(init, h);
      LastEvent(es);
      assert forall i | 0 <= i < |init| :: init[i] == es[i];
      assert h in HashesAfter(StoreOf(init).blockHashes, ev) <==>
             h in StoreOf(init).blockHashes || (Seals(ev, h) && ev.tx.hash != "");
      hide HashesAfter;
    }
  }

  // ---------- Counters ----------

  datatype Totals = Totals(reg: nat, burn: nat, norm: nat)

  function TotalsOf(es: seq<Event>): Totals {
    if es == [] then Totals(0, 0, 0)
    else
      var t, tx := TotalsOf(es[..|es| - 1]), es[|es| - 1].tx;
      if tx.TallyTx? then Totals(t.reg + tx.reg, t.burn + tx.burn, t.norm + tx.norm) else t
  }

  /** The three counters add up; nothing else is ever written, neither failed deploys nor cached bodies. */
  lemma {:induction false} CounterRows(es: seq<Event>)
    ensures var db := StoreOf(es);
            Totals(db.reg, db.burn, db.norm) == TotalsOf(es) && db.invalid == map[] && db.tela == map[]
  {
    hide OwnersAfter, InvokesAfter, ScvarsAfter, LatestAfter, HeightsAfter, NormsAfter, CountAfter, LastAfter;
    hide HashesAfter, InstallsAfter, ClassIdxAfter, ClassRowsAfter, CodesAfter, OwnerEdgesAfter, EdgesAfter;
    if es != [] {
      CounterRows(es[..|es| - 1]);
    }
  }
}
