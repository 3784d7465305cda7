/**
 What the turbo-mode scan writes for a block (indexer/indexer.go, processorLoop,
 processSCTx, processNormalTx), and the store a whole block history produces.
 */
module TurboHistory {
  import opened IndexTypes
  import opened WriteBatches
  import opened IndexDb
  import opened BatchBoundary

  /** One transaction's contribution. SC_CODE is "" when the code policy skips it. */
  datatype Tx =
    | DeployTx(scid: Scid, sender: Addr, entrypoint: string, fees: nat,
               className: string, columns: seq<string>, code: string)
    | InvokeTx(scid: Scid, sender: Addr, txid: string, entrypoint: string, fees: nat)
    | RingTx(addr: Addr, txid: string, scid: Scid, fees: nat)
    | SnapshotTx(scid: Scid, vars: Variables)
    | TallyTx(reg: nat, burn: nat, norm: nat)
    | SealTx(hash: Hash)

  datatype Block = Block(hash: Hash, txs: seq<Tx>)
  datatype Event = Event(height: nat, tx: Tx)

  function InvocationOf(h: nat, tx: Tx): Invocation
    requires tx.DeployTx? || tx.InvokeTx?
  {
    var txid := if tx.DeployTx? then tx.scid else tx.txid;
    Invocation(tx.scid, tx.sender, tx.entrypoint, h,
               ScTx(txid, tx.scid, tx.entrypoint, tx.sender, tx.DeployTx?, tx.fees, h, ""))
  }

  function MetaOf(h: nat, tx: Tx): ClassMeta
    requires tx.DeployTx?
  {
    ClassMeta(tx.className, h, h, tx.columns)
  }

  /** The Add* calls of one event, in source order. An invoke without SC_ID is dropped. */
  function CallsOf(ev: Event): seq<Call> {
    var h := ev.height;
    match ev.tx
    case DeployTx(s, sender, ep, fees, _, _, code) =>
      [Owner(s, sender), Invoke(InvocationOf(h, ev.tx)), Interaction(s, h),
       Install(s, h, InstallRecord(sender, ep, fees)), Class(s, MetaOf(h, ev.tx)),
       Code(s, h, code), Touch(sender, s, h)]
    case InvokeTx(s, sender, _, _, _) =>
      if s == "" then []
      else [Invoke(InvocationOf(h, ev.tx)), Interaction(s, h), Touch(sender, s, h)]
    case RingTx(a, txid, s, fees) => [Touch(a, s, h), Normal(a, txid, s, fees, h)]
    case SnapshotTx(s, vars) => [Snapshot(s, h, vars)]
    case TallyTx(r, u, n) => [Counts(r, u, n)]
    case SealTx(hash) => if hash == "" then [Last(h)] else [BlockHash(h, hash), Last(h)]
  }

  function EventCalls(es: seq<Event>): seq<Call> {
    if es == [] then [] else EventCalls(es[..|es| - 1]) + CallsOf(es[|es| - 1])
  }

  /** Block i of a history sits at height i + 1: a scan starts right above height 0. */
  function BlockEvents(b: Block, h: nat): seq<Event> {
    seq(|b.txs|, i requires 0 <= i < |b.txs| => Event(h, b.txs[i])) + [Event(h, SealTx(b.hash))]
  }

  function EventsOf(bs: seq<Block>): seq<Event> {
    if bs == [] then [] else EventsOf(bs[..|bs| - 1]) + BlockEvents(bs[|bs| - 1], |bs|)
  }

  function BlockCalls(bs: seq<Block>): seq<Call> { EventCalls(EventsOf(bs)) }

  // ---------- One call, one event ----------

  ghost function ApplyCall(db: Db, c: Call): Db {
    match c
    case Owner(s, o) =>
      db.(owners := db.owners[s := o],
          ownerScids := if o == "" || s == "" then db.ownerScids else db.ownerScids + {OwnerEdge(o, s)},
          scCount := CountOwners(db.scCount, db.owners, map[s := o]))
    case Invoke(inv) =>
      if inv.scid == "" then db else db.(invokes := db.invokes[KeyOfInvocation(inv) := inv])
    case Snapshot(s, h, vars) => StoreVariablesIn(db, s, h, vars)
    case Interaction(s, h) => db.(heights := Bump(db.heights, ScidHeight(s, h)))
    case Normal(a, txid, s, fees, h) => db.(normTxs := db.normTxs[NormKey(a, h, txid, s) := NormalTx(txid, s, fees, h)])
    case BlockHash(h, hash) => db.(blockHashes := db.blockHashes[h := hash])
    case Install(s, h, rec) => db.(installs := db.installs[ScidHeight(s, h) := rec])
    case Class(s, meta) =>
      db.(classIdx := db.classIdx[s := meta], classRows := PutClassRows(db.classRows, db.classIdx, map[s := meta]))
    case Code(s, h, code) => if s == "" || code == "" then db else db.(scCodes := db.scCodes[s := CodeEntry(code, h)])
    case Touch(a, s, h) => if a == "" then db else db.(addrScids := AddTouch(db.addrScids, Edge(a, s), h))
    case Invalid(s, fees) => db.(invalid := db.invalid[s := fees])
    case Counts(r, u, n) => db.(reg := db.reg + r, burn := db.burn + u, norm := db.norm + n)
    case Last(h) => db.(last := if h > 0 then Some(h) else db.last)
  }

  function Bump(m: map<ScidHeight, nat>, k: ScidHeight): map<ScidHeight, nat> {
    m[k := GetOr(m, k, 0) + 1]
  }

  ghost function RunCalls(db: Db, calls: seq<Call>): Db {
    if calls == [] then db else ApplyCall(RunCalls(db, calls[..|calls| - 1]), calls[|calls| - 1])
  }

  lemma BumpIsAddHeights(m: map<ScidHeight, nat>, s: Scid, h: nat)
    ensures AddHeights(m, AddHeight(map[], s, h)) == Bump(m, ScidHeight(s, h))
  {
    var add := AddHeight(map[], s, h);
    assert add.Keys == {s} && add[s] == [h] by { assert [] + [h] == [h]; }
    forall k: ScidHeight
      ensures k in AddHeights(m, add) <==> k in Bump(m, ScidHeight(s, h))
      ensures k in AddHeights(m, add) ==> AddHeights(m, add)[k] == Bump(m, ScidHeight(s, h))[k]
    {
      hide AddHeights;
      AddHeightsAt(m, add, k);
    }
    hide AddHeights;
  }

  lemma SingleTouch(m: map<Edge, AddrEntry>, e: Edge, h: nat)
    ensures MergeEdges(m, AddTouch(map[], e, h)) == AddTouch(m, e, h)
  {
  }

  lemma FlushOfCall(db: Db, c: Call)
    requires c.Class? ==> c.meta.className != ""
    ensures Flush(db, Apply(EMPTY_BATCH, c)) == ApplyCall(db, c)
  {
    hide Apply, ApplyCall, Flush;
    FlushEmpty(db);
    match c
    case Owner(_, _) => FlushOfOwner(db, c);
    case Invoke(_) => FlushOfInvoke(db, c);
    case Snapshot(_, _, _) => FlushOfSnapshot(db, c);
    case Interaction(_, _) => FlushOfInteraction(db, c);
    case Normal(_, _, _, _, _) => FlushOfNormal(db, c);
    case BlockHash(_, _) => FlushOfBlockHash(db, c);
    case Install(_, _, _) => FlushOfInstall(db, c);
    case Class(_, _) => FlushOfClass(db, c);
    case Code(_, _, _) => FlushOfCode(db, c);
    case Touch(_, _, _) => FlushOfTouch(db, c);
    case Invalid(_, _) => FlushOfInvalid(db, c);
    case Counts(_, _, _) => FlushOfCounts(db, c);
    case Last(_) => FlushOfLast(db, c);
  }

  lemma FlushOfOwner(db: Db, c: Call)
    requires c.Owner? && Flush(db, EMPTY_BATCH) == db
    ensures Flush(db, Apply(EMPTY_BATCH, c)) == ApplyCall(db, c)
  {
    hide AddHeights, RaiseLatest, CountOwners, MergeEdges, PutClassRows, AddHeight, AddTouch, Bump;
    hide NonEmptyClasses, NonEmptyCodes;
    assert db.owners + map[c.scid := c.owner] == db.owners[c.scid := c.owner];
    var added := Apply(EMPTY_BATCH, c).ownerScids;
    assert NonEmptyOwners(added) == added;
  }

  lemma FlushOfInvoke(db: Db, c: Call)
    requires c.Invoke? && Flush(db, EMPTY_BATCH) == db
    ensures Flush(db, Apply(EMPTY_BATCH, c)) == ApplyCall(db, c)
  {
    hide AddHeights, RaiseLatest, CountOwners, MergeEdges, PutClassRows, AddHeight, AddTouch, Bump;
    hide NonEmptyClasses, NonEmptyCodes, NonEmptyOwners;
    assert [c.inv][..0] == [];
  }

  lemma FlushOfSnapshot(db: Db, c: Call)
    requires c.Snapshot? && Flush(db, EMPTY_BATCH) == db
    ensures Flush(db, Apply(EMPTY_BATCH, c)) == ApplyCall(db, c)
  {
    hide AddHeights, RaiseLatest, CountOwners, MergeEdges, PutClassRows, AddHeight, AddTouch, Bump;
    hide NonEmptyClasses, NonEmptyCodes, NonEmptyOwners;
    var k := ScidHeight(c.scid, c.height);
    assert Apply(EMPTY_BATCH, c).variables.Keys == {k};
    assert db.scvars + map[k := c.vars] == db.scvars[k := c.vars];
  }

  lemma FlushOfInteraction(db: Db, c: Call)
    requires c.Interaction? && Flush(db, EMPTY_BATCH) == db
    ensures Flush(db, Apply(EMPTY_BATCH, c)) == ApplyCall(db, c)
  {
    hide AddHeights, RaiseLatest, CountOwners, MergeEdges, PutClassRows, AddHeight, AddTouch, Bump;
    hide NonEmptyClasses, NonEmptyCodes, NonEmptyOwners;
    BumpIsAddHeights(db.heights, c.scid, c.height);
  }

  lemma FlushOfNormal(db: Db, c: Call)
    requires c.Normal? && Flush(db, EMPTY_BATCH) == db
    ensures Flush(db, Apply(EMPTY_BATCH, c)) == ApplyCall(db, c)
  {
    hide AddHeights, RaiseLatest, CountOwners, MergeEdges, PutClassRows, AddHeight, AddTouch, Bump;
    hide NonEmptyClasses, NonEmptyCodes, NonEmptyOwners;
    assert Apply(EMPTY_BATCH, c).normalTxs[..0] == [];
  }

  lemma FlushOfBlockHash(db: Db, c: Call)
    requires c.BlockHash? && Flush(db, EMPTY_BATCH) == db
    ensures Flush(db, Apply(EMPTY_BATCH, c)) == ApplyCall(db, c)
  {
    hide AddHeights, RaiseLatest, CountOwners, MergeEdges, PutClassRows, AddHeight, AddTouch, Bump;
    hide NonEmptyClasses, NonEmptyCodes, NonEmptyOwners;
    assert db.blockHashes + map[c.height := c.hash] == db.blockHashes[c.height := c.hash];
  }

  lemma FlushOfInstall(db: Db, c: Call)
    requires c.Install? && Flush(db, EMPTY_BATCH) == db
    ensures Flush(db, Apply(EMPTY_BATCH, c)) == ApplyCall(db, c)
  {
    hide AddHeights, RaiseLatest, CountOwners, MergeEdges, PutClassRows, AddHeight, AddTouch, Bump;
    hide NonEmptyClasses, NonEmptyCodes, NonEmptyOwners;
    var k := ScidHeight(c.scid, c.height);
    assert db.installs + map[k := c.rec] == db.installs[k := c.rec];
  }

  lemma FlushOfClass(db: Db, c: Call)
    requires c.Class? && c.meta.className != "" && Flush(db, EMPTY_BATCH) == db
    ensures Flush(db, Apply(EMPTY_BATCH, c)) == ApplyCall(db, c)
  {
    hide AddHeights, RaiseLatest, CountOwners, MergeEdges, PutClassRows, AddHeight, AddTouch, Bump;
    hide NonEmptyCodes, NonEmptyOwners;
    var add := map[c.scid := c.meta];
    assert NonEmptyClasses(add) == add;
    assert db.classIdx + add == db.classIdx[c.scid := c.meta];
  }

  lemma FlushOfCode(db: Db, c: Call)
    requires c.Code? && Flush(db, EMPTY_BATCH) == db
    ensures Flush(db, Apply(EMPTY_BATCH, c)) == ApplyCall(db, c)
  {
    hide AddHeights, RaiseLatest, CountOwners, MergeEdges, PutClassRows, AddHeight, AddTouch, Bump;
    hide NonEmptyClasses, NonEmptyOwners;
    if c.scid != "" && c.code != "" {
      var add := map[c.scid := CodeEntry(c.code, c.installHeight)];
      assert NonEmptyCodes(add) == add;
      assert db.scCodes + add == db.scCodes[c.scid := CodeEntry(c.code, c.installHeight)];
    }
  }

  lemma FlushOfTouch(db: Db, c: Call)
    requires c.Touch? && Flush(db, EMPTY_BATCH) == db
    ensures Flush(db, Apply(EMPTY_BATCH, c)) == ApplyCall(db, c)
  {
    hide AddHeights, RaiseLatest, CountOwners, MergeEdges, PutClassRows, AddHeight, AddTouch, Bump;
    hide NonEmptyClasses, NonEmptyCodes, NonEmptyOwners;
    SingleTouch(db.addrScids, Edge(c.addr, c.scid), c.height);
  }

  lemma FlushOfInvalid(db: Db, c: Call)
    requires c.Invalid? && Flush(db, EMPTY_BATCH) == db
    ensures Flush(db, Apply(EMPTY_BATCH, c)) == ApplyCall(db, c)
  {
    hide AddHeights, RaiseLatest, CountOwners, MergeEdges, PutClassRows, AddHeight, AddTouch, Bump;
    hide NonEmptyClasses, NonEmptyCodes, NonEmptyOwners;
    assert db.invalid + map[c.scid := c.fees] == db.invalid[c.scid := c.fees];
  }

  lemma FlushOfCounts(db: Db, c: Call)
    requires c.Counts? && Flush(db, EMPTY_BATCH) == db
    ensures Flush(db, Apply(EMPTY_BATCH, c)) == ApplyCall(db, c)
  {
    hide AddHeights, RaiseLatest, CountOwners, MergeEdges, PutClassRows, AddHeight, AddTouch, Bump;
    hide NonEmptyClasses, NonEmptyCodes, NonEmptyOwners;
  }

  lemma FlushOfLast(db: Db, c: Call)
    requires c.Last? && Flush(db, EMPTY_BATCH) == db
    ensures Flush(db, Apply(EMPTY_BATCH, c)) == ApplyCall(db, c)
  {
    hide AddHeights, RaiseLatest, CountOwners, MergeEdges, PutClassRows, AddHeight, AddTouch, Bump;
    hide NonEmptyClasses, NonEmptyCodes, NonEmptyOwners;
  }

  /** Flushing a batch is applying its calls one after another. */
  lemma {:induction false} FlushIsRun(db: Db, calls: seq<Call>)
    requires NoStrayRows(db) && GoodCalls(calls)
    ensures Flush(db, Build(calls)) == RunCalls(db, calls)
  {
    hide Flush, ApplyCall, NoStrayRows, Apply;
    if calls == [] {
      FlushEmpty(db);
    } else {
      var init, c := calls[..|calls| - 1], calls[|calls| - 1];
      FlushIsRun(db, init);
      FlushInTwo(db, init, [c]);
      assert init + [c] == calls && [c][..0] == [];
      FlushOfCall(Flush(db, Build(init)), c);
    }
  }

  lemma {:induction false} RunCat(db: Db, x: seq<Call>, y: seq<Call>)
    ensures RunCalls(db, x + y) == RunCalls(RunCalls(db, x), y)
  {
    hide ApplyCall;
    if y == [] {
      assert x + y == x;
    } else {
      RunCat(db, x, y[..|y| - 1]);
      assert (x + y)[..|x + y| - 1] == x + y[..|y| - 1];
    }
  }

  // ---------- Events ----------

  /** What one event does to the store, bucket by bucket. */
  ghost function ApplyEvent(db: Db, ev: Event): Db {
    Db(OwnersAfter(db.owners, ev), InvokesAfter(db.invokes, ev), ScvarsAfter(db.scvars, ev), LatestAfter(db.latest, ev),
       HeightsAfter(db.heights, ev), NormsAfter(db.normTxs, ev), db.invalid,
       db.reg + (if ev.tx.TallyTx? then ev.tx.reg else 0),
       db.burn + (if ev.tx.TallyTx? then ev.tx.burn else 0),
       db.norm + (if ev.tx.TallyTx? then ev.tx.norm else 0),
       CountAfter(db.scCount, db.owners, ev), LastAfter(db.last, ev), HashesAfter(db.blockHashes, ev),
       InstallsAfter(db.installs, ev), ClassIdxAfter(db.classIdx, ev), ClassRowsAfter(db.classRows, db.classIdx, ev),
       CodesAfter(db.scCodes, ev), OwnerEdgesAfter(db.ownerScids, ev), EdgesAfter(db.addrScids, ev), db.tela)
  }

  function OwnersAfter(m: map<Scid, Addr>, ev: Event): map<Scid, Addr> {
    if ev.tx.DeployTx? then m[ev.tx.scid := ev.tx.sender] else m
  }

  /** Deploys and invokes with a scid leave an invocation and an interaction. */
  predicate Interacts(ev: Event) {
    (ev.tx.DeployTx? || ev.tx.InvokeTx?) && ev.tx.scid != ""
  }

  function InvokesAfter(m: map<InvokeKey, Invocation>, ev: Event): map<InvokeKey, Invocation> {
    if Interacts(ev) then
      var inv := InvocationOf(ev.height, ev.tx);
      m[KeyOfInvocation(inv) := inv]
    else m
  }

  function ScvarsAfter(m: map<ScidHeight, Variables>, ev: Event): map<ScidHeight, Variables> {
    if ev.tx.SnapshotTx? then m[ScidHeight(ev.tx.scid, ev.height) := ev.tx.vars] else m
  }

  ghost function LatestAfter(m: map<Scid, nat>, ev: Event): map<Scid, nat> {
    if ev.tx.SnapshotTx? then RaiseLatest(m, {ScidHeight(ev.tx.scid, ev.height)}) else m
  }

  function HeightsAfter(m: map<ScidHeight, nat>, ev: Event): map<ScidHeight, nat> {
    if ev.tx.DeployTx? || Interacts(ev) then Bump(m, ScidHeight(ev.tx.scid, ev.height)) else m
  }

  function NormsAfter(m: map<NormKey, NormalTx>, ev: Event): map<NormKey, NormalTx> {
    if ev.tx.RingTx? then
      var tx, h := ev.tx, ev.height;
      m[NormKey(tx.addr, h, tx.txid, tx.scid) := NormalTx(tx.txid, tx.scid, tx.fees, h)]
    else m
  }

  function CountAfter(n: Option<int>, owners: map<Scid, Addr>, ev: Event): Option<int> {
    if ev.tx.DeployTx? then CountOwners(n, owners, map[ev.tx.scid := ev.tx.sender]) else n
  }

  function LastAfter(n: Option<nat>, ev: Event): Option<nat> {
    if ev.tx.SealTx? && ev.height > 0 then Some(ev.height) else n
  }

  function HashesAfter(m: map<nat, Hash>, ev: Event): map<nat, Hash> {
    if ev.tx.SealTx? && ev.tx.hash != "" then m[ev.height := ev.tx.hash] else m
  }

  function InstallsAfter(m: map<ScidHeight, InstallRecord>, ev: Event): map<ScidHeight, InstallRecord> {
    if ev.tx.DeployTx? then
      m[ScidHeight(ev.tx.scid, ev.height) := InstallRecord(ev.tx.sender, ev.tx.entrypoint, ev.tx.fees)]
    else m
  }

  function ClassIdxAfter(m: map<Scid, ClassMeta>, ev: Event): map<Scid, ClassMeta> {
    if ev.tx.DeployTx? then m[ev.tx.scid := MetaOf(ev.height, ev.tx)] else m
  }

  function ClassRowsAfter(m: map<ClassKey, ClassMeta>, idx: map<Scid, ClassMeta>, ev: Event): map<ClassKey, ClassMeta> {
    if ev.tx.DeployTx? then PutClassRows(m, idx, map[ev.tx.scid := MetaOf(ev.height, ev.tx)]) else m
  }

  function CodesAfter(m: map<Scid, CodeEntry>, ev: Event): map<Scid, CodeEntry> {
    if ev.tx.DeployTx? && ev.tx.scid != "" && ev.tx.code != "" then
      m[ev.tx.scid := CodeEntry(ev.tx.code, ev.height)]
    else m
  }

  function OwnerEdgesAfter(m: set<OwnerEdge>, ev: Event): set<OwnerEdge> {
    if ev.tx.DeployTx? && ev.tx.sender != "" && ev.tx.scid != "" then m + {OwnerEdge(ev.tx.sender, ev.tx.scid)} else m
  }

  /** The touch an event records, if it names an address. */
  function TouchOf(ev: Event): Option<TouchKey> {
    match ev.tx
    case DeployTx(_, a, _, _, _, _, _) =>
      if a == "" then None else Some(ByInvoke(KeyOfInvocation(InvocationOf(ev.height, ev.tx))))
    case InvokeTx(s, a, _, _, _) =>
      if a == "" || s == "" then None else Some(ByInvoke(KeyOfInvocation(InvocationOf(ev.height, ev.tx))))
    case RingTx(a, txid, s, _) => if a == "" then None else Some(ByNormal(NormKey(a, ev.height, txid, s)))
    case _ => None
  }

  function EdgesAfter(m: map<Edge, AddrEntry>, ev: Event): map<Edge, AddrEntry> {
    match TouchOf(ev)
    case Some(t) => AddTouch(m, t.OnEdge(), t.Height())
    case None => m
  }

  ghost function ApplyEvents(db: Db, es: seq<Event>): Db {
    if es == [] then db else ApplyEvent(ApplyEvents(db, es[..|es| - 1]), es[|es| - 1])
  }

  lemma RunPrefix(db: Db, q: seq<Call>, i: nat)
    requires i < |q|
    ensures RunCalls(db, q[..i + 1]) == ApplyCall(RunCalls(db, q[..i]), q[i])
  {
    hide ApplyCall;
    assert q[..i + 1][..i] == q[..i];
  }

  lemma RunThree(db: Db, q: seq<Call>)
    requires |q| == 3
    ensures RunCalls(db, q) == ApplyCall(ApplyCall(ApplyCall(db, q[0]), q[1]), q[2])
  {
    hide ApplyCall;
    RunPrefix(db, q, 0);
    RunPrefix(db, q, 1);
    RunPrefix(db, q, 2);
    assert q[..3] == q;
  }

  lemma RunOfEvent(db: Db, ev: Event)
    ensures RunCalls(db, CallsOf(ev)) == ApplyEvent(db, ev)
  {
    hide ApplyEvent, RunCalls, ApplyCall;
    match ev.tx
    case DeployTx(_, _, _, _, _, _, _) => RunOfDeploy(db, ev);
    case InvokeTx(s, _, _, _, _) =>
      if s == "" { RunOfDropped(db, ev); } else { RunOfInvoke(db, ev); }
    case RingTx(_, _, _, _) => RunOfRing(db, ev);
    case SnapshotTx(_, _) => RunOfSnapshot(db, ev);
    case TallyTx(_, _, _) => RunOfTally(db, ev);
    case SealTx(_) => RunOfSeal(db, ev);
  }

  lemma RunOfDropped(db: Db, ev: Event)
    requires ev.tx.InvokeTx? && ev.tx.scid == ""
    ensures RunCalls(db, CallsOf(ev)) == ApplyEvent(db, ev)
  {
  }

  lemma RunOfInvoke(db: Db, ev: Event)
    requires ev.tx.InvokeTx? && ev.tx.scid != ""
    ensures RunCalls(db, CallsOf(ev)) == ApplyEvent(db, ev)
  {
    hide RunCalls, AddTouch, Bump, PutClassRows, CountOwners, RaiseLatest;
    var tx, h := ev.tx, ev.height;
    var q := [Invoke(InvocationOf(h, tx)), Interaction(tx.scid, h), Touch(tx.sender, tx.scid, h)];
    assert CallsOf(ev) == q;
    hide CallsOf;
    RunThree(db, q);
  }

  lemma RunOfRing(db: Db, ev: Event)
    requires ev.tx.RingTx?
    ensures RunCalls(db, CallsOf(ev)) == ApplyEvent(db, ev)
  {
    hide RunCalls, AddTouch, Bump, PutClassRows, CountOwners, RaiseLatest;
    var tx, h := ev.tx, ev.height;
    var q := [Touch(tx.addr, tx.scid, h), Normal(tx.addr, tx.txid, tx.scid, tx.fees, h)];
    assert CallsOf(ev) == q;
    hide CallsOf;
    RunTwo(db, q);
    var mid := db.(addrScids := EdgesAfter(db.addrScids, ev));
    assert ApplyCall(db, q[0]) == mid;
  }

  lemma RunOfSnapshot(db: Db, ev: Event)
    requires ev.tx.SnapshotTx?
    ensures RunCalls(db, CallsOf(ev)) == ApplyEvent(db, ev)
  {
    hide RunCalls, AddTouch, Bump, PutClassRows, CountOwners, RaiseLatest;
    RunOne(db, CallsOf(ev));
  }

  lemma RunOfTally(db: Db, ev: Event)
    requires ev.tx.TallyTx?
    ensures RunCalls(db, CallsOf(ev)) == ApplyEvent(db, ev)
  {
    hide RunCalls, AddTouch, Bump, PutClassRows, CountOwners, RaiseLatest;
    RunOne(db, CallsOf(ev));
  }

  lemma RunOfSeal(db: Db, ev: Event)
    requires ev.tx.SealTx?
    ensures RunCalls(db, CallsOf(ev)) == ApplyEvent(db, ev)
  {
    var h, hash := ev.height, ev.tx.hash;
    assert CallsOf(ev) == if hash == "" then [Last(h)] else [BlockHash(h, hash), Last(h)] by {
      hide RunCalls, ApplyEvent;
    }
    hide RunCalls, CallsOf, ApplyCall, ApplyEvent;
    if hash == "" {
      RunOne(db, CallsOf(ev));
    } else {
      RunTwo(db, CallsOf(ev));
    }
    SealStores(db, ev);
  }

  lemma SealStores(db: Db, ev: Event)
    requires ev.tx.SealTx?
    ensures var h, hash := ev.height, ev.tx.hash;
            ApplyEvent(db, ev) ==
            ApplyCall(if hash == "" then db else ApplyCall(db, BlockHash(h, hash)), Last(h))
  {
    hide CallsOf, AddTouch, Bump, PutClassRows, CountOwners, RaiseLatest;
  }

  lemma RunOfDeploy(db: Db, ev: Event)
    requires ev.tx.DeployTx?
    ensures RunCalls(db, CallsOf(ev)) == ApplyEvent(db, ev)
  {
    hide RunCalls, ApplyCall, ApplyEvent, DeployScan, DeployRoute;
    var q := CallsOf(ev);
    var scan := DeployScan(db, ev);
    assert q == q[..3] + q[3..] && q[3..] == q[3..6] + q[6..];
    RunCat(db, q[..3], q[3..]);
    RunThree(db, q[..3]);
    RunDeployScan(db, ev);
    RunCat(scan, q[3..6], q[6..]);
    RunThree(scan, q[3..6]);
    RunDeployRoute(db, ev);
    RunOne(DeployRoute(db, ev), q[6..]);
    RunDeployTouch(db, ev);
  }

  ghost function DeployScan(db: Db, ev: Event): Db {
    db.(owners := OwnersAfter(db.owners, ev), ownerScids := OwnerEdgesAfter(db.ownerScids, ev),
        scCount := CountAfter(db.scCount, db.owners, ev), invokes := InvokesAfter(db.invokes, ev),
        heights := HeightsAfter(db.heights, ev))
  }

  ghost function DeployRoute(db: Db, ev: Event): Db {
    DeployScan(db, ev).(installs := InstallsAfter(db.installs, ev), classIdx := ClassIdxAfter(db.classIdx, ev),
                        classRows := ClassRowsAfter(db.classRows, db.classIdx, ev),
                        scCodes := CodesAfter(db.scCodes, ev))
  }

  lemma RunDeployScan(db: Db, ev: Event)
    requires ev.tx.DeployTx?
    ensures var q := CallsOf(ev);
            ApplyCall(ApplyCall(ApplyCall(db, q[0]), q[1]), q[2]) == DeployScan(db, ev)
  {
    hide CallsOf, ApplyCall, DeployScan, InvocationOf;
    DeployCalls(ev);
    DeployScanIs(db, ev, InvocationOf(ev.height, ev.tx));
  }

  lemma DeployCalls(ev: Event)
    requires ev.tx.DeployTx?
    ensures var q := CallsOf(ev);
            && |q| == 7 && q[0] == Owner(ev.tx.scid, ev.tx.sender)
            && q[1] == Invoke(InvocationOf(ev.height, ev.tx)) && q[2] == Interaction(ev.tx.scid, ev.height)
  {
  }

  lemma DeployScanIs(db: Db, ev: Event, inv: Invocation)
    requires ev.tx.DeployTx? && inv == InvocationOf(ev.height, ev.tx)
    ensures var s, o, h := ev.tx.scid, ev.tx.sender, ev.height;
            DeployScan(db, ev) == ApplyCall(ApplyCall(ApplyCall(db, Owner(s, o)), Invoke(inv)), Interaction(s, h))
  {
    var owned := DeployOwned(db, ev);
    DeployOwnedIs(db, ev);
    DeployInvoked(owned, ev, inv);
    DeployCounted(owned.(invokes := InvokesAfter(owned.invokes, ev)), ev);
    hide ApplyCall, InvokesAfter, HeightsAfter, OwnersAfter, OwnerEdgesAfter, CountAfter;
  }

  ghost function DeployOwned(db: Db, ev: Event): Db {
    db.(owners := OwnersAfter(db.owners, ev), ownerScids := OwnerEdgesAfter(db.ownerScids, ev),
        scCount := CountAfter(db.scCount, db.owners, ev))
  }

  lemma DeployOwnedIs(db: Db, ev: Event)
    requires ev.tx.DeployTx?
    ensures ApplyCall(db, Owner(ev.tx.scid, ev.tx.sender)) == DeployOwned(db, ev)
  {
    hide CountOwners;
  }

  lemma DeployInvoked(db: Db, ev: Event, inv: Invocation)
    requires ev.tx.DeployTx? && inv == InvocationOf(ev.height, ev.tx)
    ensures ApplyCall(db, Invoke(inv)) == db.(invokes := InvokesAfter(db.invokes, ev))
  {
  }

  lemma DeployCounted(db: Db, ev: Event)
    requires ev.tx.DeployTx?
    ensures ApplyCall(db, Interaction(ev.tx.scid, ev.height)) == db.(heights := HeightsAfter(db.heights, ev))
  {
    hide Bump;
  }

  lemma RunDeployRoute(db: Db, ev: Event)
    requires ev.tx.DeployTx?
    ensures var q := CallsOf(ev);
            ApplyCall(ApplyCall(ApplyCall(DeployScan(db, ev), q[3]), q[4]), q[5]) == DeployRoute(db, ev)
  {
    hide RunCalls, AddTouch, Bump, PutClassRows, CountOwners, RaiseLatest;
  }

  lemma RunDeployTouch(db: Db, ev: Event)
    requires ev.tx.DeployTx?
    ensures ApplyCall(DeployRoute(db, ev), CallsOf(ev)[6]) == ApplyEvent(db, ev)
  {
    hide RunCalls, AddTouch, Bump, PutClassRows, CountOwners, RaiseLatest;
  }

  lemma RunOne(db: Db, q: seq<Call>)
    requires |q| == 1
    ensures RunCalls(db, q) == ApplyCall(db, q[0])
  {
    hide ApplyCall;
    RunPrefix(db, q, 0);
    assert q[..1] == q;
  }

  lemma RunTwo(db: Db, q: seq<Call>)
    requires |q| == 2
    ensures RunCalls(db, q) == ApplyCall(ApplyCall(db, q[0]), q[1])
  {
    hide ApplyCall;
    RunPrefix(db, q, 0);
    RunPrefix(db, q, 1);
    assert q[..2] == q;
  }

  lemma {:induction false} RunOfEvents(db: Db, es: seq<Event>)
    ensures RunCalls(db, EventCalls(es)) == ApplyEvents(db, es)
  {
    hide ApplyCall, ApplyEvent, CallsOf;
    if es != [] {
      var init, ev := es[..|es| - 1], es[|es| - 1];
      RunOfEvents(db, init);
      RunCat(db, EventCalls(init), CallsOf(ev));
      RunOfEvent(RunCalls(db, EventCalls(init)), ev);
    }
  }

  // ---------- Histories ----------

  /** The store a history leaves, whatever batches it was flushed in (module BatchBoundary). */
  ghost function IndexOf(bs: seq<Block>): Db { Flush(EMPTY_DB, Build(BlockCalls(bs))) }

  ghost predicate NamedEvents(es: seq<Event>) {
    forall ev <- es :: ev.tx.DeployTx? ==> ev.tx.className != ""
  }

  ghost predicate Positive(es: seq<Event>) {
    forall ev <- es :: ev.height > 0
  }

  lemma {:induction false} EventCallsGood(es: seq<Event>)
    requires NamedEvents(es) && Positive(es)
    ensures GoodCalls(EventCalls(es))
  {
    hide CallsOf;
    if es != [] {
      EventCallsGood(es[..|es| - 1]);
      CallsGood(es[|es| - 1]);
    }
  }

  lemma CallsGood(ev: Event)
    requires ev.height > 0 && (ev.tx.DeployTx? ==> ev.tx.className != "")
    ensures GoodCalls(CallsOf(ev))
  {
  }

  lemma {:induction false} EventHeights(bs: seq<Block>)
    ensures forall ev <- EventsOf(bs) :: 0 < ev.height <= |bs|
  {
    if bs != [] {
      EventHeights(bs[..|bs| - 1]);
    }
  }

  lemma IndexOfIsEvents(bs: seq<Block>)
    requires NamedEvents(EventsOf(bs))
    ensures IndexOf(bs) == ApplyEvents(EMPTY_DB, EventsOf(bs))
  {
    hide Flush, Build, EventCalls, EventsOf, ApplyEvents, RunCalls;
    EventHeights(bs);
    EventCallsGood(EventsOf(bs));
    FlushIsRun(EMPTY_DB, BlockCalls(bs));
    RunOfEvents(EMPTY_DB, EventsOf(bs));
  }

  lemma {:induction false} ApplyCat(db: Db, x: seq<Event>, y: seq<Event>)
    ensures ApplyEvents(db, x + y) == ApplyEvents(ApplyEvents(db, x), y)
  {
    hide ApplyEvent;
    if y == [] {
      assert x + y == x;
    } else {
      ApplyCat(db, x, y[..|y| - 1]);
      assert (x + y)[..|x + y| - 1] == x + y[..|y| - 1];
    }
  }

  /** Only a block's own seal seals it. */
  ghost predicate SealedOnce(bs: seq<Block>) {
    forall b <- bs, tx <- b.txs :: !tx.SealTx?
  }

  lemma {:induction false} EventCallsCat(x: seq<Event>, y: seq<Event>)
    ensures EventCalls(x + y) == EventCalls(x) + EventCalls(y)
  {
    hide CallsOf;
    if y == [] {
      assert x + y == x;
    } else {
      EventCallsCat(x, y[..|y| - 1]);
      assert (x + y)[..|x + y| - 1] == x + y[..|y| - 1];
    }
  }
}
