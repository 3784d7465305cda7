/**
 The committed store as a value, and what one FlushBatch transaction (storage/bbolt.go)
 and one TruncateToHeight transaction (storage/truncate.go) make of it, bucket by bucket.
 Module BboltStores proves the step-by-step methods against these functions.
 */
module IndexDb {
  import opened IndexTypes
  import opened WriteBatches

  datatype Db = Db(
    owners: map<Scid, Addr>,
    invokes: map<InvokeKey, Invocation>,
    scvars: map<ScidHeight, Variables>,
    latest: map<Scid, nat>,
    heights: map<ScidHeight, nat>,
    normTxs: map<NormKey, NormalTx>,
    invalid: map<Scid, nat>,
    reg: nat, burn: nat, norm: nat,
    scCount: Option<int>,
    last: Option<nat>,
    blockHashes: map<nat, Hash>,
    installs: map<ScidHeight, InstallRecord>,
    classIdx: map<Scid, ClassMeta>,
    classRows: map<ClassKey, ClassMeta>,
    scCodes: map<Scid, CodeEntry>,
    ownerScids: set<OwnerEdge>,
    addrScids: map<Edge, AddrEntry>,
    tela: map<TelaKey, string>)

  const EMPTY_DB := Db(map[], map[], map[], map[], map[], map[], map[], 0, 0, 0, None, None,
                       map[], map[], map[], map[], map[], {}, map[], map[])

  // ---------- FlushBatch ----------

  /** Invocation rows, in batch order; a record with an empty scid is skipped. */
  function PutInvocations(m: map<InvokeKey, Invocation>, invs: seq<Invocation>): map<InvokeKey, Invocation> {
    if invs == [] then m
    else
      var inv := invs[|invs| - 1];
      var rest := PutInvocations(m, invs[..|invs| - 1]);
      if inv.scid == "" then rest else rest[KeyOfInvocation(inv) := inv]
  }

  function PutNormals(m: map<NormKey, NormalTx>, es: seq<NormalTxRef>): map<NormKey, NormalTx> {
    if es == [] then m
    else
      var e := es[|es| - 1];
      PutNormals(m, es[..|es| - 1])[KeyOfNormal(e) := e.tx]
  }

  ghost function SnapshotHeights(keys: set<ScidHeight>, s: Scid): set<nat> {
    set k | k in keys && k.scid == s :: k.height
  }

  /** Latest pointers: raised to the batch's greatest positive snapshot height, never lowered. */
  ghost function RaiseLatest(latest: map<Scid, nat>, keys: set<ScidHeight>): map<Scid, nat> {
    map s | s in latest.Keys + (set k | k in keys && k.scid != "" && k.height > 0 :: k.scid) ::
      if s == "" then latest[s]
      else Max(GetOr(latest, s, 0), MaxOf(SnapshotHeights(keys, s)))
  }

  ghost function HeightKeys(add: map<Scid, seq<nat>>): set<ScidHeight> {
    set s, h | s in add && h in add[s] :: ScidHeight(s, h)
  }

  ghost function Occurrences(add: map<Scid, seq<nat>>, k: ScidHeight): nat {
    if k.scid in add then multiset(add[k.scid])[k.height] else 0
  }

  ghost function AddHeights(m: map<ScidHeight, nat>, add: map<Scid, seq<nat>>): map<ScidHeight, nat> {
    map k | k in m.Keys + HeightKeys(add) :: GetOr(m, k, 0) + Occurrences(add, k)
  }

  /** How many scids have an owner row. */
  function OwnerRows(owners: map<Scid, Addr>): nat { |owners| }

  function NewOwners(before: map<Scid, Addr>, add: map<Scid, Addr>): nat { |add.Keys - before.Keys| }

  /** sc_count: incremented by new owners; when the row is missing it is counted afresh. */
  function CountOwners(scCount: Option<int>, before: map<Scid, Addr>, add: map<Scid, Addr>): Option<int> {
    var added := NewOwners(before, add);
    if added == 0 then scCount
    else match scCount
      case Some(n) => Some(n + added)
      case None => Some(OwnerRows(before + add))
  }

  function NonEmptyClasses(classes: map<Scid, ClassMeta>): map<Scid, ClassMeta> {
    map s | s in classes && classes[s].className != "" :: classes[s]
  }

  function NonEmptyCodes(codes: map<Scid, CodeEntry>): map<Scid, CodeEntry> {
    map s | s in codes && codes[s].code != "" :: codes[s]
  }

  /** Class rows: each scid's previous row is dropped when it moves, then its new row is written. */
  function PutClassRows(rows: map<ClassKey, ClassMeta>, idx: map<Scid, ClassMeta>,
                        add: map<Scid, ClassMeta>): map<ClassKey, ClassMeta>
  {
    var stale := set s | s in add && s in idx :: RowOf(s, idx[s]);
    (rows - stale) + (map s | s in add :: RowOf(s, add[s]) := add[s])
  }

  function NonEmptyOwners(es: set<OwnerEdge>): set<OwnerEdge> {
    set e | e in es && e.owner != ""
  }

  ghost function Flush(db: Db, b: Batch): Db {
    Db(db.owners + b.owners,
       PutInvocations(db.invokes, b.invocations),
       db.scvars + b.variables,
       RaiseLatest(db.latest, b.variables.Keys),
       AddHeights(db.heights, b.heights),
       PutNormals(db.normTxs, b.normalTxs),
       db.invalid + b.invalid,
       db.reg + b.reg, db.burn + b.burn, db.norm + b.norm,
       CountOwners(db.scCount, db.owners, b.owners),
       if b.lastHeight > 0 then Some(b.lastHeight) else db.last,
       db.blockHashes + b.blockHashes,
       db.installs + b.installs,
       db.classIdx + NonEmptyClasses(b.classes),
       PutClassRows(db.classRows, db.classIdx, NonEmptyClasses(b.classes)),
       db.scCodes + NonEmptyCodes(b.scCodes),
       db.ownerScids + NonEmptyOwners(b.ownerScids),
       MergeEdges(db.addrScids, b.addrScids),
       db.tela)
  }

  // ---------- TruncateToHeight ----------

  ghost function ScidsAbove<V>(m: map<ScidHeight, V>, h: nat): set<Scid> {
    set k | k in m && k.height > h :: k.scid
  }

  ghost function InstalledAbove(db: Db, h: nat): set<Scid> { ScidsAbove(db.installs, h) }

  /** Step 0: scids with an interaction, a snapshot or an install above h. */
  ghost function Affected(db: Db, h: nat): set<Scid> {
    ScidsAbove(db.heights, h) + ScidsAbove(db.scvars, h) + InstalledAbove(db, h)
  }

  /** One recorded touch of (addr, scid): an invocation row or a normal-tx row. */
  datatype TouchKey = ByInvoke(inv: InvokeKey) | ByNormal(norm: NormKey) {
    function Height(): nat { if ByInvoke? then inv.height else norm.height }
    function OnEdge(): Edge {
      if ByInvoke? then Edge(inv.sender, inv.scid) else Edge(norm.addr, norm.scid)
    }
  }

  ghost function TouchesOf(db: Db): set<TouchKey> {
    (set k | k in db.invokes :: ByInvoke(k)) + (set k | k in db.normTxs :: ByNormal(k))
  }

  ghost function TouchesUpTo(db: Db, e: Edge, h: nat): set<TouchKey> {
    set t | t in TouchesOf(db) && t.OnEdge() == e && t.Height() <= h
  }

  ghost function HeightsOf(ts: set<TouchKey>): set<nat> {
    set t | t in ts :: t.Height()
  }

  /** The rollup of a set of distinct touches. */
  ghost function Rollup(ts: set<TouchKey>): Option<AddrEntry> {
    if ts == {} then None
    else Some(AddrEntry(MinOf(HeightsOf(ts)), MaxOf(HeightsOf(ts)), |ts|))
  }

  ghost function OwnerInstalls(db: Db, e: Edge, h: nat): set<nat> {
    set k | k in db.installs && k.scid == e.scid && k.height <= h && db.installs[k].owner == e.addr && e.addr != "" ::
        k.height
  }

  /** Step 1: the recomputed entry of an affected edge; the install row is the last resort. */
  ghost function Survivor(db: Db, e: Edge, h: nat): Option<AddrEntry> {
    var ts := TouchesUpTo(db, e, h);
    if ts != {} then Rollup(ts)
    else
      var owned := OwnerInstalls(db, e, h);
      if owned != {} then Some(Touched(MinOf(owned))) else None
  }

  ghost function TruncatedEdges(db: Db, h: nat): map<Edge, AddrEntry> {
    map e | e in db.addrScids && (e.scid in Affected(db, h) ==> Survivor(db, e, h).Some?) ::
      if e.scid in Affected(db, h) then Survivor(db, e, h).value else db.addrScids[e]
  }

  ghost function KeptSnapshot(scvars: map<ScidHeight, Variables>, s: Scid, h: nat): nat {
    MaxOf(set k | k in scvars && k.scid == s && k.height <= h :: k.height)
  }

  /** The greatest surviving snapshot height of s, 0 when none survives. */
  ghost function SurvivingSnapshot(db: Db, s: Scid, h: nat): nat { KeptSnapshot(db.scvars, s, h) }

  ghost function LoweredLatest(latest: map<Scid, nat>, scvars: map<ScidHeight, Variables>, aff: set<Scid>,
      h: nat): map<Scid, nat> {
    map s | s in latest.Keys + aff && (s in aff ==> KeptSnapshot(scvars, s, h) > 0) ::
      if s in aff then KeptSnapshot(scvars, s, h) else latest[s]
  }

  ghost function TruncatedLatest(db: Db, h: nat): map<Scid, nat> {
    LoweredLatest(db.latest, db.scvars, Affected(db, h), h)
  }

  function Removed(owners: map<Scid, Addr>, gone: set<Scid>): nat { |owners.Keys * gone| }

  function DropOwners(scCount: Option<int>, removed: nat): Option<int> {
    match scCount
    case Some(n) => if removed > 0 then Some(if n - removed < 0 then 0 else n - removed) else scCount
    case None => None
  }

  function RollBackLast(last: Option<nat>, h: nat): Option<nat> {
    match last
    case Some(cur) => Some(if cur < h then cur else h)
    case None => Some(h)
  }

  function StaleRows(idx: map<Scid, ClassMeta>, gone: set<Scid>): set<ClassKey> {
    set s | s in gone && s in idx :: RowOf(s, idx[s])
  }

  function StaleClassRows(db: Db, gone: set<Scid>): set<ClassKey> { StaleRows(db.classIdx, gone) }

  function KeepTela(m: map<TelaKey, string>, aff: set<Scid>): map<TelaKey, string> {
    map k | k in m && k.scid !in aff :: m[k]
  }

  /** Step 2, bounded to affected scids: an unaffected scid keeps its invocations. */
  function KeepInvokes(m: map<InvokeKey, Invocation>, aff: set<Scid>, h: nat): map<InvokeKey, Invocation> {
    map k | k in m && !(k.scid in aff && k.height > h) :: m[k]
  }

  function KeepRows<V>(m: map<ScidHeight, V>, h: nat): map<ScidHeight, V> {
    map k | k in m && k.height <= h :: m[k]
  }

  function KeepNorms(m: map<NormKey, NormalTx>, h: nat): map<NormKey, NormalTx> {
    map k | k in m && k.height <= h :: m[k]
  }

  function KeepHashes(m: map<nat, Hash>, h: nat): map<nat, Hash> {
    map k | k in m && k <= h :: m[k]
  }

  function KeepOwnerEdges(es: set<OwnerEdge>, gone: set<Scid>): set<OwnerEdge> {
    set e | e in es && e.scid !in gone
  }

  ghost function Truncate(db: Db, h: nat): Db {
    var gone, aff := InstalledAbove(db, h), Affected(db, h);
    Db(db.owners - gone,
       KeepInvokes(db.invokes, aff, h),
       KeepRows(db.scvars, h),
       TruncatedLatest(db, h),
       KeepRows(db.heights, h),
       KeepNorms(db.normTxs, h),
       db.invalid - gone,
       db.reg, db.burn, db.norm,
       DropOwners(db.scCount, Removed(db.owners, gone)),
       RollBackLast(db.last, h),
       KeepHashes(db.blockHashes, h),
       KeepRows(db.installs, h),
       db.classIdx - gone,
       db.classRows - StaleClassRows(db, gone),
       db.scCodes - gone,
       KeepOwnerEdges(db.ownerScids, gone),
       TruncatedEdges(db, h),
       KeepTela(db.tela, aff))
  }

  // ---------- Reads ----------

  /** GetSCIDCount: the stored row, or a count of the owners bucket. */
  function ScidCount(db: Db): int {
    match db.scCount
    case Some(n) => n
    case None => |db.owners|
  }

  /** GetLastIndexHeight: an absent row reads as 0. */
  function LastIndexHeight(db: Db): nat {
    match db.last
    case Some(n) => n
    case None => 0
  }

  // ---------- The other writers ----------

  function StoreOwnerIn(db: Db, s: Scid, o: Addr): Db {
    var owners := db.owners[s := o];
    db.(owners := owners,
        ownerScids := if o == "" then db.ownerScids else db.ownerScids + {OwnerEdge(o, s)},
        scCount := if s in db.owners then db.scCount
                   else match db.scCount case Some(n) => Some(n + 1) case None => Some(|owners|))
  }

  ghost function StoreVariablesIn(db: Db, s: Scid, h: nat, vars: Variables): Db {
    db.(scvars := db.scvars[ScidHeight(s, h) := vars], latest := RaiseLatest(db.latest, {ScidHeight(s, h)}))
  }

  function ResetDb(db: Db): Db { EMPTY_DB.(blockHashes := db.blockHashes) }
}
