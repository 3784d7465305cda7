/**
 The write batch (storage/storage.go): the Add* methods as state changes of a class,
 specified by a fold of calls over a batch value.
 */
module WriteBatches {
  import opened IndexTypes

  datatype Batch = Batch(
    owners: map<Scid, Addr>,
    invocations: seq<Invocation>,
    variables: map<ScidHeight, Variables>,
    heights: map<Scid, seq<nat>>,
    normalTxs: seq<NormalTxRef>,
    invalid: map<Scid, nat>,
    reg: nat, burn: nat, norm: nat,
    lastHeight: nat,
    blockHashes: map<nat, Hash>,
    installs: map<ScidHeight, InstallRecord>,
    classes: map<Scid, ClassMeta>,
    addrScids: map<Edge, AddrEntry>,
    scCodes: map<Scid, CodeEntry>,
    ownerScids: set<OwnerEdge>)

  const EMPTY_BATCH := Batch(map[], [], map[], map[], [], map[], 0, 0, 0, 0, map[], map[], map[], map[], map[], {})

  datatype Call =
    | Owner(scid: Scid, owner: Addr)
    | Invoke(inv: Invocation)
    | Snapshot(scid: Scid, height: nat, vars: Variables)
    | Interaction(scid: Scid, height: nat)
    | Normal(addr: Addr, txid: string, scid: Scid, fees: nat, height: nat)
    | BlockHash(height: nat, hash: Hash)
    | Install(scid: Scid, height: nat, rec: InstallRecord)
    | Class(scid: Scid, meta: ClassMeta)
    | Code(scid: Scid, installHeight: nat, code: string)
    | Touch(addr: Addr, scid: Scid, height: nat)
    | Invalid(scid: Scid, fees: nat)
    | Counts(reg: nat, burn: nat, norm: nat)
    | Last(height: nat)

  function Apply(b: Batch, c: Call): Batch {
    match c
    case Owner(s, o) =>
      b.(owners := b.owners[s := o],
         ownerScids := if o == "" || s == "" then b.ownerScids else b.ownerScids + {OwnerEdge(o, s)})
    case Invoke(inv) => b.(invocations := b.invocations + [inv])
    case Snapshot(s, h, vars) => b.(variables := b.variables[ScidHeight(s, h) := vars])
    case Interaction(s, h) => b.(heights := AddHeight(b.heights, s, h))
    case Normal(a, txid, s, fees, h) =>
      b.(normalTxs := b.normalTxs + [NormalTxRef(a, NormalTx(txid, s, fees, h))])
    case BlockHash(h, hash) => b.(blockHashes := b.blockHashes[h := hash])
    case Install(s, h, rec) => b.(installs := b.installs[ScidHeight(s, h) := rec])
    case Class(s, meta) => b.(classes := b.classes[s := meta])
    case Code(s, h, code) =>
      if s == "" || code == "" then b else b.(scCodes := b.scCodes[s := CodeEntry(code, h)])
    case Touch(a, s, h) =>
      if a == "" then b else b.(addrScids := AddTouch(b.addrScids, Edge(a, s), h))
    case Invalid(s, fees) => b.(invalid := b.invalid[s := fees])
    case Counts(r, u, n) => b.(reg := b.reg + r, burn := b.burn + u, norm := b.norm + n)
    case Last(h) => b.(lastHeight := h)
  }

  function Build(calls: seq<Call>): Batch {
    if calls == [] then EMPTY_BATCH
    else Apply(Build(calls[..|calls| - 1]), calls[|calls| - 1])
  }

  /** Pointwise merge of two address rollups. */
  function MergeEdges(a: map<Edge, AddrEntry>, b: map<Edge, AddrEntry>): map<Edge, AddrEntry> {
    map e | e in a.Keys + b.Keys ::
      if e !in b then a[e] else if e !in a then b[e] else MergeEntry(a[e], b[e])
  }

  function MergeHeights(a: map<Scid, seq<nat>>, b: map<Scid, seq<nat>>): map<Scid, seq<nat>> {
    map s | s in a.Keys + b.Keys :: GetOr(a, s, []) + GetOr(b, s, [])
  }

  /** The batch that results from a's calls followed by b's. */
  function Then(a: Batch, b: Batch): Batch {
    Batch(
      a.owners + b.owners,
      a.invocations + b.invocations,
      a.variables + b.variables,
      MergeHeights(a.heights, b.heights),
      a.normalTxs + b.normalTxs,
      a.invalid + b.invalid,
      a.reg + b.reg, a.burn + b.burn, a.norm + b.norm,
      if b.lastHeight > 0 then b.lastHeight else a.lastHeight,
      a.blockHashes + b.blockHashes,
      a.installs + b.installs,
      a.classes + b.classes,
      MergeEdges(a.addrScids, b.addrScids),
      a.scCodes + b.scCodes,
      a.ownerScids + b.ownerScids)
  }

  /** A last-height call always carries a positive height (newHeight = running + fetchCount). */
  ghost predicate PositiveLasts(calls: seq<Call>) {
    forall c <- calls :: c.Last? ==> c.height > 0
  }

  lemma OverrideThen<K, V>(a: map<K, V>, b: map<K, V>, k: K, v: V)
    ensures (a + b)[k := v] == a + b[k := v]
  {
  }

  /** The heights field after one more interaction of s at h. */
  function AddHeight(m: map<Scid, seq<nat>>, s: Scid, h: nat): map<Scid, seq<nat>> {
    m[s := GetOr(m, s, []) + [h]]
  }

  function AddTouch(m: map<Edge, AddrEntry>, e: Edge, h: nat): map<Edge, AddrEntry> {
    m[e := if e in m then MergeEntry(m[e], Touched(h)) else Touched(h)]
  }

  lemma HeightsThen(a: map<Scid, seq<nat>>, b: map<Scid, seq<nat>>, s: Scid, h: nat)
    ensures AddHeight(MergeHeights(a, b), s, h) == MergeHeights(a, AddHeight(b, s, h))
  {
    assert GetOr(MergeHeights(a, b), s, []) == GetOr(a, s, []) + GetOr(b, s, []);
    assert GetOr(a, s, []) + GetOr(b, s, []) + [h] == GetOr(a, s, []) + (GetOr(b, s, []) + [h]);
  }

  lemma EdgesThen(a: map<Edge, AddrEntry>, b: map<Edge, AddrEntry>, e: Edge, h: nat)
    ensures AddTouch(MergeEdges(a, b), e, h) == MergeEdges(a, AddTouch(b, e, h))
  {
  }

  lemma ApplyThen(a: Batch, b: Batch, c: Call)
    requires c.Last? ==> c.height > 0
    ensures Apply(Then(a, b), c) == Then(a, Apply(b, c))
  {
    hide Apply, Then;
    match c {
      case Owner(_, _) => ApplyThenOwner(a, b, c);
      case Invoke(_) => ApplyThenInvoke(a, b, c);
      case Interaction(_, _) => ApplyThenInteraction(a, b, c);
      case Normal(_, _, _, _, _) => ApplyThenNormal(a, b, c);
      case Counts(_, _, _) => ApplyThenCounters(a, b, c);
      case Last(_) => ApplyThenCounters(a, b, c);
      case Snapshot(_, _, _) => ApplyThenSnapshot(a, b, c);
      case BlockHash(_, _) => ApplyThenHash(a, b, c);
      case Install(_, _, _) => ApplyThenInstall(a, b, c);
      case Class(_, _) => ApplyThenClass(a, b, c);
      case Code(_, _, _) => ApplyThenCode(a, b, c);
      case Touch(_, _, _) => ApplyThenTouch(a, b, c);
      case Invalid(_, _) => ApplyThenInvalid(a, b, c);
    }
  }

  lemma ApplyThenOwner(a: Batch, b: Batch, c: Call)
    requires c.Owner?
    ensures Apply(Then(a, b), c) == Then(a, Apply(b, c))
  {
    hide MergeEdges, MergeHeights, AddHeight, AddTouch;
    OverrideThen(a.owners, b.owners, c.scid, c.owner);
    var e := {OwnerEdge(c.owner, c.scid)};
    assert (a.ownerScids + b.ownerScids) + e == a.ownerScids + (b.ownerScids + e);
  }

  lemma ApplyThenInvoke(a: Batch, b: Batch, c: Call)
    requires c.Invoke?
    ensures Apply(Then(a, b), c) == Then(a, Apply(b, c))
  {
    hide MergeEdges, MergeHeights, AddHeight, AddTouch;
    assert (a.invocations + b.invocations) + [c.inv] == a.invocations + (b.invocations + [c.inv]);
  }

  lemma ApplyThenInteraction(a: Batch, b: Batch, c: Call)
    requires c.Interaction?
    ensures Apply(Then(a, b), c) == Then(a, Apply(b, c))
  {
    hide MergeEdges, MergeHeights, AddHeight, AddTouch;
    HeightsThen(a.heights, b.heights, c.scid, c.height);
  }

  lemma ApplyThenNormal(a: Batch, b: Batch, c: Call)
    requires c.Normal?
    ensures Apply(Then(a, b), c) == Then(a, Apply(b, c))
  {
    hide MergeEdges, MergeHeights, AddHeight, AddTouch;
    var e := [NormalTxRef(c.addr, NormalTx(c.txid, c.scid, c.fees, c.height))];
    assert (a.normalTxs + b.normalTxs) + e == a.normalTxs + (b.normalTxs + e);
  }

  lemma ApplyThenCounters(a: Batch, b: Batch, c: Call)
    requires c.Counts? || (c.Last? && c.height > 0)
    ensures Apply(Then(a, b), c) == Then(a, Apply(b, c))
  {
    hide MergeEdges, MergeHeights, AddHeight, AddTouch;
  }

  lemma ApplyThenSnapshot(a: Batch, b: Batch, c: Call)
    requires c.Snapshot?
    ensures Apply(Then(a, b), c) == Then(a, Apply(b, c))
  {
    hide MergeEdges, MergeHeights, AddHeight, AddTouch;
    OverrideThen(a.variables, b.variables, ScidHeight(c.scid, c.height), c.vars);
  }

  lemma ApplyThenHash(a: Batch, b: Batch, c: Call)
    requires c.BlockHash?
    ensures Apply(Then(a, b), c) == Then(a, Apply(b, c))
  {
    hide MergeEdges, MergeHeights, AddHeight, AddTouch;
    OverrideThen(a.blockHashes, b.blockHashes, c.height, c.hash);
  }

  lemma ApplyThenInstall(a: Batch, b: Batch, c: Call)
    requires c.Install?
    ensures Apply(Then(a, b), c) == Then(a, Apply(b, c))
  {
    hide MergeEdges, MergeHeights, AddHeight, AddTouch;
    OverrideThen(a.installs, b.installs, ScidHeight(c.scid, c.height), c.rec);
  }

  lemma ApplyThenClass(a: Batch, b: Batch, c: Call)
    requires c.Class?
    ensures Apply(Then(a, b), c) == Then(a, Apply(b, c))
  {
    hide MergeEdges, MergeHeights, AddHeight, AddTouch;
    OverrideThen(a.classes, b.classes, c.scid, c.meta);
  }

  lemma ApplyThenCode(a: Batch, b: Batch, c: Call)
    requires c.Code?
    ensures Apply(Then(a, b), c) == Then(a, Apply(b, c))
  {
    hide MergeEdges, MergeHeights, AddHeight, AddTouch;
    OverrideThen(a.scCodes, b.scCodes, c.scid, CodeEntry(c.code, c.installHeight));
  }

  lemma ApplyThenTouch(a: Batch, b: Batch, c: Call)
    requires c.Touch?
    ensures Apply(Then(a, b), c) == Then(a, Apply(b, c))
  {
    hide MergeEdges, MergeHeights, AddHeight, AddTouch;
    EdgesThen(a.addrScids, b.addrScids, Edge(c.addr, c.scid), c.height);
  }

  lemma ApplyThenInvalid(a: Batch, b: Batch, c: Call)
    requires c.Invalid?
    ensures Apply(Then(a, b), c) == Then(a, Apply(b, c))
  {
    hide MergeEdges, MergeHeights, AddHeight, AddTouch;
    OverrideThen(a.invalid, b.invalid, c.scid, c.fees);
  }

  /** Building is a homomorphism: a batch for c + d is the batch for c then the one for d. */
  lemma {:induction false} BuildThen(c: seq<Call>, d: seq<Call>)
    requires PositiveLasts(d)
    ensures Build(c + d) == Then(Build(c), Build(d))
  {
    hide Then, Apply;
    if d == [] {
      assert c + d == c;
      ThenEmpty(Build(c));
    } else {
      var d', x := d[..|d| - 1], d[|d| - 1];
      BuildThen(c, d');
      assert (c + d)[..|c + d| - 1] == c + d';
      ApplyThen(Build(c), Build(d'), x);
    }
  }

  lemma ThenEmpty(b: Batch)
    ensures Then(b, EMPTY_BATCH) == b
  {
    hide Then;
    ScannedThenEmpty(b);
    RoutedThenEmpty(b);
  }

  lemma ScannedThenEmpty(b: Batch)
    ensures var after := Then(b, EMPTY_BATCH);
            && after.owners == b.owners && after.invocations == b.invocations && after.variables == b.variables
            && after.heights == b.heights && after.normalTxs == b.normalTxs && after.invalid == b.invalid
            && after.reg == b.reg && after.burn == b.burn && after.norm == b.norm && after.lastHeight == b.lastHeight
  {
    hide MergeEdges, MergeHeights;
    HeightsEmpty(b.heights);
  }

  lemma RoutedThenEmpty(b: Batch)
    ensures var after := Then(b, EMPTY_BATCH);
            && after.blockHashes == b.blockHashes && after.installs == b.installs && after.classes == b.classes
            && after.addrScids == b.addrScids && after.scCodes == b.scCodes && after.ownerScids == b.ownerScids
  {
    hide MergeEdges, MergeHeights;
    EdgesEmpty(b.addrScids);
  }

  lemma HeightsEmpty(m: map<Scid, seq<nat>>)
    ensures MergeHeights(m, map[]) == m
  {
    assert forall s <- m :: m[s] + [] == m[s];
  }

  lemma EdgesEmpty(m: map<Edge, AddrEntry>)
    ensures MergeEdges(m, map[]) == m
  {
  }

  class WriteBatch {
    var owners: map<Scid, Addr>
    var invocations: seq<Invocation>
    var variables: map<ScidHeight, Variables>
    var heights: map<Scid, seq<nat>>
    var normalTxs: seq<NormalTxRef>
    var invalidScids: map<Scid, nat>
    var regTxCount: nat
    var burnTxCount: nat
    var normTxCount: nat
    var lastHeight: nat
    var blockHashes: map<nat, Hash>
    var installs: map<ScidHeight, InstallRecord>
    var classes: map<Scid, ClassMeta>
    var addrScids: map<Edge, AddrEntry>
    var scCodes: map<Scid, CodeEntry>
    var ownerScids: map<Addr, set<Scid>>

    /** No stored owner set is under the empty owner (AddOwner skips it). */
    ghost predicate Valid()
      reads this
    {
      "" !in ownerScids
    }

    ghost function View(): Batch
      reads this
    {
      Batch(owners, invocations, variables, heights, normalTxs, invalidScids,
            regTxCount, burnTxCount, normTxCount, lastHeight, blockHashes, installs, classes,
            addrScids, scCodes, EdgesOf(ownerScids))
    }

    constructor ()
      ensures Valid() && View() == EMPTY_BATCH
    {
      owners, invocations, variables, heights, normalTxs := map[], [], map[], map[], [];
      invalidScids, regTxCount, burnTxCount, normTxCount, lastHeight := map[], 0, 0, 0, 0;
      blockHashes, installs, classes, addrScids, scCodes, ownerScids := map[], map[], map[], map[], map[], map[];
    }

    method AddOwner(scid: Scid, owner: Addr)
      requires Valid()
      modifies this
      ensures Valid() && View() == Apply(old(View()), Owner(scid, owner))
    {
      owners := owners[scid := owner];
      if owner == "" || scid == "" {
        return;
      }
      var scids := if owner in ownerScids then ownerScids[owner] else {};
      ownerScids := ownerScids[owner := scids + {scid}];
      AddedEdge(old(ownerScids), owner, scid);
    }

    method AddInvocation(rec: Invocation)
      requires Valid()
      modifies this
      ensures Valid() && View() == Apply(old(View()), Invoke(rec))
    {
      invocations := invocations + [rec];
    }

    method AddVariables(scid: Scid, height: nat, vars: Variables)
      requires Valid()
      modifies this
      ensures Valid() && View() == Apply(old(View()), Snapshot(scid, height, vars))
    {
      variables := variables[ScidHeight(scid, height) := vars];
    }

    method AddInteractionHeight(scid: Scid, height: nat)
      requires Valid()
      modifies this
      ensures Valid() && View() == Apply(old(View()), Interaction(scid, height))
    {
      heights := heights[scid := (if scid in heights then heights[scid] else []) + [height]];
    }

    method AddNormalTx(addr: Addr, txid: string, scid: Scid, fees: nat, height: nat)
      requires Valid()
      modifies this
      ensures Valid() && View() == Apply(old(View()), Normal(addr, txid, scid, fees, height))
    {
      normalTxs := normalTxs + [NormalTxRef(addr, NormalTx(txid, scid, fees, height))];
    }

    method AddBlockHash(height: nat, hash: Hash)
      requires Valid()
      modifies this
      ensures Valid() && View() == Apply(old(View()), BlockHash(height, hash))
    {
      blockHashes := blockHashes[height := hash];
    }

    method AddInstall(scid: Scid, height: nat, rec: InstallRecord)
      requires Valid()
      modifies this
      ensures Valid() && View() == Apply(old(View()), Install(scid, height, rec))
    {
      installs := installs[ScidHeight(scid, height) := rec];
    }

    method AddClass(scid: Scid, meta: ClassMeta)
      requires Valid()
      modifies this
      ensures Valid() && View() == Apply(old(View()), Class(scid, meta))
    {
      classes := classes[scid := meta];
    }

    method AddScCode(scid: Scid, installHeight: nat, code: string)
      requires Valid()
      modifies this
      ensures Valid() && View() == Apply(old(View()), Code(scid, installHeight, code))
    {
      if scid == "" || code == "" {
        return;
      }
      scCodes := scCodes[scid := CodeEntry(code, installHeight)];
    }

    method AddAddrScid(addr: Addr, scid: Scid, height: nat)
      requires Valid()
      modifies this
      ensures Valid() && View() == Apply(old(View()), Touch(addr, scid, height))
    {
      if addr == "" {
        return;
      }
      var k := Edge(addr, scid);
      if k !in addrScids {
        addrScids := addrScids[k := AddrEntry(height, height, 1)];
        return;
      }
      var e := addrScids[k];
      if height < e.first {
        e := e.(first := height);
      }
      if height > e.last {
        e := e.(last := height);
      }
      e := e.(count := e.count + 1);
      addrScids := addrScids[k := e];
    }

    method Reset()
      modifies this
      ensures Valid() && View() == EMPTY_BATCH
    {
      ClearScanned();
      ClearRouted();
      NoEdges();
      hide EdgesOf;
    }

    method ClearScanned()
      modifies `owners, `invocations, `variables, `heights, `normalTxs, `invalidScids, `ownerScids
      ensures owners == map[] && invocations == [] && variables == map[] && heights == map[]
      ensures normalTxs == [] && invalidScids == map[] && ownerScids == map[]
    {
      owners, invocations, variables, heights := map[], [], map[], map[];
      normalTxs, invalidScids, ownerScids := [], map[], map[];
    }

    method ClearRouted()
      modifies `blockHashes, `installs, `classes, `addrScids, `scCodes, `regTxCount, `burnTxCount, `normTxCount,
          `lastHeight
      ensures blockHashes == map[] && installs == map[] && classes == map[] && addrScids == map[] && scCodes == map[]
      ensures regTxCount == 0 && burnTxCount == 0 && normTxCount == 0 && lastHeight == 0
    {
      blockHashes, installs, classes, addrScids, scCodes := map[], map[], map[], map[], map[];
      regTxCount, burnTxCount, normTxCount, lastHeight := 0, 0, 0, 0;
    }
  }

  /** The owner -> scids nested map as flat reverse edges. */
  ghost function EdgesOf(m: map<Addr, set<Scid>>): set<OwnerEdge> {
    set o, s | o in m && s in m[o] :: OwnerEdge(o, s)
  }

  lemma NoEdges()
    ensures EdgesOf(map[]) == {}
  {
  }

  lemma AddedEdge(m: map<Addr, set<Scid>>, owner: Addr, scid: Scid)
    ensures EdgesOf(m[owner := GetOr(m, owner, {}) + {scid}]) == EdgesOf(m) + {OwnerEdge(owner, scid)}
  {
    var m' := m[owner := GetOr(m, owner, {}) + {scid}];
    forall e: OwnerEdge ensures e in EdgesOf(m') <==> e in EdgesOf(m) + {OwnerEdge(owner, scid)} {
      assert e in EdgesOf(m') <==> e.owner in m' && e.scid in m'[e.owner];
      assert e in EdgesOf(m) <==> e.owner in m && e.scid in m[e.owner];
    }
  }
}
