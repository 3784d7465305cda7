/**
 The records and keys of the index store (structures/types.go, storage/storage.go).
 A bucket is a map from decoded keys; module IndexKeys proves that the byte keys the
 store builds decode back to these and that its cursor scans select the same rows.
 */
module IndexTypes {

  datatype Option<+T> = None | Some(value: T)

  type Scid = string
  type Addr = string
  type Hash = string

  datatype Variable = Variable(name: string, content: string)
  type Variables = seq<Variable>

  datatype InstallRecord = InstallRecord(owner: Addr, entrypoint: string, fees: nat)

  /** `columns` holds the fields the store only carries: tags, names, URLs, media. */
  datatype ClassMeta = ClassMeta(className: string, installHeight: nat, lastHeight: nat, columns: seq<string>)

  datatype CodeEntry = CodeEntry(code: string, installHeight: nat)

  datatype ScTx = ScTx(txid: string, scid: Scid, entrypoint: string, sender: Addr,
                       installs: bool, fees: nat, height: nat, args: string)
  datatype Invocation = Invocation(scid: Scid, sender: Addr, entrypoint: string, height: nat, details: ScTx)

  datatype NormalTx = NormalTx(txid: string, scid: Scid, fees: nat, height: nat)
  datatype NormalTxRef = NormalTxRef(addr: Addr, tx: NormalTx)

  /** Row keys. ScidHeight keys the scvars, height and installs buckets. */
  datatype ScidHeight = ScidHeight(scid: Scid, height: nat)
  datatype InvokeKey = InvokeKey(scid: Scid, sender: Addr, txid: string, height: nat, entrypoint: string)
  datatype NormKey = NormKey(addr: Addr, height: nat, txid: string, scid: Scid)
  datatype ClassKey = ClassKey(className: string, height: nat, scid: Scid)
  datatype OwnerEdge = OwnerEdge(owner: Addr, scid: Scid)
  datatype Edge = Edge(addr: Addr, scid: Scid)
  datatype TelaKey = TelaKey(scid: Scid, path: string)

  function KeyOfInvocation(inv: Invocation): InvokeKey {
    InvokeKey(inv.scid, inv.sender, inv.details.txid, inv.height, inv.entrypoint)
  }

  function KeyOfNormal(e: NormalTxRef): NormKey {
    NormKey(e.addr, e.tx.height, e.tx.txid, e.tx.scid)
  }

  function RowOf(scid: Scid, meta: ClassMeta): ClassKey {
    ClassKey(meta.className, meta.installHeight, scid)
  }

  function Min(a: nat, b: nat): nat { if a < b then a else b }
  function Max(a: nat, b: nat): nat { if a > b then a else b }

  /** The addr_scids value: first and last touch height and the number of touches. */
  datatype AddrEntry = AddrEntry(first: nat, last: nat, count: nat)

  function Touched(h: nat): AddrEntry { AddrEntry(h, h, 1) }

  function MergeEntry(a: AddrEntry, b: AddrEntry): AddrEntry {
    AddrEntry(Min(a.first, b.first), Max(a.last, b.last), a.count + b.count)
  }

  function GetOr<K, V>(m: map<K, V>, k: K, default: V): V {
    if k in m then m[k] else default
  }

  /** The greatest element of a finite set of heights, 0 when there is none. */
  ghost function MaxOf(hs: set<nat>): (m: nat)
    ensures hs == {} ==> m == 0
    ensures hs != {} ==> m in hs
    ensures forall h <- hs :: h <= m
  {
    if hs == {} then 0
    else
      var h :| h in hs;
      var rest := MaxOf(hs - {h});
      assert forall x <- hs :: x == h || x in hs - {h};
      if hs == {h} || rest < h then h else rest
  }

  /** The least element of a finite set of heights, 0 when there is none. */
  ghost function MinOf(hs: set<nat>): (m: nat)
    ensures hs == {} ==> m == 0
    ensures hs != {} ==> m in hs
    ensures forall h <- hs :: m <= h
  {
    if hs == {} then 0
    else
      var h :| h in hs;
      var rest := MinOf(hs - {h});
      assert forall x <- hs :: x == h || x in hs - {h};
      if hs == {h} || h < rest then h else rest
  }
}
