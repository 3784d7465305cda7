/**
 The processor writes a fetched group in its own order (indexer/indexer.go, processorLoop):
 all block hashes, then all transactions, then the counters, then one last height. This
 module shows the batch is the same as adding the blocks one after another.
 */
module CallOrder {
  import opened IndexTypes
  import opened WriteBatches
  import opened TurboHistory

  /** Calls whose field no other kind of call touches. */
  predicate IsSeal(c: Call) { c.BlockHash? || c.Last? || c.Counts? }

  function Hashes(cs: seq<Call>): seq<Call> {
    if cs == [] then []
    else
      var c := cs[|cs| - 1];
      Hashes(cs[..|cs| - 1]) + (if c.BlockHash? then [c] else [])
  }

  function Others(cs: seq<Call>): seq<Call> {
    if cs == [] then []
    else
      var c := cs[|cs| - 1];
      Others(cs[..|cs| - 1]) + (if IsSeal(c) then [] else [c])
  }

  function LastOf(cs: seq<Call>): nat {
    if cs == [] then 0
    else
      var c := cs[|cs| - 1];
      if c.Last? then c.height else LastOf(cs[..|cs| - 1])
  }

  datatype Tally = Tally(reg: nat, burn: nat, norm: nat)

  function Add(t: Tally, u: Tally): Tally { Tally(t.reg + u.reg, t.burn + u.burn, t.norm + u.norm) }

  function TallyOf(cs: seq<Call>): Tally {
    if cs == [] then Tally(0, 0, 0)
    else
      var c := cs[|cs| - 1];
      Add(TallyOf(cs[..|cs| - 1]), if c.Counts? then Tally(c.reg, c.burn, c.norm) else Tally(0, 0, 0))
  }

  function PutHashes(m: map<nat, Hash>, cs: seq<Call>): map<nat, Hash>
    requires forall c <- cs :: c.BlockHash?
  {
    if cs == [] then m
    else
      var c := cs[|cs| - 1];
      PutHashes(m, cs[..|cs| - 1])[c.height := c.hash]
  }

  lemma {:induction false} HashesAre(cs: seq<Call>)
    ensures forall c <- Hashes(cs) :: c.BlockHash?
    ensures forall c <- Others(cs) :: !IsSeal(c)
  {
    if cs != [] {
      HashesAre(cs[..|cs| - 1]);
    }
  }

  function Sealed(b: Batch, hashes: map<nat, Hash>, last: nat, t: Tally): Batch {
    b.(blockHashes := hashes, lastHeight := last, reg := t.reg, burn := t.burn, norm := t.norm)
  }

  lemma ApplyUnderSeal(b: Batch, c: Call, hashes: map<nat, Hash>, last: nat, t: Tally)
    requires !IsSeal(c)
    ensures Apply(Sealed(b, hashes, last, t), c) == Sealed(Apply(b, c), hashes, last, t)
    ensures Apply(b, c).blockHashes == b.blockHashes && Apply(b, c).lastHeight == b.lastHeight
  {
    hide Apply, Sealed;
    if c.Owner? || c.Invoke? || c.Interaction? {
      ApplyUnderSealScan(b, c, hashes, last, t);
    } else if c.Normal? || c.Snapshot? || c.Install? || c.Class? {
      ApplyUnderSealRows(b, c, hashes, last, t);
    } else if c.Code? {
      ApplyUnderSealCode(b, c, hashes, last, t);
    } else if c.Touch? {
      ApplyUnderSealTouch(b, c, hashes, last, t);
    } else {
      ApplyUnderSealInvalid(b, c, hashes, last, t);
    }
  }

  lemma ApplyUnderSealScan(b: Batch, c: Call, hashes: map<nat, Hash>, last: nat, t: Tally)
    requires c.Owner? || c.Invoke? || c.Interaction?
    ensures Apply(Sealed(b, hashes, last, t), c) == Sealed(Apply(b, c), hashes, last, t)
    ensures Apply(b, c).blockHashes == b.blockHashes && Apply(b, c).lastHeight == b.lastHeight
  {
    hide AddHeight, AddTouch;
  }

  lemma ApplyUnderSealRows(b: Batch, c: Call, hashes: map<nat, Hash>, last: nat, t: Tally)
    requires c.Normal? || c.Snapshot? || c.Install? || c.Class?
    ensures Apply(Sealed(b, hashes, last, t), c) == Sealed(Apply(b, c), hashes, last, t)
    ensures Apply(b, c).blockHashes == b.blockHashes && Apply(b, c).lastHeight == b.lastHeight
  {
    hide AddHeight, AddTouch;
  }

  lemma ApplyUnderSealCode(b: Batch, c: Call, hashes: map<nat, Hash>, last: nat, t: Tally)
    requires c.Code?
    ensures Apply(Sealed(b, hashes, last, t), c) == Sealed(Apply(b, c), hashes, last, t)
    ensures Apply(b, c).blockHashes == b.blockHashes && Apply(b, c).lastHeight == b.lastHeight
  {
    ApplyCode(b, c);
    ApplyCode(Sealed(b, hashes, last, t), c);
    hide Apply;
  }

  lemma ApplyCode(b: Batch, c: Call)
    requires c.Code?
    ensures Apply(b, c) ==
            if c.scid == "" || c.code == "" then b
                else b.(scCodes := b.scCodes[c.scid := CodeEntry(c.code, c.installHeight)])
  {
    hide AddHeight, AddTouch;
  }

  lemma ApplyUnderSealTouch(b: Batch, c: Call, hashes: map<nat, Hash>, last: nat, t: Tally)
    requires c.Touch?
    ensures Apply(Sealed(b, hashes, last, t), c) == Sealed(Apply(b, c), hashes, last, t)
    ensures Apply(b, c).blockHashes == b.blockHashes && Apply(b, c).lastHeight == b.lastHeight
  {
    ApplyTouch(b, c);
    ApplyTouch(Sealed(b, hashes, last, t), c);
    hide Apply, AddTouch;
  }

  lemma ApplyTouch(b: Batch, c: Call)
    requires c.Touch?
    ensures Apply(b, c) ==
            if c.addr == "" then b else b.(addrScids := AddTouch(b.addrScids, Edge(c.addr, c.scid), c.height))
  {
    hide AddHeight, AddTouch;
  }

  lemma ApplyUnderSealInvalid(b: Batch, c: Call, hashes: map<nat, Hash>, last: nat, t: Tally)
    requires c.Invalid?
    ensures Apply(Sealed(b, hashes, last, t), c) == Sealed(Apply(b, c), hashes, last, t)
    ensures Apply(b, c).blockHashes == b.blockHashes && Apply(b, c).lastHeight == b.lastHeight
  {
    hide AddHeight, AddTouch;
  }

  lemma ByKindMore(cs: seq<Call>)
    requires cs != []
    ensures var init, c := cs[..|cs| - 1], cs[|cs| - 1];
            && Others(cs) == Others(init) + (if IsSeal(c) then [] else [c])
            && Hashes(cs) == Hashes(init) + (if c.BlockHash? then [c] else [])
            && LastOf(cs) == (if c.Last? then c.height else LastOf(init))
            && TallyOf(cs) == Add(TallyOf(init), if c.Counts? then Tally(c.reg, c.burn, c.norm) else Tally(0, 0, 0))
            && Add(TallyOf(init), Tally(0, 0, 0)) == TallyOf(init)
            && Build(cs) == Apply(Build(init), c)
  {
    hide Apply;
  }

  lemma OneMoreHash(hs: seq<Call>, c: Call)
    requires (forall h <- hs :: h.BlockHash?) && c.BlockHash?
    ensures forall h <- hs + [c] :: h.BlockHash?
    ensures PutHashes(map[], hs + [c]) == PutHashes(map[], hs)[c.height := c.hash]
  {
    assert (hs + [c])[..|hs|] == hs;
  }

  lemma OneMoreCall(cs: seq<Call>, c: Call)
    ensures Build(cs + [c]) == Apply(Build(cs), c)
  {
    hide Apply;
    assert (cs + [c])[..|cs|] == cs;
  }

  /** A batch is determined by its hashes, its other calls, its counters and its last height. */
  lemma {:induction false} BuildByKind(cs: seq<Call>)
    ensures forall c <- Hashes(cs) :: c.BlockHash?
    ensures Build(cs) == Sealed(Build(Others(cs)), PutHashes(map[], Hashes(cs)), LastOf(cs), TallyOf(cs))
  {
    HashesAre(cs);
    if cs == [] {
      EmptySealed();
    } else {
      hide *;
      var init, c := cs[..|cs| - 1], cs[|cs| - 1];
      ByKindMore(cs);
      BuildByKind(init);
      var b, hashes, last, t := Build(Others(init)), PutHashes(map[], Hashes(init)), LastOf(init), TallyOf(init);
      if IsSeal(c) {
        ApplySeal(b, c, hashes, last, t);
        assert Others(init) + [] == Others(init);
        if c.BlockHash? {
          OneMoreHash(Hashes(init), c);
        } else {
          assert Hashes(init) + [] == Hashes(init);
        }
      } else {
        OneMoreCall(Others(init), c);
        ApplyUnderSeal(b, c, hashes, last, t);
        assert Hashes(init) + [] == Hashes(init);
      }
    }
  }

  lemma EmptySealed()
    ensures Sealed(EMPTY_BATCH, map[], 0, Tally(0, 0, 0)) == EMPTY_BATCH
  {
  }

  lemma ApplySeal(b: Batch, c: Call, hashes: map<nat, Hash>, last: nat, t: Tally)
    requires IsSeal(c)
    ensures Apply(Sealed(b, hashes, last, t), c) ==
            Sealed(b, if c.BlockHash? then hashes[c.height := c.hash] else hashes,
                   if c.Last? then c.height else last,
                   Add(t, if c.Counts? then Tally(c.reg, c.burn, c.norm) else Tally(0, 0, 0)))
  {
  }

  ghost predicate SameByKind(x: seq<Call>, y: seq<Call>) {
    Hashes(x) == Hashes(y) && Others(x) == Others(y) && LastOf(x) == LastOf(y) && TallyOf(x) == TallyOf(y)
  }

  lemma SameByKindBuild(x: seq<Call>, y: seq<Call>)
    requires SameByKind(x, y)
    ensures Build(x) == Build(y)
  {
    hide Build;
    BuildByKind(x);
    BuildByKind(y);
  }

  lemma {:induction false} HashesCat(x: seq<Call>, y: seq<Call>)
    ensures Hashes(x + y) == Hashes(x) + Hashes(y)
  {
    if y == [] {
      assert x + y == x;
    } else {
      assert (x + y)[..|x + y| - 1] == x + y[..|y| - 1];
      HashesCat(x, y[..|y| - 1]);
    }
  }

  lemma {:induction false} OthersCat(x: seq<Call>, y: seq<Call>)
    ensures Others(x + y) == Others(x) + Others(y)
  {
    if y == [] {
      assert x + y == x;
    } else {
      assert (x + y)[..|x + y| - 1] == x + y[..|y| - 1];
      OthersCat(x, y[..|y| - 1]);
    }
  }

  lemma {:induction false} TallyCat(x: seq<Call>, y: seq<Call>)
    ensures TallyOf(x + y) == Add(TallyOf(x), TallyOf(y))
  {
    if y == [] {
      assert x + y == x;
    } else {
      assert (x + y)[..|x + y| - 1] == x + y[..|y| - 1];
      TallyCat(x, y[..|y| - 1]);
    }
  }

  lemma KindsCat(x: seq<Call>, y: seq<Call>)
    ensures Hashes(x + y) == Hashes(x) + Hashes(y) && Others(x + y) == Others(x) + Others(y)
    ensures TallyOf(x + y) == Add(TallyOf(x), TallyOf(y))
  {
    HashesCat(x, y);
    OthersCat(x, y);
    TallyCat(x, y);
  }

  // ---------- One fetched group ----------

  /** The events of the blocks at heights start + 1 .. start + |bs|. */
  function GroupEvents(bs: seq<Block>, start: nat): seq<Event> {
    if bs == [] then []
    else GroupEvents(bs[..|bs| - 1], start) + BlockEvents(bs[|bs| - 1], start + |bs|)
  }

  /** What the processor adds for a group, before the last height. */
  function GroupCalls(bs: seq<Block>, start: nat): seq<Call> {
    GroupHashes(bs, start) + Others(EventCalls(GroupEvents(bs, start))) +
    [var t := TallyOf(EventCalls(GroupEvents(bs, start))); Counts(t.reg, t.burn, t.norm)]
  }

  function GroupHashes(bs: seq<Block>, start: nat): seq<Call> {
    if bs == [] then []
    else
      var b := bs[|bs| - 1];
      GroupHashes(bs[..|bs| - 1], start) + (if b.hash == "" then [] else [BlockHash(start + |bs|, b.hash)])
  }

  lemma {:induction false} TxCalls(es: seq<Event>)
    requires forall ev <- es :: !ev.tx.SealTx?
    ensures Hashes(EventCalls(es)) == []
  {
    hide CallsOf;
    if es != [] {
      var init, ev := es[..|es| - 1], es[|es| - 1];
      TxCalls(init);
      HashesCat(EventCalls(init), CallsOf(ev));
      NoHashCalls(ev);
    }
  }

  lemma NoHashCalls(ev: Event)
    requires !ev.tx.SealTx?
    ensures Hashes(CallsOf(ev)) == []
  {
    hide Hashes;
    NoHashes(CallsOf(ev));
  }

  lemma {:induction false} NoHashes(q: seq<Call>)
    requires forall c <- q :: !c.BlockHash?
    ensures Hashes(q) == []
  {
    if q != [] {
      NoHashes(q[..|q| - 1]);
    }
  }

  lemma SealKinds(h: nat, hash: Hash)
    ensures var q := CallsOf(Event(h, SealTx(hash)));
            && Hashes(q) == (if hash == "" then [] else [BlockHash(h, hash)])
            && q != [] && q[|q| - 1] == Last(h)
  {
    hide Hashes;
    var q := if hash == "" then [Last(h)] else [BlockHash(h, hash)] + [Last(h)];
    assert CallsOf(Event(h, SealTx(hash))) == q;
    hide CallsOf;
    KindsOfLast(h);
    if hash != "" {
      KindsOfHash(h, hash);
      HashesCat([BlockHash(h, hash)], [Last(h)]);
    }
  }

  lemma KindsOfHash(h: nat, hash: Hash)
    ensures Hashes([BlockHash(h, hash)]) == [BlockHash(h, hash)]
  {
    assert [BlockHash(h, hash)][..0] == [];
  }

  lemma KindsOfLast(h: nat)
    ensures Hashes([Last(h)]) == [] && Others([Last(h)]) == [] && TallyOf([Last(h)]) == Tally(0, 0, 0)
  {
    assert [Last(h)][..0] == [];
  }

  lemma KindsOfCounts(t: Tally)
    ensures var q := [Counts(t.reg, t.burn, t.norm)];
            Hashes(q) == [] && Others(q) == [] && TallyOf(q) == t
  {
    assert [Counts(t.reg, t.burn, t.norm)][..0] == [];
  }

  lemma BlockKinds(b: Block, h: nat)
    requires forall tx <- b.txs :: !tx.SealTx?
    ensures var q := EventCalls(BlockEvents(b, h));
            && Hashes(q) == (if b.hash == "" then [] else [BlockHash(h, b.hash)])
            && q != [] && q[|q| - 1] == Last(h)
  {
    hide CallsOf, Hashes;
    var es := BlockEvents(b, h);
    var txs, seal := es[..|b.txs|], Event(h, SealTx(b.hash));
    assert es[..|es| - 1] == txs && es[|es| - 1] == seal;
    forall ev | ev in txs ensures !ev.tx.SealTx? {
      var i :| 0 <= i < |txs| && txs[i] == ev;
      assert ev.tx == b.txs[i];
    }
    TxCalls(txs);
    SealKinds(h, b.hash);
    HashesCat(EventCalls(txs), CallsOf(seal));
    assert EventCalls(es) == EventCalls(txs) + CallsOf(seal);
  }

  lemma SealedPrefix(bs: seq<Block>)
    requires SealedOnce(bs) && bs != []
    ensures SealedOnce(bs[..|bs| - 1]) && forall tx <- bs[|bs| - 1].txs :: !tx.SealTx?
  {
    assert bs[|bs| - 1] in bs && forall x <- bs[..|bs| - 1] :: x in bs;
  }

  lemma {:induction false} GroupKinds(bs: seq<Block>, start: nat)
    requires SealedOnce(bs)
    ensures var q := EventCalls(GroupEvents(bs, start));
            && Hashes(q) == GroupHashes(bs, start)
            && (bs != [] ==> q != [] && q[|q| - 1] == Last(start + |bs|))
    ensures forall c <- GroupHashes(bs, start) :: c.BlockHash?
  {
    hide BlockEvents, CallsOf, Hashes, EventCalls;
    if bs == [] {
      NoEvents();
    } else {
      var init, b := bs[..|bs| - 1], bs[|bs| - 1];
      SealedPrefix(bs);
      hide SealedOnce;
      GroupKinds(init, start);
      BlockKinds(b, start + |bs|);
      EventCallsCat(GroupEvents(init, start), BlockEvents(b, start + |bs|));
      HashesCat(EventCalls(GroupEvents(init, start)), EventCalls(BlockEvents(b, start + |bs|)));
    }
  }

  lemma NoEvents()
    ensures EventCalls([]) == [] && Hashes([]) == []
  {
  }

  lemma {:induction false} KindsOfHashes(cs: seq<Call>)
    requires forall c <- cs :: c.BlockHash?
    ensures Hashes(cs) == cs && Others(cs) == [] && TallyOf(cs) == Tally(0, 0, 0)
  {
    if cs != [] {
      KindsOfHashes(cs[..|cs| - 1]);
      assert cs == cs[..|cs| - 1] + [cs[|cs| - 1]];
    }
  }

  lemma {:induction false} OthersFixed(cs: seq<Call>)
    requires forall c <- cs :: !IsSeal(c)
    ensures Others(cs) == cs
  {
    if cs != [] {
      OthersFixed(cs[..|cs| - 1]);
      assert cs == cs[..|cs| - 1] + [cs[|cs| - 1]];
    }
  }

  lemma {:induction false} NoTally(cs: seq<Call>)
    requires forall c <- cs :: !c.Counts?
    ensures TallyOf(cs) == Tally(0, 0, 0)
  {
    if cs != [] {
      NoTally(cs[..|cs| - 1]);
    }
  }

  /** The processor's order for a group builds what the blocks build one after another. */
  lemma GroupIsBlocks(bs: seq<Block>, start: nat)
    requires SealedOnce(bs) && bs != []
    ensures SameByKind(GroupCalls(bs, start) + [Last(start + |bs|)], EventCalls(GroupEvents(bs, start)))
  {
    hide GroupEvents, EventCalls, Hashes, Others, TallyOf;
    var q := EventCalls(GroupEvents(bs, start));
    var t, h := TallyOf(q), start + |bs|;
    var x, y, z := GroupHashes(bs, start), Others(q), [Counts(t.reg, t.burn, t.norm)];
    GroupKinds(bs, start);
    HashesAre(q);
    KindsOfHashes(x);
    NoHashes(y);
    OthersFixed(y);
    NoTally(y);
    KindsOfCounts(t);
    KindsOfLast(h);
    KindsCat(x, y);
    KindsCat(x + y, z);
    KindsCat(x + y + z, [Last(h)]);
  }
}
