/**
 Reorg detection and convergence (indexer/reorg.go): the downward fork search, and what
 truncating to its answer and replaying the daemon's blocks does to the index.
 */
module Reorg {
  import opened IndexTypes
  import opened WriteBatches
  import opened IndexDb
  import opened BatchBoundary
  import opened DerivedIndexes
  import opened TurboHistory
  import opened Rollback

  datatype Lookup = Failed | Found(hash: Hash)
  datatype Search = Fork(height: int) | Unknown | Retry

  /** Stored and daemon hash are both present and equal. */
  predicate Agrees(stored: int -> Lookup, daemon: int -> Lookup, h: int) {
    stored(h).Found? && stored(h).hash != "" && daemon(h) == stored(h)
  }

  /** The search looks at h and keeps walking down: a stored hash the daemon does not confirm. */
  predicate WalksPast(stored: int -> Lookup, daemon: int -> Lookup, h: int) {
    stored(h).Found? && stored(h).hash != "" && daemon(h).Found? && daemon(h) != stored(h)
  }

  /** A lookup the search needs at h fails. */
  predicate FailsAt(stored: int -> Lookup, daemon: int -> Lookup, h: int) {
    stored(h).Failed? || (stored(h).hash != "" && daemon(h).Failed?)
  }

  predicate Reaches(stored: int -> Lookup, daemon: int -> Lookup, from: int, h: int) {
    forall k | h < k <= from :: WalksPast(stored, daemon, k)
  }

  /** findForkPoint: examines at most maxDepth + 1 heights, from `suspected` down. */
  method FindForkPoint(suspected: int, stored: int -> Lookup, daemon: int -> Lookup, maxDepth: int) returns (r: Search)
    ensures r.Fork? ==>
              && 0 <= r.height <= suspected && suspected - maxDepth <= r.height
              && Agrees(stored, daemon, r.height) && Reaches(stored, daemon, suspected, r.height)
    ensures r.Retry? ==>
              exists h | 0 <= h <= suspected && suspected - maxDepth <= h ::
                FailsAt(stored, daemon, h) && Reaches(stored, daemon, suspected, h)
    ensures r.Unknown? && suspected >= 1 ==>
              forall h | 0 <= h <= suspected && suspected - maxDepth <= h ::
                Reaches(stored, daemon, suspected, h) ==> !Agrees(stored, daemon, h) && !FailsAt(stored, daemon, h)
    ensures suspected < 1 ==> r == Unknown
  {
    if suspected < 1 {
      return Unknown;
    }
    var lo := suspected - maxDepth;
    if lo < 0 {
      lo := 0;
    }
    var h := suspected;
    while h >= lo
      invariant h <= suspected
      invariant Reaches(stored, daemon, suspected, h)
      decreases h - lo
    {
      var sh := stored(h);
      if sh.Failed? {
        return Retry;
      }
      if sh.hash == "" {
        forall k | lo <= k <= suspected && Reaches(stored, daemon, suspected, k)
          ensures !Agrees(stored, daemon, k) && !FailsAt(stored, daemon, k)
        {
          assert !WalksPast(stored, daemon, h);
          assert k > h ==> WalksPast(stored, daemon, k);
        }
        return Unknown;
      }
      var dh := daemon(h);
      if dh.Failed? {
        return Retry;
      }
      if dh.hash != "" && sh.hash == dh.hash {
        return Fork(h);
      }
      h := h - 1;
    }
    forall k | lo <= k <= suspected ensures !Agrees(stored, daemon, k) && !FailsAt(stored, daemon, k) {
      assert WalksPast(stored, daemon, k);
    }
    return Unknown;
  }

  /** CheckReorgAt: a stored parent hash that differs from the block's parent is a mismatch. */
  function CheckReorgAt(height: int, parentHash: Hash, stored: int -> Lookup): (r: (bool, int))
    ensures !r.0 <==>
              && height > 0 && stored(height - 1).Found? && stored(height - 1).hash != ""
              && stored(height - 1).hash != parentHash
    ensures r.1 == if r.0 then 0 else height - 1
  {
    if height <= 0 then (true, 0)
    else
      match stored(height - 1)
      case Failed => (true, 0)
      case Found(prev) => if prev == "" || prev == parentHash then (true, 0) else (false, height - 1)
  }

  // ---------- The lookups of a store and of a daemon chain ----------

  /** GetBlockHash: an absent row reads "". */
  function StoredHash(db: Db): int -> Lookup {
    (h: int) => Found(if h >= 0 && h in db.blockHashes then db.blockHashes[h] else "")
  }

  function ChainHash(ds: seq<Block>): int -> Lookup {
    (h: int) => Found(if 1 <= h <= |ds| then ds[h - 1].hash else "")
  }

  /** A block hash commits to the block and all its ancestors. */
  ghost predicate HashChains(bs: seq<Block>, ds: seq<Block>) {
    forall i | 0 <= i < |bs| && i < |ds| && bs[i].hash == ds[i].hash && bs[i].hash != "" :: bs[..i + 1] == ds[..i + 1]
  }

  lemma {:induction false} TxsKeepHashes(db: Db, es: seq<Event>)
    requires forall ev <- es :: !ev.tx.SealTx?
    ensures ApplyEvents(db, es).blockHashes == db.blockHashes
  {
    if es != [] {
      TxsKeepHashes(db, es[..|es| - 1]);
      assert es[|es| - 1] in es;
    }
  }

  lemma BlockKeepsHashes(db: Db, b: Block, h: nat)
    requires forall tx <- b.txs :: !tx.SealTx?
    ensures ApplyEvents(db, BlockEvents(b, h)).blockHashes ==
            if b.hash == "" then db.blockHashes else db.blockHashes[h := b.hash]
  {
    hide ApplyEvent;
    var es := BlockEvents(b, h);
    var txs := es[..|b.txs|];
    assert es[|es| - 1] == Event(h, SealTx(b.hash)) && es[..|es| - 1] == txs;
    forall ev | ev in txs ensures !ev.tx.SealTx? {
      var i :| 0 <= i < |txs| && txs[i] == ev;
      assert ev.tx == b.txs[i];
    }
    TxsKeepHashes(db, txs);
    SealSetsHash(ApplyEvents(db, txs), h, b.hash);
  }

  lemma SealSetsHash(db: Db, h: nat, hash: Hash)
    ensures ApplyEvent(db, Event(h, SealTx(hash))).blockHashes ==
            if hash == "" then db.blockHashes else db.blockHashes[h := hash]
  {
  }

  lemma BlockByBlock(bs: seq<Block>)
    requires bs != []
    ensures var init := bs[..|bs| - 1];
            StoreOf(EventsOf(bs)) == ApplyEvents(StoreOf(EventsOf(init)), BlockEvents(bs[|bs| - 1], |bs|))
  {
    hide ApplyEvent, BlockEvents;
    ApplyCat(EMPTY_DB, EventsOf(bs[..|bs| - 1]), BlockEvents(bs[|bs| - 1], |bs|));
  }

  /** The stored hash at h is the hash of the h-th block, and there is none elsewhere. */
  lemma {:induction false} HashesOf(bs: seq<Block>, h: int)
    requires SealedOnce(bs)
    ensures StoredHash(StoreOf(EventsOf(bs)))(h) == ChainHash(bs)(h)
  {
    if bs != [] {
      var init, b := bs[..|bs| - 1], bs[|bs| - 1];
      assert b in bs && forall x <- init :: x in bs;
      HashesOf(init, h);
      BlockByBlock(bs);
      hide StoreOf, EventsOf, ApplyEvents, BlockEvents;
      BlockKeepsHashes(StoreOf(EventsOf(init)), b, |bs|);
      hide ChainHash;
      ChainHashStep(bs, h);
    } else {
      hide ApplyEvents;
    }
  }

  lemma ChainHashStep(bs: seq<Block>, h: int)
    requires bs != []
    ensures ChainHash(bs)(h) == if h == |bs| then Found(bs[|bs| - 1].hash) else ChainHash(bs[..|bs| - 1])(h)
    ensures ChainHash(bs[..|bs| - 1])(|bs|) == Found("")
  {
  }

  // ---------- Replaying on equal indexes ----------

  lemma FlushSameDetail(a: Db, b: Db, batch: Batch)
    requires SameIndex(a, b)
    ensures SamePrimaries(Flush(a, batch), Flush(b, batch))
    ensures Flush(a, batch).latest == Flush(b, batch).latest && Flush(a, batch).classRows == Flush(b, batch).classRows
    ensures Flush(a, batch).addrScids == Flush(b, batch).addrScids
    ensures LastIndexHeight(Flush(a, batch)) == LastIndexHeight(Flush(b, batch))
  {
    hide PutInvocations, RaiseLatest, AddHeights, PutNormals, CountOwners, NonEmptyClasses, PutClassRows;
    hide NonEmptyCodes, NonEmptyOwners, MergeEdges;
  }

  /** Flushing the same batch keeps two well-indexed stores indistinguishable. */
  lemma FlushSame(a: Db, b: Db, batch: Batch)
    requires SameIndex(a, b) && DerivedAgree(a) && DerivedAgree(b) && WellIndexed(batch)
    ensures SameIndex(Flush(a, batch), Flush(b, batch))
  {
    hide Flush, ClassRowsAgree, LatestAgrees, OwnerEdgesAgree, WellIndexed;
    FlushSameDetail(a, b, batch);
    FlushKeepsDerived(a, batch);
    FlushKeepsDerived(b, batch);
  }

  // ---------- Convergence ----------

  /** What FindForkPoint establishes when it answers Fork(f) on these two chains. */
  ghost predicate ForkFound(bs: seq<Block>, ds: seq<Block>, suspected: int, f: int) {
    && 0 <= f <= suspected
    && Agrees(StoredHash(IndexOf(bs)), ChainHash(ds), f)
    && Reaches(StoredHash(IndexOf(bs)), ChainHash(ds), suspected, f)
  }

  lemma StoredIsChain(bs: seq<Block>, h: int)
    requires GoodHistory(bs) && SealedOnce(bs)
    ensures StoredHash(IndexOf(bs))(h) == ChainHash(bs)(h)
  {
    hide IndexOf, EventsOf, ApplyEvents, SealedOnce, DerivedAgree;
    GoodIndex(bs);
    HashesOf(bs, h);
  }

  lemma ForkIsCommon(bs: seq<Block>, ds: seq<Block>, suspected: int, f: int)
    requires GoodHistory(bs) && SealedOnce(bs) && HashChains(bs, ds)
    requires ForkFound(bs, ds, suspected, f)
    ensures 1 <= f <= |bs| && f <= |ds| && bs[..f] == ds[..f]
  {
    hide IndexOf, GoodHistory, SealedOnce, HashChains;
    StoredIsChain(bs, f);
    assert bs[f - 1].hash == ds[f - 1].hash;
    assert HashChains(bs, ds) ==> bs[..f - 1 + 1] == ds[..f - 1 + 1] by { ChainStep(bs, ds, f - 1); }
  }

  lemma ChainStep(bs: seq<Block>, ds: seq<Block>, i: nat)
    requires i < |bs| && i < |ds| && bs[i].hash == ds[i].hash && bs[i].hash != ""
    ensures HashChains(bs, ds) ==> bs[..i + 1] == ds[..i + 1]
  {
  }

  /**
   f is the highest agreement at or below `suspected`; when the walk moved at all it is the
   highest of the whole chains, since agreement higher up would reach down to `suspected`.
   */
  lemma ForkIsHighest(bs: seq<Block>, ds: seq<Block>, suspected: int, f: int, h: int)
    requires GoodHistory(bs) && SealedOnce(bs) && HashChains(bs, ds)
    requires ForkFound(bs, ds, suspected, f)
    requires h > f && (h <= suspected || f < suspected)
    ensures !Agrees(StoredHash(IndexOf(bs)), ChainHash(ds), h)
  {
    hide IndexOf, GoodHistory, SealedOnce, HashChains;
    if h <= suspected {
      assert WalksPast(StoredHash(IndexOf(bs)), ChainHash(ds), h);
    } else {
      assert WalksPast(StoredHash(IndexOf(bs)), ChainHash(ds), suspected);
      StoredIsChain(bs, h);
      StoredIsChain(bs, suspected);
      if Agrees(StoredHash(IndexOf(bs)), ChainHash(ds), h) {
        assert bs[..h][suspected - 1] == bs[suspected - 1] && ds[..h][suspected - 1] == ds[suspected - 1];
        ChainStep(bs, ds, h - 1);
      }
    }
  }

  /** h is the lowest height above `from` with a stored hash. */
  ghost predicate NextStored(stored: int -> Lookup, from: int, h: int) {
    h > from && stored(h) != Found("") && forall k | from < k < h :: stored(k) == Found("")
  }

  /**
   f is the highest agreement of the whole chains exactly when the walk moved, or the next
   stored hash above the start does not agree either: one more lookup tells.
   */
  lemma ForkIsHighestExactly(bs: seq<Block>, ds: seq<Block>, suspected: int, f: int)
    requires GoodHistory(bs) && SealedOnce(bs) && HashChains(bs, ds)
    requires ForkFound(bs, ds, suspected, f)
    ensures var stored, daemon := StoredHash(IndexOf(bs)), ChainHash(ds);
            (forall h | h > f :: !Agrees(stored, daemon, h)) <==>
            f < suspected || forall n | NextStored(stored, suspected, n) :: !Agrees(stored, daemon, n)
  {
    hide IndexOf, GoodHistory, SealedOnce, HashChains, Agrees;
    var stored, daemon := StoredHash(IndexOf(bs)), ChainHash(ds);
    if f < suspected || forall n | NextStored(stored, suspected, n) :: !Agrees(stored, daemon, n) {
      forall h | h > f ensures !Agrees(stored, daemon, h) {
        if f < suspected {
          ForkIsHighest(bs, ds, suspected, f, h);
        } else if Agrees(stored, daemon, h) {
          NextAgrees(bs, ds, suspected, h);
        }
      }
    }
  }

  /** An agreement above `from` reaches down to the next stored hash above it. */
  lemma {:induction false} NextAgrees(bs: seq<Block>, ds: seq<Block>, from: int, h: int)
    requires GoodHistory(bs) && SealedOnce(bs) && HashChains(bs, ds) && h > from >= 0
    requires Agrees(StoredHash(IndexOf(bs)), ChainHash(ds), h)
    ensures exists n ::
              NextStored(StoredHash(IndexOf(bs)), from, n) && Agrees(StoredHash(IndexOf(bs)), ChainHash(ds), n)
    decreases h - from
  {
    hide IndexOf, GoodHistory, SealedOnce, HashChains;
    var stored := StoredHash(IndexOf(bs));
    if k :| from < k < h && stored(k) != Found("") {
      StoredIsChain(bs, h);
      StoredIsChain(bs, k);
      ChainStep(bs, ds, h - 1);
      assert bs[..h][k - 1] == bs[k - 1] && ds[..h][k - 1] == ds[k - 1];
      NextAgrees(bs, ds, from, k);
    } else {
      assert NextStored(stored, from, h);
    }
  }

  /** With a hash for every block, the extra lookup is at the height above the start. */
  lemma OneMoreLookup(bs: seq<Block>, ds: seq<Block>, suspected: int, f: int)
    requires GoodHistory(bs) && SealedOnce(bs) && HashChains(bs, ds) && forall b <- bs :: b.hash != ""
    requires ForkFound(bs, ds, suspected, f)
    ensures var stored, daemon := StoredHash(IndexOf(bs)), ChainHash(ds);
            (forall h | h > f :: !Agrees(stored, daemon, h)) <==>
                f < suspected || !Agrees(stored, daemon, suspected + 1)
  {
    hide IndexOf, GoodHistory, SealedOnce, HashChains;
    var stored := StoredHash(IndexOf(bs));
    ForkIsHighestExactly(bs, ds, suspected, f);
    StoredIsChain(bs, suspected + 1);
    forall n | NextStored(stored, suspected, n) ensures n == suspected + 1 {
      StoredIsChain(bs, n);
    }
    assert Agrees(stored, ChainHash(ds), suspected + 1) ==> NextStored(stored, suspected, suspected + 1);
  }

  /** When the search stops at once, a higher agreement may exist: detection was a false alarm. */
  lemma ImmediateForkNeedNotBeHighest(b: Block, c: Block)
    requires b.hash != "" && c.hash != "" && GoodHistory([b, c]) && SealedOnce([b, c])
    ensures ForkFound([b, c], [b, c], 1, 1)
    ensures Agrees(StoredHash(IndexOf([b, c])), ChainHash([b, c]), 2)
  {
    hide IndexOf, GoodHistory, SealedOnce;
    StoredIsChain([b, c], 1);
    StoredIsChain([b, c], 2);
  }

  /** Truncating to the fork leaves only hashes the daemon confirms. */
  lemma TruncatedHashesAgree(bs: seq<Block>, ds: seq<Block>, suspected: int, f: int, h: int)
    requires GoodHistory(bs) && SealedOnce(bs) && HashChains(bs, ds)
    requires ForkFound(bs, ds, suspected, f)
    ensures var kept := StoredHash(Truncate(IndexOf(bs), f))(h);
            kept.hash != "" ==> h <= f && kept == ChainHash(ds)(h)
  {
    hide IndexOf, GoodHistory, SealedOnce, HashChains, TruncatedEdges, TruncatedLatest, ForkFound;
    ForkIsCommon(bs, ds, suspected, f);
    StoredIsChain(bs, h);
    if 1 <= h <= f {
      assert bs[..f][h - 1] == ds[..f][h - 1];
    }
  }

  /** The calls of the daemon's blocks above f. */
  function ReplayCalls(ds: seq<Block>, f: nat): seq<Call> { EventCalls(EventsAbove(ds, f)) }

  /** Indexing ds is indexing its first f blocks and then flushing the rest. */
  lemma ReplayCompletes(ds: seq<Block>, f: nat)
    requires GoodHistory(ds)
    ensures Flush(IndexOf(UpTo(ds, f)), Build(ReplayCalls(ds, f))) == IndexOf(ds)
    ensures WellIndexed(Build(ReplayCalls(ds, f)))
  {
    hide Flush, Build, EventsOf, EventsAbove, DistinctDeploys, EventCalls, WellIndexed;
    EventsSplit(ds, f);
    var pre, post := EventsOf(UpTo(ds, f)), EventsAbove(ds, f);
    EventHeights(ds);
    assert forall ev <- pre :: ev in EventsOf(ds);
    assert forall ev <- post :: ev in EventsOf(ds);
    EventCallsGood(pre);
    EventCallsGood(post);
    EventSnapshots(post);
    BuildWellIndexed(EventCalls(post));
    EventCallsCat(pre, post);
    FlushInTwo(EMPTY_DB, EventCalls(pre), EventCalls(post));
  }

  lemma MergedCount(a: map<Edge, AddrEntry>, b: map<Edge, AddrEntry>, e: Edge)
    ensures CountAt(MergeEdges(a, b), e) == CountAt(a, e) + CountAt(b, e)
  {
  }

  lemma FlushedEdges(db: Db, b: Batch)
    ensures Flush(db, b).addrScids == MergeEdges(db.addrScids, b.addrScids)
  {
    hide PutInvocations, RaiseLatest, AddHeights, PutNormals, CountOwners, NonEmptyClasses, PutClassRows;
    hide NonEmptyCodes, NonEmptyOwners, MergeEdges;
  }

  /** A wrong touch count stays wrong under every later batch: counts only add up. */
  lemma ReplayKeepsWrongCount(a: Db, b: Db, batch: Batch, e: Edge)
    requires CountAt(a.addrScids, e) != CountAt(b.addrScids, e)
    ensures !SameIndex(Flush(a, batch), Flush(b, batch))
  {
    FlushedEdges(a, batch);
    FlushedEdges(b, batch);
    MergedCount(a.addrScids, batch.addrScids, e);
    MergedCount(b.addrScids, batch.addrScids, e);
    hide Flush, MergeEdges, SamePrimaries;
  }

  /**
   Convergence: rolling back to the fork and replaying the daemon's blocks above it gives the index of
   the daemon's chain built from scratch, exactly when the ring touches above the fork are covered and no
   touch is repeated. Replay cannot repair an edge that truncation got wrong.
   */
  lemma ReorgConverges(bs: seq<Block>, ds: seq<Block>, suspected: int, f: int)
    requires GoodHistory(bs) && GoodHistory(ds) && SealedOnce(bs) && HashChains(bs, ds)
    requires ForkFound(bs, ds, suspected, f)
    ensures SameIndex(Flush(Truncate(IndexOf(bs), f), Build(ReplayCalls(ds, f))), IndexOf(ds))
            <==> RingCovered(bs, f) && NoCoalescedTouch(bs, f)
  {
    hide IndexOf, GoodHistory, SealedOnce, HashChains, ForkFound, Truncate, Flush, Build, SameIndex, DerivedAgree;
    hide RingCovered, NoCoalescedTouch, ReplayCalls, WellIndexed;
    ForkIsCommon(bs, ds, suspected, f);
    assert UpTo(bs, f) == UpTo(ds, f);
    RollbackOfIndex(bs, f);
    GoodIndex(bs);
    GoodPrefix(ds, f);
    GoodIndex(UpTo(ds, f));
    TruncateKeepsDerived(IndexOf(bs), f);
    ReplayCompletes(ds, f);
    if RingCovered(bs, f) && NoCoalescedTouch(bs, f) {
      FlushSame(Truncate(IndexOf(bs), f), IndexOf(UpTo(ds, f)), Build(ReplayCalls(ds, f)));
    } else {
      WrongCount(bs, f);
      var e: Edge :| CountAt(Truncate(IndexOf(bs), f).addrScids, e) != CountAt(IndexOf(UpTo(bs, f)).addrScids, e);
      ReplayKeepsWrongCount(Truncate(IndexOf(bs), f), IndexOf(UpTo(ds, f)), Build(ReplayCalls(ds, f)), e);
    }
  }

  /** A reorg that ends in a wrong index: the orphaned block's ring touch stays on its edge. */
  lemma OrphanedTouchStays(a: Addr, s: Scid, txid: string, common: Hash, orphan: Hash, renewed: Hash)
    requires a != "" && common != "" && orphan != "" && renewed != ""
    requires common != orphan && common != renewed && orphan != renewed
    ensures var bs := [Block(common, []), Block(orphan, [RingTx(a, txid, s, 0)])];
            var ds := [Block(common, []), Block(renewed, [])];
            && GoodHistory(bs) && GoodHistory(ds) && SealedOnce(bs) && HashChains(bs, ds) && ForkFound(bs, ds, 1, 1)
            && !SameIndex(Flush(Truncate(IndexOf(bs), 1), Build(ReplayCalls(ds, 1))), IndexOf(ds))
  {
    hide *;
    var first, orphaned, replaced := Block(common, []), Block(orphan, [RingTx(a, txid, s, 0)]), Block(renewed, []);
    assert (forall tx <- first.txs :: tx.RingTx?) && (forall tx <- orphaned.txs :: tx.RingTx?) && replaced.txs == [];
    PlainBlocks(first, orphaned);
    PlainBlocks(first, replaced);
    ForkAtFirst(first, orphaned, replaced);
    LoneRingTouch(first, a, txid, s, orphan);
    ReorgConverges([first, orphaned], [first, replaced], 1, 1);
  }

  /** Two chains that part after their first block. */
  lemma ForkAtFirst(first: Block, b: Block, c: Block)
    requires first.hash != "" && b.hash != c.hash && GoodHistory([first, b]) && SealedOnce([first, b])
    ensures HashChains([first, b], [first, c]) && ForkFound([first, b], [first, c], 1, 1)
  {
    hide IndexOf, GoodHistory, SealedOnce;
    assert [first, b][..1] == [first] == [first, c][..1];
    StoredIsChain([first, b], 1);
  }

  lemma LoneRingTouch(first: Block, a: Addr, txid: string, s: Scid, hash: Hash)
    requires a != ""
    ensures !RingCovered([first, Block(hash, [RingTx(a, txid, s, 0)])], 1)
  {
    hide EventsOf, EventsAbove;
    var second := Block(hash, [RingTx(a, txid, s, 0)]);
    SecondBlockEvents(first, second);
    var post := BlockEvents(second, 2);
    assert post == [Event(2, RingTx(a, txid, s, 0)), Event(2, SealTx(hash))];
    assert post[0].tx.RingTx? && !Active(post, s);
  }

  /** Blocks of ring touches alone make a good history. */
  lemma PlainBlocks(b: Block, c: Block)
    requires (forall tx <- b.txs :: tx.RingTx?) && forall tx <- c.txs :: tx.RingTx?
    ensures GoodHistory([b, c]) && SealedOnce([b, c])
  {
    SecondBlockEvents(b, c);
    forall ev | ev in EventsOf([b, c]) ensures ev.tx.RingTx? || ev.tx.SealTx? {
      if ev in BlockEvents(b, 1) {
        RingOrSeal(b, 1, ev);
      } else {
        RingOrSeal(c, 2, ev);
      }
    }
    hide EventsOf;
    assert forall i | 0 <= i < |EventsOf([b, c])| :: EventsOf([b, c])[i] in EventsOf([b, c]);
  }

  lemma RingOrSeal(b: Block, h: nat, ev: Event)
    requires (forall tx <- b.txs :: tx.RingTx?) && ev in BlockEvents(b, h)
    ensures ev.tx.RingTx? || ev.tx.SealTx?
  {
    var i :| 0 <= i < |BlockEvents(b, h)| && BlockEvents(b, h)[i] == ev;
    if i < |b.txs| {
      assert ev.tx == b.txs[i] && b.txs[i] in b.txs;
    }
  }
}
