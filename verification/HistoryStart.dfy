/**
 Histories that start at any height: a scan may begin above a start height on an empty store
 (the quick scan, indexer/indexer.go:236-244). Rolling back is exact under the same conditions, and a history
 that starts later is one that starts at height 1 with empty blocks in front.
 */
module HistoryStart {
  import opened IndexTypes
  import opened WriteBatches
  import opened IndexDb
  import opened BatchBoundary
  import opened DerivedIndexes
  import opened TurboHistory
  import opened CallOrder
  import opened Rollback
  import opened TruncateLaws

  // ---------- Events, whatever their heights ----------

  /** What GoodHistory asks, of any events. */
  ghost predicate GoodEvents(es: seq<Event>) {
    && DistinctDeploys(es) && NamedEvents(es) && Positive(es)
    && (forall ev <- es :: ev.tx.SnapshotTx? ==> ev.tx.scid != "")
  }

  lemma GoodParts(pre: seq<Event>, post: seq<Event>)
    requires GoodEvents(pre + post)
    ensures GoodEvents(pre) && forall ev <- post :: ev in pre + post
  {
    assert forall i | 0 <= i < |pre| :: pre[i] == (pre + post)[i];
    assert forall ev <- pre :: ev in pre + post;
  }

  /** Whatever came above h, all buckets but the address edges and the height row are rolled back exactly. */
  lemma EventsRollBack(pre: seq<Event>, post: seq<Event>, h: nat)
    requires GoodEvents(pre + post) && SplitAt(pre, post, h)
    ensures var back, kept := Truncate(StoreOf(pre + post), h), StoreOf(pre);
            && SamePrimaries(back, kept) && back.latest == kept.latest && back.classRows == kept.classRows
            && ScidCount(back) == ScidCount(kept)
  {
    hide StoreOf, Truncate, DerivedAgree, Within, DistinctDeploys;
    GoodParts(pre, post);
    StoreDerived(pre + post);
    StoreDerived(pre);
    TruncateSkips(pre, post, h);
    StoreWithin(pre, h);
    TruncateWithin(StoreOf(pre), h);
    TruncateKeepsDerived(StoreOf(pre + post), h);
    DerivedDetermined(Truncate(StoreOf(pre + post), h), StoreOf(pre));
  }

  /** Every ring touch above is covered, and no touch below of a scid active above is repeated. */
  ghost predicate TouchesRollBack(pre: seq<Event>, post: seq<Event>) {
    && (forall ev <- post :: ev.tx.RingTx? && ev.tx.addr != "" ==> Active(post, ev.tx.scid))
    && (forall e: Edge :: Active(post, e.scid) ==> Distinct(TouchesOn(pre, e)))
  }

  lemma EdgesRollBackEvents(pre: seq<Event>, post: seq<Event>, h: nat)
    requires GoodEvents(pre + post) && SplitAt(pre, post, h)
    ensures Truncate(StoreOf(pre + post), h).addrScids == StoreOf(pre).addrScids <==> TouchesRollBack(pre, post)
  {
    hide StoreOf, Truncate, TruncatedEdges, TouchesOn, Distinct, Active;
    GoodParts(pre, post);
    EdgeField(StoreOf(pre + post), h);
    EdgesRollBack(pre, post, h);
    ConditionMeansCovered(pre, post);
    hide EdgeCondition;
  }

  // ---------- Blocks above a start height ----------

  /** The index of blocks at heights start + 1 and up. */
  ghost function IndexFrom(bs: seq<Block>, start: nat): Db {
    Flush(EMPTY_DB, Build(EventCalls(GroupEvents(bs, start))))
  }

  /** The blocks at or below h. */
  function KeptFrom(bs: seq<Block>, start: nat, h: nat): seq<Block> {
    if h <= start then [] else UpTo(bs, h - start)
  }

  /** The events of the blocks above h. */
  function AboveFrom(bs: seq<Block>, start: nat, h: nat): seq<Event> {
    var kept := KeptFrom(bs, start, h);
    GroupEvents(bs[|kept|..], start + |kept|)
  }

  ghost predicate GoodHistoryFrom(bs: seq<Block>, start: nat) { GoodEvents(GroupEvents(bs, start)) }

  /** The exact condition of rolling back to h. */
  ghost predicate RollsBackFrom(bs: seq<Block>, start: nat, h: nat) {
    && TouchesRollBack(GroupEvents(KeptFrom(bs, start, h), start), AboveFrom(bs, start, h))
    && (KeptFrom(bs, start, h) == [] ==> h == 0)
  }

  lemma {:induction false} GroupHeights(bs: seq<Block>, start: nat)
    ensures forall ev <- GroupEvents(bs, start) :: start < ev.height <= start + |bs|
  {
    hide BlockEvents;
    if bs != [] {
      GroupHeights(bs[..|bs| - 1], start);
      BlockHeights(bs[|bs| - 1], start + |bs|);
    }
  }

  lemma {:induction false} GroupCat(x: seq<Block>, y: seq<Block>, start: nat)
    ensures GroupEvents(x + y, start) == GroupEvents(x, start) + GroupEvents(y, start + |x|)
  {
    hide BlockEvents;
    if y == [] {
      assert x + y == x;
    } else {
      GroupCat(x, y[..|y| - 1], start);
      assert (x + y)[..|x + y| - 1] == x + y[..|y| - 1];
    }
  }

  lemma SplitFrom(bs: seq<Block>, start: nat, h: nat)
    requires GoodHistoryFrom(bs, start)
    ensures var pre, post := GroupEvents(KeptFrom(bs, start, h), start), AboveFrom(bs, start, h);
            GroupEvents(bs, start) == pre + post && SplitAt(pre, post, h)
  {
    hide GroupEvents, DistinctDeploys;
    var kept := KeptFrom(bs, start, h);
    assert bs == kept + bs[|kept|..];
    GroupCat(kept, bs[|kept|..], start);
    GroupHeights(kept, start);
    GroupHeights(bs[|kept|..], start + |kept|);
  }

  lemma LastFrom(bs: seq<Block>, start: nat)
    ensures LastIndexHeight(StoreOf(GroupEvents(bs, start))) == if bs == [] then 0 else start + |bs|
    ensures StoreOf(GroupEvents(bs, start)).last.None? <==> bs == []
  {
    if bs != [] {
      var b, before := bs[|bs| - 1], GroupEvents(bs[..|bs| - 1], start);
      var es := BlockEvents(b, start + |bs|);
      assert es[|es| - 1] == Event(start + |bs|, SealTx(b.hash));
      assert (before + es)[|before + es| - 1] == es[|es| - 1];
      SealDecides(EMPTY_DB, before + es);
    }
  }

  lemma SealDecides(db: Db, es: seq<Event>)
    requires es != [] && es[|es| - 1].tx.SealTx? && es[|es| - 1].height > 0
    ensures ApplyEvents(db, es).last == Some(es[|es| - 1].height)
  {
  }

  lemma IndexFromIsEvents(bs: seq<Block>, start: nat, batches: seq<seq<Call>>)
    requires GoodHistoryFrom(bs, start) && Concat(batches) == EventCalls(GroupEvents(bs, start))
    ensures FlushAll(EMPTY_DB, batches) == IndexFrom(bs, start) == StoreOf(GroupEvents(bs, start))
  {
    hide Flush, Build, GroupEvents, EventCalls, ApplyEvents, RunCalls, DistinctDeploys;
    var es := GroupEvents(bs, start);
    EventCallsGood(es);
    FlushAllIsOneFlush(EMPTY_DB, batches);
    FlushIsRun(EMPTY_DB, EventCalls(es));
    RunOfEvents(EMPTY_DB, es);
  }

  lemma TruncatedLast(db: Db, h: nat)
    ensures LastIndexHeight(Truncate(db, h)) == if db.last.Some? && LastIndexHeight(db) < h then LastIndexHeight(db)
            else h
  {
    hide TruncatedEdges, TruncatedLatest, InstalledAbove, Affected;
  }

  lemma GoodKept(bs: seq<Block>, start: nat, h: nat)
    requires GoodHistoryFrom(bs, start)
    ensures GoodHistoryFrom(KeptFrom(bs, start, h), start)
  {
    hide GroupEvents, GoodEvents, KeptFrom, AboveFrom, SplitAt;
    SplitFrom(bs, start, h);
    GoodParts(GroupEvents(KeptFrom(bs, start, h), start), AboveFrom(bs, start, h));
  }

  /**
   For every start height: flushing a history in any batches and truncating to h equals flushing only its
   blocks up to h, in any batches, if and only if RollsBackFrom holds. A negative h means 0.
   */
  lemma RollbackFromAnyStart(bs: seq<Block>, start: nat, h: int, batches: seq<seq<Call>>, kept: seq<seq<Call>>)
    requires GoodHistoryFrom(bs, start)
    requires Concat(batches) == EventCalls(GroupEvents(bs, start))
    requires Concat(kept) == EventCalls(GroupEvents(KeptFrom(bs, start, Clamp(h)), start))
    ensures SameIndex(DerivedIndexes.Exec(FlushAll(EMPTY_DB, batches), TruncateOp(h)), FlushAll(EMPTY_DB, kept))
            <==> RollsBackFrom(bs, start, Clamp(h))
  {
    hide GroupEvents, EventCalls, StoreOf, Truncate, GoodEvents, SplitAt, TouchesRollBack, SamePrimaries, ScidCount;
    hide LastIndexHeight, FlushAll, IndexFrom, AboveFrom;
    var n := Clamp(h);
    var low := KeptFrom(bs, start, n);
    var pre, post := GroupEvents(low, start), AboveFrom(bs, start, n);
    IndexFromIsEvents(bs, start, batches);
    GoodKept(bs, start, n);
    IndexFromIsEvents(low, start, kept);
    SplitFrom(bs, start, n);
    EventsRollBack(pre, post, n);
    EdgesRollBackEvents(pre, post, n);
    LastFrom(bs, start);
    LastFrom(low, start);
    TruncatedLast(StoreOf(GroupEvents(bs, start)), n);
  }

  /** At start 0 these are the histories of module TurboHistory. */
  lemma {:induction false} FromZero(bs: seq<Block>)
    ensures GroupEvents(bs, 0) == EventsOf(bs) && IndexFrom(bs, 0) == IndexOf(bs)
  {
    hide BlockEvents;
    if bs != [] {
      FromZero(bs[..|bs| - 1]);
    }
  }

  // ---------- A later start is empty blocks in front ----------

  function Empty(): Block { Block("", []) }

  function Padding(n: nat): seq<Block> { seq(n, _ => Empty()) }

  lemma {:induction false} PaddingStore(n: nat)
    ensures StoreOf(EventsOf(Padding(n))) == EMPTY_DB.(last := if n == 0 then None else Some(n))
    ensures forall ev <- EventsOf(Padding(n)) :: ev.tx.SealTx? && ev.height > 0
  {
    if n > 0 {
      var ps := Padding(n);
      PaddingStore(n - 1);
      assert ps[..n - 1] == Padding(n - 1) && ps[n - 1] == Empty();
      assert BlockEvents(Empty(), n) == [Event(n, SealTx(""))];
      var before := EventsOf(Padding(n - 1));
      assert EventsOf(ps) == before + [Event(n, SealTx(""))];
      assert (before + [Event(n, SealTx(""))])[..|before|] == before;
    }
  }

  lemma {:induction false} PaddedEvents(bs: seq<Block>, start: nat)
    ensures EventsOf(Padding(start) + bs) == EventsOf(Padding(start)) + GroupEvents(bs, start)
  {
    hide BlockEvents;
    if bs == [] {
      assert Padding(start) + bs == Padding(start);
    } else {
      var all := Padding(start) + bs;
      PaddedEvents(bs[..|bs| - 1], start);
      assert all[..|all| - 1] == Padding(start) + bs[..|bs| - 1];
    }
  }

  lemma LastApart(db: Db, x: Option<nat>, ev: Event)
    ensures ApplyEvent(db.(last := x), ev) == ApplyEvent(db, ev).(last := LastAfter(x, ev))
  {
    hide OwnersAfter, InvokesAfter, ScvarsAfter, LatestAfter, HeightsAfter, NormsAfter, CountAfter, HashesAfter;
    hide InstallsAfter, ClassIdxAfter, ClassRowsAfter, CodesAfter, OwnerEdgesAfter, EdgesAfter, LastAfter;
  }

  lemma {:induction false} LastAside(db: Db, x: Option<nat>, es: seq<Event>)
    ensures var with := ApplyEvents(db.(last := x), es); with == ApplyEvents(db, es).(last := with.last)
  {
    hide ApplyEvent;
    if es != [] {
      LastAside(db, x, es[..|es| - 1]);
      var before := ApplyEvents(db, es[..|es| - 1]);
      LastApart(before, ApplyEvents(db.(last := x), es[..|es| - 1]).last, es[|es| - 1]);
    }
  }

  lemma LastEvent(bs: seq<Block>, start: nat)
    requires bs != []
    ensures var es := GroupEvents(bs, start); es != [] && es[|es| - 1].tx.SealTx? && es[|es| - 1].height > 0
  {
    var es := BlockEvents(bs[|bs| - 1], start + |bs|);
    assert es[|es| - 1] == Event(start + |bs|, SealTx(bs[|bs| - 1].hash));
  }

  lemma PaddedGood(bs: seq<Block>, start: nat)
    requires GoodHistoryFrom(bs, start)
    ensures GoodHistory(Padding(start) + bs)
  {
    hide GroupEvents, EventsOf;
    PaddedEvents(bs, start);
    PaddingStore(start);
    var pads, es := EventsOf(Padding(start)), GroupEvents(bs, start);
    var all := pads + es;
    assert forall i | 0 <= i < |all| :: all[i] == if i < |pads| then pads[i] else es[i - |pads|];
  }

  /** Results about histories from height 1 therefore apply to every later start. */
  lemma StartIsPadding(bs: seq<Block>, start: nat)
    requires bs != [] && GoodHistoryFrom(bs, start)
    ensures GoodHistory(Padding(start) + bs) && IndexFrom(bs, start) == IndexOf(Padding(start) + bs)
  {
    hide GroupEvents, EventsOf, ApplyEvents, Flush, Build, EventCalls, GoodEvents, GoodHistory, DerivedAgree;
    var es, pads := GroupEvents(bs, start), EventsOf(Padding(start));
    PaddedGood(bs, start);
    GoodIndex(Padding(start) + bs);
    PaddedEvents(bs, start);
    ApplyCat(EMPTY_DB, pads, es);
    PaddingStore(start);
    OneFlush(bs, start);
    LastAside(EMPTY_DB, StoreOf(pads).last, es);
    LastEvent(bs, start);
    SealDecides(EMPTY_DB, es);
    SealDecides(StoreOf(pads), es);
  }

  lemma OneFlush(bs: seq<Block>, start: nat)
    requires GoodHistoryFrom(bs, start)
    ensures IndexFrom(bs, start) == StoreOf(GroupEvents(bs, start))
  {
    hide GroupEvents, EventCalls, GoodEvents, StoreOf, FlushAll, IndexFrom;
    var calls := EventCalls(GroupEvents(bs, start));
    assert Concat([calls]) == calls by {
      assert [calls][..0] == [] && [] + calls == calls;
    }
    IndexFromIsEvents(bs, start, [calls]);
  }

  /** Truncation composes and is idempotent on the index of a history from any start. */
  lemma AnyStartIsCovered(bs: seq<Block>, start: nat)
    requires GoodHistoryFrom(bs, start)
    ensures InvokesCovered(IndexFrom(bs, start))
  {
    hide GroupEvents, IndexFrom, StoreOf, DistinctDeploys, NamedEvents, Positive, Footprint, InstallsInvoked;
    hide InvokesCovered;
    OneFlush(bs, start);
    StoreCoherent(GroupEvents(bs, start));
  }
}
