/**
 Two results about runs of the scan loop (indexer/indexer.go, scanLoop) beside those of module Pipeline: where
 the safe height stands at every moment, and that a run can store the whole chain.
 */
module PipelineProgress {
  import opened IndexTypes
  import opened WriteBatches
  import opened IndexDb
  import opened BatchBoundary
  import opened TurboHistory
  import opened CallOrder
  import opened Pipeline

  // ---------- The safe height ----------

  /** Between its two writes the safe height is that of the batch before; otherwise it is exactly `depth` below. */
  ghost predicate SafeFollows(c: Config, s: State) {
    && (s.stage == Stored || s.safe == if s.lastIndexed < c.depth then 0 else s.lastIndexed - c.depth)
    && (s.stage == Stored ==> s.taken.Some? && s.taken.value.Pack? && s.lastIndexed == s.taken.value.newHeight)
  }

  lemma SafeStep(c: Config, s: State, st: Step)
    requires SafeFollows(c, s)
    ensures SafeFollows(c, Next(c, s, st))
  {
    hide Flush, Build, LastOf, ProcessStep, FetchStep;
    if st.SendGroup? || st.SendCaughtUp? || st.FetcherStops? {
      FetcherKeepsStage(s, st);
    } else if st.Receive? || st.Decide? || st.Send? || st.ProcessorEnds? {
      ProcessorKeepsStage(s, st);
    }
  }

  lemma FetcherKeepsStage(s: State, st: Step)
    requires st.SendGroup? || st.SendCaughtUp? || st.FetcherStops?
    ensures var t := FetchStep(s, st);
            t.stage == s.stage && t.taken == s.taken && t.lastIndexed == s.lastIndexed && t.safe == s.safe
  {
    hide NoLast;
  }

  lemma ProcessorKeepsStage(s: State, st: Step)
    requires st.Receive? || st.Decide? || st.Send? || st.ProcessorEnds?
    ensures var t := ProcessStep(s, st);
            t.stage == s.stage && t.taken == s.taken && t.lastIndexed == s.lastIndexed && t.safe == s.safe
  {
    hide LastOf;
  }

  lemma {:induction false} SafeIsDepthBelow(c: Config, steps: seq<Step>)
    ensures SafeFollows(c, Exec(c, steps))
  {
    hide Next, SafeFollows;
    if steps == [] {
      SafeAtStart(c);
    } else {
      SafeIsDepthBelow(c, steps[..|steps| - 1]);
      SafeStep(c, Exec(c, steps[..|steps| - 1]), steps[|steps| - 1]);
    }
  }

  lemma SafeAtStart(c: Config)
    ensures SafeFollows(c, Init(c))
  {
  }

  // ---------- Nothing keeps a scan from storing the chain ----------

  /** A flushed block, counted and published. */
  ghost function Landed(c: Config, s: State, group: seq<Call>): State {
    var h, calls := s.running + 1, group + [Last(s.running + 1)];
    HandedOver(s, group).(attempts := s.attempts + [Attempt(Pack(s.running, h, calls), true)],
                          db := Flush(s.db, Build(calls)), lastIndexed := h, safe := SafeOf(h, c.depth),
                          published := s.published + [Pack(s.running, h, calls)], taken := None)
  }

  ghost function CommittedOne(s: State, p: Pending): State
    requires p.Pack?
  {
    s.(attempts := s.attempts + [Attempt(p, true)], db := Flush(s.db, Build(p.calls)), stage := Committed)
  }

  lemma CommitOne(c: Config, s: State, group: seq<Call>)
    requires Quiet(s)
    ensures Next(c, Next(c, Next(c, Next(c, HandedOver(s, group), Begin(true)), StoreHeight), StoreSafe), Publish) ==
            Landed(c, s, group)
  {
    var p := Pack(s.running, s.running + 1, group + [Last(s.running + 1)]);
    HandedPack(s, group);
    LandedIs(c, s, group);
    hide *;
    BeginCommits(c, HandedOver(s, group), p);
    CommittedLands(c, CommittedOne(HandedOver(s, group), p), p);
  }

  lemma HandedPack(s: State, group: seq<Call>)
    requires Quiet(s)
    ensures var t, p := HandedOver(s, group), Pack(s.running, s.running + 1, group + [Last(s.running + 1)]);
            && t.taken == Some(p) && t.stage == Received && !t.closing
            && CommittedOne(t, p).taken == Some(p) && CommittedOne(t, p).stage == Committed
  {
    LastOfGroup(group, s.running + 1);
    hide LastOf, Flush, Build;
  }

  lemma LandedIs(c: Config, s: State, group: seq<Call>)
    requires Quiet(s)
    ensures var h := s.running + 1; var p := Pack(s.running, h, group + [Last(h)]);
            var t := CommittedOne(HandedOver(s, group), p);
            Landed(c, s, group) ==
            t.(lastIndexed := h, safe := SafeOf(h, c.depth), published := t.published + [p], taken := None,
               stage := Received)
  {
    hide LastOf, Flush, Build, SafeOf, OnePackOf;
  }

  lemma BeginCommits(c: Config, t: State, p: Pending)
    requires p.Pack? && t.taken == Some(p) && t.stage == Received && !t.closing
    ensures Next(c, t, Begin(true)) == CommittedOne(t, p)
  {
    hide LastOf, Flush, Build;
  }

  lemma CommittedLands(c: Config, t: State, p: Pending)
    requires p.Pack? && t.taken == Some(p) && t.stage == Committed
    ensures Next(c, Next(c, Next(c, t, StoreHeight), StoreSafe), Publish) ==
            t.(lastIndexed := p.newHeight, safe := SafeOf(p.newHeight, c.depth), published := t.published + [p],
               taken := None, stage := Received)
  {
    hide LastOf, Flush, Build, SafeOf;
    var t1 := t.(lastIndexed := p.newHeight, stage := Stored);
    var t2 := t1.(safe := SafeOf(p.newHeight, c.depth), stage := Safed);
    assert Next(c, t, StoreHeight) == t1 && Next(c, t1, StoreSafe) == t2;
  }

  lemma LandedQuiet(c: Config, s: State, group: seq<Call>)
    requires Quiet(s)
    ensures var t := Landed(c, s, group);
            && Quiet(t) && t.nextHeight == s.running + 1 == t.lastIndexed && |t.published| == |s.published| + 1
            && (AllTried(s) ==> AllTried(t))
  {
    hide LastOf, Flush, Build, SafeOf, OnePackOf;
  }

  predicate AllTried(s: State) { forall a <- s.attempts :: a.ok }

  lemma LastOfGroup(group: seq<Call>, h: nat)
    ensures LastOf(group + [Last(h)]) == h
  {
    assert (group + [Last(h)])[..|group|] == group;
  }

  lemma ThreeMore(c: Config, q: seq<Step>)
    requires Faithful(c, q)
    ensures var after := q + [StoreHeight] + [StoreSafe] + [Publish];
            && Faithful(c, after)
            && Exec(c, after) == Next(c, Next(c, Next(c, Exec(c, q), StoreHeight), StoreSafe), Publish)
  {
    hide *;
    ExecMore(c, q, StoreHeight);
    ExecMore(c, q + [StoreHeight], StoreSafe);
    ExecMore(c, q + [StoreHeight] + [StoreSafe], Publish);
  }

  /** From any quiet point the next block can be fetched, flushed, counted as progress and published. */
  lemma NextBlockCommits(c: Config, steps: seq<Step>)
    requires SealedOnce(c.chain) && Faithful(c, steps)
    requires Quiet(Exec(c, steps)) && Exec(c, steps).nextHeight < |c.chain|
    ensures var s := Exec(c, steps);
            var after := steps + BlockSteps(c.chain, s.nextHeight, true) + [StoreHeight] + [StoreSafe] + [Publish];
            var t := Exec(c, after);
            && Faithful(c, after) && Quiet(t) && t.nextHeight == s.nextHeight + 1 == t.lastIndexed
            && |t.published| == |s.published| + 1 && (AllTried(s) ==> AllTried(t))
  {
    hide *;
    OneBlockTo(c, steps, true);
    var s := Exec(c, steps);
    ThreeMore(c, steps + BlockSteps(c.chain, s.nextHeight, true));
    var group := GroupCalls(c.chain[s.nextHeight..s.nextHeight + 1], s.nextHeight);
    CommitOne(c, s, group);
    LandedQuiet(c, s, group);
  }

  /** Some run stores the whole chain: the safety results of module Pipeline do not hold for want of progress. */
  lemma {:induction false} WholeChainCanBeStored(c: Config, n: nat) returns (steps: seq<Step>)
    requires GoodConfig(c) && c.start + n <= |c.chain|
    ensures Faithful(c, steps) && AllTried(Exec(c, steps))
    ensures var s := Exec(c, steps);
            Quiet(s) && s.nextHeight == c.start + n == s.lastIndexed && |s.published| == n
  {
    hide Next, SealedOnce, NamedChain, LastIndexHeight, NoStrayRows, IsGroup, Faithful, BlockSteps, Quiet, AllTried;
    if n == 0 {
      QuietStart(c);
      NothingScanned(c);
      steps := [];
    } else {
      var init := WholeChainCanBeStored(c, n - 1);
      NextBlockCommits(c, init);
      steps := init + BlockSteps(c.chain, c.start + n - 1, true) + [StoreHeight] + [StoreSafe] + [Publish];
    }
  }

  lemma NothingScanned(c: Config)
    ensures Init(c).lastIndexed == c.start && Init(c).published == [] && AllTried(Init(c))
  {
  }
}
