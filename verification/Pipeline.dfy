/**
 The scan loop (indexer/indexer.go, scanLoop): a fetcher, a processor and a flusher
 joined by channels of capacity two, as a step system over every interleaving.
 */
module Pipeline {
  import opened IndexTypes
  import opened WriteBatches
  import opened IndexDb
  import opened BatchBoundary
  import opened TurboHistory
  import opened CallOrder

  /** The daemon's chain (block i at height i + 1), the height scanned so far, the store and the finality depth. */
  datatype Config = Config(chain: seq<Block>, start: nat, db: Db, depth: nat)

  /** A fetched group, as the calls its decoding makes on the batch; fetchCount 0 is the caught-up sentinel. */
  datatype Fetched = CaughtUp | Group(count: nat, calls: seq<Call>)

  /** What the processor hands over: a batch for the heights base + 1 .. newHeight, or the sync sentinel. */
  datatype Pending = SyncPoint | Pack(base: nat, newHeight: nat, calls: seq<Call>)

  datatype Attempt = Attempt(pack: Pending, ok: bool)

  /** Where the flusher stands with the value it received. */
  datatype Stage = Received | Committed | Stored | Safed

  datatype State = State(
    nextHeight: nat, fetching: bool, fetchChan: seq<Fetched>,
    processing: bool, got: Option<Fetched>, running: nat, base: nat, calls: seq<Call>, blocksIn: nat,
    signaled: bool, outbox: seq<Pending>,
    flushChan: seq<Pending>, taken: Option<Pending>, stage: Stage,
    closing: bool, lastIndexed: nat, safe: nat, db: Db,
    attempts: seq<Attempt>, published: seq<Pending>)

  datatype Step =
    | SendGroup(count: nat, calls: seq<Call>) | SendCaughtUp | FetcherStops
    | Receive | Decide(batchSize: int) | Send | ProcessorEnds
    | Take | Begin(ok: bool) | StoreHeight | StoreSafe | Publish
    | Close

  const CAPACITY := 2

  function SafeOf(h: nat, depth: nat): nat { if h < depth then 0 else h - depth }

  function Init(c: Config): State {
    State(c.start, true, [], true, None, c.start, c.start, [], 0, false, [], [], None, Received,
          false, c.start, SafeOf(c.start, c.depth), c.db, [], [])
  }

  /** Decoding a group never writes the batch's last height; the processor does. */
  predicate NoLast(calls: seq<Call>) { forall c <- calls :: !c.Last? }

  // ---------- Fetcher ----------

  function FetchStep(s: State, st: Step): State
    requires st.SendGroup? || st.SendCaughtUp? || st.FetcherStops?
  {
    match st
    case SendGroup(n, calls) =>
      if s.fetching && |s.fetchChan| < CAPACITY && n >= 1 && NoLast(calls)
      then s.(fetchChan := s.fetchChan + [Group(n, calls)], nextHeight := s.nextHeight + n) else s
    case SendCaughtUp =>
      if s.fetching && |s.fetchChan| < CAPACITY then s.(fetchChan := s.fetchChan + [CaughtUp]) else s
    case FetcherStops => if s.closing then s.(fetching := false) else s
  }

  // ---------- Processor ----------

  /** The accumulated batch goes out, if there is one. */
  function Cut(s: State): State {
    if s.blocksIn == 0 then s
    else s.(outbox := s.outbox + [Pack(s.base, LastOf(s.calls), s.calls)], base := s.running, calls := [],
        blocksIn := 0)
  }

  /** Leaving the loop: the final partial batch. */
  function Break(s: State): State {
    var s' := s.(processing := false, got := None);
    if LastOf(s.calls) > 0 then Cut(s') else s'
  }

  function Absorb(s: State, count: nat, calls: seq<Call>, batchSize: int): State {
    var newHeight := s.running + count;
    var s' := s.(got := None, signaled := false, running := newHeight, blocksIn := s.blocksIn + count,
                 calls := s.calls + (calls + [Last(newHeight)]));
    if s'.blocksIn >= batchSize then Cut(s') else s'
  }

  function SyncNow(s: State): State {
    var s' := Cut(s.(got := None));
    if s.signaled then s' else s'.(signaled := true, outbox := s'.outbox + [SyncPoint])
  }

  function ProcessStep(s: State, st: Step): State
    requires st.Receive? || st.Decide? || st.Send? || st.ProcessorEnds?
  {
    match st
    case Receive =>
      if s.processing && s.got.None? && s.outbox == [] && s.fetchChan != []
      then s.(got := Some(s.fetchChan[0]), fetchChan := s.fetchChan[1..]) else s
    case Decide(batchSize) =>
      if !s.processing || s.got.None? then s
      else if s.closing then Break(s)
      else (match s.got.value
            case CaughtUp => SyncNow(s)
            case Group(n, calls) => Absorb(s, n, calls, batchSize))
    case Send =>
      if s.outbox != [] && |s.flushChan| < CAPACITY
      then s.(flushChan := s.flushChan + [s.outbox[0]], outbox := s.outbox[1..]) else s
    case ProcessorEnds =>
      if s.processing && s.got.None? && s.outbox == [] && s.fetchChan == [] && !s.fetching then Break(s) else s
  }

  // ---------- Flusher ----------

  /** FlushBatch either commits the whole batch or leaves the store as it was. */
  ghost function Attempted(s: State, ok: bool): State
    requires s.taken.Some? && s.taken.value.Pack?
  {
    s.(attempts := s.attempts + [Attempt(s.taken.value, ok)],
       db := if ok then Flush(s.db, Build(s.taken.value.calls)) else s.db)
  }

  ghost function BeginStep(s: State, ok: bool): State {
    if s.taken.None? || s.stage != Received then s
    else if s.taken.value.SyncPoint? then s.(taken := None)
    else if s.closing then
      if LastOf(s.taken.value.calls) > 0 then Attempted(s, ok).(taken := None) else s.(taken := None)
    else if ok then Attempted(s, ok).(stage := Committed)
    else Attempted(s, ok).(taken := None)
  }

  ghost function FlushStep(c: Config, s: State, st: Step): State
    requires st.Take? || st.Begin? || st.StoreHeight? || st.StoreSafe? || st.Publish?
  {
    match st
    case Take =>
      if s.taken.None? && s.flushChan != []
      then s.(taken := Some(s.flushChan[0]), stage := Received, flushChan := s.flushChan[1..]) else s
    case Begin(ok) => BeginStep(s, ok)
    case StoreHeight =>
      if s.taken.Some? && s.taken.value.Pack? && s.stage == Committed
      then s.(lastIndexed := s.taken.value.newHeight, stage := Stored) else s
    case StoreSafe =>
      if s.taken.Some? && s.taken.value.Pack? && s.stage == Stored
      then s.(safe := SafeOf(s.taken.value.newHeight, c.depth), stage := Safed) else s
    case Publish =>
      if s.taken.Some? && s.stage == Safed
      then s.(published := s.published + [s.taken.value], taken := None, stage := Received) else s
  }

  /** A step that is not enabled changes nothing. */
  ghost function Next(c: Config, s: State, st: Step): State {
    if st.Close? then s.(closing := true)
    else if st.SendGroup? || st.SendCaughtUp? || st.FetcherStops? then FetchStep(s, st)
    else if st.Receive? || st.Decide? || st.Send? || st.ProcessorEnds? then ProcessStep(s, st)
    else FlushStep(c, s, st)
  }

  ghost function Exec(c: Config, steps: seq<Step>): State {
    if steps == [] then Init(c) else Next(c, Exec(c, steps[..|steps| - 1]), steps[|steps| - 1])
  }

  // ---------- Heights in flight ----------

  function Packs(ps: seq<Pending>): seq<Pending> {
    if ps == [] then []
    else
      var p := ps[|ps| - 1];
      Packs(ps[..|ps| - 1]) + (if p.Pack? then [p] else [])
  }

  lemma {:induction false} PacksCat(x: seq<Pending>, y: seq<Pending>)
    ensures Packs(x + y) == Packs(x) + Packs(y)
  {
    if y == [] {
      assert x + y == x;
    } else {
      PacksCat(x, y[..|y| - 1]);
      assert (x + y)[..|x + y| - 1] == x + y[..|y| - 1];
    }
  }

  lemma OnePack(p: Pending)
    ensures Packs([p]) == if p.Pack? then [p] else []
  {
    assert [p][..0] == [];
  }

  function Tried(tries: seq<Attempt>): seq<Pending> {
    if tries == [] then [] else Tried(tries[..|tries| - 1]) + [tries[|tries| - 1].pack]
  }

  /** The batches cut the heights lo + 1 .. hi into contiguous, non-empty, ordered pieces. */
  ghost predicate Tiles(ps: seq<Pending>, lo: nat, hi: nat) {
    if ps == [] then lo == hi
    else
      var p := ps[|ps| - 1];
      p.Pack? && p.base < p.newHeight == hi && Tiles(ps[..|ps| - 1], lo, p.base)
  }

  /** Handed over by the processor and not yet attempted, oldest first. */
  function InFlight(s: State): seq<Pending> {
    (if s.taken.Some? && s.stage == Received then [s.taken.value] else []) + s.flushChan + s.outbox
  }

  /** Every batch the processor ever cut, oldest first. */
  function Cuts(s: State): seq<Pending> { Tried(s.attempts) + Packs(InFlight(s)) }

  predicate Sized(p: Pending) { p.Pack? && LastOf(p.calls) == p.newHeight }

  /** The processor's batches tile the heights it has seen; the open batch covers the rest. */
  ghost predicate Tiled(c: Config, s: State) {
    && Tiles(Cuts(s), c.start, s.base)
    && (forall p <- Cuts(s) :: Sized(p))
  }

  ghost predicate OpenBatch(s: State) {
    && s.running == s.base + s.blocksIn
    && (if s.blocksIn == 0 then s.calls == [] else LastOf(s.calls) == s.running)
  }

  lemma Queued(s: State, s': State, p: Pending)
    requires s'.attempts == s.attempts && s'.taken == s.taken && s'.stage == s.stage && s'.flushChan == s.flushChan
    requires s'.outbox == s.outbox + [p]
    ensures Cuts(s') == Cuts(s) + (if p.Pack? then [p] else [])
  {
    hide Packs, Tried;
    assert InFlight(s') == InFlight(s) + [p];
    hide InFlight;
    PacksCat(InFlight(s), [p]);
    OnePack(p);
  }

  lemma TilesMore(ps: seq<Pending>, lo: nat, p: Pending)
    requires p.Pack? && p.base < p.newHeight && Tiles(ps, lo, p.base)
    ensures Tiles(ps + [p], lo, p.newHeight)
  {
    assert (ps + [p])[..|ps|] == ps;
  }

  lemma CutKeepsTiles(c: Config, s: State)
    requires Tiled(c, s) && OpenBatch(s)
    ensures Tiled(c, Cut(s)) && OpenBatch(Cut(s))
  {
    if s.blocksIn > 0 {
      var p := Pack(s.base, s.running, s.calls);
      Queued(s, Cut(s), p);
      TilesMore(Cuts(s), c.start, p);
      hide Cuts, Tiles, LastOf;
    }
  }

  lemma {:induction false} LastOfCat(x: seq<Call>, h: nat)
    ensures LastOf(x + [Last(h)]) == h
  {
  }

  lemma SameCuts(c: Config, s: State, s': State)
    requires Tiled(c, s) && Cuts(s') == Cuts(s) && s'.base == s.base
    ensures Tiled(c, s')
  {
  }

  lemma AbsorbKeepsTiles(c: Config, s: State, count: nat, calls: seq<Call>, batchSize: int)
    requires Tiled(c, s) && OpenBatch(s) && count >= 1
    ensures Tiled(c, Absorb(s, count, calls, batchSize)) && OpenBatch(Absorb(s, count, calls, batchSize))
  {
    hide Tiled, Cut;
    var s' := Absorb(s, count, calls, s.blocksIn + count + 1);
    LastOfCat(s.calls + calls, s.running + count);
    assert s.calls + calls + [Last(s.running + count)] == s.calls + (calls + [Last(s.running + count)]);
    SameCuts(c, s, s');
    CutKeepsTiles(c, s');
  }

  lemma SyncKeepsTiles(c: Config, s: State)
    requires Tiled(c, s) && OpenBatch(s)
    ensures Tiled(c, SyncNow(s)) && OpenBatch(SyncNow(s))
  {
    hide Tiled;
    SameCuts(c, s, s.(got := None));
    var s' := Cut(s.(got := None));
    CutKeepsTiles(c, s.(got := None));
    if !s.signaled {
      Queued(s', SyncNow(s), SyncPoint);
      hide Cuts, Cut;
      assert Cuts(SyncNow(s)) == Cuts(s');
      SameCuts(c, s', SyncNow(s));
    }
  }

  lemma BreakKeepsTiles(c: Config, s: State)
    requires Tiled(c, s) && OpenBatch(s)
    ensures Tiled(c, Break(s)) && OpenBatch(Break(s))
  {
    hide Tiled;
    var s' := s.(processing := false, got := None);
    SameCuts(c, s, s');
    CutKeepsTiles(c, s');
  }

  /** Fetched groups are never empty. */
  ghost predicate NonEmptyGroups(s: State) {
    && (forall g <- s.fetchChan :: g.Group? ==> g.count >= 1)
    && (s.got.Some? && s.got.value.Group? ==> s.got.value.count >= 1)
  }

  lemma FetcherKeepsGroups(s: State, st: Step)
    requires NonEmptyGroups(s) && (st.SendGroup? || st.SendCaughtUp? || st.FetcherStops?)
    ensures NonEmptyGroups(FetchStep(s, st))
  {
    hide NoLast;
  }

  lemma ProcessorKeepsGroups(s: State, st: Step)
    requires NonEmptyGroups(s) && (st.Receive? || st.Decide? || st.Send? || st.ProcessorEnds?)
    ensures NonEmptyGroups(ProcessStep(s, st))
  {
    hide LastOf;
    var s' := ProcessStep(s, st);
    assert s'.fetchChan == s.fetchChan || (s.fetchChan != [] && s'.fetchChan == s.fetchChan[1..]
           && s'.got == Some(s.fetchChan[0]));
  }

  lemma FlusherKeepsGroups(c: Config, s: State, st: Step)
    requires NonEmptyGroups(s) && (st.Take? || st.Begin? || st.StoreHeight? || st.StoreSafe? || st.Publish?)
    ensures NonEmptyGroups(FlushStep(c, s, st))
  {
    hide Flush, Build, LastOf;
    assert FlushStep(c, s, st).fetchChan == s.fetchChan && FlushStep(c, s, st).got == s.got;
  }

  lemma GroupsStayNonEmpty(c: Config, s: State, st: Step)
    requires NonEmptyGroups(s)
    ensures NonEmptyGroups(Next(c, s, st))
  {
    hide FetchStep, ProcessStep, FlushStep;
    if st.SendGroup? || st.SendCaughtUp? || st.FetcherStops? {
      FetcherKeepsGroups(s, st);
    } else if st.Receive? || st.Decide? || st.Send? || st.ProcessorEnds? {
      ProcessorKeepsGroups(s, st);
    } else if !st.Close? {
      FlusherKeepsGroups(c, s, st);
    }
  }

  lemma ProcessKeepsTiles(c: Config, s: State, st: Step)
    requires st.Receive? || st.Decide? || st.Send? || st.ProcessorEnds?
    requires Tiled(c, s) && OpenBatch(s) && NonEmptyGroups(s)
    ensures Tiled(c, ProcessStep(s, st)) && OpenBatch(ProcessStep(s, st))
  {
    hide Tiled, Cut, Break, Absorb, SyncNow;
    if st.Receive? || st.Send? {
      hide ProcessStep;
      MoveKeepsTiles(c, s, st);
    } else {
      BreakKeepsTiles(c, s);
      if st.Decide? && s.got.Some? {
        SyncKeepsTiles(c, s);
        if s.got.value.Group? {
          AbsorbKeepsTiles(c, s, s.got.value.count, s.got.value.calls, st.batchSize);
        }
      }
    }
  }

  lemma MoveKeepsTiles(c: Config, s: State, st: Step)
    requires st.Receive? || st.Send?
    requires Tiled(c, s) && OpenBatch(s)
    ensures Tiled(c, ProcessStep(s, st)) && OpenBatch(ProcessStep(s, st))
  {
    hide Tiled, ProcessStep, InFlight, Cuts;
    MoveFrame(s, st);
    SameFlight(s, ProcessStep(s, st));
    SameCuts(c, s, ProcessStep(s, st));
  }

  lemma FlushKeepsTiles(c: Config, s: State, st: Step)
    requires st.Take? || st.Begin? || st.StoreHeight? || st.StoreSafe? || st.Publish?
    requires Tiled(c, s)
    ensures Tiled(c, FlushStep(c, s, st)) && Cuts(FlushStep(c, s, st)) == Cuts(s)
  {
    hide Tiled, Cuts, BeginStep;
    var s' := FlushStep(c, s, st);
    if st.Begin? {
      BeginKeepsCuts(c, s, st.ok);
    } else {
      assert InFlight(s') == InFlight(s);
      SameFlight(s, s');
    }
    SameCuts(c, s, s');
  }

  lemma SameFlight(s: State, s': State)
    requires s'.attempts == s.attempts && InFlight(s') == InFlight(s)
    ensures Cuts(s') == Cuts(s)
  {
  }

  lemma BeginKeepsCuts(c: Config, s: State, ok: bool)
    requires Tiled(c, s)
    ensures Cuts(BeginStep(s, ok)) == Cuts(s) && BeginStep(s, ok).base == s.base
  {
    if s.taken.Some? && s.stage == Received {
      hide Tiled, BeginStep, Cuts;
      Begun(c, s, ok);
      Moved(s, BeginStep(s, ok), ok);
    }
  }

  /** Every batch the flusher takes up is attempted, in the drain too: its last height is positive. */
  lemma Begun(c: Config, s: State, ok: bool)
    requires Tiled(c, s) && s.taken.Some? && s.stage == Received
    ensures var s' := BeginStep(s, ok);
            && s'.base == s.base && InFlight(s') == s.flushChan + s.outbox
            && s'.attempts == s.attempts + (if s.taken.value.Pack? then [Attempt(s.taken.value, ok)] else [])
  {
    hide Flush, Build, Tiled, Cuts;
    if s.taken.value.Pack? {
      CutsHead(s);
      PositiveCut(c, s, s.taken.value);
    }
  }

  lemma Moved(s: State, s': State, ok: bool)
    requires s.taken.Some? && s.stage == Received && InFlight(s') == s.flushChan + s.outbox
    requires s'.attempts == s.attempts + (if s.taken.value.Pack? then [Attempt(s.taken.value, ok)] else [])
    ensures Cuts(s') == Cuts(s)
  {
    hide Packs, Tried;
    var p, rest := s.taken.value, s.flushChan + s.outbox;
    assert InFlight(s) == [p] + rest;
    hide InFlight;
    PacksCat([p], rest);
    OnePack(p);
    if p.Pack? {
      TriedMore(s.attempts, Attempt(p, ok));
      assert Tried(s.attempts) + [p] + Packs(rest) == Tried(s.attempts) + ([p] + Packs(rest));
    } else {
      assert s'.attempts == s.attempts && [] + Packs(rest) == Packs(rest);
    }
  }

  lemma CutsHead(s: State)
    requires s.taken.Some? && s.stage == Received && s.taken.value.Pack?
    ensures s.taken.value in Cuts(s)
  {
    var p, rest := s.taken.value, s.flushChan + s.outbox;
    assert InFlight(s) == [p] + rest;
    PacksCat([p], rest);
    OnePack(p);
  }

  lemma TriedMore(tries: seq<Attempt>, a: Attempt)
    ensures Tried(tries + [a]) == Tried(tries) + [a.pack]
  {
    assert (tries + [a])[..|tries|] == tries;
  }

  lemma {:induction false} TilesArePositive(ps: seq<Pending>, lo: nat, hi: nat)
    requires Tiles(ps, lo, hi)
    ensures lo <= hi && forall p <- ps :: p.Pack? && lo <= p.base < p.newHeight <= hi
  {
    if ps != [] {
      TilesArePositive(ps[..|ps| - 1], lo, ps[|ps| - 1].base);
    }
  }

  lemma PositiveCut(c: Config, s: State, p: Pending)
    requires Tiled(c, s) && p in Cuts(s)
    ensures LastOf(p.calls) == p.newHeight > 0
  {
    TilesArePositive(Cuts(s), c.start, s.base);
  }

  lemma {:induction false} TilesSplit(x: seq<Pending>, y: seq<Pending>, lo: nat, hi: nat)
    requires Tiles(x + y, lo, hi)
    ensures y != [] ==> y[0].Pack?
    ensures var mid := if y == [] then hi else y[0].base; Tiles(x, lo, mid) && Tiles(y, mid, hi)
  {
    if y == [] {
      assert x + y == x;
    } else {
      var y', p := y[..|y| - 1], y[|y| - 1];
      assert (x + y)[..|x + y| - 1] == x + y' && (x + y)[|x + y| - 1] == p;
      TilesSplit(x, y', lo, p.base);
    }
  }

  ghost predicate Scanning(c: Config, s: State) { Tiled(c, s) && OpenBatch(s) && NonEmptyGroups(s) }

  /** The flusher leaves the fetcher's and the processor's state alone. */
  lemma FlushFrame(c: Config, s: State, st: Step)
    requires st.Take? || st.Begin? || st.StoreHeight? || st.StoreSafe? || st.Publish?
    ensures SameScan(s, FlushStep(c, s, st))
  {
    hide Flush, Build, LastOf, BeginStep;
    if st.Begin? {
      BeginFrame(s, st.ok);
    }
  }

  ghost predicate SameScan(s: State, s': State) {
    && s'.base == s.base && s'.running == s.running && s'.calls == s.calls && s'.blocksIn == s.blocksIn
    && s'.processing == s.processing && s'.got == s.got && s'.fetchChan == s.fetchChan
    && s'.nextHeight == s.nextHeight
  }

  lemma BeginFrame(s: State, ok: bool)
    ensures SameScan(s, BeginStep(s, ok))
  {
    hide Flush, Build, LastOf;
  }

  /** The fetcher leaves everything but its own state alone, and never sends an empty group. */
  lemma FetchFrame(s: State, st: Step)
    requires st.SendGroup? || st.SendCaughtUp? || st.FetcherStops?
    ensures var s' := FetchStep(s, st);
            && s'.base == s.base && s'.running == s.running && s'.calls == s.calls && s'.blocksIn == s.blocksIn
            && s'.processing == s.processing && s'.got == s.got && s'.attempts == s.attempts
            && InFlight(s') == InFlight(s)
  {
    hide NoLast;
  }

  lemma ScanningKept(c: Config, s: State, st: Step)
    requires Scanning(c, s)
    ensures Scanning(c, Next(c, s, st))
  {
    hide Tiled, NonEmptyGroups, LastOf;
    GroupsStayNonEmpty(c, s, st);
    if st.Receive? || st.Decide? || st.Send? || st.ProcessorEnds? {
      hide ProcessStep, OpenBatch;
      ProcessKeepsTiles(c, s, st);
    } else if st.Take? || st.Begin? || st.StoreHeight? || st.StoreSafe? || st.Publish? {
      hide FlushStep;
      FlushKeepsTiles(c, s, st);
      FlushFrame(c, s, st);
    } else if st.Close? {
      SameTiles(c, s, s.(closing := true));
    } else {
      hide FetchStep;
      FetchFrame(s, st);
      SameTiles(c, s, FetchStep(s, st));
    }
  }

  lemma SameTiles(c: Config, s: State, s': State)
    requires Tiled(c, s) && s'.attempts == s.attempts && InFlight(s') == InFlight(s) && s'.base == s.base
    ensures Tiled(c, s')
  {
  }

  // ---------- Progress ----------

  /** The height of the last committed batch. */
  function Durable(tries: seq<Attempt>, start: nat): nat {
    if tries == [] then start
    else
      var a := tries[|tries| - 1];
      if a.ok && a.pack.Pack? then a.pack.newHeight else Durable(tries[..|tries| - 1], start)
  }

  /** The store after the committed attempts, in order. */
  ghost function Replay(db: Db, tries: seq<Attempt>): Db {
    if tries == [] then db
    else
      var a, before := tries[|tries| - 1], Replay(db, tries[..|tries| - 1]);
      if a.ok && a.pack.Pack? then Flush(before, Build(a.pack.calls)) else before
  }

  ghost predicate Rising(ps: seq<Pending>) {
    forall i, j | 0 <= i < j < |ps| :: ps[i].Pack? && ps[j].Pack? && ps[i].newHeight < ps[j].newHeight
  }

  /** Every batch in ps was committed, and ps ends at or below h. */
  ghost predicate CommittedUpTo(ps: seq<Pending>, tries: seq<Attempt>, h: nat) {
    forall p <- ps :: p.Pack? && p.newHeight <= h && Attempt(p, true) in tries
  }

  /** The batch past its commit is the last committed one. */
  ghost predicate InHand(c: Config, s: State) {
    s.stage != Received ==>
      && s.taken.Some? && s.taken.value.Pack? && Attempt(s.taken.value, true) in s.attempts
      && s.taken.value.newHeight == Durable(s.attempts, c.start)
      && (forall p <- s.published :: p.Pack? && p.newHeight < s.taken.value.newHeight)
      && (s.stage != Committed ==> s.lastIndexed == s.taken.value.newHeight)
  }

  ghost predicate NeverEarly(c: Config, s: State) {
    && s.db == Replay(c.db, s.attempts) && LastIndexHeight(s.db) == Durable(s.attempts, c.start)
    && s.safe <= SafeOf(s.lastIndexed, c.depth) && s.lastIndexed <= Durable(s.attempts, c.start)
    && CommittedUpTo(s.published, s.attempts, s.lastIndexed) && Rising(s.published)
    && InHand(c, s)
  }

  lemma FlushedHeight(db: Db, calls: seq<Call>)
    requires LastOf(calls) > 0
    ensures LastIndexHeight(Flush(db, Build(calls))) == LastOf(calls)
  {
    hide Build;
    BuildByKind(calls);
    hide PutInvocations, RaiseLatest, AddHeights, PutNormals, CountOwners, NonEmptyClasses, PutClassRows;
    hide NonEmptyCodes, NonEmptyOwners, MergeEdges;
  }

  lemma AttemptMore(db: Db, tries: seq<Attempt>, a: Attempt, start: nat)
    requires a.pack.Pack?
    ensures Durable(tries + [a], start) == if a.ok then a.pack.newHeight else Durable(tries, start)
    ensures Replay(db, tries + [a]) ==
            if a.ok then Flush(Replay(db, tries), Build(a.pack.calls)) else Replay(db, tries)
  {
    hide Flush, Build;
    assert (tries + [a])[..|tries|] == tries;
  }

  lemma {:induction false} DurableIsTried(tries: seq<Attempt>, start: nat, hi: nat)
    requires Tiles(Tried(tries), start, hi)
    ensures start <= Durable(tries, start) <= hi
  {
    if tries != [] {
      TilesArePositive(Tried(tries), start, hi);
      assert Tried(tries)[..|Tried(tries)| - 1] == Tried(tries[..|tries| - 1]);
      DurableIsTried(tries[..|tries| - 1], start, tries[|tries| - 1].pack.base);
    }
  }

  /** A batch taken up starts at or above every attempted height. */
  lemma TakenIsAhead(c: Config, s: State)
    requires Tiled(c, s) && s.taken.Some? && s.stage == Received && s.taken.value.Pack?
    ensures LastOf(s.taken.value.calls) == s.taken.value.newHeight
    ensures Durable(s.attempts, c.start) <= s.taken.value.base < s.taken.value.newHeight
  {
    var p, rest := s.taken.value, s.flushChan + s.outbox;
    assert InFlight(s) == [p] + rest;
    PacksCat([p], rest);
    OnePack(p);
    assert Cuts(s) == Tried(s.attempts) + ([p] + Packs(rest));
    TilesSplit(Tried(s.attempts), [p] + Packs(rest), c.start, s.base);
    assert p in Cuts(s);
    TilesArePositive(Cuts(s), c.start, s.base);
    DurableIsTried(s.attempts, c.start, p.base);
  }

  lemma SameProgress(c: Config, s: State, s': State)
    requires NeverEarly(c, s)
    requires s'.db == s.db && s'.attempts == s.attempts && s'.published == s.published && s'.safe == s.safe
    requires s'.lastIndexed == s.lastIndexed && s'.taken == s.taken && s'.stage == s.stage
    ensures NeverEarly(c, s')
  {
  }

  lemma CommittedMore(ps: seq<Pending>, tries: seq<Attempt>, a: Attempt, h: nat, h': nat)
    requires CommittedUpTo(ps, tries, h) && h <= h'
    ensures CommittedUpTo(ps, tries + [a], h') && CommittedUpTo(ps, tries, h')
  {
  }

  lemma BegunFields(s: State, ok: bool)
    requires s.taken.Some? && s.stage == Received && s.taken.value.Pack? && LastOf(s.taken.value.calls) > 0
    ensures var s' := BeginStep(s, ok);
            && s'.db == (if ok then Flush(s.db, Build(s.taken.value.calls)) else s.db)
            && s'.attempts == s.attempts + [Attempt(s.taken.value, ok)]
            && s'.published == s.published && s'.safe == s.safe && s'.lastIndexed == s.lastIndexed
            && (s'.stage == Received || (ok && s'.stage == Committed && s'.taken == s.taken))
  {
    hide Flush, Build, LastOf;
  }

  /** The store stays the replay of the attempts, and its height row the last committed height. */
  lemma StoreFollows(c: Config, s: State, a: Attempt, db: Db)
    requires s.db == Replay(c.db, s.attempts) && LastIndexHeight(s.db) == Durable(s.attempts, c.start)
    requires a.pack.Pack? && LastOf(a.pack.calls) == a.pack.newHeight > 0
    requires db == if a.ok then Flush(s.db, Build(a.pack.calls)) else s.db
    ensures db == Replay(c.db, s.attempts + [a]) && LastIndexHeight(db) == Durable(s.attempts + [a], c.start)
  {
    hide Flush, Build, LastIndexHeight, LastOf, Durable, Replay;
    AttemptMore(c.db, s.attempts, a, c.start);
    if a.ok {
      FlushedHeight(s.db, a.pack.calls);
    }
  }

  lemma CommittedInHand(c: Config, s: State, s': State, a: Attempt)
    requires CommittedUpTo(s.published, s.attempts, s.lastIndexed)
    requires a.pack.Pack? && s.lastIndexed < a.pack.newHeight
    requires s'.attempts == s.attempts + [a] && s'.published == s.published
    requires s'.stage == Received || (a.ok && s'.stage == Committed && s'.taken == Some(a.pack))
    ensures InHand(c, s') && CommittedUpTo(s'.published, s'.attempts, s.lastIndexed)
  {
    hide Replay, Durable;
    AttemptMore(c.db, s.attempts, a, c.start);
    CommittedMore(s.published, s.attempts, a, s.lastIndexed, s.lastIndexed);
  }

  lemma BeginOtherwise(s: State, ok: bool)
    requires !(s.taken.Some? && s.stage == Received && s.taken.value.Pack?)
    ensures BeginStep(s, ok) == s || (s.stage == Received && BeginStep(s, ok) == s.(taken := None))
  {
    hide LastOf, Flush, Build;
  }

  lemma DroppedSync(c: Config, s: State)
    requires NeverEarly(c, s) && s.stage == Received
    ensures NeverEarly(c, s.(taken := None))
  {
    hide Replay, Durable, LastIndexHeight, CommittedUpTo, Rising;
  }

  lemma BeginKeepsProgress(c: Config, s: State, ok: bool)
    requires NeverEarly(c, s) && Tiled(c, s)
    ensures NeverEarly(c, BeginStep(s, ok))
  {
    if s.taken.Some? && s.stage == Received && s.taken.value.Pack? {
      hide Flush, Build, LastIndexHeight, LastOf, Rising, Tiled, BeginStep, Durable, Replay, CommittedUpTo, InHand;
      var a := Attempt(s.taken.value, ok);
      TakenIsAhead(c, s);
      BegunFields(s, ok);
      StoreFollows(c, s, a, BeginStep(s, ok).db);
      CommittedInHand(c, s, BeginStep(s, ok), a);
      AttemptMore(c.db, s.attempts, a, c.start);
    } else {
      hide *;
      BeginOtherwise(s, ok);
      if s.stage == Received {
        DroppedSync(c, s);
      }
    }
  }

  lemma PublishKeepsProgress(c: Config, s: State)
    requires NeverEarly(c, s)
    ensures NeverEarly(c, FlushStep(c, s, Publish))
  {
    hide Durable, Replay, LastIndexHeight;
  }

  lemma StoreKeepsProgress(c: Config, s: State, st: Step)
    requires NeverEarly(c, s) && (st.StoreHeight? || st.StoreSafe? || st.Take?)
    ensures NeverEarly(c, FlushStep(c, s, st))
  {
    hide Durable, Replay, LastIndexHeight, Rising;
    if st.StoreHeight? && s.stage == Committed {
      CommittedMore(s.published, s.attempts, Attempt(SyncPoint, false), s.lastIndexed, Durable(s.attempts, c.start));
    }
  }

  lemma NeverEarlyKept(c: Config, s: State, st: Step)
    requires NeverEarly(c, s) && Scanning(c, s)
    ensures NeverEarly(c, Next(c, s, st))
  {
    hide NeverEarly, Tiled, OpenBatch, NonEmptyGroups;
    if st.Begin? {
      hide BeginStep;
      BeginKeepsProgress(c, s, st.ok);
    } else if st.Publish? {
      hide FlushStep;
      PublishKeepsProgress(c, s);
    } else if st.StoreHeight? || st.StoreSafe? || st.Take? {
      hide FlushStep;
      StoreKeepsProgress(c, s, st);
    } else {
      hide LastOf;
      SameProgress(c, s, Next(c, s, st));
    }
  }

  lemma Started(c: Config)
    requires LastIndexHeight(c.db) == c.start
    ensures Scanning(c, Init(c)) && NeverEarly(c, Init(c))
  {
    assert Cuts(Init(c)) == [];
  }

  lemma {:induction false} RunsScan(c: Config, steps: seq<Step>)
    requires LastIndexHeight(c.db) == c.start
    ensures Scanning(c, Exec(c, steps)) && NeverEarly(c, Exec(c, steps))
  {
    hide Scanning, NeverEarly, Next, Init;
    if steps == [] {
      Started(c);
    } else {
      var before := Exec(c, steps[..|steps| - 1]);
      RunsScan(c, steps[..|steps| - 1]);
      ScanningKept(c, before, steps[|steps| - 1]);
      NeverEarlyKept(c, before, steps[|steps| - 1]);
    }
  }

  /**
   In every run, with any flush failures and a shutdown at any point: the in-memory height is at
   most the stored one, the safe height stays `depth` below the in-memory one, and events are
   published in commit order, only for batches that were committed.
   */
  lemma ProgressIsNeverClaimedEarly(c: Config, steps: seq<Step>)
    requires LastIndexHeight(c.db) == c.start
    ensures var s := Exec(c, steps);
            && s.lastIndexed <= LastIndexHeight(s.db)
            && s.safe <= s.lastIndexed && (s.safe == 0 || s.safe + c.depth <= s.lastIndexed)
            && Rising(s.published) && CommittedUpTo(s.published, s.attempts, s.lastIndexed)
  {
    RunsScan(c, steps);
    hide Exec, LastIndexHeight, Rising, Durable, Replay, Scanning, CommittedUpTo;
  }

  lemma FetcherKeepsHeights(s: State, st: Step)
    requires st.SendGroup? || st.SendCaughtUp? || st.FetcherStops?
    ensures FetchStep(s, st).lastIndexed == s.lastIndexed && FetchStep(s, st).safe == s.safe
  {
    hide NoLast;
  }

  lemma ProcessorKeepsHeights(s: State, st: Step)
    requires st.Receive? || st.Decide? || st.Send? || st.ProcessorEnds?
    ensures ProcessStep(s, st).lastIndexed == s.lastIndexed && ProcessStep(s, st).safe == s.safe
  {
    hide LastOf;
  }

  lemma FlusherKeepsHeights(c: Config, s: State, st: Step)
    requires st.Take? || st.Begin? || st.Publish?
    ensures FlushStep(c, s, st).lastIndexed == s.lastIndexed && FlushStep(c, s, st).safe == s.safe
  {
    hide Flush, Build, LastOf;
  }

  lemma OtherStepsKeepHeights(c: Config, s: State, st: Step)
    requires !st.StoreHeight? && !st.StoreSafe?
    ensures Next(c, s, st).lastIndexed == s.lastIndexed && Next(c, s, st).safe == s.safe
  {
    hide FetchStep, ProcessStep, FlushStep;
    if st.SendGroup? || st.SendCaughtUp? || st.FetcherStops? {
      FetcherKeepsHeights(s, st);
    } else if st.Receive? || st.Decide? || st.Send? || st.ProcessorEnds? {
      ProcessorKeepsHeights(s, st);
    } else if !st.Close? {
      FlusherKeepsHeights(c, s, st);
    }
  }

  /** No step takes the indexed or the safe height back. */
  lemma ProgressNeverGoesBack(c: Config, steps: seq<Step>, st: Step)
    requires LastIndexHeight(c.db) == c.start
    ensures var before, after := Exec(c, steps), Exec(c, steps + [st]);
            before.lastIndexed <= after.lastIndexed && before.safe <= after.safe
  {
    RunsScan(c, steps);
    assert (steps + [st])[..|steps|] == steps;
    var s := Exec(c, steps);
    assert Exec(c, steps + [st]) == Next(c, s, st);
    hide Exec, Replay, Durable, LastIndexHeight, Rising, CommittedUpTo, Scanning;
    if !st.StoreHeight? && !st.StoreSafe? {
      hide Next;
      OtherStepsKeepHeights(c, s, st);
    }
  }

  // ---------- What a faithful run stores ----------

  ghost predicate IsGroup(chain: seq<Block>, at: nat, count: nat, calls: seq<Call>) {
    at + count <= |chain| && calls == GroupCalls(chain[at..at + count], at)
  }

  /** Every fetch delivered the chain's next blocks: no RPC or parse error. Flush errors and shutdown stay possible. */
  ghost predicate Faithful(c: Config, steps: seq<Step>) {
    steps != [] ==>
      var init, st := steps[..|steps| - 1], steps[|steps| - 1];
      Faithful(c, init) && (st.SendGroup? ==> IsGroup(c.chain, Exec(c, init).nextHeight, st.count, st.calls))
  }

  /** The fetched groups are the chain's blocks lo + 1 .. hi in order. */
  ghost predicate Laid(chain: seq<Block>, gs: seq<Fetched>, lo: nat, hi: nat) {
    if gs == [] then lo == hi
    else if gs[0].CaughtUp? then Laid(chain, gs[1..], lo, hi)
    else IsGroup(chain, lo, gs[0].count, gs[0].calls) && Laid(chain, gs[1..], lo + gs[0].count, hi)
  }

  lemma {:induction false} LaidMore(chain: seq<Block>, gs: seq<Fetched>, lo: nat, hi: nat, g: Fetched)
    requires Laid(chain, gs, lo, hi) && (g.Group? ==> IsGroup(chain, hi, g.count, g.calls))
    ensures Laid(chain, gs + [g], lo, if g.Group? then hi + g.count else hi)
  {
    hide IsGroup;
    if gs == [] {
      assert [g][1..] == [];
    } else {
      LaidMore(chain, gs[1..], if gs[0].Group? then lo + gs[0].count else lo, hi, g);
      assert (gs + [g])[1..] == gs[1..] + [g];
    }
  }

  /** The calls of the chain's blocks lo + 1 .. hi, one block after another. */
  function ChainCalls(chain: seq<Block>, lo: nat, hi: nat): seq<Call>
    requires lo <= hi <= |chain|
  {
    EventCalls(GroupEvents(chain[lo..hi], lo))
  }

  /** A batch that builds what its blocks build one after another. */
  ghost predicate OnChain(chain: seq<Block>, base: nat, newHeight: nat, calls: seq<Call>) {
    base <= newHeight <= |chain| && SameByKind(calls, ChainCalls(chain, base, newHeight))
  }

  ghost predicate PackOnChain(chain: seq<Block>, p: Pending) {
    p.Pack? && OnChain(chain, p.base, p.newHeight, p.calls)
  }

  function Fetches(s: State): seq<Fetched> { (if s.got.Some? then [s.got.value] else []) + s.fetchChan }

  ghost predicate FromChain(c: Config, s: State) {
    && (s.processing ==> Laid(c.chain, Fetches(s), s.running, s.nextHeight))
    && OnChain(c.chain, s.base, s.running, s.calls)
    && (forall p <- Cuts(s) :: PackOnChain(c.chain, p))
  }

  lemma {:induction false} GroupEventsCat(x: seq<Block>, y: seq<Block>, start: nat)
    ensures GroupEvents(x + y, start) == GroupEvents(x, start) + GroupEvents(y, start + |x|)
  {
    hide BlockEvents;
    if y == [] {
      assert x + y == x;
    } else {
      GroupEventsCat(x, y[..|y| - 1], start);
      assert (x + y)[..|x + y| - 1] == x + y[..|y| - 1];
    }
  }

  lemma ChainCallsCat(chain: seq<Block>, lo: nat, mid: nat, hi: nat)
    requires lo <= mid <= hi <= |chain|
    ensures ChainCalls(chain, lo, hi) == ChainCalls(chain, lo, mid) + ChainCalls(chain, mid, hi)
  {
    hide EventCalls, GroupEvents;
    assert chain[lo..hi] == chain[lo..mid] + chain[mid..hi];
    GroupEventsCat(chain[lo..mid], chain[mid..hi], lo);
    EventCallsCat(GroupEvents(chain[lo..mid], lo), GroupEvents(chain[mid..hi], mid));
  }

  lemma {:induction false} LastOfTail(x: seq<Call>, y: seq<Call>)
    requires LastOf(y) > 0
    ensures LastOf(x + y) == LastOf(y)
  {
    assert (x + y)[|x + y| - 1] == y[|y| - 1];
    if !y[|y| - 1].Last? {
      LastOfTail(x, y[..|y| - 1]);
      assert (x + y)[..|x + y| - 1] == x + y[..|y| - 1];
    }
  }

  lemma SameByKindCat(x: seq<Call>, x': seq<Call>, y: seq<Call>, y': seq<Call>)
    requires SameByKind(x, x') && SameByKind(y, y') && LastOf(y) > 0
    ensures SameByKind(x + y, x' + y')
  {
    KindsCat(x, y);
    KindsCat(x', y');
    LastOfTail(x, y);
    LastOfTail(x', y');
    hide Hashes, Others, TallyOf, LastOf;
  }

  lemma SealedSlice(chain: seq<Block>, lo: nat, hi: nat)
    requires SealedOnce(chain) && lo <= hi <= |chain|
    ensures SealedOnce(chain[lo..hi])
  {
    forall b <- chain[lo..hi] ensures b in chain {
    }
  }

  lemma AbsorbOnChain(chain: seq<Block>, base: nat, running: nat, calls: seq<Call>, count: nat, group: seq<Call>)
    requires SealedOnce(chain) && OnChain(chain, base, running, calls) && IsGroup(chain, running, count, group)
             && count >= 1
    ensures OnChain(chain, base, running + count, calls + (group + [Last(running + count)]))
  {
    hide SameByKind, GroupCalls, ChainCalls, SealedOnce;
    var bs := chain[running..running + count];
    SealedSlice(chain, running, running + count);
    GroupIsBlocks(bs, running);
    LastOfCat(group, running + count);
    var y, y' := group + [Last(running + count)], ChainCalls(chain, running, running + count);
    assert SameByKind(y, y') by { ChainCallsAre(chain, running, running + count); }
    SameByKindCat(calls, ChainCalls(chain, base, running), y, y');
    ChainCallsCat(chain, base, running, running + count);
  }

  lemma ChainCallsAre(chain: seq<Block>, lo: nat, hi: nat)
    requires lo <= hi <= |chain|
    ensures ChainCalls(chain, lo, hi) == EventCalls(GroupEvents(chain[lo..hi], lo))
  {
  }

  lemma NothingOnChain(chain: seq<Block>, h: nat)
    requires h <= |chain|
    ensures OnChain(chain, h, h, [])
  {
    assert chain[h..h] == [];
    NoEvents();
  }

  lemma SameChain(c: Config, s: State, s': State)
    requires FromChain(c, s) && Cuts(s') == Cuts(s)
    requires s'.base == s.base && s'.running == s.running && s'.calls == s.calls
    requires s'.processing ==> s.processing && Laid(c.chain, Fetches(s'), s.running, s'.nextHeight)
    ensures FromChain(c, s')
  {
  }

  lemma CutFromChain(c: Config, s: State)
    requires FromChain(c, s) && OpenBatch(s)
    ensures FromChain(c, Cut(s))
  {
    if s.blocksIn > 0 {
      var p := Pack(s.base, s.running, s.calls);
      Queued(s, Cut(s), p);
      NothingOnChain(c.chain, s.running);
      hide Cuts, OnChain, Laid, LastOf;
    }
  }

  lemma AbsorbFromChain(c: Config, s: State, batchSize: int)
    requires SealedOnce(c.chain) && FromChain(c, s) && OpenBatch(s)
    requires s.processing && s.got.Some? && s.got.value.Group? && s.got.value.count >= 1
    ensures var g := s.got.value; FromChain(c, Absorb(s, g.count, g.calls, batchSize))
  {
    hide FromChain, OnChain, Cut, SealedOnce;
    var g := s.got.value;
    var s' := Absorb(s, g.count, g.calls, s.blocksIn + g.count + 1);
    AbsorbedFromChain(c, s, s');
    LastOfCat(s.calls + g.calls, s.running + g.count);
    assert s.calls + g.calls + [Last(s.running + g.count)] == s.calls + (g.calls + [Last(s.running + g.count)]);
    hide LastOf;
    CutFromChain(c, s');
  }

  lemma AbsorbedFromChain(c: Config, s: State, s': State)
    requires SealedOnce(c.chain) && FromChain(c, s) && s.processing
    requires s.got.Some? && s.got.value.Group? && s.got.value.count >= 1
    requires var g := s.got.value;
             && s'.running == s.running + g.count && s'.base == s.base && s'.got == None
             && s'.fetchChan == s.fetchChan && s'.nextHeight == s.nextHeight
             && s'.calls == s.calls + (g.calls + [Last(s'.running)])
             && s'.attempts == s.attempts && InFlight(s') == InFlight(s)
    ensures FromChain(c, s')
  {
    hide OnChain, Laid, IsGroup, SealedOnce, Cuts, InFlight, PackOnChain;
    var g := s.got.value;
    GotLaid(c, s);
    AbsorbOnChain(c.chain, s.base, s.running, s.calls, g.count, g.calls);
    SameFlight(s, s');
    assert Fetches(s') == s.fetchChan;
  }

  lemma GotLaid(c: Config, s: State)
    requires s.got.Some? && Laid(c.chain, Fetches(s), s.running, s.nextHeight)
    ensures s.got.value.CaughtUp? ==> Laid(c.chain, s.fetchChan, s.running, s.nextHeight)
    ensures s.got.value.Group? ==>
              && IsGroup(c.chain, s.running, s.got.value.count, s.got.value.calls)
              && Laid(c.chain, s.fetchChan, s.running + s.got.value.count, s.nextHeight)
  {
    assert Fetches(s)[1..] == s.fetchChan;
    hide IsGroup;
  }

  lemma SyncFromChain(c: Config, s: State)
    requires FromChain(c, s) && OpenBatch(s) && s.processing && s.got.Some? && s.got.value.CaughtUp?
    ensures FromChain(c, SyncNow(s))
  {
    hide OnChain, Cut, Cuts, FromChain, OpenBatch;
    var s0 := s.(got := None);
    FromChainLaid(c, s);
    GotLaid(c, s);
    assert Fetches(s0) == s.fetchChan && InFlight(s0) == InFlight(s);
    hide Laid, Fetches, InFlight;
    SameFlight(s, s0);
    SameChain(c, s, s0);
    assert OpenBatch(s0) by { SameOpen(s, s0); }
    CutFromChain(c, s0);
    if !s.signaled {
      SyncSent(c, Cut(s0), SyncNow(s));
    }
  }

  lemma SameOpen(s: State, s': State)
    requires OpenBatch(s) && s'.base == s.base && s'.running == s.running && s'.calls == s.calls
             && s'.blocksIn == s.blocksIn
    ensures OpenBatch(s')
  {
  }

  lemma SyncSent(c: Config, s: State, s': State)
    requires FromChain(c, s) && s' == s.(signaled := true, outbox := s.outbox + [SyncPoint])
    ensures FromChain(c, s')
  {
    hide OnChain, FromChain, Cuts;
    Queued(s, s', SyncPoint);
    assert Cuts(s') == Cuts(s);
    FromChainLaid(c, s);
    assert Fetches(s') == Fetches(s);
    hide Laid, Fetches;
    SameChain(c, s, s');
  }

  lemma FromChainLaid(c: Config, s: State)
    requires FromChain(c, s)
    ensures s.processing ==> Laid(c.chain, Fetches(s), s.running, s.nextHeight)
  {
  }

  lemma BreakFromChain(c: Config, s: State)
    requires FromChain(c, s) && OpenBatch(s)
    ensures FromChain(c, Break(s))
  {
    hide FromChain, OnChain, Laid;
    var s' := s.(processing := false, got := None);
    SameFlight(s, s');
    SameChain(c, s, s');
    CutFromChain(c, s');
    hide Cuts;
  }

  lemma DecideFromChain(c: Config, s: State, batchSize: int)
    requires SealedOnce(c.chain) && FromChain(c, s) && OpenBatch(s) && NonEmptyGroups(s)
    ensures FromChain(c, ProcessStep(s, Decide(batchSize)))
  {
    hide FromChain, Break, Absorb, SyncNow, OpenBatch, SealedOnce;
    if s.processing && s.got.Some? {
      BreakFromChain(c, s);
      if s.got.value.CaughtUp? {
        SyncFromChain(c, s);
      } else {
        AbsorbFromChain(c, s, batchSize);
      }
    }
  }

  /** Taking a group or handing a batch on moves values along without changing what is in flight. */
  lemma MoveFrame(s: State, st: Step)
    requires st.Receive? || st.Send?
    ensures var s' := ProcessStep(s, st);
            && s'.base == s.base && s'.running == s.running && s'.calls == s.calls && s'.blocksIn == s.blocksIn
            && s'.attempts == s.attempts && s'.processing == s.processing && s'.nextHeight == s.nextHeight
            && InFlight(s') == InFlight(s) && Fetches(s') == Fetches(s)
  {
    if st.Send? && s.outbox != [] {
      assert s.outbox == [s.outbox[0]] + s.outbox[1..];
    }
  }

  lemma MoveFromChain(c: Config, s: State, st: Step)
    requires st.Receive? || st.Send?
    requires FromChain(c, s)
    ensures FromChain(c, ProcessStep(s, st))
  {
    hide FromChain, Laid, ProcessStep, InFlight, Fetches, Cuts;
    MoveFrame(s, st);
    SameFlight(s, ProcessStep(s, st));
    FromChainLaid(c, s);
    SameChain(c, s, ProcessStep(s, st));
  }

  lemma ProcessFromChain(c: Config, s: State, st: Step)
    requires st.Receive? || st.Decide? || st.Send? || st.ProcessorEnds?
    requires SealedOnce(c.chain) && FromChain(c, s) && OpenBatch(s) && NonEmptyGroups(s)
    ensures FromChain(c, ProcessStep(s, st))
  {
    hide FromChain, Break, OpenBatch, NonEmptyGroups, SealedOnce;
    if st.ProcessorEnds? {
      BreakFromChain(c, s);
    } else {
      hide ProcessStep;
      if st.Decide? {
        DecideFromChain(c, s, st.batchSize);
      } else {
        MoveFromChain(c, s, st);
      }
    }
  }

  lemma SentToProcessor(s: State, st: Step)
    requires st.SendGroup? || st.SendCaughtUp? || st.FetcherStops?
    ensures var s' := FetchStep(s, st);
            || (s'.fetchChan == s.fetchChan && s'.nextHeight == s.nextHeight)
            || (st.SendGroup? && s'.fetchChan == s.fetchChan + [Group(st.count, st.calls)]
                && s'.nextHeight == s.nextHeight + st.count)
            || (st.SendCaughtUp? && s'.fetchChan == s.fetchChan + [CaughtUp] && s'.nextHeight == s.nextHeight)
  {
    hide NoLast;
  }

  lemma FetchFromChain(c: Config, s: State, st: Step)
    requires st.SendGroup? || st.SendCaughtUp? || st.FetcherStops?
    requires st.SendGroup? ==> IsGroup(c.chain, s.nextHeight, st.count, st.calls)
    requires FromChain(c, s)
    ensures FromChain(c, FetchStep(s, st))
  {
    hide FromChain, Laid, IsGroup, FetchStep, InFlight, Cuts;
    var s' := FetchStep(s, st);
    FetchFrame(s, st);
    SentToProcessor(s, st);
    SameFlight(s, s');
    FromChainLaid(c, s);
    if s'.fetchChan != s.fetchChan {
      var g := if st.SendGroup? then Group(st.count, st.calls) else CaughtUp;
      assert Fetches(s') == Fetches(s) + [g];
      if s.processing {
        LaidMore(c.chain, Fetches(s), s.running, s.nextHeight, g);
      }
    }
    SameChain(c, s, s');
  }

  lemma FromChainKept(c: Config, s: State, st: Step)
    requires SealedOnce(c.chain) && FromChain(c, s) && Scanning(c, s)
    requires st.SendGroup? ==> IsGroup(c.chain, s.nextHeight, st.count, st.calls)
    ensures FromChain(c, Next(c, s, st))
  {
    hide FromChain, Laid, IsGroup, Tiled, OpenBatch, NonEmptyGroups, SealedOnce, ProcessStep, FetchStep, FlushStep;
    if st.Receive? || st.Decide? || st.Send? || st.ProcessorEnds? {
      ProcessFromChain(c, s, st);
    } else if st.SendGroup? || st.SendCaughtUp? || st.FetcherStops? {
      FetchFromChain(c, s, st);
    } else if st.Close? {
      FromChainLaid(c, s);
      SameFlight(s, s.(closing := true));
      SameChain(c, s, s.(closing := true));
    } else {
      FlushKeepsTiles(c, s, st);
      FlushFrame(c, s, st);
      FromChainLaid(c, s);
      SameChain(c, s, FlushStep(c, s, st));
    }
  }

  lemma StartedFromChain(c: Config)
    requires c.start <= |c.chain|
    ensures FromChain(c, Init(c))
  {
    assert Cuts(Init(c)) == [];
    NothingOnChain(c.chain, c.start);
    hide OnChain;
  }

  lemma {:induction false} FaithfulRuns(c: Config, steps: seq<Step>)
    requires LastIndexHeight(c.db) == c.start <= |c.chain| && SealedOnce(c.chain) && Faithful(c, steps)
    ensures FromChain(c, Exec(c, steps))
  {
    hide Scanning, NeverEarly, FromChain, Next, Init, IsGroup, SealedOnce;
    if steps == [] {
      StartedFromChain(c);
    } else {
      var init := steps[..|steps| - 1];
      FaithfulRuns(c, init);
      RunsScan(c, init);
      FromChainKept(c, Exec(c, init), steps[|steps| - 1]);
    }
  }

  // ---------- The store of a faithful run ----------

  /** No committed attempt follows a failed one. */
  ghost predicate NoHoles(tries: seq<Attempt>) {
    forall i, j | 0 <= i < j < |tries| :: tries[j].ok ==> tries[i].ok
  }

  ghost predicate AllOk(tries: seq<Attempt>) { forall a <- tries :: a.ok }

  /** The committed batches, in order. */
  function Kept(tries: seq<Attempt>): seq<Pending> {
    if tries == [] then []
    else
      var a := tries[|tries| - 1];
      Kept(tries[..|tries| - 1]) + (if a.ok then [a.pack] else [])
  }

  lemma {:induction false} KeptBelow(tries: seq<Attempt>, lo: nat, hi: nat)
    requires Tiles(Tried(tries), lo, hi)
    ensures forall p <- Kept(tries) :: p.Pack? && p.newHeight <= hi
  {
    if tries != [] {
      var init, p := tries[..|tries| - 1], tries[|tries| - 1].pack;
      assert Tried(tries)[..|Tried(tries)| - 1] == Tried(init);
      KeptBelow(init, lo, p.base);
    }
  }

  /** The committed batches reach the top of all attempts only when none failed. */
  lemma {:induction false} FullTiling(tries: seq<Attempt>, lo: nat, hi: nat)
    requires Tiles(Tried(tries), lo, hi)
    ensures Tiles(Kept(tries), lo, hi) <==> AllOk(tries)
  {
    if tries != [] {
      var init, a := tries[..|tries| - 1], tries[|tries| - 1];
      assert Tried(tries)[..|Tried(tries)| - 1] == Tried(init);
      FullTiling(init, lo, a.pack.base);
      AllOkInit(tries);
      hide AllOk;
      if a.ok {
        assert Kept(tries)[..|Kept(tries)| - 1] == Kept(init);
      } else {
        KeptBelow(init, lo, a.pack.base);
        TilesArePositive(Tried(tries), lo, hi);
        assert Kept(tries) == Kept(init);
      }
    }
  }

  lemma AllOkInit(tries: seq<Attempt>)
    requires tries != []
    ensures AllOk(tries) <==> tries[|tries| - 1].ok && AllOk(tries[..|tries| - 1])
  {
    assert tries == tries[..|tries| - 1] + [tries[|tries| - 1]];
  }

  lemma NoHolesInit(tries: seq<Attempt>)
    requires tries != []
    ensures var init, a := tries[..|tries| - 1], tries[|tries| - 1];
            NoHoles(tries) <==> if a.ok then AllOk(init) else NoHoles(init)
  {
    var init, a := tries[..|tries| - 1], tries[|tries| - 1];
    if a.ok && NoHoles(tries) {
      forall x | x in init ensures x.ok {
        var i :| 0 <= i < |init| && init[i] == x;
        assert tries[i].ok;
      }
    }
  }

  /** The committed batches cover every height up to the durable one exactly when no failure precedes a commit. */
  lemma {:induction false} CoverageIsNoHoles(tries: seq<Attempt>, lo: nat, hi: nat)
    requires Tiles(Tried(tries), lo, hi)
    ensures Tiles(Kept(tries), lo, Durable(tries, lo)) <==> NoHoles(tries)
  {
    if tries != [] {
      var init, a := tries[..|tries| - 1], tries[|tries| - 1];
      assert Tried(tries)[..|Tried(tries)| - 1] == Tried(init);
      NoHolesInit(tries);
      if a.ok {
        FullTiling(init, lo, a.pack.base);
        assert Kept(tries)[..|Kept(tries)| - 1] == Kept(init);
      } else {
        assert Kept(tries) == Kept(init);
        CoverageIsNoHoles(init, lo, a.pack.base);
      }
    }
  }

  ghost predicate NamedChain(chain: seq<Block>) {
    forall b <- chain, tx <- b.txs :: tx.DeployTx? ==> tx.className != ""
  }

  lemma {:induction false} GroupEventsGood(bs: seq<Block>, start: nat)
    requires NamedChain(bs)
    ensures NamedEvents(GroupEvents(bs, start)) && Positive(GroupEvents(bs, start))
  {
    if bs != [] {
      var b := bs[|bs| - 1];
      assert b in bs && forall x <- bs[..|bs| - 1] :: x in bs;
      GroupEventsGood(bs[..|bs| - 1], start);
      hide GroupEvents;
      forall ev | ev in BlockEvents(b, start + |bs|)
        ensures ev.height > 0 && (ev.tx.DeployTx? ==> ev.tx.className != "")
      {
        assert ev.tx.DeployTx? ==> ev.tx in b.txs;
      }
      GroupEventsLast(bs, start);
    }
  }

  lemma GroupEventsLast(bs: seq<Block>, start: nat)
    requires bs != []
    ensures GroupEvents(bs, start) == GroupEvents(bs[..|bs| - 1], start) + BlockEvents(bs[|bs| - 1], start + |bs|)
  {
  }

  lemma ChainCallsGood(chain: seq<Block>, lo: nat, hi: nat)
    requires lo <= hi <= |chain| && NamedChain(chain)
    ensures GoodCalls(ChainCalls(chain, lo, hi))
  {
    assert forall b <- chain[lo..hi] :: b in chain;
    GroupEventsGood(chain[lo..hi], lo);
    hide NamedChain, GroupEvents, NamedEvents, Positive, EventCalls;
    EventCallsGood(GroupEvents(chain[lo..hi], lo));
  }

  lemma FlushOnChain(db: Db, chain: seq<Block>, lo: nat, p: Pending)
    requires NoStrayRows(db) && NamedChain(chain) && PackOnChain(chain, p) && lo <= p.base
    ensures Flush(Flush(db, Build(ChainCalls(chain, lo, p.base))), Build(p.calls)) ==
            Flush(db, Build(ChainCalls(chain, lo, p.newHeight)))
  {
    hide Flush, Build, ChainCalls, SameByKind, GoodCalls, NoStrayRows, NamedChain;
    ChainCallsGood(chain, lo, p.base);
    ChainCallsGood(chain, p.base, p.newHeight);
    SameByKindBuild(p.calls, ChainCalls(chain, p.base, p.newHeight));
    ChainCallsCat(chain, lo, p.base, p.newHeight);
    FlushInTwo(db, ChainCalls(chain, lo, p.base), ChainCalls(chain, p.base, p.newHeight));
  }

  lemma {:induction false} ReplayIsChain(db: Db, chain: seq<Block>, tries: seq<Attempt>, lo: nat, hi: nat)
    requires NoStrayRows(db) && NamedChain(chain) && Tiles(Tried(tries), lo, hi) && NoHoles(tries) && lo <= |chain|
    requires forall p <- Tried(tries) :: PackOnChain(chain, p)
    ensures lo <= Durable(tries, lo) <= |chain|
    ensures Replay(db, tries) == Flush(db, Build(ChainCalls(chain, lo, Durable(tries, lo))))
  {
    hide Flush, Build, ChainCalls, OnChain, NoStrayRows, NamedChain;
    if tries == [] {
      NoChainCalls(chain, lo);
      FlushEmpty(db);
    } else {
      var init, a := tries[..|tries| - 1], tries[|tries| - 1];
      assert Tried(tries)[..|Tried(tries)| - 1] == Tried(init);
      assert a.pack in Tried(tries) && forall p <- Tried(init) :: p in Tried(tries);
      NoHolesInit(tries);
      AllOkReaches(init, lo, a.pack.base);
      ReplayIsChain(db, chain, init, lo, a.pack.base);
      if a.ok {
        OnChainWithin(chain, a.pack);
        FlushOnChain(db, chain, lo, a.pack);
      }
    }
  }

  lemma OnChainWithin(chain: seq<Block>, p: Pending)
    requires PackOnChain(chain, p)
    ensures p.base <= p.newHeight <= |chain|
  {
  }

  lemma NoChainCalls(chain: seq<Block>, h: nat)
    requires h <= |chain|
    ensures ChainCalls(chain, h, h) == [] && Build([]) == EMPTY_BATCH
  {
    assert chain[h..h] == [];
    NoEvents();
  }

  lemma {:induction false} AllOkReaches(tries: seq<Attempt>, lo: nat, hi: nat)
    requires Tiles(Tried(tries), lo, hi)
    ensures AllOk(tries) ==> Durable(tries, lo) == hi && NoHoles(tries)
  {
    if tries != [] {
      assert Tried(tries)[|Tried(tries)| - 1] == tries[|tries| - 1].pack;
      assert tries[|tries| - 1] in tries;
    }
  }

  lemma AttemptsTile(c: Config, s: State)
    requires Tiled(c, s)
    ensures exists hi :: Tiles(Tried(s.attempts), c.start, hi)
    ensures forall p <- Tried(s.attempts) :: p in Cuts(s)
  {
    TilesSplit(Tried(s.attempts), Packs(InFlight(s)), c.start, s.base);
  }

  ghost predicate GoodConfig(c: Config) {
    && LastIndexHeight(c.db) == c.start <= |c.chain| && NoStrayRows(c.db)
    && SealedOnce(c.chain) && NamedChain(c.chain)
  }

  lemma AttemptsOfRun(c: Config, steps: seq<Step>) returns (hi: nat)
    requires GoodConfig(c) && Faithful(c, steps)
    ensures var s := Exec(c, steps);
            && Tiles(Tried(s.attempts), c.start, hi) && (forall p <- Tried(s.attempts) :: PackOnChain(c.chain, p))
            && s.db == Replay(c.db, s.attempts) && LastIndexHeight(s.db) == Durable(s.attempts, c.start)
  {
    var s := Exec(c, steps);
    RunsScan(c, steps);
    FaithfulRuns(c, steps);
    hide Exec, Faithful, PackOnChain, Replay, Durable, LastIndexHeight, Rising, CommittedUpTo, InHand;
    AttemptsTile(c, s);
    hide Cuts;
    hi :| Tiles(Tried(s.attempts), c.start, hi);
  }

  /**
   In every interleaving and for any batch sizes and shutdown point: unless a flush failed before a
   later one committed, the committed batches tile the heights up to the stored one, and the store
   is what indexing exactly those blocks in order leaves. A failure followed by a commit breaks
   the tiling.
   */
  lemma StoreIsSequential(c: Config, steps: seq<Step>)
    requires GoodConfig(c) && Faithful(c, steps)
    ensures var s := Exec(c, steps); var d := LastIndexHeight(s.db);
            && (Tiles(Kept(s.attempts), c.start, d) <==> NoHoles(s.attempts))
            && (NoHoles(s.attempts) ==>
                  c.start <= d <= |c.chain| && s.db == Flush(c.db, Build(ChainCalls(c.chain, c.start, d))))
  {
    var s := Exec(c, steps);
    var hi := AttemptsOfRun(c, steps);
    hide Exec, Faithful, PackOnChain, Flush, Build, ChainCalls, NoStrayRows, NamedChain, SealedOnce, LastIndexHeight;
    hide Replay;
    CoverageIsNoHoles(s.attempts, c.start, hi);
    if NoHoles(s.attempts) {
      ReplayIsChain(c.db, c.chain, s.attempts, c.start, hi);
    }
  }

  lemma {:induction false} GroupsAreEvents(bs: seq<Block>)
    ensures GroupEvents(bs, 0) == EventsOf(bs)
  {
    hide BlockEvents;
    if bs != [] {
      GroupsAreEvents(bs[..|bs| - 1]);
    }
  }

  /** A scan of an empty store holds, at every moment, the index of the blocks up to its stored height. */
  lemma ScanFromScratch(c: Config, steps: seq<Step>)
    requires GoodConfig(c) && Faithful(c, steps) && c.start == 0 && c.db == EMPTY_DB
    requires NoHoles(Exec(c, steps).attempts)
    ensures var db := Exec(c, steps).db;
            LastIndexHeight(db) <= |c.chain| && db == IndexOf(c.chain[..LastIndexHeight(db)])
  {
    StoreIsSequential(c, steps);
    hide Exec, Faithful, GoodConfig, Flush, Build, EventCalls, GroupEvents, EventsOf, LastIndexHeight, NoHoles, Kept;
    hide Tiles;
    var d := LastIndexHeight(Exec(c, steps).db);
    assert c.chain[0..d] == c.chain[..d];
    GroupsAreEvents(c.chain[..d]);
  }

  // ---------- What a failed flush loses ----------

  ghost predicate Covers(ps: seq<Pending>, h: nat) {
    exists p <- ps :: p.Pack? && p.base < h <= p.newHeight
  }

  lemma CoversMore(ps: seq<Pending>, p: Pending, h: nat)
    requires p.Pack?
    ensures Covers(ps + [p], h) <==> Covers(ps, h) || p.base < h <= p.newHeight
  {
    if p.base < h <= p.newHeight {
      assert (ps + [p])[|ps|] == p;
    }
    if Covers(ps, h) {
      var q :| q in ps && q.Pack? && q.base < h <= q.newHeight;
      assert q in ps + [p];
    }
  }

  lemma {:induction false} TilesCover(ps: seq<Pending>, lo: nat, hi: nat, h: nat)
    requires Tiles(ps, lo, hi) && lo < h <= hi
    ensures Covers(ps, h)
  {
    var init, p := ps[..|ps| - 1], ps[|ps| - 1];
    assert ps == init + [p];
    CoversMore(init, p, h);
    if h <= p.base {
      TilesCover(init, lo, p.base, h);
    }
  }

  lemma PutOneHash(gs: seq<Call>, x: Call)
    requires (forall c <- gs :: c.BlockHash?) && x.BlockHash?
    ensures PutHashes(map[], gs + [x]) == PutHashes(map[], gs)[x.height := x.hash]
  {
    assert (gs + [x])[..|gs|] == gs;
  }

  lemma {:induction false} GroupHashKeys(bs: seq<Block>, start: nat, h: nat)
    requires forall x <- GroupHashes(bs, start) :: x.BlockHash?
    ensures h in PutHashes(map[], GroupHashes(bs, start)) <==> start < h <= start + |bs| && bs[h - start - 1].hash != ""
  {
    if bs != [] {
      var init, b := bs[..|bs| - 1], bs[|bs| - 1];
      GroupHashesLast(bs, start);
      var gs := GroupHashes(init, start);
      assert forall x <- gs :: x in GroupHashes(bs, start);
      GroupHashKeys(init, start, h);
      hide GroupHashes, PutHashes;
      if b.hash != "" {
        PutOneHash(gs, BlockHash(start + |bs|, b.hash));
      } else {
        assert GroupHashes(bs, start) == gs;
      }
    } else {
      hide *;
      NoGroupHashes(start);
    }
  }

  lemma NoGroupHashes(start: nat)
    ensures GroupHashes([], start) == [] && PutHashes(map[], []) == map[]
  {
  }

  lemma GroupHashesLast(bs: seq<Block>, start: nat)
    requires bs != []
    ensures var b := bs[|bs| - 1];
            GroupHashes(bs, start) ==
            GroupHashes(bs[..|bs| - 1], start) + (if b.hash == "" then [] else [BlockHash(start + |bs|, b.hash)])
  {
  }

  /** A batch's hash rows are those of its heights with a known hash. */
  lemma BatchHashes(chain: seq<Block>, p: Pending, h: nat)
    requires SealedOnce(chain) && PackOnChain(chain, p)
    ensures h in Build(p.calls).blockHashes <==> p.base < h <= p.newHeight && chain[h - 1].hash != ""
  {
    hide SealedOnce, Build, Others, TallyOf, LastOf, Hashes, GroupEvents, GroupHashes, PutHashes, EventCalls;
    var bs := chain[p.base..p.newHeight];
    assert p.base < h <= p.newHeight ==> bs[h - p.base - 1] == chain[h - 1];
    SealedSlice(chain, p.base, p.newHeight);
    BuildByKind(p.calls);
    GroupKinds(bs, p.base);
    GroupHashKeys(bs, p.base, h);
  }

  lemma FlushedHashes(db: Db, b: Batch)
    ensures Flush(db, b).blockHashes == db.blockHashes + b.blockHashes
  {
    hide PutInvocations, RaiseLatest, AddHeights, PutNormals, CountOwners, NonEmptyClasses, PutClassRows;
    hide NonEmptyCodes, NonEmptyOwners, MergeEdges;
  }

  lemma {:induction false} ReplayHashes(db: Db, chain: seq<Block>, tries: seq<Attempt>, h: nat)
    requires SealedOnce(chain) && forall b <- chain :: b.hash != ""
    requires forall p <- Tried(tries) :: PackOnChain(chain, p)
    ensures h in Replay(db, tries).blockHashes <==> h in db.blockHashes || Covers(Kept(tries), h)
  {
    if tries != [] {
      hide Flush, Build, SealedOnce, OnChain, Covers;
      var init, a := tries[..|tries| - 1], tries[|tries| - 1];
      assert a.pack in Tried(tries) && forall p <- Tried(init) :: p in Tried(tries);
      ReplayHashes(db, chain, init, h);
      if a.ok {
        BatchHashes(chain, a.pack, h);
        OnChainWithin(chain, a.pack);
        assert 0 < h <= |chain| ==> chain[h - 1] in chain;
        FlushedHashes(Replay(db, init), Build(a.pack.calls));
        CoversMore(Kept(init), a.pack, h);
      }
    }
  }

  /** The heights of a failed batch are in no committed one. */
  lemma {:induction false} FailedIsUncovered(tries: seq<Attempt>, lo: nat, hi: nat, i: nat)
    requires Tiles(Tried(tries), lo, hi) && i < |tries| && !tries[i].ok
    ensures tries[i].pack.Pack? && lo < tries[i].pack.newHeight <= hi
    ensures !Covers(Kept(tries), tries[i].pack.newHeight)
  {
    var init, a := tries[..|tries| - 1], tries[|tries| - 1];
    assert Tried(tries)[..|Tried(tries)| - 1] == Tried(init);
    TilesArePositive(Tried(tries), lo, hi);
    if i == |init| {
      KeptBelow(init, lo, a.pack.base);
      assert a.pack in Tried(tries);
    } else {
      FailedIsUncovered(init, lo, a.pack.base, i);
      if a.ok {
        CoversMore(Kept(init), a.pack, tries[i].pack.newHeight);
      }
    }
  }

  lemma {:induction false} OkBelowDurable(tries: seq<Attempt>, lo: nat, hi: nat, i: nat, j: nat)
    requires Tiles(Tried(tries), lo, hi) && i < j < |tries| && tries[j].ok
    ensures tries[i].pack.Pack? && tries[i].pack.newHeight <= Durable(tries, lo)
  {
    var init, a := tries[..|tries| - 1], tries[|tries| - 1];
    assert Tried(tries)[..|Tried(tries)| - 1] == Tried(init);
    if j == |init| {
      TriedAt(init, i);
      TilesArePositive(Tried(init), lo, a.pack.base);
    } else {
      OkBelowDurable(init, lo, a.pack.base, i, j);
      if a.ok {
        TriedAt(init, i);
        TilesArePositive(Tried(init), lo, a.pack.base);
      }
    }
  }

  lemma {:induction false} TriedAt(tries: seq<Attempt>, i: nat)
    requires i < |tries|
    ensures tries[i].pack in Tried(tries)
  {
    if i < |tries| - 1 {
      TriedAt(tries[..|tries| - 1], i);
    }
  }

  /**
   When every block has a hash, the loss is visible in the store itself: a hash row is missing
   below the stored height exactly when a flush failed before a later one committed.
   */
  lemma MissingHashIsFailedFlush(c: Config, steps: seq<Step>)
    requires GoodConfig(c) && Faithful(c, steps) && (forall b <- c.chain :: b.hash != "")
    requires forall h <- c.db.blockHashes :: h <= c.start
    ensures var s := Exec(c, steps);
            NoHoles(s.attempts) <==> forall h | c.start < h <= LastIndexHeight(s.db) :: h in s.db.blockHashes
  {
    var s := Exec(c, steps);
    var hi := AttemptsOfRun(c, steps);
    hide Exec, Faithful, PackOnChain, Replay, LastIndexHeight, SealedOnce, Covers, NamedChain, NoStrayRows;
    if NoHoles(s.attempts) {
      CoverageIsNoHoles(s.attempts, c.start, hi);
      forall h | c.start < h <= LastIndexHeight(s.db) ensures h in s.db.blockHashes {
        TilesCover(Kept(s.attempts), c.start, Durable(s.attempts, c.start), h);
        ReplayHashes(c.db, c.chain, s.attempts, h);
      }
    } else {
      var i, j :| 0 <= i < j < |s.attempts| && s.attempts[j].ok && !s.attempts[i].ok;
      FailedIsUncovered(s.attempts, c.start, hi, i);
      OkBelowDurable(s.attempts, c.start, hi, i, j);
      ReplayHashes(c.db, c.chain, s.attempts, s.attempts[i].pack.newHeight);
    }
  }

  // ---------- The loss can happen ----------

  /** Nothing in flight and every component ready. */
  predicate Quiet(s: State) {
    && s.fetching && s.fetchChan == [] && s.processing && s.got == None && s.blocksIn == 0 && s.calls == []
    && s.outbox == [] && s.flushChan == [] && s.taken == None && s.stage == Received && !s.closing
    && s.base == s.running == s.nextHeight
  }

  /** The next block fetched, cut into its own batch, handed over and flushed with outcome `ok`. */
  function BlockSteps(chain: seq<Block>, at: nat, ok: bool): seq<Step>
    requires at < |chain|
  {
    [SendGroup(1, GroupCalls(chain[at..at + 1], at)), Receive, Decide(1), Send, Take, Begin(ok)]
  }

  lemma NoLastInGroup(bs: seq<Block>, start: nat)
    requires SealedOnce(bs)
    ensures NoLast(GroupCalls(bs, start))
  {
    hide GroupEvents, EventCalls;
    GroupKinds(bs, start);
    HashesAre(EventCalls(GroupEvents(bs, start)));
    hide Others, TallyOf, GroupHashes, Hashes;
  }

  lemma {:induction false} ExecMore(c: Config, steps: seq<Step>, st: Step)
    ensures Exec(c, steps + [st]) == Next(c, Exec(c, steps), st)
    ensures Faithful(c, steps) && (st.SendGroup? ==>
            IsGroup(c.chain, Exec(c, steps).nextHeight, st.count, st.calls)) ==>
              Faithful(c, steps + [st])
  {
    hide Next;
    assert (steps + [st])[..|steps|] == steps;
  }

  function OnePackOf(at: nat, group: seq<Call>): Pending {
    var calls := group + [Last(at + 1)];
    Pack(at, LastOf(calls), calls)
  }

  /** The state after a quiet one fetched, cut and handed over one block. */
  function HandedOver(s: State, group: seq<Call>): State {
    s.(nextHeight := s.running + 1, running := s.running + 1, base := s.running + 1, signaled := false,
       taken := Some(OnePackOf(s.running, group)))
  }

  function Fetched1(s: State, group: seq<Call>): State {
    s.(got := Some(Group(1, group)), nextHeight := s.running + 1)
  }

  function Ready(s: State, group: seq<Call>): State {
    HandedOver(s, group).(taken := None, outbox := [OnePackOf(s.running, group)])
  }

  lemma FetchOne(c: Config, s: State, group: seq<Call>)
    requires Quiet(s) && NoLast(group)
    ensures Next(c, Next(c, s, SendGroup(1, group)), Receive) == Fetched1(s, group)
  {
    hide NoLast;
    assert Next(c, s, SendGroup(1, group)).fetchChan == [Group(1, group)];
  }

  lemma CutOne(c: Config, s: State, group: seq<Call>)
    requires Quiet(s)
    ensures Next(c, Fetched1(s, group), Decide(1)) == Ready(s, group)
  {
    hide LastOf;
    assert [] + (group + [Last(s.running + 1)]) == group + [Last(s.running + 1)];
  }

  lemma HandOver(c: Config, s: State, group: seq<Call>)
    requires Quiet(s)
    ensures Next(c, Next(c, Ready(s, group), Send), Take) == HandedOver(s, group)
  {
    hide OnePackOf;
    assert Next(c, Ready(s, group), Send).flushChan == [OnePackOf(s.running, group)];
  }

  /** One more attempt, with this outcome; after a failure the flusher is ready for the next batch. */
  predicate TriedOnce(s: State, s': State, ok: bool) {
    && |s'.attempts| == |s.attempts| + 1 && s'.attempts[..|s.attempts|] == s.attempts
    && s'.attempts[|s.attempts|].ok == ok
    && (!ok ==> Quiet(s') && s'.nextHeight == s.nextHeight + 1)
  }

  lemma FlushOne(c: Config, s: State, group: seq<Call>, ok: bool)
    requires Quiet(s)
    ensures TriedOnce(s, Next(c, HandedOver(s, group), Begin(ok)), ok)
  {
    hide LastOf, Flush, Build;
  }

  lemma OneBlock(c: Config, steps: seq<Step>, ok: bool)
    requires SealedOnce(c.chain) && Faithful(c, steps)
    requires Quiet(Exec(c, steps)) && Exec(c, steps).nextHeight < |c.chain|
    ensures var s := Exec(c, steps); var after := steps + BlockSteps(c.chain, s.nextHeight, ok);
            Faithful(c, after) && TriedOnce(s, Exec(c, after), ok)
  {
    OneBlockTo(c, steps, ok);
    hide *;
    var s := Exec(c, steps);
    FlushOne(c, s, GroupCalls(c.chain[s.nextHeight..s.nextHeight + 1], s.nextHeight), ok);
  }

  lemma OneBlockTo(c: Config, steps: seq<Step>, ok: bool)
    requires SealedOnce(c.chain) && Faithful(c, steps)
    requires Quiet(Exec(c, steps)) && Exec(c, steps).nextHeight < |c.chain|
    ensures var s := Exec(c, steps); var after := steps + BlockSteps(c.chain, s.nextHeight, ok);
            && Faithful(c, after) && s.running == s.nextHeight
            && Exec(c, after) ==
               Next(c, HandedOver(s, GroupCalls(c.chain[s.nextHeight..s.nextHeight + 1], s.nextHeight)), Begin(ok))
  {
    var s := Exec(c, steps);
    hide SealedOnce, Faithful, GroupCalls, TriedOnce, BlockSteps, NoLast, Next, Exec, HandedOver, Fetched1, Ready;
    var at := s.nextHeight;
    assert s.running == at;
    hide *;
    SealedSlice(c.chain, at, at + 1);
    var group := GroupCalls(c.chain[at..at + 1], at);
    NoLastInGroup(c.chain[at..at + 1], at);
    StepsAre(c.chain, at, ok);
    Chained(c, steps, BlockSteps(c.chain, at, ok));
    FetchOne(c, s, group);
    CutOne(c, s, group);
    HandOver(c, s, group);
  }

  lemma StepsAre(chain: seq<Block>, at: nat, ok: bool)
    requires at < |chain|
    ensures var q := BlockSteps(chain, at, ok);
            && |q| == 6 && q[0] == SendGroup(1, GroupCalls(chain[at..at + 1], at))
            && q[1] == Receive && q[2] == Decide(1) && q[3] == Send && q[4] == Take && q[5] == Begin(ok)
            && IsGroup(chain, at, q[0].count, q[0].calls)
  {
    hide GroupCalls;
  }

  lemma Chained(c: Config, steps: seq<Step>, q: seq<Step>)
    requires |q| == 6 && forall i | 1 <= i < 6 :: !q[i].SendGroup?
    requires Faithful(c, steps)
    requires q[0].SendGroup? ==> IsGroup(c.chain, Exec(c, steps).nextHeight, q[0].count, q[0].calls)
    ensures Exec(c, steps + q) ==
            Next(c, Next(c, Next(c, Next(c, Next(c, Next(c, Exec(c, steps), q[0]), q[1]), q[2]), q[3]), q[4]), q[5])
    ensures Faithful(c, steps + q)
  {
    hide Next, Exec, Faithful, IsGroup;
    ExecMore(c, steps, q[0]);
    ExecMore(c, steps + [q[0]], q[1]);
    ExecMore(c, steps + [q[0]] + [q[1]], q[2]);
    ExecMore(c, steps + [q[0]] + [q[1]] + [q[2]], q[3]);
    ExecMore(c, steps + [q[0]] + [q[1]] + [q[2]] + [q[3]], q[4]);
    ExecMore(c, steps + [q[0]] + [q[1]] + [q[2]] + [q[3]] + [q[4]], q[5]);
    assert steps + q == steps + [q[0]] + [q[1]] + [q[2]] + [q[3]] + [q[4]] + [q[5]];
  }

  lemma QuietStart(c: Config)
    ensures Exec(c, []) == Init(c) && Quiet(Exec(c, [])) && Faithful(c, [])
    ensures Exec(c, []).nextHeight == c.start && Exec(c, []).attempts == []
  {
  }

  /** The flusher goes on after a failed flush: with two blocks to scan, some run claims a height it lost. */
  lemma FailedFlushLosesBlocks(c: Config) returns (steps: seq<Step>)
    requires GoodConfig(c) && c.start + 2 <= |c.chain|
    ensures Faithful(c, steps) && !NoHoles(Exec(c, steps).attempts)
  {
    QuietStart(c);
    hide Next, SealedOnce, NamedChain, LastIndexHeight, NoStrayRows, IsGroup;
    hide Exec, Faithful, BlockSteps, Quiet;
    var first := [] + BlockSteps(c.chain, c.start, false);
    OneBlock(c, [], false);
    steps := first + BlockSteps(c.chain, c.start + 1, true);
    OneBlock(c, first, true);
    var tries := Exec(c, steps).attempts;
    assert tries[0] == tries[..1][0];
  }
}
