/**
 The contract-code backfill (indexer/sccode.go, GetSCCode) as a step system: any number of
 callers, one flight per scid in a shared table, each flight's body run once.
 */
module SingleFlight {
  import opened IndexTypes

  datatype Error = StoreError | FetchError

  /** What a flight leaves for its callers; no entry and no error means the scid has no code. */
  datatype Answer = Answer(entry: Option<CodeEntry>, err: Option<Error>)

  const NOTHING := Answer(None, None)

  datatype Phase = Unclaimed | Running(caller: nat) | Done
  datatype Flight = Flight(scid: Scid, phase: Phase, answer: Answer)

  /** Where a call stands; `fid` names the flight it shares. */
  datatype Place =
    | Entered
    | Missed
    | Joined(fid: nat)
    | Rechecking(fid: nat)
    | Unfetched(fid: nat)
    | Fetching(fid: nat)
    | Fetched(fid: nat, code: CodeEntry)
    | Leaving(fid: nat)
    | Left(fid: nat)
    | Returned(via: Option<nat>, answer: Answer)

  datatype Call = Call(scid: Scid, place: Place)

  /** `persisted` records the scids whose fetched code reached the store. */
  datatype State = State(stored: map<Scid, CodeEntry>, table: map<Scid, nat>, flights: seq<Flight>,
                         calls: map<nat, Call>, persisted: set<Scid>)

  datatype Outcome = Failed | Empty | Code(entry: CodeEntry)

  datatype Step =
    | Start(c: nat, scid: Scid)
    | Lookup(c: nat, fails: bool)
    | LoadOrStore(c: nat)
    | Once(c: nat)
    | Recheck(c: nat, fails: bool)
    | StartFetch(c: nat)
    | EndFetch(c: nat, outcome: Outcome)
    | Persist(c: nat, ok: bool)
    | Delete(c: nat)
    | Finish(c: nat)
    | ScannerPut(scid: Scid, entry: CodeEntry)

  const INIT := State(map[], map[], [], map[], {})

  function At(s: State, c: nat): Place {
    if c in s.calls then s.calls[c].place else Returned(None, NOTHING)
  }

  function Move(s: State, c: nat, p: Place): State
    requires c in s.calls
  {
    s.(calls := s.calls[c := s.calls[c].(place := p)])
  }

  /** The flight's result is set and its body goes to the deferred delete. */
  function Settle(s: State, c: nat, fid: nat, a: Answer): State
    requires c in s.calls && fid < |s.flights|
  {
    Move(s.(flights := s.flights[fid := s.flights[fid].(answer := a)]), c, Leaving(fid))
  }

  predicate FlightKnown(s: State, p: Place) {
    match p
    case Joined(fid) => fid < |s.flights|
    case Rechecking(fid) => fid < |s.flights|
    case Unfetched(fid) => fid < |s.flights|
    case Fetching(fid) => fid < |s.flights|
    case Fetched(fid, _) => fid < |s.flights|
    case Leaving(fid) => fid < |s.flights|
    case Left(fid) => fid < |s.flights|
    case _ => true
  }

  /** The first store lookup, outside any flight. */
  function LookupStep(s: State, c: nat, fails: bool): State
    requires c in s.calls
  {
    var scid := s.calls[c].scid;
    if fails then Move(s, c, Returned(None, Answer(None, Some(StoreError))))
    else if scid in s.stored then Move(s, c, Returned(None, Answer(Some(s.stored[scid]), None)))
    else Move(s, c, Missed)
  }

  function LoadOrStoreStep(s: State, c: nat): State
    requires c in s.calls
  {
    var scid := s.calls[c].scid;
    if scid in s.table then Move(s, c, Joined(s.table[scid]))
    else
      var fid := |s.flights|;
      Move(s.(flights := s.flights + [Flight(scid, Unclaimed, NOTHING)], table := s.table[scid := fid]), c, Joined(fid))
  }

  /** once.Do: the first to arrive runs the body, the others wait until it is done. */
  function OnceStep(s: State, c: nat, fid: nat): State
    requires c in s.calls && fid < |s.flights|
  {
    match s.flights[fid].phase
    case Unclaimed => Move(s.(flights := s.flights[fid := s.flights[fid].(phase := Running(c))]), c, Rechecking(fid))
    case Running(_) => s
    case Done => Move(s, c, Returned(Some(fid), s.flights[fid].answer))
  }

  function RecheckStep(s: State, c: nat, fid: nat, fails: bool): State
    requires c in s.calls && fid < |s.flights|
  {
    var scid := s.calls[c].scid;
    if fails then Settle(s, c, fid, Answer(None, Some(StoreError)))
    else if scid in s.stored then Settle(s, c, fid, Answer(Some(s.stored[scid]), None))
    else Move(s, c, Unfetched(fid))
  }

  function EndFetchStep(s: State, c: nat, fid: nat, outcome: Outcome): State
    requires c in s.calls && fid < |s.flights|
  {
    match outcome
    case Failed => Settle(s, c, fid, Answer(None, Some(FetchError)))
    case Empty => Settle(s, c, fid, NOTHING)
    case Code(entry) => if entry.code == "" then Settle(s, c, fid, NOTHING) else Move(s, c, Fetched(fid, entry))
  }

  /** A failed persist still surfaces the code. */
  function PersistStep(s: State, c: nat, fid: nat, code: CodeEntry, ok: bool): State
    requires c in s.calls && fid < |s.flights|
  {
    var scid := s.calls[c].scid;
    var s' := if ok then s.(stored := s.stored[scid := code], persisted := s.persisted + {scid}) else s;
    Settle(s', c, fid, Answer(Some(code), None))
  }

  function DeleteStep(s: State, c: nat, fid: nat): State
    requires c in s.calls
  {
    Move(s.(table := s.table - {s.calls[c].scid}), c, Left(fid))
  }

  function FinishStep(s: State, c: nat, fid: nat): State
    requires c in s.calls && fid < |s.flights|
  {
    Move(s.(flights := s.flights[fid := s.flights[fid].(phase := Done)]), c, Returned(Some(fid), s.flights[fid].answer))
  }

  /** A step that is not enabled changes nothing. */
  function Next(s: State, st: Step): State {
    match st
    case Start(c, scid) => if c in s.calls || scid == "" then s else s.(calls := s.calls[c := Call(scid, Entered)])
    case Lookup(c, fails) => if c in s.calls && At(s, c) == Entered then LookupStep(s, c, fails) else s
    case LoadOrStore(c) => if c in s.calls && At(s, c) == Missed then LoadOrStoreStep(s, c) else s
    case Once(c) =>
      if c in s.calls && At(s, c).Joined? && FlightKnown(s, At(s, c)) then OnceStep(s, c, At(s, c).fid) else s
    case Recheck(c, fails) =>
      if c in s.calls && At(s, c).Rechecking? && FlightKnown(s, At(s, c)) then RecheckStep(s, c, At(s, c).fid, fails)
          else s
    case StartFetch(c) => if c in s.calls && At(s, c).Unfetched? then Move(s, c, Fetching(At(s, c).fid)) else s
    case EndFetch(c, outcome) =>
      if c in s.calls && At(s, c).Fetching? && FlightKnown(s, At(s, c)) then EndFetchStep(s, c, At(s, c).fid, outcome)
          else s
    case Persist(c, ok) =>
      if c in s.calls && At(s, c).Fetched? && FlightKnown(s, At(s, c))
          then PersistStep(s, c, At(s, c).fid, At(s, c).code, ok) else s
    case Delete(c) => if c in s.calls && At(s, c).Leaving? then DeleteStep(s, c, At(s, c).fid) else s
    case Finish(c) =>
      if c in s.calls && At(s, c).Left? && FlightKnown(s, At(s, c)) then FinishStep(s, c, At(s, c).fid) else s
    case ScannerPut(scid, entry) => s.(stored := s.stored[scid := entry])
  }

  function Exec(steps: seq<Step>): State {
    if steps == [] then INIT else Next(Exec(steps[..|steps| - 1]), steps[|steps| - 1])
  }

  // ---------- Invariant ----------

  /** The call runs its flight's body. */
  predicate InBody(p: Place) {
    p.Rechecking? || p.Unfetched? || p.Fetching? || p.Fetched? || p.Leaving? || p.Left?
  }

  /** Between the second lookup and the persist. */
  predicate Unsaved(p: Place) { p.Unfetched? || p.Fetching? || p.Fetched? }

  ghost predicate CallOk(s: State, c: nat)
    requires c in s.calls
  {
    var call := s.calls[c];
    var p := call.place;
    && FlightKnown(s, p)
    && (p.Joined? ==> s.flights[p.fid].scid == call.scid)
    && (InBody(p) ==> s.flights[p.fid].scid == call.scid && s.flights[p.fid].phase == Running(c))
    && (InBody(p) && !p.Left? ==> call.scid in s.table && s.table[call.scid] == p.fid)
    && (Unsaved(p) ==> call.scid !in s.persisted)
    && (p.Returned? && p.via.Some? ==>
          p.via.value < |s.flights| && s.flights[p.via.value].phase == Done
              && p.answer == s.flights[p.via.value].answer)
  }

  ghost predicate FlightOk(s: State, fid: nat)
    requires fid < |s.flights|
  {
    var f := s.flights[fid];
    && (f.phase == Unclaimed ==> f.scid in s.table && s.table[f.scid] == fid)
    && (f.phase.Running? ==>
          f.phase.caller in s.calls && InBody(s.calls[f.phase.caller].place)
              && s.calls[f.phase.caller].place.fid == fid)
  }

  ghost predicate Inv(s: State) {
    && (forall c <- s.calls :: CallOk(s, c))
    && (forall fid | 0 <= fid < |s.flights| :: FlightOk(s, fid))
    && (forall scid <- s.table :: s.table[scid] < |s.flights| && s.flights[s.table[scid]].scid == scid)
    && (forall scid <- s.persisted :: scid in s.stored)
  }

  /** A call that moves without touching flights, table or store keeps everyone else's facts. */
  lemma MoveKeeps(s: State, c: nat, p: Place)
    requires Inv(s) && c in s.calls && CallOk(Move(s, c, p), c)
    requires InBody(s.calls[c].place) ==> InBody(p) && p.fid == s.calls[c].place.fid
    ensures Inv(Move(s, c, p))
  {
    var s' := Move(s, c, p);
    forall d | d in s'.calls ensures CallOk(s', d) {
      assert d != c ==> CallOk(s, d);
    }
    forall fid | 0 <= fid < |s'.flights| ensures FlightOk(s', fid) {
      assert FlightOk(s, fid);
    }
  }

  lemma SettleKeeps(s: State, c: nat, fid: nat, a: Answer)
    requires Inv(s) && c in s.calls && InBody(s.calls[c].place) && s.calls[c].place.fid == fid
             && !s.calls[c].place.Left?
    requires fid < |s.flights|
    ensures Inv(Settle(s, c, fid, a))
  {
    var s' := Settle(s, c, fid, a);
    assert CallOk(s, c);
    forall d | d in s'.calls ensures CallOk(s', d) {
      assert CallOk(s, d);
    }
    forall g | 0 <= g < |s'.flights| ensures FlightOk(s', g) {
      assert FlightOk(s, g);
    }
  }

  lemma StartKeeps(s: State, c: nat, scid: Scid)
    requires Inv(s) && c !in s.calls
    ensures Inv(s.(calls := s.calls[c := Call(scid, Entered)]))
  {
    var s' := s.(calls := s.calls[c := Call(scid, Entered)]);
    forall d | d in s'.calls ensures CallOk(s', d) {
      assert d != c ==> CallOk(s, d);
    }
    forall fid | 0 <= fid < |s'.flights| ensures FlightOk(s', fid) {
      assert FlightOk(s, fid);
    }
  }

  lemma LoadOrStoreKeeps(s: State, c: nat)
    requires Inv(s) && c in s.calls && At(s, c) == Missed
    ensures Inv(LoadOrStoreStep(s, c))
  {
    var scid := s.calls[c].scid;
    if scid in s.table {
      MoveKeeps(s, c, Joined(s.table[scid]));
    } else {
      var s' := LoadOrStoreStep(s, c);
      forall d | d in s'.calls ensures CallOk(s', d) {
        assert CallOk(s, d);
      }
      forall fid | 0 <= fid < |s'.flights| ensures FlightOk(s', fid) {
        assert fid < |s.flights| ==> FlightOk(s, fid);
      }
    }
  }

  lemma OnceKeeps(s: State, c: nat)
    requires Inv(s) && c in s.calls && At(s, c).Joined?
    ensures FlightKnown(s, At(s, c)) && Inv(OnceStep(s, c, At(s, c).fid))
  {
    assert CallOk(s, c);
    var fid := At(s, c).fid;
    assert FlightOk(s, fid);
    if s.flights[fid].phase == Unclaimed {
      var s' := OnceStep(s, c, fid);
      forall d | d in s'.calls ensures CallOk(s', d) {
        assert CallOk(s, d);
      }
      forall g | 0 <= g < |s'.flights| ensures FlightOk(s', g) {
        assert FlightOk(s, g);
      }
    } else if s.flights[fid].phase == Done {
      MoveKeeps(s, c, Returned(Some(fid), s.flights[fid].answer));
    }
  }

  /** Two calls that are both between the table entry and its delete share the flight, hence are one call. */
  lemma OneRunner(s: State, c: nat, d: nat)
    requires Inv(s) && c in s.calls && d in s.calls && s.calls[c].scid == s.calls[d].scid
    requires InBody(s.calls[c].place) && !s.calls[c].place.Left? && InBody(s.calls[d].place) && !s.calls[d].place.Left?
    ensures c == d
  {
    assert CallOk(s, c) && CallOk(s, d);
  }

  lemma PersistKeeps(s: State, c: nat, ok: bool)
    requires Inv(s) && c in s.calls && At(s, c).Fetched?
    ensures FlightKnown(s, At(s, c)) && Inv(PersistStep(s, c, At(s, c).fid, At(s, c).code, ok))
  {
    assert CallOk(s, c);
    var fid, code, scid := At(s, c).fid, At(s, c).code, s.calls[c].scid;
    if ok {
      var s1 := s.(stored := s.stored[scid := code], persisted := s.persisted + {scid});
      var s' := Settle(s1, c, fid, Answer(Some(code), None));
      forall d | d in s'.calls ensures CallOk(s', d) {
        assert CallOk(s, d);
        if d != c && s.calls[d].scid == scid && InBody(s.calls[d].place) && !s.calls[d].place.Left? {
          OneRunner(s, c, d);
        }
      }
      forall g | 0 <= g < |s'.flights| ensures FlightOk(s', g) {
        assert FlightOk(s, g);
      }
    } else {
      SettleKeeps(s, c, fid, Answer(Some(code), None));
    }
  }

  lemma DeleteKeeps(s: State, c: nat)
    requires Inv(s) && c in s.calls && At(s, c).Leaving?
    ensures Inv(DeleteStep(s, c, At(s, c).fid))
  {
    assert CallOk(s, c);
    var s', scid := DeleteStep(s, c, At(s, c).fid), s.calls[c].scid;
    forall d | d in s'.calls ensures CallOk(s', d) {
      assert CallOk(s, d);
      if d != c && s.calls[d].scid == scid && InBody(s.calls[d].place) && !s.calls[d].place.Left? {
        OneRunner(s, c, d);
      }
    }
    forall g | 0 <= g < |s'.flights| ensures FlightOk(s', g) {
      assert FlightOk(s, g);
    }
  }

  lemma FinishKeeps(s: State, c: nat)
    requires Inv(s) && c in s.calls && At(s, c).Left?
    ensures FlightKnown(s, At(s, c)) && Inv(FinishStep(s, c, At(s, c).fid))
  {
    assert CallOk(s, c);
    var s' := FinishStep(s, c, At(s, c).fid);
    forall d | d in s'.calls ensures CallOk(s', d) {
      assert CallOk(s, d);
    }
    forall g | 0 <= g < |s'.flights| ensures FlightOk(s', g) {
      assert FlightOk(s, g);
    }
  }

  lemma ScannerKeeps(s: State, scid: Scid, entry: CodeEntry)
    requires Inv(s)
    ensures Inv(s.(stored := s.stored[scid := entry]))
  {
    var s' := s.(stored := s.stored[scid := entry]);
    forall d | d in s'.calls ensures CallOk(s', d) {
      assert CallOk(s, d);
    }
    forall g | 0 <= g < |s'.flights| ensures FlightOk(s', g) {
      assert FlightOk(s, g);
    }
  }

  lemma RecheckKeeps(s: State, c: nat, fails: bool)
    requires Inv(s) && c in s.calls && At(s, c).Rechecking?
    ensures FlightKnown(s, At(s, c)) && Inv(RecheckStep(s, c, At(s, c).fid, fails))
  {
    assert CallOk(s, c);
    var fid := At(s, c).fid;
    SettleKeeps(s, c, fid, Answer(None, Some(StoreError)));
    if s.calls[c].scid in s.stored {
      SettleKeeps(s, c, fid, Answer(Some(s.stored[s.calls[c].scid]), None));
    } else {
      MoveKeeps(s, c, Unfetched(fid));
    }
  }

  lemma EndFetchKeeps(s: State, c: nat, outcome: Outcome)
    requires Inv(s) && c in s.calls && At(s, c).Fetching?
    ensures FlightKnown(s, At(s, c)) && Inv(EndFetchStep(s, c, At(s, c).fid, outcome))
  {
    assert CallOk(s, c);
    var fid := At(s, c).fid;
    SettleKeeps(s, c, fid, Answer(None, Some(FetchError)));
    SettleKeeps(s, c, fid, NOTHING);
    if outcome.Code? {
      MoveKeeps(s, c, Fetched(fid, outcome.entry));
    }
  }

  lemma StepKeeps(s: State, st: Step)
    requires Inv(s)
    ensures Inv(Next(s, st))
  {
    hide Inv, CallOk, FlightOk, LoadOrStoreStep, OnceStep, RecheckStep, EndFetchStep, PersistStep, DeleteStep;
    hide FinishStep, FlightKnown;
    match st {
      case Start(c, scid) => if c !in s.calls { StartKeeps(s, c, scid); }
      case Lookup(c, fails) => if c in s.calls && At(s, c) == Entered { LookupKeeps(s, c, fails); }
      case LoadOrStore(c) => if c in s.calls && At(s, c) == Missed { LoadOrStoreKeeps(s, c); }
      case Once(c) => if c in s.calls && At(s, c).Joined? { OnceKeeps(s, c); }
      case Recheck(c, fails) => if c in s.calls && At(s, c).Rechecking? { RecheckKeeps(s, c, fails); }
      case StartFetch(c) => if c in s.calls && At(s, c).Unfetched? { StartFetchKeeps(s, c); }
      case EndFetch(c, outcome) => if c in s.calls && At(s, c).Fetching? { EndFetchKeeps(s, c, outcome); }
      case Persist(c, ok) => if c in s.calls && At(s, c).Fetched? { PersistKeeps(s, c, ok); }
      case Delete(c) => if c in s.calls && At(s, c).Leaving? { DeleteKeeps(s, c); }
      case Finish(c) => if c in s.calls && At(s, c).Left? { FinishKeeps(s, c); }
      case ScannerPut(scid, entry) => ScannerKeeps(s, scid, entry);
    }
  }

  lemma LookupKeeps(s: State, c: nat, fails: bool)
    requires Inv(s) && c in s.calls && At(s, c) == Entered
    ensures Inv(LookupStep(s, c, fails))
  {
    MoveKeeps(s, c, LookupStep(s, c, fails).calls[c].place);
  }

  lemma StartFetchKeeps(s: State, c: nat)
    requires Inv(s) && c in s.calls && At(s, c).Unfetched?
    ensures Inv(Move(s, c, Fetching(At(s, c).fid)))
  {
    assert CallOk(s, c);
    MoveKeeps(s, c, Fetching(At(s, c).fid));
  }

  lemma {:induction false} RunsKeep(steps: seq<Step>)
    ensures Inv(Exec(steps))
  {
    hide Next;
    if steps != [] {
      RunsKeep(steps[..|steps| - 1]);
      StepKeeps(Exec(steps[..|steps| - 1]), steps[|steps| - 1]);
    }
  }

  // ---------- Safety ----------

  /** In every interleaving at most one call is fetching a given scid. */
  lemma AtMostOneFetch(steps: seq<Step>, c: nat, d: nat)
    requires At(Exec(steps), c).Fetching? && At(Exec(steps), d).Fetching?
    requires Exec(steps).calls[c].scid == Exec(steps).calls[d].scid
    ensures c == d
  {
    RunsKeep(steps);
    hide Exec;
    OneRunner(Exec(steps), c, d);
  }

  /** No call begins to fetch a scid whose fetched code was already persisted. */
  lemma NoFetchAfterPersist(steps: seq<Step>, c: nat)
    requires !At(Exec(steps), c).Fetching? && At(Next(Exec(steps), StartFetch(c)), c).Fetching?
    ensures c in Exec(steps).calls && Exec(steps).calls[c].scid !in Exec(steps).persisted
  {
    RunsKeep(steps);
    hide Exec;
    assert CallOk(Exec(steps), c);
  }

  /** Calls that came back through the same flight came back with the same entry and error. */
  lemma SharersAgree(steps: seq<Step>, c: nat, d: nat)
    requires At(Exec(steps), c).Returned? && At(Exec(steps), d).Returned?
    requires At(Exec(steps), c).via.Some? && At(Exec(steps), c).via == At(Exec(steps), d).via
    ensures At(Exec(steps), c).answer == At(Exec(steps), d).answer
  {
    RunsKeep(steps);
    hide Exec;
    assert CallOk(Exec(steps), c) && CallOk(Exec(steps), d);
  }

  /** A persisted scid is never lost from the store, and later calls never leave the first lookup without it. */
  lemma PersistedIsFound(steps: seq<Step>, c: nat)
    requires c in Exec(steps).calls && At(Exec(steps), c) == Entered
             && Exec(steps).calls[c].scid in Exec(steps).persisted
    ensures Exec(steps).calls[c].scid in Exec(steps).stored
    ensures var s := Exec(steps);
            At(Next(s, Lookup(c, false)), c) == Returned(None, Answer(Some(s.stored[s.calls[c].scid]), None))
  {
    RunsKeep(steps);
  }

  /** A flight's answer never changes once it is done. */
  lemma DoneIsFinal(steps: seq<Step>, st: Step, fid: nat)
    requires fid < |Exec(steps).flights| && Exec(steps).flights[fid].phase == Done
    ensures var s' := Next(Exec(steps), st); fid < |s'.flights| && s'.flights[fid] == Exec(steps).flights[fid]
  {
    RunsKeep(steps);
    hide Exec;
    var s := Exec(steps);
    if !st.Start? && !st.ScannerPut? && st.c in s.calls {
      assert CallOk(s, st.c);
    }
  }

  // ---------- Which answer a flight gives ----------

  /** The step decides the flight's answer: a second lookup that ends it, a fetch without code, or a persist. */
  ghost predicate Decides(s: State, st: Step, fid: nat, a: Answer) {
    match st
    case Recheck(c, fails) =>
      c in s.calls && s.calls[c].place == Rechecking(fid) &&
      (if fails then a == Answer(None, Some(StoreError))
       else s.calls[c].scid in s.stored && a == Answer(Some(s.stored[s.calls[c].scid]), None))
    case EndFetch(c, outcome) =>
      c in s.calls && s.calls[c].place == Fetching(fid) &&
      (if outcome.Failed? then a == Answer(None, Some(FetchError))
       else (outcome.Code? ==> outcome.entry.code == "") && a == Answer(None, None))
    case Persist(c, _) =>
      c in s.calls && s.calls[c].place.Fetched? && s.calls[c].place.fid == fid &&
      a == Answer(Some(s.calls[c].place.code), None)
    case _ => false
  }

  /** The answer is in and only waits to be handed out. */
  ghost predicate Settled(s: State, fid: nat, a: Answer) {
    && fid < |s.flights| && s.flights[fid].answer == a
    && (s.flights[fid].phase == Done ||
        (s.flights[fid].phase.Running? && s.flights[fid].phase.caller in s.calls &&
         (s.calls[s.flights[fid].phase.caller].place == Leaving(fid) ||
          s.calls[s.flights[fid].phase.caller].place == Left(fid))))
  }

  lemma SettledStays(s: State, st: Step, fid: nat, a: Answer)
    requires Inv(s) && Settled(s, fid, a)
    ensures Settled(Next(s, st), fid, a)
  {
    assert FlightOk(s, fid);
    if !st.Start? && !st.ScannerPut? && st.c in s.calls {
      assert CallOk(s, st.c);
    }
  }

  lemma DecidedSettles(s: State, st: Step, fid: nat, a: Answer)
    requires Inv(s) && Decides(s, st, fid, a)
    ensures Settled(Next(s, st), fid, a)
    ensures forall b :: !Settled(s, fid, b)
  {
    assert CallOk(s, st.c);
  }

  /** A flight's answer is settled only by a step that decides it. */
  lemma SettledIsDecided(s: State, st: Step, fid: nat, a: Answer)
    requires Inv(s) && Settled(Next(s, st), fid, a) && !Settled(s, fid, a)
    ensures Decides(s, st, fid, a)
  {
    if !st.Start? && !st.ScannerPut? && st.c in s.calls {
      assert CallOk(s, st.c);
    }
    assert fid < |s.flights| ==> FlightOk(s, fid);
  }

  lemma {:induction false} SettledSince(steps: seq<Step>, i: nat, fid: nat, a: Answer)
    requires i <= |steps| && Settled(Exec(steps[..i]), fid, a)
    ensures Settled(Exec(steps), fid, a)
  {
    hide Next, Settled;
    if i == |steps| {
      assert steps[..i] == steps;
    } else {
      var init := steps[..|steps| - 1];
      assert init[..i] == steps[..i];
      SettledSince(init, i, fid, a);
      RunsKeep(init);
      SettledStays(Exec(init), steps[|steps| - 1], fid, a);
    }
  }

  lemma {:induction false} SettledSomewhere(steps: seq<Step>, fid: nat, a: Answer)
    requires Settled(Exec(steps), fid, a)
    ensures exists i :: 0 <= i < |steps| && Decides(Exec(steps[..i]), steps[i], fid, a)
  {
    hide Next, Settled, Decides;
    if steps == [] {
      NothingSettled(fid, a);
    } else {
      var init, st := steps[..|steps| - 1], steps[|steps| - 1];
      if Settled(Exec(init), fid, a) {
        SettledSomewhere(init, fid, a);
        var i :| 0 <= i < |init| && Decides(Exec(init[..i]), init[i], fid, a);
        assert init[..i] == steps[..i] && init[i] == steps[i];
      } else {
        RunsKeep(init);
        SettledIsDecided(Exec(init), st, fid, a);
        assert steps[..|steps| - 1] == init;
      }
    }
  }

  lemma NothingSettled(fid: nat, a: Answer)
    ensures !Settled(INIT, fid, a)
  {
  }

  lemma StepAt(steps: seq<Step>, i: nat)
    requires i < |steps|
    ensures Exec(steps[..i + 1]) == Next(Exec(steps[..i]), steps[i])
  {
    hide Next;
    assert steps[..i + 1][..i] == steps[..i];
  }

  lemma ReturnedIsSettled(steps: seq<Step>, d: nat, fid: nat, a: Answer)
    requires At(Exec(steps), d) == Returned(Some(fid), a)
    ensures Settled(Exec(steps), fid, a)
  {
    RunsKeep(steps);
    hide Exec;
    assert d in Exec(steps).calls && CallOk(Exec(steps), d);
  }

  /**
   What a shared call returns: the stored entry its flight's second lookup found, the error of that lookup or of
   the fetch, nothing after an empty fetch, or the fetched entry, whether or not it could be persisted.
   */
  lemma ReturnsWhatWasDecided(steps: seq<Step>, d: nat, fid: nat, a: Answer)
    requires At(Exec(steps), d) == Returned(Some(fid), a)
    ensures exists i :: 0 <= i < |steps| && Decides(Exec(steps[..i]), steps[i], fid, a)
    ensures forall i, b :: 0 <= i < |steps| && Decides(Exec(steps[..i]), steps[i], fid, b) ==> a == b
  {
    hide Next, At, Settled, Decides;
    ReturnedIsSettled(steps, d, fid, a);
    SettledSomewhere(steps, fid, a);
    forall i, b | 0 <= i < |steps| && Decides(Exec(steps[..i]), steps[i], fid, b) ensures a == b {
      RunsKeep(steps[..i]);
      DecidedSettles(Exec(steps[..i]), steps[i], fid, b);
      StepAt(steps, i);
      SettledSince(steps, i + 1, fid, b);
      OneAnswer(Exec(steps), fid, a, b);
    }
  }

  lemma OneAnswer(s: State, fid: nat, a: Answer, b: Answer)
    requires Settled(s, fid, a) && Settled(s, fid, b)
    ensures a == b
  {
  }

  ghost predicate Promised(s: State, c: nat, fid: nat, e: CodeEntry) {
    (c in s.calls && s.calls[c].place == Fetched(fid, e)) || Settled(s, fid, Answer(Some(e), None))
  }

  lemma PromiseStays(s: State, st: Step, c: nat, fid: nat, e: CodeEntry)
    requires Inv(s) && Promised(s, c, fid, e)
    ensures Promised(Next(s, st), c, fid, e)
  {
    if Settled(s, fid, Answer(Some(e), None)) {
      SettledStays(s, st, fid, Answer(Some(e), None));
    } else if st.Persist? && st.c == c {
      DecidedSettles(s, st, fid, Answer(Some(e), None));
    } else {
      FetchedStays(s, st, c);
    }
  }

  lemma FetchedStays(s: State, st: Step, c: nat)
    requires c in s.calls && s.calls[c].place.Fetched? && !(st.Persist? && st.c == c)
    ensures c in Next(s, st).calls && Next(s, st).calls[c] == s.calls[c]
  {
  }

  /** In every interleaving, once a call holds fetched code all that return through its flight return that code. */
  lemma {:induction false} FetchedIsReturned(steps: seq<Step>, i: nat, c: nat, fid: nat, e: CodeEntry, d: nat)
    requires i <= |steps| && At(Exec(steps[..i]), c) == Fetched(fid, e)
    requires At(Exec(steps), d).Returned? && At(Exec(steps), d).via == Some(fid)
    ensures At(Exec(steps), d).answer == Answer(Some(e), None)
  {
    assert Promised(Exec(steps[..i]), c, fid, e);
    hide Next, Settled, Promised;
    PromisedSince(steps, i, c, fid, e);
    var a := At(Exec(steps), d).answer;
    ReturnedIsSettled(steps, d, fid, a);
    PromisedAnswer(steps, c, fid, e, a);
  }

  lemma {:induction false} PromisedSince(steps: seq<Step>, i: nat, c: nat, fid: nat, e: CodeEntry)
    requires i <= |steps| && Promised(Exec(steps[..i]), c, fid, e)
    ensures Promised(Exec(steps), c, fid, e)
  {
    hide Next, Promised;
    if i == |steps| {
      assert steps[..i] == steps;
    } else {
      var init := steps[..|steps| - 1];
      assert init[..i] == steps[..i];
      PromisedSince(init, i, c, fid, e);
      RunsKeep(init);
      PromiseStays(Exec(init), steps[|steps| - 1], c, fid, e);
    }
  }

  lemma PromisedAnswer(steps: seq<Step>, c: nat, fid: nat, e: CodeEntry, a: Answer)
    requires Promised(Exec(steps), c, fid, e) && Settled(Exec(steps), fid, a)
    ensures a == Answer(Some(e), None)
  {
    RunsKeep(steps);
    hide Exec;
    var s := Exec(steps);
    assert c in s.calls ==> CallOk(s, c);
  }

  /** A persist that works stores the fetched entry under the call's scid; one that fails stores nothing. */
  lemma PersistStores(steps: seq<Step>, c: nat, ok: bool)
    requires At(Exec(steps), c).Fetched?
    ensures c in Exec(steps).calls
    ensures var s := Exec(steps);
            Next(s, Persist(c, ok)).stored == if ok then s.stored[s.calls[c].scid := At(s, c).code] else s.stored
  {
    RunsKeep(steps);
    hide Exec;
    assert CallOk(Exec(steps), c);
  }

  ghost predicate LookedUp(s: State, st: Step, d: nat, a: Answer) {
    && st.Lookup? && st.c == d && d in s.calls && s.calls[d].place == Entered
    && (if st.fails then a == Answer(None, Some(StoreError))
        else s.calls[d].scid in s.stored && a == Answer(Some(s.stored[s.calls[d].scid]), None))
  }

  lemma ReturnedAlone(s: State, st: Step, d: nat, a: Answer)
    requires d in Next(s, st).calls && Next(s, st).calls[d].place == Returned(None, a)
    ensures (d in s.calls && s.calls[d].place == Returned(None, a)) || LookedUp(s, st, d, a)
  {
  }

  /** A call that returns without a flight returns what its first lookup met: the stored entry, or its error. */
  lemma {:induction false} ReturnsWhatItFound(steps: seq<Step>, d: nat, a: Answer)
    requires d in Exec(steps).calls && Exec(steps).calls[d].place == Returned(None, a)
    ensures exists i :: 0 <= i < |steps| && LookedUp(Exec(steps[..i]), steps[i], d, a)
  {
    hide Next, LookedUp;
    var init, st := steps[..|steps| - 1], steps[|steps| - 1];
    ReturnedAlone(Exec(init), st, d, a);
    if LookedUp(Exec(init), st, d, a) {
      assert steps[..|steps| - 1] == init;
    } else {
      ReturnsWhatItFound(init, d, a);
      var i :| 0 <= i < |init| && LookedUp(Exec(init[..i]), init[i], d, a);
      assert init[..i] == steps[..i] && init[i] == steps[i];
    }
  }

  function ExecFrom(s: State, steps: seq<Step>): State
    decreases |steps|
  {
    if steps == [] then s else ExecFrom(Next(s, steps[0]), steps[1..])
  }

  /** A call that runs alone for a scid nobody has: it fetches, stores, returns the entry and leaves no flight. */
  lemma LoneCall(steps: seq<Step>, c: nat, scid: Scid, e: CodeEntry, ok: bool)
    requires c !in Exec(steps).calls && scid != "" && e.code != ""
    requires scid !in Exec(steps).stored && scid !in Exec(steps).table
    ensures var s := Exec(steps);
            var t := ExecFrom(s, [Start(c, scid), Lookup(c, false), LoadOrStore(c), Once(c), Recheck(c, false),
                                  StartFetch(c), EndFetch(c, Code(e)), Persist(c, ok), Delete(c), Finish(c)]);
            && At(t, c) == Returned(Some(|s.flights|), Answer(Some(e), None))
            && t.stored == (if ok then s.stored[scid := e] else s.stored)
            && t.table == s.table
  {
    hide Exec;
    var s := Exec(steps);
    var fid := |s.flights|;
    var s4 := s.(calls := s.calls[c := Call(scid, Rechecking(fid))], table := s.table[scid := fid],
                 flights := s.flights + [Flight(scid, Running(c), NOTHING)]);
    LoneJoin(s, c, scid);
    LoneFetch(s4, c, scid, fid, e, ok);
    assert s4.table - {scid} == s.table;
    var x := [Start(c, scid), Lookup(c, false), LoadOrStore(c), Once(c)];
    var y := [Recheck(c, false), StartFetch(c), EndFetch(c, Code(e)), Persist(c, ok), Delete(c), Finish(c)];
    hide Next;
    ExecFromCat(s, x, y);
    assert x + y == [Start(c, scid), Lookup(c, false), LoadOrStore(c), Once(c), Recheck(c, false),
                     StartFetch(c), EndFetch(c, Code(e)), Persist(c, ok), Delete(c), Finish(c)];
  }

  lemma {:induction false} ExecFromCat(s: State, x: seq<Step>, y: seq<Step>)
    ensures ExecFrom(s, x + y) == ExecFrom(ExecFrom(s, x), y)
    decreases |x|
  {
    hide Next;
    if x == [] {
      assert x + y == y;
    } else {
      ExecFromCat(Next(s, x[0]), x[1..], y);
      assert (x + y)[1..] == x[1..] + y;
    }
  }

  lemma LoneJoin(s: State, c: nat, scid: Scid)
    requires c !in s.calls && scid != "" && scid !in s.stored && scid !in s.table
    ensures var fid := |s.flights|;
            ExecFrom(s, [Start(c, scid), Lookup(c, false), LoadOrStore(c), Once(c)]) ==
            s.(calls := s.calls[c := Call(scid, Rechecking(fid))], table := s.table[scid := fid],
               flights := s.flights + [Flight(scid, Running(c), NOTHING)])
  {
    var s1 := Next(s, Start(c, scid));
    var s2 := Next(s1, Lookup(c, false));
    var s3 := Next(s2, LoadOrStore(c));
    var s4 := Next(s3, Once(c));
    assert ExecFrom(s3, [Once(c)]) == s4;
    assert ExecFrom(s2, [LoadOrStore(c), Once(c)]) == s4;
    assert ExecFrom(s1, [Lookup(c, false), LoadOrStore(c), Once(c)]) == s4;
  }

  lemma LoneFetch(s: State, c: nat, scid: Scid, fid: nat, e: CodeEntry, ok: bool)
    requires c in s.calls && s.calls[c] == Call(scid, Rechecking(fid)) && fid < |s.flights| && e.code != ""
    requires scid !in s.stored && s.flights[fid].phase == Running(c)
    ensures var t := ExecFrom(s, [Recheck(c, false), StartFetch(c), EndFetch(c, Code(e)), Persist(c, ok), Delete(c),
                                  Finish(c)]);
            && At(t, c) == Returned(Some(fid), Answer(Some(e), None))
            && t.stored == (if ok then s.stored[scid := e] else s.stored)
            && t.table == s.table - {scid}
  {
    var t := s.(calls := s.calls[c := Call(scid, Fetched(fid, e))]);
    var x := [Recheck(c, false), StartFetch(c), EndFetch(c, Code(e))];
    var y := [Persist(c, ok), Delete(c), Finish(c)];
    LoneRead(s, c, scid, fid, e);
    LoneEnd(t, c, scid, fid, e, ok);
    hide Next;
    ExecFromCat(s, x, y);
    assert x + y == [Recheck(c, false), StartFetch(c), EndFetch(c, Code(e)), Persist(c, ok), Delete(c), Finish(c)];
  }

  lemma LoneRead(s: State, c: nat, scid: Scid, fid: nat, e: CodeEntry)
    requires c in s.calls && s.calls[c] == Call(scid, Rechecking(fid)) && fid < |s.flights| && e.code != ""
    requires scid !in s.stored
    ensures ExecFrom(s, [Recheck(c, false), StartFetch(c), EndFetch(c, Code(e))]) ==
            s.(calls := s.calls[c := Call(scid, Fetched(fid, e))])
  {
    var s1 := Next(s, Recheck(c, false));
    var s2 := Next(s1, StartFetch(c));
    var s3 := Next(s2, EndFetch(c, Code(e)));
    assert ExecFrom(s2, [EndFetch(c, Code(e))]) == s3;
    assert ExecFrom(s1, [StartFetch(c), EndFetch(c, Code(e))]) == s3;
  }

  lemma LoneEnd(s: State, c: nat, scid: Scid, fid: nat, e: CodeEntry, ok: bool)
    requires c in s.calls && s.calls[c] == Call(scid, Fetched(fid, e)) && fid < |s.flights|
    ensures var t := ExecFrom(s, [Persist(c, ok), Delete(c), Finish(c)]);
            && At(t, c) == Returned(Some(fid), Answer(Some(e), None))
            && t.stored == (if ok then s.stored[scid := e] else s.stored)
            && t.table == s.table - {scid}
  {
    var s1 := Next(s, Persist(c, ok));
    assert s1.calls[c] == Call(scid, Leaving(fid)) && s1.flights[fid].answer == Answer(Some(e), None);
    assert s1.stored == (if ok then s.stored[scid := e] else s.stored) && s1.table == s.table;
    assert fid < |s1.flights| && c in s1.calls;
    assert ExecFrom(s, [Persist(c, ok), Delete(c), Finish(c)]) == ExecFrom(s1, [Delete(c), Finish(c)]);
    hide *;
    LoneLeave(s1, c, scid, fid);
  }

  lemma LoneLeave(s: State, c: nat, scid: Scid, fid: nat)
    requires c in s.calls && s.calls[c] == Call(scid, Leaving(fid)) && fid < |s.flights|
    ensures var t := ExecFrom(s, [Delete(c), Finish(c)]);
            && At(t, c) == Returned(Some(fid), s.flights[fid].answer)
            && t.stored == s.stored && t.table == s.table - {scid}
  {
    var s1 := Next(s, Delete(c));
    var s2 := Next(s1, Finish(c));
    assert ExecFrom(s1, [Finish(c)]) == s2;
  }
}
