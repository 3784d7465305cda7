/**
 The fan-out bus (eventbus/bus.go) as a step system: publishers, one Run loop, and any number of
 subscribers that receive and cancel at any time. Publish never overlaps Close.
 */
module EventBus {
  import opened IndexTypes

  datatype Event = Event(kind: nat, height: int, scid: Scid, className: string, owner: Addr, sender: Addr,
      speculative: bool)

  /** All non-empty fields must match; an empty set of kinds is every kind. */
  datatype Filter = Filter(kinds: set<nat>, scid: Scid, owner: Addr, sender: Addr, className: string,
      includeSpeculative: bool)

  predicate Match(f: Filter, e: Event) {
    if e.speculative && !f.includeSpeculative then false
    else if |f.kinds| > 0 && e.kind !in f.kinds then false
    else if f.scid != "" && f.scid != e.scid then false
    else if f.owner != "" && f.owner != e.owner then false
    else if f.sender != "" && f.sender != e.sender then false
    else if f.className != "" && f.className != e.className then false
    else true
  }

  const SUB_BUFFER := 256

  /** One fan-out of the event with this index; it was sent to the channel or dropped. */
  datatype Attempt = Attempt(index: nat, sent: bool)

  /**
   Indices stand for accepted events. `since` is how many events Run had taken when the
   subscription was stored; `matched` counts the fan-outs whose filter matched.
   */
  datatype Sub = Sub(filter: Filter, ch: seq<nat>, received: seq<nat>, log: seq<Attempt>, dropped: nat,
                     matched: nat, cancelled: bool, closed: bool, since: nat)

  /** Where Run stands in one event's fan-out: `visited` subscriptions are behind it, `s` is in its hand. */
  datatype Place =
    | Waiting | Ranging(visited: set<nat>) | Locked(visited: set<nat>, s: nat) | Open(visited: set<nat>,
        s: nat) | Stopped

  datatype State = State(accepted: seq<Event>, taken: nat, capacity: nat, lost: nat, busClosed: bool, subs: seq<Sub>,
      run: Place)

  datatype Step =
    | Publish(e: Event) | Subscribe(f: Filter) | Receive(i: nat)
    | Deregister(i: nat) | CloseSub(i: nat)
    | Take | Visit(i: nat) | Check | Send | EndRange
    | CloseBus | Stop

  function Init(capacity: nat): State { State([], 0, capacity, 0, false, [], Waiting) }

  function NewSub(f: Filter, taken: nat): Sub { Sub(f, [], [], [], 0, 0, false, false, taken) }

  /** Run holds the subscription's read lock. */
  predicate Holds(p: Place, i: nat) { (p.Locked? || p.Open?) && p.s == i }

  /** sync.Map.Range visits every key that stays in the map from start to end. */
  predicate MayEnd(s: State, visited: set<nat>) {
    forall i | 0 <= i < |s.subs| :: !s.subs[i].cancelled && s.subs[i].since < s.taken ==> i in visited
  }

  function SendTo(sub: Sub, k: nat): Sub {
    if |sub.ch| < SUB_BUFFER then sub.(ch := sub.ch + [k], log := sub.log + [Attempt(k, true)])
    else sub.(dropped := sub.dropped + 1, log := sub.log + [Attempt(k, false)])
  }

  /** Publishers and subscribers; cancel deletes the registration, then closes under the write lock. */
  function OutsideStep(s: State, st: Step): State
    requires st.Publish? || st.Subscribe? || st.Receive? || st.Deregister? || st.CloseSub? || st.CloseBus?
    requires s.taken <= |s.accepted|
  {
    match st
    case Publish(e) =>
      if s.busClosed then s
      else if |s.accepted| - s.taken < s.capacity then s.(accepted := s.accepted + [e])
      else s.(lost := s.lost + 1)
    case Subscribe(f) => s.(subs := s.subs + [NewSub(f, s.taken)])
    case Receive(i) =>
      if i < |s.subs| && s.subs[i].ch != [] then
        var sub := s.subs[i];
        s.(subs := s.subs[i := sub.(received := sub.received + [sub.ch[0]], ch := sub.ch[1..])])
      else s
    case Deregister(i) => if i < |s.subs| then s.(subs := s.subs[i := s.subs[i].(cancelled := true)]) else s
    case CloseSub(i) =>
      if i < |s.subs| && s.subs[i].cancelled && !Holds(s.run, i)
      then s.(subs := s.subs[i := s.subs[i].(closed := true)]) else s
    case CloseBus => s.(busClosed := true)
  }

  /** The Run loop. */
  function RunStep(s: State, st: Step): State
    requires st.Take? || st.Visit? || st.Check? || st.Send? || st.EndRange? || st.Stop?
    requires s.taken <= |s.accepted|
  {
    match st
    case Take => if s.run == Waiting && s.taken < |s.accepted| then s.(taken := s.taken + 1, run := Ranging({})) else s
    case Visit(i) =>
      if s.run.Ranging? && i < |s.subs| && i !in s.run.visited && s.taken > 0 then
        var visited := s.run.visited + {i};
        if Match(s.subs[i].filter, s.accepted[s.taken - 1])
        then s.(run := Locked(visited, i), subs := s.subs[i := s.subs[i].(matched := s.subs[i].matched + 1)])
        else s.(run := Ranging(visited))
      else s
    case Check =>
      if s.run.Locked? && s.run.s < |s.subs| then
        if s.subs[s.run.s].closed then s.(run := Ranging(s.run.visited)) else s.(run := Open(s.run.visited, s.run.s))
      else s
    case Send =>
      if s.run.Open? && s.run.s < |s.subs| && s.taken > 0
      then s.(subs := s.subs[s.run.s := SendTo(s.subs[s.run.s], s.taken - 1)], run := Ranging(s.run.visited)) else s
    case EndRange => if s.run.Ranging? && MayEnd(s, s.run.visited) then s.(run := Waiting) else s
    case Stop => if s.run == Waiting && s.busClosed && s.taken == |s.accepted| then s.(run := Stopped) else s
  }

  function Next(s: State, st: Step): State
    requires s.taken <= |s.accepted|
  {
    if st.Publish? || st.Subscribe? || st.Receive? || st.Deregister? || st.CloseSub? || st.CloseBus?
    then OutsideStep(s, st) else RunStep(s, st)
  }

  lemma TakenInRange(s: State, st: Step)
    requires s.taken <= |s.accepted|
    ensures Next(s, st).taken <= |Next(s, st).accepted|
  {
  }

  function Exec(capacity: nat, steps: seq<Step>): (s: State)
    ensures s.taken <= |s.accepted|
  {
    if steps == [] then Init(capacity)
    else
      var before := Exec(capacity, steps[..|steps| - 1]);
      TakenInRange(before, steps[|steps| - 1]);
      Next(before, steps[|steps| - 1])
  }

  // ---------- Invariant ----------

  function Sent(log: seq<Attempt>): seq<nat> {
    if log == [] then []
    else Sent(log[..|log| - 1]) + (if log[|log| - 1].sent then [log[|log| - 1].index] else [])
  }

  function Drops(log: seq<Attempt>): nat {
    if log == [] then 0 else Drops(log[..|log| - 1]) + (if log[|log| - 1].sent then 0 else 1)
  }

  ghost predicate Rising(log: seq<Attempt>) {
    forall a, b | 0 <= a < b < |log| :: log[a].index < log[b].index
  }

  ghost predicate Tried(log: seq<Attempt>, k: nat) { exists a <- log :: a.index == k }

  /** The event being fanned out is past subscription i. */
  predicate Behind(p: Place, i: nat) {
    match p
    case Ranging(visited) => i in visited
    case Locked(visited, s) => i in visited && s != i
    case Open(visited, s) => i in visited && s != i
    case _ => true
  }

  ghost predicate LogOk(sub: Sub, accepted: seq<Event>, taken: nat, behind: bool) {
    && Rising(sub.log) && Sent(sub.log) == sub.received + sub.ch && Drops(sub.log) == sub.dropped
    && Fits(sub.filter, sub.log, accepted, taken) && (!behind ==> Earlier(sub.log, taken))
  }

  /** Only events that were taken and match are tried. */
  ghost predicate Fits(f: Filter, log: seq<Attempt>, accepted: seq<Event>, taken: nat) {
    forall a <- log :: a.index < taken && a.index < |accepted| && Match(f, accepted[a.index])
  }

  /** The newest event has not been tried. */
  ghost predicate Earlier(log: seq<Attempt>, taken: nat) { forall a <- log :: a.index + 1 < taken }

  /** While registered, every matching event whose fan-out began after the subscription was tried. */
  ghost predicate Complete(sub: Sub, accepted: seq<Event>, taken: nat, behind: bool) {
    !sub.cancelled ==>
      forall k | sub.since <= k < taken && k < |accepted| && (k + 1 < taken || behind)
          && Match(sub.filter, accepted[k]) ::
        Tried(sub.log, k)
  }

  ghost predicate SubOk(s: State, i: nat)
    requires i < |s.subs|
  {
    var sub := s.subs[i];
    && |sub.ch| <= SUB_BUFFER && sub.since <= s.taken
    && LogOk(sub, s.accepted, s.taken, Behind(s.run, i))
    && Complete(sub, s.accepted, s.taken, Behind(s.run, i))
    && (sub.closed ==> sub.cancelled) && (s.run.Open? && s.run.s == i ==> !sub.closed)
    && (!sub.closed ==> sub.matched == |sub.log| + (if Holds(s.run, i) then 1 else 0))
  }

  ghost predicate RunOk(s: State) {
    && (!s.run.Waiting? && !s.run.Stopped? ==> s.taken > 0)
    && (s.run.Locked? || s.run.Open? ==>
          && s.run.s < |s.subs| && s.run.s in s.run.visited && 0 < s.taken <= |s.accepted|
          && Match(s.subs[s.run.s].filter, s.accepted[s.taken - 1]))
  }

  ghost predicate Inv(s: State) {
    s.taken <= |s.accepted| && RunOk(s) && forall i | 0 <= i < |s.subs| :: SubOk(s, i)
  }

  lemma SentMore(log: seq<Attempt>, a: Attempt)
    ensures Sent(log + [a]) == Sent(log) + (if a.sent then [a.index] else [])
    ensures Drops(log + [a]) == Drops(log) + (if a.sent then 0 else 1)
  {
    assert (log + [a])[..|log|] == log;
  }

  /** One more attempt for the newest event. */
  lemma SendKeepsLog(sub: Sub, accepted: seq<Event>, taken: nat)
    requires 0 < taken <= |accepted| && LogOk(sub, accepted, taken, false) && |sub.ch| <= SUB_BUFFER
    requires Match(sub.filter, accepted[taken - 1])
    ensures var sub' := SendTo(sub, taken - 1);
            LogOk(sub', accepted, taken, true) && |sub'.ch| <= SUB_BUFFER && |sub'.log| == |sub.log| + 1
  {
    hide Rising, Sent, Drops, Match, Fits, Earlier;
    var a := Attempt(taken - 1, |sub.ch| < SUB_BUFFER);
    SentMore(sub.log, a);
    assert sub.received + (sub.ch + [taken - 1]) == (sub.received + sub.ch) + [taken - 1];
    RisingMore(sub.log, a, taken);
    FitsMore(sub.filter, sub.log, accepted, a, taken);
  }

  lemma RisingMore(log: seq<Attempt>, a: Attempt, taken: nat)
    requires Rising(log) && Earlier(log, taken) && a.index + 1 == taken
    ensures Rising(log + [a])
  {
    assert forall x | 0 <= x < |log| :: log[x] in log;
  }

  lemma FitsMore(f: Filter, log: seq<Attempt>, accepted: seq<Event>, a: Attempt, taken: nat)
    requires Fits(f, log, accepted, taken) && a.index < taken && a.index < |accepted| && Match(f, accepted[a.index])
    ensures Fits(f, log + [a], accepted, taken)
  {
    hide Match;
  }

  lemma SendKeepsComplete(sub: Sub, accepted: seq<Event>, taken: nat)
    requires 0 < taken <= |accepted| && Complete(sub, accepted, taken, false)
    ensures Complete(SendTo(sub, taken - 1), accepted, taken, true)
  {
    var sub' := SendTo(sub, taken - 1);
    forall k | sub.since <= k < taken && Match(sub.filter, accepted[k]) && !sub.cancelled ensures Tried(sub'.log, k) {
      if k + 1 < taken {
        assert Tried(sub.log, k);
        var a :| a in sub.log && a.index == k;
        assert a in sub'.log;
      } else {
        assert sub'.log[|sub.log|].index == k;
      }
    }
  }

  lemma ReceiveKeepsLog(sub: Sub, accepted: seq<Event>, taken: nat, behind: bool)
    requires sub.ch != [] && LogOk(sub, accepted, taken, behind)
    ensures LogOk(sub.(received := sub.received + [sub.ch[0]], ch := sub.ch[1..]), accepted, taken, behind)
  {
    assert sub.received + sub.ch == (sub.received + [sub.ch[0]]) + sub.ch[1..];
  }

  /** Accepting a later event, or moving past a subscription, keeps its facts. */
  lemma LogOkMore(sub: Sub, accepted: seq<Event>, more: seq<Event>, taken: nat, behind: bool)
    requires taken <= |accepted|
    ensures LogOk(sub, accepted, taken, behind) ==> LogOk(sub, accepted + more, taken, behind)
    ensures Complete(sub, accepted, taken, behind) ==> Complete(sub, accepted + more, taken, behind)
  {
    hide Match;
    forall k | 0 <= k < |accepted| ensures (accepted + more)[k] == accepted[k] {
    }
  }

  lemma OutsideKeeps(s: State, st: Step)
    requires st.Publish? || st.Subscribe? || st.Receive? || st.Deregister? || st.CloseSub? || st.CloseBus?
    requires Inv(s)
    ensures Inv(OutsideStep(s, st))
  {
    hide LogOk, Complete, Match;
    var s' := OutsideStep(s, st);
    forall i | 0 <= i < |s'.subs| ensures SubOk(s', i) {
      if i < |s.subs| {
        assert SubOk(s, i);
        if st.Publish? {
          LogOkMore(s.subs[i], s.accepted, [st.e], s.taken, Behind(s.run, i));
        } else if st.Receive? && s.subs[i].ch != [] {
          ReceiveKeepsLog(s.subs[i], s.accepted, s.taken, Behind(s.run, i));
          ReceiveKeepsComplete(s.subs[i], s.accepted, s.taken, Behind(s.run, i));
        } else if st.Deregister? || st.CloseSub? {
          FlagsKeep(s.subs[i], s.accepted, s.taken, Behind(s.run, i));
        }
      } else {
        NewSubOk(st.f, s.accepted, s.taken, Behind(s.run, i));
      }
    }
  }

  lemma ReceiveKeepsComplete(sub: Sub, accepted: seq<Event>, taken: nat, behind: bool)
    requires sub.ch != [] && Complete(sub, accepted, taken, behind)
    ensures Complete(sub.(received := sub.received + [sub.ch[0]], ch := sub.ch[1..]), accepted, taken, behind)
  {
    hide Match, Tried;
  }

  lemma FlagsKeep(sub: Sub, accepted: seq<Event>, taken: nat, behind: bool)
    requires LogOk(sub, accepted, taken, behind) && Complete(sub, accepted, taken, behind)
    ensures LogOk(sub.(cancelled := true), accepted, taken, behind)
    ensures Complete(sub.(cancelled := true), accepted, taken, behind)
    ensures LogOk(sub.(closed := true), accepted, taken, behind)
    ensures Complete(sub.(closed := true), accepted, taken, behind)
  {
    hide Match, Tried;
  }

  lemma NewSubOk(f: Filter, accepted: seq<Event>, taken: nat, behind: bool)
    ensures LogOk(NewSub(f, taken), accepted, taken, behind) && Complete(NewSub(f, taken), accepted, taken, behind)
  {
  }

  lemma TakeKeeps(s: State)
    requires Inv(s)
    ensures Inv(RunStep(s, Take))
  {
    hide Match, Tried;
    var s' := RunStep(s, Take);
    forall i | 0 <= i < |s'.subs| ensures SubOk(s', i) {
      assert SubOk(s, i);
    }
  }

  lemma VisitKeeps(s: State, j: nat)
    requires Inv(s)
    ensures Inv(RunStep(s, Visit(j)))
  {
    hide Match, Tried, Rising, Sent, Drops;
    var s' := RunStep(s, Visit(j));
    forall i | 0 <= i < |s'.subs| ensures SubOk(s', i) {
      assert SubOk(s, i);
    }
  }

  lemma CheckKeeps(s: State)
    requires Inv(s)
    ensures Inv(RunStep(s, Check))
  {
    hide Match, Tried, Rising, Sent, Drops;
    var s' := RunStep(s, Check);
    forall i | 0 <= i < |s'.subs| ensures SubOk(s', i) {
      assert SubOk(s, i);
    }
  }

  lemma SendKeeps(s: State)
    requires Inv(s)
    ensures Inv(RunStep(s, Send))
  {
    hide Match, LogOk, Complete;
    var s' := RunStep(s, Send);
    forall i | 0 <= i < |s'.subs| ensures SubOk(s', i) {
      assert SubOk(s, i);
      if s.run.Open? && s.run.s == i {
        SendKeepsLog(s.subs[i], s.accepted, s.taken);
        SendKeepsComplete(s.subs[i], s.accepted, s.taken);
      }
    }
  }

  lemma EndKeeps(s: State, st: Step)
    requires (st.EndRange? || st.Stop?) && Inv(s)
    ensures Inv(RunStep(s, st))
  {
    hide Match, Tried, Rising, Sent, Drops;
    var s' := RunStep(s, st);
    forall i | 0 <= i < |s'.subs| ensures SubOk(s', i) {
      assert SubOk(s, i);
    }
  }

  lemma StepKeeps(s: State, st: Step)
    requires Inv(s)
    ensures Inv(Next(s, st))
  {
    hide Inv, RunStep, OutsideStep;
    assert s.taken <= |s.accepted| by { InvBound(s); }
    match st {
      case Take => TakeKeeps(s);
      case Visit(j) => VisitKeeps(s, j);
      case Check => CheckKeeps(s);
      case Send => SendKeeps(s);
      case EndRange => EndKeeps(s, st);
      case Stop => EndKeeps(s, st);
      case _ => OutsideKeeps(s, st);
    }
  }

  lemma InvBound(s: State)
    requires Inv(s)
    ensures s.taken <= |s.accepted|
  {
  }

  lemma {:induction false} RunsKeep(capacity: nat, steps: seq<Step>)
    ensures Inv(Exec(capacity, steps))
  {
    hide Next;
    if steps != [] {
      RunsKeep(capacity, steps[..|steps| - 1]);
      StepKeeps(Exec(capacity, steps[..|steps| - 1]), steps[|steps| - 1]);
    }
  }

  // ---------- Delivery ----------

  /** In every interleaving the event being sent goes to a channel that is not closed. */
  lemma NeverSendsOnClosed(capacity: nat, steps: seq<Step>)
    requires Exec(capacity, steps).run.Open?
    ensures var s := Exec(capacity, steps); s.run.s < |s.subs| && !s.subs[s.run.s].closed
  {
    RunsKeep(capacity, steps);
    hide Exec, Match;
    assert SubOk(Exec(capacity, steps), Exec(capacity, steps).run.s);
  }

  /** Strictly rising indices of accepted events that match the filter. */
  ghost predicate Subsequence(q: seq<nat>, accepted: seq<Event>, f: Filter) {
    && (forall a, b | 0 <= a < b < |q| :: q[a] < q[b])
    && (forall k <- q :: k < |accepted| && Match(f, accepted[k]))
  }

  lemma {:induction false} SentIsSubsequence(log: seq<Attempt>, accepted: seq<Event>, f: Filter)
    requires Rising(log) && Fits(f, log, accepted, |accepted|)
    ensures Subsequence(Sent(log), accepted, f)
  {
    hide Match, Sent, Fits, Subsequence;
    if log == [] {
      NothingSent(accepted, f);
    } else {
      var init, last := log[..|log| - 1], log[|log| - 1];
      LogInit(log, accepted, f);
      SentIsSubsequence(init, accepted, f);
      assert log == init + [last];
      SentMore(init, last);
      if last.sent {
        forall k | k in Sent(init) ensures k < last.index {
          SentIsTried(init, k);
          BelowLast(log, k);
        }
        SubsequenceMore(Sent(init), last.index, accepted, f);
      } else {
        assert Sent(init) + [] == Sent(init);
      }
    }
  }

  lemma NothingSent(accepted: seq<Event>, f: Filter)
    ensures Subsequence(Sent([]), accepted, f)
  {
  }

  lemma LogInit(log: seq<Attempt>, accepted: seq<Event>, f: Filter)
    requires log != [] && Rising(log) && Fits(f, log, accepted, |accepted|)
    ensures Rising(log[..|log| - 1]) && Fits(f, log[..|log| - 1], accepted, |accepted|)
    ensures log[|log| - 1].index < |accepted| && Match(f, accepted[log[|log| - 1].index])
  {
    hide Match;
    assert log[|log| - 1] in log;
  }

  lemma BelowLast(log: seq<Attempt>, k: nat)
    requires log != [] && Rising(log) && Tried(log[..|log| - 1], k)
    ensures k < log[|log| - 1].index
  {
    var init := log[..|log| - 1];
    var a :| a in init && a.index == k;
    var x :| 0 <= x < |init| && init[x] == a;
    assert log[x].index < log[|log| - 1].index;
  }

  lemma SubsequenceMore(q: seq<nat>, k: nat, accepted: seq<Event>, f: Filter)
    requires Subsequence(q, accepted, f) && (forall x <- q :: x < k) && k < |accepted| && Match(f, accepted[k])
    ensures Subsequence(q + [k], accepted, f)
  {
    hide Match;
    assert forall a | 0 <= a < |q| :: q[a] in q;
  }

  lemma {:induction false} SentIsTried(log: seq<Attempt>, k: nat)
    requires k in Sent(log)
    ensures Tried(log, k)
  {
    var init, last := log[..|log| - 1], log[|log| - 1];
    assert log == init + [last];
    if k in Sent(init) {
      SentIsTried(init, k);
      var a :| a in init && a.index == k;
      assert a in log;
    } else {
      assert last in log;
    }
  }

  /**
   What a subscriber received, followed by what its channel still holds, is an in-order subsequence of the
   matching events.
   */
  lemma DeliveryInOrder(capacity: nat, steps: seq<Step>, i: nat)
    requires i < |Exec(capacity, steps).subs|
    ensures var s := Exec(capacity, steps); var sub := s.subs[i];
            Subsequence(sub.received + sub.ch, s.accepted, sub.filter) && |sub.ch| <= SUB_BUFFER
  {
    RunsKeep(capacity, steps);
    hide Exec, Match;
    var s := Exec(capacity, steps);
    assert SubOk(s, i);
    assert Fits(s.subs[i].filter, s.subs[i].log, s.accepted, |s.accepted|);
    SentIsSubsequence(s.subs[i].log, s.accepted, s.subs[i].filter);
  }

  lemma {:induction false} SentAndDropped(log: seq<Attempt>)
    ensures |Sent(log)| + Drops(log) == |log|
  {
    if log != [] {
      SentAndDropped(log[..|log| - 1]);
    }
  }

  /** While a subscription is open its matched fan-outs are received, buffered, dropped, or in Run's hand. */
  lemma FanOutsAreConserved(capacity: nat, steps: seq<Step>, i: nat)
    requires i < |Exec(capacity, steps).subs| && !Exec(capacity, steps).subs[i].closed
    ensures var s := Exec(capacity, steps); var sub := s.subs[i];
            sub.matched == |sub.received| + |sub.ch| + sub.dropped + (if Holds(s.run, i) then 1 else 0)
  {
    RunsKeep(capacity, steps);
    hide Exec, Match;
    var s := Exec(capacity, steps);
    assert SubOk(s, i);
    SentAndDropped(s.subs[i].log);
  }

  lemma {:induction false} TriedIsSentOrDropped(log: seq<Attempt>, k: nat)
    requires Tried(log, k)
    ensures k in Sent(log) || Drops(log) > 0
  {
    var init, last := log[..|log| - 1], log[|log| - 1];
    assert log == init + [last];
    if last.index != k {
      var a :| a in log && a.index == k;
      assert a in init;
      TriedIsSentOrDropped(init, k);
    }
  }

  /**
   A registered subscription that dropped nothing was sent every matching event whose fan-out both
   began after the subscription and is over.
   */
  lemma NothingMissed(capacity: nat, steps: seq<Step>, i: nat, k: nat)
    requires i < |Exec(capacity, steps).subs|
    requires var s := Exec(capacity, steps); var sub := s.subs[i];
             && !sub.cancelled && sub.dropped == 0 && sub.since <= k < |s.accepted|
             && (k + 1 < s.taken || (k + 1 == s.taken && s.run == Waiting)) && Match(sub.filter, s.accepted[k])
    ensures var sub := Exec(capacity, steps).subs[i]; k in sub.received + sub.ch
  {
    RunsKeep(capacity, steps);
    hide Exec, Match;
    var s := Exec(capacity, steps);
    assert SubOk(s, i);
    TriedIsSentOrDropped(s.subs[i].log, k);
  }

  // ---------- The filter, field by field ----------

  lemma MatchByField(f: Filter, e: Event)
    ensures Match(f, e) <==>
            && (e.speculative ==> f.includeSpeculative)
            && (f.kinds == {} || e.kind in f.kinds)
            && (f.scid == "" || f.scid == e.scid) && (f.owner == "" || f.owner == e.owner)
            && (f.sender == "" || f.sender == e.sender) && (f.className == "" || f.className == e.className)
  {
    assert |f.kinds| > 0 <==> f.kinds != {};
  }

  /** Every delivered event passes each field its filter sets, and no speculative one arrives unasked. */
  lemma DeliveredPasses(capacity: nat, steps: seq<Step>, i: nat, k: nat)
    requires i < |Exec(capacity, steps).subs|
    requires var sub := Exec(capacity, steps).subs[i]; k in sub.received + sub.ch
    ensures k < |Exec(capacity, steps).accepted|
    ensures var e := Exec(capacity, steps).accepted[k]; var f := Exec(capacity, steps).subs[i].filter;
            && (e.speculative ==> f.includeSpeculative) && (f.kinds == {} || e.kind in f.kinds)
            && (f.scid == "" || f.scid == e.scid) && (f.owner == "" || f.owner == e.owner)
            && (f.sender == "" || f.sender == e.sender) && (f.className == "" || f.className == e.className)
  {
    DeliveryInOrder(capacity, steps, i);
    hide Exec, Match;
    var s := Exec(capacity, steps);
    MatchByField(s.subs[i].filter, s.accepted[k]);
  }

  /** A registered subscription that dropped nothing misses no event that passes every field its filter sets. */
  lemma PassingIsDelivered(capacity: nat, steps: seq<Step>, i: nat, k: nat)
    requires i < |Exec(capacity, steps).subs|
    requires var s := Exec(capacity, steps); var sub := s.subs[i];
             && !sub.cancelled && sub.dropped == 0 && sub.since <= k < |s.accepted|
             && (k + 1 < s.taken || (k + 1 == s.taken && s.run == Waiting))
    requires var e := Exec(capacity, steps).accepted[k]; var f := Exec(capacity, steps).subs[i].filter;
             && (e.speculative ==> f.includeSpeculative) && (f.kinds == {} || e.kind in f.kinds)
             && (f.scid == "" || f.scid == e.scid) && (f.owner == "" || f.owner == e.owner)
             && (f.sender == "" || f.sender == e.sender) && (f.className == "" || f.className == e.className)
    ensures var sub := Exec(capacity, steps).subs[i]; k in sub.received + sub.ch
  {
    hide Exec, Match;
    var s := Exec(capacity, steps);
    MatchByField(s.subs[i].filter, s.accepted[k]);
    NothingMissed(capacity, steps, i, k);
  }

  // ---------- What is dropped, and that events flow ----------

  lemma DropStep(s: State, st: Step, i: nat)
    requires s.taken <= |s.accepted| && i < |Next(s, st).subs| && Next(s, st).subs[i].dropped > 0
    requires i < |s.subs| ==> |s.subs[i].ch| <= 256
    ensures i < |s.subs|
    ensures s.subs[i].dropped == 0 ==> st == Send && |s.subs[i].ch| == 256
  {
    hide Match, MayEnd;
  }

  /** A subscriber loses an event only when 256 others already wait for it. */
  lemma {:induction false} DropsOnlyWhenFull(capacity: nat, steps: seq<Step>, i: nat)
    requires i < |Exec(capacity, steps).subs| && Exec(capacity, steps).subs[i].dropped > 0
    ensures exists j :: 0 <= j < |steps| && steps[j] == Send && i < |Exec(capacity, steps[..j]).subs| &&
              |Exec(capacity, steps[..j]).subs[i].ch| == 256
  {
    hide Match, Next, LogOk, Complete;
    var init, st := steps[..|steps| - 1], steps[|steps| - 1];
    RunsKeep(capacity, init);
    var s := Exec(capacity, init);
    assert i < |s.subs| ==> SubOk(s, i);
    DropStep(s, st, i);
    if s.subs[i].dropped > 0 {
      DropsOnlyWhenFull(capacity, init, i);
      var j :| 0 <= j < |init| && init[j] == Send && i < |Exec(capacity, init[..j]).subs| &&
               |Exec(capacity, init[..j]).subs[i].ch| == 256;
      assert init[..j] == steps[..j] && init[j] == steps[j];
    } else {
      assert steps[..|steps| - 1] == init;
    }
  }

  /** From any run at rest an event published on an open bus reaches a passing subscriber with room. */
  lemma PublishedArrives(capacity: nat, steps: seq<Step>, e: Event, i: nat)
    requires var s := Exec(capacity, steps);
             && s.taken == |s.accepted| && s.run == Waiting && !s.busClosed && s.capacity > 0
             && i < |s.subs| && !s.subs[i].closed && |s.subs[i].ch| < 256 && Match(s.subs[i].filter, e)
    ensures var s := Exec(capacity, steps);
            var t := Exec(capacity, steps + [Publish(e)] + [Take] + [Visit(i)] + [Check] + [Send]);
            && t.accepted == s.accepted + [e]
            && i < |t.subs| && t.subs[i].ch == s.subs[i].ch + [|s.accepted|] && t.subs[i].dropped == s.subs[i].dropped
  {
    var s := Exec(capacity, steps);
    var s2 := s.(accepted := s.accepted + [e], taken := s.taken + 1, run := Ranging({}));
    var x := steps + [Publish(e)] + [Take];
    TakenUp(s, e);
    assert s2.taken == |s2.accepted| && s2.accepted[s2.taken - 1] == e;
    hide *;
    ExecMore(capacity, steps, Publish(e));
    ExecMore(capacity, steps + [Publish(e)], Take);
    FannedOut(capacity, x, i);
  }

  lemma TakenUp(s: State, e: Event)
    requires s.taken == |s.accepted| && s.run == Waiting && !s.busClosed && s.capacity > 0
    ensures Next(s, Publish(e)).taken <= |Next(s, Publish(e)).accepted|
    ensures Next(Next(s, Publish(e)), Take) ==
            s.(accepted := s.accepted + [e], taken := s.taken + 1, run := Ranging({}))
  {
  }

  lemma FannedOut(capacity: nat, steps: seq<Step>, i: nat)
    requires var s := Exec(capacity, steps);
             && 0 < s.taken == |s.accepted| && s.run == Ranging({}) && i < |s.subs|
             && !s.subs[i].closed && |s.subs[i].ch| < 256 && Match(s.subs[i].filter, s.accepted[s.taken - 1])
    ensures var s := Exec(capacity, steps);
            var t := Exec(capacity, steps + [Visit(i)] + [Check] + [Send]);
            && t.accepted == s.accepted && |t.subs| == |s.subs| && t.subs[i].dropped == s.subs[i].dropped
            && t.subs[i].ch == s.subs[i].ch + [s.taken - 1]
  {
    hide Match, Exec;
    var s := Exec(capacity, steps);
    ExecMore(capacity, steps, Visit(i));
    var s1 := Next(s, Visit(i));
    assert s1.run.Locked? && s1.run.s == i && s1.subs[i].ch == s.subs[i].ch && !s1.subs[i].closed;
    assert s1.taken == s.taken && s1.accepted == s.accepted && |s1.subs| == |s.subs|;
    assert s1.subs[i].dropped == s.subs[i].dropped;
    ExecMore(capacity, steps + [Visit(i)], Check);
    var s2 := Next(s1, Check);
    assert s2.run.Open? && s2.run.s == i && s2.subs == s1.subs && s2.taken == s.taken && s2.accepted == s.accepted;
    ExecMore(capacity, steps + [Visit(i)] + [Check], Send);
  }

  lemma ExecMore(capacity: nat, steps: seq<Step>, st: Step)
    ensures Exec(capacity, steps + [st]) == Next(Exec(capacity, steps), st)
  {
    hide Next;
    assert (steps + [st])[..|steps + [st]| - 1] == steps;
  }
}
