/** What every step of the outbox keeps: bounded retries and, per cycle, a gap-free event log. */
module OutboxRuns {
  import opened Wrappers
  import opened Outbox
  import opened OutboxDelivery
  import C = CycleProjection
  import D = OutboxDrain

  /** The log of every cycle matches its stored version and projection; no cycle, no log. */
  ghost predicate LogsMatch(db: Db) {
    forall r :: LogMatchesFor(db, r)
  }

  ghost predicate Consistent(db: Db) {
    LogsMatch(db) && D.RetryBound(db)
  }

  lemma SameLogs(db: Db, db': Db)
    requires LogsMatch(db) && db'.cycles == db.cycles
    requires forall r :: CycleLog(db'.events, r) == CycleLog(db.events, r)
    ensures LogsMatch(db')
  {
    forall r ensures LogMatchesFor(db', r) {
      assert LogMatchesFor(db, r);
    }
  }

  lemma LogOfAppended(events: seq<Event>, e: Event, r: RequirementId)
    ensures CycleLog(events + [e], r)
            == CycleLog(events, r)
               + if e.aggregate.CycleOf? && e.aggregate.root == r then [e.aggregate.event] else []
  {
    assert (events + [e])[..|events|] == events;
  }

  lemma {:induction false} LogIgnoresDelivery(events: seq<Event>, i: nat, e: Event, r: RequirementId)
    requires i < |events| && e.aggregate == events[i].aggregate
    ensures CycleLog(events[i := e], r) == CycleLog(events, r)
  {
    var n := |events| - 1;
    if i == n {
      assert events[i := e][..n] == events[..n];
    } else {
      assert events[i := e][..n] == events[..n][i := e];
      LogIgnoresDelivery(events[..n], i, e, r);
    }
  }

  ghost predicate LogMatchesFor(db: Db, r: RequirementId) {
    if r in db.cycles then C.LogMatches(db.cycles[r], CycleLog(db.events, r)) else CycleLog(db.events, r) == []
  }

  lemma EvaluationKeepsLogs(db: Db, root: RequirementId, clock: Clock)
    requires root in db.facts && LogsMatch(db)
    ensures LogsMatch(EvaluateCycle(db, root, clock))
  {
    forall r ensures LogMatchesFor(EvaluateCycle(db, root, clock), r) {
      assert LogMatchesFor(db, r);
      if r == root {
        EvaluationKeepsOwnLog(db, root, clock);
      } else {
        EvaluationKeepsOtherLogs(db, root, clock, r);
      }
    }
    assert forall r :: LogMatchesFor(EvaluateCycle(db, root, clock), r);
  }

  lemma EvaluationKeepsOwnLog(db: Db, root: RequirementId, clock: Clock)
    requires root in db.facts && LogMatchesFor(db, root)
    ensures LogMatchesFor(EvaluateCycle(db, root, clock), root)
  {
    var c, f, log := CycleOrNew(db, root), db.facts[root], CycleLog(db.events, root);
    C.EvaluationKeepsLog(c, log, f, clock.today, clock.now);
    C.EvaluationRefreshes(c, log, f, clock.today, clock.now);
    LogOfRows(db.events, root, C.Emitted(c, log, f, clock.today), root);
  }

  lemma EvaluationKeepsOtherLogs(db: Db, root: RequirementId, clock: Clock, r: RequirementId)
    requires root in db.facts && LogMatchesFor(db, r) && r != root
    ensures LogMatchesFor(EvaluateCycle(db, root, clock), r)
  {
    var c, f, log := CycleOrNew(db, root), db.facts[root], CycleLog(db.events, root);
    C.EvaluationRefreshes(c, log, f, clock.today, clock.now);
    LogOfRows(db.events, root, C.Emitted(c, log, f, clock.today), r);
    assert CycleLog(db.events, r) + [] == CycleLog(db.events, r);
  }

  lemma LogOfRows(events: seq<Event>, root: RequirementId, emitted: seq<C.CycleEvent>, r: RequirementId)
    requires |emitted| <= 1
    ensures CycleLog(events + CycleRows(root, emitted), r)
            == CycleLog(events, r) + if r == root then emitted else []
  {
    if emitted == [] {
      assert events + CycleRows(root, emitted) == events;
    } else {
      var e := CycleRows(root, emitted)[0];
      assert CycleRows(root, emitted) == [e] && e.aggregate == CycleOf(root, emitted[0]);
      assert emitted == [emitted[0]];
      LogOfAppended(events, e, r);
    }
  }

  lemma {:induction false} PassKeepsLogs(
    db: Db, id: EventId, names: seq<ConsumerName>, a: Attempt)
    requires id < |db.events| && LogsMatch(db)
    requires RunAll(db, id, names, a).Finished?
    ensures LogsMatch(RunAll(db, id, names, a).db)
    decreases |names|
  {
    if names != [] {
      if HasSucceeded(db, id, names[0]) {
        PassKeepsLogs(db, id, names[1..], a);
      } else {
        var next := RunConsumer(db, id, names[0], a.clock);
        var r := RequirementOf(db, db.events[id]);
        if names[0] == CYCLE_EVALUATOR && r.Some? {
          EvaluationKeepsLogs(db, r.value, a.clock);
          SameLogs(EvaluateCycle(db, r.value, a.clock), next);
        } else {
          SameLogs(db, next);
        }
        PassKeepsLogs(next, id, names[1..], a);
      }
    }
  }

  lemma DeliveryFieldsKeepLogs(db: Db, db': Db, id: EventId)
    requires id < |db.events| && LogsMatch(db)
    requires db'.cycles == db.cycles && |db'.events| == |db.events|
    requires db'.events == db.events[id := db'.events[id]]
    requires db'.events[id].aggregate == db.events[id].aggregate
    ensures LogsMatch(db')
  {
    forall r ensures CycleLog(db'.events, r) == CycleLog(db.events, r) {
      LogIgnoresDelivery(db.events, id, db'.events[id], r);
    }
    SameLogs(db, db');
  }

  lemma DispatchKeepsLogs(db: Db, registry: Registry, id: EventId, a: Attempt)
    requires LogsMatch(db)
    ensures LogsMatch(Dispatch(db, registry, id, a))
  {
    if id < |db.events| && db.events[id].status != Completed {
      var ran := RunAll(db, id, Consumers(registry, db.events[id].eventType), a);
      if ran.Finished? && !a.commitFails {
        PassKeepsLogs(db, id, Consumers(registry, db.events[id].eventType), a);
        DeliveryFieldsKeepLogs(ran.db, Dispatch(db, registry, id, a), id);
      } else {
        DeliveryFieldsKeepLogs(db, Dispatch(db, registry, id, a), id);
      }
    }
  }

  /** Dispatches of any event, eligible or not, keep the retry bound. */
  lemma DispatchKeepsRetryBound(db: Db, registry: Registry, id: EventId, a: Attempt)
    requires D.RetryBound(db)
    ensures D.RetryBound(Dispatch(db, registry, id, a))
  {
    if id < |db.events| && db.events[id].status != Completed {
      var names := Consumers(registry, db.events[id].eventType);
      var ran := RunAll(db, id, names, a);
      if ran.Finished? {
        D.PassKeepsMeasure(db, id, names, a);
      }
    }
  }

  lemma StepKeepsConsistency(w: World, s: Step)
    requires Consistent(w.db)
    ensures Consistent(Next(w, s).db)
  {
    match s
    case Publish(t, requirement, objective) =>
      var e := Event(t, requirement, objective, Business, Pending, 0, None);
      forall r ensures CycleLog(w.db.events + [e], r) == CycleLog(w.db.events, r) {
        LogOfAppended(w.db.events, e, r);
      }
      SameLogs(w.db, Next(w, s).db);
    case TryStep(id, a) =>
      DispatchKeepsLogs(w.db, w.registry, id, a);
      DispatchKeepsRetryBound(w.db, w.registry, id, a);
    case RecordStep(k, now) =>
      if k < |w.notes| && w.notes[k].id < |w.db.events| {
        DeliveryFieldsKeepLogs(w.db, Next(w, s).db, w.notes[k].id);
      }
    case LoseStep(_) =>
    case ReplayStep(id) =>
      if id < |w.db.events| {
        DeliveryFieldsKeepLogs(w.db, Next(w, s).db, id);
      }
    case Subscribe(t, n) =>
    case RecordFacts(r, f) => SameLogs(w.db, Next(w, s).db);
    case EvaluateNow(r, clock) =>
      if r in w.db.facts {
        EvaluationKeepsLogs(w.db, r, clock);
        D.EvaluationKeepsRetryBound(w.db, r, clock);
      }
  }

  /** Over every run from the empty database, with changing facts, overlapping dispatches, failures recorded late or
      never, and replays: attempts stay bounded, and the cycle events of a requirement carry the versions 2, 3, .. up to
      the stored one, once each. */
  lemma EveryRunIsConsistent(registry: Registry, steps: seq<Step>)
    ensures Consistent(Run(World(EMPTY, registry, []), steps).db)
  {
    RunKeepsConsistency(World(EMPTY, registry, []), steps);
  }

  lemma {:induction false} RunKeepsConsistency(w: World, steps: seq<Step>)
    requires Consistent(w.db)
    ensures Consistent(Run(w, steps).db)
    decreases |steps|
  {
    if steps != [] {
      StepKeepsConsistency(w, steps[0]);
      RunKeepsConsistency(Next(w, steps[0]), steps[1..]);
    }
  }

  /** From any database a run can reach, the loop of dispatches drains. */
  lemma EveryReachableDatabaseDrains(
    registry: Registry, steps: seq<Step>, consumers: Registry, turns: seq<D.Turn>, today: int)
    requires var db := Run(World(EMPTY, registry, []), steps).db;
             && D.Scheduled(db, consumers, turns, today)
             && |turns| >= MAX_ATTEMPTS * (D.OpenCount(db.events) + |D.StaleSet(db, today)|)
    ensures D.Settled(D.AfterAll(Run(World(EMPTY, registry, []), steps).db, consumers, turns))
  {
    EveryRunIsConsistent(registry, steps);
    D.EveryScheduleDrains(Run(World(EMPTY, registry, []), steps).db, consumers, turns, today);
  }

  // ---------- What completion means ----------

  /** Every consumer subscribed to a completed event has succeeded for it. */
  ghost predicate CompletedAreDone(w: World) {
    forall id | 0 <= id < |w.db.events| && w.db.events[id].status == Completed :: IsDone(w, id)
  }

  ghost predicate IsDone(w: World, id: EventId)
    requires id < |w.db.events|
  {
    forall n | Listens(w.registry, w.db.events[id].eventType, n) :: HasSucceeded(w.db, id, n)
  }

  lemma TryKeepsDone(w: World, id: EventId, a: Attempt)
    requires CompletedAreDone(w)
    ensures CompletedAreDone(Next(w, TryStep(id, a)))
  {
    var after := Next(w, TryStep(id, a));
    if id < |w.db.events| && w.db.events[id].status != Completed && Try(w.db, w.registry, id, a).Kept? {
      var names := Consumers(w.registry, w.db.events[id].eventType);
      RunAllRunsTheOutstanding(w.db, id, names, a);
      PassOnlyAppendsOpen(w.db, id, names, a);
      CompletionKeepsReceipts(RunAll(w.db, id, names, a).db, id);
    }
    forall i | 0 <= i < |after.db.events| && after.db.events[i].status == Completed ensures IsDone(after, i) {
      if i != id {
        assert w.db.events[i] == after.db.events[i] && IsDone(w, i);
      } else if w.db.events[id].status == Completed {
        assert IsDone(w, id);
      }
    }
  }

  /** A failure record takes its event out of the completed ones. */
  lemma RecordKeepsDone(w: World, k: nat, now: int)
    requires CompletedAreDone(w)
    ensures CompletedAreDone(Next(w, RecordStep(k, now)))
  {
    var after := Next(w, RecordStep(k, now));
    if k < |w.notes| && w.notes[k].id < |w.db.events| {
      FailureChangesOneReceipt(w.db, w.notes[k].id, w.notes[k].active, now);
    }
    forall i | 0 <= i < |after.db.events| && after.db.events[i].status == Completed ensures IsDone(after, i) {
      assert w.db.events[i] == after.db.events[i] && IsDone(w, i);
    }
  }

  /** A pass changes no event and appends only pending ones. */
  lemma {:induction false} PassOnlyAppendsOpen(db: Db, id: EventId, names: seq<ConsumerName>, a: Attempt)
    requires id < |db.events| && RunAll(db, id, names, a).Finished?
    ensures var events := RunAll(db, id, names, a).db.events;
            && db.events <= events
            && forall i | |db.events| <= i < |events| :: events[i].status == Pending
    decreases |names|
  {
    if names != [] {
      if HasSucceeded(db, id, names[0]) {
        PassOnlyAppendsOpen(db, id, names[1..], a);
      } else {
        PassOnlyAppendsOpen(RunConsumer(db, id, names[0], a.clock), id, names[1..], a);
      }
    }
  }

  lemma StepKeepsDone(w: World, s: Step)
    requires CompletedAreDone(w) && !s.Subscribe?
    ensures CompletedAreDone(Next(w, s))
  {
    if s.TryStep? {
      TryKeepsDone(w, s.id, s.attempt);
    } else if s.RecordStep? {
      RecordKeepsDone(w, s.index, s.now);
    } else {
      forall i | 0 <= i < |Next(w, s).db.events| && Next(w, s).db.events[i].status == Completed
        ensures IsDone(Next(w, s), i)
      {
        assert IsDone(w, i);
      }
    }
  }

  lemma {:induction false} RunKeepsDone(w: World, steps: seq<Step>)
    requires CompletedAreDone(w) && forall i | 0 <= i < |steps| :: !steps[i].Subscribe?
    ensures CompletedAreDone(Run(w, steps)) && Run(w, steps).registry == w.registry
    decreases |steps|
  {
    if steps != [] {
      StepKeepsDone(w, steps[0]);
      RunKeepsDone(Next(w, steps[0]), steps[1..]);
    }
  }

  /** Over every run with fixed consumers: replaying a completed event and dispatching it again changes nothing but that
      event's own delivery fields. */
  lemma ReplayOfCompletedChangesNothing(registry: Registry, steps: seq<Step>, id: EventId, a: Attempt)
    requires forall i | 0 <= i < |steps| :: !steps[i].Subscribe?
    requires var db := Run(World(EMPTY, registry, []), steps).db;
             id < |db.events| && db.events[id].status == Completed
    requires a.unreadable == {} && !a.commitFails
    ensures var db := Run(World(EMPTY, registry, []), steps).db;
            Dispatch(Replay(db, id), registry, id, a)
            == db.(events := db.events[id := db.events[id].(attempts := 0, nextAttempt := None)])
  {
    var w := Run(World(EMPTY, registry, []), steps);
    RunKeepsDone(World(EMPTY, registry, []), steps);
    assert IsDone(w, id);
    ReplayChangesNoDomainState(w.db, registry, id, a);
  }

  /** A replayed event is due at once with all five attempts, whatever it was before, and nothing else has changed. */
  lemma ReplayMakesDue(db: Db, id: EventId, now: int)
    requires id < |db.events|
    ensures var db' := Replay(db, id);
            && IsDue(db'.events[id], now) && D.Weight(db'.events[id]) == MAX_ATTEMPTS
            && db' == db.(events := db'.events) && |db'.events| == |db.events|
            && forall i | 0 <= i < |db.events| && i != id :: db'.events[i] == db.events[i]
    ensures D.RetryBound(db) ==> D.RetryBound(Replay(db, id))
  {}
}
