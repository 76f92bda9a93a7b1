/** The self-triggering loop: which cycle a delivered event refreshes, and which event that writes. */
module OutboxTrigger {
  import opened Wrappers
  import opened Outbox
  import C = CycleProjection
  import R = OutboxRuns

  /** The event carries the requirement, or no requirement but the objective of its cycle. */
  predicate Tells(db: Db, e: Event, r: RequirementId) {
    && r in db.facts
    && (e.requirement == Some(r) || (e.requirement == None && e.objective == Some(r) && r in db.cycles))
  }

  /** The stored cycle projects the facts of the day. */
  predicate IsFresh(db: Db, r: RequirementId, today: int) {
    && r in db.facts && r in db.cycles
    && db.cycles[r].projection == C.Project(db.facts[r], db.cycles[r].hasOwner, today)
  }

  /** The event a stale cycle writes about itself. */
  function SelfEvent(r: RequirementId, c: C.StoredCycle): Event {
    Event("procurement.cycle.evaluated", Some(r), None,
          CycleOf(r, C.CycleEvent(c.version, c.projection.current, c.projection.health)), Pending, 0, None)
  }

  /** An evaluation leaves the cycle fresh and no other cycle changed, and it writes one event, about the same cycle,
      exactly when the cycle was not fresh. */
  lemma EvaluationTriggersIff(db: Db, r: RequirementId, clock: Clock)
    requires r in db.facts && R.LogsMatch(db)
    ensures var db' := EvaluateCycle(db, r, clock);
            && IsFresh(db', r, clock.today)
            && db'.events == db.events + (if IsFresh(db, r, clock.today) then [] else [SelfEvent(r, db'.cycles[r])])
            && forall q | q != r && q in db.cycles :: q in db'.cycles && db'.cycles[q] == db.cycles[q]
  {
    EvaluationRefreshes(db, r, clock);
    StaleCycleEmits(db, r, clock);
  }

  lemma NewCycleHasNoLog(db: Db, r: RequirementId)
    requires r in db.facts && R.LogMatchesFor(db, r)
    ensures C.LogMatches(CycleOrNew(db, r), CycleLog(db.events, r))
  {}

  lemma StaleCycleEmits(db: Db, r: RequirementId, clock: Clock)
    requires r in db.facts && R.LogMatchesFor(db, r)
    ensures var c', c := EvaluateCycle(db, r, clock).cycles[r], CycleOrNew(db, r);
            C.Emitted(c, CycleLog(db.events, r), db.facts[r], clock.today)
            == if IsFresh(db, r, clock.today) then []
               else [C.CycleEvent(c'.version, c'.projection.current, c'.projection.health)]
  {
    var c, log := CycleOrNew(db, r), CycleLog(db.events, r);
    NewCycleHasNoLog(db, r);
    C.StaleCycleEmits(c, log, db.facts[r], clock.today);
    assert C.Project(db.facts[r], c.hasOwner, clock.today).summary.Some?;
  }

  lemma ConsumerKeepsFresh(db: Db, id: EventId, name: ConsumerName, clock: Clock, r: RequirementId)
    requires id < |db.events| && IsFresh(db, r, clock.today)
    ensures IsFresh(RunConsumer(db, id, name, clock), r, clock.today)
  {
    var q := RequirementOf(db, db.events[id]);
    if q.Some? {
      EvaluationRefreshes(db, q.value, clock);
    }
  }

  lemma OtherConsumerKeeps(db: Db, id: EventId, name: ConsumerName, clock: Clock)
    requires id < |db.events| && name != "cycle_evaluator"
    ensures var next := RunConsumer(db, id, name, clock);
            && next.events == db.events && next.cycles == db.cycles && next.facts == db.facts
            && (HasSucceeded(next, id, "cycle_evaluator") <==> HasSucceeded(db, id, "cycle_evaluator"))
  {}

  lemma EvaluatorEvaluates(db: Db, id: EventId, clock: Clock, r: RequirementId)
    requires id < |db.events| && Tells(db, db.events[id], r)
    ensures var next, evaluated := RunConsumer(db, id, "cycle_evaluator", clock), EvaluateCycle(db, r, clock);
            next.events == evaluated.events && next.cycles == evaluated.cycles && next.facts == evaluated.facts
  {}

  lemma {:induction false} PassKeepsFresh(
    db: Db, id: EventId, names: seq<ConsumerName>, a: Attempt, r: RequirementId)
    requires id < |db.events| && RunAll(db, id, names, a).Finished? && IsFresh(db, r, a.clock.today)
    ensures IsFresh(RunAll(db, id, names, a).db, r, a.clock.today)
    decreases |names|
  {
    if names != [] {
      if HasSucceeded(db, id, names[0]) {
        PassKeepsFresh(db, id, names[1..], a, r);
      } else {
        ConsumerKeepsFresh(db, id, names[0], a.clock, r);
        PassKeepsFresh(RunConsumer(db, id, names[0], a.clock), id, names[1..], a, r);
      }
    }
  }

  lemma EvaluationRefreshes(db: Db, r: RequirementId, clock: Clock)
    requires r in db.facts
    ensures IsFresh(EvaluateCycle(db, r, clock), r, clock.today)
  {
    C.EvaluationRefreshes(CycleOrNew(db, r), CycleLog(db.events, r), db.facts[r], clock.today, clock.now);
  }

  lemma {:induction false} PassRefreshes(
    db: Db, id: EventId, names: seq<ConsumerName>, a: Attempt, r: RequirementId)
    requires id < |db.events| && RunAll(db, id, names, a).Finished? && Tells(db, db.events[id], r)
    requires "cycle_evaluator" in names && !HasSucceeded(db, id, "cycle_evaluator")
    ensures IsFresh(RunAll(db, id, names, a).db, r, a.clock.today)
    decreases |names|
  {
    if names[0] == "cycle_evaluator" {
      EvaluationRefreshes(db, r, a.clock);
      EvaluatorEvaluates(db, id, a.clock, r);
      PassKeepsFresh(RunConsumer(db, id, names[0], a.clock), id, names[1..], a, r);
    } else if HasSucceeded(db, id, names[0]) {
      PassRefreshes(db, id, names[1..], a, r);
    } else {
      OtherConsumerKeeps(db, id, names[0], a.clock);
      PassRefreshes(RunConsumer(db, id, names[0], a.clock), id, names[1..], a, r);
    }
  }

  /** With the evaluator registered for every type of event and not yet run for this one, a delivery leaves the cycle
      that the event tells of fresh, whatever the event's type. */
  lemma DeliveryRefreshesTheCycle(db: Db, registry: Registry, id: EventId, a: Attempt, r: RequirementId)
    requires id < |db.events| && db.events[id].status != Completed && Try(db, registry, id, a).Kept?
    requires "*" in registry && "cycle_evaluator" in registry["*"] && !HasSucceeded(db, id, "cycle_evaluator")
    requires Tells(db, db.events[id], r)
    ensures IsFresh(Try(db, registry, id, a).db, r, a.clock.today)
  {
    var names := Consumers(registry, db.events[id].eventType);
    PassRefreshes(db, id, names, a, r);
  }

  lemma {:induction false} PassKeepsOtherCycles(
    db: Db, id: EventId, names: seq<ConsumerName>, a: Attempt, q: RequirementId)
    requires id < |db.events| && RunAll(db, id, names, a).Finished? && !Tells(db, db.events[id], q)
    ensures var done := RunAll(db, id, names, a).db;
            && (q in done.cycles <==> q in db.cycles) && (q in db.cycles ==> done.cycles[q] == db.cycles[q])
    decreases |names|
  {
    if names != [] {
      PassKeepsOtherCycles(if HasSucceeded(db, id, names[0]) then db else RunConsumer(db, id, names[0], a.clock),
                           id, names[1..], a, q);
    }
  }

  /** A delivery changes no cycle but that of a requirement the event tells of. */
  lemma DeliveryKeepsOtherCycles(db: Db, registry: Registry, id: EventId, a: Attempt, q: RequirementId)
    requires id < |db.events| && Try(db, registry, id, a).Kept? && !Tells(db, db.events[id], q)
    ensures var done := Try(db, registry, id, a).db;
            && (q in done.cycles <==> q in db.cycles) && (q in db.cycles ==> done.cycles[q] == db.cycles[q])
  {
    if db.events[id].status != Completed {
      PassKeepsOtherCycles(db, id, Consumers(registry, db.events[id].eventType), a, q);
    }
  }

  /** The delivery of an event that tells of a stale cycle writes that cycle's own event, which is pending and tells of
      the same cycle: the loop triggers itself. */
  lemma DeliveryTriggersTheNext(db: Db, registry: Registry, id: EventId, a: Attempt, r: RequirementId)
    requires R.LogsMatch(db)
    requires id < |db.events| && db.events[id].status != Completed && Try(db, registry, id, a).Kept?
    requires "*" in registry && "cycle_evaluator" in registry["*"] && !HasSucceeded(db, id, "cycle_evaluator")
    requires Tells(db, db.events[id], r) && !IsFresh(db, r, a.clock.today)
    ensures var done := Try(db, registry, id, a).db;
            exists i | |db.events| <= i < |done.events| ::
              && done.events[i].eventType == "procurement.cycle.evaluated"
              && done.events[i].status == Pending && Tells(done, done.events[i], r)
  {
    var names := Consumers(registry, db.events[id].eventType);
    PassTriggers(db, id, names, a, r);
    var events := RunAll(db, id, names, a).db.events;
    var i :| |db.events| <= i < |events| && events[i].eventType == "procurement.cycle.evaluated"
             && events[i].status == Pending && events[i].requirement == Some(r);
    assert Try(db, registry, id, a).db.events[i] == events[i];
  }

  lemma {:induction false} PassTriggers(
    db: Db, id: EventId, names: seq<ConsumerName>, a: Attempt, r: RequirementId)
    requires R.LogsMatch(db) && id < |db.events| && RunAll(db, id, names, a).Finished? && Tells(db, db.events[id], r)
    requires "cycle_evaluator" in names && !HasSucceeded(db, id, "cycle_evaluator")
    requires !IsFresh(db, r, a.clock.today)
    ensures var events := RunAll(db, id, names, a).db.events;
            exists i | |db.events| <= i < |events| ::
              && events[i].eventType == "procurement.cycle.evaluated"
              && events[i].status == Pending && events[i].requirement == Some(r)
    decreases |names|
  {
    if names[0] == "cycle_evaluator" {
      var next := RunConsumer(db, id, names[0], a.clock);
      EvaluationTriggersIff(db, r, a.clock);
      EvaluatorEvaluates(db, id, a.clock, r);
      var last := next.events[|db.events|];
      assert last == SelfEvent(r, next.cycles[r]);
      assert RunAll(next, id, names[1..], a).db.events[|db.events|] == last;
    } else if HasSucceeded(db, id, names[0]) {
      PassTriggers(db, id, names[1..], a, r);
    } else {
      OtherConsumerKeeps(db, id, names[0], a.clock);
      R.SameLogs(db, RunConsumer(db, id, names[0], a.clock));
      PassTriggers(RunConsumer(db, id, names[0], a.clock), id, names[1..], a, r);
    }
  }
}
