/** The self-triggering event loop drains: every schedule of eligible dispatches settles every event. */
module OutboxDrain {
  import opened Outbox
  import C = CycleProjection

  /** Open events have attempts left, dead letters have none, and only a retry waits for a time. */
  predicate RetryBound(db: Db) {
    forall i | 0 <= i < |db.events| ::
      var e := db.events[i];
      && (IsOpen(e) ==> e.attempts < MAX_ATTEMPTS)
      && (e.status == DeadLetter ==> e.attempts >= MAX_ATTEMPTS)
      && (e.nextAttempt.Some? ==> e.status == Retry)
  }

  predicate Settled(db: Db) {
    forall i | 0 <= i < |db.events| :: !IsOpen(db.events[i])
  }

  // ---------- The measure: attempts left on open events, and one whole event per stale cycle ----------

  function Weight(e: Event): nat {
    if IsOpen(e) && e.attempts < MAX_ATTEMPTS then MAX_ATTEMPTS - e.attempts else 0
  }

  function TotalWeight(events: seq<Event>): nat {
    if events == [] then 0 else TotalWeight(events[..|events| - 1]) + Weight(events[|events| - 1])
  }

  function OpenCount(events: seq<Event>): nat {
    if events == [] then 0
    else OpenCount(events[..|events| - 1]) + if IsOpen(events[|events| - 1]) then 1 else 0
  }

  predicate IsStale(db: Db, r: RequirementId, today: int)
    requires r in db.facts
  {
    C.Stale(CycleOrNew(db, r), db.facts[r], today)
  }

  /** The requirements whose stored cycle is missing or out of date. */
  function StaleSet(db: Db, today: int): set<RequirementId> {
    set r | r in db.facts && IsStale(db, r, today)
  }

  function Measure(db: Db, today: int): nat {
    TotalWeight(db.events) + MAX_ATTEMPTS * |StaleSet(db, today)|
  }

  lemma {:induction false} WeightUpdate(events: seq<Event>, i: nat, e: Event)
    requires i < |events|
    ensures TotalWeight(events[i := e]) == TotalWeight(events) - Weight(events[i]) + Weight(e)
    ensures Weight(events[i]) <= TotalWeight(events)
  {
    var n := |events| - 1;
    if i == n {
      assert events[i := e][..n] == events[..n];
    } else {
      assert events[i := e][..n] == events[..n][i := e];
      WeightUpdate(events[..n], i, e);
    }
  }

  lemma {:induction false} WeightIsBounded(events: seq<Event>)
    ensures TotalWeight(events) <= MAX_ATTEMPTS * OpenCount(events)
  {
    if events != [] {
      WeightIsBounded(events[..|events| - 1]);
    }
  }

  lemma {:induction false} NoWeightMeansSettled(events: seq<Event>)
    requires forall i | 0 <= i < |events| :: IsOpen(events[i]) ==> events[i].attempts < MAX_ATTEMPTS
    requires TotalWeight(events) == 0
    ensures forall i | 0 <= i < |events| :: !IsOpen(events[i])
  {
    forall i | 0 <= i < |events| ensures !IsOpen(events[i]) {
      WeightUpdate(events, i, events[i]);
    }
  }

  // ---------- One evaluation, one pass, one dispatch ----------

  lemma EvaluationRefreshesOne(db: Db, r: RequirementId, clock: Clock)
    requires r in db.facts
    ensures StaleSet(EvaluateCycle(db, r, clock), clock.today) == StaleSet(db, clock.today) - {r}
  {
    var db' := EvaluateCycle(db, r, clock);
    C.EvaluationRefreshes(CycleOrNew(db, r), CycleLog(db.events, r), db.facts[r], clock.today, clock.now);
    assert CycleOrNew(db', r) == C.Evaluated(CycleOrNew(db, r), db.facts[r], clock.today, clock.now);
    forall q | q in db.facts && q != r ensures IsStale(db', q, clock.today) == IsStale(db, q, clock.today) {
      assert CycleOrNew(db', q) == CycleOrNew(db, q);
    }
  }

  lemma EvaluationEmitsForTheStale(db: Db, r: RequirementId, clock: Clock)
    requires r in db.facts
    ensures TotalWeight(EvaluateCycle(db, r, clock).events)
            <= TotalWeight(db.events) + if r in StaleSet(db, clock.today) then MAX_ATTEMPTS else 0
  {
    var c := CycleOrNew(db, r);
    var log := CycleLog(db.events, r);
    var emitted := C.Emitted(c, log, db.facts[r], clock.today);
    C.EvaluationRefreshes(c, log, db.facts[r], clock.today, clock.now);
    WeightOfRows(db.events, r, emitted);
  }

  lemma WeightOfRows(events: seq<Event>, r: RequirementId, emitted: seq<C.CycleEvent>)
    ensures TotalWeight(events + CycleRows(r, emitted))
            == TotalWeight(events) + if emitted == [] then 0 else MAX_ATTEMPTS
  {
    var rows := CycleRows(r, emitted);
    if emitted == [] {
      assert events + rows == events;
    } else {
      assert (events + rows)[..|events|] == events;
    }
  }

  lemma EvaluationKeepsMeasure(db: Db, r: RequirementId, clock: Clock)
    requires r in db.facts
    ensures Measure(EvaluateCycle(db, r, clock), clock.today) <= Measure(db, clock.today)
  {
    EvaluationRefreshesOne(db, r, clock);
    EvaluationEmitsForTheStale(db, r, clock);
    Shrink(StaleSet(db, clock.today), r);
  }

  lemma Shrink<T>(s: set<T>, x: T)
    ensures |s - {x}| == |s| - if x in s then 1 else 0
  {
    if x !in s {
      assert s - {x} == s;
    }
  }

  lemma EvaluationKeepsRetryBound(db: Db, r: RequirementId, clock: Clock)
    requires r in db.facts && RetryBound(db)
    ensures RetryBound(EvaluateCycle(db, r, clock))
  {}

  lemma SameCyclesSameMeasure(db: Db, db': Db, today: int)
    requires db'.events == db.events && db'.cycles == db.cycles && db'.facts == db.facts
    ensures Measure(db', today) == Measure(db, today)
    ensures RetryBound(db') == RetryBound(db)
  {
    forall r | r in db.facts ensures IsStale(db', r, today) == IsStale(db, r, today) {
      assert CycleOrNew(db', r) == CycleOrNew(db, r);
    }
    assert StaleSet(db', today) == StaleSet(db, today);
  }

  lemma ConsumerKeepsMeasure(db: Db, id: EventId, name: ConsumerName, clock: Clock)
    requires id < |db.events|
    ensures Measure(RunConsumer(db, id, name, clock), clock.today) <= Measure(db, clock.today)
    ensures RetryBound(db) ==> RetryBound(RunConsumer(db, id, name, clock))
  {
    var r := RequirementOf(db, db.events[id]);
    var db' := RunConsumer(db, id, name, clock);
    if name == CYCLE_EVALUATOR && r.Some? {
      SameCyclesSameMeasure(EvaluateCycle(db, r.value, clock), db', clock.today);
      EvaluationKeepsMeasure(db, r.value, clock);
      if RetryBound(db) {
        EvaluationKeepsRetryBound(db, r.value, clock);
      }
    } else {
      SameCyclesSameMeasure(db, db', clock.today);
    }
  }

  lemma {:induction false} PassKeepsMeasure(
    db: Db, id: EventId, names: seq<ConsumerName>, a: Attempt)
    requires id < |db.events|
    requires RunAll(db, id, names, a).Finished?
    ensures var done := RunAll(db, id, names, a).db;
            && Measure(done, a.clock.today) <= Measure(db, a.clock.today)
            && (RetryBound(db) ==> RetryBound(done))
    decreases |names|
  {
    if names != [] {
      if HasSucceeded(db, id, names[0]) {
        PassKeepsMeasure(db, id, names[1..], a);
      } else {
        ConsumerKeepsMeasure(db, id, names[0], a.clock);
        PassKeepsMeasure(RunConsumer(db, id, names[0], a.clock), id, names[1..], a);
      }
    }
  }

  /** Every dispatch of an open event, failing or not, lowers the measure. */
  lemma DispatchLowersMeasure(db: Db, registry: Registry, id: EventId, a: Attempt)
    requires RetryBound(db) && id < |db.events| && IsOpen(db.events[id])
    ensures var db' := Dispatch(db, registry, id, a);
            RetryBound(db') && Measure(db', a.clock.today) < Measure(db, a.clock.today)
  {
    var names := Consumers(registry, db.events[id].eventType);
    var ran := RunAll(db, id, names, a);
    if ran.Finished? && !a.commitFails {
      PassKeepsMeasure(db, id, names, a);
      assert ran.db.events[id] == db.events[id];
      CompletionLowersMeasure(ran.db, id, a.clock.today);
    } else {
      var active := if ran.Raised? then ran.name else LastActive(names);
      FailureLowersMeasure(db, id, active, a.clock);
    }
  }

  lemma CompletionLowersMeasure(db: Db, id: EventId, today: int)
    requires RetryBound(db) && id < |db.events| && IsOpen(db.events[id])
    ensures var db' := RecordCompletion(db, id); RetryBound(db') && Measure(db', today) < Measure(db, today)
  {
    var db' := RecordCompletion(db, id);
    WeightUpdate(db.events, id, db'.events[id]);
    assert StaleSet(db', today) == StaleSet(db, today);
  }

  lemma FailureLowersMeasure(db: Db, id: EventId, active: ConsumerName, clock: Clock)
    requires RetryBound(db) && id < |db.events| && IsOpen(db.events[id])
    ensures var db' := RecordFailure(db, id, active, clock.now);
            RetryBound(db') && Measure(db', clock.today) < Measure(db, clock.today)
  {
    var db' := RecordFailure(db, id, active, clock.now);
    WeightUpdate(db.events, id, db'.events[id]);
    assert StaleSet(db', clock.today) == StaleSet(db, clock.today);
  }

  // ---------- Schedules ----------

  /** One turn of the scheduler: dispatch an open event, or do nothing when none is open. */
  datatype Turn = Take(id: EventId, attempt: Attempt) | Idle

  function After(db: Db, registry: Registry, turn: Turn): Db {
    match turn
    case Take(id, a) => Dispatch(db, registry, id, a)
    case Idle => db
  }

  function AfterAll(db: Db, registry: Registry, turns: seq<Turn>): Db
    decreases |turns|
  {
    if turns == [] then db else AfterAll(After(db, registry, turns[0]), registry, turns[1..])
  }

  predicate Eligible(db: Db, turn: Turn, today: int) {
    match turn
    case Take(id, a) => id < |db.events| && IsOpen(db.events[id]) && a.clock.today == today
    case Idle => Settled(db)
  }

  predicate Scheduled(db: Db, registry: Registry, turns: seq<Turn>, today: int)
    decreases |turns|
  {
    turns != [] ==>
      Eligible(db, turns[0], today) && Scheduled(After(db, registry, turns[0]), registry, turns[1..], today)
  }

  /** With facts and date frozen, any schedule, with any failures, leaves every event completed or
      dead-lettered after five turns per event open and per cycle stale at its start. */
  lemma EveryScheduleDrains(db: Db, registry: Registry, turns: seq<Turn>, today: int)
    requires RetryBound(db) && Scheduled(db, registry, turns, today)
    requires |turns| >= MAX_ATTEMPTS * (OpenCount(db.events) + |StaleSet(db, today)|)
    ensures Settled(AfterAll(db, registry, turns))
  {
    WeightIsBounded(db.events);
    SettlesWithinMeasure(db, registry, turns, today);
  }

  lemma {:induction false} SettlesWithinMeasure(db: Db, registry: Registry, turns: seq<Turn>, today: int)
    requires RetryBound(db) && Scheduled(db, registry, turns, today)
    requires |turns| >= Measure(db, today)
    ensures Settled(AfterAll(db, registry, turns))
    decreases |turns|
  {
    if turns == [] {
      NoWeightMeansSettled(db.events);
    } else if turns[0].Idle? {
      SettledStays(db, registry, turns, today);
    } else {
      DispatchLowersMeasure(db, registry, turns[0].id, turns[0].attempt);
      SettlesWithinMeasure(After(db, registry, turns[0]), registry, turns[1..], today);
    }
  }

  lemma {:induction false} SettledStays(db: Db, registry: Registry, turns: seq<Turn>, today: int)
    requires Settled(db) && Scheduled(db, registry, turns, today)
    ensures AfterAll(db, registry, turns) == db
    decreases |turns|
  {
    if turns != [] {
      SettledStays(db, registry, turns[1..], today);
    }
  }

  // ---------- Workers that dispatch what they like, one at a time ----------

  datatype Delivery = Delivery(id: EventId, attempt: Attempt)

  function AfterDeliveries(db: Db, registry: Registry, deliveries: seq<Delivery>): Db
    decreases |deliveries|
  {
    if deliveries == [] then db
    else
      var d := deliveries[0];
      AfterDeliveries(Dispatch(db, registry, d.id, d.attempt), registry, deliveries[1..])
  }

  /** How many of the dispatches meet an open event. */
  function OpenDeliveries(db: Db, registry: Registry, deliveries: seq<Delivery>): nat
    decreases |deliveries|
  {
    if deliveries == [] then 0
    else
      var d := deliveries[0];
      (if d.id < |db.events| && IsOpen(db.events[d.id]) then 1 else 0)
      + OpenDeliveries(Dispatch(db, registry, d.id, d.attempt), registry, deliveries[1..])
  }

  lemma CompletionKeepsMeasure(db: Db, id: EventId, today: int)
    requires RetryBound(db) && id < |db.events|
    ensures RetryBound(RecordCompletion(db, id)) && Measure(RecordCompletion(db, id), today) <= Measure(db, today)
  {
    var db' := RecordCompletion(db, id);
    WeightUpdate(db.events, id, db'.events[id]);
    assert StaleSet(db', today) == StaleSet(db, today);
  }

  lemma DeadLettersKeepMeasure(db: Db, id: EventId, active: ConsumerName, clock: Clock)
    requires RetryBound(db) && id < |db.events| && db.events[id].status == DeadLetter
    ensures var db' := RecordFailure(db, id, active, clock.now);
            RetryBound(db') && Measure(db', clock.today) == Measure(db, clock.today)
  {
    var db' := RecordFailure(db, id, active, clock.now);
    WeightUpdate(db.events, id, db'.events[id]);
    assert StaleSet(db', clock.today) == StaleSet(db, clock.today);
  }

  /** A dispatch of any event, dead-lettered or not yet due, never raises the measure. */
  lemma AnyDispatchKeepsMeasure(db: Db, registry: Registry, id: EventId, a: Attempt)
    requires RetryBound(db)
    ensures var db' := Dispatch(db, registry, id, a);
            RetryBound(db') && Measure(db', a.clock.today) <= Measure(db, a.clock.today)
  {
    if id < |db.events| && db.events[id].status != Completed {
      if IsOpen(db.events[id]) {
        DispatchLowersMeasure(db, registry, id, a);
      } else {
        var names := Consumers(registry, db.events[id].eventType);
        var ran := RunAll(db, id, names, a);
        if ran.Finished? && !a.commitFails {
          PassKeepsMeasure(db, id, names, a);
          CompletionKeepsMeasure(ran.db, id, a.clock.today);
        } else {
          DeadLettersKeepMeasure(db, id, if ran.Raised? then ran.name else LastActive(names), a.clock);
        }
      }
    }
  }

  /** Over any dispatches of any events that do not overlap, such as the retries workers make on their own, at most as
      many as the measure meet an open event, and once so many have, every event is settled. */
  lemma {:induction false} WorkIsBounded(db: Db, registry: Registry, deliveries: seq<Delivery>, today: int)
    requires RetryBound(db) && forall i | 0 <= i < |deliveries| :: deliveries[i].attempt.clock.today == today
    ensures OpenDeliveries(db, registry, deliveries) <= Measure(db, today)
    ensures OpenDeliveries(db, registry, deliveries) == Measure(db, today) ==>
              Settled(AfterDeliveries(db, registry, deliveries))
    decreases |deliveries|
  {
    if deliveries == [] {
      if Measure(db, today) == 0 {
        NoWeightMeansSettled(db.events);
      }
    } else {
      var d := deliveries[0];
      AnyDispatchKeepsMeasure(db, registry, d.id, d.attempt);
      if d.id < |db.events| && IsOpen(db.events[d.id]) {
        DispatchLowersMeasure(db, registry, d.id, d.attempt);
      }
      WorkIsBounded(Dispatch(db, registry, d.id, d.attempt), registry, deliveries[1..], today);
    }
  }

  // ---------- The scheduler finds an open event as long as there is one ----------

  lemma {:induction false} DueIdsAreTheDue(events: seq<Event>, now: int)
    ensures forall i :: i in DueIds(events, now) <==> 0 <= i < |events| && IsDue(events[i], now)
    ensures forall j, k | 0 <= j < k < |DueIds(events, now)| :: DueIds(events, now)[j] < DueIds(events, now)[k]
  {
    if events != [] {
      DueIdsAreTheDue(events[..|events| - 1], now);
      var before := DueIds(events[..|events| - 1], now);
      assert forall j | 0 <= j < |before| :: before[j] in before;
    }
  }

  /** The page holds only open events whose time has come, oldest first, at most a hundred, and it is empty
      only when none is due. */
  lemma PageIsTheOldestDue(db: Db, now: int)
    ensures var page := PendingEventIds(db, now);
            && |page| <= 100
            && (forall k | 0 <= k < |page| ::
                  && page[k] < |db.events| && db.events[page[k]].status in {Pending, Retry}
                  && IsDue(db.events[page[k]], now))
            && (forall i | 0 <= i < |db.events| && IsDue(db.events[i], now) && i !in page ::
                  |page| == 100 && forall k | 0 <= k < |page| :: page[k] < i)
  {
    var ids := DueIds(db.events, now);
    var page := PendingEventIds(db, now);
    DueIdsAreTheDue(db.events, now);
    assert forall k | 0 <= k < |page| :: page[k] == ids[k] && ids[k] in ids;
    forall i | 0 <= i < |db.events| && IsDue(db.events[i], now) && i !in page
      ensures |page| == PAGE && forall k | 0 <= k < |page| :: page[k] < i
    {
      assert i in ids;
      var j :| 0 <= j < |ids| && ids[j] == i;
      assert j >= |page|;
    }
  }

  /** A failed dispatch that leaves the event open makes it due again within sixteen seconds: the cap of three
      hundred on the backoff is never reached. */
  lemma FailedEventsAreSoonDue(db: Db, id: EventId, active: ConsumerName, now: int)
    requires id < |db.events| && IsOpen(RecordFailure(db, id, active, now).events[id])
    ensures IsDue(RecordFailure(db, id, active, now).events[id], now + 16)
  {
    var attempts := db.events[id].attempts + 1;
    assert attempts <= 4;
    assert Pow2(4) == 2 * Pow2(3) == 4 * Pow2(2) == 8 * Pow2(1) == 16;
    assert Pow2(3) == 8 && Pow2(2) == 4 && Pow2(1) == 2;
  }

  /** After the first to the fourth failure an event waits two, four, eight or sixteen seconds: the scheduler finds it
      exactly from then on. */
  lemma FailedEventWaitsIff(db: Db, id: EventId, active: ConsumerName, now: int, time: int)
    requires id < |db.events| && db.events[id].attempts < 4
    ensures var events := RecordFailure(db, id, active, now).events;
            && events[id].status == Retry
            && (id in DueIds(events, time) <==> time >= now + [2, 4, 8, 16][db.events[id].attempts])
  {
    var events := RecordFailure(db, id, active, now).events;
    DueIdsAreTheDue(events, time);
    assert Pow2(4) == 2 * Pow2(3) == 4 * Pow2(2) == 8 * Pow2(1) == 16;
    assert Pow2(3) == 8 && Pow2(2) == 4 && Pow2(1) == 2;
  }

  function AfterFailures(db: Db, id: EventId, failures: seq<(ConsumerName, int)>): Db
    requires id < |db.events|
    ensures |AfterFailures(db, id, failures).events| == |db.events|
  {
    if failures == [] then db
    else
      var (active, now) := failures[|failures| - 1];
      RecordFailure(AfterFailures(db, id, failures[..|failures| - 1]), id, active, now)
  }

  /** The fifth failure of a new event, and every later one, leaves it dead-lettered, and the scheduler never finds it
      again; every earlier one leaves it to be retried. */
  lemma {:induction false} FifthFailureIsTheLast(
    db: Db, id: EventId, failures: seq<(ConsumerName, int)>, time: int)
    requires id < |db.events| && db.events[id].attempts == 0 && failures != []
    ensures var events := AfterFailures(db, id, failures).events;
            && events[id].attempts == |failures|
            && events[id].status == (if |failures| >= 5 then DeadLetter else Retry)
            && (|failures| >= 5 ==> id !in DueIds(events, time))
  {
    if |failures| > 1 {
      FifthFailureIsTheLast(db, id, failures[..|failures| - 1], time);
    }
    DueIdsAreTheDue(AfterFailures(db, id, failures).events, time);
  }
}
