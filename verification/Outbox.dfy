/** The transactional outbox: events fan out to named consumers with per-consumer receipts. */
module Outbox {
  import opened Wrappers
  import C = CycleProjection

  type EventId = nat
  type RequirementId = string
  type ConsumerName = string

  const MAX_ATTEMPTS: nat := 5
  const PAGE: nat := 100
  const WILDCARD := "*"
  const DISPATCHER: ConsumerName := "dispatcher"
  const CYCLE_EVALUATOR: ConsumerName := "cycle_evaluator"
  const CYCLE_EVALUATED := "procurement.cycle.evaluated"

  // ---------- Stored rows ----------

  datatype EventStatus = Pending | Retry | Completed | DeadLetter

  /** Business events come from other modules; the evaluator writes `CycleOf` events. */
  datatype Aggregate = Business | CycleOf(root: RequirementId, event: C.CycleEvent)

  /** An event row. Its identifier is its position in creation order, so rows are never removed. */
  datatype Event = Event(
    eventType: string, requirement: Option<RequirementId>, objective: Option<RequirementId>,
    aggregate: Aggregate, status: EventStatus, attempts: nat, nextAttempt: Option<int>)

  datatype ReceiptStatus = Succeeded | Failed

  datatype Receipt = Receipt(status: ReceiptStatus, attempts: nat)

  /** `effects` counts, per event and consumer, the committed runs of that consumer's domain changes. */
  datatype Db = Db(
    events: seq<Event>, receipts: map<(EventId, ConsumerName), Receipt>,
    cycles: map<RequirementId, C.StoredCycle>, facts: map<RequirementId, C.Facts>,
    effects: multiset<(EventId, ConsumerName)>)

  const EMPTY := Db([], map[], map[], map[], multiset{})

  datatype Clock = Clock(today: int, now: int)

  predicate IsOpen(e: Event) {
    e.status in {Pending, Retry}
  }

  predicate HasSucceeded(db: Db, id: EventId, name: ConsumerName) {
    (id, name) in db.receipts && db.receipts[(id, name)].status == Succeeded
  }

  /** The cycle events written for one requirement, oldest first. */
  function CycleLog(events: seq<Event>, r: RequirementId): seq<C.CycleEvent> {
    if events == [] then []
    else
      var last := events[|events| - 1];
      CycleLog(events[..|events| - 1], r)
      + if last.aggregate.CycleOf? && last.aggregate.root == r then [last.aggregate.event] else []
  }

  // ---------- Consumers ----------

  /** The requirement an event speaks about, directly or through its objective, if both exist. */
  function RequirementOf(db: Db, e: Event): (r: Option<RequirementId>)
    ensures r.Some? ==> r.value in db.facts
  {
    var named := if e.requirement.Some? then e.requirement
                 else if e.objective.Some? && e.objective.value in db.cycles then e.objective
                 else None;
    if named.Some? && named.value in db.facts then named else None
  }

  function CycleOrNew(db: Db, r: RequirementId): C.StoredCycle
    requires r in db.facts
  {
    if r in db.cycles then db.cycles[r] else C.NewCycle(db.facts[r])
  }

  function CycleRows(r: RequirementId, emitted: seq<C.CycleEvent>): seq<Event> {
    if emitted == [] then []
    else [Event(CYCLE_EVALUATED, Some(r), None, CycleOf(r, emitted[0]), Pending, 0, None)]
  }

  /** The cycle evaluator's write: the refreshed cycle and, if it was stale, one more pending event. */
  function EvaluateCycle(db: Db, r: RequirementId, clock: Clock): Db
    requires r in db.facts
  {
    var c := CycleOrNew(db, r);
    var emitted := C.Emitted(c, CycleLog(db.events, r), db.facts[r], clock.today);
    db.(cycles := db.cycles[r := C.Evaluated(c, db.facts[r], clock.today, clock.now)],
        events := db.events + CycleRows(r, emitted))
  }

  /** One consumer's domain changes inside the open transaction. */
  function Act(db: Db, id: EventId, name: ConsumerName, clock: Clock): Db
    requires id < |db.events|
  {
    var r := RequirementOf(db, db.events[id]);
    var changed := if name == CYCLE_EVALUATOR && r.Some? then EvaluateCycle(db, r.value, clock) else db;
    changed.(effects := changed.effects + multiset{(id, name)})
  }

  function NextReceipt(db: Db, id: EventId, name: ConsumerName, status: ReceiptStatus): Receipt {
    Receipt(status, if (id, name) in db.receipts then db.receipts[(id, name)].attempts + 1 else 1)
  }

  function RunConsumer(db: Db, id: EventId, name: ConsumerName, clock: Clock): Db
    requires id < |db.events|
  {
    var acted := Act(db, id, name, clock);
    acted.(receipts := acted.receipts[(id, name) := NextReceipt(db, id, name, Succeeded)])
  }

  /** What goes wrong in one dispatch: the consumers whose receipt cannot be read, the consumers that raise, and whether
      the commit fails. */
  datatype Attempt = Attempt(unreadable: set<ConsumerName>, failing: set<ConsumerName>, commitFails: bool, clock: Clock)

  datatype Ran = Finished(db: Db) | Raised(name: ConsumerName)

  /** All outstanding consumers in order, up to the first one that raises or whose receipt cannot be read. */
  function RunAll(db: Db, id: EventId, names: seq<ConsumerName>, a: Attempt): (ran: Ran)
    requires id < |db.events|
    ensures ran.Finished? ==> db.events <= ran.db.events && ran.db.facts == db.facts
    ensures ran.Raised? ==> ran.name in names
    decreases |names|
  {
    if names == [] then Finished(db)
    else if names[0] in a.unreadable then Raised(names[0])
    else if HasSucceeded(db, id, names[0]) then RunAll(db, id, names[1..], a)
    else if names[0] in a.failing then Raised(names[0])
    else RunAll(RunConsumer(db, id, names[0], a.clock), id, names[1..], a)
  }

  /** After a finished pass every consumer of the list has succeeded, and none has lost its success. */
  lemma {:induction false} PassSucceeds(db: Db, id: EventId, names: seq<ConsumerName>, a: Attempt)
    requires id < |db.events| && RunAll(db, id, names, a).Finished?
    ensures forall n | n in names || HasSucceeded(db, id, n) :: HasSucceeded(RunAll(db, id, names, a).db, id, n)
    decreases |names|
  {
    if names != [] {
      PassSucceeds(if HasSucceeded(db, id, names[0]) then db else RunConsumer(db, id, names[0], a.clock),
                   id, names[1..], a);
    }
  }

  // ---------- Dispatch, replay and scheduling ----------

  function Pow2(n: nat): nat {
    if n == 0 then 1 else 2 * Pow2(n - 1)
  }

  function Backoff(attempts: nat): nat {
    if Pow2(attempts) < 300 then Pow2(attempts) else 300
  }

  /** The failure record, written after the rollback in a transaction of its own. */
  function RecordFailure(db: Db, id: EventId, active: ConsumerName, now: int): Db
    requires id < |db.events|
  {
    var e := db.events[id];
    var attempts := e.attempts + 1;
    var dead := attempts >= MAX_ATTEMPTS;
    db.(events := db.events[id := e.(attempts := attempts, status := if dead then DeadLetter else Retry,
                                     nextAttempt := if dead then None else Some(now + Backoff(attempts)))],
        receipts := db.receipts[(id, active) := NextReceipt(db, id, active, Failed)])
  }

  function RecordCompletion(db: Db, id: EventId): Db
    requires id < |db.events|
  {
    db.(events := db.events[id := db.events[id].(status := Completed, nextAttempt := None)])
  }

  type Registry = map<string, seq<ConsumerName>>

  function Subscribed(registry: Registry, eventType: string): seq<ConsumerName> {
    if eventType in registry then registry[eventType] else []
  }

  function Consumers(registry: Registry, eventType: string): seq<ConsumerName> {
    Subscribed(registry, eventType) + Subscribed(registry, WILDCARD)
  }

  /** The consumer is registered for this type of event, or for every type. */
  predicate Listens(registry: Registry, eventType: string, name: ConsumerName) {
    || (eventType in registry && name in registry[eventType])
    || ("*" in registry && name in registry["*"])
  }

  /** The consumer named by the handler when the transaction fails after the loop: the last one listed. */
  function LastActive(names: seq<ConsumerName>): ConsumerName {
    if names == [] then DISPATCHER else names[|names| - 1]
  }

  /** What the first transaction of a dispatch leaves: a committed database, or nothing but the consumer to charge. */
  datatype Tried = Kept(db: Db) | RolledBack(active: ConsumerName)

  /** The first transaction of a dispatch, under the lock on the event's row. */
  function Try(db: Db, registry: Registry, id: EventId, a: Attempt): (tried: Tried)
    ensures tried.RolledBack? ==> id < |db.events| && db.events[id].status != Completed
  {
    if id >= |db.events| || db.events[id].status == Completed then Kept(db)
    else
      var names := Consumers(registry, db.events[id].eventType);
      match RunAll(db, id, names, a)
      case Raised(name) => RolledBack(name)
      case Finished(done) => if a.commitFails then RolledBack(LastActive(names)) else Kept(RecordCompletion(done, id))
  }

  /** A delivery succeeds for every consumer registered for the event's type and for every type. */
  lemma DeliveryReachesAll(db: Db, registry: Registry, id: EventId, a: Attempt)
    requires id < |db.events| && db.events[id].status != Completed && Try(db, registry, id, a).Kept?
    ensures forall n | Listens(registry, db.events[id].eventType, n) ::
              HasSucceeded(Try(db, registry, id, a).db, id, n)
  {
    var t := db.events[id].eventType;
    PassSucceeds(db, id, Consumers(registry, t), a);
    assert forall n | Listens(registry, t, n) :: n in Consumers(registry, t);
  }

  /** A dispatch with no other transaction between its own two. */
  function Dispatch(db: Db, registry: Registry, id: EventId, a: Attempt): Db {
    match Try(db, registry, id, a)
    case Kept(db') => db'
    case RolledBack(active) => RecordFailure(db, id, active, a.clock.now)
  }

  function Replay(db: Db, id: EventId): Db {
    if id >= |db.events| then db
    else db.(events := db.events[id := db.events[id].(status := Pending, attempts := 0, nextAttempt := None)])
  }

  predicate IsDue(e: Event, now: int) {
    IsOpen(e) && (e.nextAttempt.None? || e.nextAttempt.value <= now)
  }

  function DueIds(events: seq<Event>, now: int): seq<EventId> {
    if events == [] then []
    else
      var n := |events| - 1;
      DueIds(events[..n], now) + if IsDue(events[n], now) then [n] else []
  }

  function FirstPage<T>(ids: seq<T>): seq<T> {
    if |ids| <= PAGE then ids else ids[..PAGE]
  }

  function PendingEventIds(db: Db, now: int): seq<EventId> {
    FirstPage(DueIds(db.events, now))
  }

  datatype Outcome = NotFound | Delivered | Failure

  /** A database session: changes gather in `working` and reach `committed` only by a commit. */
  class Session {
    var committed: Db
    var working: Db
    var registry: Registry

    constructor (db: Db, consumers: Registry)
      ensures committed == working == db && registry == consumers
    {
      committed, working, registry := db, db, consumers;
    }

    method Commit()
      modifies `committed
      ensures committed == working
    {
      committed := working;
    }

    method Rollback()
      modifies `working
      ensures working == committed
    {
      working := committed;
    }

    /** Runs one consumer's domain changes; the cycle evaluator loads its objective and stores it back. */
    method RunActive(id: EventId, name: ConsumerName, clock: Clock)
      requires id < |working.events|
      modifies `working
      ensures working == Act(old(working), id, name, clock)
    {
      var r := RequirementOf(working, working.events[id]);
      if name == CYCLE_EVALUATOR && r.Some? {
        var facts := working.facts[r.value];
        var log := CycleLog(working.events, r.value);
        var objective := new C.Objective(CycleOrNew(working, r.value), log);
        objective.Evaluate(facts, clock.today, clock.now);
        working := working.(cycles := working.cycles[r.value := objective.Value()],
                            events := working.events + CycleRows(r.value, objective.log[|log|..]));
      }
      working := working.(effects := working.effects + multiset{(id, name)});
    }

    /** The loop over the consumers, inside the open transaction. */
    method RunConsumers(id: EventId, names: seq<ConsumerName>, a: Attempt) returns (raised: bool, active: ConsumerName)
      requires id < |working.events|
      modifies `working
      ensures var ran := RunAll(old(working), id, names, a);
              if raised then ran == Raised(active) else ran == Finished(working) && active == LastActive(names)
    {
      active := DISPATCHER;
      raised := false;
      var i := 0;
      while i < |names| && !raised
        invariant 0 <= i <= |names| && id < |working.events|
        invariant active == LastActive(names[..i])
        invariant RunAll(old(working), id, names, a)
                  == if raised then Raised(active) else RunAll(working, id, names[i..], a)
        decreases |names| - i, !raised
      {
        active := names[i];
        assert names[..i + 1][i] == active;
        assert names[i..][0] == active && names[i..][1..] == names[i + 1..];
        if active in a.unreadable {
          raised := true;
        } else if !HasSucceeded(working, id, active) {
          var receipt := NextReceipt(working, id, active, Succeeded);
          RunActive(id, active, a.clock);
          if active in a.failing {
            raised := true;
          } else {
            working := working.(receipts := working.receipts[(id, active) := receipt]);
          }
        }
        i := i + 1;
      }
      if !raised {
        assert names[..i] == names;
      }
    }

    /** The first transaction of a dispatch. */
    method TryOne(id: EventId, a: Attempt) returns (outcome: Outcome, active: ConsumerName)
      requires working == committed
      modifies `committed, `working
      ensures working == committed
      ensures match Try(old(committed), registry, id, a)
              case Kept(db) => committed == db && outcome != Failure
              case RolledBack(name) => committed == old(committed) && outcome == Failure && active == name
      ensures outcome == NotFound <==> id >= |old(committed).events|
      ensures outcome == Delivered <==> id < |committed.events| && committed.events[id].status == Completed
      ensures outcome == Delivered && old(committed).events[id].status != Completed ==>
                forall n | Listens(registry, old(committed).events[id].eventType, n) :: HasSucceeded(committed, id, n)
    {
      active := DISPATCHER;
      if id >= |working.events| {
        return NotFound, active;
      }
      if working.events[id].status == Completed {
        return Delivered, active;
      }
      var raised;
      raised, active := RunConsumers(id, Consumers(registry, working.events[id].eventType), a);
      if !raised {
        working := RecordCompletion(working, id);
        if !a.commitFails {
          Commit();
          DeliveryReachesAll(old(working), registry, id, a);
          return Delivered, active;
        }
      }
      Rollback();
      return Failure, active;
    }

    /** The handler's transaction: it reads the event again and writes the failure, whatever it finds. */
    method RecordOne(id: EventId, active: ConsumerName, now: int)
      requires id < |committed.events|
      modifies `committed, `working
      ensures working == committed == RecordFailure(old(committed), id, active, now)
    {
      Rollback();
      working := RecordFailure(working, id, active, now);
      Commit();
    }

    /** A whole dispatch. `others` is what other sessions commit after the rollback released the event's row. */
    method DispatchOne(id: EventId, a: Attempt, others: Db -> Db, now: int) returns (outcome: Outcome)
      requires working == committed && forall db :: |others(db).events| >= |db.events|
      modifies `committed, `working
      ensures working == committed
      ensures match Try(old(committed), registry, id, a)
              case Kept(db) => committed == db && outcome != Failure
              case RolledBack(active) =>
                committed == RecordFailure(others(old(committed)), id, active, now) && outcome == Failure
    {
      var active;
      outcome, active := TryOne(id, a);
      if outcome == Failure {
        committed := others(committed);
        RecordOne(id, active, now);
      }
    }

    method ReplayOne(id: EventId) returns (found: bool)
      requires working == committed
      modifies `committed, `working
      ensures working == committed == Replay(old(committed), id)
      ensures found <==> id < |old(committed).events|
    {
      if id >= |working.events| {
        return false;
      }
      working := Replay(working, id);
      Commit();
      return true;
    }
  }
}
