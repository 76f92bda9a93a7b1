/** Exactly-once consumer effects, and the one way in which they fail. */
module OutboxDelivery {
  import opened Wrappers
  import opened Outbox
  import C = CycleProjection

  /** Every consumer's effect is committed once if its receipt says so and not at all otherwise. */
  ghost predicate ExactlyOnce(db: Db) {
    forall id, name :: db.effects[(id, name)] == if HasSucceeded(db, id, name) then 1 else 0
  }

  /** A finished pass runs exactly the outstanding consumers of the one event, each once. */
  lemma {:induction false} RunAllRunsTheOutstanding(
    db: Db, id: EventId, names: seq<ConsumerName>, a: Attempt)
    requires id < |db.events|
    requires RunAll(db, id, names, a).Finished?
    ensures var done := RunAll(db, id, names, a).db;
            forall i, n ::
              && (HasSucceeded(done, i, n) <==> HasSucceeded(db, i, n) || (i == id && n in names))
              && done.effects[(i, n)]
                 == db.effects[(i, n)] + if i == id && n in names && !HasSucceeded(db, i, n) then 1 else 0
    decreases |names|
  {
    if names != [] {
      var next := if HasSucceeded(db, id, names[0]) then db else RunConsumer(db, id, names[0], a.clock);
      RunAllRunsTheOutstanding(next, id, names[1..], a);
      assert forall n :: n in names <==> n == names[0] || n in names[1..];
    }
  }

  /** A pass over consumers that have all succeeded does nothing, whatever would raise. */
  lemma {:induction false} RunAllSkipsTheDone(
    db: Db, id: EventId, names: seq<ConsumerName>, a: Attempt)
    requires id < |db.events|
    requires forall n | n in names :: HasSucceeded(db, id, n) && n !in a.unreadable
    ensures RunAll(db, id, names, a) == Finished(db)
    decreases |names|
  {
    if names != [] {
      RunAllSkipsTheDone(db, id, names[1..], a);
    }
  }

  /** The consumer at which the loop stops, told from the database before the dispatch. */
  function FirstStop(db: Db, id: EventId, names: seq<ConsumerName>, a: Attempt): Option<ConsumerName> {
    if names == [] then None
    else if names[0] in a.unreadable || (names[0] in a.failing && !HasSucceeded(db, id, names[0])) then Some(names[0])
    else FirstStop(db, id, names[1..], a)
  }

  lemma {:induction false} FirstStopStays(
    db: Db, db': Db, id: EventId, names: seq<ConsumerName>, a: Attempt, ran: ConsumerName)
    requires ran !in a.failing
    requires forall n | n != ran :: HasSucceeded(db', id, n) <==> HasSucceeded(db, id, n)
    ensures FirstStop(db', id, names, a) == FirstStop(db, id, names, a)
  {
    if names != [] {
      FirstStopStays(db, db', id, names[1..], a, ran);
    }
  }

  lemma {:induction false} RunAllStops(db: Db, id: EventId, names: seq<ConsumerName>, a: Attempt)
    requires id < |db.events|
    ensures var ran, stop := RunAll(db, id, names, a), FirstStop(db, id, names, a);
            if stop.Some? then ran == Raised(stop.value) else ran.Finished?
    decreases |names|
  {
    if names != [] && names[0] !in a.unreadable {
      if HasSucceeded(db, id, names[0]) {
        RunAllStops(db, id, names[1..], a);
      } else if names[0] !in a.failing {
        var next := RunConsumer(db, id, names[0], a.clock);
        RunAllStops(next, id, names[1..], a);
        FirstStopStays(db, next, id, names[1..], a, names[0]);
      }
    }
  }

  /** The dispatch charges a completed consumer by itself: the handler names the consumer that the loop looked at last,
      and an earlier dispatch had already committed its effect. Either its receipt could not be read, or the commit
      failed after the loop. */
  predicate ChargesACompletedConsumer(db: Db, registry: Registry, id: EventId, a: Attempt) {
    && id < |db.events|
    && db.events[id].status != Completed
    && var names := Consumers(registry, db.events[id].eventType);
       var stop := FirstStop(db, id, names, a);
       if stop.Some? then HasSucceeded(db, id, stop.value)
       else a.commitFails && HasSucceeded(db, id, LastActive(names))
  }

  /** One dispatch with no other transaction between its own two, with any lookups failing, consumers raising and the
      commit failing or not, keeps exactly-once precisely when it does not take that branch. */
  lemma DispatchKeepsExactlyOnceIff(db: Db, registry: Registry, id: EventId, a: Attempt)
    requires ExactlyOnce(db)
    ensures ExactlyOnce(Dispatch(db, registry, id, a)) <==> !ChargesACompletedConsumer(db, registry, id, a)
  {
    if id < |db.events| && db.events[id].status != Completed {
      var names := Consumers(registry, db.events[id].eventType);
      var ran := RunAll(db, id, names, a);
      RunAllStops(db, id, names, a);
      if ran.Raised? {
        FailureChangesOneReceipt(db, id, ran.name, a.clock.now);
      } else if a.commitFails {
        FailureChangesOneReceipt(db, id, LastActive(names), a.clock.now);
      } else {
        RunAllRunsTheOutstanding(db, id, names, a);
        CompletionKeepsReceipts(ran.db, id);
      }
    }
  }

  lemma FailureChangesOneReceipt(db: Db, id: EventId, active: ConsumerName, now: int)
    requires id < |db.events|
    ensures var failed := RecordFailure(db, id, active, now);
            && failed.effects == db.effects
            && !HasSucceeded(failed, id, active)
            && forall i: EventId, n ::
                 (i, n) != (id, active) ==> (HasSucceeded(failed, i, n) <==> HasSucceeded(db, i, n))
  {}

  lemma CompletionKeepsReceipts(db: Db, id: EventId)
    requires id < |db.events|
    ensures var done := RecordCompletion(db, id);
            && done.effects == db.effects
            && forall i, n :: HasSucceeded(done, i, n) <==> HasSucceeded(db, i, n)
  {}

  /** Replaying an event whose consumers have all succeeded and dispatching it again changes nothing but that
      event's own delivery fields: no effect, receipt, cycle or other event. */
  lemma ReplayChangesNoDomainState(db: Db, registry: Registry, id: EventId, a: Attempt)
    requires id < |db.events| && a.unreadable == {} && !a.commitFails
    requires forall n | Listens(registry, db.events[id].eventType, n) :: HasSucceeded(db, id, n)
    ensures Dispatch(Replay(db, id), registry, id, a)
            == db.(events := db.events[id := db.events[id].(status := Completed, attempts := 0, nextAttempt := None)])
  {
    var replayed := Replay(db, id);
    var names := Consumers(registry, db.events[id].eventType);
    forall n | n in names ensures HasSucceeded(replayed, id, n) {
      assert Listens(registry, db.events[id].eventType, n);
    }
    RunAllSkipsTheDone(replayed, id, names, a);
  }

  /** One list of consumers, and behind it another. */
  function RunBoth(db: Db, id: EventId, own: seq<ConsumerName>, wild: seq<ConsumerName>, a: Attempt): Ran
    requires id < |db.events|
  {
    var first := RunAll(db, id, own, a);
    if first.Raised? then first else RunAll(first.db, id, wild, a)
  }

  lemma {:induction false} RunAllOfBoth(
    db: Db, id: EventId, own: seq<ConsumerName>, wild: seq<ConsumerName>, a: Attempt)
    requires id < |db.events|
    ensures RunAll(db, id, own + wild, a) == RunBoth(db, id, own, wild, a)
    decreases |own|
  {
    if own == [] {
      assert own + wild == wild;
    } else {
      assert (own + wild)[1..] == own[1..] + wild;
      if own[0] !in a.unreadable {
        if HasSucceeded(db, id, own[0]) {
          RunAllOfBoth(db, id, own[1..], wild, a);
        } else if own[0] !in a.failing {
          RunAllOfBoth(RunConsumer(db, id, own[0], a.clock), id, own[1..], wild, a);
        }
      }
    }
  }

  /** The consumers registered for the event's type run first, then those registered for every type, all in one
      transaction: the first that stops either pass is charged, and the event is completed only behind both. */
  lemma DeliveryRunsOwnThenWildcard(db: Db, registry: Registry, id: EventId, a: Attempt)
    requires id < |db.events| && db.events[id].status != Completed
    ensures var t := db.events[id].eventType;
            var own := if t in registry then registry[t] else [];
            var wild := if "*" in registry then registry["*"] else [];
            var ran := RunBoth(db, id, own, wild, a);
            if ran.Raised? then Try(db, registry, id, a) == RolledBack(ran.name)
            else if a.commitFails then Try(db, registry, id, a).RolledBack?
            else Try(db, registry, id, a) == Kept(RecordCompletion(ran.db, id))
  {
    var t := db.events[id].eventType;
    RunAllOfBoth(db, id, if t in registry then registry[t] else [], if "*" in registry then registry["*"] else [], a);
  }

  /** A successful dispatch commits one run of each consumer registered for the event's type or for every type and
      without a completed receipt, among them consumers registered since an earlier delivery, and no run of any other
      consumer. */
  lemma DeliveryRunsTheOutstandingOnce(db: Db, registry: Registry, id: EventId, a: Attempt, i: EventId, n: ConsumerName)
    requires id < |db.events| && db.events[id].status != Completed
    requires Dispatch(db, registry, id, a).events[id].status == Completed
    ensures var done, t := Dispatch(db, registry, id, a), db.events[id].eventType;
            && done.effects[(i, n)]
               == db.effects[(i, n)]
                  + (if i == id && Listens(registry, t, n) && !HasSucceeded(db, i, n) then 1 else 0)
            && (Listens(registry, t, n) ==> HasSucceeded(done, id, n))
  {
    var names := Consumers(registry, db.events[id].eventType);
    RunAllRunsTheOutstanding(db, id, names, a);
    assert n in names <==> Listens(registry, db.events[id].eventType, n);
  }

  /** Receipts count their attempts: a delivery adds one for each consumer it runs, a failure record one for the
      consumer it charges. */
  lemma {:induction false} PassCountsAttempts(
    db: Db, id: EventId, names: seq<ConsumerName>, a: Attempt, n: ConsumerName)
    requires id < |db.events| && RunAll(db, id, names, a).Finished?
    ensures var done := RunAll(db, id, names, a).db;
            Attempts(done, id, n) == Attempts(db, id, n) + if n in names && !HasSucceeded(db, id, n) then 1 else 0
    decreases |names|
  {
    if names != [] {
      PassCountsAttempts(if HasSucceeded(db, id, names[0]) then db else RunConsumer(db, id, names[0], a.clock),
                         id, names[1..], a, n);
    }
  }

  function Attempts(db: Db, id: EventId, n: ConsumerName): nat {
    if (id, n) in db.receipts then db.receipts[(id, n)].attempts else 0
  }

  lemma FailureCountsOneAttempt(db: Db, id: EventId, active: ConsumerName, now: int, n: ConsumerName)
    requires id < |db.events|
    ensures Attempts(RecordFailure(db, id, active, now), id, n) == Attempts(db, id, n) + if n == active then 1 else 0
  {}

  // ---------- Whole runs ----------

  /** A failure that a dispatch has rolled back and not recorded yet. */
  datatype Note = Note(id: EventId, active: ConsumerName)

  /** The registry belongs to the process and changes only by registering a new name; `notes` are the failures still to
      be recorded by their workers; everything else is in the database. */
  datatype World = World(db: Db, registry: Registry, notes: seq<Note>)

  datatype Step =
    | Publish(eventType: string, requirement: Option<RequirementId>, objective: Option<RequirementId>)
    | TryStep(id: EventId, attempt: Attempt)
    | RecordStep(index: nat, now: int)
    | LoseStep(index: nat)
    | ReplayStep(id: EventId)
    | Subscribe(eventType: string, name: ConsumerName)
    | RecordFacts(root: RequirementId, facts: C.Facts)
    | EvaluateNow(root: RequirementId, clock: Clock)

  predicate IsRegistered(registry: Registry, name: ConsumerName) {
    name == DISPATCHER || exists t | t in registry :: name in registry[t]
  }

  function Without<T>(s: seq<T>, k: nat): seq<T>
    requires k < |s|
  {
    s[..k] + s[k + 1..]
  }

  function RecordNote(db: Db, note: Note, now: int): Db {
    if note.id < |db.events| then RecordFailure(db, note.id, note.active, now) else db
  }

  /** Each step is one transaction. A failed dispatch is two: it rolls back, and later its worker records the failure,
      or dies before. Consumer names are distinct, so a name in use is not registered again, and no event has the
      wildcard type. */
  function Next(w: World, s: Step): World {
    match s
    case Publish(t, r, o) =>
      if t == WILDCARD then w else
      w.(db := w.db.(events := w.db.events + [Event(t, r, o, Business, Pending, 0, None)]))
    case TryStep(id, a) =>
      (match Try(w.db, w.registry, id, a)
       case Kept(db) => w.(db := db)
       case RolledBack(active) => w.(notes := w.notes + [Note(id, active)]))
    case RecordStep(k, now) =>
      if k >= |w.notes| then w
      else w.(db := RecordNote(w.db, w.notes[k], now), notes := Without(w.notes, k))
    case LoseStep(k) => if k >= |w.notes| then w else w.(notes := Without(w.notes, k))
    case ReplayStep(id) => w.(db := Replay(w.db, id))
    case Subscribe(t, n) =>
      if IsRegistered(w.registry, n) then w else w.(registry := w.registry[t := Subscribed(w.registry, t) + [n]])
    case RecordFacts(r, f) => w.(db := w.db.(facts := w.db.facts[r := f]))
    case EvaluateNow(r, clock) => if r in w.db.facts then w.(db := EvaluateCycle(w.db, r, clock)) else w
  }

  function Run(w: World, steps: seq<Step>): World
    decreases |steps|
  {
    if steps == [] then w else Run(Next(w, steps[0]), steps[1..])
  }

  /** A dispatch alone is its two transactions in a row. */
  lemma DispatchIsTwoSteps(w: World, id: EventId, a: Attempt)
    ensures var tried := Next(w, TryStep(id, a));
            if Try(w.db, w.registry, id, a).Kept?
            then tried == w.(db := Dispatch(w.db, w.registry, id, a))
            else Next(tried, RecordStep(|w.notes|, a.clock.now)) == w.(db := Dispatch(w.db, w.registry, id, a))
  {}

  /** Every state of the run, the first and the last included, is exactly-once. */
  ghost predicate AlwaysExactlyOnce(w: World, steps: seq<Step>)
    decreases |steps|
  {
    ExactlyOnce(w.db) && (steps != [] ==> AlwaysExactlyOnce(Next(w, steps[0]), steps[1..]))
  }

  /** A failure is recorded for a consumer that has succeeded by now, whether it had before its dispatch failed or
      another dispatch of the event came between. */
  predicate RecordsOverSuccess(w: World, s: Step) {
    && s.RecordStep? && s.index < |w.notes|
    && var note := w.notes[s.index];
       note.id < |w.db.events| && HasSucceeded(w.db, note.id, note.active)
  }

  predicate NeverOverSuccess(w: World, steps: seq<Step>)
    decreases |steps|
  {
    steps != [] ==> !RecordsOverSuccess(w, steps[0]) && NeverOverSuccess(Next(w, steps[0]), steps[1..])
  }

  /** Over every run from an exactly-once state: any interleaving of publications, dispatches that overlap or not, with
      lookups, consumers and commits failing, late and lost failure records, replays, new consumers and direct
      evaluations. */
  lemma {:induction false} RunIsExactlyOnceIff(w: World, steps: seq<Step>)
    requires ExactlyOnce(w.db)
    ensures AlwaysExactlyOnce(w, steps) <==> NeverOverSuccess(w, steps)
    decreases |steps|
  {
    if steps != [] {
      StepKeepsExactlyOnceIff(w, steps[0]);
      if ExactlyOnce(Next(w, steps[0]).db) {
        RunIsExactlyOnceIff(Next(w, steps[0]), steps[1..]);
      }
    }
  }

  lemma StepKeepsExactlyOnceIff(w: World, s: Step)
    requires ExactlyOnce(w.db)
    ensures ExactlyOnce(Next(w, s).db) <==> !RecordsOverSuccess(w, s)
  {
    match s
    case TryStep(id, a) => TryKeepsExactlyOnce(w.db, w.registry, id, a);
    case RecordStep(k, now) =>
      if k < |w.notes| && w.notes[k].id < |w.db.events| {
        FailureChangesOneReceipt(w.db, w.notes[k].id, w.notes[k].active, now);
      }
    case _ =>
      assert forall i, n :: HasSucceeded(Next(w, s).db, i, n) <==> HasSucceeded(w.db, i, n);
  }

  lemma TryKeepsExactlyOnce(db: Db, registry: Registry, id: EventId, a: Attempt)
    requires ExactlyOnce(db)
    ensures Try(db, registry, id, a).Kept? ==> ExactlyOnce(Try(db, registry, id, a).db)
  {
    if id < |db.events| && db.events[id].status != Completed {
      var names := Consumers(registry, db.events[id].eventType);
      var ran := RunAll(db, id, names, a);
      if ran.Finished? && !a.commitFails {
        RunAllRunsTheOutstanding(db, id, names, a);
        CompletionKeepsReceipts(ran.db, id);
      }
    }
  }

  // ---------- Two runs in which one consumer runs twice ----------

  const COUNTED := "stock.counted"

  function Delivery(clock: Clock): Step {
    TryStep(0, Attempt({}, {}, false, clock))
  }

  /** The world with one consumer and one event for it. */
  function OneEvent(name: ConsumerName): World {
    Next(Next(World(EMPTY, map[], []), Subscribe(COUNTED, name)), Publish(COUNTED, None, None))
  }

  lemma OneEventIs(name: ConsumerName)
    requires name != DISPATCHER
    ensures var w := OneEvent(name);
            && w.db == EMPTY.(events := [Event(COUNTED, None, None, Business, Pending, 0, None)])
            && w.notes == [] && Consumers(w.registry, COUNTED) == [name]
  {
    assert !IsRegistered(map[], name);
    assert Subscribed(map[COUNTED := [name]], WILDCARD) == [];
  }

  /** One worker: deliver, replay, fail to read the receipt or to commit, record that, deliver again. */
  lemma FailureOfAReplayRunsAConsumerTwice(name: ConsumerName, clock: Clock, a: Attempt, now: int)
    requires name != CYCLE_EVALUATOR && name != DISPATCHER && (name in a.unreadable || a.commitFails)
    ensures var ok := Delivery(clock);
            Run(OneEvent(name), [ok, ReplayStep(0), TryStep(0, a), RecordStep(0, now), ok]).db.effects[(0, name)] == 2
  {
    var ok := Delivery(clock);
    var w2 := OneEvent(name);
    OneEventIs(name);
    DeliversOnly(w2, name, clock);
    var w3 := Next(w2, ok);
    var w4 := Next(w3, ReplayStep(0));
    RunAllStops(w4.db, 0, [name], a);
    assert [name][1..] == [];
    var w5 := Next(w4, TryStep(0, a));
    assert w5.notes == [Note(0, name)] && w5.db == w4.db;
    var w6 := Next(w5, RecordStep(0, now));
    FailureChangesOneReceipt(w5.db, 0, name, now);
    DeliversOnly(w6, name, clock);
    RunOfFive(w2, ok, ReplayStep(0), TryStep(0, a), RecordStep(0, now), ok);
  }

  /** Two workers: the consumer raises for the first, the second waits for the row, delivers and commits, the first
      records its failure over the success, and the event is delivered again. No lookup and no commit fails. */
  lemma OverlappingDispatchesRunAConsumerTwice(name: ConsumerName, clock: Clock, now: int)
    requires name != CYCLE_EVALUATOR && name != DISPATCHER
    ensures var ok, raising := Delivery(clock), TryStep(0, Attempt({}, {name}, false, clock));
            Run(OneEvent(name), [raising, ok, RecordStep(0, now), ok]).db.effects[(0, name)] == 2
  {
    var ok, a := Delivery(clock), Attempt({}, {name}, false, clock);
    var w2 := OneEvent(name);
    OneEventIs(name);
    RunAllStops(w2.db, 0, [name], a);
    var w3 := Next(w2, TryStep(0, a));
    assert w3.notes == [Note(0, name)] && w3.db == w2.db;
    DeliversOnly(w3, name, clock);
    var w4 := Next(w3, ok);
    var w5 := Next(w4, RecordStep(0, now));
    FailureChangesOneReceipt(w4.db, 0, name, now);
    DeliversOnly(w5, name, clock);
    RunOfFour(w2, TryStep(0, a), ok, RecordStep(0, now), ok);
  }

  lemma RunCons(w: World, s: Step, rest: seq<Step>)
    ensures Run(w, [s] + rest) == Run(Next(w, s), rest)
  {
    assert ([s] + rest)[1..] == rest;
  }

  lemma RunOfFour(w: World, a: Step, b: Step, c: Step, d: Step)
    ensures Run(w, [a, b, c, d]) == Next(Next(Next(Next(w, a), b), c), d)
  {
    RunCons(w, a, [b, c, d]);
    RunCons(Next(w, a), b, [c, d]);
    RunCons(Next(Next(w, a), b), c, [d]);
    RunCons(Next(Next(Next(w, a), b), c), d, []);
    assert [a, b, c, d] == [a] + [b, c, d] && [b, c, d] == [b] + [c, d] && [c, d] == [c] + [d] && [d] == [d] + [];
  }

  lemma RunOfFive(w: World, a: Step, b: Step, c: Step, d: Step, e: Step)
    ensures Run(w, [a, b, c, d, e]) == Next(Next(Next(Next(Next(w, a), b), c), d), e)
  {
    assert [a, b, c, d, e] == [a] + [b, c, d, e];
    RunCons(w, a, [b, c, d, e]);
    RunOfFour(Next(w, a), b, c, d, e);
  }

  lemma DeliversOnly(w: World, name: ConsumerName, clock: Clock)
    requires |w.db.events| > 0 && w.db.events[0].status != Completed
    requires Consumers(w.registry, w.db.events[0].eventType) == [name]
    requires !HasSucceeded(w.db, 0, name) && name != CYCLE_EVALUATOR
    ensures var next := Next(w, Delivery(clock));
            && next == w.(db := next.db)
            && HasSucceeded(next.db, 0, name)
            && next.db.effects[(0, name)] == w.db.effects[(0, name)] + 1
            && next.db.events == w.db.events[0 := w.db.events[0].(status := Completed, nextAttempt := None)]
  {
    var names := [name];
    assert names[1..] == [];
    var a := Attempt({}, {}, false, clock);
    assert RunAll(w.db, 0, names, a) == RunAll(RunConsumer(w.db, 0, name, clock), 0, names[1..], a);
  }
}
