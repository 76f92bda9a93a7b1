/** How much work overlapping workers can do: dispatches whose failures are recorded late or never. */
module OutboxOverlap {
  import opened Outbox
  import opened OutboxDelivery
  import opened OutboxDrain
  import R = OutboxRuns

  function Budget(e: Event): nat {
    if e.attempts < MAX_ATTEMPTS then MAX_ATTEMPTS - e.attempts else 0
  }

  predicate Named(notes: seq<Note>, id: EventId) {
    exists k | 0 <= k < |notes| :: notes[k].id == id
  }

  /** What a late record can make of a completed event: open again, with one attempt less. */
  function Reopening(e: Event, named: bool): nat {
    if e.status == Completed && named && Budget(e) > 0 then 2 * Budget(e) - 1 else 0
  }

  function Reopenings(events: seq<Event>, notes: seq<Note>): nat {
    if events == [] then 0
    else
      var n := |events| - 1;
      Reopenings(events[..n], notes) + Reopening(events[n], Named(notes, n))
  }

  /** Twice the measure of dispatches that do not overlap, and what unrecorded failures can reopen. */
  function Potential(w: World, today: int): nat {
    2 * Measure(w.db, today) + Reopenings(w.db.events, w.notes)
  }

  lemma {:induction false} ReopeningsUpdate(events: seq<Event>, notes: seq<Note>, i: nat, e: Event)
    requires i < |events|
    ensures Reopenings(events[i := e], notes)
            == Reopenings(events, notes) - Reopening(events[i], Named(notes, i)) + Reopening(e, Named(notes, i))
  {
    var n := |events| - 1;
    if i == n {
      assert events[i := e][..n] == events[..n];
    } else {
      assert events[i := e][..n] == events[..n][i := e];
      ReopeningsUpdate(events[..n], notes, i, e);
    }
  }

  /** Notes that name no further completed event add nothing. */
  lemma {:induction false} FewerNotes(events: seq<Event>, notes: seq<Note>, more: seq<Note>)
    requires forall i | 0 <= i < |events| && events[i].status == Completed && Named(notes, i) :: Named(more, i)
    ensures Reopenings(events, notes) <= Reopenings(events, more)
  {
    if events != [] {
      FewerNotes(events[..|events| - 1], notes, more);
    }
  }

  lemma {:induction false} OpenRowsAddNothing(events: seq<Event>, longer: seq<Event>, notes: seq<Note>)
    requires events <= longer && forall i | |events| <= i < |longer| :: IsOpen(longer[i])
    ensures Reopenings(longer, notes) == Reopenings(events, notes)
    decreases |longer|
  {
    if |longer| > |events| {
      OpenRowsAddNothing(events, longer[..|longer| - 1], notes);
    } else {
      assert longer == events;
    }
  }

  // ---------- Steps of overlapping workers, with facts and date frozen ----------

  predicate IsWork(s: Step, today: int) {
    match s
    case TryStep(_, a) => a.clock.today == today
    case RecordStep(_, _) | LoseStep(_) => true
    case _ => false
  }

  /** The step commits a delivery of an open event, or records a failure of an event with attempts left. */
  predicate Counts(w: World, s: Step) {
    match s
    case TryStep(id, a) => id < |w.db.events| && IsOpen(w.db.events[id]) && Try(w.db, w.registry, id, a).Kept?
    case RecordStep(k, _) =>
      k < |w.notes| && w.notes[k].id < |w.db.events| && Budget(w.db.events[w.notes[k].id]) > 0
    case _ => false
  }

  function Work(w: World, steps: seq<Step>): nat
    decreases |steps|
  {
    if steps == [] then 0 else (if Counts(w, steps[0]) then 1 else 0) + Work(Next(w, steps[0]), steps[1..])
  }

  /** Completing an event takes its weight out of the measure. */
  lemma CompletionTakesWeight(db: Db, id: EventId, today: int)
    requires id < |db.events|
    ensures Measure(RecordCompletion(db, id), today) == Measure(db, today) - Weight(db.events[id])
  {
    var db' := RecordCompletion(db, id);
    WeightUpdate(db.events, id, db'.events[id]);
    assert StaleSet(db', today) == StaleSet(db, today);
  }

  /** A delivery appends only open events to the others and completes its own. */
  lemma DeliveryKeepsReopenings(db: Db, notes: seq<Note>, id: EventId, names: seq<ConsumerName>, a: Attempt)
    requires id < |db.events| && db.events[id].status != Completed && RunAll(db, id, names, a).Finished?
    ensures var done := RecordCompletion(RunAll(db, id, names, a).db, id);
            Reopenings(done.events, notes) <= Reopenings(db.events, notes) + 2 * Budget(db.events[id])
    ensures var done := RecordCompletion(RunAll(db, id, names, a).db, id);
            Budget(db.events[id]) > 0 ==>
              Reopenings(done.events, notes) < Reopenings(db.events, notes) + 2 * Budget(db.events[id])
  {
    var ran := RunAll(db, id, names, a).db;
    R.PassOnlyAppendsOpen(db, id, names, a);
    OpenRowsAddNothing(db.events, ran.events, notes);
    ReopeningsUpdate(ran.events, notes, id, RecordCompletion(ran, id).events[id]);
  }

  lemma TryLowersPotential(w: World, id: EventId, a: Attempt)
    requires RetryBound(w.db)
    ensures var w', s := Next(w, TryStep(id, a)), TryStep(id, a);
            && RetryBound(w'.db)
            && Potential(w', a.clock.today) + (if Counts(w, s) then 1 else 0) <= Potential(w, a.clock.today)
  {
    if id < |w.db.events| && w.db.events[id].status != Completed {
      var names := Consumers(w.registry, w.db.events[id].eventType);
      if Try(w.db, w.registry, id, a).Kept? {
        PassKeepsMeasure(w.db, id, names, a);
        var ran := RunAll(w.db, id, names, a).db;
        assert ran.events[id] == w.db.events[id];
        CompletionKeepsMeasure(ran, id, a.clock.today);
        CompletionTakesWeight(ran, id, a.clock.today);
        DeliveryKeepsReopenings(w.db, w.notes, id, names, a);
      } else {
        NewNoteAddsNothing(w, id, Next(w, TryStep(id, a)).notes);
      }
    }
  }

  lemma NewNoteAddsNothing(w: World, id: EventId, more: seq<Note>)
    requires id < |w.db.events| && w.db.events[id].status != Completed
    requires |more| == |w.notes| + 1 && more[..|w.notes|] == w.notes && more[|w.notes|].id == id
    ensures Reopenings(w.db.events, more) <= Reopenings(w.db.events, w.notes)
  {
    forall i | 0 <= i < |w.db.events| && w.db.events[i].status == Completed && Named(more, i)
      ensures Named(w.notes, i)
    {
      var k :| 0 <= k < |more| && more[k].id == i;
      assert k < |w.notes| && w.notes[k] == more[k];
    }
    FewerNotes(w.db.events, more, w.notes);
  }

  lemma WithoutNamesFewer(events: seq<Event>, notes: seq<Note>, k: nat)
    requires k < |notes|
    ensures Reopenings(events, Without(notes, k)) <= Reopenings(events, notes)
  {
    forall i | 0 <= i < |events| && Named(Without(notes, k), i) ensures Named(notes, i) {
      var j :| 0 <= j < |notes| - 1 && Without(notes, k)[j].id == i;
      assert notes[if j < k then j else j + 1].id == i;
    }
    FewerNotes(events, Without(notes, k), notes);
  }

  lemma RecordTakesPotential(db: Db, notes: seq<Note>, note: Note, now: int, today: int)
    requires RetryBound(db) && note.id < |db.events| && Named(notes, note.id)
    ensures var db' := RecordNote(db, note, now);
            && RetryBound(db')
            && 2 * Measure(db', today) + Reopenings(db'.events, notes)
               + (if Budget(db.events[note.id]) > 0 then 1 else 0)
               <= 2 * Measure(db, today) + Reopenings(db.events, notes)
  {
    var db' := RecordNote(db, note, now);
    WeightUpdate(db.events, note.id, db'.events[note.id]);
    ReopeningsUpdate(db.events, notes, note.id, db'.events[note.id]);
    assert StaleSet(db', today) == StaleSet(db, today);
  }

  lemma RecordLowersPotential(w: World, k: nat, now: int, today: int)
    requires RetryBound(w.db)
    ensures var w', s := Next(w, RecordStep(k, now)), RecordStep(k, now);
            && RetryBound(w'.db)
            && Potential(w', today) + (if Counts(w, s) then 1 else 0) <= Potential(w, today)
  {
    if k < |w.notes| {
      var db' := RecordNote(w.db, w.notes[k], now);
      if w.notes[k].id < |w.db.events| {
        RecordTakesPotential(w.db, w.notes, w.notes[k], now, today);
      }
      WithoutNamesFewer(db'.events, w.notes, k);
    }
  }

  /** Every step of overlapping workers keeps the retry bound, and those that count lower the potential. */
  lemma StepLowersPotential(w: World, s: Step, today: int)
    requires RetryBound(w.db) && IsWork(s, today)
    ensures RetryBound(Next(w, s).db)
    ensures Potential(Next(w, s), today) + (if Counts(w, s) then 1 else 0) <= Potential(w, today)
  {
    match s
    case TryStep(id, a) => TryLowersPotential(w, id, a);
    case RecordStep(k, now) => RecordLowersPotential(w, k, now, today);
    case LoseStep(k) =>
      if k < |w.notes| {
        WithoutNamesFewer(w.db.events, w.notes, k);
      }
  }

  /** Over any interleaving of dispatches that overlap and failure records that come late or never, at most as many
      deliveries and records as the potential commit on events not yet given up, and once so many have, every event is
      settled. */
  lemma {:induction false} OverlappingWorkIsBounded(w: World, steps: seq<Step>, today: int)
    requires RetryBound(w.db) && forall i | 0 <= i < |steps| :: IsWork(steps[i], today)
    ensures Work(w, steps) <= Potential(w, today)
    ensures Work(w, steps) == Potential(w, today) ==> Settled(Run(w, steps).db)
    decreases |steps|
  {
    if steps == [] {
      if Potential(w, today) == 0 {
        NoWeightMeansSettled(w.db.events);
      }
    } else {
      StepLowersPotential(w, steps[0], today);
      OverlappingWorkIsBounded(Next(w, steps[0]), steps[1..], today);
    }
  }

  lemma {:induction false} NoNotesNoReopenings(events: seq<Event>)
    ensures Reopenings(events, []) == 0
  {
    if events != [] {
      NoNotesNoReopenings(events[..|events| - 1]);
    }
  }

  /** Without unrecorded failures at the start, that is ten for each open event and each stale cycle. */
  lemma TenPerEventAndCycle(w: World, steps: seq<Step>, today: int)
    requires RetryBound(w.db) && w.notes == [] && forall i | 0 <= i < |steps| :: IsWork(steps[i], today)
    ensures Work(w, steps) <= 10 * (OpenCount(w.db.events) + |StaleSet(w.db, today)|)
  {
    OverlappingWorkIsBounded(w, steps, today);
    FreshPotential(w, today);
  }

  lemma FreshPotential(w: World, today: int)
    requires w.notes == []
    ensures Potential(w, today) <= 10 * (OpenCount(w.db.events) + |StaleSet(w.db, today)|)
  {
    NoNotesNoReopenings(w.db.events);
    WeightIsBounded(w.db.events);
  }
}
