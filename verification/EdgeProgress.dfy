/** When the edge queue moves although the gateway refuses some of its messages for ever. */
module EdgeProgress {
  import opened EdgeQueue

  // ---------- What one flush does when some messages are always refused ----------

  /** The identifiers of a batch that are not among the refused ones. */
  function Delivered(batch: seq<Item>, poison: set<MessageId>): set<MessageId> {
    Ids(batch) - poison
  }

  /** The messages of `poison` are refused or lost, all others delivered. */
  predicate Sorts(batch: seq<Item>, fates: seq<Fate>, poison: set<MessageId>) {
    && |fates| == |batch|
    && forall i | 0 <= i < |batch| ::
         if batch[i].id in poison then !fates[i].Accepted? else fates[i] == SUCCESS
  }

  /** Only rows created later are queued. */
  predicate Steady(s: Step, poison: set<MessageId>, horizon: nat) {
    match s
    case QueueStep(_, _, createdAt) => createdAt > horizon
    case FlushStep(batch, fates) => Sorts(batch, fates, poison)
  }

  predicate AllSteady(steps: seq<Step>, poison: set<MessageId>, horizon: nat) {
    steps != [] ==> Steady(steps[0], poison, horizon) && AllSteady(steps[1..], poison, horizon)
  }

  predicate SteadyRun(w: World, steps: seq<Step>, poison: set<MessageId>, horizon: nat) {
    LegalRun(w, steps) && AllSteady(steps, poison, horizon)
  }

  function Flushes(steps: seq<Step>): nat {
    if steps == [] then 0 else (if steps[0].FlushStep? then 1 else 0) + Flushes(steps[1..])
  }

  lemma {:induction false} FlushDelivers(w: World, batch: seq<Item>, fates: seq<Fate>, poison: set<MessageId>)
    requires Sorts(batch, fates, poison)
    ensures var after := SendAll(w, batch, fates);
            && after.acknowledged == w.acknowledged + Delivered(batch, poison)
            && after.pending.Keys == w.pending.Keys - Delivered(batch, poison)
            && forall id | id in after.pending :: after.pending[id].createdAt == w.pending[id].createdAt
  {
    if batch != [] {
      var n := |batch| - 1;
      FlushDelivers(w, batch[..n], fates[..n], poison);
      IdsOfLonger(batch);
    }
  }

  /** The rows the query may return before `id`, and `id` itself. */
  function Ahead(pending: Pending, id: MessageId): set<MessageId>
    requires id in pending
  {
    set other | other in pending && pending[other].createdAt <= pending[id].createdAt
  }

  /** A row left out of a batch is left out for a hundred rows ahead of it. */
  lemma BatchIsAhead(pending: Pending, batch: seq<Item>, id: MessageId)
    requires IsBatch(pending, batch) && id in pending && id !in Ids(batch)
    ensures Ids(batch) <= Ahead(pending, id) && |Ids(batch)| == BATCH
  {
    IdsOfBatch(batch);
    NotInBatch(batch, id);
    forall other | other in Ids(batch) ensures other in Ahead(pending, id) {
      var item :| item in batch && item.id == other;
      var j :| 0 <= j < |batch| && batch[j] == item;
    }
    Subset(Ids(batch) + {id}, pending.Keys);
  }

  lemma AheadOfRest(pending: Pending, rest: Pending, gone: set<MessageId>, id: MessageId)
    requires rest.Keys == pending.Keys - gone && id in rest
    requires forall other | other in rest :: rest[other].createdAt == pending[other].createdAt
    ensures Ahead(rest, id) == Ahead(pending, id) - gone
  {}

  lemma LineGetsShorter(line: set<MessageId>, sent: set<MessageId>, poison: set<MessageId>)
    requires sent <= line && |sent| == BATCH
    ensures var left := line - (sent - poison);
            && left * poison == line * poison
            && |left - poison| <= |line - poison| - (BATCH - |line * poison|)
  {
    var left := line - (sent - poison);
    assert left * poison == line * poison;
    assert left - poison == (line - poison) - (sent - poison);
    assert sent == (sent - poison) + (sent * poison);
    Subset(sent * poison, line * poison);
    assert sent - poison <= line - poison;
  }

  /** At most so many refused rows and so many others precede or tie a row, itself included. */
  predicate Waits(pending: Pending, poison: set<MessageId>, id: MessageId, refused: nat, others: nat) {
    && id in pending && id !in poison
    && |Ahead(pending, id) * poison| <= refused && |Ahead(pending, id) - poison| <= others
  }

  lemma WaitsForItself(pending: Pending, poison: set<MessageId>, id: MessageId, refused: nat, others: nat)
    requires Waits(pending, poison, id, refused, others)
    ensures others > 0
  {
    assert id in Ahead(pending, id) - poison;
  }

  /** A flush that leaves a row out sends at least as many rows ahead of it as the refused ones leave places. */
  lemma FlushShortensTheLine(
    w: World, batch: seq<Item>, fates: seq<Fate>, poison: set<MessageId>, id: MessageId, refused: nat, others: nat)
    requires IsBatch(w.pending, batch) && Sorts(batch, fates, poison)
    requires Waits(w.pending, poison, id, refused, others) && id !in Ids(batch)
    ensures var after := SendAll(w, batch, fates);
            && id in after.pending && after.pending[id].createdAt == w.pending[id].createdAt
            && (id in after.acknowledged <==> id in w.acknowledged)
            && Ahead(after.pending, id) * poison == Ahead(w.pending, id) * poison
            && others - (BATCH - refused) >= 0
            && Waits(after.pending, poison, id, refused, others - (BATCH - refused))
  {
    FlushDelivers(w, batch, fates, poison);
    BatchIsAhead(w.pending, batch, id);
    AheadOfRest(w.pending, SendAll(w, batch, fates).pending, Delivered(batch, poison), id);
    LineGetsShorter(Ahead(w.pending, id), Ids(batch), poison);
  }

  lemma NotInBatch(batch: seq<Item>, id: MessageId)
    requires id !in Ids(batch)
    ensures forall j | 0 <= j < |batch| :: batch[j].id != id
  {
    assert forall j | 0 <= j < |batch| :: batch[j] in batch;
  }

  // ---------- A row behind fewer than a hundred refused ones ----------

  lemma {:induction false} SendingKeepsAcknowledged(w: World, batch: seq<Item>, fates: seq<Fate>)
    requires |fates| == |batch|
    ensures w.acknowledged <= SendAll(w, batch, fates).acknowledged
  {
    if batch != [] {
      SendingKeepsAcknowledged(w, batch[..|batch| - 1], fates[..|batch| - 1]);
    }
  }

  lemma {:induction false} AcknowledgedStays(w: World, steps: seq<Step>)
    requires LegalRun(w, steps)
    ensures w.acknowledged <= Run(w, steps).acknowledged
    decreases |steps|
  {
    if steps != [] {
      if steps[0].FlushStep? {
        SendingKeepsAcknowledged(w, steps[0].batch, steps[0].fates);
      }
      AcknowledgedStays(Next(w, steps[0]), steps[1..]);
    }
  }

  lemma SteadyTail(w: World, steps: seq<Step>, poison: set<MessageId>, horizon: nat)
    requires SteadyRun(w, steps, poison, horizon) && steps != []
    ensures Legal(w, steps[0]) && Steady(steps[0], poison, horizon)
    ensures SteadyRun(Next(w, steps[0]), steps[1..], poison, horizon)
    ensures Run(w, steps) == Run(Next(w, steps[0]), steps[1..])
  {}

  lemma QueueingKeepsTheLine(
    w: World, s: Step, poison: set<MessageId>, id: MessageId, refused: nat, others: nat)
    requires s.QueueStep? && Waits(w.pending, poison, id, refused, others)
    requires s.createdAt > w.pending[id].createdAt
    ensures Waits(Next(w, s).pending, poison, id, refused, others)
    ensures Next(w, s).pending[id] == w.pending[id]
  {
    assert Ahead(Next(w, s).pending, id) == Ahead(w.pending, id);
  }

  /** The rows that so many flushes with so many free places can send. */
  function Capacity(flushes: nat, places: nat): nat {
    if flushes == 0 then 0 else places + Capacity(flushes - 1, places)
  }

  /** Whatever ties the query breaks and whatever is queued later, a row is acknowledged after so many flushes that the
      places they leave to rows not refused cover the rows ahead. */
  lemma {:induction false} SentWithin(
    w: World, steps: seq<Step>, poison: set<MessageId>, horizon: nat, id: MessageId, refused: nat, others: nat)
    requires Waits(w.pending, poison, id, refused, others) && refused < BATCH
    requires SteadyRun(w, steps, poison, horizon) && w.pending[id].createdAt <= horizon
    requires others <= Capacity(Flushes(steps), BATCH - refused)
    ensures id in Run(w, steps).acknowledged
    decreases |steps|
  {
    WaitsForItself(w.pending, poison, id, refused, others);
    if steps != [] {
      SteadyTail(w, steps, poison, horizon);
      var after := Next(w, steps[0]);
      Turn(w, steps[0], poison, horizon, id, refused, others);
      if id in after.acknowledged {
        AcknowledgedStays(after, steps[1..]);
      } else {
        SentWithin(after, steps[1..], poison, horizon, id, refused, OthersAfter(steps[0], refused, others));
      }
    }
  }

  function OthersAfter(s: Step, refused: nat, others: nat): int {
    if s.FlushStep? then others - (BATCH - refused) else others
  }

  lemma Turn(w: World, s: Step, poison: set<MessageId>, horizon: nat, id: MessageId, refused: nat, others: nat)
    requires Waits(w.pending, poison, id, refused, others) && refused < BATCH
    requires Legal(w, s) && Steady(s, poison, horizon) && w.pending[id].createdAt <= horizon
    ensures var after := Next(w, s);
            || id in after.acknowledged
            || (OthersAfter(s, refused, others) >= 0
                && Waits(after.pending, poison, id, refused, OthersAfter(s, refused, others))
                && after.pending[id].createdAt == w.pending[id].createdAt)
  {
    if s.QueueStep? {
      QueueingKeepsTheLine(w, s, poison, id, refused, others);
    } else if id in Ids(s.batch) {
      FlushDelivers(w, s.batch, s.fates, poison);
    } else {
      FlushShortensTheLine(w, s.batch, s.fates, poison, id, refused, others);
    }
  }

  // ---------- A row behind a hundred refused ones ----------

  lemma {:induction false} Oldest(pending: Pending, ids: set<MessageId>) returns (m: MessageId)
    requires ids <= pending.Keys && ids != {}
    ensures m in ids && forall id | id in ids :: pending[m].createdAt <= pending[id].createdAt
  {
    m :| m in ids;
    if ids - {m} != {} {
      var other := Oldest(pending, ids - {m});
      if pending[other].createdAt < pending[m].createdAt {
        m := other;
      }
    }
  }

  /** A batch of some of the rows, none of the others created before one of them. */
  predicate IsOldest(pending: Pending, ids: set<MessageId>, batch: seq<Item>) {
    && ids <= pending.Keys && Ids(batch) <= ids
    && (forall i, j | 0 <= i < j < |batch| :: batch[i].id != batch[j].id)
    && (forall item | item in batch :: item.id in pending && item.payload == pending[item.id].payload)
    && (forall a, other | a in Ids(batch) && other in ids - Ids(batch) ::
          pending[a].createdAt <= pending[other].createdAt)
  }

  lemma ExtendOldest(pending: Pending, ids: set<MessageId>, rest: seq<Item>, m: MessageId)
    requires ids <= pending.Keys && m in ids && IsOldest(pending, ids - {m}, rest)
    requires forall id | id in ids :: pending[m].createdAt <= pending[id].createdAt
    ensures IsOldest(pending, ids, rest + [Item(m, pending[m].payload)])
  {
    var batch := rest + [Item(m, pending[m].payload)];
    IdsOfLonger(batch);
    assert batch[..|rest|] == rest;
    assert forall i | 0 <= i < |rest| :: rest[i] in rest && rest[i].id in Ids(rest);
  }

  /** The `n` oldest of the given rows. */
  lemma {:induction false} OldestOf(pending: Pending, ids: set<MessageId>, n: nat) returns (batch: seq<Item>)
    requires ids <= pending.Keys && n <= |ids|
    ensures |batch| == n && IsOldest(pending, ids, batch)
    decreases n
  {
    if n == 0 {
      batch := [];
    } else {
      var m := Oldest(pending, ids);
      var rest := OldestOf(pending, ids - {m}, n - 1);
      batch := rest + [Item(m, pending[m].payload)];
      ExtendOldest(pending, ids, rest, m);
    }
  }

  /** The query may leave out a row that a hundred others precede or tie. */
  lemma BatchWithout(pending: Pending, id: MessageId) returns (batch: seq<Item>)
    requires id in pending && |Ahead(pending, id) - {id}| >= BATCH
    ensures IsBatch(pending, batch) && id !in Ids(batch)
  {
    var others, line := pending.Keys - {id}, Ahead(pending, id) - {id};
    Subset(line, others);
    Subset(others, pending.Keys);
    batch := OldestOf(pending, others, BATCH);
    IdsOfBatch(batch);
    forall a | a in Ids(batch) ensures pending[a].createdAt <= pending[id].createdAt {
      if pending[a].createdAt > pending[id].createdAt {
        SubsetOfNoMore(line, Ids(batch));
      }
    }
    OldestIsBatch(pending, batch, id);
  }

  lemma OldestIsBatch(pending: Pending, batch: seq<Item>, id: MessageId)
    requires id in pending && IsOldest(pending, pending.Keys - {id}, batch) && |batch| == BATCH <= |pending|
    requires forall a | a in Ids(batch) :: pending[a].createdAt <= pending[id].createdAt
    ensures IsBatch(pending, batch)
  {
    assert forall i | 0 <= i < |batch| :: batch[i] in batch && batch[i].id in Ids(batch);
  }

  function FatesFor(batch: seq<Item>, poison: set<MessageId>): seq<Fate> {
    seq(|batch|, i requires 0 <= i < |batch| => if batch[i].id in poison then Refused else SUCCESS)
  }

  lemma SteadyCons(w: World, s: Step, rest: seq<Step>, poison: set<MessageId>, horizon: nat)
    requires Legal(w, s) && Steady(s, poison, horizon) && SteadyRun(Next(w, s), rest, poison, horizon)
    ensures SteadyRun(w, [s] + rest, poison, horizon)
    ensures Run(w, [s] + rest) == Run(Next(w, s), rest)
    ensures Flushes([s] + rest) == Flushes(rest) + if s.FlushStep? then 1 else 0
  {
    assert ([s] + rest)[1..] == rest;
  }

  /** Behind a hundred refused rows a row may wait for any number of flushes. */
  lemma {:induction false} MayWait(w: World, poison: set<MessageId>, id: MessageId, n: nat) returns (steps: seq<Step>)
    requires id in w.pending && id !in poison && id !in w.acknowledged
    requires |Ahead(w.pending, id) * poison| >= BATCH
    ensures SteadyRun(w, steps, poison, w.pending[id].createdAt) && Flushes(steps) == n
    ensures id !in Run(w, steps).acknowledged
    decreases n
  {
    if n == 0 {
      steps := [];
    } else {
      Subset(Ahead(w.pending, id) * poison, Ahead(w.pending, id) - {id});
      var batch := BatchWithout(w.pending, id);
      var fates := FatesFor(batch, poison);
      var line := Ahead(w.pending, id);
      FlushShortensTheLine(w, batch, fates, poison, id, |line * poison|, |line - poison|);
      var rest := MayWait(SendAll(w, batch, fates), poison, id, n - 1);
      steps := [FlushStep(batch, fates)] + rest;
      SteadyCons(w, FlushStep(batch, fates), rest, poison, w.pending[id].createdAt);
    }
  }

  /** However ties are broken and whatever is queued later, so many flushes acknowledge the row. */
  ghost predicate AlwaysSentWithin(w: World, poison: set<MessageId>, id: MessageId, n: nat)
    requires id in w.pending
  {
    forall steps | SteadyRun(w, steps, poison, w.pending[id].createdAt) && Flushes(steps) >= n ::
      id in Run(w, steps).acknowledged
  }

  /** With the messages of `poison` refused for ever and all others delivered, a row outside `poison` is sent within a
      bounded number of flushes exactly when fewer than a hundred rows of `poison` precede or tie it. */
  lemma RowIsSentIff(w: World, poison: set<MessageId>, id: MessageId)
    requires id in w.pending && id !in poison && id !in w.acknowledged
    ensures (exists n: nat :: AlwaysSentWithin(w, poison, id, n)) <==> |Ahead(w.pending, id) * poison| < BATCH
  {
    if |Ahead(w.pending, id) * poison| < BATCH {
      BoundedWait(w, poison, id);
    } else {
      forall n: nat ensures !AlwaysSentWithin(w, poison, id, n) {
        var steps := MayWait(w, poison, id, n);
      }
    }
  }

  lemma BoundedWait(w: World, poison: set<MessageId>, id: MessageId)
    requires id in w.pending && id !in poison && |Ahead(w.pending, id) * poison| < BATCH
    ensures AlwaysSentWithin(w, poison, id, |Ahead(w.pending, id) - poison|)
  {
    var refused, others := |Ahead(w.pending, id) * poison|, |Ahead(w.pending, id) - poison|;
    forall steps | SteadyRun(w, steps, poison, w.pending[id].createdAt) && Flushes(steps) >= others
      ensures id in Run(w, steps).acknowledged
    {
      OnePlaceIsEnough(Flushes(steps), BATCH - refused);
      SentWithin(w, steps, poison, w.pending[id].createdAt, id, refused, others);
    }
  }

  lemma {:induction false} OnePlaceIsEnough(flushes: nat, places: nat)
    requires places >= 1
    ensures flushes <= Capacity(flushes, places)
  {
    if flushes > 0 {
      OnePlaceIsEnough(flushes - 1, places);
    }
  }

  /** The flushes needed for `n` messages with so many free places each. */
  function Needed(n: nat, places: nat): nat
    requires places >= 1
  {
    if n <= places then (if n == 0 then 0 else 1) else 1 + Needed(n - places, places)
  }

  /** It is the quotient, rounded up. */
  lemma {:induction false} NeededIsRoundedUp(n: nat, places: nat)
    requires places >= 1
    ensures Needed(n, places) * places >= n
    ensures n > 0 ==> (Needed(n, places) - 1) * places < n
  {
    if n > places {
      NeededIsRoundedUp(n - places, places);
      var rest := Needed(n - places, places);
      assert (1 + rest) * places == places + rest * places;
      assert rest * places == places + (rest - 1) * places;
    }
  }

  lemma {:induction false} EnoughCapacity(flushes: nat, places: nat, n: nat)
    requires places >= 1 && flushes >= Needed(n, places)
    ensures n <= Capacity(flushes, places)
  {
    if n > places {
      EnoughCapacity(flushes - 1, places, n - places);
    }
  }

  /** With fewer than a hundred refused messages, the n others drain in n/(100 - refused) flushes, rounded up. */
  lemma DrainsAroundTheRefused(w: World, steps: seq<Step>, poison: set<MessageId>, horizon: nat)
    requires SteadyRun(w, steps, poison, horizon) && forall id | id in w.pending :: w.pending[id].createdAt <= horizon
    requires |w.pending.Keys * poison| < BATCH
    requires Flushes(steps) >= Needed(|w.pending.Keys - poison|, BATCH - |w.pending.Keys * poison|)
    ensures w.pending.Keys - poison <= Run(w, steps).acknowledged
  {
    EnoughCapacity(Flushes(steps), BATCH - |w.pending.Keys * poison|, |w.pending.Keys - poison|);
    AllAreSent(w, steps, poison, horizon);
  }

  lemma AllAreSent(w: World, steps: seq<Step>, poison: set<MessageId>, horizon: nat)
    requires SteadyRun(w, steps, poison, horizon) && forall id | id in w.pending :: w.pending[id].createdAt <= horizon
    requires |w.pending.Keys * poison| < BATCH
    requires |w.pending.Keys - poison| <= Capacity(Flushes(steps), BATCH - |w.pending.Keys * poison|)
    ensures w.pending.Keys - poison <= Run(w, steps).acknowledged
  {
    var refused, others := |w.pending.Keys * poison|, |w.pending.Keys - poison|;
    forall id | id in w.pending.Keys - poison ensures id in Run(w, steps).acknowledged {
      AllAtMost(w.pending, poison, id);
      SentWithin(w, steps, poison, horizon, id, refused, others);
    }
  }

  lemma AllAtMost(pending: Pending, poison: set<MessageId>, id: MessageId)
    requires id in pending && id !in poison
    ensures Waits(pending, poison, id, |pending.Keys * poison|, |pending.Keys - poison|)
  {
    Subset(Ahead(pending, id) * poison, pending.Keys * poison);
    Subset(Ahead(pending, id) - poison, pending.Keys - poison);
  }

  // ---------- A hundred refused rows at the head of the line ----------

  /** The rows of `poison` precede all others. */
  predicate Blocks(pending: Pending, poison: set<MessageId>, head: nat) {
    && |poison| >= BATCH && poison <= pending.Keys
    && forall id | id in pending :: pending[id].createdAt <= head <==> id in poison
  }

  /** Whatever happens to other requests; what is queued is dated later. */
  predicate Refuses(s: Step, poison: set<MessageId>, head: nat) {
    match s
    case QueueStep(_, _, createdAt) => createdAt > head
    case FlushStep(batch, fates) =>
      forall i | 0 <= i < |batch| && i < |fates| && batch[i].id in poison :: !fates[i].Accepted?
  }

  lemma BatchIsPoison(pending: Pending, batch: seq<Item>, poison: set<MessageId>, head: nat)
    requires IsBatch(pending, batch) && Blocks(pending, poison, head)
    ensures forall i | 0 <= i < |batch| :: batch[i].id in poison
  {
    forall i | 0 <= i < |batch| ensures batch[i].id in poison {
      RowOfBatchIsPoison(pending, batch, poison, head, i);
    }
  }

  lemma RowOfBatchIsPoison(pending: Pending, batch: seq<Item>, poison: set<MessageId>, head: nat, i: nat)
    requires IsBatch(pending, batch) && Blocks(pending, poison, head) && i < |batch|
    ensures batch[i].id in poison
  {
    var ids := Ids(batch);
    IdsOfBatch(batch);
    assert batch[i] in batch;
    if poison <= ids {
      SubsetOfNoMore(poison, ids);
    } else {
      var p :| p in poison && p !in ids;
      NotInBatch(batch, p);
    }
  }

  lemma SubsetOfNoMore<T>(a: set<T>, b: set<T>)
    requires a <= b
    ensures |b| <= |a| ==> a == b
  {
    assert b == a + (b - a);
  }

  lemma {:induction false} RefusedBatchStays(w: World, batch: seq<Item>, fates: seq<Fate>, poison: set<MessageId>)
    requires |fates| == |batch|
    requires forall i | 0 <= i < |batch| :: batch[i].id in poison && !fates[i].Accepted?
    ensures var after := SendAll(w, batch, fates);
            && after == w.(pending := after.pending) && after.pending.Keys == w.pending.Keys
            && (forall id | id in w.pending :: after.pending[id].createdAt == w.pending[id].createdAt)
            && (forall id | id in w.pending && id !in poison :: after.pending[id] == w.pending[id])
  {
    if batch != [] {
      var n := |batch| - 1;
      RefusedBatchStays(w, batch[..n], fates[..n], poison);
    }
  }

  /** A hundred refused messages at the head of the line stop the queue: over any run no other message is sent, although
      its request would be accepted. */
  lemma {:induction false} RefusedHeadBlocksTheQueue(w: World, steps: seq<Step>, poison: set<MessageId>, head: nat)
    requires LegalRun(w, steps) && Blocks(w.pending, poison, head)
    requires forall i | 0 <= i < |steps| :: Refuses(steps[i], poison, head)
    ensures var end := Run(w, steps);
            && end.acknowledged == w.acknowledged && end.processed == w.processed
            && forall id | id in w.pending && id !in poison :: id in end.pending && end.pending[id] == w.pending[id]
    decreases |steps|
  {
    if steps != [] {
      if steps[0].FlushStep? {
        BatchIsPoison(w.pending, steps[0].batch, poison, head);
        RefusedBatchStays(w, steps[0].batch, steps[0].fates, poison);
      }
      RefusedHeadBlocksTheQueue(Next(w, steps[0]), steps[1..], poison, head);
    }
  }
}
