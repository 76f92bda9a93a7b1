/** The edge agent's store-and-forward queue and a gateway that deduplicates on message identifiers. */
module EdgeQueue {
  const BATCH: nat := 100

  type MessageId = string

  /** `createdAt` is the position of the row's creation text in text order. */
  datatype Row = Row(payload: string, attempts: nat, createdAt: nat)

  type Pending = map<MessageId, Row>

  /** One request. The gateway processes before it answers 2xx; any other answer, a refusal, processes nothing. */
  datatype Fate = RequestLost | Refused | Accepted(replyArrives: bool, deleteFails: bool)

  /** `processed` is what the gateway keeps for each identifier, `runs` how often it processed it,
      `acknowledged` the identifiers the agent received a 2xx for, `first` the first payload ever queued for one. */
  datatype World = World(
    pending: Pending, first: map<MessageId, string>, processed: map<MessageId, string>,
    runs: multiset<MessageId>, acknowledged: set<MessageId>)

  const EMPTY := World(map[], map[], map[], multiset{}, {})

  /** Inserts unless the identifier is pending already. */
  function Queue(w: World, id: MessageId, payload: string, createdAt: nat): World {
    w.(pending := if id in w.pending then w.pending else w.pending[id := Row(payload, 0, createdAt)],
       first := if id in w.first then w.first else w.first[id := payload])
  }

  function Retried(pending: Pending, id: MessageId): Pending {
    if id in pending then pending[id := pending[id].(attempts := pending[id].attempts + 1)] else pending
  }

  /** Delivery of one message of a batch, read before the batch was sent. */
  function Send(w: World, id: MessageId, payload: string, fate: Fate): World {
    match fate
    case RequestLost | Refused => w.(pending := Retried(w.pending, id))
    case Accepted(replyArrives, deleteFails) =>
      var seen := Processed(w, id, payload);
      if replyArrives then Acknowledged(seen, id, deleteFails) else seen.(pending := Retried(seen.pending, id))
  }

  /** The gateway's part: an identifier it has seen is skipped. */
  function Processed(w: World, id: MessageId, payload: string): World {
    if id in w.processed then w
    else w.(processed := w.processed[id := payload], runs := w.runs + multiset{id})
  }

  function Acknowledged(w: World, id: MessageId, deleteFails: bool): World {
    w.(acknowledged := w.acknowledged + {id}, pending := if deleteFails then w.pending else w.pending - {id})
  }

  datatype Item = Item(id: MessageId, payload: string)

  function SendAll(w: World, batch: seq<Item>, fates: seq<Fate>): World
    requires |fates| == |batch|
  {
    if batch == [] then w
    else
      var n := |batch| - 1;
      Send(SendAll(w, batch[..n], fates[..n]), batch[n].id, batch[n].payload, fates[n])
  }

  /** What the query may return: up to a hundred distinct rows, none of the others created before one of them. */
  predicate IsBatch(pending: Pending, batch: seq<Item>) {
    && |batch| == (if |pending| <= BATCH then |pending| else BATCH)
    && (forall i, j | 0 <= i < j < |batch| :: batch[i].id != batch[j].id)
    && (forall i | 0 <= i < |batch| :: batch[i].id in pending && batch[i].payload == pending[batch[i].id].payload)
    && (forall i, id | 0 <= i < |batch| && id in pending && (forall j | 0 <= j < |batch| :: batch[j].id != id) ::
          pending[batch[i].id].createdAt <= pending[id].createdAt)
  }

  class Agent {
    var world: World

    constructor ()
      ensures world == EMPTY
    {
      world := EMPTY;
    }

    method QueueMessage(id: MessageId, payload: string, createdAt: nat)
      modifies this
      ensures world == Queue(old(world), id, payload, createdAt)
    {
      if id !in world.first {
        world := world.(first := world.first[id := payload]);
      }
      if id !in world.pending {
        world := world.(pending := world.pending[id := Row(payload, 0, createdAt)]);
      }
    }

    /** Sends the rows the query returned, one by one. */
    method Flush(batch: seq<Item>, fates: seq<Fate>)
      requires |fates| == |batch|
      modifies this
      ensures world == SendAll(old(world), batch, fates)
    {
      ghost var start := world;
      for i := 0 to |batch|
        invariant world == SendAll(start, batch[..i], fates[..i])
      {
        SendOne(batch[i], fates[i]);
        SendAllNext(start, batch, fates, i);
      }
      assert batch[..|batch|] == batch && fates[..|fates|] == fates;
    }

    method SendOne(item: Item, fate: Fate)
      modifies this
      ensures world == Send(old(world), item.id, item.payload, fate)
    {
      var id := item.id;
      if fate.Accepted? && id !in world.processed {
        world := world.(processed := world.processed[id := item.payload], runs := world.runs + multiset{id});
      }
      if fate.Accepted? && fate.replyArrives {
        world := world.(acknowledged := world.acknowledged + {id});
        if !fate.deleteFails {
          world := world.(pending := world.pending - {id});
        }
      } else {
        world := world.(pending := Retried(world.pending, id));
      }
    }
  }

  lemma SendAllNext(w: World, batch: seq<Item>, fates: seq<Fate>, i: nat)
    requires |fates| == |batch| && i < |batch|
    ensures SendAll(w, batch[..i + 1], fates[..i + 1])
            == Send(SendAll(w, batch[..i], fates[..i]), batch[i].id, batch[i].payload, fates[i])
  {
    assert batch[..i + 1][..i] == batch[..i] && fates[..i + 1][..i] == fates[..i];
  }

  // ---------- Nothing is lost, nothing is processed twice ----------

  /** A queued message is pending or acknowledged; an acknowledged one is processed; each is processed at most once,
      with the first payload queued under its identifier. */
  ghost predicate Safe(w: World) {
    && (forall id | id in w.first :: id in w.pending || id in w.acknowledged)
    && (forall id | id in w.pending :: id in w.first && (w.pending[id].payload == w.first[id] || id in w.processed))
    && (forall id | id in w.acknowledged :: id in w.processed)
    && (forall id | id in w.processed :: id in w.first && w.processed[id] == w.first[id])
    && (forall id :: w.runs[id] == if id in w.processed then 1 else 0)
  }

  lemma QueueKeepsSafe(w: World, id: MessageId, payload: string, createdAt: nat)
    requires Safe(w)
    ensures Safe(Queue(w, id, payload, createdAt))
  {}

  lemma SendKeepsSafe(w: World, id: MessageId, payload: string, fate: Fate)
    requires Safe(w) && id in w.first && (payload == w.first[id] || id in w.processed)
    ensures Safe(Send(w, id, payload, fate))
  {
    match fate
    case RequestLost | Refused => RetryKeepsSafe(w, id);
    case Accepted(replyArrives, deleteFails) =>
      ProcessingKeepsSafe(w, id, payload);
      if replyArrives {
        AcknowledgingKeepsSafe(Processed(w, id, payload), id, deleteFails);
      } else {
        RetryKeepsSafe(Processed(w, id, payload), id);
      }
  }

  lemma RetryKeepsSafe(w: World, id: MessageId)
    requires Safe(w)
    ensures Safe(w.(pending := Retried(w.pending, id)))
  {}

  lemma ProcessingKeepsSafe(w: World, id: MessageId, payload: string)
    requires Safe(w) && id in w.first && (payload == w.first[id] || id in w.processed)
    ensures Safe(Processed(w, id, payload))
  {}

  lemma AcknowledgingKeepsSafe(w: World, id: MessageId, deleteFails: bool)
    requires Safe(w) && id in w.processed
    ensures Safe(Acknowledged(w, id, deleteFails))
  {}

  lemma {:induction false} FlushKeepsSafe(w: World, batch: seq<Item>, fates: seq<Fate>)
    requires Safe(w) && |fates| == |batch|
    requires forall i | 0 <= i < |batch| ::
               batch[i].id in w.first && (batch[i].payload == w.first[batch[i].id] || batch[i].id in w.processed)
    ensures Safe(SendAll(w, batch, fates)) && SendAll(w, batch, fates).first == w.first
    ensures w.processed.Keys <= SendAll(w, batch, fates).processed.Keys
  {
    if batch != [] {
      var n := |batch| - 1;
      FlushKeepsSafe(w, batch[..n], fates[..n]);
      SendKeepsSafe(SendAll(w, batch[..n], fates[..n]), batch[n].id, batch[n].payload, fates[n]);
    }
  }

  datatype Step =
    | QueueStep(id: MessageId, payload: string, createdAt: nat)
    | FlushStep(batch: seq<Item>, fates: seq<Fate>)

  predicate Legal(w: World, s: Step) {
    s.FlushStep? ==> IsBatch(w.pending, s.batch) && |s.fates| == |s.batch|
  }

  function Next(w: World, s: Step): World
    requires Legal(w, s)
  {
    match s
    case QueueStep(id, payload, createdAt) => Queue(w, id, payload, createdAt)
    case FlushStep(batch, fates) => SendAll(w, batch, fates)
  }

  predicate LegalRun(w: World, steps: seq<Step>)
    decreases |steps|
  {
    steps != [] ==> Legal(w, steps[0]) && LegalRun(Next(w, steps[0]), steps[1..])
  }

  function Run(w: World, steps: seq<Step>): World
    requires LegalRun(w, steps)
    decreases |steps|
  {
    if steps == [] then w else Run(Next(w, steps[0]), steps[1..])
  }

  /** Under any mix of queueing, lost requests, lost replies, refusals and failed deletes. */
  lemma {:induction false} EveryRunIsSafe(w: World, steps: seq<Step>)
    requires Safe(w) && LegalRun(w, steps)
    ensures Safe(Run(w, steps))
    decreases |steps|
  {
    if steps != [] {
      match steps[0] {
        case QueueStep(id, payload, createdAt) => QueueKeepsSafe(w, id, payload, createdAt);
        case FlushStep(batch, fates) => FlushKeepsSafe(w, batch, fates);
      }
      EveryRunIsSafe(Next(w, steps[0]), steps[1..]);
    }
  }

  /** From the empty queue: no queued message is lost, and an acknowledged one has been processed exactly once, with
      the payload first queued under its identifier. */
  lemma StoreAndForward(steps: seq<Step>, id: MessageId)
    requires LegalRun(EMPTY, steps)
    ensures var end := Run(EMPTY, steps);
            && (id in end.first ==> id in end.pending || id in end.acknowledged)
            && (id in end.acknowledged ==>
                  end.runs[id] == 1 && id in end.first && id in end.processed && end.processed[id] == end.first[id])
  {
    EveryRunIsSafe(EMPTY, steps);
  }

  // ---------- Draining ----------

  const SUCCESS := Accepted(true, false)

  function Ids(batch: seq<Item>): set<MessageId> {
    set item | item in batch :: item.id
  }

  lemma IdsOfLonger(batch: seq<Item>)
    requires batch != []
    ensures var n := |batch| - 1;
            Ids(batch) == Ids(batch[..n]) + {batch[n].id}
  {
    var n := |batch| - 1;
    assert forall item :: item in batch <==> item in batch[..n] || item == batch[n];
  }

  lemma {:induction false} SuccessDeletes(w: World, batch: seq<Item>, fates: seq<Fate>)
    requires |fates| == |batch| && forall i | 0 <= i < |fates| :: fates[i] == SUCCESS
    ensures SendAll(w, batch, fates).pending == w.pending - Ids(batch)
  {
    if batch != [] {
      var n := |batch| - 1;
      SuccessDeletes(w, batch[..n], fates[..n]);
      IdsOfLonger(batch);
    } else {
      assert Ids(batch) == {};
    }
  }

  lemma {:induction false} IdsOfBatch(batch: seq<Item>)
    requires forall i, j | 0 <= i < j < |batch| :: batch[i].id != batch[j].id
    ensures |Ids(batch)| == |batch|
  {
    if batch != [] {
      var n := |batch| - 1;
      IdsOfBatch(batch[..n]);
      var before := Ids(batch[..n]);
      IdsOfLonger(batch);
      assert batch[n].id !in before;
    }
  }

  lemma SuccessfulFlush(w: World, batch: seq<Item>, fates: seq<Fate>)
    requires IsBatch(w.pending, batch)
    requires |fates| == |batch| && forall i | 0 <= i < |fates| :: fates[i] == SUCCESS
    ensures |SendAll(w, batch, fates).pending| == if |w.pending| <= BATCH then 0 else |w.pending| - BATCH
  {
    var ids := Ids(batch);
    SuccessDeletes(w, batch, fates);
    IdsOfBatch(batch);
    var left := w.pending - ids;
    assert left.Keys == w.pending.Keys - ids && ids <= w.pending.Keys;
    assert |left| == |left.Keys| && |w.pending| == |w.pending.Keys|;
  }

  predicate Succeeds(s: Step) {
    s.FlushStep? && forall i | 0 <= i < |s.fates| :: s.fates[i] == SUCCESS
  }

  /** With every request accepted and nothing new queued, n messages drain in n/100 flushes, rounded up, and not in
      fewer. */
  lemma {:induction false} DrainsInBatches(w: World, steps: seq<Step>)
    requires LegalRun(w, steps) && forall i | 0 <= i < |steps| :: Succeeds(steps[i])
    ensures |Run(w, steps).pending| == if |w.pending| <= BATCH * |steps| then 0 else |w.pending| - BATCH * |steps|
    ensures Run(w, steps).pending == map[] <==> |steps| >= (|w.pending| + 99) / 100
    decreases |steps|
  {
    if steps != [] {
      SuccessfulFlush(w, steps[0].batch, steps[0].fates);
      DrainsInBatches(Next(w, steps[0]), steps[1..]);
    }
    assert |Run(w, steps).pending| == 0 <==> Run(w, steps).pending == map[];
  }

  // ---------- The head of the line ----------

  /** A row that fewer than a hundred others precede or tie is in every batch. */
  lemma EarlyRowIsSent(pending: Pending, batch: seq<Item>, id: MessageId)
    requires IsBatch(pending, batch) && id in pending
    requires |set other | other in pending && other != id && pending[other].createdAt <= pending[id].createdAt| < BATCH
    ensures exists i | 0 <= i < |batch| :: batch[i].id == id
  {
    var ids := Ids(batch);
    IdsOfBatch(batch);
    if id !in ids {
      assert forall j | 0 <= j < |batch| :: batch[j].id != id by {
        assert forall j | 0 <= j < |batch| :: batch[j] in batch;
      }
      var earlier := set other | other in pending && other != id && pending[other].createdAt <= pending[id].createdAt;
      forall other | other in ids ensures other in earlier {
        var item :| item in batch && item.id == other;
        var j :| 0 <= j < |batch| && batch[j] == item;
      }
      Subset(ids, earlier);
      Subset(ids + {id}, pending.Keys);
    }
  }

  lemma Subset<T>(a: set<T>, b: set<T>)
    requires a <= b
    ensures |a| <= |b|
  {
    assert b == a + (b - a);
  }
}
