/** A client that retries one prepared write only when recovery calls the retry safe. */
module ConnectorClient {
  import opened Connector

  datatype Phase = Ready | Ambiguous | Succeeded | Stopped

  /** What the network does to one request. */
  datatype Fate = RequestLost | ReplyLost | ReplyReceived

  datatype Event =
    | Send(fate: Fate)
    | Recover(answered: bool)
    | Compete(context: Context, prepared: PreparedWrite)

  datatype World = World(phase: Phase, store: Store, history: seq<Write>)

  /** The client's own request is fixed; competing writers may send anything under other idempotency keys. */
  function Next(tested: set<string>, ctx: Context, p: PreparedWrite, w: World, e: Event): World {
    match e
    case Send(fate) =>
      if w.phase != Ready then w
      else if fate == RequestLost then w.(phase := Ambiguous)
      else
        var done := Dispatch(tested, w.store, ctx, p);
        World(
          if fate == ReplyLost then Ambiguous
          else if done.outcome.Returned? && done.outcome.value.status == Acknowledged then Succeeded
          else Stopped,
          done.store, w.history + done.writes)
    case Recover(answered) =>
      if w.phase != Ambiguous || !answered then w
      else
        var read := RecoverAmbiguous(tested, w.store, ctx, p);
        w.(phase := if read.Refused? then Stopped
                    else if read.value.Reconciled? then Succeeded
                    else if read.value.retrySafe then Ready
                    else Stopped)
    case Compete(context, q) =>
      if q.idempotencyKey == p.idempotencyKey then w
      else
        var done := Dispatch(tested, w.store, context, q);
        w.(store := done.store, history := w.history + done.writes)
  }

  function Run(tested: set<string>, ctx: Context, p: PreparedWrite, w: World, events: seq<Event>): World
    decreases |events|
  {
    if events == [] then w else Run(tested, ctx, p, Next(tested, ctx, p, w, events[0]), events[1..])
  }

  /** How often the client's own write has been applied. */
  function OwnWrites(history: seq<Write>, p: PreparedWrite): nat {
    if history == [] then 0
    else OwnWrites(history[..|history| - 1], p)
         + if history[|history| - 1].idempotencyKey == p.idempotencyKey then 1 else 0
  }

  lemma OwnWritesAppend(history: seq<Write>, writes: seq<Write>, p: PreparedWrite)
    requires |writes| <= 1
    ensures OwnWrites(history + writes, p)
            == OwnWrites(history, p)
               + if writes != [] && writes[0].idempotencyKey == p.idempotencyKey then 1 else 0
  {
    if writes == [] {
      assert history + writes == history;
    } else {
      assert (history + writes)[..|history|] == history;
    }
  }

  /** At most one own write, and an acknowledgement is remembered for it exactly when it was applied. */
  ghost predicate WrittenOnce(w: World, p: PreparedWrite) {
    && OwnWrites(w.history, p) <= 1
    && (OwnWrites(w.history, p) == 1
        <==> p.idempotencyKey in w.store.idempotency && w.store.idempotency[p.idempotencyKey].status == Acknowledged)
  }

  lemma StepKeepsWrittenOnce(tested: set<string>, ctx: Context, p: PreparedWrite, w: World, e: Event)
    requires WrittenOnce(w, p)
    ensures WrittenOnce(Next(tested, ctx, p, w, e), p)
  {
    match e
    case Send(fate) => DispatchKeepsOwn(tested, ctx, p, w, p);
    case Recover(_) =>
    case Compete(context, q) => DispatchKeepsOwn(tested, context, q, w, p);
  }

  /** A dispatch applies the write of `p` only under its idempotency key, and then remembers its acknowledgement. */
  lemma DispatchKeepsOwn(tested: set<string>, ctx: Context, q: PreparedWrite, w: World, p: PreparedWrite)
    requires WrittenOnce(w, p)
    ensures var done := Dispatch(tested, w.store, ctx, q);
            WrittenOnce(World(w.phase, done.store, w.history + done.writes), p)
  {
    OwnWritesAppend(w.history, Dispatch(tested, w.store, ctx, q).writes, p);
  }

  /** Under any pattern of lost requests, lost replies, unanswered reads and competing writers, the client's payload
      is written at most once. */
  lemma {:induction false} WritesAtMostOnce(
    tested: set<string>, ctx: Context, p: PreparedWrite, w: World, events: seq<Event>)
    requires WrittenOnce(w, p)
    ensures OwnWrites(Run(tested, ctx, p, w, events).history, p) <= 1
    decreases |events|
  {
    if events != [] {
      StepKeepsWrittenOnce(tested, ctx, p, w, events[0]);
      WritesAtMostOnce(tested, ctx, p, Next(tested, ctx, p, w, events[0]), events[1..]);
    }
  }

  // ---------- A key of its own ----------

  predicate Private(p: PreparedWrite, events: seq<Event>) {
    forall e | e in events && e.Compete? :: e.prepared.externalKey != p.externalKey
  }

  /** The record exists exactly when the own write was applied, and then it carries the client's payload; the client
      is ready only before its write and has succeeded only after it. */
  ghost predicate Alone(w: World, p: PreparedWrite) {
    && WrittenOnce(w, p)
    && (p.externalKey in w.store.records <==> OwnWrites(w.history, p) == 1)
    && (p.externalKey in w.store.records ==> w.store.records[p.externalKey] == Stored(p.payload, 1))
    && (w.phase == Ready ==> OwnWrites(w.history, p) == 0)
    && (w.phase == Succeeded ==> OwnWrites(w.history, p) == 1)
  }

  lemma StepKeepsAlone(tested: set<string>, ctx: Context, p: PreparedWrite, w: World, e: Event)
    requires Alone(w, p) && (e.Compete? ==> e.prepared.externalKey != p.externalKey)
    ensures Alone(Next(tested, ctx, p, w, e), p)
  {
    StepKeepsWrittenOnce(tested, ctx, p, w, e);
    match e
    case Send(fate) => SendKeepsAlone(tested, ctx, p, w, fate);
    case Recover(_) =>
    case Compete(context, q) => CompeteKeepsAlone(tested, ctx, p, w, context, q);
  }

  lemma SendKeepsAlone(tested: set<string>, ctx: Context, p: PreparedWrite, w: World, fate: Fate)
    requires Alone(w, p)
    requires WrittenOnce(Next(tested, ctx, p, w, Send(fate)), p)
    ensures Alone(Next(tested, ctx, p, w, Send(fate)), p)
  {
    if w.phase == Ready && fate != RequestLost {
      OwnDispatch(tested, w.store, w.history, ctx, p);
      if Next(tested, ctx, p, w, Send(fate)).phase == Succeeded {
        SendSucceedsByWriting(tested, ctx, p, w, fate);
      }
    }
  }

  lemma OwnDispatch(tested: set<string>, store: Store, history: seq<Write>, ctx: Context, p: PreparedWrite)
    ensures var done := Dispatch(tested, store, ctx, p);
            && OwnWrites(history + done.writes, p)
               == OwnWrites(history, p) + (if MayWrite(tested, store, ctx, p) then 1 else 0)
            && done.store.records
               == if MayWrite(tested, store, ctx, p)
                  then store.records[p.externalKey := Stored(p.payload, NextVersion(store.records, p.externalKey))]
                  else store.records
  {
    DispatchWritesIff(tested, store, ctx, p);
    OwnWritesAppend(history, Dispatch(tested, store, ctx, p).writes, p);
  }

  lemma CompeteKeepsAlone(
    tested: set<string>, ctx: Context, p: PreparedWrite, w: World, context: Context, q: PreparedWrite)
    requires Alone(w, p) && q.externalKey != p.externalKey
    requires WrittenOnce(Next(tested, ctx, p, w, Compete(context, q)), p)
    ensures Alone(Next(tested, ctx, p, w, Compete(context, q)), p)
  {
    if q.idempotencyKey != p.idempotencyKey {
      OtherDispatchKeeps(tested, w.store, w.history, context, q, p);
    }
  }

  /** A dispatch under another key and idempotency key leaves the client's record and writes alone. */
  lemma OtherDispatchKeeps(
    tested: set<string>, store: Store, history: seq<Write>, ctx: Context, q: PreparedWrite, p: PreparedWrite)
    requires q.externalKey != p.externalKey && q.idempotencyKey != p.idempotencyKey
    ensures var done := Dispatch(tested, store, ctx, q);
            && OwnWrites(history + done.writes, p) == OwnWrites(history, p)
            && (p.externalKey in done.store.records <==> p.externalKey in store.records)
            && (p.externalKey in store.records ==>
                  done.store.records[p.externalKey] == store.records[p.externalKey])
  {
    OwnWritesAppend(history, Dispatch(tested, store, ctx, q).writes, p);
  }

  /** With the key to itself, a client that ends in success has written its payload exactly once, and the record
      holds that payload. */
  lemma {:induction false} SuccessMeansExactlyOnce(
    tested: set<string>, ctx: Context, p: PreparedWrite, w: World, events: seq<Event>)
    requires Alone(w, p) && Private(p, events)
    requires Run(tested, ctx, p, w, events).phase == Succeeded
    ensures var end := Run(tested, ctx, p, w, events);
            && OwnWrites(end.history, p) == 1
            && p.externalKey in end.store.records
            && end.store.records[p.externalKey] == Stored(p.payload, 1)
    decreases |events|
  {
    if events != [] {
      assert events[0] in events;
      StepKeepsAlone(tested, ctx, p, w, events[0]);
      SuccessMeansExactlyOnce(tested, ctx, p, Next(tested, ctx, p, w, events[0]), events[1..]);
    }
  }

  /** A client starts alone on any adapter that has neither its record nor its idempotency key. */
  lemma {:induction false} StartsAlone(store: Store, history: seq<Write>, p: PreparedWrite)
    requires p.externalKey !in store.records && p.idempotencyKey !in store.idempotency
    requires ResultsMatch(store.idempotency, history)
    ensures Alone(World(Ready, store, history), p)
  {
    NoOwnWrites(history, p);
  }

  lemma {:induction false} NoOwnWrites(history: seq<Write>, p: PreparedWrite)
    requires forall i | 0 <= i < |history| :: history[i].idempotencyKey != p.idempotencyKey
    ensures OwnWrites(history, p) == 0
  {
    if history != [] {
      NoOwnWrites(history[..|history| - 1], p);
    }
  }

  // ---------- A key shared with competing writers ----------

  predicate IsAcknowledged(store: Store, idempotencyKey: string) {
    idempotencyKey in store.idempotency && store.idempotency[idempotencyKey].status == Acknowledged
  }

  /** An answered recovery that finds the client's payload at the key, although no acknowledgement is stored under the
      client's idempotency key: a competitor wrote it. */
  predicate Borrows(tested: set<string>, ctx: Context, p: PreparedWrite, w: World, e: Event) {
    && e == Recover(true) && w.phase == Ambiguous
    && Authorize(tested, ctx, p.capability, true).None?
    && p.externalKey in w.store.records && Digest(w.store.records[p.externalKey].payload) == p.payloadHash
    && !IsAcknowledged(w.store, p.idempotencyKey)
  }

  predicate NeverBorrows(tested: set<string>, ctx: Context, p: PreparedWrite, w: World, events: seq<Event>)
    decreases |events|
  {
    events != [] ==>
      && !Borrows(tested, ctx, p, w, events[0])
      && NeverBorrows(tested, ctx, p, Next(tested, ctx, p, w, events[0]), events[1..])
  }

  lemma SendSucceedsByWriting(tested: set<string>, ctx: Context, p: PreparedWrite, w: World, fate: Fate)
    requires w.phase != Succeeded && Next(tested, ctx, p, w, Send(fate)).phase == Succeeded
    ensures IsAcknowledged(Next(tested, ctx, p, w, Send(fate)).store, p.idempotencyKey)
  {}

  /** A step reaches success exactly by an own write or by borrowing. */
  lemma StepSucceedsByWriting(tested: set<string>, ctx: Context, p: PreparedWrite, w: World, e: Event)
    requires WrittenOnce(w, p) && w.phase != Succeeded
    ensures Borrows(tested, ctx, p, w, e) ==>
              var after := Next(tested, ctx, p, w, e); after.phase == Succeeded && OwnWrites(after.history, p) == 0
    ensures !Borrows(tested, ctx, p, w, e) && Next(tested, ctx, p, w, e).phase == Succeeded ==>
              OwnWrites(Next(tested, ctx, p, w, e).history, p) == 1
  {
    StepKeepsWrittenOnce(tested, ctx, p, w, e);
    match e
    case Send(fate) =>
      if Next(tested, ctx, p, w, e).phase == Succeeded {
        SendSucceedsByWriting(tested, ctx, p, w, fate);
      }
    case Recover(_) =>
    case Compete(_, _) =>
  }

  /** After success the client is done; what competitors write does not count for it. */
  lemma {:induction false} SuccessStays(
    tested: set<string>, ctx: Context, p: PreparedWrite, w: World, events: seq<Event>)
    requires w.phase == Succeeded
    ensures var end := Run(tested, ctx, p, w, events);
            end.phase == Succeeded && OwnWrites(end.history, p) == OwnWrites(w.history, p)
    decreases |events|
  {
    if events != [] {
      if events[0].Compete? && events[0].prepared.idempotencyKey != p.idempotencyKey {
        CompetitorAddsNoOwnWrite(tested, w.store, w.history, events[0].context, events[0].prepared, p);
      }
      SuccessStays(tested, ctx, p, Next(tested, ctx, p, w, events[0]), events[1..]);
    }
  }

  lemma CompetitorAddsNoOwnWrite(
    tested: set<string>, store: Store, history: seq<Write>, ctx: Context, q: PreparedWrite, p: PreparedWrite)
    requires q.idempotencyKey != p.idempotencyKey
    ensures OwnWrites(history + Dispatch(tested, store, ctx, q).writes, p) == OwnWrites(history, p)
  {
    DispatchWritesIff(tested, store, ctx, q);
    OwnWritesAppend(history, Dispatch(tested, store, ctx, q).writes, p);
  }

  lemma {:induction false} NothingToBorrowAfterSuccess(
    tested: set<string>, ctx: Context, p: PreparedWrite, w: World, events: seq<Event>)
    requires w.phase == Succeeded
    ensures NeverBorrows(tested, ctx, p, w, events)
    decreases |events|
  {
    if events != [] {
      NothingToBorrowAfterSuccess(tested, ctx, p, Next(tested, ctx, p, w, events[0]), events[1..]);
    }
  }

  /** On a key shared with any competing writers, a run that ends in success has written the client's payload once
      exactly when no recovery borrowed a competitor's write; otherwise it has not written at all. */
  lemma {:induction false} SuccessIsOwnIff(
    tested: set<string>, ctx: Context, p: PreparedWrite, w: World, events: seq<Event>)
    requires WrittenOnce(w, p) && (w.phase == Succeeded ==> OwnWrites(w.history, p) == 1)
    requires Run(tested, ctx, p, w, events).phase == Succeeded
    ensures OwnWrites(Run(tested, ctx, p, w, events).history, p)
            == if NeverBorrows(tested, ctx, p, w, events) then 1 else 0
    decreases |events|
  {
    if w.phase == Succeeded {
      SuccessStays(tested, ctx, p, w, events);
      NothingToBorrowAfterSuccess(tested, ctx, p, w, events);
    } else if events != [] {
      var after := Next(tested, ctx, p, w, events[0]);
      StepKeepsWrittenOnce(tested, ctx, p, w, events[0]);
      StepSucceedsByWriting(tested, ctx, p, w, events[0]);
      if Borrows(tested, ctx, p, w, events[0]) {
        SuccessStays(tested, ctx, p, after, events[1..]);
      } else {
        SuccessIsOwnIff(tested, ctx, p, after, events[1..]);
      }
    }
  }

  /** Without a key of its own, success does not mean that the client wrote: a competitor with an equal payload
      makes recovery report the client's lost request as reconciled. */
  lemma CompetitorCanSucceedForTheClient(tested: set<string>, ctx: Context, p: PreparedWrite, q: PreparedWrite)
    requires ctx.mode == Uat && p.capability in tested * ctx.enabled * WRITE_CAPABILITIES
    requires WellPrepared(p) && p.approved && q == p.(idempotencyKey := p.idempotencyKey + "-other")
    ensures var end := Run(tested, ctx, p, World(Ready, Store(map[], map[]), []),
                           [Send(RequestLost), Compete(ctx, q), Recover(true)]);
            end.phase == Succeeded && OwnWrites(end.history, p) == 0
  {
    var w0 := World(Ready, Store(map[], map[]), []);
    assert |q.idempotencyKey| != |p.idempotencyKey|;
    var w1 := Next(tested, ctx, p, w0, Send(RequestLost));
    var w2 := Next(tested, ctx, p, w1, Compete(ctx, q));
    OwnWritesAppend([], Dispatch(tested, w1.store, ctx, q).writes, p);
    var w3 := Next(tested, ctx, p, w2, Recover(true));
    calc {
      Run(tested, ctx, p, w0, [Send(RequestLost), Compete(ctx, q), Recover(true)]);
      Run(tested, ctx, p, w1, [Compete(ctx, q), Recover(true)]);
      Run(tested, ctx, p, w2, [Recover(true)]);
      Run(tested, ctx, p, w3, []);
    }
  }
}
