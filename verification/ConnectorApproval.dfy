/** Nothing is written without an approval: requests that come only from the adapter's own steps. */
module ConnectorApproval {
  import opened Wrappers
  import opened Connector

  /** `issued` are the requests the adapter has handed out, `granted` those that a caller obtained by naming an approval
      reference. */
  datatype World = World(
    store: Store, issued: seq<PreparedWrite>, granted: set<PreparedWrite>, history: seq<Write>, modes: seq<Mode>)

  const START := World(Store(map[], map[]), [], {}, [], [])

  /** Requests are named by their position, since callers can only use those they were handed. */
  datatype Step =
    | Prepare(context: Context, capability: string, externalKey: string, payload: Payload, idempotencyKey: string,
              expected: Option<int>)
    | Approve(context: Context, request: nat, reference: bool)
    | Send(context: Context, request: nat)

  function Next(tested: set<string>, w: World, s: Step): World {
    match s
    case Prepare(ctx, capability, externalKey, payload, idempotencyKey, expected) =>
      var prepared := PrepareWrite(tested, ctx, capability, externalKey, payload, idempotencyKey, expected);
      if prepared.Returned? then w.(issued := w.issued + [prepared.value]) else w
    case Approve(ctx, k, reference) =>
      if k >= |w.issued| then w
      else
        var approved := ApproveWrite(tested, w.store, ctx, w.issued[k], reference);
        if approved.Refused? then w
        else
          w.(issued := w.issued + [approved.value],
             granted := if reference then w.granted + {approved.value} else w.granted)
    case Send(ctx, k) =>
      if k >= |w.issued| then w
      else
        var done := Dispatch(tested, w.store, ctx, w.issued[k]);
        w.(store := done.store, history := w.history + done.writes,
           modes := w.modes + seq(|done.writes|, _ => ctx.mode))
  }

  function Run(tested: set<string>, w: World, steps: seq<Step>): World
    decreases |steps|
  {
    if steps == [] then w else Run(tested, Next(tested, w, steps[0]), steps[1..])
  }

  /** The write carries the content of the request. */
  predicate Carries(write: Write, q: PreparedWrite) {
    && write.externalKey == q.externalKey && write.payload == q.payload && write.idempotencyKey == q.idempotencyKey
    && write.expected == q.expected && q.payloadHash == Digest(q.payload)
  }

  /** The write was made in UAT or a production mode, and a caller had named an approval reference for its request. */
  ghost predicate WasGranted(w: World, i: nat)
    requires i < |w.history| == |w.modes|
  {
    && (w.modes[i] == Uat || w.modes[i] == LimitedWrite || w.modes[i] == ProductionWrite)
    && exists q | q in w.granted :: Carries(w.history[i], q)
  }

  ghost predicate Approved(w: World) {
    && |w.modes| == |w.history|
    && (forall q | q in w.issued :: q.payloadHash == Digest(q.payload) && (q.approved ==> q in w.granted))
    && (forall q | q in w.granted :: q.approved)
    && forall i | 0 <= i < |w.history| :: WasGranted(w, i)
  }

  lemma SendKeepsApproved(tested: set<string>, w: World, ctx: Context, k: nat)
    requires Approved(w) && k < |w.issued|
    ensures Approved(Next(tested, w, Send(ctx, k)))
  {
    var q, next := w.issued[k], Next(tested, w, Send(ctx, k));
    DispatchWritesIff(tested, w.store, ctx, q);
    assert q in w.issued;
    forall i | 0 <= i < |next.history| ensures WasGranted(next, i) {
      if i < |w.history| {
        assert WasGranted(w, i);
      } else {
        assert Carries(next.history[i], q);
      }
    }
  }

  lemma MoreGrants(w: World, next: World)
    requires |w.modes| == |w.history| && forall i | 0 <= i < |w.history| :: WasGranted(w, i)
    requires next.history == w.history && next.modes == w.modes && w.granted <= next.granted
    ensures forall i | 0 <= i < |w.history| :: WasGranted(next, i)
  {
    forall i | 0 <= i < |w.history| ensures WasGranted(next, i) {
      assert WasGranted(w, i);
    }
  }

  lemma StepKeepsApproved(tested: set<string>, w: World, s: Step)
    requires Approved(w)
    ensures Approved(Next(tested, w, s))
  {
    match s
    case Prepare(ctx, capability, externalKey, payload, idempotencyKey, expected) =>
      PreparesIff(tested, ctx, capability, externalKey, payload, idempotencyKey, expected);
      MoreGrants(w, Next(tested, w, s));
    case Approve(ctx, k, reference) =>
      if k < |w.issued| {
        assert w.issued[k] in w.issued;
        ApprovesIff(tested, w.store, ctx, w.issued[k], reference);
      }
      MoreGrants(w, Next(tested, w, s));
    case Send(ctx, k) =>
      if k < |w.issued| {
        SendKeepsApproved(tested, w, ctx, k);
      }
  }

  lemma {:induction false} RunKeepsApproved(tested: set<string>, w: World, steps: seq<Step>)
    requires Approved(w)
    ensures Approved(Run(tested, w, steps))
    decreases |steps|
  {
    if steps != [] {
      StepKeepsApproved(tested, w, steps[0]);
      RunKeepsApproved(tested, Next(tested, w, steps[0]), steps[1..]);
    }
  }

  /** Over every run of the adapter's own steps from the empty adapter, in changing modes: every write was made in UAT
      or a production mode, and for a request whose approval named a reference. */
  lemma EveryWriteWasApproved(tested: set<string>, steps: seq<Step>, i: nat)
    requires i < |Run(tested, START, steps).history|
    ensures var end := Run(tested, START, steps); |end.modes| == |end.history| && WasGranted(end, i)
  {
    RunKeepsApproved(tested, START, steps);
  }
}
