/** The reference write adapter: authorization, version check, approval, idempotency, versioned records. */
module Connector {
  import opened Wrappers

  datatype Mode = Disconnected | ReadOnly | Simulation | Shadow | Uat | LimitedWrite | ProductionWrite

  const WRITE_CAPABILITIES: set<string> := {
    "create_requisition_draft", "create_rfq_draft", "create_purchase_order_draft",
    "attach_document", "write_receipt", "export_reconciliation"}

  datatype Context = Context(mode: Mode, enabled: set<string>, writesEnabled: bool)

  type Payload = string

  /** The hash of a payload, known only to be injective. */
  datatype Digest = Digest(of: Payload)

  /** Versions print as decimal numbers; an expected version of any other text is a negative number here. */
  datatype PreparedWrite = PreparedWrite(
    capability: string, externalKey: string, payload: Payload, payloadHash: Digest,
    idempotencyKey: string, expected: Option<int>, approved: bool)

  datatype Status = Simulated | Acknowledged | Conflicting

  datatype DispatchResult = DispatchResult(
    status: Status, externalId: Option<string>, version: Option<nat>, acknowledged: Option<Digest>)

  datatype Error =
    | ConnectionDisabled | CapabilityNotEnabled | ConnectionReadOnly | EmergencyDisable
    | KeysMissing | StaleVersion | ApprovalMissing

  datatype Outcome<T> = Returned(value: T) | Refused(error: Error)

  datatype Stored = Stored(payload: Payload, version: nat)

  datatype Store = Store(records: map<string, Stored>, idempotency: map<string, DispatchResult>)

  /** One change of a record, as a history entry. */
  datatype Write = Write(
    externalKey: string, payload: Payload, idempotencyKey: string, expected: Option<int>, version: nat)

  /** The reason a capability is refused, checked in the adapter's order. */
  function Authorize(tested: set<string>, ctx: Context, capability: string, write: bool): Option<Error> {
    if ctx.mode == Disconnected then Some(ConnectionDisabled)
    else if capability !in tested || capability !in ctx.enabled then Some(CapabilityNotEnabled)
    else if write && (capability !in WRITE_CAPABILITIES || ctx.mode == ReadOnly) then Some(ConnectionReadOnly)
    else if write && ctx.mode in {LimitedWrite, ProductionWrite} && !ctx.writesEnabled then Some(EmergencyDisable)
    else None
  }

  function PrepareWrite(
    tested: set<string>, ctx: Context, capability: string, externalKey: string, payload: Payload,
    idempotencyKey: string, expected: Option<int>): Outcome<PreparedWrite>
  {
    var refusal := Authorize(tested, ctx, capability, true);
    if refusal.Some? then Refused(refusal.value)
    else if idempotencyKey == "" || externalKey == "" then Refused(KeysMissing)
    else Returned(PreparedWrite(capability, externalKey, payload, Digest(payload), idempotencyKey, expected, false))
  }

  /** The expected version is compared only when the record exists. */
  predicate IsStale(records: map<string, Stored>, p: PreparedWrite) {
    p.externalKey in records && p.expected.Some? && p.expected.value != records[p.externalKey].version
  }

  function ApproveWrite(
    tested: set<string>, store: Store, ctx: Context, p: PreparedWrite, reference: bool): Outcome<PreparedWrite>
  {
    var refusal := Authorize(tested, ctx, p.capability, true);
    if refusal.Some? then Refused(refusal.value)
    else if IsStale(store.records, p) then Refused(StaleVersion)
    else if !reference then Refused(ApprovalMissing)
    else Returned(p.(approved := true))
  }

  const CONFLICT := DispatchResult(Conflicting, None, None, None)

  predicate NeedsApproval(m: Mode) {
    m in {Uat, LimitedWrite, ProductionWrite}
  }

  function NextVersion(records: map<string, Stored>, key: string): nat {
    if key in records then records[key].version + 1 else 1
  }

  datatype Dispatched = Dispatched(outcome: Outcome<DispatchResult>, store: Store, writes: seq<Write>)

  /** One dispatch. The version check comes before the idempotency lookup, as in the adapter. */
  function Dispatch(tested: set<string>, store: Store, ctx: Context, p: PreparedWrite): Dispatched {
    var refusal := Authorize(tested, ctx, p.capability, true);
    if refusal.Some? then Dispatched(Refused(refusal.value), store, [])
    else if IsStale(store.records, p) then Dispatched(Returned(CONFLICT), store, [])
    else if NeedsApproval(ctx.mode) && !p.approved then Dispatched(Refused(ApprovalMissing), store, [])
    else if p.idempotencyKey in store.idempotency then
      Dispatched(Returned(store.idempotency[p.idempotencyKey]), store, [])
    else if ctx.mode in {Simulation, Shadow} then
      var result := DispatchResult(Simulated, Some(p.externalKey), None, Some(p.payloadHash));
      Dispatched(Returned(result), store.(idempotency := store.idempotency[p.idempotencyKey := result]), [])
    else
      var version := NextVersion(store.records, p.externalKey);
      var result := DispatchResult(Acknowledged, Some(p.externalKey), Some(version), Some(p.payloadHash));
      Dispatched(
        Returned(result),
        Store(store.records[p.externalKey := Stored(p.payload, version)],
              store.idempotency[p.idempotencyKey := result]),
        [Write(p.externalKey, p.payload, p.idempotencyKey, p.expected, version)])
  }

  datatype Recovery = Reconciled | NotFound(retrySafe: bool)

  /** Reads the external record before any retry. */
  function RecoverAmbiguous(tested: set<string>, store: Store, ctx: Context, p: PreparedWrite): Outcome<Recovery> {
    var refusal := Authorize(tested, ctx, p.capability, true);
    if refusal.Some? then Refused(refusal.value)
    else if p.externalKey !in store.records then Returned(NotFound(true))
    else if Digest(store.records[p.externalKey].payload) == p.payloadHash then Returned(Reconciled)
    else Returned(NotFound(false))
  }

  class ReferenceConnector {
    const tested: set<string>
    var records: map<string, Stored>
    var idempotency: map<string, DispatchResult>
    ghost var history: seq<Write>

    function Value(): Store
      reads this
    {
      Store(records, idempotency)
    }

    constructor (capabilities: set<string>)
      ensures tested == capabilities && Value() == Store(map[], map[]) && history == []
    {
      tested, records, idempotency, history := capabilities, map[], map[], [];
    }

    method DispatchWrite(ctx: Context, p: PreparedWrite) returns (outcome: Outcome<DispatchResult>)
      modifies this
      ensures var done := Dispatch(tested, old(Value()), ctx, p);
              outcome == done.outcome && Value() == done.store && history == old(history) + done.writes
    {
      var refusal := Authorize(tested, ctx, p.capability, true);
      if refusal.Some? {
        return Refused(refusal.value);
      }
      if IsStale(records, p) {
        return Returned(CONFLICT);
      }
      if NeedsApproval(ctx.mode) && !p.approved {
        return Refused(ApprovalMissing);
      }
      if p.idempotencyKey in idempotency {
        return Returned(idempotency[p.idempotencyKey]);
      }
      var result;
      if ctx.mode == Simulation || ctx.mode == Shadow {
        result := DispatchResult(Simulated, Some(p.externalKey), None, Some(p.payloadHash));
      } else {
        var version := NextVersion(records, p.externalKey);
        records := records[p.externalKey := Stored(p.payload, version)];
        history := history + [Write(p.externalKey, p.payload, p.idempotencyKey, p.expected, version)];
        result := DispatchResult(Acknowledged, Some(p.externalKey), Some(version), Some(p.payloadHash));
      }
      idempotency := idempotency[p.idempotencyKey := result];
      return Returned(result);
    }
  }

  // ---------- When a record changes ----------

  /** Authorized, approved, current and first under its idempotency key, in a mode that writes. */
  predicate MayWrite(tested: set<string>, store: Store, ctx: Context, p: PreparedWrite) {
    && p.capability in tested * ctx.enabled * WRITE_CAPABILITIES
    && ctx.mode in {Uat, LimitedWrite, ProductionWrite}
    && (ctx.mode != Uat ==> ctx.writesEnabled)
    && p.approved
    && !IsStale(store.records, p)
    && p.idempotencyKey !in store.idempotency
  }

  /** Records change exactly on an authorized, approved, current and first-time dispatch in UAT or a production-write
      mode, and in the production modes only while writes are enabled. */
  lemma DispatchWritesIff(tested: set<string>, store: Store, ctx: Context, p: PreparedWrite)
    ensures var done, version := Dispatch(tested, store, ctx, p), NextVersion(store.records, p.externalKey);
            if MayWrite(tested, store, ctx, p)
            then
              && done.writes == [Write(p.externalKey, p.payload, p.idempotencyKey, p.expected, version)]
              && done.store.records == store.records[p.externalKey := Stored(p.payload, version)]
            else done.writes == [] && done.store.records == store.records
  {}

  /** A dispatch repeated at once never writes again, and it answers as the first did unless that first one wrote a
      record against a stated version: then the version check reports the adapter's own write as a conflict. The one
      stated version that survives is 1 for a record that did not exist. */
  lemma RetryRepeatsIff(tested: set<string>, store: Store, ctx: Context, p: PreparedWrite)
    ensures var first := Dispatch(tested, store, ctx, p);
            var second := Dispatch(tested, first.store, ctx, p);
            && second.writes == []
            && (second.outcome == first.outcome
                <==> !(MayWrite(tested, store, ctx, p) && p.expected.Some?
                       && (p.externalKey in store.records || p.expected.value != 1)))
  {}

  /** A connection may write a capability: it is connected and not read-only, the capability is tested, enabled and one
      of the write capabilities, and in the production modes writes are enabled. */
  predicate MayUse(tested: set<string>, ctx: Context, capability: string) {
    && ctx.mode != Disconnected && ctx.mode != ReadOnly
    && capability in tested && capability in ctx.enabled && capability in WRITE_CAPABILITIES
    && (ctx.mode == LimitedWrite || ctx.mode == ProductionWrite ==> ctx.writesEnabled)
  }

  lemma AuthorizedIff(tested: set<string>, ctx: Context, capability: string)
    ensures Authorize(tested, ctx, capability, true) == None <==> MayUse(tested, ctx, capability)
    ensures Authorize(tested, ctx, capability, false) == None
            <==> ctx.mode != Disconnected && capability in tested && capability in ctx.enabled
  {}

  /** A write is prepared exactly when the connection may write it and both keys are given; it is not approved. */
  lemma PreparesIff(
    tested: set<string>, ctx: Context, capability: string, externalKey: string, payload: Payload,
    idempotencyKey: string, expected: Option<int>)
    ensures var prepared := PrepareWrite(tested, ctx, capability, externalKey, payload, idempotencyKey, expected);
            if MayUse(tested, ctx, capability) && externalKey != "" && idempotencyKey != ""
            then prepared == Returned(PreparedWrite(capability, externalKey, payload, Digest(payload), idempotencyKey,
                                                    expected, false))
            else prepared.Refused?
  {}

  /** A write is approved exactly when the connection may write it, its stated version is the record's, and an approval
      reference is given; the approval changes nothing else. */
  lemma ApprovesIff(tested: set<string>, store: Store, ctx: Context, p: PreparedWrite, reference: bool)
    ensures var approved := ApproveWrite(tested, store, ctx, p, reference);
            if && MayUse(tested, ctx, p.capability)
               && (p.externalKey in store.records && p.expected.Some? ==>
                     p.expected.value == store.records[p.externalKey].version)
               && reference
            then approved == Returned(p.(approved := true))
            else approved.Refused?
  {}

  /** A write that was prepared and approved carries the prepared content with its hash, and its dispatch against the
      same records writes exactly when the mode is not a simulated one and its idempotency key is new. */
  lemma ApprovedWriteIsDispatched(
    tested: set<string>, store: Store, ctx: Context, capability: string, externalKey: string, payload: Payload,
    idempotencyKey: string, expected: Option<int>, p: PreparedWrite, q: PreparedWrite, reference: bool)
    requires PrepareWrite(tested, ctx, capability, externalKey, payload, idempotencyKey, expected) == Returned(p)
    requires ApproveWrite(tested, store, ctx, p, reference) == Returned(q)
    ensures reference
    ensures q == PreparedWrite(capability, externalKey, payload, Digest(payload), idempotencyKey, expected, true)
    ensures externalKey != "" && idempotencyKey != ""
    ensures var done := Dispatch(tested, store, ctx, q);
            && (idempotencyKey !in store.idempotency ==>
                  done.outcome.Returned?
                  && done.outcome.value.status == if ctx.mode in {Simulation, Shadow} then Simulated else Acknowledged)
            && (done.writes != [] <==> ctx.mode !in {Simulation, Shadow} && idempotencyKey !in store.idempotency)
  {}

  // ---------- Versions and writes over every run ----------

  function Count(history: seq<Write>, key: string): nat {
    if history == [] then 0
    else Count(history[..|history| - 1], key) + if history[|history| - 1].externalKey == key then 1 else 0
  }

  /** Each write's version is its ordinal number among the writes to its key, and it extends the version its caller
      stated unless it created the record. */
  ghost predicate Chained(history: seq<Write>) {
    forall i | 0 <= i < |history| ::
      var w := history[i];
      && w.version == Count(history[..i + 1], w.externalKey)
      && (w.expected.Some? && w.version > 1 ==> w.expected.value == w.version - 1)
  }

  predicate IsLastWrite(history: seq<Write>, i: int, key: string) {
    0 <= i < |history| && history[i].externalKey == key && forall j | i < j < |history| :: history[j].externalKey != key
  }

  /** The last write to the key carried this payload. */
  ghost predicate LastWriteTo(history: seq<Write>, key: string, payload: Payload) {
    exists i :: IsLastWrite(history, i, key) && history[i].payload == payload
  }

  /** Records hold the last payload written to their key, under the number of writes to it. */
  ghost predicate VersionsMatch(records: map<string, Stored>, history: seq<Write>) {
    && Chained(history)
    && (forall key :: key in records <==> Count(history, key) > 0)
    && (forall key | key in records ::
          records[key].version == Count(history, key) && LastWriteTo(history, key, records[key].payload))
  }

  function ResultOf(w: Write): DispatchResult {
    DispatchResult(Acknowledged, Some(w.externalKey), Some(w.version), Some(Digest(w.payload)))
  }

  ghost predicate WrittenUnder(history: seq<Write>, idempotencyKey: string) {
    exists i | 0 <= i < |history| :: history[i].idempotencyKey == idempotencyKey
  }

  /** Acknowledgements remembered under an idempotency key tell the one write made under it. */
  ghost predicate ResultsMatch(idempotency: map<string, DispatchResult>, history: seq<Write>) {
    && (forall i, j | 0 <= i < j < |history| :: history[i].idempotencyKey != history[j].idempotencyKey)
    && (forall i | 0 <= i < |history| ::
          history[i].idempotencyKey in idempotency
          && idempotency[history[i].idempotencyKey] == ResultOf(history[i]))
    && (forall k | k in idempotency && idempotency[k].status == Acknowledged :: WrittenUnder(history, k))
  }

  ghost predicate Consistent(store: Store, history: seq<Write>) {
    VersionsMatch(store.records, history) && ResultsMatch(store.idempotency, history)
  }

  datatype Request = Request(context: Context, prepared: PreparedWrite)

  /** A write as `PrepareWrite` builds it: its hash is its payload's. */
  predicate WellPrepared(p: PreparedWrite) {
    p.payloadHash == Digest(p.payload)
  }

  lemma CountAppend(history: seq<Write>, w: Write, key: string)
    ensures Count(history + [w], key) == Count(history, key) + if w.externalKey == key then 1 else 0
  {
    assert (history + [w])[..|history|] == history;
  }

  lemma AppendChains(history: seq<Write>, w: Write)
    requires Chained(history)
    requires w.version == Count(history, w.externalKey) + 1
    requires w.expected.Some? && w.version > 1 ==> w.expected.value == w.version - 1
    ensures Chained(history + [w])
  {
    var longer := history + [w];
    CountAppend(history, w, w.externalKey);
    forall i | 0 <= i < |longer|
      ensures longer[i].version == Count(longer[..i + 1], longer[i].externalKey)
    {
      if i < |history| {
        assert longer[..i + 1] == history[..i + 1];
      } else {
        assert longer[..i + 1] == longer;
      }
    }
  }

  lemma AppendKeepsLastWrites(history: seq<Write>, w: Write, key: string, payload: Payload)
    requires if key == w.externalKey then payload == w.payload else LastWriteTo(history, key, payload)
    ensures LastWriteTo(history + [w], key, payload)
  {
    var longer := history + [w];
    if key == w.externalKey {
      assert IsLastWrite(longer, |history|, key);
    } else {
      var i :| IsLastWrite(history, i, key) && history[i].payload == payload;
      assert IsLastWrite(longer, i, key);
    }
  }

  lemma AppendKeepsVersions(records: map<string, Stored>, history: seq<Write>, w: Write)
    requires VersionsMatch(records, history) && w.version == NextVersion(records, w.externalKey)
    requires w.externalKey in records && w.expected.Some? ==> w.expected.value == records[w.externalKey].version
    ensures VersionsMatch(records[w.externalKey := Stored(w.payload, w.version)], history + [w])
  {
    var after := records[w.externalKey := Stored(w.payload, w.version)];
    AppendChains(history, w);
    forall key ensures Count(history + [w], key) == Count(history, key) + if w.externalKey == key then 1 else 0 {
      CountAppend(history, w, key);
    }
    forall key | key in after ensures LastWriteTo(history + [w], key, after[key].payload) {
      AppendKeepsLastWrites(history, w, key, after[key].payload);
    }
  }

  lemma AppendKeepsResults(idempotency: map<string, DispatchResult>, history: seq<Write>, w: Write)
    requires ResultsMatch(idempotency, history) && w.idempotencyKey !in idempotency
    ensures ResultsMatch(idempotency[w.idempotencyKey := ResultOf(w)], history + [w])
  {
    var longer, after := history + [w], idempotency[w.idempotencyKey := ResultOf(w)];
    forall k | k in after && after[k].status == Acknowledged ensures WrittenUnder(longer, k) {
      if k == w.idempotencyKey {
        assert longer[|history|].idempotencyKey == k;
      } else {
        var i :| 0 <= i < |history| && history[i].idempotencyKey == k;
        assert longer[i].idempotencyKey == k;
      }
    }
  }

  /** A dispatch makes no write and remembers at most a simulated result, or makes one write with its result. */
  lemma DispatchShape(tested: set<string>, store: Store, r: Request)
    requires WellPrepared(r.prepared)
    ensures var p, done := r.prepared, Dispatch(tested, store, r.context, r.prepared);
            if done.writes == [] then
              && done.store.records == store.records
              && (done.store.idempotency == store.idempotency
                  || (p.idempotencyKey !in store.idempotency
                      && done.store.idempotency
                         == store.idempotency[p.idempotencyKey :=
                              DispatchResult(Simulated, Some(p.externalKey), None, Some(p.payloadHash))]))
            else
              var w := Write(p.externalKey, p.payload, p.idempotencyKey, p.expected,
                             NextVersion(store.records, p.externalKey));
              && done.writes == [w]
              && !IsStale(store.records, p) && w.idempotencyKey !in store.idempotency
              && done.store.records == store.records[w.externalKey := Stored(w.payload, w.version)]
              && done.store.idempotency == store.idempotency[w.idempotencyKey := ResultOf(w)]
  {}

  /** Every dispatch, accepted or not, keeps versions, writes and remembered results consistent. */
  lemma DispatchKeepsConsistent(tested: set<string>, store: Store, history: seq<Write>, r: Request)
    requires Consistent(store, history) && WellPrepared(r.prepared)
    ensures var done := Dispatch(tested, store, r.context, r.prepared);
            VersionsMatch(done.store.records, history + done.writes)
            && ResultsMatch(done.store.idempotency, history + done.writes)
  {
    DispatchShape(tested, store, r);
    var done := Dispatch(tested, store, r.context, r.prepared);
    if done.writes == [] {
      assert history + done.writes == history;
    } else {
      var w := done.writes[0];
      AppendKeepsVersions(store.records, history, w);
      AppendKeepsResults(store.idempotency, history, w);
    }
  }

  function RunDispatches(tested: set<string>, store: Store, history: seq<Write>, run: seq<Request>): (Store, seq<Write>)
    decreases |run|
  {
    if run == [] then (store, history)
    else
      var done := Dispatch(tested, store, run[0].context, run[0].prepared);
      RunDispatches(tested, done.store, history + done.writes, run[1..])
  }

  lemma {:induction false} RunKeepsConsistent(tested: set<string>, store: Store, history: seq<Write>, run: seq<Request>)
    requires Consistent(store, history) && forall r | r in run :: WellPrepared(r.prepared)
    ensures var (store', history') := RunDispatches(tested, store, history, run); Consistent(store', history')
    decreases |run|
  {
    if run != [] {
      DispatchKeepsConsistent(tested, store, history, run[0]);
      var done := Dispatch(tested, store, run[0].context, run[0].prepared);
      RunKeepsConsistent(tested, done.store, history + done.writes, run[1..]);
    }
  }

  // ---------- A request repeated after other dispatches ----------

  /** Conflicts are never remembered. */
  predicate RemembersNoConflict(idempotency: map<string, DispatchResult>) {
    forall k | k in idempotency :: idempotency[k].status != Conflicting
  }

  /** What is remembered under an idempotency key stays. */
  predicate Remembers(earlier: map<string, DispatchResult>, later: map<string, DispatchResult>) {
    forall k | k in earlier :: k in later && later[k] == earlier[k]
  }

  lemma DispatchRemembers(tested: set<string>, store: Store, ctx: Context, p: PreparedWrite)
    ensures var after := Dispatch(tested, store, ctx, p).store.idempotency;
            && Remembers(store.idempotency, after)
            && (RemembersNoConflict(store.idempotency) ==> RemembersNoConflict(after))
  {}

  lemma {:induction false} RunRemembers(tested: set<string>, store: Store, history: seq<Write>, run: seq<Request>)
    ensures var after := RunDispatches(tested, store, history, run).0.idempotency;
            && Remembers(store.idempotency, after)
            && (RemembersNoConflict(store.idempotency) ==> RemembersNoConflict(after))
    decreases |run|
  {
    if run != [] {
      DispatchRemembers(tested, store, run[0].context, run[0].prepared);
      var done := Dispatch(tested, store, run[0].context, run[0].prepared);
      RunRemembers(tested, done.store, history + done.writes, run[1..]);
    }
  }

  /** The answers of one request to two states of the adapter, of which the later one remembers what the earlier one
      did: they are equal exactly when the version check rejects it both times or neither time. */
  lemma AnswersAlikeIff(tested: set<string>, store: Store, later: Store, ctx: Context, p: PreparedWrite)
    requires Remembers(Dispatch(tested, store, ctx, p).store.idempotency, later.idempotency)
    requires RemembersNoConflict(later.idempotency)
    ensures var first, second := Dispatch(tested, store, ctx, p), Dispatch(tested, later, ctx, p);
            first.outcome == second.outcome
            <==> Authorize(tested, ctx, p.capability, true).Some?
                 || (IsStale(store.records, p) <==> IsStale(later.records, p))
  {}

  lemma WritesOnlyOnce(tested: set<string>, store: Store, later: Store, ctx: Context, p: PreparedWrite)
    requires Remembers(Dispatch(tested, store, ctx, p).store.idempotency, later.idempotency)
    requires p.idempotencyKey in Dispatch(tested, store, ctx, p).store.idempotency
    ensures Dispatch(tested, later, ctx, p).writes == []
  {}

  /** A request repeated after any other dispatches, in an adapter that remembers no conflict, as none reached from the
      empty one does: it never writes again if the first time left a result under its idempotency key; and it is
      answered as the first time exactly when it is not authorized at all, or its stated version is rejected both times
      or neither time. */
  lemma RetryIsAnsweredAlikeIff(
    tested: set<string>, store: Store, ctx: Context, p: PreparedWrite, run: seq<Request>)
    requires RemembersNoConflict(store.idempotency)
    ensures var first := Dispatch(tested, store, ctx, p);
            var later := RunDispatches(tested, first.store, [], run).0;
            var second := Dispatch(tested, later, ctx, p);
            && (second.outcome == first.outcome
                <==> Authorize(tested, ctx, p.capability, true).Some?
                     || (IsStale(store.records, p) <==> IsStale(later.records, p)))
            && (p.idempotencyKey in first.store.idempotency ==> second.writes == [])
  {
    var first := Dispatch(tested, store, ctx, p);
    var later := RunDispatches(tested, first.store, [], run).0;
    DispatchRemembers(tested, store, ctx, p);
    RunRemembers(tested, first.store, [], run);
    AnswersAlikeIff(tested, store, later, ctx, p);
    if p.idempotencyKey in first.store.idempotency {
      WritesOnlyOnce(tested, store, later, ctx, p);
    }
  }

  /** Over every run from the empty adapter: a record's version is the number of writes to its key, each idempotency
      key writes at most once, and no two writes extend the same stated version of an existing record. */
  lemma VersionsCountWrites(tested: set<string>, run: seq<Request>)
    requires forall r | r in run :: WellPrepared(r.prepared)
    ensures var (store, history) := RunDispatches(tested, Store(map[], map[]), [], run);
            && (forall key :: Count(history, key) == if key in store.records then store.records[key].version else 0)
            && (forall i, j | 0 <= i < j < |history| :: history[i].idempotencyKey != history[j].idempotencyKey)
            && (forall i, j | 0 <= i < j < |history| && history[i].externalKey == history[j].externalKey
                              && history[i].version > 1 && history[i].expected.Some? ::
                  history[j].expected != history[i].expected)
  {
    RunKeepsConsistent(tested, Store(map[], map[]), [], run);
    var (store, history) := RunDispatches(tested, Store(map[], map[]), [], run);
    forall i, j | 0 <= i < j < |history| && history[i].externalKey == history[j].externalKey
                  && history[i].version > 1 && history[i].expected.Some?
      ensures history[j].expected != history[i].expected
    {
      CountGrows(history, i, j);
    }
  }

  /** Recovery reads the history right: a retry is called safe exactly when nothing was ever written to the key, and
      the write is called reconciled exactly when the last write to the key carried its payload. */
  lemma RecoveryReadsTheHistory(
    tested: set<string>, store: Store, history: seq<Write>, ctx: Context, p: PreparedWrite)
    requires Consistent(store, history) && WellPrepared(p)
    ensures RecoverAmbiguous(tested, store, ctx, p).Returned? <==> MayUse(tested, ctx, p.capability)
    ensures var read := RecoverAmbiguous(tested, store, ctx, p);
            read.Returned? ==>
              && (read.value == NotFound(true) <==> Unwritten(history, p.externalKey))
              && (read.value == Reconciled <==> LastWriteTo(history, p.externalKey, p.payload))
  {
    RecordsTellTheWritten(store.records, history, p.externalKey);
    RecordsTellTheLastPayload(store.records, history, p.externalKey, p.payload);
  }

  predicate Unwritten(history: seq<Write>, key: string) {
    forall i | 0 <= i < |history| :: history[i].externalKey != key
  }

  lemma RecordsTellTheWritten(records: map<string, Stored>, history: seq<Write>, key: string)
    requires VersionsMatch(records, history)
    ensures key in records <==> !Unwritten(history, key)
  {
    NoneIsCounted(history, key);
  }

  lemma RecordsTellTheLastPayload(records: map<string, Stored>, history: seq<Write>, key: string, payload: Payload)
    requires VersionsMatch(records, history)
    ensures LastWriteTo(history, key, payload) <==> key in records && records[key].payload == payload
  {
    RecordsTellTheWritten(records, history, key);
    if key in records {
      assert LastWriteTo(history, key, records[key].payload);
      LastPayloadIsUnique(history, key, records[key].payload);
    }
  }

  lemma LastPayloadIsUnique(history: seq<Write>, key: string, payload: Payload)
    requires LastWriteTo(history, key, payload)
    ensures forall other :: LastWriteTo(history, key, other) ==> other == payload
  {
    var i :| IsLastWrite(history, i, key) && history[i].payload == payload;
    forall other | LastWriteTo(history, key, other) ensures other == payload {
      var j :| IsLastWrite(history, j, key) && history[j].payload == other;
      assert i == j;
    }
  }

  lemma {:induction false} NoneIsCounted(history: seq<Write>, key: string)
    ensures Count(history, key) == 0 <==> Unwritten(history, key)
  {
    if history != [] {
      var n := |history| - 1;
      NoneIsCounted(history[..n], key);
      assert forall i | 0 <= i < n :: history[..n][i] == history[i];
    }
  }

  lemma {:induction false} CountGrows(history: seq<Write>, i: nat, j: nat)
    requires i < j < |history| && history[i].externalKey == history[j].externalKey
    ensures Count(history[..i + 1], history[i].externalKey) < Count(history[..j + 1], history[i].externalKey)
  {
    assert history[..j + 1][..j] == history[..j];
    CountIsMonotone(history[..j], i + 1, history[i].externalKey);
    assert history[..j][..i + 1] == history[..i + 1];
  }

  lemma {:induction false} CountIsMonotone(history: seq<Write>, n: nat, key: string)
    requires n <= |history|
    ensures Count(history[..n], key) <= Count(history, key)
  {
    if n == |history| {
      assert history[..n] == history;
    } else {
      assert history[..|history| - 1][..n] == history[..n];
      CountIsMonotone(history[..|history| - 1], n, key);
    }
  }
}
