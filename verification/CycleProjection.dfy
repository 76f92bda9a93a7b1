/** The procurement-cycle evaluator: business records in, a stored projection and an event log out. */
module CycleProjection {
  import opened Wrappers

  datatype Stage =
    | Requirement | Specification | Rfq | SupplierResponse | QuotationReview
    | Comparison | Approval | Negotiation | Po | Fulfilment | Receipt
    | Quality | Invoice | Closure

  const STAGES: seq<Stage> := [
    Requirement, Specification, Rfq, SupplierResponse, QuotationReview,
    Comparison, Approval, Negotiation, Po, Fulfilment, Receipt,
    Quality, Invoice, Closure]

  const LAST := |STAGES| - 1

  // ---------- Business records, nested the way the evaluator looks them up ----------

  datatype RequirementStatus = Draft | Approved | RfqDrafted | Cancelled | Closed

  datatype PoRecord = PoRecord(status: string, asn: bool, receipt: bool, inspection: bool, invoice: bool)

  datatype AwardRecord = AwardRecord(po: Option<PoRecord>)

  datatype RfqRecord = RfqRecord(
    status: string, quotes: seq<string>, comparison: Option<string>,
    award: Option<AwardRecord>, negotiation: Option<string>)

  /** Days are ordinals; `needBy` is absent when the requirement carries no date. */
  datatype Facts = Facts(
    status: RequirementStatus, hasSpecification: bool, hasReason: bool,
    needBy: Option<int>, hasOwner: bool, rfq: Option<RfqRecord>)

  predicate HasQuotes(f: Facts) {
    f.rfq.Some? && exists q | q in f.rfq.value.quotes :: q != "superseded"
  }

  predicate AllQuotesVerified(f: Facts) {
    f.rfq.Some? && forall q | q in f.rfq.value.quotes && q != "superseded" :: q == "verified"
  }

  function ComparisonStatus(f: Facts): Option<string> {
    if f.rfq.Some? then f.rfq.value.comparison else None
  }

  predicate Awarded(f: Facts) {
    f.rfq.Some? && f.rfq.value.award.Some?
  }

  function PurchaseOrder(f: Facts): Option<PoRecord> {
    if Awarded(f) then f.rfq.value.award.value.po else None
  }

  predicate Complete(f: Facts, s: Stage) {
    match s
    case Requirement => f.status in {Approved, RfqDrafted, Closed}
    case Specification => f.hasSpecification || f.hasReason
    case Rfq => f.rfq.Some? && f.rfq.value.status in {"published", "responses_open", "closed"}
    case SupplierResponse => HasQuotes(f)
    case QuotationReview => HasQuotes(f) && AllQuotesVerified(f)
    case Comparison => ComparisonStatus(f) in {Some("submitted"), Some("approved")}
    case Approval => ComparisonStatus(f) == Some("approved") && Awarded(f)
    case Negotiation =>
      Awarded(f) && (f.rfq.value.negotiation.None?
                     || f.rfq.value.negotiation.value in {"approved", "accepted", "closed"})
    case Po =>
      PurchaseOrder(f).Some?
      && PurchaseOrder(f).value.status in {"approved_pending_outbox", "posted", "simulated_posted"}
    case Fulfilment => PurchaseOrder(f).Some? && PurchaseOrder(f).value.asn
    case Receipt => PurchaseOrder(f).Some? && PurchaseOrder(f).value.receipt
    case Quality => PurchaseOrder(f).Some? && PurchaseOrder(f).value.inspection
    case Invoice => PurchaseOrder(f).Some? && PurchaseOrder(f).value.invoice
    case Closure => f.status == Closed
  }

  /** The position of the first incomplete stage at or after `from`, if there is one. */
  function FirstIncomplete(f: Facts, from: nat): (p: Option<nat>)
    requires from <= |STAGES|
    ensures p.Some? ==> from <= p.value < |STAGES| && !Complete(f, STAGES[p.value])
    ensures p.Some? ==> forall i | from <= i < p.value :: Complete(f, STAGES[i])
    ensures p.None? ==> forall i | from <= i < |STAGES| :: Complete(f, STAGES[i])
    decreases |STAGES| - from
  {
    if from == |STAGES| then None
    else if !Complete(f, STAGES[from]) then Some(from)
    else FirstIncomplete(f, from + 1)
  }

  // ---------- The stored projection ----------

  datatype Health = OnTrack | Attention | AtRisk
  datatype CycleStatus = Active | Finished
  datatype Coordination = Assign | Propose | Task

  datatype Summary = Summary(
    stage: Stage, presentation: string, ownerRole: Option<string>, missingAssignment: bool,
    needBy: Option<int>, needByMissed: bool, percentage: nat, coordination: Coordination)

  /** `summary` is absent until the first evaluation, as the empty default of the source. */
  datatype Projection = Projection(current: Stage, health: Health, status: CycleStatus, summary: Option<Summary>)

  const UNEVALUATED := Projection(Requirement, OnTrack, Active, None)

  function OwnerRole(s: Stage): string {
    match s
    case Requirement | Specification | Rfq | SupplierResponse => "purchase_executive"
    case QuotationReview | Comparison | Negotiation | Po | Fulfilment | Invoice => "purchase_manager"
    case Approval | Closure => "plant_manager"
    case Receipt => "store_manager"
    case Quality => "quality_inspector"
  }

  function Presentation(s: Stage): string {
    match s
    case Requirement | Specification => "Requirement"
    case Rfq => "RFQ"
    case SupplierResponse | QuotationReview => "Quotations"
    case Comparison => "Comparison"
    case Approval | Negotiation => "Approval"
    case Po | Fulfilment => "PO"
    case Receipt | Quality => "Receipt"
    case Invoice | Closure => "Invoice"
  }

  predicate Overdue(f: Facts, today: int) {
    f.needBy.Some? && f.needBy.value < today
  }

  /** The rounded share of the stages before `position`; a quotient by 13 is never half-way. */
  function Percentage(position: nat): nat {
    (200 * position + LAST) / (2 * LAST)
  }

  /** The projection for a cycle whose first open stage stands at `position`. */
  function Reading(f: Facts, hasOwner: bool, overdue: bool, position: nat, owner: Option<string>): Projection
    requires position < |STAGES|
  {
    var current := STAGES[position];
    Projection(
      current,
      if overdue then AtRisk else if !hasOwner then Attention else OnTrack,
      if f.status == Closed then Finished else Active,
      Some(Summary(current, Presentation(current), owner, !hasOwner, f.needBy, overdue, Percentage(position),
                   if !hasOwner then Assign else if current in {Approval, Po} then Propose else Task)))
  }

  function Project(f: Facts, hasOwner: bool, today: int): Projection {
    var first := FirstIncomplete(f, 0);
    if first.Some?
    then Reading(f, hasOwner, Overdue(f, today), first.value, Some(OwnerRole(STAGES[first.value])))
    else Reading(f, hasOwner, Overdue(f, today), LAST, None)
  }

  // ---------- Stage rows, risk and dependency rows ----------

  datatype StageStatus = Done | Current | Waiting

  datatype StageRow = StageRow(status: StageStatus, owner: string, completedAt: Option<int>)

  datatype RowStatus = Open | Resolved

  function StatusAt(f: Facts, position: nat): StageStatus
    requires position < |STAGES|
  {
    if Complete(f, STAGES[position]) then Done
    else if FirstIncomplete(f, 0) == Some(position) then Current
    else Waiting
  }

  function RowAfter(old': Option<StageRow>, f: Facts, position: nat, now: int): StageRow
    requires position < |STAGES|
  {
    var status := StatusAt(f, position);
    var before := if old'.Some? then old'.value.completedAt else None;
    StageRow(status, OwnerRole(STAGES[position]), if status == Done && before.None? then Some(now) else before)
  }

  function RowsAfter(rows: seq<Option<StageRow>>, f: Facts, now: int): (rows': seq<Option<StageRow>>)
    requires |rows| == |STAGES|
    ensures |rows'| == |STAGES|
    ensures forall i | 0 <= i < |STAGES| :: rows'[i] == Some(RowAfter(rows[i], f, i, now))
  {
    seq(|STAGES|, i requires 0 <= i < |STAGES| => Some(RowAfter(rows[i], f, i, now)))
  }

  function RiskAfter(risk: Option<RowStatus>, overdue: bool): Option<RowStatus> {
    if overdue && risk.None? then Some(Open)
    else if risk.Some? && !overdue then Some(Resolved)
    else risk
  }

  function DependencyAfter(dependency: Option<RowStatus>, missingOwner: bool): Option<RowStatus> {
    if missingOwner && dependency.None? then Some(Open)
    else if dependency == Some(Open) && !missingOwner then Some(Resolved)
    else dependency
  }

  /** One objective with its child rows. `rows[i]` belongs to `STAGES[i]`. */
  datatype Cycle = Cycle(
    hasOwner: bool, projection: Projection, version: nat, lastEvaluated: Option<int>,
    rows: seq<Option<StageRow>>, risk: Option<RowStatus>, dependency: Option<RowStatus>)
  {
    predicate Valid() { |rows| == |STAGES| && 1 <= version }
  }

  const BLANK := Cycle(false, UNEVALUATED, 1, None,
                       [None, None, None, None, None, None, None, None, None, None, None, None, None, None], None, None)

  type StoredCycle = c: Cycle | c.Valid() witness BLANK

  function NewCycle(f: Facts): StoredCycle {
    BLANK.(hasOwner := f.hasOwner)
  }

  /** The outbox row an evaluation writes. */
  datatype CycleEvent = CycleEvent(version: nat, stage: Stage, health: Health)

  predicate HasVersion(log: seq<CycleEvent>, version: nat) {
    exists e | e in log :: e.version == version
  }

  /** What one evaluation stores. */
  function Evaluated(c: StoredCycle, f: Facts, today: int, now: int): StoredCycle {
    var p := Project(f, c.hasOwner, today);
    Cycle(c.hasOwner, p, if p != c.projection then c.version + 1 else c.version, Some(now),
          RowsAfter(c.rows, f, now),
          RiskAfter(c.risk, Overdue(f, today)), DependencyAfter(c.dependency, !c.hasOwner))
  }

  function EmittedFor(before: Projection, after: Projection, version: nat, log: seq<CycleEvent>): seq<CycleEvent> {
    if after != before && !HasVersion(log, version + 1)
    then [CycleEvent(version + 1, after.current, after.health)]
    else []
  }

  /** What one evaluation appends to the event log. */
  function Emitted(c: StoredCycle, log: seq<CycleEvent>, f: Facts, today: int): seq<CycleEvent> {
    EmittedFor(c.projection, Project(f, c.hasOwner, today), c.version, log)
  }

  // ---------- The evaluator as the source runs it: fields overwritten in a loop over the stages ----------

  class Objective {
    var hasOwner: bool
    var projection: Projection
    var version: nat
    var lastEvaluated: Option<int>
    var rows: seq<Option<StageRow>>
    var risk: Option<RowStatus>
    var dependency: Option<RowStatus>
    var log: seq<CycleEvent>

    function Value(): Cycle
      reads this
    {
      Cycle(hasOwner, projection, version, lastEvaluated, rows, risk, dependency)
    }

    constructor (c: Cycle, events: seq<CycleEvent>)
      ensures Value() == c && log == events
    {
      hasOwner, projection, version, lastEvaluated := c.hasOwner, c.projection, c.version, c.lastEvaluated;
      rows, risk, dependency, log := c.rows, c.risk, c.dependency, events;
    }

    /** The loop over the stages; returns the first current stage with its owner role. */
    method ReconcileStages(f: Facts, now: int) returns (firstCurrent: Option<(nat, string)>)
      requires |rows| == |STAGES|
      modifies `rows
      ensures rows == RowsAfter(old(rows), f, now)
      ensures firstCurrent == (var first := FirstIncomplete(f, 0);
                               if first.Some? then Some((first.value, OwnerRole(STAGES[first.value]))) else None)
    {
      var first := FirstIncomplete(f, 0);
      var firstIncomplete := if first.Some? then first.value else LAST;
      firstCurrent := None;
      for position := 0 to |STAGES|
        invariant |rows| == |STAGES|
        invariant forall i | position <= i < |STAGES| :: rows[i] == old(rows)[i]
        invariant forall i | 0 <= i < position :: rows[i] == Some(RowAfter(old(rows)[i], f, i, now))
        invariant firstCurrent == if first.Some? && first.value < position
                                  then Some((first.value, OwnerRole(STAGES[first.value]))) else None
      {
        var stage := STAGES[position];
        var complete := Complete(f, stage);
        var status := if complete then Done else if position == firstIncomplete then Current else Waiting;
        assert status == StatusAt(f, position);
        var row := if rows[position].Some? then rows[position].value else StageRow(Waiting, "", None);
        row := row.(status := status, owner := OwnerRole(stage));
        if status == Done && row.completedAt.None? {
          row := row.(completedAt := Some(now));
        }
        rows := rows[position := Some(row)];
        if status == Current && firstCurrent.None? {
          firstCurrent := Some((position, row.owner));
        }
      }
    }

    method ReconcileRisk(overdue: bool)
      modifies `risk
      ensures risk == RiskAfter(old(risk), overdue)
    {
      if overdue && risk.None? {
        risk := Some(Open);
      } else if risk.Some? && !overdue {
        risk := Some(Resolved);
      }
    }

    method ReconcileDependency()
      modifies `dependency
      ensures dependency == DependencyAfter(old(dependency), !hasOwner)
    {
      if !hasOwner && dependency.None? {
        dependency := Some(Open);
      } else if dependency == Some(Open) && hasOwner {
        dependency := Some(Resolved);
      }
    }

    /** Stores the projection and, if it is new, raises the version and appends the event for it. */
    method RecordProjection(next: Projection)
      modifies `projection, `version, `log
      ensures projection == next
      ensures version == if next != old(projection) then old(version) + 1 else old(version)
      ensures log == old(log) + EmittedFor(old(projection), next, old(version), old(log))
    {
      var changed := projection != next;
      projection := next;
      if changed {
        version := version + 1;
      }
      var recorded := HasVersion(log, version);
      if changed && !recorded {
        log := log + [CycleEvent(version, projection.current, projection.health)];
      }
    }

    method Evaluate(f: Facts, today: int, now: int)
      requires Value().Valid()
      modifies this
      ensures Value() == Evaluated(old(Value()), f, today, now)
      ensures log == old(log) + Emitted(old(Value()), old(log), f, today)
    {
      var firstCurrent := ReconcileStages(f, now);
      var position := if firstCurrent.Some? then firstCurrent.value.0 else LAST;
      var owner := if firstCurrent.Some? then Some(firstCurrent.value.1) else None;
      var overdue := Overdue(f, today);
      RecordProjection(Reading(f, hasOwner, overdue, position, owner));
      lastEvaluated := Some(now);
      ReconcileRisk(overdue);
      ReconcileDependency();
    }
  }

  // ---------- What an evaluation means ----------

  /** A stage is current exactly when it is open and every stage before it is done. */
  lemma CurrentIsTheFirstIncompleteStage(c: StoredCycle, f: Facts, today: int, now: int, position: nat)
    requires position < |STAGES|
    ensures var rows := Evaluated(c, f, today, now).rows;
            rows[position].value.status == Current
            <==> rows[position].value.status != Done && forall i | 0 <= i < position :: rows[i].value.status == Done
  {
    var rows := Evaluated(c, f, today, now).rows;
    var first := FirstIncomplete(f, 0);
    if first.Some? && first.value < position {
      assert rows[first.value].value.status != Done;
    } else {
      forall i | 0 <= i < position ensures rows[i].value.status == Done {
        assert Complete(f, STAGES[i]);
      }
    }
  }

  /** At most one stage is current, the stored projection names it, and none is current only when all are done. */
  lemma OneCurrentStage(c: StoredCycle, f: Facts, today: int, now: int)
    ensures var c' := Evaluated(c, f, today, now);
            if exists i | 0 <= i < |STAGES| :: c'.rows[i].value.status != Done
            then exists i | 0 <= i < |STAGES| ::
                && c'.rows[i].value.status == Current && c'.projection.current == STAGES[i]
                && forall j | 0 <= j < |STAGES| && j != i :: c'.rows[j].value.status != Current
            else c'.projection.current == Closure && c'.projection.summary.value.ownerRole == None
  {
    var c' := Evaluated(c, f, today, now);
    var first := FirstIncomplete(f, 0);
    assert forall i | 0 <= i < |STAGES| :: c'.rows[i].value.status == StatusAt(f, i);
    if first.Some? {
      assert c'.rows[first.value].value.status == Current;
    }
  }

  /** With unchanged facts on the same day, evaluating again changes no projection, version or log. */
  lemma ReevaluationIsSilent(c: StoredCycle, log: seq<CycleEvent>, f: Facts, today: int, now: int, later: int)
    ensures var c1 := Evaluated(c, f, today, now);
            var c2 := Evaluated(c1, f, today, later);
            Emitted(c1, log, f, today) == [] && c2 == c1.(lastEvaluated := Some(later))
  {
    var c1 := Evaluated(c, f, today, now);
    var c2 := Evaluated(c1, f, today, later);
    assert c2.rows == c1.rows;
  }

  /** The stored projection differs from what the facts of the day project. */
  predicate Stale(c: StoredCycle, f: Facts, today: int) {
    c.projection != Project(f, c.hasOwner, today)
  }

  /** An evaluation emits at most one event, only for a stale cycle, and leaves a cycle that is not stale. */
  lemma EvaluationRefreshes(c: StoredCycle, log: seq<CycleEvent>, f: Facts, today: int, now: int)
    ensures !Stale(Evaluated(c, f, today, now), f, today)
    ensures |Emitted(c, log, f, today)| <= if Stale(c, f, today) then 1 else 0
  {}

  // ---------- The event log over every run ----------

  /** Versions 2, 3, .. up to the stored one, once each; the last event tells the stored projection. */
  ghost predicate LogMatches(c: StoredCycle, log: seq<CycleEvent>) {
    && c.version == |log| + 1
    && (forall i | 0 <= i < |log| :: log[i].version == i + 2)
    && (log == [] ==> c.projection == UNEVALUATED)
    && (log != [] ==> log[|log| - 1].stage == c.projection.current
                      && log[|log| - 1].health == c.projection.health)
  }

  /** One evaluation appends exactly one event when it raises the version and none otherwise. */
  lemma EvaluationKeepsLog(c: StoredCycle, log: seq<CycleEvent>, f: Facts, today: int, now: int)
    requires LogMatches(c, log)
    ensures var c' := Evaluated(c, f, today, now);
            var log' := log + Emitted(c, log, f, today);
            LogMatches(c', log') && |log'| - |log| == c'.version - c.version
  {
    var log' := log + Emitted(c, log, f, today);
    assert forall e | e in log :: e.version <= c.version;
  }

  /** With a matching log, a stale cycle always emits: its next version is never logged yet. */
  lemma StaleCycleEmits(c: StoredCycle, log: seq<CycleEvent>, f: Facts, today: int)
    requires LogMatches(c, log)
    ensures var p := Project(f, c.hasOwner, today);
            Emitted(c, log, f, today)
            == if c.projection == p then [] else [CycleEvent(c.version + 1, p.current, p.health)]
  {
    assert forall e | e in log :: e.version <= c.version;
  }

  datatype Evaluation = Evaluation(facts: Facts, today: int, now: int)

  function RunCycle(c: StoredCycle, log: seq<CycleEvent>, run: seq<Evaluation>): (StoredCycle, seq<CycleEvent>) {
    if run == [] then (c, log)
    else
      var (before, logged) := RunCycle(c, log, run[..|run| - 1]);
      var e := run[|run| - 1];
      (Evaluated(before, e.facts, e.today, e.now), logged + Emitted(before, logged, e.facts, e.today))
  }

  /** Gap-free log: over every run of evaluations with changing facts, versions are consecutive. */
  lemma {:induction false} LogIsGapFree(c: StoredCycle, log: seq<CycleEvent>, run: seq<Evaluation>)
    requires LogMatches(c, log)
    ensures var (c', log') := RunCycle(c, log, run); LogMatches(c', log') && log <= log'
  {
    if run != [] {
      var (before, logged) := RunCycle(c, log, run[..|run| - 1]);
      var e := run[|run| - 1];
      LogIsGapFree(c, log, run[..|run| - 1]);
      EvaluationKeepsLog(before, logged, e.facts, e.today, e.now);
    }
  }

  /** The time of the first evaluation of the run that found the stage complete. */
  function FirstCompletion(run: seq<Evaluation>, s: Stage): Option<int> {
    if run == [] then None
    else
      var before, last := FirstCompletion(run[..|run| - 1], s), run[|run| - 1];
      if before.None? && Complete(last.facts, s) then Some(last.now) else before
  }

  function CompletedAt(c: StoredCycle, position: nat): Option<int>
    requires position < |STAGES|
  {
    if c.rows[position].Some? then c.rows[position].value.completedAt else None
  }

  /** A stage's completion time is that of the first evaluation that found it complete, and once stored it survives
      every later evaluation, also when the stage is reopened and completed again. */
  lemma {:induction false} CompletionTimeIsTheFirst(
    c: StoredCycle, log: seq<CycleEvent>, run: seq<Evaluation>, position: nat)
    requires position < |STAGES|
    ensures CompletedAt(RunCycle(c, log, run).0, position)
            == if CompletedAt(c, position).Some? then CompletedAt(c, position)
               else FirstCompletion(run, STAGES[position])
  {
    if run != [] {
      CompletionTimeIsTheFirst(c, log, run[..|run| - 1], position);
    }
  }

  // ---------- When an overdue cycle has an open risk ----------

  predicate WasOverdue(e: Evaluation) {
    Overdue(e.facts, e.today)
  }

  /** Overdue once, and at every evaluation since. */
  predicate OverdueEverSince(run: seq<Evaluation>) {
    && run != [] && WasOverdue(run[|run| - 1])
    && forall i, j | 0 <= i < j < |run| && WasOverdue(run[i]) :: WasOverdue(run[j])
  }

  function RiskAfterRun(f: Facts, run: seq<Evaluation>): Option<RowStatus> {
    RunCycle(NewCycle(f), [], run).0.risk
  }

  lemma RiskOfLonger(f: Facts, run: seq<Evaluation>)
    requires run != []
    ensures RiskAfterRun(f, run) == RiskAfter(RiskAfterRun(f, run[..|run| - 1]), WasOverdue(run[|run| - 1]))
  {}

  /** Over every run of a new cycle, the need-by risk is open exactly when the cycle became overdue once and has stayed
      overdue since: a risk resolved by a new date is never opened again, although the health turns to at-risk. */
  lemma {:induction false} RiskIsOpenIff(f: Facts, run: seq<Evaluation>)
    ensures RiskAfterRun(f, run) == Some(Open) <==> OverdueEverSince(run)
    ensures RiskAfterRun(f, run) == None <==> NeverOverdue(run)
  {
    if run != [] {
      RiskIsOpenIff(f, run[..|run| - 1]);
      RiskOfLonger(f, run);
      OverdueOfLonger(run);
    }
  }

  predicate NeverOverdue(run: seq<Evaluation>) {
    forall i | 0 <= i < |run| :: !WasOverdue(run[i])
  }

  lemma OverdueOfLonger(run: seq<Evaluation>)
    requires run != []
    ensures var before, last := run[..|run| - 1], run[|run| - 1];
            && (NeverOverdue(run) <==> NeverOverdue(before) && !WasOverdue(last))
            && (OverdueEverSince(run) <==> WasOverdue(last) && (OverdueEverSince(before) || NeverOverdue(before)))
  {
    var before, last := run[..|run| - 1], run[|run| - 1];
    assert forall i | 0 <= i < |before| :: run[i] == before[i];
    if !NeverOverdue(before) && OverdueEverSince(run) {
      var i :| 0 <= i < |before| && WasOverdue(before[i]);
      assert WasOverdue(before[|before| - 1]) by {
        assert WasOverdue(run[i]) && before[|before| - 1] == run[|before| - 1];
      }
    }
  }

  /** The counterexample: a requirement with a need-by date evaluated after it, given a later date, and evaluated after
      that one as well. The health is at-risk and no risk is open. */
  lemma OverdueAgainHasNoOpenRisk(f: Facts, first: int, second: int, now: int)
    requires first < second
    ensures var early, late := f.(needBy := Some(first)), f.(needBy := Some(second));
            var run := [Evaluation(early, first + 1, now), Evaluation(late, first + 1, now),
                        Evaluation(late, second + 1, now)];
            && RiskAfterRun(f, run) == Some(Resolved)
            && RunCycle(NewCycle(f), [], run).0.projection.health == AtRisk
  {
    var early, late := f.(needBy := Some(first)), f.(needBy := Some(second));
    var e1, e2, e3 := Evaluation(early, first + 1, now), Evaluation(late, first + 1, now),
                      Evaluation(late, second + 1, now);
    assert [e1, e2, e3][..2] == [e1, e2] && [e1, e2][..1] == [e1] && [e1][..0] == [];
    RiskOfLonger(f, [e1]);
    RiskOfLonger(f, [e1, e2]);
    RiskOfLonger(f, [e1, e2, e3]);
    HealthOfLonger(NewCycle(f), [e1, e2, e3]);
  }

  lemma HealthOfLonger(c: StoredCycle, run: seq<Evaluation>)
    requires run != [] && WasOverdue(run[|run| - 1])
    ensures RunCycle(c, [], run).0.projection.health == AtRisk
  {}

  /** The missing-owner dependency of a new cycle is open from its first evaluation exactly when the cycle has no owner;
      the owner is copied once, so the dependency is never resolved. */
  lemma {:induction false} DependencyFollowsOwner(f: Facts, run: seq<Evaluation>)
    requires run != []
    ensures RunCycle(NewCycle(f), [], run).0.dependency == if f.hasOwner then None else Some(Open)
    ensures RunCycle(NewCycle(f), [], run).0.hasOwner == f.hasOwner
  {
    if |run| > 1 {
      DependencyFollowsOwner(f, run[..|run| - 1]);
    } else {
      assert run[..0] == [];
    }
  }
}
