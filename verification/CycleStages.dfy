/** Which business record completes which stage of a procurement cycle, and what its recording changes. */
module CycleStages {
  import opened Wrappers
  import opened CycleProjection

  /** `later` completes exactly the stages of `f` and those of `more`. */
  predicate Adds(f: Facts, later: Facts, more: set<Stage>) {
    forall s: Stage :: Complete(later, s) <==> Complete(f, s) || s in more
  }

  // ---------- The records, one by one ----------

  const NOTHING := Facts(Draft, false, false, None, true, None)

  lemma NothingIsComplete(hasOwner: bool, needBy: Option<int>)
    ensures forall s: Stage :: !Complete(NOTHING.(hasOwner := hasOwner, needBy := needBy), s)
  {}

  /** Approving the requirement completes the requirement stage alone, whatever else is recorded; a closed requirement
      completes the closure as well, and a cancelled one neither. */
  lemma RequirementCompletes(f: Facts, status: RequirementStatus)
    requires f.status == Draft
    ensures Adds(f, f.(status := status),
                 match status
                 case Approved => {Requirement}
                 case RfqDrafted => {Requirement}
                 case Closed => {Requirement, Closure}
                 case Draft => {}
                 case Cancelled => {})
  {}

  lemma SpecificationCompletes(f: Facts)
    requires !f.hasSpecification && !f.hasReason
    ensures Adds(f, f.(hasSpecification := true), {Specification}) && Adds(f, f.(hasReason := true), {Specification})
  {}

  /** A request for quotations without quotes or decisions completes its own stage once it is published. */
  lemma RfqCompletes(f: Facts, status: string)
    requires f.rfq == None
    ensures Adds(f, f.(rfq := Some(RfqRecord(status, [], None, None, None))),
                 if status == "published" || status == "responses_open" || status == "closed" then {Rfq} else {})
  {}

  /** The first quote is the suppliers' response, and the review is complete as long as all quotes are verified;
      superseded quotes do not count. */
  lemma QuoteCompletes(f: Facts, quote: string)
    requires f.rfq.Some? && f.rfq.value.quotes == []
    ensures Adds(f, f.(rfq := Some(f.rfq.value.(quotes := [quote]))),
                 if quote == "superseded" then {}
                 else if quote == "verified" then {SupplierResponse, QuotationReview}
                 else {SupplierResponse})
  {
    assert forall q | q in [quote] :: q == quote;
    assert quote in [quote];
  }

  /** One unverified quote among others keeps the review open. */
  lemma UnverifiedQuoteKeepsReviewOpen(f: Facts, quote: string)
    requires f.rfq.Some? && quote in f.rfq.value.quotes && quote != "superseded" && quote != "verified"
    ensures Complete(f, SupplierResponse) && !Complete(f, QuotationReview)
  {}

  function WithComparison(f: Facts, status: string): Facts
    requires f.rfq.Some?
  {
    f.(rfq := Some(f.rfq.value.(comparison := Some(status))))
  }

  /** A submitted comparison completes the comparison; an approved one also the approval, once there is an award. */
  lemma ComparisonCompletes(f: Facts, status: string)
    requires f.rfq.Some? && f.rfq.value.comparison == None
    ensures Adds(f, WithComparison(f, status),
                 if status == "approved" then (if f.rfq.value.award.Some? then {Comparison, Approval} else {Comparison})
                 else if status == "submitted" then {Comparison}
                 else {})
  {}

  function WithAward(f: Facts, award: AwardRecord): Facts
    requires f.rfq.Some?
  {
    f.(rfq := Some(f.rfq.value.(award := Some(award))))
  }

  /** The award completes the approval behind an approved comparison, and the negotiation unless one is still open. */
  lemma AwardCompletes(f: Facts)
    requires f.rfq.Some? && f.rfq.value.award == None
    ensures var n := f.rfq.value.negotiation;
            Adds(f, WithAward(f, AwardRecord(None)),
                 (if f.rfq.value.comparison == Some("approved") then {Approval} else {})
                 + (if n == None || n == Some("approved") || n == Some("accepted") || n == Some("closed")
                    then {Negotiation} else {}))
  {}

  /** An order completes its stage once it is approved or posted. */
  lemma OrderCompletes(f: Facts, status: string)
    requires Awarded(f) && PurchaseOrder(f) == None
    ensures Adds(f, WithAward(f, AwardRecord(Some(PoRecord(status, false, false, false, false)))),
                 if status == "approved_pending_outbox" || status == "posted" || status == "simulated_posted"
                 then {Po} else {})
  {}

  function WithOrder(f: Facts, po: PoRecord): Facts
    requires f.rfq.Some?
  {
    WithAward(f, AwardRecord(Some(po)))
  }

  /** Behind an order, the shipping notice completes the fulfilment, the goods receipt the receipt, the inspection the
      quality stage and the invoice the invoice stage, each that one alone. */
  lemma ShippingNoticeCompletes(f: Facts)
    requires PurchaseOrder(f).Some? && !PurchaseOrder(f).value.asn
    ensures !Complete(f, Fulfilment) && Adds(f, WithOrder(f, PurchaseOrder(f).value.(asn := true)), {Fulfilment})
  {}

  lemma GoodsReceiptCompletes(f: Facts)
    requires PurchaseOrder(f).Some? && !PurchaseOrder(f).value.receipt
    ensures !Complete(f, Receipt) && Adds(f, WithOrder(f, PurchaseOrder(f).value.(receipt := true)), {Receipt})
  {}

  lemma InspectionCompletes(f: Facts)
    requires PurchaseOrder(f).Some? && !PurchaseOrder(f).value.inspection
    ensures !Complete(f, Quality) && Adds(f, WithOrder(f, PurchaseOrder(f).value.(inspection := true)), {Quality})
  {}

  lemma InvoiceCompletes(f: Facts)
    requires PurchaseOrder(f).Some? && !PurchaseOrder(f).value.invoice
    ensures !Complete(f, Invoice) && Adds(f, WithOrder(f, PurchaseOrder(f).value.(invoice := true)), {Invoice})
  {}

  lemma ClosureCompletes(f: Facts)
    requires f.status == Approved || f.status == RfqDrafted
    ensures Adds(f, f.(status := Closed), {Closure})
  {}

  // ---------- What an evaluation stores ----------

  /** The health tells the need-by date before the missing owner, the status the closed requirement, and the required
      coordination the missing owner before the stages that need a decision. */
  lemma EvaluationTells(c: StoredCycle, f: Facts, today: int, now: int)
    ensures var p := Evaluated(c, f, today, now).projection;
            var missed := f.needBy.Some? && f.needBy.value < today;
            && p.health == (if missed then AtRisk else if c.hasOwner then OnTrack else Attention)
            && p.status == (if f.status == Closed then Finished else Active)
            && p.summary.Some? && p.summary.value.stage == p.current
            && p.summary.value.needByMissed == missed && p.summary.value.needBy == f.needBy
            && p.summary.value.missingAssignment == !c.hasOwner
            && p.summary.value.coordination
               == (if !c.hasOwner then Assign
                   else if p.current == Approval || p.current == Po then Propose else Task)
  {}

  /** The percentage is the nearest to the share of the thirteen steps. */
  lemma PercentageIsNearest(position: nat)
    requires position < 14
    ensures -13 <= 2 * (13 * Percentage(position) - 100 * position) <= 13
  {}

  /** The stage after `position` that stays open, if any. */
  function NextOpen(f: Facts, position: nat): Option<nat>
    requires position < |STAGES|
  {
    FirstIncomplete(f, position + 1)
  }

  lemma FirstIs(f: Facts, position: nat)
    requires position < |STAGES| && !Complete(f, STAGES[position])
    requires forall i | 0 <= i < position :: Complete(f, STAGES[i])
    ensures FirstIncomplete(f, 0) == Some(position)
  {
    var first := FirstIncomplete(f, 0);
  }

  lemma StagesDiffer(i: nat, j: nat)
    requires i < |STAGES| && j < |STAGES|
    ensures STAGES[i] == STAGES[j] <==> i == j
  {}

  lemma AllDone(f: Facts)
    requires forall i | 0 <= i < |STAGES| :: Complete(f, STAGES[i])
    ensures FirstIncomplete(f, 0) == None
  {
    var first := FirstIncomplete(f, 0);
  }

  lemma PrefixIsDone(f: Facts, later: Facts, position: nat, i: nat)
    requires FirstIncomplete(f, 0) == Some(position) && Adds(f, later, {STAGES[position]}) && i <= position
    ensures Complete(later, STAGES[i])
  {}

  lemma FirstMovesOn(f: Facts, later: Facts, position: nat)
    requires FirstIncomplete(f, 0) == Some(position) && Adds(f, later, {STAGES[position]})
    ensures FirstIncomplete(later, 0) == NextOpen(later, position)
    ensures NextOpen(later, position).Some? ==> NextOpen(later, position).value > position
  {
    forall i | 0 <= i <= position ensures Complete(later, STAGES[i]) {
      PrefixIsDone(f, later, position, i);
    }
    DoneMovesOn(later, position);
  }

  lemma DoneMovesOn(f: Facts, position: nat)
    requires position < |STAGES| && forall i | 0 <= i <= position :: Complete(f, STAGES[i])
    ensures FirstIncomplete(f, 0) == NextOpen(f, position)
    ensures NextOpen(f, position).Some? ==> NextOpen(f, position).value > position
  {
    var next := NextOpen(f, position);
    if next.Some? {
      FirstIs(f, next.value);
    } else {
      AllDone(f);
    }
  }

  /** Recording what completes the current stage, and no other, makes that stage done, dated by this evaluation unless
      it was dated before, makes the next open stage current, and writes an event that tells of it. */
  lemma RecordingMovesOn(
    c: StoredCycle, log: seq<CycleEvent>, f: Facts, later: Facts, position: nat, today: int, now: int)
    requires LogMatches(c, log) && !Stale(c, f, today)
    requires FirstIncomplete(f, 0) == Some(position) && Adds(f, later, {STAGES[position]})
    requires later.needBy == f.needBy
    ensures var next, c' := NextOpen(later, position), Evaluated(c, later, today, now);
            && c'.rows[position].value.status == Done
            && c'.rows[position].value.completedAt.Some?
            && (CompletedAt(c, position) == None ==> c'.rows[position].value.completedAt == Some(now))
            && (next.Some? ==>
                  && c'.rows[next.value].value.status == Current
                  && c'.projection.current == STAGES[next.value]
                  && c'.projection.summary.value.ownerRole == Some(OwnerRole(STAGES[next.value]))
                  && Emitted(c, log, later, today)
                     == [CycleEvent(c.version + 1, STAGES[next.value], c'.projection.health)])
            && (next.None? ==>
                  && c'.projection.current == Closure && c'.projection.summary.value.ownerRole == None
                  && Emitted(c, log, later, today) == [CycleEvent(c.version + 1, Closure, c'.projection.health)])
  {
    FirstMovesOn(f, later, position);
    RowsMoveOn(c, later, position, today, now);
    StaleCycleEmits(c, log, later, today);
    ProjectionMoves(f, later, position, c.hasOwner, today);
  }

  lemma RowsMoveOn(c: StoredCycle, f: Facts, position: nat, today: int, now: int)
    requires position < |STAGES| && Complete(f, STAGES[position])
    requires FirstIncomplete(f, 0) == NextOpen(f, position)
    ensures var next, c' := NextOpen(f, position), Evaluated(c, f, today, now);
            && c'.rows[position].value.status == Done
            && c'.rows[position].value.completedAt
               == (if CompletedAt(c, position) == None then Some(now) else CompletedAt(c, position))
            && (next.Some? ==> c'.rows[next.value].value.status == Current)
  {}

  lemma ProjectionMoves(f: Facts, later: Facts, position: nat, hasOwner: bool, today: int)
    requires FirstIncomplete(f, 0) == Some(position) && Adds(f, later, {STAGES[position]})
    requires later.needBy == f.needBy
    ensures var next, p := NextOpen(later, position), Project(later, hasOwner, today);
            && p != Project(f, hasOwner, today)
            && p.current == (if next.Some? then STAGES[next.value] else Closure)
            && p.summary.value.ownerRole == (if next.Some? then Some(OwnerRole(STAGES[next.value])) else None)
  {
    FirstMovesOn(f, later, position);
    var next := NextOpen(later, position);
    if next.Some? {
      StagesDiffer(next.value, position);
    }
  }

  /** The shipping notice, for one: with the fulfilment current and no goods receipt, recording it makes the receipt
      current, asks the store manager, stands at 77 percent, and writes the event for the receipt. */
  lemma ShippingNoticeAsksForTheReceipt(
    c: StoredCycle, log: seq<CycleEvent>, f: Facts, today: int, now: int)
    requires LogMatches(c, log) && !Stale(c, f, today)
    requires PurchaseOrder(f).Some? && c.projection.current == Fulfilment
    requires !PurchaseOrder(f).value.asn && !PurchaseOrder(f).value.receipt
    ensures var later := WithOrder(f, PurchaseOrder(f).value.(asn := true));
            var c' := Evaluated(c, later, today, now);
            && c'.projection.current == Receipt
            && c'.projection.summary.value.ownerRole == Some("store_manager")
            && c'.projection.summary.value.percentage == 77
            && Emitted(c, log, later, today) == [CycleEvent(c.version + 1, Receipt, c'.projection.health)]
  {
    var later := WithOrder(f, PurchaseOrder(f).value.(asn := true));
    FulfilmentIsFirst(f, c.hasOwner, today);
    ShippingNoticeCompletes(f);
    FulfilledAsksForTheReceipt(c, log, f, later, today, now);
  }

  lemma FulfilledAsksForTheReceipt(
    c: StoredCycle, log: seq<CycleEvent>, f: Facts, later: Facts, today: int, now: int)
    requires LogMatches(c, log) && !Stale(c, f, today) && later.needBy == f.needBy
    requires FirstIncomplete(f, 0) == Some(9) && Adds(f, later, {Fulfilment}) && !Complete(later, Receipt)
    ensures var c' := Evaluated(c, later, today, now);
            && c'.projection.current == Receipt
            && c'.projection.summary.value.ownerRole == Some("store_manager")
            && c'.projection.summary.value.percentage == 77
            && Emitted(c, log, later, today) == [CycleEvent(c.version + 1, Receipt, c'.projection.health)]
  {
    ReceiptFollows(later);
    RecordingMovesOn(c, log, f, later, 9, today, now);
    FirstMovesOn(f, later, 9);
    PercentageOf(later, 10, c.hasOwner, today);
  }

  lemma ReceiptFollows(f: Facts)
    requires !Complete(f, Receipt)
    ensures NextOpen(f, 9) == Some(10) && STAGES[9] == Fulfilment && STAGES[10] == Receipt
    ensures OwnerRole(Receipt) == "store_manager" && Percentage(10) == 77
  {}

  lemma PercentageOf(f: Facts, position: nat, hasOwner: bool, today: int)
    requires FirstIncomplete(f, 0) == Some(position)
    ensures Project(f, hasOwner, today).summary.value.percentage == Percentage(position)
  {}

  lemma FulfilmentIsFirst(f: Facts, hasOwner: bool, today: int)
    requires Project(f, hasOwner, today).current == Fulfilment
    ensures FirstIncomplete(f, 0) == Some(9)
  {
    var first := FirstIncomplete(f, 0);
    if first.Some? {
      StagesDiffer(first.value, 9);
    }
  }

  // ---------- One requirement from its draft to its closure ----------

  /** What a cycle of these facts shows: the stage, its owner and its percentage. */
  ghost predicate Shows(f: Facts, current: Stage, owner: string, phase: string, percentage: nat) {
    forall hasOwner, today ::
      var p := Project(f, hasOwner, today);
      && p.current == current && p.summary.Some?
      && p.summary.value.ownerRole == Some(owner) && p.summary.value.presentation == phase
      && p.summary.value.percentage == percentage
  }

  lemma ShowsFirst(f: Facts, position: nat)
    requires position < |STAGES| && !Complete(f, STAGES[position])
    requires forall i | 0 <= i < position :: Complete(f, STAGES[i])
    ensures var s := STAGES[position]; Shows(f, s, OwnerRole(s), Presentation(s), Percentage(position))
  {
    FirstIs(f, position);
  }

  function Sourcing(
    quotes: seq<string>, comparison: Option<string>, award: Option<AwardRecord>, negotiation: Option<string>): Facts
  {
    Facts(Approved, true, false, None, true,
          Some(RfqRecord("published", quotes, comparison, award, negotiation)))
  }

  function Ordered(po: Option<PoRecord>): Facts {
    Sourcing(["verified"], Some("approved"), Some(AwardRecord(po)), Some("accepted"))
  }

  /** The facts of a requirement at each point of its life, record by record. */
  function Life(point: nat): Facts
    requires point < 14
  {
    [NOTHING,
     NOTHING.(status := Approved),
     NOTHING.(status := Approved, hasSpecification := true),
     Sourcing([], None, None, None),
     Sourcing(["pending"], None, None, None),
     Sourcing(["superseded", "verified"], None, None, None),
     Sourcing(["verified"], Some("approved"), None, None),
     Sourcing(["verified"], Some("approved"), Some(AwardRecord(None)), Some("open")),
     Ordered(None),
     Ordered(Some(PoRecord("posted", false, false, false, false))),
     Ordered(Some(PoRecord("posted", true, false, false, false))),
     Ordered(Some(PoRecord("posted", true, true, false, false))),
     Ordered(Some(PoRecord("posted", true, true, true, false))),
     Ordered(Some(PoRecord("posted", true, true, true, true)))][point]
  }

  lemma QuotesOfLife()
    ensures "pending" in ["pending"] && "verified" in ["verified"] && "verified" in ["superseded", "verified"]
    ensures forall q | q in ["superseded", "verified"] :: q == "superseded" || q == "verified"
    ensures forall q | q in ["verified"] :: q == "verified"
  {
    assert ["superseded", "verified"][1] == "verified";
    assert ["verified"][0] == "verified";
    assert ["pending"][0] == "pending";
  }

  lemma EarlyLifeCompletes(point: nat, i: nat)
    requires point < 7 && i < 14
    ensures Complete(Life(point), STAGES[i]) <==> i < point
  {
    QuotesOfLife();
  }

  lemma LateLifeCompletes(point: nat, i: nat)
    requires 7 <= point < 14 && i < 14
    ensures Complete(Life(point), STAGES[i]) <==> i < point
  {
    QuotesOfLife();
  }

  lemma LifeCompletes(point: nat)
    requires point < 14
    ensures forall i | 0 <= i < 14 :: Complete(Life(point), STAGES[i]) <==> i < point
  {
    forall i | 0 <= i < 14 ensures Complete(Life(point), STAGES[i]) <==> i < point {
      if point < 7 {
        EarlyLifeCompletes(point, i);
      } else {
        LateLifeCompletes(point, i);
      }
    }
  }

  datatype View = View(stage: Stage, owner: string, phase: string, percentage: nat)

  /** The stages in their order, with the role each asks, the phase it shows and its percentage. */
  function ViewOf(point: nat): View
    requires point < 14
  {
    [View(Requirement, "purchase_executive", "Requirement", 0),
     View(Specification, "purchase_executive", "Requirement", 8),
     View(Rfq, "purchase_executive", "RFQ", 15),
     View(SupplierResponse, "purchase_executive", "Quotations", 23),
     View(QuotationReview, "purchase_manager", "Quotations", 31),
     View(Comparison, "purchase_manager", "Comparison", 38),
     View(Approval, "plant_manager", "Approval", 46),
     View(Negotiation, "purchase_manager", "Approval", 54),
     View(Po, "purchase_manager", "PO", 62),
     View(Fulfilment, "purchase_manager", "PO", 69),
     View(Receipt, "store_manager", "Receipt", 77),
     View(Quality, "quality_inspector", "Receipt", 85),
     View(Invoice, "purchase_manager", "Invoice", 92),
     View(Closure, "plant_manager", "Invoice", 100)][point]
  }

  lemma ViewsAgree(point: nat)
    requires point < 14
    ensures ViewOf(point)
            == View(STAGES[point], OwnerRole(STAGES[point]), Presentation(STAGES[point]), Percentage(point))
  {
    PercentagesAgree(point);
    RolesAgree(point);
    PhasesAgree(point);
  }

  lemma PercentagesAgree(point: nat)
    requires point < 14
    ensures ViewOf(point).percentage == Percentage(point) && ViewOf(point).stage == STAGES[point]
  {}

  lemma RolesAgree(point: nat)
    requires point < 14
    ensures ViewOf(point).owner == OwnerRole(ViewOf(point).stage)
  {}

  lemma PhasesAgree(point: nat)
    requires point < 14
    ensures ViewOf(point).phase == Presentation(ViewOf(point).stage)
  {}

  /** Every stage row carries its own stage's role. */
  lemma RowsCarryTheirRole(c: StoredCycle, f: Facts, today: int, now: int, position: nat)
    requires position < 14
    ensures Evaluated(c, f, today, now).rows[position].value.owner == ViewOf(position).owner
  {
    ViewsAgree(position);
  }

  /** At each point of its life a requirement shows the stage in which the next record is missing, and asks the role
      that stage belongs to. */
  lemma LifeOfARequirement(point: nat)
    requires point < 14
    ensures var v := ViewOf(point); Shows(Life(point), v.stage, v.owner, v.phase, v.percentage)
  {
    LifeCompletes(point);
    ShowsFirst(Life(point), point);
    ViewsAgree(point);
  }

  /** A closed requirement with every record has no open stage: nobody is asked, and the percentage stays at 100. */
  lemma ClosedLifeIsOver(hasOwner: bool, today: int)
    ensures var p := Project(Life(13).(status := Closed), hasOwner, today);
            && p.current == Closure && p.status == Finished
            && p.summary.value.ownerRole == None && p.summary.value.percentage == 100
  {
    var f := Life(13).(status := Closed);
    LifeCompletes(13);
    ClosureCompletes(Life(13));
    ClosedIsDone(Life(13), f);
    NobodyIsAsked(f, hasOwner, today);
  }

  lemma NobodyIsAsked(f: Facts, hasOwner: bool, today: int)
    requires FirstIncomplete(f, 0) == None && f.status == Closed
    ensures var p := Project(f, hasOwner, today);
            && p.current == Closure && p.status == Finished
            && p.summary.value.ownerRole == None && p.summary.value.percentage == 100
  {}

  lemma ClosedIsDone(f: Facts, closed: Facts)
    requires Adds(f, closed, {Closure}) && forall i | 0 <= i < 14 :: Complete(f, STAGES[i]) <==> i < 13
    ensures FirstIncomplete(closed, 0) == None
  {
    assert STAGES[13] == Closure;
    AllDone(closed);
  }
}
