# Verified model of the procurement platform's run-wide promises

This Dafny project models the parts of the platform that promise something about every run rather than about one
call, and proves those promises for all inputs and all runs. Code that the platform runs by updating state is a class
whose methods are proved against a specification function; the promises are then lemmas about that function.

| file | models |
|---|---|
| `CycleProjection.dfy`, `CycleStages.dfy` | the evaluator of a procurement cycle: stages, projection, version, risk, dependency, event; and which business record completes which stage |
| `Outbox.dfy`, `OutboxDelivery.dfy`, `OutboxDrain.dfy`, `OutboxRuns.dfy`, `OutboxOverlap.dfy`, `OutboxTrigger.dfy` | the transactional outbox: dispatch with rollback, receipts, retry, dead-lettering, replay, and the cycle evaluator as the consumer that writes further events |
| `InventoryProjection.dfy` | the inventory consumer that ignores late snapshots |
| `ImportCommit.dfy`, `ImportFixpoint.dfy`, `ImportEffects.dfy`, `ImportLeast.dfy`, `ImportOrder.dfy` | spreadsheet import: preview, the sorted one-pass commit, when it commits the least set, and when the order of rows matters |
| `Connector.dfy`, `ConnectorApproval.dfy`, `ConnectorClient.dfy` | the reference write adapter, the approval of its writes, and a client that recovers from lost replies |
| `FactoryStream.dfy`, `StreamDelivery.dfy`, `StreamDisorder.dfy` | the simulator's bounded event buffers, their cursor reader, and out-of-order mode |
| `FactoryTick.dfy` | fractional production carried from tick to tick |
| `ReportingLines.dfy` | the breadth-first search over the manager graph |
| `Decimal.dfy`, `BusinessNumbers.dfy`, `NumberRuns.dfy` | zero-padded numbers, business-number allocation, and whole runs of it |
| `RecentEntities.dfy` | the bounded list of recently used entities |
| `ToolLoop.dfy` | the assistant's bounded decide-and-execute loop |
| `PdfWriter.dfy` | the one-page PDF writer and an independent reader of its bytes |
| `EdgeQueue.dfy`, `EdgeProgress.dfy` | the edge agent's store-and-forward queue with a deduplicating gateway, and its progress past refused messages |
| `Calendar.dfy` | the date phrases on the Gregorian calendar |

`dafny verify dfyconfig.toml` checks everything.

## Promises the code keeps only under a condition

Each of these is stated as an if-and-only-if. The condition is a guard on the state before a step, or on the input; for
a promise over runs it is asked of every step of the run.

- **Exactly-once consumer effects.** A failed dispatch is two transactions: it rolls back and releases the event's row,
  and then its handler writes the failure without looking at what it finds. Over every run, with overlapping workers,
  exactly-once is lost exactly when such a record is written for a consumer that has succeeded by then
  (`OutboxDelivery.RunIsExactlyOnceIff`). It happens to one worker whose commit or receipt lookup fails after a replay
  (`OutboxDelivery.FailureOfAReplayRunsAConsumerTwice`; `OutboxDelivery.DispatchKeepsExactlyOnceIff` gives the guard for
  a dispatch that is alone), and to two workers on one event without any such failure
  (`OutboxDelivery.OverlappingDispatchesRunAConsumerTwice`).
- **An overdue cycle has an open risk.** A risk resolved by a new date is never opened again
  (`CycleProjection.RiskIsOpenIff`, `CycleProjection.OverdueAgainHasNoOpenRisk`).
- **The import commits the least set of rows that resolve** to stored entities or to committed rows. It does exactly
  when no invoice is refused for a number taken earlier in the pass and no requirement for an item that the pass
  renames (`ImportLeast.CommitsTheLeastSetIff`); for all stored books, exactly when no two invoice rows of the file can
  share supplier and number and no item row can rename an item that a requirement asks for
  (`ImportLeast.LeastForAllBooksIff`, with the failing books in `ImportLeast.SharedNumberIsNotLeast` and
  `ImportLeast.RenameIsNotLeast`). For every file the committed rows are the only set that satisfies the commit's own
  rule (`ImportFixpoint.OnePassIsTheOnlySolution`).
- **Which rows an import commits does not depend on their order.** It does exactly when a row that could be committed
  shares its identity with a different row, or two invoices that could be committed share supplier and number under
  different keys: the first hides the second (`ImportOrder.OrderIsIrrelevantIff`).
- **A retried write answers as the first did.** The version check runs before the idempotency lookup. A request repeated
  after any other dispatches is answered as the first time exactly when it is not authorized, or its stated version is
  rejected both times or neither time (`Connector.RetryIsAnsweredAlikeIff`). Repeated at once, a write against a stated
  version is told that it conflicts with itself (`Connector.RetryRepeatsIff`).
- **Success means the client wrote.** On a shared key it does exactly when no recovery found the client's payload at
  the key while no acknowledgement was stored for the client (`ConnectorClient.SuccessIsOwnIff`);
  `ConnectorClient.CompetitorCanSucceedForTheClient` is the run in which a competitor's write is taken for it.
- **Cursor delivery is complete.** It is, unless an emit pushes an unread row out of the buffer
  (`StreamDelivery.DeliveryIsCompleteIff`). An out-of-order emit followed by in-order operation is harmless exactly when
  the reader had read the older of the two swapped rows, or later rows follow and no page ends between or right behind
  the two (`StreamDisorder.OutOfOrderIsHarmlessIff`, `StreamDisorder.RunSettles`).
- **Output depends only on total time.** This holds for every line that cannot starve. For the steel line it holds
  exactly when the steel covers all but the last piece (`FactoryTick.SteelOutputIsFixedIff`). The alloy used is that of
  the good pieces exactly when it is just enough for the pieces the time is worth: the line goes on consuming after its
  target, and goes on producing without alloy (`FactoryTick.AlloyMatchesOutputIff`).
- **A mutation runs at most once in a tool loop.** Over all deciders, executors and clocks this holds exactly when no
  possible answer to a mutation is inconclusive, such as "completed" without a receipt, or no second execution is
  allowed anyway (`ToolLoop.MutationRunsOnceIff`).
- **Numbers are unique.** Over any run of allocations for any plants and prefixes, with rows stored in between, the
  numbers are pairwise distinct exactly when no allocation meets a number of another plant that is not stored, not behind
  its counter, and has no free value before it (`NumberRuns.NumbersAreDistinctIff`). Storing each number before the next
  allocation is enough (`NumberRuns.StoredNumbersAreDistinct`).
- **The inventory projection converges.** It does exactly when the snapshots carrying the newest time agree
  (`InventoryProjection.ConvergesIff`).
- **The edge queue moves.** With some messages refused for ever, another one is sent within a bounded number of flushes
  exactly when fewer than a hundred of the refused precede or tie it (`EdgeProgress.RowIsSentIff`). With fewer than a
  hundred refused in all, the others drain (`EdgeProgress.DrainsAroundTheRefused`); with a hundred at the head nothing
  else is ever sent (`EdgeProgress.RefusedHeadBlocksTheQueue`).

## Model

| member | source | states |
|---|---|---|
| CycleProjection.FirstIncomplete | apps/api/app/cycle_orchestration.py:103 | the position it gives is the first stage that is not complete; none only if all are |
| CycleProjection.Objective.ReconcileStages | apps/api/app/cycle_orchestration.py:104-120 | the loop rewrites every stage row to its specified status, owner and completion time, and returns the one current stage with its owner |
| CycleProjection.Objective.RecordProjection | apps/api/app/cycle_orchestration.py:133-173 | stores the projection; version and log grow by one if and only if it differs from the stored one and the version is not logged yet |
| CycleProjection.Objective.Evaluate | apps/api/app/cycle_orchestration.py:83-173 | the whole stored cycle and event log after one evaluation |
| CycleProjection.CurrentIsTheFirstIncompleteStage | apps/api/app/cycle_orchestration.py:103-114 | a stage is current exactly when it is open and every earlier one is done |
| CycleProjection.OneCurrentStage | apps/api/app/cycle_orchestration.py:103-120 | exactly one stage is current unless all are done, and the stored projection names it |
| CycleProjection.CompletionTimeIsTheFirst | apps/api/app/cycle_orchestration.py:113-116 | over every run a stage's completion time is that of the first evaluation that found it complete, and once set it never changes |
| CycleProjection.ReevaluationIsSilent | apps/api/app/cycle_orchestration.py:133-173 | evaluating again with unchanged facts on the same day emits nothing and changes only the time of evaluation |
| CycleProjection.EvaluationRefreshes | apps/api/app/cycle_orchestration.py:133-173 | at most one event, only for a stale cycle, and the cycle is not stale afterwards |
| CycleProjection.EvaluationKeepsLog | apps/api/app/cycle_orchestration.py:141-173 | versions stay consecutive, one event per version increment, and the last event tells stage and health of the stored projection |
| CycleProjection.LogIsGapFree | apps/api/app/cycle_orchestration.py:133-173 | the same over every run of evaluations with changing facts; the log only grows |
| CycleProjection.RiskIsOpenIff | apps/api/app/cycle_orchestration.py:143-151 | over every run of evaluations of a new cycle, the risk is open exactly when the cycle became overdue once and stayed so at every evaluation since |
| CycleProjection.OverdueAgainHasNoOpenRisk | apps/api/app/cycle_orchestration.py:143-151 | the counterexample, as three evaluations for any facts: overdue, rescheduled, overdue again, health at-risk and no open risk |
| CycleProjection.DependencyFollowsOwner | apps/api/app/cycle_orchestration.py:152-161 | over every run of a new cycle, the missing-owner dependency is open exactly when the cycle was created without an owner, and it is never resolved |
| CycleStages.RequirementCompletes | apps/api/app/cycle_orchestration.py:84 | what each status of a drafted requirement completes, and nothing else |
| CycleStages.SpecificationCompletes | apps/api/app/cycle_orchestration.py:85 | a specification, or a reason, completes the specification alone |
| CycleStages.RfqCompletes | apps/api/app/cycle_orchestration.py:86 | a request completes its stage once published, and nothing else |
| CycleStages.QuoteCompletes | apps/api/app/cycle_orchestration.py:87-88 | the first quote completes the response, a verified one also the review, a superseded one nothing |
| CycleStages.UnverifiedQuoteKeepsReviewOpen | apps/api/app/cycle_orchestration.py:88 | one unverified quote among any others keeps the review open |
| CycleStages.ComparisonCompletes | apps/api/app/cycle_orchestration.py:89-90 | a submitted comparison completes its stage, an approved one behind an award also the approval |
| CycleStages.AwardCompletes | apps/api/app/cycle_orchestration.py:90-91 | the award completes the approval behind an approved comparison, and the negotiation unless one is open |
| CycleStages.OrderCompletes | apps/api/app/cycle_orchestration.py:92 | an approved or posted order completes its stage alone |
| CycleStages.ShippingNoticeCompletes | apps/api/app/cycle_orchestration.py:93 | the shipping notice completes the fulfilment and no other stage |
| CycleStages.GoodsReceiptCompletes | apps/api/app/cycle_orchestration.py:93 | the goods receipt completes the receipt and no other stage |
| CycleStages.InspectionCompletes | apps/api/app/cycle_orchestration.py:93 | the inspection completes the quality stage and no other |
| CycleStages.InvoiceCompletes | apps/api/app/cycle_orchestration.py:94 | the invoice completes the invoice stage and no other |
| CycleStages.ClosureCompletes | apps/api/app/cycle_orchestration.py:94 | closing an approved requirement completes the closure and no other stage |
| CycleStages.EvaluationTells | apps/api/app/cycle_orchestration.py:121-132 | health, status, summary and required coordination told from the facts, the date and the owner |
| CycleStages.PercentageIsNearest | apps/api/app/cycle_orchestration.py:130 | the percentage is the nearest to the share of the thirteen steps |
| CycleStages.RecordingMovesOn | apps/api/app/cycle_orchestration.py:103-173 | recording what completes the current stage makes it done and dated, the next open stage current and asked, and writes the event for that |
| CycleStages.ShippingNoticeAsksForTheReceipt | apps/api/app/cycle_orchestration.py:93-173 | the notice in a fulfilment makes the receipt current, asks the store manager, stands at 77 percent and writes the event for the receipt |
| CycleStages.LifeOfARequirement | apps/api/app/cycle_orchestration.py:19-130 | record by record from draft to closure: the stage, the role it asks, the phase it shows and the percentage |
| CycleStages.ClosedLifeIsOver | apps/api/app/cycle_orchestration.py:103-130 | a closed requirement with every record asks nobody and stays at 100 percent |
| CycleStages.RowsCarryTheirRole | apps/api/app/cycle_orchestration.py:96-114 | every stage row carries its own stage's role |
| Outbox.Session.RunActive | apps/api/app/eventing.py:26-36 | the cycle evaluator run inside the open transaction equals the specified change of the database |
| Outbox.Session.RunConsumers | apps/api/app/eventing.py:229-250 | the consumer loop runs the outstanding consumers in order up to the first that raises or whose receipt cannot be read, and tells which consumer was looked at last |
| Outbox.Session.TryOne | apps/api/app/eventing.py:222-256 | the first transaction: everything committed, and every consumer registered for the event's type or for every type has succeeded, or nothing with the consumer to charge; not found and already completed change nothing |
| Outbox.Session.DispatchOne | apps/api/app/eventing.py:222-275 | a whole dispatch, with any commits of other sessions between its two transactions |
| OutboxDelivery.RunAllRunsTheOutstanding | apps/api/app/eventing.py:229-250 | a finished pass runs each consumer without a completed receipt once and no other, and completes its receipt |
| OutboxDelivery.RunAllStops | apps/api/app/eventing.py:229-250 | where a pass stops is decided by the receipts before it: the first consumer that cannot be read, or is outstanding and raises |
| OutboxDelivery.FailureChangesOneReceipt | apps/api/app/eventing.py:255-273 | a failure record, whenever it is written, undoes the success of the charged consumer's receipt, and changes no other receipt's success and no effect |
| OutboxDelivery.DispatchKeepsExactlyOnceIff | apps/api/app/eventing.py:222-275 | a dispatch that is alone keeps exactly-once effects if and only if it does not charge a completed consumer for a failed commit or receipt lookup |
| OutboxDelivery.DispatchIsTwoSteps | apps/api/app/eventing.py:222-275 | a dispatch that is alone is its two transactions in a row |
| OutboxDelivery.RunIsExactlyOnceIff | apps/api/app/eventing.py:222-297 | over every interleaving of publications, overlapping dispatches, failed lookups, consumers and commits, late or lost failure records, replays, new consumers and evaluations: exactly-once if and only if no failure is recorded for a consumer that has succeeded by then |
| OutboxDelivery.ReplayChangesNoDomainState | apps/api/app/eventing.py:286-297 | replaying and dispatching a fully delivered event changes only its own delivery fields |
| OutboxDelivery.DeliveryRunsOwnThenWildcard | apps/api/app/eventing.py:229-254 | the consumers registered for the event's type run first, then those registered for every type, in one transaction that completes the event only behind both |
| OutboxDelivery.DeliveryRunsTheOutstandingOnce | apps/api/app/eventing.py:229-254 | a delivery commits one run of every consumer registered for the event's type or for every type and still without a completed receipt, later registered ones included, and of no other |
| OutboxDelivery.PassCountsAttempts | apps/api/app/eventing.py:238-248 | a delivery adds one attempt to the receipts of the consumers it runs and none to others |
| OutboxTrigger.DeliveryRefreshesTheCycle | apps/api/app/eventing.py:26-36 | with the evaluator registered for every type, a delivery leaves the cycle of the requirement that the event names, directly or through its objective, projecting the facts of the day |
| OutboxTrigger.DeliveryKeepsOtherCycles | apps/api/app/eventing.py:26-36 | and changes no other cycle |
| OutboxTrigger.EvaluationTriggersIff | apps/api/app/cycle_orchestration.py:133-173 | an evaluation writes one pending event, which names its own requirement with the new version, stage and health, exactly when the cycle was not up to date |
| OutboxTrigger.DeliveryTriggersTheNext | apps/api/app/eventing.py:26-36 | so the delivery of an event about a stale cycle writes the next event about it: the loop triggers itself |
| OutboxDelivery.FailureOfAReplayRunsAConsumerTwice | apps/api/app/eventing.py:232-273 | a counterexample with one worker: a failed receipt lookup or commit after a replay makes a consumer run twice |
| OutboxDelivery.OverlappingDispatchesRunAConsumerTwice | apps/api/app/eventing.py:255-273 | a counterexample with two workers: one delivers between the other's rollback and its failure record |
| OutboxDrain.EvaluationKeepsMeasure | apps/api/app/eventing.py:26-36 | an evaluation trades one stale cycle for at most one event, so attempts left plus five per stale cycle do not grow |
| OutboxDrain.DispatchLowersMeasure | apps/api/app/eventing.py:222-275 | every dispatch of an open event, failing or not, lowers that measure and keeps the retry bound |
| OutboxDrain.SettlesWithinMeasure | apps/api/app/eventing.py:222-283 | every schedule settles all events within the measure |
| OutboxDrain.EveryScheduleDrains | apps/api/app/eventing.py:222-283 | every schedule completes or dead-letters every event within five dispatches per open event and stale cycle |
| OutboxDrain.AnyDispatchKeepsMeasure | apps/api/app/workers.py:134-149 | a dispatch of any event, dead-lettered or not due, that overlaps no other never raises the measure |
| OutboxDrain.WorkIsBounded | apps/api/app/workers.py:134-149 | over any dispatches that do not overlap, also the workers' own retries, at most five per open event and stale cycle meet an open event, and then all events are settled |
| OutboxOverlap.StepLowersPotential | apps/api/app/workers.py:134-159 | each committed delivery of an open event, and each failure recorded on an event with attempts left, lowers the potential, a late record that reopens a completed event included |
| OutboxOverlap.OverlappingWorkIsBounded | apps/api/app/workers.py:134-159 | over any interleaving of overlapping dispatches and late or lost records, such deliveries and records are at most the potential, and then all events are settled |
| OutboxOverlap.TenPerEventAndCycle | apps/api/app/workers.py:134-159 | with nothing unrecorded at the start, that is ten per open event and stale cycle |
| OutboxDrain.PageIsTheOldestDue | apps/api/app/eventing.py:278-283 | the scheduler's page holds the hundred oldest due events, all pending or to be retried, and is empty only when none is due |
| OutboxDrain.FailedEventWaitsIff | apps/api/app/eventing.py:257-283 | after the first to fourth failure the scheduler finds an event exactly from two, four, eight or sixteen seconds on |
| OutboxDrain.FifthFailureIsTheLast | apps/api/app/eventing.py:257-283 | the fifth failure of a new event, and no earlier one, dead-letters it, and the scheduler never finds it again |
| OutboxDrain.FailedEventsAreSoonDue | apps/api/app/eventing.py:260 | a failed open event is due again within sixteen seconds; the cap of 300 is never reached |
| OutboxRuns.DispatchKeepsLogs | apps/api/app/eventing.py:222-275 | dispatches keep every cycle's event log gap-free and matching its stored projection |
| OutboxRuns.DispatchKeepsRetryBound | apps/api/app/eventing.py:257-259 | open events have attempts left and dead letters have none, after any dispatch |
| OutboxRuns.StepKeepsConsistency | apps/api/app/eventing.py:222-297 | every step of the outbox keeps both |
| OutboxRuns.EveryRunIsConsistent | apps/api/app/eventing.py:222-297 | both hold in every state reachable from the empty database |
| OutboxRuns.EveryReachableDatabaseDrains | apps/api/app/eventing.py:222-297 | every reachable database drains |
| OutboxRuns.TryKeepsDone | apps/api/app/eventing.py:229-254 | a completed event's consumers have all succeeded, after any first transaction |
| OutboxRuns.RecordKeepsDone | apps/api/app/eventing.py:257-273 | and after any late failure record |
| OutboxRuns.ReplayOfCompletedChangesNothing | apps/api/app/eventing.py:222-297 | over every run with fixed consumers, replaying and dispatching a completed event changes only its own delivery fields |
| OutboxRuns.ReplayMakesDue | apps/api/app/eventing.py:286-297 | a replayed event is due at once with all five attempts, whatever its state was, and nothing else changes |
| InventoryProjection.Projection.Consume | apps/api/app/eventing.py:189-219 | the positions after one event: only the snapshot's own material and location may change, and not for a late snapshot |
| InventoryProjection.FinalIsANewest | apps/api/app/eventing.py:210-219 | the final position equals a newest snapshot in every field, so it never goes backwards |
| InventoryProjection.FinalShowsANewest | apps/api/app/eventing.py:213-219 | every field of the final position, told from the newest snapshot, quality hold included |
| InventoryProjection.LastOfTheNewestWins | apps/api/app/eventing.py:210-219 | of several newest snapshots the one that came last is shown |
| InventoryProjection.DefaultLocation | apps/api/app/eventing.py:196 | a snapshot without a storage location is shown at the default one |
| InventoryProjection.ConvergesIff | apps/api/app/eventing.py:210-219 | the result is the same for every order and repetition if and only if the newest snapshots agree |
| InventoryProjection.PositionsAreIndependent | apps/api/app/eventing.py:197-219 | each position depends on its own material and location only |
| ImportCommit.LookupsAreTheReferences | apps/api/app/excel_connector.py:309-565 | the lookups column by column are what the source demands of each kind of row, same supplier and same order included |
| ImportCommit.ImportBatch.Preview | apps/api/app/excel_connector.py:249-293 | each row's action, with all but the first row of an identity an error |
| ImportCommit.ImportBatch.CommitRow | apps/api/app/excel_connector.py:305-581 | one row is committed with its record, item code and invoice number exactly when its values are admissible, the references its kind demands hold and its invoice number is free; otherwise nothing changes |
| ImportCommit.ImportBatch.Commit | apps/api/app/excel_connector.py:298-583 | books, row results and status after the sorted pass, each row decided against what the rows before it left; refused for an import already committed |
| ImportFixpoint.PreviewMarksTheCandidates | apps/api/app/excel_connector.py:249-293 | the rows left for commit are the well-formed, first-seen, new or changed ones, each identity once |
| ImportFixpoint.SortedKeeps | apps/api/app/excel_connector.py:303 | sorting keeps the rows and orders them by rank, sheet and row number |
| ImportFixpoint.MarkedAreAdmitted | apps/api/app/excel_connector.py:305-581 | the rows marked committed are exactly the admitted set of the results below |
| ImportFixpoint.MirrorResolves | apps/api/app/excel_connector.py:444-446 | looking a reference or item code up in the books of a pass agrees with asking the start books and the committed rows, renamed items included |
| ImportFixpoint.MirrorNumbers | apps/api/app/excel_connector.py:520-524 | the duplicate lookup finds exactly the stored numbers and those of invoices created earlier in the pass |
| ImportFixpoint.PassIsSolution | apps/api/app/excel_connector.py:303-581 | a pass in rank order decides each row as if all rows it commits were stored before, except that an invoice number is taken only by earlier rows |
| ImportFixpoint.SolutionIsUnique | apps/api/app/excel_connector.py:303-581 | no other set of rows satisfies that rule |
| ImportFixpoint.PassIsLeast | apps/api/app/excel_connector.py:305-581 | a pass commits no row that a set closed under the rule lacks |
| ImportFixpoint.OnePassIsTheOnlySolution | apps/api/app/excel_connector.py:301-581 | preview and commit together: the committed rows are the only solution of the commit's rule among the candidates, and contained in every closed set |
| ImportFixpoint.SecondImportCommitsNothing | apps/api/app/excel_connector.py:270-285 | importing the same file again commits nothing |
| ImportEffects.CandidateIff | apps/api/app/excel_connector.py:249-285 | a row is taken up exactly when it is well-formed, first with its identity, new or changed, and its entity unchanged on the platform since the last import |
| ImportEffects.CommittedIff | apps/api/app/excel_connector.py:305-581 | a row taken up is committed exactly when it is admissible, the references its kind demands hold in the books after the import, and its invoice number is not taken |
| ImportEffects.CommittedIsStored | apps/api/app/excel_connector.py:566-573 | what a committed row leaves in the books: its record, what its entity keeps, an item's code, an invoice's number |
| ImportEffects.OthersAreKept | apps/api/app/excel_connector.py:566-573 | an entity without a committed row keeps its record |
| ImportEffects.ConflictIsKept | apps/api/app/excel_connector.py:280-285 | an entity that the platform changed since the last import is not overwritten |
| ImportEffects.CommittedNumbersDiffer | apps/api/app/excel_connector.py:520-524 | no two new invoices of an import have one supplier and number, and none has a stored one |
| ImportEffects.CompletesIff | apps/api/app/excel_connector.py:583 | an import ends without errors exactly when every row is well-formed, its identity occurs once, and it is committed or unchanged |
| ImportLeast.CommitsTheLeastSetIff | apps/api/app/excel_connector.py:301-581 | the committed rows are the least set closed under resolving to stored entities or committed rows if and only if no row is refused for a number taken earlier in the pass and no requirement for a renamed item |
| ImportLeast.SharedNumberIsNotLeast | apps/api/app/excel_connector.py:520-524 | two invoice rows with one supplier and number: the books in which the commit misses the least set |
| ImportLeast.RenameIsNotLeast | apps/api/app/excel_connector.py:399-404 | an item row that renames the item a requirement asks for at 444-450: the books in which the commit misses the least set |
| ImportLeast.LeastForAllBooksIff | apps/api/app/excel_connector.py:301-581 | the condition on the file alone, for all stored books, in both directions |
| ImportOrder.ReorderingCommitsTheSame | apps/api/app/excel_connector.py:303-581 | without contested identities and invoice numbers, order, placement and repetition do not matter for which rows are committed |
| ImportOrder.ContestedDecidesByOrder | apps/api/app/excel_connector.py:264-268 | with a contested identity or number, two orders of the same file commit different rows |
| ImportOrder.NumberGoesToTheFirst | apps/api/app/excel_connector.py:521-524 | of two new invoices with one supplier and number, the second in the order is refused |
| ImportOrder.OrderIsIrrelevantIff | apps/api/app/excel_connector.py:264-581 | order is irrelevant if and only if no committable row shares its identity with a different row and no two committable invoices under different keys share supplier and number |
| Connector.ReferenceConnector.DispatchWrite | apps/api/app/connector_sdk.py:189-205 | outcome, records, idempotency table and write history of one dispatch, checks in the adapter's order |
| Connector.DispatchWritesIff | apps/api/app/connector_sdk.py:130-205 | records change exactly on an authorized, approved, current, first-time dispatch in UAT or a write-enabled production mode, and then by that one write |
| Connector.RetryRepeatsIff | apps/api/app/connector_sdk.py:189-205 | a dispatch repeated at once never writes again; it answers as the first did unless the first wrote against a stated version |
| Connector.RetryIsAnsweredAlikeIff | apps/api/app/connector_sdk.py:174-205 | a request repeated after any run of other dispatches is answered alike if and only if it is not authorized or its version is rejected both times or neither; it never writes again once a result is remembered |
| Connector.AuthorizedIff | apps/api/app/connector_sdk.py:130-138 | when a connection may read and when it may write a capability |
| Connector.PreparesIff | apps/api/app/connector_sdk.py:167-172 | a write is prepared exactly when it may be used and both keys are given, with its payload's hash and not approved |
| Connector.ApprovesIff | apps/api/app/connector_sdk.py:174-187 | a write is approved exactly when it may be used, its stated version is the record's, and a reference is given; nothing else changes |
| Connector.ApprovedWriteIsDispatched | apps/api/app/connector_sdk.py:167-205 | what is prepared and approved has a reference, keeps its content and hash, and its dispatch is acknowledged and written exactly in the modes that write |
| ConnectorApproval.EveryWriteWasApproved | apps/api/app/connector_sdk.py:167-205 | over every run of requests from the adapter's own steps: every write was made in UAT or a production mode for a request whose approval named a reference |
| Connector.DispatchKeepsConsistent | apps/api/app/connector_sdk.py:189-205 | a dispatch keeps versions equal to write counts, records equal to last writes, and acknowledgements telling their one write |
| Connector.RunKeepsConsistent | apps/api/app/connector_sdk.py:189-205 | the same over every run |
| Connector.VersionsCountWrites | apps/api/app/connector_sdk.py:174-205 | version chain and no lost update: versions count writes, each idempotency key writes once, no two writes extend one stated version |
| Connector.RecoveryReadsTheHistory | apps/api/app/connector_sdk.py:217-226 | recovery calls a retry safe exactly when nothing was ever written to the key, and the write reconciled exactly when the last write to the key carried its payload |
| ConnectorClient.WritesAtMostOnce | apps/api/app/connector_sdk.py:189-226 | under any lost requests, lost replies and competing writers the client's write is applied at most once |
| ConnectorClient.SuccessMeansExactlyOnce | apps/api/app/connector_sdk.py:189-226 | with the key to itself, a client that ends in success has written exactly once and the record holds its payload |
| ConnectorClient.StartsAlone | apps/api/app/connector_sdk.py:126-128 | an adapter without the client's record and idempotency key is such a start |
| ConnectorClient.SuccessIsOwnIff | apps/api/app/connector_sdk.py:189-226 | on any shared key, a run that ends in success has written the client's payload exactly once if no recovery borrowed a competitor's write, and not at all otherwise |
| ConnectorClient.CompetitorCanSucceedForTheClient | apps/api/app/connector_sdk.py:217-226 | the counterexample for a shared key: reconciled although the client never wrote |
| FactoryStream.Factory.Emit | services/factory-simulator/app.py:254-272 | sequence and streams after one emit under every chaos outcome; other streams are untouched |
| FactoryStream.Factory.ReadPage | services/factory-simulator/app.py:552-560 | the refusal during an outage, the refusal of an unknown stream, or the page behind a cursor |
| FactoryStream.PageSplits | services/factory-simulator/app.py:557-560 | what follows a page is exactly what was behind it, and a page is full unless it is the last |
| FactoryStream.PageCursors | services/factory-simulator/app.py:557-560 | a page is in order between the old and the new cursor, which never goes back |
| FactoryStream.FutureCursorReadsFirst | services/factory-simulator/app.py:558 | a cursor from the future reads like no cursor at all |
| StreamDelivery.ReappendIsReadOnce | services/factory-simulator/app.py:229-233 | wherever a reader stands, a row appended again is one more row behind everything unread, with the event it repeats |
| StreamDelivery.DeliveryIsCompleteIff | services/factory-simulator/app.py:254-272 | for every interleaving, received plus unread rows are the whole history in order if and only if no emit overruns the reader |
| StreamDelivery.NothingIsReceivedTwice | services/factory-simulator/app.py:552-560 | cursors of received rows increase over every run |
| StreamDelivery.DrainsInPages | services/factory-simulator/app.py:557-560 | n unread rows drain in n/500 reads, rounded up, and not in fewer |
| StreamDelivery.FutureCursorStartsOver | services/factory-simulator/app.py:557-560 | a reader ahead of the stream begins at the first row and misses none |
| StreamDelivery.HasMoreErrsOnlyOnAFullLastPage | apps/api/app/connector_sdk.py:338-350 | the connector never wrongly says there is nothing more, and wrongly says there is exactly on a full last page |
| StreamDisorder.InOrderDrainsOnce | services/factory-simulator/app.py:552-560 | a buffer in cursor order is read once each, in order |
| StreamDisorder.OutOfOrderEmitSwaps | services/factory-simulator/app.py:265-271 | an out-of-order emit into an ordered buffer swaps its two newest rows, and its own duplicate is a later row |
| StreamDisorder.RunSettles | services/factory-simulator/app.py:254-272 | over any in-order operation after an out-of-order emit, trimming included, the buffer stays disturbed by that one pair or is in order again |
| StreamDisorder.OutOfOrderIsHarmlessIff | services/factory-simulator/app.py:265-266 | for a disturbed buffer, every unread row is read once if and only if the reader had read the older row, or later rows follow and no page ends between or right behind the two |
| StreamDisorder.PairIsRead | services/factory-simulator/app.py:557-560 | what a reader collects in every case: all unread rows, but the older of the pair missed at a page end between them, or the newest read twice at a page end behind them or with nothing following |
| FactoryTick.Factory.Tick | services/factory-simulator/app.py:427-457 | time and all lines and stocks after one tick, with pause and outage |
| FactoryTick.Factory.TickLines | services/factory-simulator/app.py:436-453 | every line and both stocks advance once, independently |
| FactoryTick.Factory.TickLine | services/factory-simulator/app.py:436-453 | one line and at most its own material advance |
| FactoryTick.OutputDependsOnTotalTime | services/factory-simulator/app.py:445-453 | any division of the time gives the same output, a remainder in [0,1) and stock max(initial - usage, 0) |
| FactoryTick.AlloyMatchesOutputIff | services/factory-simulator/app.py:449-450 | for every stock and every division of the time, the alloy used is that of the good pieces exactly when it is just enough for the pieces the time is worth |
| FactoryTick.SteelLineOutcome | services/factory-simulator/app.py:444-453 | after any ticks the steel line is on the closed form or stopped with its steel used up |
| FactoryTick.SufficientSteelFixesOutput | services/factory-simulator/app.py:444-453 | with enough steel the output depends only on the total time |
| FactoryTick.ScarceSteelDependsOnSplit | services/factory-simulator/app.py:449-453 | with too little, some division of the same time makes fewer pieces |
| FactoryTick.SteelOutputIsFixedIff | services/factory-simulator/app.py:449-453 | both directions for every start and total time |
| FactoryTick.ShiftMeetsTarget | services/factory-simulator/app.py:444-449 | eight hours, however divided, bring a line from zero exactly to its target, and four hours to half of it |
| FactoryTick.ShiftUsesAlloy | services/factory-simulator/app.py:450 | a shift of the first line uses 1656 of alloy, or what there is |
| FactoryTick.ShiftUsesSteel | services/factory-simulator/app.py:451-452 | with steel for it, a shift of the third line makes 1100 pieces and uses 462 of steel |
| FactoryTick.FailureStopsTheFirstLine | services/factory-simulator/app.py:437-439 | while the spindle fails the first line stands still, and no other line is concerned |
| ReportingLines.ReportingDescendants | apps/api/app/agent_service.py:283-294 | terminates on every graph and returns, without duplicates, exactly the members reachable in one or more steps through active members |
| ReportingLines.QuerySelects | apps/api/app/agent_service.py:287-291 | the query returns exactly the active rows of the tenant whose manager is in the frontier |
| ReportingLines.ClosedContainsChain | apps/api/app/agent_service.py:286-293 | whatever is closed under reports contains every chain's end |
| BusinessNumbers.Allocator.NextBusinessNumber | apps/api/app/identifiers.py:14-77 | the number issued and the stored sequence; refused without a plant |
| BusinessNumbers.Allocator.FirstFree | apps/api/app/identifiers.py:62-75 | the search terminates at the least free value at or after its start |
| BusinessNumbers.Allocator.NumberExists | apps/api/app/identifiers.py:80-91 | found exactly when some stored or pending row carries the number |
| BusinessNumbers.ParseInvertsFormat | apps/api/app/identifiers.py:53-77 | reading the last part of a printed number gives its value, also beyond four digits |
| BusinessNumbers.FormatIsInjective | apps/api/app/identifiers.py:77 | different values of one scope print differently |
| BusinessNumbers.LeastFreeIsLeast | apps/api/app/identifiers.py:62-75 | the specified value is free and every earlier one is used |
| BusinessNumbers.HighestIsHighest | apps/api/app/identifiers.py:40-55 | the starting value is the highest stored one of the scope |
| BusinessNumbers.FirstAllocationStarts | apps/api/app/identifiers.py:39-56 | the first number of a plant is one, or behind every number of its own flushed rows; other plants and rows not flushed do not move it |
| BusinessNumbers.NumbersRead | apps/api/app/identifiers.py:77 | numbers read like PR-2026-0007, with more digits from ten thousand on |
| BusinessNumbers.AllocationIsFresh | apps/api/app/identifiers.py:57-77 | an allocated number is used nowhere, in no tenant |
| BusinessNumbers.IssuesIncrease | apps/api/app/identifiers.py:14-77 | over every run the values of a scope increase strictly and its numbers are distinct even when none is stored |
| BusinessNumbers.SameValueIff | apps/api/app/identifiers.py:39-77 | two plants reach the same value exactly when no value between their counters is free |
| BusinessNumbers.PlantsCollideIff | apps/api/app/identifiers.py:39-77 | an allocation for one plant right after one for another gives the same number if and only if that was not stored in between and no value between the counters is free |
| NumberRuns.PrintedTells | apps/api/app/identifiers.py:77 | two numbers are equal only for the same prefix, year and value |
| NumberRuns.AllocationRepeatsIff | apps/api/app/identifiers.py:39-77 | an allocation repeats an issued number exactly when that is not stored, not behind the counter, and no value before it is free |
| NumberRuns.NumbersAreDistinctIff | apps/api/app/identifiers.py:14-77 | over any run for all plants, prefixes and years, the numbers are pairwise distinct if and only if no allocation does so |
| NumberRuns.StoredNumbersAreDistinct | apps/api/app/identifiers.py:14-91 | storing each number before the next allocation is enough |
| Decimal.PaddedReadsBack | apps/api/app/identifiers.py:77 | reading inverts zero-padded printing |
| Decimal.PaddedLength | tools/generate_one_pager.py:139 | padding gives exactly its width precisely below the power of ten |
| PdfWriter.Write | tools/generate_one_pager.py:134-140 | the bytes written equal the specified file |
| PdfWriter.MakePdf | tools/generate_one_pager.py:134-140 | the same with the fixed texts of the format |
| PdfWriter.EntriesFitIff | tools/generate_one_pager.py:139 | every table entry has twenty bytes if and only if the last offset is below ten to the tenth |
| PdfWriter.StartIsRead | tools/generate_one_pager.py:138-140 | from the end of the file a reader finds the table |
| PdfWriter.TableHeadIsRead | tools/generate_one_pager.py:138 | the table's size and first row are read there |
| PdfWriter.EntryIsRead | tools/generate_one_pager.py:137-139 | entry i holds the offset of object i |
| PdfWriter.ObjectIsRead | tools/generate_one_pager.py:136-137 | at that offset stands object i with its number |
| PdfWriter.ReaderRecoversEveryObject | tools/generate_one_pager.py:134-140 | a reader that follows startxref, table and offsets recovers every object, whatever bytes it holds |
| PdfWriter.ReaderFindsNoMore | tools/generate_one_pager.py:138-140 | and finds nothing beyond the last |
| PdfWriter.StreamIsReadBack | tools/generate_one_pager.py:130 | the declared length is the stream's, also for a stream that contains the end marker |
| PdfWriter.ContentIsRecovered | tools/generate_one_pager.py:125-140 | the page's content stream is recovered from the bytes of the file |
| PdfWriter.FileOfOneObject | tools/generate_one_pager.py:134-140 | every byte of the file of one object |
| RecentEntities.MoveToFrontIsByLastUse | apps/api/app/agent_state.py:163-172 | the unbounded list holds every used entity once, as last used, ordered by last use |
| RecentEntities.TouchOfFront | apps/api/app/agent_state.py:163-172 | cutting to twelve before a use or only after it gives the same twelve |
| RecentEntities.StoredIsFront | apps/api/app/agent_state.py:150-227 | after any uses the stored list is the first twelve of the unbounded one |
| RecentEntities.SelectedIsTheLastUsed | apps/api/app/agent_state.py:150-227 | after any uses the selected entity and the head of the list are the last one used, which occurs once |
| RecentEntities.StoredIsFirstTwelveIff | apps/api/app/agent_state.py:150-227 | precisely for start lists without duplicates and with at most twelve entries |
| ToolLoop.RunLoop | apps/api/app/agent_runtime.py:119-131 | terminates for every decider, executor and clock, always with a reason |
| ToolLoop.LoopKeepsBudgets | apps/api/app/agent_runtime.py:47-123 | decision and read budgets, one confirmed mutation or proposal in total, budget exits for them never taken |
| ToolLoop.FreshLoopKeepsBudgets | apps/api/app/agent_runtime.py:47-135 | the same from the fresh start |
| ToolLoop.TimeIsUpIff | apps/api/app/agent_runtime.py:44-65 | over every loop: where the time is up nothing more is decided or executed and the loop ends for that reason, and only there |
| ToolLoop.LateLoopExecutesNothing | apps/api/app/agent_runtime.py:64-65 | a clock late at every execution lets nothing be executed |
| ToolLoop.FreshEndTells | apps/api/app/agent_runtime.py:63-123 | the tool budget is kept, an exhausted limit is named only when it is, each answer is cut to the allowed candidates, and only the last answer may be one that ends the loop, which then ends for its reason |
| ToolLoop.MutationRunsOnceIff | apps/api/app/agent_runtime.py:47-131 | over all deciders, clocks and executors answering mutations within a set, no mutation runs twice if and only if no answer of the set is inconclusive or no second execution is allowed |
| EdgeQueue.Agent.QueueMessage | services/edge-agent/main.go:74 | inserts a message unless its identifier is pending |
| EdgeQueue.Agent.SendOne | services/edge-agent/main.go:82-86 | one message under every fate of request, reply and delete |
| EdgeQueue.Agent.Flush | services/edge-agent/main.go:76-87 | the world after a whole batch |
| EdgeQueue.EveryRunIsSafe | services/edge-agent/main.go:74-87 | the safety invariant over every run |
| EdgeQueue.StoreAndForward | services/edge-agent/main.go:74-87 | a queued message is pending or acknowledged, and an acknowledged one was processed exactly once with its first payload |
| EdgeQueue.DrainsInBatches | services/edge-agent/main.go:76-87 | n messages drain in n/100 successful flushes, rounded up, and not in fewer |
| EdgeQueue.EarlyRowIsSent | services/edge-agent/main.go:78 | a row that fewer than a hundred precede is in every batch |
| EdgeProgress.SentWithin | services/edge-agent/main.go:78-86 | past fewer than a hundred refused rows, a row is acknowledged once the places left to others cover the rows ahead, whatever ties are broken and whatever is queued later |
| EdgeProgress.MayWait | services/edge-agent/main.go:78 | behind a hundred refused rows, a row may wait for any number of flushes |
| EdgeProgress.RowIsSentIff | services/edge-agent/main.go:74-87 | with some messages refused for ever, another is always sent within a bounded number of flushes if and only if fewer than a hundred of the refused precede or tie it |
| EdgeProgress.DrainsAroundTheRefused | services/edge-agent/main.go:76-87 | with fewer than a hundred refused, n others drain in n/(100 - refused) flushes, rounded up |
| EdgeProgress.RefusedHeadBlocksTheQueue | services/edge-agent/main.go:78-86 | a hundred refused rows at the head keep every other row from being sent, over any run in which later rows may be queued |
| Calendar.AddDaysAdds | apps/api/app/agent_service.py:605 | adding days is addition on day numbers |
| Calendar.FourDaysAfterThe28th | apps/api/app/agent_service.py:609 | four days after the 28th lie in the following month |
| Calendar.MonthEndIsLastDay | apps/api/app/agent_service.py:608-610 | the month-end phrase is the last day of the month, leap years and December included, and fails exactly in the calendar's last month |
| Calendar.NextFridayIsTheFirstAhead | apps/api/app/agent_service.py:611-613 | next Friday is a Friday one to seven days ahead, with none between |
| Calendar.WeekdayOfDay | apps/api/app/agent_service.py:612 | the calendar's first day is a Monday, and the weekdays follow each other |
| Calendar.NextFridayIsAFifthDay | apps/api/app/agent_service.py:611-613 | counted in weeks from that Monday, next Friday is a fifth day |
| Calendar.AddDaysEndsIff | apps/api/app/agent_service.py:605 | days can be added exactly as long as the calendar's last day is not passed |
| Calendar.DayPhrasesAdd | apps/api/app/agent_service.py:603-607 | the day and month phrases are so many days ahead, thirty for the month, and fail exactly behind the last day |

## Left out

- SQLAlchemy, row locks, Celery, Redis, HTTP and MQTT: the database is a value with commit and rollback, and calls
  that leave the process are arbitrary outcomes.
- Outbox consumers other than the cycle evaluator: each is known by its name, and its domain changes by the number of
  their committed runs. No consumer commits inside itself.
- Outbox runs: names already registered and events of the wildcard type are steps without effect. Each transaction is
  one step, as if they were serial; a commit that is stored but reported as failed, and the texts and times of errors,
  processing and dead-lettering are not modelled.
- OutboxOverlap: dispatches that roll back and are never recorded are not bounded, since they leave no trace in the
  database.
- Events in the outbox are never removed, so an identifier is its position in creation order.
- Cycle evaluation: the lookup of the latest specification, request, comparison, award and order is part of the facts
  given to it; cycle ownership is read from the objective and is set when the objective is created.
- Inventory: tenants and plants; quantities are reals.
- Import: sheets that are not known, keys of white space only, the summary counts, missing-record counts and audit rows.
  Users are matched by e-mail and items by code, as the source does; matching a plant, company or reporting line that
  exists under another key decides which entity is updated, not whether the row is committed, and is not modelled.
  Checks on a row's own values against the tables before the commit are one condition `admissible`, and an exception
  inside a row ends the source's commit where the model has none.
- Connector: payload normalisation through JSON; a hash is known only to be injective; an expected version that is not
  a decimal number is a number no record has; `verify` and the vendor adapters.
- ConnectorClient: competing writers use other idempotency keys than the client.
- Simulator streams: factory reset, clock skew, run labels, and the duplicate-replay scenario's choice of a stream.
- Simulator ticks: floating-point rounding, since quantities are reals; timelines, emitted rows and quality samples.
- Business numbers: signs, underscores and spaces that the source's number parser also accepts; wildcards inside a
  prefix; normalisation of the prefix.
- PdfWriter: page layout and the text commands; the document in the word-processor format.
- ToolLoop: the graph library's own recursion limit; decider, executor and clock answer by the loop's own state.
- EdgeQueue: the order of equal or nearly equal creation times, since a batch is any that the query's order allows; a
  failed update of the attempt counter; what the gateway does with a message it has not seen, beyond counting it. Its
  deduplication is that of `apps/api/app/operations/service.py:1064-1067`.
- Calendar: recognising the phrases and explicit dates in free text.
- Recent entities: the loader's older field names and the other fields of the thread state.
- The companion's interruption budget, the lab engine, the capability registry, currency and management views: they
  offer only easy or finite claims.
