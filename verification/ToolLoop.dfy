/** The bounded decide-and-execute loop of the assistant. */
module ToolLoop {
  import opened Wrappers

  datatype Category = ReadTool | MutationTool | ProposalTool

  datatype Request = Final | Call(tool: string)

  datatype Observation = Observation(
    status: string, hasReceipt: bool, hasSummary: bool, candidates: seq<string>, truncated: bool)

  datatype Reason =
    | TimeBudget | DecisionBudget | FinalAnswer | UnknownTool
    | ToolBudget | ReadBudget | MutationBudget | ProposalBudget
    | MutationCompleted | ProposalCreated | NeedsClarification | Processing | Blocked | Failed

  datatype Execution = Execution(category: Category, observation: Observation)

  datatype State = State(
    executions: seq<Execution>, next: Option<Request>, decisions: nat, readCalls: nat, mutations: nat, proposals: nat,
    reason: Option<Reason>)

  const FRESH := State([], None, 0, 0, 0, 0, None)

  datatype Limits = Limits(decisions: nat, readCalls: nat, toolCalls: nat, candidates: nat)

  /** The outside world: an arbitrary decider, executor and clock, each answering by the loop's own progress. */
  datatype World = World(
    categories: map<string, Category>, decide: State -> Request, execute: (State, string) -> Observation,
    lateToDecide: State -> bool, lateToExecute: State -> bool)

  function Decide(l: Limits, w: World, s: State): State {
    if w.lateToDecide(s) then s.(next := None, reason := Some(TimeBudget))
    else if s.decisions >= l.decisions then s.(next := None, reason := Some(DecisionBudget))
    else
      var request := w.decide(s);
      if request.Final? then s.(decisions := s.decisions + 1, next := None, reason := Some(FinalAnswer))
      else s.(decisions := s.decisions + 1, next := Some(request))
  }

  function Truncated(l: Limits, o: Observation): Observation {
    if |o.candidates| > l.candidates then o.(candidates := o.candidates[..l.candidates], truncated := true) else o
  }

  /** A mutation counts once it is completed with a receipt, or answers in the older form. */
  predicate Confirms(c: Category, o: Observation) {
    match c
    case ReadTool => false
    case MutationTool => (o.status == "completed" && o.hasReceipt) || (o.status == "ok" && !o.hasSummary)
    case ProposalTool => o.status == "proposal_created"
  }

  function ReasonFor(c: Category, o: Observation): Option<Reason> {
    if Confirms(c, o) then Some(if c == MutationTool then MutationCompleted else ProposalCreated)
    else if o.status == "needs_clarification" then Some(NeedsClarification)
    else if o.status == "processing" then Some(Processing)
    else if o.status == "blocked" then Some(Blocked)
    else if o.status == "failed" then Some(Failed)
    else None
  }

  function Execute(l: Limits, w: World, s: State): State {
    var tool := if s.next.Some? && s.next.value.Call? then s.next.value.tool else "";
    if w.lateToExecute(s) then s.(next := None, reason := Some(TimeBudget))
    else if tool !in w.categories then s.(next := None, reason := Some(UnknownTool))
    else if s.readCalls + s.mutations + s.proposals >= l.toolCalls then s.(next := None, reason := Some(ToolBudget))
    else if w.categories[tool] == ReadTool && s.readCalls >= l.readCalls then
      s.(next := None, reason := Some(ReadBudget))
    else if w.categories[tool] == MutationTool && s.mutations >= 1 then
      s.(next := None, reason := Some(MutationBudget))
    else if w.categories[tool] == ProposalTool && s.proposals >= 1 then
      s.(next := None, reason := Some(ProposalBudget))
    else
      var c := w.categories[tool];
      var o := Truncated(l, w.execute(s, tool));
      s.(next := None, executions := s.executions + [Execution(c, o)],
         readCalls := s.readCalls + if c == ReadTool then 1 else 0,
         mutations := s.mutations + if c == MutationTool && Confirms(c, o) then 1 else 0,
         proposals := s.proposals + if c == ProposalTool && Confirms(c, o) then 1 else 0,
         reason := ReasonFor(c, o))
  }

  /** The graph: decide, then execute, until a node gives a reason to stop. */
  function RunLoop(l: Limits, w: World, s: State): (end: State)
    requires s.reason.None?
    ensures end.reason.Some?
    decreases l.decisions - s.decisions
  {
    var decided := Decide(l, w, s);
    if decided.reason.Some? then decided
    else
      var executed := Execute(l, w, decided);
      if executed.reason.Some? then executed else RunLoop(l, w, executed)
  }

  function CountOf(executions: seq<Execution>, c: Category): nat {
    if executions == [] then 0
    else CountOf(executions[..|executions| - 1], c) + if executions[|executions| - 1].category == c then 1 else 0
  }

  /** While the loop goes on: budgets kept, one execution a decision, and nothing confirmed yet. */
  ghost predicate Ongoing(l: Limits, s: State) {
    && s.decisions <= l.decisions && |s.executions| == s.decisions
    && s.readCalls == CountOf(s.executions, ReadTool) <= l.readCalls
    && s.mutations == 0 && s.proposals == 0
    && forall i | 0 <= i < |s.executions| :: ReasonFor(s.executions[i].category, s.executions[i].observation) == None
  }

  lemma CountAppend(executions: seq<Execution>, e: Execution, c: Category)
    ensures CountOf(executions + [e], c) == CountOf(executions, c) + if e.category == c then 1 else 0
  {
    assert (executions + [e])[..|executions|] == executions;
  }

  /** What holds when the loop has stopped. */
  ghost predicate Stopped(l: Limits, s: State) {
    && s.decisions <= l.decisions && |s.executions| <= l.decisions
    && CountOf(s.executions, ReadTool) == s.readCalls <= l.readCalls
    && s.mutations + s.proposals <= 1
    && s.reason != Some(MutationBudget) && s.reason != Some(ProposalBudget)
    && (s.mutations == 1 <==> s.reason == Some(MutationCompleted))
    && (s.proposals == 1 <==> s.reason == Some(ProposalCreated))
    && (s.reason == Some(ToolBudget) ==> l.toolCalls <= l.readCalls)
    && forall i | 0 <= i < |s.executions| - 1 ::
         ReasonFor(s.executions[i].category, s.executions[i].observation) == None
  }

  lemma DecideKeeps(l: Limits, w: World, s: State)
    requires s.reason.None? && Ongoing(l, s)
    ensures var d := Decide(l, w, s);
            if d.reason.Some? then Stopped(l, d)
            else d.decisions == s.decisions + 1 <= l.decisions && d == s.(decisions := d.decisions, next := d.next)
  {}

  lemma ExecuteKeeps(l: Limits, w: World, s: State)
    requires s.reason.None? && s.decisions > 0 && Ongoing(l, s.(decisions := s.decisions - 1))
    requires s.decisions <= l.decisions
    ensures var e := Execute(l, w, s);
            e.decisions == s.decisions && if e.reason.Some? then Stopped(l, e) else Ongoing(l, e)
  {
    var e := Execute(l, w, s);
    if |e.executions| > |s.executions| {
      var last := e.executions[|s.executions|];
      assert e.executions == s.executions + [last];
      CountAppend(s.executions, last, ReadTool);
      assert forall i | 0 <= i < |s.executions| :: e.executions[i] == s.executions[i];
    }
  }

  /** For every decider, executor and clock the loop stops with a reason, within its decision and read budgets; at most
      the last execution confirms a mutation or a proposal, so the two count one in total at most, the exits for
      exceeded mutation and proposal budgets are never taken, and the shared tool budget stops a loop only if it is not
      larger than the read budget. */
  lemma {:induction false} LoopKeepsBudgets(l: Limits, w: World, s: State)
    requires s.reason.None? && Ongoing(l, s)
    ensures Stopped(l, RunLoop(l, w, s))
    decreases l.decisions - s.decisions
  {
    DecideKeeps(l, w, s);
    var decided := Decide(l, w, s);
    if decided.reason.None? {
      assert decided.(decisions := s.decisions).executions == s.executions;
      assert Ongoing(l, decided.(decisions := decided.decisions - 1));
      ExecuteKeeps(l, w, decided);
      var executed := Execute(l, w, decided);
      if executed.reason.None? {
        LoopKeepsBudgets(l, w, executed);
      }
    }
  }

  /** From a fresh start. */
  lemma FreshLoopKeepsBudgets(l: Limits, w: World)
    ensures var end := RunLoop(l, w, FRESH);
            && end.reason.Some? && |end.executions| <= l.decisions
            && CountOf(end.executions, ReadTool) == end.readCalls <= l.readCalls
            && end.mutations + end.proposals <= 1
            && end.reason != Some(MutationBudget) && end.reason != Some(ProposalBudget)
            && (end.reason == Some(ToolBudget) ==> l.toolCalls <= l.readCalls)
  {
    LoopKeepsBudgets(l, w, FRESH);
  }

  // ---------- The clock ----------

  /** The nodes a loop passes, with the state each one starts from. */
  datatype Visit = AtDecide(state: State) | AtExecute(state: State)

  function Visits(l: Limits, w: World, s: State): seq<Visit>
    requires s.reason.None?
    decreases l.decisions - s.decisions
  {
    var decided := Decide(l, w, s);
    if decided.reason.Some? then [AtDecide(s)]
    else
      var executed := Execute(l, w, decided);
      [AtDecide(s), AtExecute(decided)] + if executed.reason.Some? then [] else Visits(l, w, executed)
  }

  /** The time is up when the loop comes to the node. */
  predicate IsLate(w: World, v: Visit) {
    match v
    case AtDecide(s) => w.lateToDecide(s)
    case AtExecute(s) => w.lateToExecute(s)
  }

  /** Over every loop: where the time is up, nothing more is decided or executed and the loop ends for that reason, and
      it ends for that reason only where the time is up. */
  lemma {:induction false} TimeIsUpIff(l: Limits, w: World, s: State)
    requires s.reason.None?
    ensures var visits, end := Visits(l, w, s), RunLoop(l, w, s);
            && visits != []
            && (end.reason == Some(TimeBudget) <==> IsLate(w, visits[|visits| - 1]))
            && (forall i | 0 <= i < |visits| - 1 :: !IsLate(w, visits[i]))
            && (IsLate(w, visits[|visits| - 1]) ==>
                  && end.executions == visits[|visits| - 1].state.executions
                  && end.decisions == visits[|visits| - 1].state.decisions)
    decreases l.decisions - s.decisions
  {
    var decided := Decide(l, w, s);
    if decided.reason.None? {
      var executed := Execute(l, w, decided);
      if executed.reason.None? {
        TimeIsUpIff(l, w, executed);
        var rest := Visits(l, w, executed);
        assert Visits(l, w, s) == [AtDecide(s), AtExecute(decided)] + rest;
      }
    }
  }

  /** A clock that is late at every execution lets nothing be executed. */
  lemma LateLoopExecutesNothing(l: Limits, w: World)
    requires forall s :: w.lateToExecute(s)
    ensures RunLoop(l, w, FRESH).executions == []
  {}

  // ---------- What ends a loop ----------

  predicate IsDone(o: Observation) {
    (o.status == "completed" && o.hasReceipt) || (o.status == "ok" && !o.hasSummary)
  }

  /** The answer to an execution that ends the loop, and the reason it gives. */
  function EndingOf(e: Execution): Option<Reason> {
    var o := e.observation;
    if e.category == MutationTool && IsDone(o) then Some(MutationCompleted)
    else if e.category == ProposalTool && o.status == "proposal_created" then Some(ProposalCreated)
    else if o.status == "needs_clarification" then Some(NeedsClarification)
    else if o.status == "processing" then Some(Processing)
    else if o.status == "blocked" then Some(Blocked)
    else if o.status == "failed" then Some(Failed)
    else None
  }

  /** The limits that ended a loop are used up, and each answer has been cut to the allowed candidates. */
  ghost predicate LimitsTell(l: Limits, s: State) {
    && (s.reason == Some(DecisionBudget) ==> s.decisions >= l.decisions)
    && (s.reason == Some(ReadBudget) ==> s.readCalls >= l.readCalls)
    && (s.reason == Some(ToolBudget) ==> s.readCalls + s.mutations + s.proposals >= l.toolCalls)
    && s.readCalls + s.mutations + s.proposals <= l.toolCalls
    && forall i | 0 <= i < |s.executions| :: |s.executions[i].observation.candidates| <= l.candidates
  }

  /** No execution but the last one was to end the loop. */
  predicate NoneEnds(executions: seq<Execution>) {
    forall i | 0 <= i < |executions| :: EndingOf(executions[i]) == None
  }

  lemma DecideTells(l: Limits, w: World, s: State)
    requires s.reason.None? && NoneEnds(s.executions) && LimitsTell(l, s)
    ensures var d := Decide(l, w, s);
            && d.executions == s.executions && LimitsTell(l, d)
            && d.reason in {None, Some(TimeBudget), Some(DecisionBudget), Some(FinalAnswer)}
  {}

  lemma ExecuteTells(l: Limits, w: World, s: State)
    requires s.reason.None? && NoneEnds(s.executions) && LimitsTell(l, s)
    ensures var e := Execute(l, w, s);
            && LimitsTell(l, e)
            && (e.reason.None? ==> NoneEnds(e.executions))
            && (e.executions == s.executions
                || (|e.executions| == |s.executions| + 1 && e.executions[..|s.executions|] == s.executions
                    && e.reason == EndingOf(e.executions[|s.executions|])))
            && (e.executions == s.executions ==>
                  e.reason in {Some(TimeBudget), Some(UnknownTool), Some(ToolBudget), Some(ReadBudget),
                               Some(MutationBudget), Some(ProposalBudget)})
  {
    var e := Execute(l, w, s);
    if |e.executions| > |s.executions| {
      assert forall i | 0 <= i < |s.executions| :: e.executions[i] == s.executions[i];
    }
  }

  /** Over every loop: the tool budget is kept, an exhausted limit is named only when it is exhausted, only the last
      answer may be one that ends the loop, and then the loop ends for its reason and for no other. */
  lemma {:induction false} EndTells(l: Limits, w: World, s: State)
    requires s.reason.None? && NoneEnds(s.executions) && LimitsTell(l, s)
    ensures var end := RunLoop(l, w, s);
            && LimitsTell(l, end)
            && (if end.executions != [] && EndingOf(end.executions[|end.executions| - 1]) != None
                then end.reason == EndingOf(end.executions[|end.executions| - 1])
                     && NoneEnds(end.executions[..|end.executions| - 1])
                else NoneEnds(end.executions)
                     && end.reason in {Some(TimeBudget), Some(DecisionBudget), Some(FinalAnswer), Some(UnknownTool),
                                       Some(ToolBudget), Some(ReadBudget), Some(MutationBudget), Some(ProposalBudget)})
    decreases l.decisions - s.decisions
  {
    DecideTells(l, w, s);
    var decided := Decide(l, w, s);
    if decided.reason.None? {
      ExecuteTells(l, w, decided);
      var executed := Execute(l, w, decided);
      if executed.reason.None? {
        EndTells(l, w, executed);
      }
    }
  }

  /** From a fresh start. */
  lemma FreshEndTells(l: Limits, w: World)
    ensures var end := RunLoop(l, w, FRESH);
            && end.readCalls + end.mutations + end.proposals <= l.toolCalls
            && (end.reason == Some(ToolBudget) ==> end.readCalls + end.mutations + end.proposals == l.toolCalls)
            && (end.reason == Some(DecisionBudget) ==> end.decisions == l.decisions)
            && (end.reason == Some(ReadBudget) ==> end.readCalls == l.readCalls)
            && forall i | 0 <= i < |end.executions| ::
                 && |end.executions[i].observation.candidates| <= l.candidates
                 && (i < |end.executions| - 1 ==> EndingOf(end.executions[i]) == None)
                 && (EndingOf(end.executions[i]) != None ==> end.reason == EndingOf(end.executions[i]))
  {
    EndTells(l, w, FRESH);
    LoopKeepsBudgets(l, w, FRESH);
    var end := RunLoop(l, w, FRESH);
    if end.executions != [] {
      assert forall i | 0 <= i < |end.executions| - 1 ::
          end.executions[..|end.executions| - 1][i] == end.executions[i];
    }
  }

  // ---------- How often a mutation is executed ----------

  /** An answer that neither confirms a mutation nor ends the loop, such as "completed" without a receipt. */
  predicate Inconclusive(o: Observation) {
    && !(o.status == "completed" && o.hasReceipt) && !(o.status == "ok" && !o.hasSummary)
    && o.status != "needs_clarification" && o.status != "processing" && o.status != "blocked" && o.status != "failed"
  }

  /** The executor answers every mutation with one of these. */
  ghost predicate AnswersWithin(w: World, answers: iset<Observation>) {
    forall s, tool | tool in w.categories && w.categories[tool] == MutationTool :: w.execute(s, tool) in answers
  }

  predicate MutationsConclude(executions: seq<Execution>) {
    forall i | 0 <= i < |executions| && executions[i].category == MutationTool ::
      !Inconclusive(executions[i].observation)
  }

  lemma {:induction false} ConclusiveAnswersConclude(l: Limits, w: World, s: State, answers: iset<Observation>)
    requires s.reason.None? && MutationsConclude(s.executions)
    requires AnswersWithin(w, answers) && forall o | o in answers :: !Inconclusive(o)
    ensures MutationsConclude(RunLoop(l, w, s).executions)
    decreases l.decisions - s.decisions
  {
    var decided := Decide(l, w, s);
    if decided.reason.None? {
      var executed := Execute(l, w, decided);
      assert MutationsConclude(executed.executions);
      if executed.reason.None? {
        ConclusiveAnswersConclude(l, w, executed, answers);
      }
    }
  }

  lemma {:induction false} CountIsZero(executions: seq<Execution>, c: Category)
    requires forall i | 0 <= i < |executions| :: executions[i].category != c
    ensures CountOf(executions, c) == 0
  {
    if executions != [] {
      CountIsZero(executions[..|executions| - 1], c);
    }
  }

  lemma {:induction false} CountIsBounded(executions: seq<Execution>, c: Category)
    ensures CountOf(executions, c) <= |executions|
  {
    if executions != [] {
      CountIsBounded(executions[..|executions| - 1], c);
    }
  }

  /** Only the last execution of a loop can conclude. */
  lemma ConclusiveMutationsRunOnce(l: Limits, w: World, answers: iset<Observation>)
    requires AnswersWithin(w, answers) && forall o | o in answers :: !Inconclusive(o)
    ensures CountOf(RunLoop(l, w, FRESH).executions, MutationTool) <= 1
  {
    LoopKeepsBudgets(l, w, FRESH);
    ConclusiveAnswersConclude(l, w, FRESH, answers);
    var executions := RunLoop(l, w, FRESH).executions;
    if executions != [] {
      CountIsZero(executions[..|executions| - 1], MutationTool);
    }
  }

  /** A decider that keeps calling one mutation, in time. */
  function Insistent(tool: string, o: Observation): World {
    World(map[tool := MutationTool], (s: State) => Call(tool), (s: State, t: string) => o,
          (s: State) => false, (s: State) => false)
  }

  lemma {:induction false} InsistsToTheEnd(l: Limits, tool: string, o: Observation, s: State)
    requires Inconclusive(o) && l.toolCalls >= 1
    requires s.reason.None? && s.readCalls == s.mutations == s.proposals == 0
    requires CountOf(s.executions, MutationTool) == s.decisions <= l.decisions
    ensures CountOf(RunLoop(l, Insistent(tool, o), s).executions, MutationTool) == l.decisions
    decreases l.decisions - s.decisions
  {
    var w := Insistent(tool, o);
    var decided := Decide(l, w, s);
    if decided.reason.None? {
      var executed := Execute(l, w, decided);
      CountAppend(s.executions, Execution(MutationTool, Truncated(l, o)), MutationTool);
      InsistsToTheEnd(l, tool, o, executed);
    }
  }

  /** Over all deciders, all clocks and all executors that answer mutations within a set: no loop executes a mutation
      more than once exactly when no answer of the set is inconclusive, or no second execution is allowed anyway. */
  lemma MutationRunsOnceIff(l: Limits, answers: iset<Observation>)
    ensures (forall w | AnswersWithin(w, answers) :: CountOf(RunLoop(l, w, FRESH).executions, MutationTool) <= 1)
            <==> l.decisions <= 1 || l.toolCalls == 0 || forall o | o in answers :: !Inconclusive(o)
  {
    if l.decisions > 1 && l.toolCalls > 0 && exists o :: o in answers && Inconclusive(o) {
      var o :| o in answers && Inconclusive(o);
      InsistsToTheEnd(l, "mutation", o, FRESH);
      assert AnswersWithin(Insistent("mutation", o), answers);
    } else {
      forall w | AnswersWithin(w, answers) ensures CountOf(RunLoop(l, w, FRESH).executions, MutationTool) <= 1 {
        if l.decisions <= 1 {
          FreshLoopKeepsBudgets(l, w);
          CountIsBounded(RunLoop(l, w, FRESH).executions, MutationTool);
        } else if l.toolCalls > 0 {
          ConclusiveMutationsRunOnce(l, w, answers);
        }
      }
    }
  }
}
