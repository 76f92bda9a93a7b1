/** Complete, duplicate-free delivery by cursor, and what breaks it. */
module StreamDelivery {
  import opened FactoryStream

  /** One stream with one reader. `history` is every row ever appended, `received` what the reader processed. */
  datatype State = State(sequence: nat, rows: seq<Row>, history: seq<Row>, received: seq<Row>, cursor: nat)

  const START := State(0, [], [], [], 0)

  /** In-order operation: emits here or into other streams, replays of the last row, and reads whose reply arrives
      or not (lost, or refused during an outage). */
  datatype Step =
    | Emit(payload: string, lost: bool, duplicate: bool)
    | EmitElsewhere(duplicate: bool)
    | Reappend
    | Fetch(answered: bool)

  /** The rows a step appends. */
  function Fresh(s: State, step: Step): seq<Row> {
    match step
    case Emit(payload, lost, duplicate) =>
      if lost then []
      else
        [Row(s.sequence + 1, s.sequence + 1, payload)]
        + if duplicate then [Row(s.sequence + 2, s.sequence + 1, payload)] else []
    case Reappend => if s.rows == [] then [] else [s.rows[|s.rows| - 1].(cursor := s.sequence + 1)]
    case _ => []
  }

  function Next(s: State, step: Step): State {
    match step
    case Emit(payload, lost, duplicate) =>
      var chaos := Chaos(lost, false, duplicate);
      s.(sequence := s.sequence + 1 + |Duplicates(s.sequence, payload, chaos)|,
         rows := Emitted(s.rows, s.sequence, payload, chaos),
         history := s.history + Fresh(s, step))
    case EmitElsewhere(duplicate) => s.(sequence := s.sequence + if duplicate then 2 else 1)
    case Reappend =>
      if s.rows == [] then s
      else s.(sequence := s.sequence + 1, rows := s.rows + Fresh(s, step), history := s.history + Fresh(s, step))
    case Fetch(answered) =>
      if !answered then s
      else
        var page := Read(s.rows, s.sequence, s.cursor);
        s.(received := s.received + page.records, cursor := page.nextCursor)
  }

  function Run(s: State, steps: seq<Step>): State
    decreases |steps|
  {
    if steps == [] then s else Run(Next(s, steps[0]), steps[1..])
  }

  /** What the reader has processed, followed by what it has not read, is the whole history in order. */
  ghost predicate Complete(s: State) {
    s.received + After(s.rows, s.cursor) == s.history
  }

  ghost predicate Ordered(s: State) {
    && InOrder(s.rows)
    && (forall r | r in s.rows :: r.cursor <= s.sequence)
    && s.cursor <= s.sequence
  }

  /** The step trims a row the reader has not read. */
  predicate Overruns(s: State, step: Step) {
    step.Emit? && |After(s.rows, s.cursor)| + |Fresh(s, step)| > 10000
  }

  predicate NeverOverruns(s: State, steps: seq<Step>)
    decreases |steps|
  {
    steps != [] ==> !Overruns(s, steps[0]) && NeverOverruns(Next(s, steps[0]), steps[1..])
  }

  lemma EmitAppends(s: State, step: Step)
    requires step.Emit?
    ensures Next(s, step).rows == Trimmed(s.rows + Fresh(s, step))
  {
    var chaos := Chaos(step.lost, false, step.duplicate);
    assert Placed(s.rows, Row(s.sequence + 1, s.sequence + 1, step.payload), chaos)
           + Duplicates(s.sequence, step.payload, chaos) == s.rows + Fresh(s, step);
  }

  lemma FreshIsBehind(s: State, step: Step)
    requires Ordered(s)
    ensures InOrder(s.rows + Fresh(s, step))
    ensures forall r | r in Fresh(s, step) :: s.sequence < r.cursor <= Next(s, step).sequence
    ensures After(s.rows + Fresh(s, step), s.cursor) == After(s.rows, s.cursor) + Fresh(s, step)
  {
    NewRowsKeepOrder(s.rows, Fresh(s, step), s.sequence, s.cursor);
  }

  lemma NewRowsKeepOrder(rows: seq<Row>, more: seq<Row>, sequence: nat, cursor: nat)
    requires InOrder(rows) && InOrder(more) && cursor <= sequence
    requires forall r | r in rows :: r.cursor <= sequence
    requires forall r | r in more :: r.cursor > sequence
    ensures InOrder(rows + more) && After(rows + more, cursor) == After(rows, cursor) + more
  {
    AfterConcat(rows, more, cursor);
    AfterAll(more, cursor);
    assert forall i | 0 <= i < |rows| :: rows[i] in rows;
    assert forall i | 0 <= i < |more| :: more[i] in more;
  }

  lemma SuffixKeepsOrder(rows: seq<Row>, cut: nat)
    requires InOrder(rows) && cut <= |rows|
    ensures InOrder(rows[cut..])
  {}

  /** Trimming drops only from the front, so it drops unread rows exactly when they exceed the buffer. */
  lemma TrimmingUnread(rows: seq<Row>, cursor: nat)
    requires InOrder(rows)
    ensures InOrder(Trimmed(rows))
    ensures if |After(rows, cursor)| <= BUFFER then After(Trimmed(rows), cursor) == After(rows, cursor)
            else |After(Trimmed(rows), cursor)| == BUFFER
  {
    var cut := if |rows| <= BUFFER then 0 else |rows| - BUFFER;
    assert Trimmed(rows) == rows[cut..];
    SuffixKeepsOrder(rows, cut);
    AfterOfSuffix(rows, cut, cursor);
  }

  lemma StepKeepsOrdered(s: State, step: Step)
    requires Ordered(s)
    ensures Ordered(Next(s, step))
  {
    FreshIsBehind(s, step);
    match step
    case Emit(_, _, _) =>
      EmitAppends(s, step);
      TrimmingUnread(s.rows + Fresh(s, step), s.cursor);
      var all := s.rows + Fresh(s, step);
      assert forall r | r in Trimmed(all) :: r in all;
    case EmitElsewhere(_) =>
    case Reappend =>
    case Fetch(answered) => PageCursors(s.rows, s.sequence, s.cursor);
  }

  /** Wherever a reader stands, a row appended again under a new cursor is one more row behind everything unread, with
      the event it repeats. */
  lemma ReappendIsReadOnce(s: State, cursor: nat)
    requires Ordered(s) && s.rows != [] && cursor <= s.sequence
    ensures var last, copy := s.rows[|s.rows| - 1], Fresh(s, Reappend)[0];
            && Ordered(Next(s, Reappend))
            && After(Next(s, Reappend).rows, cursor) == After(s.rows, cursor) + [copy]
            && copy.eventId == last.eventId && copy.payload == last.payload && copy.cursor > last.cursor
  {
    StepKeepsOrdered(s, Reappend);
    NewRowsKeepOrder(s.rows, Fresh(s, Reappend), s.sequence, cursor);
    assert s.rows[|s.rows| - 1] in s.rows;
  }

  /** Rows of the history that are neither received nor still to be read. */
  function Missing(s: State): int {
    |s.history| - |s.received| - |After(s.rows, s.cursor)|
  }

  /** A step loses rows exactly when it overruns the reader, and a lost row never comes back. */
  lemma StepLoses(s: State, step: Step)
    requires Ordered(s)
    ensures Missing(Next(s, step))
            == Missing(s)
               + if Overruns(s, step) then |After(s.rows, s.cursor)| + |Fresh(s, step)| - BUFFER else 0
    ensures Complete(s) && !Overruns(s, step) ==> Complete(Next(s, step))
  {
    match step
    case Emit(_, _, _) => EmitLoses(s, step);
    case EmitElsewhere(_) =>
    case Reappend => FreshIsBehind(s, step);
    case Fetch(answered) =>
      if answered {
        FetchLosesNothing(s);
      }
  }

  lemma EmitLoses(s: State, step: Step)
    requires Ordered(s) && step.Emit?
    ensures Missing(Next(s, step))
            == Missing(s)
               + if Overruns(s, step) then |After(s.rows, s.cursor)| + |Fresh(s, step)| - BUFFER else 0
    ensures Complete(s) && !Overruns(s, step) ==> Complete(Next(s, step))
  {
    FreshIsBehind(s, step);
    EmitAppends(s, step);
    TrimmingUnread(s.rows + Fresh(s, step), s.cursor);
    var unread := After(s.rows, s.cursor);
    assert (s.received + unread) + Fresh(s, step) == s.received + (unread + Fresh(s, step));
  }

  lemma FetchLosesNothing(s: State)
    requires Ordered(s)
    ensures Missing(Next(s, Fetch(true))) == Missing(s)
    ensures Complete(s) ==> Complete(Next(s, Fetch(true)))
  {
    PageSplits(s.rows, s.sequence, s.cursor);
    var page := Read(s.rows, s.sequence, s.cursor);
    assert s.received + (page.records + After(s.rows, page.nextCursor))
           == (s.received + page.records) + After(s.rows, page.nextCursor);
  }

  lemma {:induction false} MissingStays(s: State, steps: seq<Step>)
    requires Ordered(s)
    ensures Missing(Run(s, steps)) >= Missing(s)
    decreases |steps|
  {
    if steps != [] {
      StepKeepsOrdered(s, steps[0]);
      StepLoses(s, steps[0]);
      MissingStays(Next(s, steps[0]), steps[1..]);
    }
  }

  /** For every interleaving of in-order emits, lost replies, outages and reads: at its end, received and unread rows
      are the whole history in order exactly when no emit overran the reader by the buffer's ten thousand rows. */
  lemma {:induction false} DeliveryIsCompleteIff(s: State, steps: seq<Step>)
    requires Ordered(s) && Complete(s)
    ensures Complete(Run(s, steps)) <==> NeverOverruns(s, steps)
    decreases |steps|
  {
    if steps != [] {
      StepKeepsOrdered(s, steps[0]);
      StepLoses(s, steps[0]);
      if Overruns(s, steps[0]) {
        MissingStays(Next(s, steps[0]), steps[1..]);
      } else {
        DeliveryIsCompleteIff(Next(s, steps[0]), steps[1..]);
      }
    }
  }

  /** No row is received twice: cursors of received rows increase. */
  ghost predicate ReceivedInOrder(s: State) {
    InOrder(s.received) && forall r | r in s.received :: r.cursor <= s.cursor
  }

  lemma {:induction false} NothingIsReceivedTwice(s: State, steps: seq<Step>)
    requires Ordered(s) && ReceivedInOrder(s)
    ensures ReceivedInOrder(Run(s, steps))
    decreases |steps|
  {
    if steps != [] {
      StepKeepsOrdered(s, steps[0]);
      if steps[0] == Fetch(true) {
        FetchKeepsReceivedInOrder(s);
      }
      NothingIsReceivedTwice(Next(s, steps[0]), steps[1..]);
    }
  }

  lemma FetchKeepsReceivedInOrder(s: State)
    requires Ordered(s) && ReceivedInOrder(s)
    ensures ReceivedInOrder(Next(s, Fetch(true)))
  {
    PageCursors(s.rows, s.sequence, s.cursor);
    assert forall i | 0 <= i < |s.received| :: s.received[i] in s.received;
  }

  // ---------- A cursor from the future ----------

  /** A reader whose cursor lies ahead of the stream's sequence, as after a restart of the factory, begins at the first
      row: it gets up to five hundred rows, and what it has then received, with what is left to read, is all rows of the
      buffer in order. */
  lemma FutureCursorStartsOver(s: State)
    requires InOrder(s.rows) && forall r | r in s.rows :: 0 < r.cursor <= s.sequence
    requires s.cursor > s.sequence
    ensures var next := Next(s, Fetch(true));
            && Ordered(next)
            && next.received + After(next.rows, next.cursor) == s.received + s.rows
            && |next.received| == |s.received| + (if |s.rows| <= 500 then |s.rows| else 500)
  {
    var restarted := s.(cursor := 0);
    FutureCursorReadsFirst(s.rows, s.sequence, s.cursor);
    StepKeepsOrdered(restarted, Fetch(true));
    FetchSplits(restarted);
    AfterAll(s.rows, 0);
  }

  /** What a fetch has received and what it leaves to read is what was received and to be read before. */
  lemma FetchSplits(s: State)
    requires Ordered(s)
    ensures var next := Next(s, Fetch(true));
            && next.received + After(next.rows, next.cursor) == s.received + After(s.rows, s.cursor)
            && |next.received| - |s.received|
               == (if |After(s.rows, s.cursor)| <= PAGE then |After(s.rows, s.cursor)| else PAGE)
  {
    var page := Read(s.rows, s.sequence, s.cursor);
    PageSplits(s.rows, s.sequence, s.cursor);
    Associate(s.received, page.records, After(s.rows, page.nextCursor));
  }

  // ---------- Draining ----------

  function Fetches(s: State, n: nat): State
    decreases n
  {
    if n == 0 then s else Fetches(Next(s, Fetch(true)), n - 1)
  }

  /** Without new emits, each answered read takes up to five hundred rows, so n unread rows drain in n/500 reads,
      rounded up, and not in fewer. */
  lemma {:induction false} DrainsInPages(s: State, n: nat)
    requires Ordered(s)
    ensures var unread := |After(s.rows, s.cursor)|;
            && |After(Fetches(s, n).rows, Fetches(s, n).cursor)|
               == (if unread <= PAGE * n then 0 else unread - PAGE * n)
            && (After(Fetches(s, n).rows, Fetches(s, n).cursor) == [] <==> n >= (unread + PAGE - 1) / PAGE)
    decreases n
  {
    if n > 0 {
      StepKeepsOrdered(s, Fetch(true));
      PageSplits(s.rows, s.sequence, s.cursor);
      DrainsInPages(Next(s, Fetch(true)), n - 1);
    }
  }

  /** The connector reports more to come for a full page: never wrongly no, and wrongly yes exactly when the full
      page was the last one. */
  lemma HasMoreErrsOnlyOnAFullLastPage(s: State)
    requires Ordered(s)
    ensures var hasMore := |Read(s.rows, s.sequence, s.cursor).records| >= PAGE;
            var left := After(Next(s, Fetch(true)).rows, Next(s, Fetch(true)).cursor);
            && (!hasMore ==> left == [])
            && (hasMore && left == [] <==> |After(s.rows, s.cursor)| == PAGE)
  {
    PageSplits(s.rows, s.sequence, s.cursor);
  }
}
