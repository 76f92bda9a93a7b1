/** What a reader collects from a buffer that an out-of-order emit has disturbed. */
module StreamDisorder {
  import opened FactoryStream
  import S = StreamDelivery

  /** Everything a reader collects from a buffer at rest, page after page. */
  function Drained(rows: seq<Row>, sequence: nat, cursor: nat): seq<Row>
    requires cursor <= sequence && forall r | r in rows :: r.cursor <= sequence
    decreases sequence - cursor
  {
    if After(rows, cursor) == [] then []
    else
      var page := Read(rows, sequence, cursor);
      assert page.nextCursor > cursor && page.nextCursor <= sequence by {
        AfterIsBehind(rows, cursor);
        assert page.records[|page.records| - 1] in After(rows, cursor);
      }
      page.records + Drained(rows, sequence, page.nextCursor)
  }

  lemma {:induction false} AfterIsBehind(rows: seq<Row>, cursor: nat)
    ensures forall r | r in After(rows, cursor) :: r in rows && r.cursor > cursor
  {
    if rows != [] {
      AfterIsBehind(rows[1..], cursor);
    }
  }

  /** In cursor order a drained buffer is read once, in order. */
  lemma {:induction false} InOrderDrainsOnce(rows: seq<Row>, sequence: nat, cursor: nat)
    requires InOrder(rows) && cursor <= sequence && forall r | r in rows :: r.cursor <= sequence
    ensures Drained(rows, sequence, cursor) == After(rows, cursor)
    decreases sequence - cursor
  {
    if After(rows, cursor) != [] {
      PageSplits(rows, sequence, cursor);
      PageCursors(rows, sequence, cursor);
      InOrderDrainsOnce(rows, sequence, Read(rows, sequence, cursor).nextCursor);
    }
  }

  // ---------- One out-of-order emit ----------

  /** The buffer after an out-of-order emit and any in-order ones: two rows are swapped, later rows follow. */
  function Disturbed(older: seq<Row>, last: Row, newest: Row, later: seq<Row>): seq<Row> {
    older + [newest, last] + later
  }

  predicate Swapped(older: seq<Row>, last: Row, newest: Row, later: seq<Row>, sequence: nat) {
    && InOrder(older) && (forall r | r in older :: r.cursor < last.cursor)
    && last.cursor < newest.cursor <= sequence
    && InOrder(later) && (forall r | r in later :: newest.cursor < r.cursor <= sequence)
  }

  /** An out-of-order emit into an ordered buffer disturbs it so; its own duplicate is a later row. */
  lemma OutOfOrderEmitSwaps(rows: seq<Row>, sequence: nat, payload: string, duplicate: bool) returns (older: seq<Row>)
    requires rows != [] && InOrder(rows) && Bounded(rows, sequence)
    ensures var chaos := Chaos(false, true, duplicate);
            var last, newest := rows[|rows| - 1], Row(sequence + 1, sequence + 1, payload);
            var later := Duplicates(sequence, payload, chaos);
            && Emitted(rows, sequence, payload, chaos) == Disturbed(older, last, newest, later)
            && Swapped(older, last, newest, later, sequence + 2)
  {
    var n, newest := |rows| - 1, Row(sequence + 1, sequence + 1, payload);
    var later := Duplicates(sequence, payload, Chaos(false, true, duplicate));
    var cut := if |rows| + 1 + |later| <= BUFFER then 0 else |rows| + 1 + |later| - BUFFER;
    older := rows[cut..n];
    PlacedIsDisturbed(rows, newest, later);
    TrimmedDisturbed(rows[..n], rows[n], newest, later, cut);
    assert rows[..n][cut..] == older;
    assert rows[n] in rows;
  }

  lemma PlacedIsDisturbed(rows: seq<Row>, newest: Row, later: seq<Row>)
    requires rows != []
    ensures Placed(rows, newest, Chaos(false, true, later != [])) + later
            == Disturbed(rows[..|rows| - 1], rows[|rows| - 1], newest, later)
  {
    Associate(rows[..|rows| - 1], [newest, rows[|rows| - 1]], later);
  }

  lemma TrimmedDisturbed(older: seq<Row>, last: Row, newest: Row, later: seq<Row>, cut: nat)
    requires |later| + 2 <= BUFFER
    requires var total := |older| + 2 + |later|; cut == if total <= BUFFER then 0 else total - BUFFER
    ensures Trimmed(Disturbed(older, last, newest, later)) == Disturbed(older[cut..], last, newest, later)
  {
    var rest := [newest, last] + later;
    Associate(older, [newest, last], later);
    Associate(older[cut..], [newest, last], later);
    assert (older + rest)[cut..] == older[cut..] + rest;
  }

  predicate Bounded(rows: seq<Row>, sequence: nat) {
    forall r | r in rows :: r.cursor <= sequence
  }

  // ---------- What is unread, by the position of the cursor ----------

  lemma DisturbedAfter(older: seq<Row>, last: Row, newest: Row, later: seq<Row>, cursor: nat)
    ensures After(Disturbed(older, last, newest, later), cursor)
            == After(older, cursor) + After([newest, last], cursor) + After(later, cursor)
  {
    AfterConcat(older + [newest, last], later, cursor);
    AfterConcat(older, [newest, last], cursor);
  }

  lemma PairAfter(last: Row, newest: Row, cursor: nat)
    ensures After([newest, last], cursor)
            == (if newest.cursor > cursor then [newest] else []) + (if last.cursor > cursor then [last] else [])
  {
    AfterConcat([newest], [last], cursor);
    AfterAll([newest], cursor);
    AfterAll([last], cursor);
    assert [newest] + [last] == [newest, last];
  }

  lemma BehindThePair(older: seq<Row>, last: Row, newest: Row, later: seq<Row>, sequence: nat, cursor: nat)
    requires Swapped(older, last, newest, later, sequence) && cursor < last.cursor
    ensures After(Disturbed(older, last, newest, later), cursor) == After(older, cursor) + [newest, last] + later
  {
    DisturbedAfter(older, last, newest, later, cursor);
    PairAfter(last, newest, cursor);
    AfterAll(later, cursor);
  }

  lemma AtThePair(older: seq<Row>, last: Row, newest: Row, later: seq<Row>, sequence: nat, cursor: nat)
    requires Swapped(older, last, newest, later, sequence) && last.cursor <= cursor
    ensures After(Disturbed(older, last, newest, later), cursor) == After([newest] + later, cursor)
  {
    DisturbedAfter(older, last, newest, later, cursor);
    PairAfter(last, newest, cursor);
    AfterAll(older, cursor);
    AfterCons(newest, later, cursor);
  }

  /** What a reader collects depends only on what is behind its cursor from there on. */
  lemma {:induction false} AlikeDrainsAlike(a: seq<Row>, b: seq<Row>, sequence: nat, cursor: nat)
    requires cursor <= sequence && Bounded(a, sequence) && Bounded(b, sequence)
    requires forall c | cursor <= c :: After(a, c) == After(b, c)
    ensures Drained(a, sequence, cursor) == Drained(b, sequence, cursor)
    decreases sequence - cursor
  {
    if After(a, cursor) != [] {
      NextIsAhead(a, sequence, cursor);
      AlikeDrainsAlike(a, b, sequence, Read(a, sequence, cursor).nextCursor);
    }
  }

  lemma NextIsAhead(rows: seq<Row>, sequence: nat, cursor: nat)
    requires cursor <= sequence && Bounded(rows, sequence) && After(rows, cursor) != []
    ensures cursor < Read(rows, sequence, cursor).nextCursor <= sequence
  {
    var records := Read(rows, sequence, cursor).records;
    AfterIsBehind(rows, cursor);
    assert records[|records| - 1] in After(rows, cursor);
  }

  /** A reader that has read the older of the two rows collects the rest once each. */
  lemma RestIsReadOnce(older: seq<Row>, last: Row, newest: Row, later: seq<Row>, sequence: nat, cursor: nat)
    requires Swapped(older, last, newest, later, sequence) && last.cursor <= cursor <= sequence
    requires Bounded(Disturbed(older, last, newest, later), sequence)
    ensures var rows := Disturbed(older, last, newest, later);
            Drained(rows, sequence, cursor) == After(rows, cursor) == After([newest] + later, cursor)
  {
    var rows, rest := Disturbed(older, last, newest, later), [newest] + later;
    assert InOrder(rest) && Bounded(rest, sequence);
    forall c | cursor <= c ensures After(rows, c) == After(rest, c) {
      AtThePair(older, last, newest, later, sequence, c);
    }
    AlikeDrainsAlike(rows, rest, sequence, cursor);
    InOrderDrainsOnce(rest, sequence, cursor);
  }

  // ---------- Pages ----------

  /** A page takes as much of the unread rows as it can. */
  lemma PageTakes(rows: seq<Row>, first: seq<Row>, rest: seq<Row>, sequence: nat, cursor: nat)
    requires cursor <= sequence && After(rows, cursor) == first + rest && first != []
    requires |first| == PAGE || (|first| < PAGE && rest == [])
    ensures Read(rows, sequence, cursor) == Page(first, first[|first| - 1].cursor)
  {
    assert (first + rest)[..|first|] == first;
  }

  lemma AfterRow(rows: seq<Row>, k: nat)
    requires InOrder(rows) && k < |rows|
    ensures After(rows, rows[k].cursor) == rows[k + 1..]
  {
    AfterFrom(rows, k + 1, rows[k].cursor);
  }

  lemma TailOfLonger(a: Row, s: seq<Row>, m: nat)
    requires m <= |s|
    ensures ([a] + s)[m + 1..] == s[m..] && (m > 0 ==> ([a] + s)[m] == s[m - 1])
  {}

  lemma NewestAfter(newest: Row, later: seq<Row>)
    requires InOrder([newest] + later)
    ensures After([newest] + later, newest.cursor) == later
  {
    TailOfLonger(newest, later, 0);
    AfterRow([newest] + later, 0);
  }

  lemma LaterAfter(newest: Row, later: seq<Row>, m: nat)
    requires InOrder([newest] + later) && 1 <= m <= |later|
    ensures After([newest] + later, later[m - 1].cursor) == later[m..]
  {
    TailOfLonger(newest, later, m);
    AfterRow([newest] + later, m);
  }

  /** What is read of the pair behind so many unread rows. */
  function PairRead(unread: nat, last: Row, newest: Row, later: seq<Row>): seq<Row> {
    if (unread + 1) % PAGE == 0 then [newest]
    else if (unread + 2) % PAGE == 0 || later == [] then [newest, last, newest]
    else [newest, last]
  }

  lemma PairReadNear(unread: nat, last: Row, newest: Row, later: seq<Row>)
    requires unread < PAGE
    ensures PairRead(unread, last, newest, later)
            == if unread == PAGE - 1 then [newest]
               else if unread == PAGE - 2 || later == [] then [newest, last, newest]
               else [newest, last]
  {}

  lemma RegroupRepeat(u: seq<Row>, a: Row, b: Row, l: seq<Row>)
    ensures u + [a, b, a] + l == (u + [a, b]) + ([a] + l)
  {}

  lemma RegroupPair(u: seq<Row>, a: Row, b: Row, l: seq<Row>)
    ensures u + [a, b] + l == (u + [a]) + ([b] + l)
  {}

  lemma RestIsOrdered(older: seq<Row>, last: Row, newest: Row, later: seq<Row>, sequence: nat)
    requires Swapped(older, last, newest, later, sequence)
    ensures InOrder([newest] + later)
    ensures forall i | 0 <= i < |later| :: last.cursor <= later[i].cursor <= sequence
  {
    assert forall i | 0 <= i < |later| :: later[i] in later;
  }

  lemma RegroupSplit(u: seq<Row>, l: seq<Row>, m: nat)
    requires m <= |l|
    ensures u + l == (u + l[..m]) + l[m..]
  {}

  /** The page that reaches the pair and the rest behind that page, with what they hold of the pair. */
  ghost predicate ReadsPair(
    older: seq<Row>, last: Row, newest: Row, later: seq<Row>, sequence: nat, cursor: nat, pair: seq<Row>)
  {
    var page, unread := Read(Disturbed(older, last, newest, later), sequence, cursor), After(older, cursor);
    && last.cursor <= page.nextCursor <= sequence
    && page.records + After([newest] + later, page.nextCursor)
       == unread + pair + later
  }

  lemma ReadsPairThen(
    older: seq<Row>, last: Row, newest: Row, later: seq<Row>, sequence: nat, cursor: nat, pair: seq<Row>,
    page: Page, rest: seq<Row>)
    requires Read(Disturbed(older, last, newest, later), sequence, cursor) == page
    requires last.cursor <= page.nextCursor <= sequence && After([newest] + later, page.nextCursor) == rest
    requires page.records + rest == After(older, cursor) + pair + later
    ensures ReadsPair(older, last, newest, later, sequence, cursor, pair)
  {}

  lemma PageEndsBetween(older: seq<Row>, last: Row, newest: Row, later: seq<Row>, sequence: nat, cursor: nat)
    requires Swapped(older, last, newest, later, sequence) && cursor < last.cursor
    requires |After(older, cursor)| == PAGE - 1
    ensures ReadsPair(older, last, newest, later, sequence, cursor, [newest])
  {
    var unread := After(older, cursor);
    BehindThePair(older, last, newest, later, sequence, cursor);
    RegroupPair(unread, newest, last, later);
    RestIsOrdered(older, last, newest, later, sequence);
    PageTakes(Disturbed(older, last, newest, later), unread + [newest], [last] + later, sequence, cursor);
    NewestAfter(newest, later);
    ReadsPairThen(older, last, newest, later, sequence, cursor, [newest],
                  Page(unread + [newest], newest.cursor), later);
  }

  lemma PageEndsBehind(older: seq<Row>, last: Row, newest: Row, later: seq<Row>, sequence: nat, cursor: nat)
    requires Swapped(older, last, newest, later, sequence) && cursor < last.cursor
    requires |After(older, cursor)| == PAGE - 2 || (|After(older, cursor)| < PAGE - 2 && later == [])
    ensures ReadsPair(older, last, newest, later, sequence, cursor, [newest, last, newest])
  {
    var unread := After(older, cursor);
    BehindThePair(older, last, newest, later, sequence, cursor);
    PageTakes(Disturbed(older, last, newest, later), unread + [newest, last], later, sequence, cursor);
    AfterAll([newest] + later, last.cursor);
    RegroupRepeat(unread, newest, last, later);
    ReadsPairThen(older, last, newest, later, sequence, cursor, [newest, last, newest],
                  Page(unread + [newest, last], last.cursor),
                  [newest] + later);
  }

  lemma PageTakesSome(rows: seq<Row>, head: seq<Row>, later: seq<Row>, m: nat, sequence: nat, cursor: nat)
    requires cursor <= sequence && After(rows, cursor) == head + later && 1 <= m <= |later|
    requires |head| + m == PAGE || (|head| + m < PAGE && m == |later|)
    ensures Read(rows, sequence, cursor) == Page(head + later[..m], later[m - 1].cursor)
  {
    RegroupSplit(head, later, m);
    PageTakes(rows, head + later[..m], later[m..], sequence, cursor);
  }

  lemma PageEndsLater(
    older: seq<Row>, last: Row, newest: Row, later: seq<Row>, sequence: nat, cursor: nat, unread: seq<Row>, m: nat)
    requires Swapped(older, last, newest, later, sequence) && cursor < last.cursor && unread == After(older, cursor)
    requires 1 <= m <= |later| && (|unread| + 2 + m == PAGE || (|unread| + 2 + m < PAGE && m == |later|))
    ensures ReadsPair(older, last, newest, later, sequence, cursor, [newest, last])
  {
    var page := Page(unread + [newest, last] + later[..m], later[m - 1].cursor);
    BehindThePair(older, last, newest, later, sequence, cursor);
    PageTakesSome(Disturbed(older, last, newest, later), unread + [newest, last], later, m, sequence, cursor);
    RegroupSplit(unread + [newest, last], later, m);
    RestIsOrdered(older, last, newest, later, sequence);
    assert last.cursor <= later[m - 1].cursor <= sequence;
    LaterAfter(newest, later, m);
    ReadsPairThen(older, last, newest, later, sequence, cursor, [newest, last], page, later[m..]);
  }

  /** A page that ends before the pair. */
  lemma PageBeforeThePair(older: seq<Row>, last: Row, newest: Row, later: seq<Row>, sequence: nat, cursor: nat)
    requires Swapped(older, last, newest, later, sequence) && cursor < last.cursor
    requires |After(older, cursor)| >= PAGE
    ensures var page := Read(Disturbed(older, last, newest, later), sequence, cursor);
            && cursor < page.nextCursor < last.cursor
            && After(older, cursor) == page.records + After(older, page.nextCursor)
            && |page.records| == PAGE
  {
    var unread := After(older, cursor);
    BehindThePair(older, last, newest, later, sequence, cursor);
    SliceSplits(unread, 0, PAGE);
    Associate(unread[..PAGE], unread[PAGE..], [newest, last]);
    Associate(unread[..PAGE], unread[PAGE..] + [newest, last], later);
    PageTakes(Disturbed(older, last, newest, later), unread[..PAGE], unread[PAGE..] + [newest, last] + later,
              sequence, cursor);
    PageTakes(older, unread[..PAGE], unread[PAGE..], sequence, cursor);
    PageSplits(older, sequence, cursor);
    AfterIsBehind(older, cursor);
    assert unread[PAGE - 1] in unread;
  }

  lemma PairReadRepeats(unread: nat, last: Row, newest: Row, later: seq<Row>)
    ensures PairRead(PAGE + unread, last, newest, later) == PairRead(unread, last, newest, later)
  {
    assert (PAGE + unread + 1) % PAGE == (unread + 1) % PAGE;
    assert (PAGE + unread + 2) % PAGE == (unread + 2) % PAGE;
  }

  /** Behind the older of the two rows, a reader collects all unread rows, but of the pair it misses the older row
      when a page ends between the two, and reads the newest twice when a page ends behind them or nothing follows. */
  lemma {:induction false} PairIsRead(
    older: seq<Row>, last: Row, newest: Row, later: seq<Row>, sequence: nat, cursor: nat)
    requires Swapped(older, last, newest, later, sequence) && cursor < last.cursor
    requires Bounded(Disturbed(older, last, newest, later), sequence)
    ensures var unread := After(older, cursor);
            Drained(Disturbed(older, last, newest, later), sequence, cursor)
            == unread + PairRead(|unread|, last, newest, later) + later
    decreases sequence - cursor
  {
    var rows, unread := Disturbed(older, last, newest, later), After(older, cursor);
    BehindThePair(older, last, newest, later, sequence, cursor);
    if |unread| < PAGE {
      PairReadNear(|unread|, last, newest, later);
      if |unread| == PAGE - 1 {
        PageEndsBetween(older, last, newest, later, sequence, cursor);
      } else if |unread| == PAGE - 2 || later == [] {
        PageEndsBehind(older, last, newest, later, sequence, cursor);
      } else {
        var m := if PAGE - 2 - |unread| <= |later| then PAGE - 2 - |unread| else |later|;
        PageEndsLater(older, last, newest, later, sequence, cursor, unread, m);
      }
      RestIsReadOnce(older, last, newest, later, sequence, Read(rows, sequence, cursor).nextCursor);
    } else {
      PageBeforeThePair(older, last, newest, later, sequence, cursor);
      var page := Read(rows, sequence, cursor);
      var rest := After(older, page.nextCursor);
      PairIsRead(older, last, newest, later, sequence, page.nextCursor);
      PairReadRepeats(|rest|, last, newest, later);
      Associate(page.records, rest, PairRead(|rest|, last, newest, later));
      Associate(page.records, rest + PairRead(|rest|, last, newest, later), later);
    }
  }

  lemma SameMiddle(a: seq<Row>, x: seq<Row>, y: seq<Row>, b: seq<Row>)
    ensures a + x + b == a + y + b <==> x == y
  {
    if a + x + b == a + y + b {
      assert |x| == |y|;
      assert x == (a + x + b)[|a|..|a| + |x|] && y == (a + y + b)[|a|..|a| + |y|];
    }
  }

  /** After an out-of-order emit followed by any in-order ones, a reader collects the unread rows once each, in buffer
      order, exactly when it had read the older of the two swapped rows before, or later rows follow and no page ends
      between or right behind the two. */
  lemma OutOfOrderIsHarmlessIff(
    older: seq<Row>, last: Row, newest: Row, later: seq<Row>, sequence: nat, cursor: nat)
    requires Swapped(older, last, newest, later, sequence) && cursor <= sequence
    requires Bounded(Disturbed(older, last, newest, later), sequence)
    ensures var rows, unread := Disturbed(older, last, newest, later), |After(older, cursor)|;
            Drained(rows, sequence, cursor) == After(rows, cursor)
            <==> last.cursor <= cursor
                 || (later != [] && (unread + 1) % PAGE != 0 && (unread + 2) % PAGE != 0)
  {
    if last.cursor <= cursor {
      RestIsReadOnce(older, last, newest, later, sequence, cursor);
    } else {
      var unread := After(older, cursor);
      BehindThePair(older, last, newest, later, sequence, cursor);
      PairIsRead(older, last, newest, later, sequence, cursor);
      SameMiddle(unread, PairRead(|unread|, last, newest, later), [newest, last], later);
    }
  }

  // ---------- In-order operation after the out-of-order emit ----------

  /** The pair is still swapped in the buffer, or trimming has taken its first row and left the rest in order. */
  ghost predicate Settling(rows: seq<Row>, last: Row, newest: Row, sequence: nat) {
    || (InOrder(rows) && Bounded(rows, sequence))
    || exists older, later :: IsDisturbed(rows, older, last, newest, later, sequence)
  }

  predicate IsDisturbed(
    rows: seq<Row>, older: seq<Row>, last: Row, newest: Row, later: seq<Row>, sequence: nat)
  {
    rows == Disturbed(older, last, newest, later) && Swapped(older, last, newest, later, sequence)
  }

  lemma AppendingSettles(rows: seq<Row>, more: seq<Row>, last: Row, newest: Row, sequence: nat, sequence': nat)
    requires Settling(rows, last, newest, sequence) && sequence <= sequence'
    requires InOrder(more) && forall r | r in more :: sequence < r.cursor <= sequence'
    ensures Settling(rows + more, last, newest, sequence')
  {
    if InOrder(rows) && Bounded(rows, sequence) {
      OrderedAppend(rows, more, sequence, sequence');
    } else {
      var older, later :| IsDisturbed(rows, older, last, newest, later, sequence);
      OrderedAppend(later, more, sequence, sequence');
      Associate(older + [newest, last], later, more);
      assert IsDisturbed(rows + more, older, last, newest, later + more, sequence');
    }
  }

  lemma OrderedAppend(rows: seq<Row>, more: seq<Row>, sequence: nat, sequence': nat)
    requires InOrder(rows) && Bounded(rows, sequence) && sequence <= sequence'
    requires InOrder(more) && forall r | r in more :: sequence < r.cursor <= sequence'
    ensures InOrder(rows + more) && Bounded(rows + more, sequence')
  {
    assert forall i | 0 <= i < |rows| :: rows[i] in rows;
    assert forall i | 0 <= i < |more| :: more[i] in more;
  }

  lemma SuffixOfConcat<T>(a: seq<T>, b: seq<T>, cut: nat)
    requires cut <= |a| + |b|
    ensures (a + b)[cut..] == if cut <= |a| then a[cut..] + b else b[cut - |a|..]
  {}

  lemma SuffixStaysOrdered(rows: seq<Row>, sequence: nat, cut: nat)
    requires InOrder(rows) && Bounded(rows, sequence) && cut <= |rows|
    ensures InOrder(rows[cut..]) && Bounded(rows[cut..], sequence)
  {
    S.SuffixKeepsOrder(rows, cut);
    assert forall r | r in rows[cut..] :: r in rows;
  }

  lemma CuttingBefore(older: seq<Row>, last: Row, newest: Row, later: seq<Row>, sequence: nat, cut: nat)
    requires Swapped(older, last, newest, later, sequence) && cut <= |older|
    ensures IsDisturbed(Disturbed(older, last, newest, later)[cut..], older[cut..], last, newest, later, sequence)
  {
    SuffixOfConcat(older + [newest, last], later, cut);
    SuffixOfConcat(older, [newest, last], cut);
    S.SuffixKeepsOrder(older, cut);
    assert forall r | r in older[cut..] :: r in older;
  }

  /** Without the newer row before it, the older one and all later rows are in order. */
  lemma CuttingInto(older: seq<Row>, last: Row, newest: Row, later: seq<Row>, sequence: nat, cut: nat)
    requires Swapped(older, last, newest, later, sequence) && |older| < cut <= |older| + 2 + |later|
    ensures var rest := Disturbed(older, last, newest, later)[cut..]; InOrder(rest) && Bounded(rest, sequence)
  {
    var rest := [last] + later;
    Associate(older, [newest, last], later);
    Associate(older, [newest], rest);
    assert [newest, last] + later == [newest] + rest;
    SuffixOfConcat(older + [newest], rest, cut);
    OrderedAppend([last], later, last.cursor, sequence);
    SuffixStaysOrdered(rest, sequence, cut - |older| - 1);
  }

  lemma TrimmingSettles(rows: seq<Row>, last: Row, newest: Row, sequence: nat)
    requires Settling(rows, last, newest, sequence)
    ensures Settling(Trimmed(rows), last, newest, sequence)
  {
    var cut := if |rows| <= BUFFER then 0 else |rows| - BUFFER;
    assert Trimmed(rows) == rows[cut..];
    if InOrder(rows) && Bounded(rows, sequence) {
      SuffixStaysOrdered(rows, sequence, cut);
    } else {
      var older, later :| IsDisturbed(rows, older, last, newest, later, sequence);
      if cut <= |older| {
        CuttingBefore(older, last, newest, later, sequence, cut);
      } else {
        CuttingInto(older, last, newest, later, sequence, cut);
      }
    }
  }

  lemma FreshIsNew(s: S.State, step: S.Step)
    ensures InOrder(S.Fresh(s, step)) && s.sequence <= S.Next(s, step).sequence
    ensures forall r | r in S.Fresh(s, step) :: s.sequence < r.cursor <= S.Next(s, step).sequence
  {}

  lemma StepSettles(s: S.State, step: S.Step, last: Row, newest: Row)
    requires Settling(s.rows, last, newest, s.sequence)
    ensures Settling(S.Next(s, step).rows, last, newest, S.Next(s, step).sequence)
  {
    FreshIsNew(s, step);
    AppendingSettles(s.rows, S.Fresh(s, step), last, newest, s.sequence, S.Next(s, step).sequence);
    if step.Emit? {
      S.EmitAppends(s, step);
      TrimmingSettles(s.rows + S.Fresh(s, step), last, newest, S.Next(s, step).sequence);
    } else {
      assert S.Next(s, step).rows == s.rows + S.Fresh(s, step);
    }
  }

  /** Over any run of in-order emits here and elsewhere, replays of the last row and reads, a buffer disturbed by one
      out-of-order emit stays so disturbed, or is in order again. */
  lemma {:induction false} RunSettles(s: S.State, steps: seq<S.Step>, last: Row, newest: Row)
    requires Settling(s.rows, last, newest, s.sequence)
    ensures Settling(S.Run(s, steps).rows, last, newest, S.Run(s, steps).sequence)
    decreases |steps|
  {
    if steps != [] {
      StepSettles(s, steps[0], last, newest);
      RunSettles(S.Next(s, steps[0]), steps[1..], last, newest);
    }
  }
}
