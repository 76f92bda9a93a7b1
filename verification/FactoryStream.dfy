/** The simulator's event streams: bounded buffers appended under a global sequence and read by cursor. */
module FactoryStream {
  const PAGE: nat := 500
  const BUFFER: nat := 10000

  const CAPABILITIES: set<string> := {
    "production", "downtime", "inventory", "supplier_commitments",
    "quality", "machine_events", "maintenance", "business"}

  /** `eventId` is the sequence number an event was first recorded under; a duplicate keeps it. */
  datatype Row = Row(cursor: nat, eventId: nat, payload: string)

  /** The random outcomes of one emit. */
  datatype Chaos = Chaos(lost: bool, outOfOrder: bool, duplicate: bool)

  function Trimmed(rows: seq<Row>): seq<Row> {
    if |rows| <= BUFFER then rows else rows[|rows| - BUFFER..]
  }

  /** Out-of-order rows go before the last one. */
  function Placed(rows: seq<Row>, row: Row, chaos: Chaos): seq<Row> {
    if chaos.lost then rows
    else if chaos.outOfOrder && rows != [] then rows[..|rows| - 1] + [row, rows[|rows| - 1]]
    else rows + [row]
  }

  function Duplicates(sequence: nat, payload: string, chaos: Chaos): seq<Row> {
    if !chaos.lost && chaos.duplicate then [Row(sequence + 2, sequence + 1, payload)] else []
  }

  function Emitted(rows: seq<Row>, sequence: nat, payload: string, chaos: Chaos): seq<Row> {
    Trimmed(Placed(rows, Row(sequence + 1, sequence + 1, payload), chaos) + Duplicates(sequence, payload, chaos))
  }

  /** The rows behind a cursor, in buffer order. */
  function After(rows: seq<Row>, cursor: nat): seq<Row> {
    if rows == [] then []
    else if rows[0].cursor > cursor then [rows[0]] + After(rows[1..], cursor)
    else After(rows[1..], cursor)
  }

  datatype Page = Page(records: seq<Row>, nextCursor: nat)

  /** One page behind `cursor`; a cursor from the future restarts at the beginning. */
  function Read(rows: seq<Row>, sequence: nat, cursor: nat): Page {
    var from := if cursor > sequence then 0 else cursor;
    var unread := After(rows, from);
    var n := if |unread| <= PAGE then |unread| else PAGE;
    Page(unread[..n], if unread == [] then from else unread[n - 1].cursor)
  }

  /** During an outage every read is refused, also of an unknown stream. */
  datatype Response = Unavailable | UnknownCapability | Answered(page: Page)

  class Factory {
    var stale: bool
    var sequence: nat
    var streams: map<string, seq<Row>>
    var enabled: set<string>

    predicate Valid()
      reads this
    {
      streams.Keys == CAPABILITIES
    }

    constructor ()
      ensures Valid() && !stale && sequence == 0 && enabled == CAPABILITIES
      ensures forall c | c in CAPABILITIES :: streams[c] == []
    {
      stale, sequence := false, 0;
      streams := map c | c in CAPABILITIES :: [];
      enabled := CAPABILITIES;
    }

    method Emit(capability: string, payload: string, chaos: Chaos)
      requires Valid() && capability in CAPABILITIES
      modifies `sequence, `streams
      ensures Valid()
      ensures capability !in enabled ==> sequence == old(sequence) && streams == old(streams)
      ensures capability in enabled ==>
                && sequence == old(sequence) + 1 + |Duplicates(old(sequence), payload, chaos)|
                && streams == old(streams)[capability :=
                                Emitted(old(streams)[capability], old(sequence), payload, chaos)]
    {
      if capability !in enabled {
        return;
      }
      sequence := sequence + 1;
      var row := Row(sequence, sequence, payload);
      var rows := Place(streams[capability], row, chaos);
      if !chaos.lost && chaos.duplicate {
        sequence := sequence + 1;
        rows := rows + [row.(cursor := sequence)];
      }
      assert rows == Placed(old(streams)[capability], row, chaos) + Duplicates(old(sequence), payload, chaos);
      if |rows| > BUFFER {
        rows := rows[|rows| - BUFFER..];
      }
      streams := streams[capability := rows];
    }

    /** A lost row goes nowhere, an out-of-order one before the last, any other to the end. */
    method Place(rows: seq<Row>, row: Row, chaos: Chaos) returns (placed: seq<Row>)
      ensures placed == Placed(rows, row, chaos)
    {
      placed := rows;
      if !chaos.lost {
        if chaos.outOfOrder && rows != [] {
          placed := rows[..|rows| - 1] + [row, rows[|rows| - 1]];
        } else {
          placed := rows + [row];
        }
      }
    }

    /** The duplicate-replay scenario: an existing row again under a new cursor, without trimming. */
    method Reappend(capability: string)
      requires Valid() && capability in CAPABILITIES
      modifies `sequence, `streams
      ensures Valid()
      ensures var rows := old(streams)[capability];
              if rows == [] then sequence == old(sequence) && streams == old(streams)
              else
                && sequence == old(sequence) + 1
                && streams == old(streams)[capability := rows + [rows[|rows| - 1].(cursor := sequence)]]
    {
      var rows := streams[capability];
      if rows != [] {
        sequence := sequence + 1;
        streams := streams[capability := rows + [rows[|rows| - 1].(cursor := sequence)]];
      }
    }

    method ReadPage(capability: string, cursor: nat) returns (r: Response)
      requires Valid()
      ensures r == if stale then Unavailable
                   else if capability !in CAPABILITIES then UnknownCapability
                   else Answered(Read(streams[capability], sequence, cursor))
    {
      if stale {
        return Unavailable;
      }
      if capability !in CAPABILITIES {
        return UnknownCapability;
      }
      var from := cursor;
      if from > sequence {
        from := 0;
      }
      var rows := After(streams[capability], from);
      var n := if |rows| <= PAGE then |rows| else PAGE;
      return Answered(Page(rows[..n], if rows == [] then from else rows[n - 1].cursor));
    }
  }

  /** A cursor from the future reads like no cursor at all. */
  lemma FutureCursorReadsFirst(rows: seq<Row>, sequence: nat, cursor: nat)
    requires cursor > sequence
    ensures Read(rows, sequence, cursor) == Read(rows, sequence, 0)
  {}

  // ---------- Cursor order ----------

  predicate InOrder(rows: seq<Row>) {
    forall i, j | 0 <= i < j < |rows| :: rows[i].cursor < rows[j].cursor
  }

  lemma AfterCons(first: Row, rest: seq<Row>, cursor: nat)
    ensures After([first] + rest, cursor) == (if first.cursor > cursor then [first] else []) + After(rest, cursor)
  {
    assert ([first] + rest)[1..] == rest;
  }

  lemma Associate<T>(a: seq<T>, b: seq<T>, c: seq<T>)
    ensures (a + b) + c == a + (b + c)
  {}

  lemma {:induction false} AfterConcat(a: seq<Row>, b: seq<Row>, cursor: nat)
    ensures After(a + b, cursor) == After(a, cursor) + After(b, cursor)
  {
    if a == [] {
      assert a + b == b;
    } else {
      var first, rest := a[0], a[1..];
      AfterConcat(rest, b, cursor);
      AfterCons(first, rest, cursor);
      AfterCons(first, rest + b, cursor);
      Associate([first], rest, b);
      Associate(if first.cursor > cursor then [first] else [], After(rest, cursor), After(b, cursor));
      assert a == [first] + rest;
    }
  }

  lemma {:induction false} AfterAll(rows: seq<Row>, cursor: nat)
    ensures (forall r | r in rows :: r.cursor > cursor) ==> After(rows, cursor) == rows
    ensures (forall r | r in rows :: r.cursor <= cursor) ==> After(rows, cursor) == []
  {
    if rows != [] {
      AfterAll(rows[1..], cursor);
    }
  }

  /** In cursor order, the unread rows are a suffix that starts behind the cursor. */
  lemma {:induction false} AfterIsSuffix(rows: seq<Row>, cursor: nat) returns (k: nat)
    requires InOrder(rows)
    ensures k <= |rows| && After(rows, cursor) == rows[k..]
    ensures forall i | 0 <= i < |rows| :: rows[i].cursor <= cursor <==> i < k
  {
    if rows == [] {
      k := 0;
    } else if rows[0].cursor > cursor {
      k := 0;
      AfterAll(rows, cursor);
    } else {
      var rest := AfterIsSuffix(rows[1..], cursor);
      k := rest + 1;
    }
  }

  lemma AfterFrom(rows: seq<Row>, k: nat, cursor: nat)
    requires k <= |rows|
    requires forall i | 0 <= i < k :: rows[i].cursor <= cursor
    requires forall i | k <= i < |rows| :: rows[i].cursor > cursor
    ensures After(rows, cursor) == rows[k..]
  {
    assert rows == rows[..k] + rows[k..];
    AfterConcat(rows[..k], rows[k..], cursor);
    AfterAll(rows[..k], cursor);
    AfterAll(rows[k..], cursor);
  }

  lemma AfterOfSuffix(rows: seq<Row>, cut: nat, cursor: nat)
    requires InOrder(rows) && cut <= |rows|
    ensures |After(rows, cursor)| <= |rows|
    ensures |After(rows, cursor)| <= |rows| - cut ==> After(rows[cut..], cursor) == After(rows, cursor)
    ensures |After(rows, cursor)| > |rows| - cut ==> After(rows[cut..], cursor) == rows[cut..]
  {
    var k := AfterIsSuffix(rows, cursor);
    if k <= cut {
      AfterFrom(rows[cut..], 0, cursor);
    } else {
      AfterFrom(rows[cut..], k - cut, cursor);
      assert rows[cut..][k - cut..] == rows[k..];
    }
  }

  /** The page and its cursor are positions in an ordered buffer. */
  lemma PageIsSlice(rows: seq<Row>, sequence: nat, cursor: nat) returns (k: nat, n: nat)
    requires InOrder(rows) && cursor <= sequence
    ensures k + n <= |rows| && After(rows, cursor) == rows[k..]
    ensures forall i | 0 <= i < |rows| :: rows[i].cursor <= cursor <==> i < k
    ensures n == if |rows| - k <= PAGE then |rows| - k else PAGE
    ensures Read(rows, sequence, cursor) == Page(rows[k..k + n], if n == 0 then cursor else rows[k + n - 1].cursor)
  {
    k := AfterIsSuffix(rows, cursor);
    n := if |rows| - k <= PAGE then |rows| - k else PAGE;
    assert rows[k..][..n] == rows[k..k + n];
    if n > 0 {
      assert rows[k..][n - 1] == rows[k + n - 1];
    }
  }

  /** In cursor order, what follows a page is exactly what was behind it. */
  lemma PageSplits(rows: seq<Row>, sequence: nat, cursor: nat)
    requires InOrder(rows) && cursor <= sequence
    ensures var page := Read(rows, sequence, cursor);
            && After(rows, cursor) == page.records + After(rows, page.nextCursor)
            && |page.records| == (if |After(rows, cursor)| <= PAGE then |After(rows, cursor)| else PAGE)
  {
    var k, n := PageIsSlice(rows, sequence, cursor);
    SliceSplits(rows, k, n);
    if n > 0 {
      AfterFrom(rows, k + n, rows[k + n - 1].cursor);
    }
  }

  lemma SliceSplits<T>(s: seq<T>, k: nat, n: nat)
    requires k + n <= |s|
    ensures s[k..] == s[k..k + n] + s[k + n..]
  {}

  /** A page is in cursor order and lies between the two cursors. */
  lemma PageCursors(rows: seq<Row>, sequence: nat, cursor: nat)
    requires InOrder(rows) && cursor <= sequence && forall r | r in rows :: r.cursor <= sequence
    ensures var page := Read(rows, sequence, cursor);
            && InOrder(page.records) && cursor <= page.nextCursor <= sequence
            && (forall i | 0 <= i < |page.records| :: cursor < page.records[i].cursor <= page.nextCursor)
            && (page.records != [] ==> page.nextCursor > cursor)
  {
    var k, n := PageIsSlice(rows, sequence, cursor);
    SliceCursors(rows, k, n);
    if n > 0 {
      assert rows[k + n - 1] in rows;
      assert rows[k].cursor > cursor;
    }
  }

  lemma SliceCursors(rows: seq<Row>, k: nat, n: nat)
    requires InOrder(rows) && k + n <= |rows|
    ensures var slice := rows[k..k + n];
            && InOrder(slice)
            && forall i | 0 <= i < n :: rows[k].cursor <= slice[i].cursor <= rows[k + n - 1].cursor
  {
    var slice := rows[k..k + n];
    forall i | 0 <= i < n ensures rows[k].cursor <= slice[i].cursor <= rows[k + n - 1].cursor {
      assert slice[i] == rows[k + i];
    }
  }
}
