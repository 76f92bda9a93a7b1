/** The one-page PDF writer: numbered objects, a cross-reference table and a trailer (ISO 32000-1:2008, 7.5.4 and
    7.5.5). Bytes are characters of one byte each. */
module PdfWriter {
  import opened Wrappers
  import D = Decimal

  /** The fixed texts of the format. */
  datatype Format = Format(
    header: string, objectOpen: string, objectClose: string, xref: string, newline: string, free: string,
    entryTail: string, size: string, root: string, start: string, end: string)

  const PDF := Format(
    "%PDF-1.4\n", " 0 obj\n", "\nendobj\n", "xref\n0 ", "\n", "0000000000 65535 f \n",
    " 00000 n \n", "trailer << /Size ", " /Root 1 0 R >>\n", "startxref\n", "\n%%EOF\n")

  const ENTRY: nat := 20

  /** What a reader relies on: entries of twenty bytes, and numbers that end where the next text begins. */
  predicate Proper(f: Format) {
    && |f.free| == ENTRY && |f.entryTail| == 10 && |f.newline| == 1
    && !D.IsDigit(f.newline[0])
    && f.start != "" && !D.IsDigit(f.start[|f.start| - 1])
  }

  lemma PdfIsProper()
    ensures Proper(PDF)
  {}

  function ObjectHead(f: Format, number: nat): string {
    D.Print(number) + f.objectOpen
  }

  function ObjectText(f: Format, number: nat, object': string): string {
    ObjectHead(f, number) + object' + f.objectClose
  }

  /** The file up to the cross-reference table. */
  function Body(f: Format, objects: seq<string>): string {
    if objects == [] then f.header
    else Body(f, objects[..|objects| - 1]) + ObjectText(f, |objects|, objects[|objects| - 1])
  }

  /** Where the object with this number begins. */
  function Offset(f: Format, objects: seq<string>, number: nat): nat
    requires 1 <= number <= |objects|
  {
    |Body(f, objects[..number - 1])|
  }

  function Entry(f: Format, offset: nat): string {
    D.Padded(offset, 10) + f.entryTail
  }

  /** The entries of the first `n` objects. */
  function Entries(f: Format, objects: seq<string>, n: nat): string
    requires n <= |objects|
  {
    if n == 0 then "" else Entries(f, objects, n - 1) + Entry(f, Offset(f, objects, n))
  }

  function TableHead(f: Format, count: nat): string {
    f.xref + D.Print(count + 1) + f.newline
  }

  function Trailer(f: Format, count: nat, xref: nat): string {
    f.size + D.Print(count + 1) + f.root + f.start + D.Print(xref) + f.end
  }

  function File(f: Format, objects: seq<string>): string {
    Body(f, objects) + (TableHead(f, |objects|) + f.free) + Entries(f, objects, |objects|)
    + Trailer(f, |objects|, |Body(f, objects)|)
  }

  method MakePdf(objects: seq<string>) returns (pdf: string)
    ensures pdf == File(PDF, objects)
  {
    pdf := Write(PDF, objects);
  }

  method Write(f: Format, objects: seq<string>) returns (pdf: string)
    ensures pdf == File(f, objects)
  {
    pdf := f.header;
    var offsets := [0];
    for i := 0 to |objects|
      invariant pdf == Body(f, objects[..i])
      invariant |offsets| == i + 1
      invariant forall j | 1 <= j <= i :: offsets[j] == Offset(f, objects, j)
    {
      offsets := offsets + [|pdf|];
      pdf := pdf + ObjectText(f, i + 1, objects[i]);
      assert objects[..i + 1][..i] == objects[..i];
    }
    assert objects[..|objects|] == objects;
    var xref := |pdf|;
    pdf := pdf + (TableHead(f, |objects|) + f.free);
    ghost var before := pdf;
    for i := 0 to |objects|
      invariant pdf == before + Entries(f, objects, i)
    {
      var entry := Entry(f, offsets[i + 1]);
      Regroup(before, Entries(f, objects, i), entry);
      pdf := pdf + entry;
    }
    pdf := pdf + Trailer(f, |objects|, xref);
  }

  lemma Regroup(a: string, b: string, c: string)
    ensures (a + b) + c == a + (b + c)
  {}

  // ---------- A reader that knows only the bytes and the format ----------

  /** The longest run of digits at the end. */
  function TrailingDigits(s: string): (digits: string)
    ensures D.AllDigits(digits)
  {
    if s != "" && D.IsDigit(s[|s| - 1]) then TrailingDigits(s[..|s| - 1]) + [s[|s| - 1]] else ""
  }

  /** The longest run of digits at the beginning. */
  function LeadingDigits(s: string): (digits: string)
    ensures D.AllDigits(digits) && |digits| <= |s|
  {
    if s != "" && D.IsDigit(s[0]) then [s[0]] + LeadingDigits(s[1..]) else ""
  }

  /** Text of a length at a position, or nothing if the file ends before. */
  function At(pdf: string, position: nat, length: nat): string {
    if position + length <= |pdf| then pdf[position..position + length] else ""
  }

  function ReadStart(f: Format, pdf: string): Option<nat> {
    if |pdf| < |f.end| || pdf[|pdf| - |f.end|..] != f.end then None
    else
      var digits := TrailingDigits(pdf[..|pdf| - |f.end|]);
      if digits == "" then None else Some(D.Read(digits))
  }

  /** The number of table rows and the position of row 0. */
  datatype Table = Table(size: nat, rows: nat)

  function ReadTableHead(f: Format, pdf: string, xref: nat): Option<Table> {
    if xref + |f.xref| > |pdf| || pdf[xref..xref + |f.xref|] != f.xref then None
    else
      var digits := LeadingDigits(pdf[xref + |f.xref|..]);
      if digits == "" then None else Some(Table(D.Read(digits), xref + |f.xref| + |digits| + |f.newline|))
  }

  function ReadEntry(pdf: string, rows: nat, i: nat): Option<nat> {
    var digits := At(pdf, rows + ENTRY * i, 10);
    if D.IsNumber(digits) then Some(D.Read(digits)) else None
  }

  /** The text of an object between the header at its offset and its end before the next position. */
  function ReadObject(f: Format, pdf: string, number: nat, offset: nat, next: nat): Option<string> {
    var head := ObjectHead(f, number);
    if offset + |head| + |f.objectClose| <= next <= |pdf|
       && pdf[offset..offset + |head|] == head && pdf[next - |f.objectClose|..next] == f.objectClose
    then Some(pdf[offset + |head|..next - |f.objectClose|])
    else None
  }

  /** Follows startxref to the table, its entry to the object, and returns the object's text. */
  function Recover(f: Format, pdf: string, number: nat): Option<string> {
    var start := ReadStart(f, pdf);
    if start.None? then None
    else
      var table := ReadTableHead(f, pdf, start.value);
      if table.None? || !(1 <= number < table.value.size) then None
      else
        var offset := ReadEntry(pdf, table.value.rows, number);
        var next := if number + 1 < table.value.size then ReadEntry(pdf, table.value.rows, number + 1) else start;
        if offset.None? || next.None? then None else ReadObject(f, pdf, number, offset.value, next.value)
  }

  // ---------- Texts and their slices ----------

  lemma {:induction false} TrailingDigitsOf(text: string, digits: string)
    requires text != "" && !D.IsDigit(text[|text| - 1]) && D.AllDigits(digits)
    ensures TrailingDigits(text + digits) == digits
  {
    if digits == "" {
      assert text + digits == text;
    } else {
      var n := |digits| - 1;
      assert (text + digits)[..|text| + n] == text + digits[..n];
      TrailingDigitsOf(text, digits[..n]);
    }
  }

  lemma {:induction false} LeadingDigitsOf(digits: string, text: string)
    requires text != "" && !D.IsDigit(text[0]) && D.AllDigits(digits)
    ensures LeadingDigits(digits + text) == digits
  {
    if digits == "" {
      assert digits + text == text;
    } else {
      assert (digits + text)[1..] == digits[1..] + text;
      LeadingDigitsOf(digits[1..], text);
    }
  }

  /** A slice of the middle text is a slice of the whole. */
  lemma SliceOfMiddle(a: string, b: string, c: string, from: nat, to: nat)
    requires from <= to <= |b|
    ensures (a + b + c)[|a| + from..|a| + to] == b[from..to]
  {}

  lemma SliceOfLonger(a: string, b: string, from: nat, to: nat)
    requires from <= to
    ensures to <= |a| ==> (a + b)[from..to] == a[from..to]
    ensures from == |a| && to == |a + b| ==> (a + b)[from..to] == b
  {}

  lemma Tail(a: string, b: string)
    ensures (a + b)[..|a|] == a && (a + b)[|a|..] == b
  {}

  lemma SliceOfFirst(a: string, b: string, c: string, d: string, from: nat, to: nat)
    requires from <= to <= |a|
    ensures |a| <= |a + b + c + d| && (a + b + c + d)[from..to] == a[from..to]
  {}

  lemma SliceOfSlice(s: string, from: nat, to: nat, i: nat, j: nat)
    requires from <= to <= |s| && i <= j <= to - from
    ensures s[from..to][i..j] == s[from + i..from + j]
  {
    var a, b := s[from..to][i..j], s[from + i..from + j];
    assert |a| == |b| && forall k | 0 <= k < |a| :: a[k] == b[k];
  }

  lemma ThreeParts(pdf: string, offset: nat, next: nat, a: string, b: string, c: string)
    requires offset <= next <= |pdf| && pdf[offset..next] == a + b + c
    ensures next - offset == |a| + |b| + |c|
    ensures pdf[offset..offset + |a|] == a && pdf[next - |c|..next] == c
    ensures pdf[offset + |a|..next - |c|] == b
  {
    var text := pdf[offset..next];
    SliceOfSlice(pdf, offset, next, 0, |a|);
    SliceOfSlice(pdf, offset, next, |a| + |b|, |text|);
    SliceOfSlice(pdf, offset, next, |a|, |a| + |b|);
    assert text[..|a|] == a && text[|a|..|a| + |b|] == b && text[|a| + |b|..] == c;
  }

  // ---------- The reader finds every object ----------

  function StartOf(f: Format, objects: seq<string>): nat {
    |Body(f, objects)|
  }

  function TableOf(f: Format, objects: seq<string>): Table {
    Table(|objects| + 1, |Body(f, objects)| + |TableHead(f, |objects|)|)
  }

  /** All offsets fit the ten digits of a table entry. */
  predicate Fits(f: Format, objects: seq<string>) {
    objects != [] ==> Offset(f, objects, |objects|) < D.Pow10(10)
  }

  lemma {:induction false} OffsetsGrow(f: Format, objects: seq<string>, n: nat)
    requires n <= |objects|
    ensures |Body(f, objects[..n])| <= |Body(f, objects)|
    ensures Body(f, objects)[..|Body(f, objects[..n])|] == Body(f, objects[..n])
  {
    if n == |objects| {
      assert objects[..n] == objects;
    } else {
      var init := objects[..|objects| - 1];
      assert init[..n] == objects[..n];
      OffsetsGrow(f, init, n);
    }
  }

  /** An object's text stands between its own offset and the next one. */
  lemma ObjectStands(f: Format, objects: seq<string>, number: nat)
    requires 1 <= number <= |objects|
    ensures var end := if number < |objects| then Offset(f, objects, number + 1) else |Body(f, objects)|;
            && Offset(f, objects, number) <= end <= |Body(f, objects)|
            && Body(f, objects)[Offset(f, objects, number)..end] == ObjectText(f, number, objects[number - 1])
  {
    OffsetsGrow(f, objects, number);
    OffsetsGrow(f, objects, number - 1);
    var before := objects[..number];
    assert before[..number - 1] == objects[..number - 1];
    assert objects[..|objects|] == objects;
    assert Body(f, before) == Body(f, objects[..number - 1]) + ObjectText(f, number, objects[number - 1]);
  }

  lemma {:induction false} EntriesAreRegular(f: Format, objects: seq<string>, n: nat, number: nat)
    requires Proper(f) && 1 <= number <= n <= |objects|
    requires Offset(f, objects, n) < D.Pow10(10)
    ensures |Entries(f, objects, n)| == ENTRY * n
    ensures Entries(f, objects, n)[ENTRY * (number - 1)..ENTRY * number] == Entry(f, Offset(f, objects, number))
  {
    D.PaddedLength(Offset(f, objects, n), 10);
    if n > 1 {
      PreviousFits(f, objects, n);
      EntriesAreRegular(f, objects, n - 1, if number < n then number else n - 1);
    }
    SliceOfLonger(Entries(f, objects, n - 1), Entry(f, Offset(f, objects, n)), ENTRY * (number - 1), ENTRY * number);
  }

  lemma PreviousFits(f: Format, objects: seq<string>, n: nat)
    requires 2 <= n <= |objects|
    ensures Offset(f, objects, n - 1) <= Offset(f, objects, n)
  {
    assert objects[..n - 1][..n - 2] == objects[..n - 2];
    OffsetsGrow(f, objects[..n - 1], n - 2);
  }

  /** Every entry has twenty bytes exactly when the last offset is below ten to the tenth. */
  lemma EntriesFitIff(f: Format, objects: seq<string>)
    requires Proper(f)
    ensures (forall number | 1 <= number <= |objects| :: |Entry(f, Offset(f, objects, number))| == ENTRY)
            <==> Fits(f, objects)
  {
    forall number | 1 <= number <= |objects|
      ensures |Entry(f, Offset(f, objects, number))| == ENTRY <==> Offset(f, objects, number) < D.Pow10(10)
      ensures Offset(f, objects, number) <= Offset(f, objects, |objects|)
    {
      D.PaddedLength(Offset(f, objects, number), 10);
      var init := objects[..|objects| - 1];
      assert init[..number - 1] == objects[..number - 1];
      OffsetsGrow(f, init, number - 1);
    }
  }

  lemma StartAtEnd(f: Format, text: string, digits: string)
    requires D.IsNumber(digits) && TrailingDigits(text) == digits
    ensures ReadStart(f, text + f.end) == Some(D.Read(digits))
  {
    Tail(text, f.end);
  }

  /** The start of the table is found from the end of the file. */
  lemma StartIsRead(f: Format, objects: seq<string>)
    requires Proper(f)
    ensures ReadStart(f, File(f, objects)) == Some(StartOf(f, objects))
  {
    var digits := D.Print(StartOf(f, objects));
    var table := Body(f, objects) + (TableHead(f, |objects|) + f.free) + Entries(f, objects, |objects|);
    var head := f.size + D.Print(|objects| + 1) + f.root + f.start;
    D.PrintIsNumber(StartOf(f, objects));
    EndsInDigits(f, table, f.size + D.Print(|objects| + 1) + f.root, digits);
    Regroup(table, head + digits, f.end);
    StartAtEnd(f, table + (head + digits), digits);
  }

  lemma EndsInDigits(f: Format, table: string, head: string, digits: string)
    requires Proper(f) && D.AllDigits(digits)
    ensures TrailingDigits(table + (head + f.start + digits)) == digits
  {
    Regroup(table, head + f.start, digits);
    var text := table + (head + f.start);
    assert text[|text| - 1] == f.start[|f.start| - 1];
    TrailingDigitsOf(text, digits);
  }

  lemma TableHeadFollows(f: Format, pdf: string, xref: nat, digits: string)
    requires xref + |f.xref| <= |pdf| && pdf[xref..xref + |f.xref|] == f.xref
    requires D.IsNumber(digits) && LeadingDigits(pdf[xref + |f.xref|..]) == digits
    ensures ReadTableHead(f, pdf, xref) == Some(Table(D.Read(digits), xref + |f.xref| + |digits| + |f.newline|))
  {}

  lemma HeadRegroups(
    body: string, mark: string, digits: string, newline: string, free: string, entries: string, trailer: string)
    ensures body + ((mark + digits + newline) + free) + entries + trailer
            == body + mark + (digits + (newline + (free + entries + trailer)))
  {
    Regroup(mark, digits, newline);
    Regroup(mark, digits + newline, free);
    Regroup(body, mark, digits + newline + free);
    Regroup(body + mark, digits + newline + free, entries);
    Regroup(body + mark, digits + newline + free + entries, trailer);
    Regroup(digits + newline, free, entries);
    Regroup(digits + newline, free + entries, trailer);
    Regroup(digits, newline, free + entries + trailer);
  }

  lemma TableHeadIsRead(f: Format, objects: seq<string>)
    requires Proper(f)
    ensures ReadTableHead(f, File(f, objects), StartOf(f, objects)) == Some(TableOf(f, objects))
  {
    D.PrintIsNumber(|objects| + 1);
    HeadOfFile(f, Body(f, objects), D.Print(|objects| + 1), Entries(f, objects, |objects|),
               Trailer(f, |objects|, |Body(f, objects)|));
  }

  lemma HeadOfFile(f: Format, body: string, digits: string, entries: string, trailer: string)
    requires Proper(f) && D.IsNumber(digits)
    ensures ReadTableHead(f, body + ((f.xref + digits + f.newline) + f.free) + entries + trailer, |body|)
            == Some(Table(D.Read(digits), |body| + |f.xref + digits + f.newline|))
  {
    var tail := f.newline + (f.free + entries + trailer);
    HeadRegroups(body, f.xref, digits, f.newline, f.free, entries, trailer);
    assert tail[0] == f.newline[0];
    LeadingDigitsOf(digits, tail);
    Tail(body + f.xref, digits + tail);
    SliceOfMiddle(body, f.xref, digits + tail, 0, |f.xref|);
    TableHeadFollows(f, (body + f.xref) + (digits + tail), |body|, digits);
  }

  lemma EntryInTable(f: Format, before: string, entries: string, after: string, offset: nat, number: nat)
    requires number >= 1 && ENTRY * number <= |entries| && ENTRY <= |before| && |D.Padded(offset, 10)| == 10
    requires Proper(f) && entries[ENTRY * (number - 1)..ENTRY * number] == Entry(f, offset)
    ensures ReadEntry(before + entries + after, |before| - ENTRY, number) == Some(offset)
  {
    var from := ENTRY * (number - 1);
    EntryStartsWithOffset(f, offset);
    SliceOfMiddle(before, entries, after, from, from + 10);
    SliceOfSlice(entries, from, from + ENTRY, 0, 10);
    DigitsAt(before + entries + after, |before| - ENTRY, number, |before| + from, offset);
  }

  lemma EntryStartsWithOffset(f: Format, offset: nat)
    requires |D.Padded(offset, 10)| == 10
    ensures |Entry(f, offset)| >= 10 && Entry(f, offset)[0..10] == D.Padded(offset, 10)
  {}

  lemma DigitsAt(pdf: string, rows: nat, i: nat, position: nat, offset: nat)
    requires position == rows + ENTRY * i && position + 10 <= |pdf|
    requires pdf[position..position + 10] == D.Padded(offset, 10)
    ensures ReadEntry(pdf, rows, i) == Some(offset)
  {
    D.PaddedReadsBack(offset, 10);
  }

  lemma EntryIsRead(f: Format, objects: seq<string>, number: nat)
    requires Proper(f) && Fits(f, objects) && 1 <= number <= |objects|
    ensures ReadEntry(File(f, objects), TableOf(f, objects).rows, number) == Some(Offset(f, objects, number))
  {
    var offset := Offset(f, objects, number);
    EntriesAreRegular(f, objects, |objects|, number);
    EntriesFitIff(f, objects);
    assert |Entry(f, offset)| == ENTRY;
    var before := Body(f, objects) + (TableHead(f, |objects|) + f.free);
    assert |before| - ENTRY == TableOf(f, objects).rows;
    EntryInTable(f, before, Entries(f, objects, |objects|), Trailer(f, |objects|, |Body(f, objects)|), offset, number);
  }

  lemma ObjectIsRead(f: Format, objects: seq<string>, number: nat)
    requires 1 <= number <= |objects|
    ensures var end := if number < |objects| then Offset(f, objects, number + 1) else |Body(f, objects)|;
            ReadObject(f, File(f, objects), number, Offset(f, objects, number), end) == Some(objects[number - 1])
  {
    ObjectStands(f, objects, number);
    var end := if number < |objects| then Offset(f, objects, number + 1) else |Body(f, objects)|;
    ObjectInBody(f, Body(f, objects), TableHead(f, |objects|) + f.free, Entries(f, objects, |objects|),
                 Trailer(f, |objects|, |Body(f, objects)|),
                 number, objects[number - 1], Offset(f, objects, number), end);
  }

  lemma ObjectInBody(
    f: Format, body: string, b: string, c: string, d: string, number: nat, object': string, from: nat, end: nat)
    requires from <= end <= |body| && body[from..end] == ObjectText(f, number, object')
    ensures ReadObject(f, body + b + c + d, number, from, end) == Some(object')
  {
    SliceOfFirst(body, b, c, d, from, end);
    ThreeParts(body + b + c + d, from, end, ObjectHead(f, number), object', f.objectClose);
  }

  lemma RecoverFollows(f: Format, pdf: string, number: nat, start: nat, table: Table, offset: nat, next: nat)
    requires ReadStart(f, pdf) == Some(start) && ReadTableHead(f, pdf, start) == Some(table)
    requires 1 <= number < table.size && ReadEntry(pdf, table.rows, number) == Some(offset)
    requires if number + 1 < table.size then ReadEntry(pdf, table.rows, number + 1) == Some(next) else next == start
    ensures Recover(f, pdf, number) == ReadObject(f, pdf, number, offset, next)
  {}

  lemma RecoverBeforeAnother(f: Format, objects: seq<string>, number: nat)
    requires Proper(f) && Fits(f, objects) && 1 <= number < |objects|
    ensures Recover(f, File(f, objects), number)
            == ReadObject(f, File(f, objects), number, Offset(f, objects, number), Offset(f, objects, number + 1))
  {
    StartIsRead(f, objects);
    TableHeadIsRead(f, objects);
    EntryIsRead(f, objects, number);
    EntryIsRead(f, objects, number + 1);
    RecoverFollows(f, File(f, objects), number, StartOf(f, objects), TableOf(f, objects),
                   Offset(f, objects, number), Offset(f, objects, number + 1));
  }

  lemma RecoverLast(f: Format, objects: seq<string>)
    requires Proper(f) && Fits(f, objects) && objects != []
    ensures Recover(f, File(f, objects), |objects|)
            == ReadObject(f, File(f, objects), |objects|, Offset(f, objects, |objects|), StartOf(f, objects))
  {
    StartIsRead(f, objects);
    TableHeadIsRead(f, objects);
    EntryIsRead(f, objects, |objects|);
    RecoverFollows(f, File(f, objects), |objects|, StartOf(f, objects), TableOf(f, objects),
                   Offset(f, objects, |objects|), StartOf(f, objects));
  }

  /** A reader that follows startxref, the table and the offsets recovers every object, whatever bytes it holds. */
  lemma ReaderRecoversEveryObject(f: Format, objects: seq<string>, number: nat)
    requires Proper(f) && Fits(f, objects) && 1 <= number <= |objects|
    ensures Recover(f, File(f, objects), number) == Some(objects[number - 1])
  {
    ObjectIsRead(f, objects, number);
    if number < |objects| {
      RecoverBeforeAnother(f, objects, number);
    } else {
      RecoverLast(f, objects);
    }
  }

  /** Nothing is found beyond the last object. */
  lemma ReaderFindsNoMore(f: Format, objects: seq<string>, number: nat)
    requires Proper(f) && (number == 0 || number > |objects|)
    ensures Recover(f, File(f, objects), number) == None
  {
    StartIsRead(f, objects);
    TableHeadIsRead(f, objects);
  }

  // ---------- The content stream ----------

  const LENGTH := "<< /Length "
  const STREAM := " >>\nstream\n"
  const STREAM_END := "\nendstream"

  function StreamObject(stream: string): string {
    LENGTH + D.Print(|stream|) + STREAM + stream + STREAM_END
  }

  function ReadStream(object': string): Option<string> {
    if At(object', 0, |LENGTH|) != LENGTH then None
    else
      var digits := LeadingDigits(object'[|LENGTH|..]);
      var from := |LENGTH| + |digits| + |STREAM|;
      if digits == "" || At(object', from - |STREAM|, |STREAM|) != STREAM
         || from + D.Read(digits) > |object'| then None
      else Some(object'[from..from + D.Read(digits)])
  }

  /** The declared length is the stream's, so the stream is read back even if it contains the end marker. */
  lemma StreamIsReadBack(stream: string)
    ensures ReadStream(StreamObject(stream)) == Some(stream)
  {
    var object' := StreamObject(stream);
    var digits := D.Print(|stream|);
    var rest := STREAM + stream + STREAM_END;
    D.PrintIsNumber(|stream|);
    assert object'[|LENGTH|..] == digits + rest;
    assert object'[..|LENGTH|] == LENGTH;
    assert rest[0] == ' ';
    LeadingDigitsOf(digits, rest);
    var from := |LENGTH| + |digits| + |STREAM|;
    assert object'[from - |STREAM|..from] == STREAM;
    assert object'[from..from + |stream|] == stream;
  }

  /** The six objects of the page. */
  function OnePager(stream: string): seq<string> {
    ["<< /Type /Catalog /Pages 2 0 R >>",
     "<< /Type /Pages /Kids [3 0 R] /Count 1 >>",
     "<< /Type /Page /Parent 2 0 R /MediaBox [0 0 595 842] "
     + "/Resources << /Font << /F1 5 0 R /F2 6 0 R >> >> /Contents 4 0 R >>",
     StreamObject(stream),
     "<< /Type /Font /Subtype /Type1 /BaseFont /Helvetica >>",
     "<< /Type /Font /Subtype /Type1 /BaseFont /Helvetica-Bold >>"]
  }

  /** From the bytes of the file alone, a reader gets the page's content stream. */
  lemma ContentIsRecovered(stream: string)
    requires Fits(PDF, OnePager(stream))
    ensures Recover(PDF, File(PDF, OnePager(stream)), 4) == Some(StreamObject(stream))
    ensures ReadStream(StreamObject(stream)) == Some(stream)
  {
    PdfIsProper();
    ContentOf(PDF, OnePager(stream), stream);
  }

  lemma ContentOf(f: Format, objects: seq<string>, stream: string)
    requires Proper(f) && Fits(f, objects) && |objects| == 6 && objects[3] == StreamObject(stream)
    ensures Recover(f, File(f, objects), 4) == Some(StreamObject(stream))
    ensures ReadStream(StreamObject(stream)) == Some(stream)
  {
    ReaderRecoversEveryObject(f, objects, 4);
    StreamIsReadBack(stream);
  }

  // ---------- The format itself ----------

  lemma SmallNumbers()
    ensures D.Print(1) == "1" && D.Print(2) == "2" && D.Print(26) == "26"
  {
    assert D.Print(26) == D.Print(2) + "6";
  }

  lemma NineInTenDigits()
    ensures D.Padded(9, 10) == "0000000009"
  {
    assert D.Print(9) == "9" && D.Zeros(9) == "000000000";
  }

  lemma ObjectOfOne()
    ensures ObjectText(PDF, 1, "A") == "1 0 obj\nA\nendobj\n"
  {
    SmallNumbers();
    assert "1" + " 0 obj\n" == "1 0 obj\n";
  }

  lemma BodyIs(f: Format, o: string)
    ensures Body(f, [o]) == f.header + ObjectText(f, 1, o) && Offset(f, [o], 1) == |f.header|
  {
    assert [o][..0] == [] && Body(f, []) == f.header;
  }

  lemma BodyOfOne()
    ensures Body(PDF, ["A"]) == "%PDF-1.4\n1 0 obj\nA\nendobj\n"
    ensures Offset(PDF, ["A"], 1) == 9 && |Body(PDF, ["A"])| == 26
  {
    ObjectOfOne();
    BodyIs(PDF, "A");
    assert "%PDF-1.4\n" + "1 0 obj\nA\nendobj\n" == "%PDF-1.4\n1 0 obj\nA\nendobj\n";
  }

  lemma EntriesOfOne()
    ensures Entries(PDF, ["A"], 1) == "0000000009 00000 n \n"
  {
    BodyOfOne();
    NineInTenDigits();
    assert Entries(PDF, ["A"], 0) == "";
    assert "0000000009" + " 00000 n \n" == "0000000009 00000 n \n";
  }

  lemma TableHeadOfOne()
    ensures TableHead(PDF, 1) + PDF.free == "xref\n0 2\n0000000000 65535 f \n"
  {
    SmallNumbers();
    assert "xref\n0 " + "2" + "\n" == "xref\n0 2\n";
  }

  lemma TrailerOfOne()
    ensures Trailer(PDF, 1, 26) == "trailer << /Size 2 /Root 1 0 R >>\nstartxref\n26\n%%EOF\n"
  {
    SmallNumbers();
    assert "trailer << /Size " + "2" + " /Root 1 0 R >>\n" == "trailer << /Size 2 /Root 1 0 R >>\n";
  }

  /** The file of one object of one byte, in full. */
  lemma FileOfOneObject()
    ensures File(PDF, ["A"])
            == "%PDF-1.4\n1 0 obj\nA\nendobj\n" + "xref\n0 2\n0000000000 65535 f \n"
               + "0000000009 00000 n \n" + "trailer << /Size 2 /Root 1 0 R >>\nstartxref\n26\n%%EOF\n"
  {
    BodyOfOne();
    TableHeadOfOne();
    EntriesOfOne();
    TrailerOfOne();
    FileIs(PDF, ["A"], 26);
  }

  lemma FileIs(f: Format, objects: seq<string>, xref: nat)
    requires xref == |Body(f, objects)|
    ensures File(f, objects)
            == Body(f, objects) + (TableHead(f, |objects|) + f.free) + Entries(f, objects, |objects|)
               + Trailer(f, |objects|, xref)
  {}
}
