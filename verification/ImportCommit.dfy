/** Spreadsheet import: preview classifies rows, commit resolves their references in one sorted pass. */
module ImportCommit {
  import opened Wrappers

  datatype Kind =
    | Company | Plant | User | ReportingLine | Item | Supplier
    | ItemSpecification | SupplierContact | SupplierItemCapability | PurchaseRequirement
    | PoDraft | PoDraftLine | StoreReceipt | InspectionResult
    | SupplierInvoice | SupplierInvoiceLine | InvoicePaymentStatus

  function EntityOrder(k: Kind): int {
    match k
    case Company => -4
    case Plant => -3
    case User => -2
    case ReportingLine => -1
    case Item => 0
    case Supplier => 1
    case ItemSpecification | SupplierContact | SupplierItemCapability => 2
    case PurchaseRequirement => 3
    case PoDraft => 4
    case PoDraftLine => 5
    case StoreReceipt => 6
    case InspectionResult => 7
    case SupplierInvoice => 8
    case SupplierInvoiceLine => 9
    case InvoicePaymentStatus => 10
  }

  /** The kinds a row refers to by external key, in the order of its reference columns. */
  function Refers(k: Kind): (kinds: seq<Kind>)
    ensures forall i | 0 <= i < |kinds| :: EntityOrder(kinds[i]) < EntityOrder(k)
  {
    match k
    case Company | Item | Supplier | PurchaseRequirement => []
    case Plant => [Company]
    case User => [Plant]
    case ReportingLine => [User, User]
    case ItemSpecification => [Item]
    case SupplierContact | PoDraft => [Supplier]
    case SupplierItemCapability => [Supplier, Item]
    case PoDraftLine => [PoDraft, Item]
    case StoreReceipt => [PoDraft]
    case InspectionResult => [StoreReceipt]
    case SupplierInvoice => [Supplier, PoDraft]
    case SupplierInvoiceLine => [SupplierInvoice, PoDraftLine]
    case InvoicePaymentStatus => [SupplierInvoice]
  }

  datatype Ident = Ident(kind: Kind, key: string)

  /** A row of a known sheet. `wellFormed`: required fields are present and none is a formula.
      `admissible`: the checks the commit makes on the row's own values succeed.
      `code`: a user's folded e-mail, an item's or requirement's item code, an invoice's number. */
  datatype Row = Row(
    kind: Kind, key: string, wellFormed: bool, admissible: bool, hash: string, refs: seq<string>, code: string)

  function Id(r: Row): Ident {
    Ident(r.kind, r.key)
  }

  /** A missing reference column reads as the empty key. */
  function Ref(r: Row, i: nat): string {
    if i < |r.refs| then r.refs[i] else ""
  }

  /** What the stored entity keeps of the row that created it: a user is the person with its e-mail, a purchase order
      keeps its supplier, a line or invoice its order. */
  function Origin(r: Row): string {
    match r.kind
    case User => r.code
    case PoDraft | PoDraftLine => Ref(r, 0)
    case SupplierInvoice => Ref(r, 1)
    case _ => ""
  }

  /** The record of an earlier import. `alive`: its entity still exists. `inStep`: the entity still has the version
      stored at the last import. An update never changes the origin. */
  datatype Record = Record(hash: string, origin: string, alive: bool, inStep: bool)

  /** What a commit reads and writes. `itemCodes` gives the platform code of the item with an external key,
      `otherCodes` the codes of all other items, `invoices` the supplier and number of every invoice. */
  datatype Books = Books(
    records: map<Ident, Record>, itemCodes: map<string, string>, otherCodes: set<string>,
    invoices: set<(string, string)>)

  predicate Alive(b: Books, id: Ident) {
    id.key != "" && id in b.records && b.records[id].alive
  }

  datatype Action = Insert | Update | Unchanged | Conflict | Error | Committed

  // ---------- Preview ----------

  function Classify(b: Books, r: Row): Action {
    if Id(r) !in b.records then Insert
    else if b.records[Id(r)].hash == r.hash then Unchanged
    else if b.records[Id(r)].alive && !b.records[Id(r)].inStep then Conflict
    else Update
  }

  /** The first row of the file with an identity, well-formed or not. */
  function First(file: seq<Row>, id: Ident): Option<Row> {
    if file == [] then None
    else if Id(file[0]) == id then Some(file[0])
    else First(file[1..], id)
  }

  predicate Seen(file: seq<Row>, id: Ident) {
    exists r | r in file :: Id(r) == id
  }

  function ActionAt(b: Books, file: seq<Row>, i: nat): Action
    requires i < |file|
  {
    if !file[i].wellFormed || Seen(file[..i], Id(file[i])) then Error else Classify(b, file[i])
  }

  /** A row result; `sheet` is the position of the sheet's name in alphabetical order. */
  datatype Result = Result(row: Row, sheet: nat, number: nat, action: Action)

  // ---------- Commit ----------

  function RefId(r: Row, i: nat): Ident
    requires i < |Refers(r.kind)|
  {
    Ident(Refers(r.kind)[i], Ref(r, i))
  }

  predicate HasCode(b: Books, code: string) {
    code in b.otherCodes || code in b.itemCodes.Values
  }

  /** The commit's own lookups, one per reference column, and one by item code for a requirement. */
  predicate ResolvesNow(b: Books, r: Row) {
    && (forall i | 0 <= i < |Refers(r.kind)| :: Alive(b, RefId(r, i)))
    && match r.kind
       case ReportingLine => b.records[RefId(r, 0)].origin != b.records[RefId(r, 1)].origin
       case PurchaseRequirement => HasCode(b, r.code)
       case SupplierInvoice => b.records[RefId(r, 1)].origin == Ref(r, 0)
       case SupplierInvoiceLine => b.records[RefId(r, 0)].origin == b.records[RefId(r, 1)].origin
       case _ => true
  }

  predicate Exists(b: Books, k: Kind, key: string) {
    key != "" && Ident(k, key) in b.records && b.records[Ident(k, key)].alive
  }

  /** The person behind a user's key, the supplier of an order, the order of an order line or of an invoice. */
  function KeptBy(b: Books, k: Kind, key: string): string {
    if Ident(k, key) in b.records then b.records[Ident(k, key)].origin else ""
  }

  /** What the source demands of the references of each kind of row, column by column. */
  predicate ReferencesHold(b: Books, r: Row) {
    match r.kind
    case Company | Item | Supplier => true
    case Plant => Exists(b, Company, Ref(r, 0))
    case User => Exists(b, Plant, Ref(r, 0))
    case ReportingLine =>
      && Exists(b, User, Ref(r, 0)) && Exists(b, User, Ref(r, 1))
      && KeptBy(b, User, Ref(r, 0)) != KeptBy(b, User, Ref(r, 1))
    case ItemSpecification => Exists(b, Item, Ref(r, 0))
    case SupplierContact => Exists(b, Supplier, Ref(r, 0))
    case SupplierItemCapability => Exists(b, Supplier, Ref(r, 0)) && Exists(b, Item, Ref(r, 1))
    case PurchaseRequirement => r.code in b.otherCodes || exists k | k in b.itemCodes :: b.itemCodes[k] == r.code
    case PoDraft => Exists(b, Supplier, Ref(r, 0))
    case PoDraftLine => Exists(b, PoDraft, Ref(r, 0)) && Exists(b, Item, Ref(r, 1))
    case StoreReceipt => Exists(b, PoDraft, Ref(r, 0))
    case InspectionResult => Exists(b, StoreReceipt, Ref(r, 0))
    case SupplierInvoice =>
      Exists(b, Supplier, Ref(r, 0)) && Exists(b, PoDraft, Ref(r, 1)) && KeptBy(b, PoDraft, Ref(r, 1)) == Ref(r, 0)
    case SupplierInvoiceLine =>
      && Exists(b, SupplierInvoice, Ref(r, 0)) && Exists(b, PoDraftLine, Ref(r, 1))
      && KeptBy(b, SupplierInvoice, Ref(r, 0)) == KeptBy(b, PoDraftLine, Ref(r, 1))
    case InvoicePaymentStatus => Exists(b, SupplierInvoice, Ref(r, 0))
  }

  /** The lookups per reference column are what the source demands of each kind. */
  lemma LookupsAreTheReferences(b: Books, r: Row)
    ensures ResolvesNow(b, r) <==> ReferencesHold(b, r)
  {
    var n := |Refers(r.kind)|;
    assert n <= 2;
    assert (forall i | 0 <= i < n :: Alive(b, RefId(r, i)))
           <==> (n > 0 ==> Alive(b, RefId(r, 0))) && (n > 1 ==> Alive(b, RefId(r, 1)));
  }

  /** An invoice row whose invoice does not exist yet. */
  predicate IsNewInvoice(b: Books, r: Row) {
    r.kind == SupplierInvoice && !Alive(b, Id(r))
  }

  /** The supplier and the number of an invoice row. */
  function Number(r: Row): (string, string) {
    (Ref(r, 0), r.code)
  }

  predicate IsDuplicate(b: Books, r: Row) {
    IsNewInvoice(b, r) && Number(r) in b.invoices
  }

  predicate Pending(result: Result) {
    result.action in {Insert, Update}
  }

  predicate Admits(b: Books, result: Result) {
    Pending(result) && result.row.admissible && ResolvesNow(b, result.row) && !IsDuplicate(b, result.row)
  }

  function Decide(b: Books, result: Result): Action {
    if !Pending(result) then result.action
    else if Admits(b, result) then Committed
    else Error
  }

  function Recorded(b: Books, r: Row): Books {
    Books(
      b.records[Id(r) := Record(r.hash, if Alive(b, Id(r)) then b.records[Id(r)].origin else Origin(r), true, true)],
      if r.kind == Item then b.itemCodes[r.key := r.code] else b.itemCodes,
      b.otherCodes,
      if IsNewInvoice(b, r) then b.invoices + {Number(r)} else b.invoices)
  }

  /** The books after a pass over the results in the given order. */
  function Pass(b: Books, results: seq<Result>): Books {
    if results == [] then b
    else
      var before, last := Pass(b, results[..|results| - 1]), results[|results| - 1];
      if Admits(before, last) then Recorded(before, last.row) else before
  }

  /** The rows such a pass commits. */
  function Admitted(b: Books, results: seq<Result>): set<Row> {
    if results == [] then {}
    else
      var last := results[|results| - 1];
      Admitted(b, results[..|results| - 1])
      + if Admits(Pass(b, results[..|results| - 1]), last) then {last.row} else {}
  }

  predicate Before(a: Result, b: Result) {
    var x, y := EntityOrder(a.row.kind), EntityOrder(b.row.kind);
    x < y || (x == y && (a.sheet < b.sheet || (a.sheet == b.sheet && a.number <= b.number)))
  }

  function Inserted(sorted: seq<Result>, x: Result): seq<Result> {
    if sorted == [] then [x]
    else if Before(x, sorted[0]) then [x] + sorted
    else [sorted[0]] + Inserted(sorted[1..], x)
  }

  function Sorted(results: seq<Result>): seq<Result> {
    if results == [] then [] else Inserted(Sorted(results[1..]), results[0])
  }

  datatype Status = Previewed | PartiallyCompleted | Completed | CompletedWithErrors

  class ImportBatch {
    var books: Books
    var results: seq<Result>
    var status: Status

    constructor (b: Books)
      ensures books == b && results == [] && status == Previewed
    {
      books, results, status := b, [], Previewed;
    }

    /** `place(i)` is the sheet and row number of the i-th parsed row. */
    method Preview(file: seq<Row>, place: seq<(nat, nat)>)
      requires |place| == |file|
      modifies `results
      ensures |results| == |file|
      ensures forall i | 0 <= i < |file| ::
                results[i] == Result(file[i], place[i].0, place[i].1, ActionAt(books, file, i))
    {
      results := [];
      var seen: set<Ident> := {};
      for n := 0 to |file|
        invariant |results| == n
        invariant forall id :: id in seen <==> Seen(file[..n], id)
        invariant forall i | 0 <= i < n ::
                    results[i] == Result(file[i], place[i].0, place[i].1, ActionAt(books, file, i))
      {
        var row := file[n];
        var errors := !row.wellFormed;
        if Id(row) in seen {
          errors := true;
        } else {
          seen := seen + {Id(row)};
        }
        var action := if errors then Error else Classify(books, row);
        results := results + [Result(row, place[n].0, place[n].1, action)];
        assert file[..n + 1] == file[..n] + [row];
      }
    }

    /** Commits or refuses one insert or update row against the books so far. */
    method CommitRow(n: nat)
      requires n < |results| && Pending(results[n])
      modifies `books, `results
      ensures var action := Decide(old(books), old(results)[n]);
              && results == old(results)[n := old(results)[n].(action := action)]
              && books == if action == Committed then Recorded(old(books), old(results)[n].row) else old(books)
      ensures var r := old(results)[n].row;
              results[n].action == Committed
              <==> && r.admissible && ReferencesHold(old(books), r)
                   && !(r.kind == SupplierInvoice && !Exists(old(books), SupplierInvoice, r.key)
                        && (Ref(r, 0), r.code) in old(books).invoices)
    {
      LookupsAreTheReferences(books, results[n].row);
      var result := results[n];
      if result.row.admissible && ResolvesNow(books, result.row) && !IsDuplicate(books, result.row) {
        books := Recorded(books, result.row);
        results := results[n := result.(action := Committed)];
      } else {
        results := results[n := result.(action := Error)];
      }
    }

    /** Refused for an import that has been committed. */
    method Commit() returns (accepted: bool)
      modifies this
      ensures accepted <==> old(status) in {Previewed, PartiallyCompleted}
      ensures if accepted
              then
                && DecidedUpTo(old(books), Sorted(old(results)), books, results, |results|)
                && status == if HasFailures(results) then CompletedWithErrors else Completed
              else books == old(books) && results == old(results) && status == old(status)
    {
      if status !in {Previewed, PartiallyCompleted} {
        return false;
      }
      ghost var before := books;
      var sorted := Sorted(results);
      results := sorted;
      for n := 0 to |sorted|
        invariant DecidedUpTo(before, sorted, books, results, n)
      {
        ghost var books1, results1 := books, results;
        if Pending(results[n]) {
          CommitRow(n);
        }
        DecideNext(before, sorted, books1, results1, books, results, n);
      }
      status := if HasFailures(results) then CompletedWithErrors else Completed;
      return true;
    }
  }

  predicate HasFailures(results: seq<Result>) {
    exists i | 0 <= i < |results| :: results[i].action in {Error, Conflict}
  }

  /** The books and row results after the first `n` rows of the order have been decided, each against the books that the
      rows before it left. */
  predicate DecidedUpTo(b: Books, sorted: seq<Result>, books: Books, results: seq<Result>, n: nat) {
    && n <= |sorted| == |results|
    && books == Pass(b, sorted[..n])
    && (forall i | 0 <= i < n :: results[i] == sorted[i].(action := Decide(Pass(b, sorted[..i]), sorted[i])))
    && (forall i | n <= i < |sorted| :: results[i] == sorted[i])
  }

  lemma DecideNext(
    b: Books, sorted: seq<Result>, books: Books, results: seq<Result>, books': Books, results': seq<Result>, n: nat)
    requires DecidedUpTo(b, sorted, books, results, n) && n < |sorted|
    requires var action := Decide(books, sorted[n]);
             && results' == results[n := sorted[n].(action := action)]
             && books' == if Pending(sorted[n]) && action == Committed then Recorded(books, sorted[n].row) else books
    ensures DecidedUpTo(b, sorted, books', results', n + 1)
  {
    PassOfNext(b, sorted, n);
  }

  lemma PassOfNext(b: Books, results: seq<Result>, n: nat)
    requires n < |results|
    ensures var before := Pass(b, results[..n]);
            Pass(b, results[..n + 1])
            == if Admits(before, results[n]) then Recorded(before, results[n].row) else before
    ensures Admitted(b, results[..n + 1])
            == Admitted(b, results[..n])
               + if Admits(Pass(b, results[..n]), results[n]) then {results[n].row} else {}
  {
    assert results[..n + 1][..n] == results[..n];
  }
}
