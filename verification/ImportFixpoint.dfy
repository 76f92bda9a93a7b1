/** One sorted pass commits the only set of rows that its own rules allow. */
module ImportFixpoint {
  import opened Wrappers
  import opened ImportCommit

  /** The results a preview stores. */
  function PreviewResults(b: Books, file: seq<Row>, place: seq<(nat, nat)>): seq<Result>
    requires |place| == |file|
  {
    seq(|file|, i requires 0 <= i < |file| => Result(file[i], place[i].0, place[i].1, ActionAt(b, file, i)))
  }

  /** The order in which the commit takes the rows. */
  function Listed(b: Books, file: seq<Row>, place: seq<(nat, nat)>): seq<Result>
    requires |place| == |file|
  {
    Sorted(PreviewResults(b, file, place))
  }

  function CommittedRows(b: Books, file: seq<Row>, place: seq<(nat, nat)>): set<Row>
    requires |place| == |file|
  {
    Admitted(b, Listed(b, file, place))
  }

  function AfterImport(b: Books, file: seq<Row>, place: seq<(nat, nat)>): Books
    requires |place| == |file|
  {
    Pass(b, Listed(b, file, place))
  }

  /** The rows preview marks for insert or update: well-formed, first with their identity, new or changed. */
  function Candidates(b: Books, file: seq<Row>): set<Row> {
    set r | r in file && r.wellFormed && First(file, Id(r)) == Some(r) && Classify(b, r) in {Insert, Update}
  }

  // ---------- What a set of committed rows must satisfy ----------

  /** A row of `s` creates or updates the entity. */
  predicate Touched(s: set<Row>, id: Ident) {
    exists q | q in s :: Id(q) == id
  }

  predicate Supplied(b: Books, s: set<Row>, id: Ident) {
    Alive(b, id) || (id.key != "" && Touched(s, id))
  }

  predicate SuppliesOrigin(b: Books, s: set<Row>, id: Ident, origin: string) {
    if Alive(b, id) then b.records[id].origin == origin
    else id.key != "" && exists q | q in s :: Id(q) == id && Origin(q) == origin
  }

  /** An item carries the code once the item rows of `s` have been applied; they also take codes away. */
  predicate CodeSupplied(b: Books, s: set<Row>, code: string) {
    || code in b.otherCodes
    || (exists q | q in s :: q.kind == Item && q.code == code)
    || (exists k | k in b.itemCodes :: b.itemCodes[k] == code && !Touched(s, Ident(Item, k)))
  }

  /** The references of a row resolve against the stored entities together with the rows of `s`, and agree. */
  ghost predicate Resolves(b: Books, s: set<Row>, r: Row) {
    && (forall i | 0 <= i < |Refers(r.kind)| :: Supplied(b, s, RefId(r, i)))
    && match r.kind
       case ReportingLine =>
         exists x, y :: SuppliesOrigin(b, s, RefId(r, 0), x) && SuppliesOrigin(b, s, RefId(r, 1), y) && x != y
       case PurchaseRequirement => CodeSupplied(b, s, r.code)
       case SupplierInvoice => SuppliesOrigin(b, s, RefId(r, 1), Ref(r, 0))
       case SupplierInvoiceLine =>
         exists po :: SuppliesOrigin(b, s, RefId(r, 0), po) && SuppliesOrigin(b, s, RefId(r, 1), po)
       case _ => true
  }

  /** The number of a new invoice belongs to a stored invoice or to one that a row of `s` creates. */
  predicate NumberTaken(b: Books, s: set<Row>, r: Row) {
    && IsNewInvoice(b, r)
    && (Number(r) in b.invoices || exists q | q in s :: IsNewInvoice(b, q) && Number(q) == Number(r))
  }

  /** The commit's rule for a row, given the committed rows and those of them that come before it. */
  ghost predicate Accepts(b: Books, s: set<Row>, earlier: set<Row>, r: Row) {
    r.admissible && Resolves(b, s, r) && !NumberTaken(b, earlier, r)
  }

  ghost predicate Precedes(results: seq<Result>, q: Row, r: Row) {
    exists i, j | 0 <= i < j < |results| ::
      Pending(results[i]) && Pending(results[j]) && results[i].row == q && results[j].row == r
  }

  ghost function Earlier(results: seq<Result>, s: set<Row>, r: Row): set<Row> {
    set q | q in s && Precedes(results, q, r)
  }

  /** `s` holds exactly the candidates that the rule accepts in the presence of `s` itself. */
  ghost predicate IsSolution(b: Books, candidates: set<Row>, results: seq<Result>, s: set<Row>) {
    && s <= candidates
    && forall r | r in candidates :: r in s <==> Accepts(b, s, Earlier(results, s, r), r)
  }

  /** `s` has every admissible candidate that resolves with `s` and whose number was not taken before, and no row that
      is not an admissible candidate. */
  ghost predicate Closed(b: Books, candidates: set<Row>, s: set<Row>) {
    && (forall r | r in s :: r in candidates && r.admissible)
    && forall r | r in candidates && r.admissible && Resolves(b, s, r) && !NumberTaken(b, {}, r) :: r in s
  }

  // ---------- Sorting ----------

  predicate UniquePending(results: seq<Result>) {
    forall i, j | 0 <= i < j < |results| && Pending(results[i]) && Pending(results[j]) ::
      Id(results[i].row) != Id(results[j].row)
  }

  predicate Ordered(results: seq<Result>) {
    forall i, j | 0 <= i < j < |results| :: Before(results[i], results[j])
  }

  lemma {:induction false} InsertedElements(sorted: seq<Result>, x: Result)
    ensures forall y :: y in Inserted(sorted, x) <==> y == x || y in sorted
  {
    if sorted != [] && !Before(x, sorted[0]) {
      InsertedElements(sorted[1..], x);
    }
  }

  lemma {:induction false} InsertedKeeps(sorted: seq<Result>, x: Result)
    requires UniquePending(sorted) && Ordered(sorted)
    requires forall y | y in sorted && Pending(y) && Pending(x) :: Id(y.row) != Id(x.row)
    ensures UniquePending(Inserted(sorted, x)) && Ordered(Inserted(sorted, x))
  {
    if sorted != [] && Before(x, sorted[0]) {
      FrontKeeps(x, sorted);
    } else if sorted != [] {
      InsertedKeeps(sorted[1..], x);
      InsertedElements(sorted[1..], x);
      FrontKeeps(sorted[0], Inserted(sorted[1..], x));
    }
  }

  lemma FrontKeeps(x: Result, rest: seq<Result>)
    requires UniquePending(rest) && Ordered(rest)
    requires forall y | y in rest :: Before(x, y) || (rest != [] && Before(x, rest[0]))
    requires forall y | y in rest && Pending(y) && Pending(x) :: Id(y.row) != Id(x.row)
    ensures UniquePending([x] + rest) && Ordered([x] + rest)
  {
    var all := [x] + rest;
    forall i, j | 0 <= i < j < |all|
      ensures Before(all[i], all[j])
      ensures Pending(all[i]) && Pending(all[j]) ==> Id(all[i].row) != Id(all[j].row)
    {
      assert all[j] == rest[j - 1] && rest[j - 1] in rest;
      if i > 0 {
        assert all[i] == rest[i - 1];
      } else if j > 1 {
        assert Before(rest[0], rest[j - 1]);
      }
    }
  }

  /** The commit's order lists the same rows, ordered by rank, sheet and row number. */
  lemma {:induction false} SortedKeeps(results: seq<Result>)
    requires UniquePending(results)
    ensures forall y :: y in Sorted(results) <==> y in results
    ensures UniquePending(Sorted(results)) && Ordered(Sorted(results))
  {
    if results != [] {
      SortedKeeps(results[1..]);
      InsertedElements(Sorted(results[1..]), results[0]);
      InsertedKeeps(Sorted(results[1..]), results[0]);
    }
  }

  // ---------- Preview selects the candidates ----------

  lemma {:induction false} FirstOfPrefix(file: seq<Row>, i: nat)
    requires i < |file|
    ensures !Seen(file[..i], Id(file[i])) ==> First(file, Id(file[i])) == Some(file[i])
  {
    if i > 0 {
      assert file[..i][0] == file[0];
      if !Seen(file[..i], Id(file[i])) {
        assert file[1..][..i - 1] == file[..i][1..];
        FirstOfPrefix(file[1..], i - 1);
      }
    }
  }

  lemma {:induction false} FirstIsUnseen(file: seq<Row>, id: Ident) returns (i: nat)
    requires First(file, id).Some?
    ensures i < |file| && First(file, id) == Some(file[i]) && Id(file[i]) == id && !Seen(file[..i], id)
  {
    if Id(file[0]) == id {
      i := 0;
    } else {
      var k := FirstIsUnseen(file[1..], id);
      i := k + 1;
      assert file[..i] == [file[0]] + file[1..][..k];
    }
  }

  lemma PreviewMarksTheCandidates(b: Books, file: seq<Row>, place: seq<(nat, nat)>)
    requires |place| == |file|
    ensures UniquePending(PreviewResults(b, file, place))
    ensures forall r :: r in Candidates(b, file)
                        <==> exists x :: x in PreviewResults(b, file, place) && Pending(x) && x.row == r
  {
    var results := PreviewResults(b, file, place);
    forall i, j | 0 <= i < j < |results| && Pending(results[i]) && Pending(results[j])
      ensures Id(results[i].row) != Id(results[j].row)
    {
      assert file[..j][i] == file[i];
    }
    forall r | r in Candidates(b, file) ensures exists x :: x in results && Pending(x) && x.row == r {
      var i := FirstIsUnseen(file, Id(r));
      assert results[i] in results && Pending(results[i]);
    }
    forall x | x in results && Pending(x) ensures x.row in Candidates(b, file) {
      var i :| 0 <= i < |results| && results[i] == x;
      FirstOfPrefix(file, i);
    }
  }

  /** The rows of `candidates` are exactly those a commit takes up, each once and in order. */
  ghost predicate Lists(results: seq<Result>, candidates: set<Row>) {
    && UniquePending(results) && Ordered(results)
    && forall r :: r in candidates <==> exists i | 0 <= i < |results| :: Pending(results[i]) && results[i].row == r
  }

  lemma ListedLists(b: Books, file: seq<Row>, place: seq<(nat, nat)>)
    requires |place| == |file|
    ensures Lists(Listed(b, file, place), Candidates(b, file))
  {
    var previewed, results := PreviewResults(b, file, place), Listed(b, file, place);
    PreviewMarksTheCandidates(b, file, place);
    SortedKeeps(previewed);
    forall r ensures r in Candidates(b, file)
                     <==> exists i | 0 <= i < |results| :: Pending(results[i]) && results[i].row == r {
      if x :| x in previewed && Pending(x) && x.row == r {
        assert x in results;
      }
      if i :| 0 <= i < |results| && Pending(results[i]) && results[i].row == r {
        assert results[i] in previewed;
      }
    }
  }

  lemma OnePrecedes(results: seq<Result>, candidates: set<Row>, p: Row, q: Row)
    requires Lists(results, candidates) && p in candidates && q in candidates && p != q
    ensures Precedes(results, p, q) || Precedes(results, q, p)
  {
    var i :| 0 <= i < |results| && Pending(results[i]) && results[i].row == p;
    var j :| 0 <= j < |results| && Pending(results[j]) && results[j].row == q;
    assert i < j || j < i;
  }

  // ---------- The books mirror the admitted set ----------

  ghost predicate MirrorsRecords(b: Books, s: set<Row>, now: Books) {
    && (forall q, id | q in s && Id(q) == id ::
          id in now.records
          && now.records[id] == Record(q.hash, if Alive(b, id) then b.records[id].origin else Origin(q), true, true))
    && (forall id | !Touched(s, id) ::
          (id in now.records <==> id in b.records) && (id in b.records ==> now.records[id] == b.records[id]))
  }

  ghost predicate MirrorsCodes(b: Books, s: set<Row>, now: Books) {
    && now.otherCodes == b.otherCodes
    && (forall q | q in s && q.kind == Item :: q.key in now.itemCodes && now.itemCodes[q.key] == q.code)
    && (forall k | !Touched(s, Ident(Item, k)) ::
          (k in now.itemCodes <==> k in b.itemCodes) && (k in b.itemCodes ==> now.itemCodes[k] == b.itemCodes[k]))
  }

  ghost predicate MirrorsInvoices(b: Books, s: set<Row>, now: Books) {
    forall n :: n in now.invoices <==> n in b.invoices || exists q | q in s :: IsNewInvoice(b, q) && Number(q) == n
  }

  /** The books of a pass agree with the start books extended by the admitted rows. */
  ghost predicate Mirrors(b: Books, s: set<Row>, now: Books) {
    MirrorsRecords(b, s, now) && MirrorsCodes(b, s, now) && MirrorsInvoices(b, s, now)
  }

  lemma SelfMirror(b: Books)
    ensures Mirrors(b, {}, b)
  {}

  lemma UntouchedIsUntouched(s: set<Row>, r: Row, id: Ident)
    ensures Touched(s + {r}, id) <==> Touched(s, id) || Id(r) == id
  {
    if q :| q in s && Id(q) == id {
      assert q in s + {r};
    }
    assert r in s + {r};
  }

  lemma RecordingMirrorsRecords(b: Books, s: set<Row>, now: Books, r: Row)
    requires MirrorsRecords(b, s, now) && !Touched(s, Id(r))
    ensures MirrorsRecords(b, s + {r}, Recorded(now, r))
  {
    assert Alive(now, Id(r)) <==> Alive(b, Id(r));
    forall id | !Touched(s + {r}, id) ensures !Touched(s, id) && Id(r) != id {
      UntouchedIsUntouched(s, r, id);
    }
  }

  lemma RecordingMirrorsCodes(b: Books, s: set<Row>, now: Books, r: Row)
    requires MirrorsCodes(b, s, now) && !Touched(s, Id(r))
    ensures MirrorsCodes(b, s + {r}, Recorded(now, r))
  {
    forall k | !Touched(s + {r}, Ident(Item, k)) ensures !Touched(s, Ident(Item, k)) && Id(r) != Ident(Item, k) {
      UntouchedIsUntouched(s, r, Ident(Item, k));
    }
    forall q | q in s && q.kind == Item ensures r.kind == Item ==> q.key != r.key {
      assert Id(q) != Id(r);
    }
  }

  lemma RecordingMirrorsInvoices(b: Books, s: set<Row>, now: Books, r: Row)
    requires MirrorsRecords(b, s, now) && MirrorsInvoices(b, s, now) && !Touched(s, Id(r))
    ensures MirrorsInvoices(b, s + {r}, Recorded(now, r))
  {
    assert IsNewInvoice(now, r) <==> IsNewInvoice(b, r);
    forall n ensures n in Recorded(now, r).invoices
                     <==> n in b.invoices || exists q | q in s + {r} :: IsNewInvoice(b, q) && Number(q) == n {
      if q :| q in s && IsNewInvoice(b, q) && Number(q) == n {
        assert q in s + {r};
      }
      assert r in s + {r};
    }
  }

  lemma {:induction false} AdmittedWerePending(b: Books, results: seq<Result>)
    ensures forall q | q in Admitted(b, results) ::
              exists i | 0 <= i < |results| :: Pending(results[i]) && results[i].row == q
  {
    if results != [] {
      var n := |results| - 1;
      AdmittedWerePending(b, results[..n]);
      assert forall i | 0 <= i < n :: results[..n][i] == results[i];
    }
  }

  lemma EarlierIdsDiffer(b: Books, results: seq<Result>, i: nat)
    requires UniquePending(results) && i < |results| && Pending(results[i])
    ensures !Touched(Admitted(b, results[..i]), Id(results[i].row))
  {
    AdmittedWerePending(b, results[..i]);
    forall q | q in Admitted(b, results[..i]) ensures Id(q) != Id(results[i].row) {
      var j :| 0 <= j < i && Pending(results[..i][j]) && results[..i][j].row == q;
    }
  }

  lemma {:induction false} PassMirrors(b: Books, results: seq<Result>)
    requires UniquePending(results)
    ensures Mirrors(b, Admitted(b, results), Pass(b, results))
  {
    if results == [] {
      SelfMirror(b);
    } else {
      var n := |results| - 1;
      var s, before, last := Admitted(b, results[..n]), Pass(b, results[..n]), results[n];
      PassMirrors(b, results[..n]);
      if Admits(before, last) {
        EarlierIdsDiffer(b, results, n);
        RecordingMirrorsRecords(b, s, before, last.row);
        RecordingMirrorsCodes(b, s, before, last.row);
        RecordingMirrorsInvoices(b, s, before, last.row);
      } else {
        assert Admitted(b, results) == s;
      }
    }
  }

  lemma MirrorSupplies(b: Books, s: set<Row>, now: Books, id: Ident)
    requires MirrorsRecords(b, s, now)
    ensures Alive(now, id) <==> Supplied(b, s, id)
    ensures forall origin ::
              SuppliesOrigin(b, s, id, origin) <==> Alive(now, id) && now.records[id].origin == origin
  {
    if q :| q in s && Id(q) == id {
      assert id in now.records && Touched(s, id);
    } else {
      assert !Touched(s, id);
    }
  }

  lemma MirrorCodes(b: Books, s: set<Row>, now: Books, code: string)
    requires MirrorsCodes(b, s, now)
    ensures HasCode(now, code) <==> CodeSupplied(b, s, code)
  {
    if code in now.itemCodes.Values {
      var k :| k in now.itemCodes && now.itemCodes[k] == code;
      if q :| q in s && Id(q) == Ident(Item, k) {
        assert q.kind == Item && q.code == code;
      } else {
        assert !Touched(s, Ident(Item, k));
      }
    }
    if q :| q in s && q.kind == Item && q.code == code {
      assert now.itemCodes[q.key] == code;
    }
    if k :| k in b.itemCodes && b.itemCodes[k] == code && !Touched(s, Ident(Item, k)) {
      assert now.itemCodes[k] == code;
    }
  }

  lemma MirrorResolves(b: Books, s: set<Row>, now: Books, r: Row)
    requires Mirrors(b, s, now)
    ensures ResolvesNow(now, r) <==> Resolves(b, s, r)
  {
    forall i | 0 <= i < |Refers(r.kind)|
      ensures Alive(now, RefId(r, i)) <==> Supplied(b, s, RefId(r, i))
      ensures forall origin ::
                SuppliesOrigin(b, s, RefId(r, i), origin)
                <==> Alive(now, RefId(r, i)) && now.records[RefId(r, i)].origin == origin
    {
      MirrorSupplies(b, s, now, RefId(r, i));
    }
    if r.kind == PurchaseRequirement {
      MirrorCodes(b, s, now, r.code);
    } else if r.kind in {ReportingLine, SupplierInvoiceLine} && ResolvesNow(now, r) {
      assert SuppliesOrigin(b, s, RefId(r, 0), now.records[RefId(r, 0)].origin);
      assert SuppliesOrigin(b, s, RefId(r, 1), now.records[RefId(r, 1)].origin);
    }
  }

  lemma MirrorNumbers(b: Books, s: set<Row>, now: Books, r: Row)
    requires Mirrors(b, s, now) && !Touched(s, Id(r))
    ensures IsDuplicate(now, r) <==> NumberTaken(b, s, r)
  {
    assert Alive(now, Id(r)) <==> Alive(b, Id(r));
  }

  // ---------- References reach only earlier ranks ----------

  lemma OriginsLookBack(b: Books, s: set<Row>, t: set<Row>, id: Ident)
    requires forall q | q in s && q.kind == id.kind :: q in t
    ensures Supplied(b, s, id) ==> Supplied(b, t, id)
    ensures forall origin :: SuppliesOrigin(b, s, id, origin) ==> SuppliesOrigin(b, t, id, origin)
  {}

  lemma CodesLookBack(b: Books, s: set<Row>, t: set<Row>, code: string)
    requires forall q: Row | q.kind == Item :: q in s <==> q in t
    ensures CodeSupplied(b, s, code) <==> CodeSupplied(b, t, code)
  {
    forall k ensures Touched(s, Ident(Item, k)) <==> Touched(t, Ident(Item, k)) {
      if q :| q in s && Id(q) == Ident(Item, k) {
        assert q in t;
      }
      if q :| q in t && Id(q) == Ident(Item, k) {
        assert q in s;
      }
    }
  }

  /** A row that resolves with `s` resolves with `t` if `t` has the rows of `s` that it can refer to; a requirement also
      depends on `t` having no further item row, for that could rename its item. */
  lemma ResolvesCarriesOver(b: Books, s: set<Row>, t: set<Row>, r: Row)
    requires forall q | q in s && EntityOrder(q.kind) < EntityOrder(r.kind) :: q in t
    requires r.kind == PurchaseRequirement ==> forall q | q in t && q.kind == Item :: q in s
    requires Resolves(b, s, r)
    ensures Resolves(b, t, r)
  {
    forall i | 0 <= i < |Refers(r.kind)|
      ensures Supplied(b, t, RefId(r, i))
      ensures forall origin :: SuppliesOrigin(b, s, RefId(r, i), origin) ==> SuppliesOrigin(b, t, RefId(r, i), origin)
    {
      assert EntityOrder(RefId(r, i).kind) < EntityOrder(r.kind);
      OriginsLookBack(b, s, t, RefId(r, i));
    }
    if r.kind == PurchaseRequirement {
      CodesLookBack(b, s, t, r.code);
    } else if r.kind == ReportingLine {
      var x, y :| SuppliesOrigin(b, s, RefId(r, 0), x) && SuppliesOrigin(b, s, RefId(r, 1), y) && x != y;
      assert SuppliesOrigin(b, t, RefId(r, 0), x) && SuppliesOrigin(b, t, RefId(r, 1), y);
    } else if r.kind == SupplierInvoiceLine {
      var po :| SuppliesOrigin(b, s, RefId(r, 0), po) && SuppliesOrigin(b, s, RefId(r, 1), po);
      assert SuppliesOrigin(b, t, RefId(r, 0), po) && SuppliesOrigin(b, t, RefId(r, 1), po);
    }
  }

  predicate AgreeBelow(s: set<Row>, t: set<Row>, rank: int) {
    && (forall q | q in s && EntityOrder(q.kind) < rank :: q in t)
    && (forall q | q in t && EntityOrder(q.kind) < rank :: q in s)
  }

  lemma ResolvesAlike(b: Books, s: set<Row>, t: set<Row>, r: Row)
    requires AgreeBelow(s, t, EntityOrder(r.kind))
    ensures Resolves(b, s, r) <==> Resolves(b, t, r)
  {
    if Resolves(b, s, r) {
      ResolvesCarriesOver(b, s, t, r);
    }
    if Resolves(b, t, r) {
      ResolvesCarriesOver(b, t, s, r);
    }
  }

  // ---------- A pass decides each row at its turn ----------

  lemma {:induction false} AdmittedSplits(b: Books, results: seq<Result>, i: nat)
    requires i <= |results|
    ensures Admitted(b, results[..i]) <= Admitted(b, results)
    ensures forall q | q in Admitted(b, results) && q !in Admitted(b, results[..i]) ::
              exists j | i <= j < |results| :: Pending(results[j]) && results[j].row == q
  {
    if i == |results| {
      assert results[..i] == results;
    } else {
      var n := |results| - 1;
      assert results[..n][..i] == results[..i];
      AdmittedSplits(b, results[..n], i);
      assert forall j | 0 <= j < n :: results[..n][j] == results[j];
    }
  }

  /** The rows admitted before a row's turn are the admitted rows that precede it. */
  lemma PrefixIsEarlier(b: Books, results: seq<Result>, i: nat)
    requires UniquePending(results) && i < |results| && Pending(results[i])
    ensures Admitted(b, results[..i]) == Earlier(results, Admitted(b, results), results[i].row)
  {
    var r, before, all := results[i].row, Admitted(b, results[..i]), Admitted(b, results);
    AdmittedSplits(b, results, i);
    AdmittedWerePending(b, results[..i]);
    forall q | q in before ensures Precedes(results, q, r) {
      var j :| 0 <= j < i && Pending(results[..i][j]) && results[..i][j].row == q;
      assert results[j].row == q && Pending(results[j]);
    }
    forall q | q in all && Precedes(results, q, r) ensures q in before {
      var j, k :| 0 <= j < k < |results| && Pending(results[j]) && Pending(results[k])
                  && results[j].row == q && results[k].row == r;
      assert k == i;
    }
  }

  lemma DecidedAtItsTurn(b: Books, results: seq<Result>, i: nat)
    requires UniquePending(results) && i < |results| && Pending(results[i])
    ensures var before := Admitted(b, results[..i]);
            results[i].row in Admitted(b, results) <==> Accepts(b, before, before, results[i].row)
  {
    PassOfNext(b, results, i);
    PassMirrors(b, results[..i]);
    EarlierIdsDiffer(b, results, i);
    MirrorResolves(b, Admitted(b, results[..i]), Pass(b, results[..i]), results[i].row);
    MirrorNumbers(b, Admitted(b, results[..i]), Pass(b, results[..i]), results[i].row);
    AdmittedSplits(b, results, i + 1);
    assert results[i].row !in Admitted(b, results[..i]);
  }

  lemma LowerRanksComeEarlier(b: Books, results: seq<Result>, i: nat)
    requires Ordered(results) && i < |results|
    ensures AgreeBelow(Admitted(b, results[..i]), Admitted(b, results), EntityOrder(results[i].row.kind))
  {
    AdmittedSplits(b, results, i);
  }

  /** A pass in rank order decides each row as if all rows it commits were stored before, except that an invoice number
      is taken only by rows that come earlier. */
  lemma PassIsSolution(b: Books, results: seq<Result>, candidates: set<Row>)
    requires Lists(results, candidates)
    ensures IsSolution(b, candidates, results, Admitted(b, results))
  {
    AdmittedWerePending(b, results);
    var all := Admitted(b, results);
    forall r | r in candidates ensures r in all <==> Accepts(b, all, Earlier(results, all, r), r) {
      var i :| 0 <= i < |results| && Pending(results[i]) && results[i].row == r;
      DecidedAtItsTurn(b, results, i);
      LowerRanksComeEarlier(b, results, i);
      ResolvesAlike(b, Admitted(b, results[..i]), all, r);
      PrefixIsEarlier(b, results, i);
    }
  }

  /** Two solutions agree on the first `n` rows of the order. */
  lemma {:induction false} SolutionsAgree(
    b: Books, results: seq<Result>, candidates: set<Row>, s: set<Row>, t: set<Row>, n: nat)
    requires Lists(results, candidates) && n <= |results|
    requires IsSolution(b, candidates, results, s) && IsSolution(b, candidates, results, t)
    ensures forall j | 0 <= j < n && Pending(results[j]) :: results[j].row in s <==> results[j].row in t
  {
    if n > 0 {
      SolutionsAgree(b, results, candidates, s, t, n - 1);
      if Pending(results[n - 1]) {
        SolutionsAgreeAt(b, results, candidates, s, t, n - 1);
      }
    }
  }

  lemma SolutionsAgreeAt(b: Books, results: seq<Result>, candidates: set<Row>, s: set<Row>, t: set<Row>, i: nat)
    requires Lists(results, candidates) && i < |results| && Pending(results[i])
    requires IsSolution(b, candidates, results, s) && IsSolution(b, candidates, results, t)
    requires forall j | 0 <= j < i && Pending(results[j]) :: results[j].row in s <==> results[j].row in t
    ensures results[i].row in s <==> results[i].row in t
  {
    var r := results[i].row;
    EarlierRowsAgree(results, candidates, s, t, i);
    EarlierRowsAgree(results, candidates, t, s, i);
    ResolvesAlike(b, s, t, r);
    assert Earlier(results, s, r) == Earlier(results, t, r);
    assert r in candidates;
  }

  lemma EarlierRowsAgree(results: seq<Result>, candidates: set<Row>, s: set<Row>, t: set<Row>, i: nat)
    requires Lists(results, candidates) && s <= candidates && i < |results| && Pending(results[i])
    requires forall j | 0 <= j < i && Pending(results[j]) && results[j].row in s :: results[j].row in t
    ensures forall q | q in s && EntityOrder(q.kind) < EntityOrder(results[i].row.kind) :: q in t
    ensures forall q | q in s && Precedes(results, q, results[i].row) :: q in t
  {
    forall q | q in s && EntityOrder(q.kind) < EntityOrder(results[i].row.kind) ensures q in t {
      var j :| 0 <= j < |results| && Pending(results[j]) && results[j].row == q;
      assert j < i;
    }
    forall q | q in s && Precedes(results, q, results[i].row) ensures q in t {
      var j, k :| 0 <= j < k < |results| && Pending(results[j]) && Pending(results[k])
                  && results[j].row == q && results[k].row == results[i].row;
      assert k == i;
    }
  }

  lemma SolutionIsUnique(b: Books, results: seq<Result>, candidates: set<Row>, s: set<Row>, t: set<Row>)
    requires Lists(results, candidates)
    requires IsSolution(b, candidates, results, s) && IsSolution(b, candidates, results, t)
    ensures s == t
  {
    SolutionsAgree(b, results, candidates, s, t, |results|);
    forall q | q in s + t ensures q in s && q in t {
      var j :| 0 <= j < |results| && Pending(results[j]) && results[j].row == q;
    }
  }

  /** A pass is contained in every closed set. */
  lemma {:induction false} PassIsLeast(b: Books, results: seq<Result>, candidates: set<Row>, s: set<Row>, n: nat)
    requires Lists(results, candidates) && Closed(b, candidates, s) && n <= |results|
    ensures Admitted(b, results[..n]) <= s
  {
    if n > 0 {
      PassIsLeast(b, results, candidates, s, n - 1);
      PassOfNext(b, results, n - 1);
      if Admits(Pass(b, results[..n - 1]), results[n - 1]) {
        AdmittedIsInClosed(b, results, candidates, s, n - 1);
      }
    }
  }

  lemma AdmittedIsInClosed(b: Books, results: seq<Result>, candidates: set<Row>, s: set<Row>, i: nat)
    requires Lists(results, candidates) && Closed(b, candidates, s) && i < |results|
    requires Admits(Pass(b, results[..i]), results[i]) && Admitted(b, results[..i]) <= s
    ensures results[i].row in s
  {
    var r, before := results[i].row, Admitted(b, results[..i]);
    assert r in candidates;
    PassMirrors(b, results[..i]);
    EarlierIdsDiffer(b, results, i);
    MirrorResolves(b, before, Pass(b, results[..i]), r);
    MirrorNumbers(b, before, Pass(b, results[..i]), r);
    if r.kind == PurchaseRequirement {
      forall q | q in s && q.kind == Item ensures q in before {
        ItemsAreCommitted(b, results, candidates, q, i);
      }
    }
    ResolvesCarriesOver(b, before, s, r);
  }

  /** Item rows refer to nothing, so all admissible ones are committed, before any requirement. */
  lemma ItemsAreCommitted(b: Books, results: seq<Result>, candidates: set<Row>, q: Row, i: nat)
    requires Lists(results, candidates) && i < |results| && results[i].row.kind == PurchaseRequirement
    requires q in candidates && q.kind == Item && q.admissible
    ensures q in Admitted(b, results[..i])
  {
    var j :| 0 <= j < |results| && Pending(results[j]) && results[j].row == q;
    assert j < i;
    PassOfNext(b, results, j);
    assert Admits(Pass(b, results[..j]), results[j]);
    AdmittedSplits(b, results[..i], j + 1);
    assert results[..i][..j + 1] == results[..j + 1];
  }

  /** Preview and commit together: the committed rows are the only set of candidates that consists exactly of the
      admissible ones whose references resolve to stored entities or to rows of the set, and whose number, for a new
      invoice, is neither stored nor created by an earlier row of the set. They are also contained in every set closed
      under that rule. */
  lemma OnePassIsTheOnlySolution(b: Books, file: seq<Row>, place: seq<(nat, nat)>)
    requires |place| == |file|
    ensures var done, candidates, results := CommittedRows(b, file, place), Candidates(b, file), Listed(b, file, place);
            && (forall s :: IsSolution(b, candidates, results, s) <==> s == done)
            && (forall s | Closed(b, candidates, s) :: done <= s)
  {
    var done, candidates, results := CommittedRows(b, file, place), Candidates(b, file), Listed(b, file, place);
    ListedLists(b, file, place);
    PassIsSolution(b, results, candidates);
    forall s | IsSolution(b, candidates, results, s) ensures s == done {
      SolutionIsUnique(b, results, candidates, s, done);
    }
    forall s | Closed(b, candidates, s) ensures done <= s {
      PassIsLeast(b, results, candidates, s, |results|);
      assert results[..|results|] == results;
    }
  }

  lemma CommittedIsSolution(b: Books, file: seq<Row>, place: seq<(nat, nat)>)
    requires |place| == |file|
    ensures IsSolution(b, Candidates(b, file), Listed(b, file, place), CommittedRows(b, file, place))
    ensures UniquePending(Listed(b, file, place))
  {
    ListedLists(b, file, place);
    PassIsSolution(b, Listed(b, file, place), Candidates(b, file));
  }

  /** The rows a commit marks are the rows it admits. */
  lemma {:induction false} MarkedAreAdmitted(b: Books, results: seq<Result>, r: Row)
    requires forall i | 0 <= i < |results| :: results[i].action != Committed
    ensures r in Admitted(b, results)
            <==> exists i | 0 <= i < |results| ::
                   results[i].row == r && Decide(Pass(b, results[..i]), results[i]) == Committed
  {
    if results != [] {
      var n := |results| - 1;
      var init := results[..n];
      MarkedAreAdmitted(b, init, r);
      assert forall i | 0 <= i < n :: init[..i] == results[..i];
    }
  }

  // ---------- Importing the same file again ----------

  /** A second import of the same file commits nothing: committed rows are unchanged, and refused rows are still
      refused. */
  lemma SecondImportCommitsNothing(b: Books, file: seq<Row>, place: seq<(nat, nat)>)
    requires |place| == |file|
    ensures CommittedRows(AfterImport(b, file, place), file, place) == {}
  {
    var done, now := CommittedRows(b, file, place), AfterImport(b, file, place);
    CommittedIsSolution(b, file, place);
    PassMirrors(b, Listed(b, file, place));
    forall r | r in Candidates(now, file) ensures !Accepts(now, {}, {}, r) {
      RefusedStaysRefused(b, file, place, done, now, r);
    }
    OnePassIsTheOnlySolution(now, file, place);
    var results := Listed(now, file, place);
    assert forall r :: Earlier(results, {}, r) == {};
    assert IsSolution(now, Candidates(now, file), results, {});
  }

  lemma RefusedStaysRefused(
    b: Books, file: seq<Row>, place: seq<(nat, nat)>, done: set<Row>, now: Books, r: Row)
    requires |place| == |file| && Mirrors(b, done, now)
    requires IsSolution(b, Candidates(b, file), Listed(b, file, place), done)
    requires r in Candidates(now, file)
    ensures !Accepts(now, {}, {}, r)
  {
    NotCommittedBefore(b, file, done, now, r);
    SelfMirror(now);
    MirrorResolves(now, {}, now, r);
    MirrorResolves(b, done, now, r);
    MirrorNumbers(now, {}, now, r);
    MirrorNumbers(b, done, now, r);
    assert r in Candidates(b, file) && r !in done;
    assert NumberTaken(b, Earlier(Listed(b, file, place), done, r), r) ==> NumberTaken(b, done, r);
  }

  lemma NotCommittedBefore(b: Books, file: seq<Row>, done: set<Row>, now: Books, r: Row)
    requires MirrorsRecords(b, done, now) && done <= Candidates(b, file) && r in Candidates(now, file)
    ensures !Touched(done, Id(r)) && r in Candidates(b, file) && r !in done
  {
    forall q | q in done ensures Id(q) != Id(r) {
      assert First(file, Id(q)) == Some(q);
      assert now.records[Id(q)].hash == q.hash;
    }
    assert !Touched(done, Id(r));
    assert Classify(now, r) == Classify(b, r);
  }
}
