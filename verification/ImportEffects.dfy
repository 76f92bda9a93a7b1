/** What an import does, told from the file and the books before and after it. */
module ImportEffects {
  import opened Wrappers
  import opened ImportCommit
  import opened ImportFixpoint
  import opened ImportOrder

  // ---------- Which rows are taken up ----------

  /** The row is well-formed, the first of the file with its identity, and new or changed; and the platform has not
      changed its entity since the last import. */
  lemma CandidateIff(b: Books, file: seq<Row>, r: Row)
    ensures r in Candidates(b, file)
            <==> && r in file && r.wellFormed && First(file, Ident(r.kind, r.key)) == Some(r)
                 && (Ident(r.kind, r.key) in b.records ==>
                       var record := b.records[Ident(r.kind, r.key)];
                       record.hash != r.hash && (record.alive ==> record.inStep))
  {}

  // ---------- Which rows are committed ----------

  /** A new invoice of the row's supplier and number is stored before the import, or created by an earlier row. */
  ghost predicate NumberIsTaken(b: Books, earlier: set<Row>, r: Row) {
    && r.kind == SupplierInvoice && !Exists(b, SupplierInvoice, r.key)
    && ((Ref(r, 0), r.code) in b.invoices
        || exists q | q in earlier ::
             && q.kind == SupplierInvoice && !Exists(b, SupplierInvoice, q.key)
             && Ref(q, 0) == Ref(r, 0) && q.code == r.code)
  }

  /** A row taken up is committed exactly when its own values are admissible, its references hold in the books after
      the import, and its invoice number is not taken: an order line, for one, when both its order and its item exist
      then. */
  lemma CommittedIff(b: Books, file: seq<Row>, place: seq<(nat, nat)>, r: Row)
    requires |place| == |file| && r in Candidates(b, file)
    ensures var done := CommittedRows(b, file, place);
            r in done
            <==> && r.admissible && ReferencesHold(AfterImport(b, file, place), r)
                 && !NumberIsTaken(b, Earlier(Listed(b, file, place), done, r), r)
  {
    var done, now := CommittedRows(b, file, place), AfterImport(b, file, place);
    CommittedIsSolution(b, file, place);
    ImportMirrors(b, file, place);
    MirrorResolves(b, done, now, r);
    LookupsAreTheReferences(now, r);
    var earlier := Earlier(Listed(b, file, place), done, r);
    forall q | q in earlier
      ensures IsNewInvoice(b, q) && Number(q) == Number(r)
              <==> && q.kind == SupplierInvoice && !Exists(b, SupplierInvoice, q.key)
                   && Ref(q, 0) == Ref(r, 0) && q.code == r.code
    {
    }
  }

  lemma ImportMirrors(b: Books, file: seq<Row>, place: seq<(nat, nat)>)
    requires |place| == |file|
    ensures Mirrors(b, CommittedRows(b, file, place), AfterImport(b, file, place))
  {
    ListedLists(b, file, place);
    PassMirrors(b, Listed(b, file, place));
  }

  // ---------- What a committed row stores ----------

  /** What the entity keeps of the row that creates it. */
  function Keeps(r: Row): string {
    match r.kind
    case User => r.code
    case PoDraft | PoDraftLine => Ref(r, 0)
    case SupplierInvoice => Ref(r, 1)
    case _ => ""
  }

  /** A committed row's entity exists, with the row's hash, and keeps what it kept or what the row gives it; an item has
      the row's code, and a new invoice its supplier's number. */
  lemma CommittedIsStored(b: Books, file: seq<Row>, place: seq<(nat, nat)>, r: Row)
    requires |place| == |file| && r in CommittedRows(b, file, place)
    ensures var now := AfterImport(b, file, place);
            && Ident(r.kind, r.key) in now.records
            && now.records[Ident(r.kind, r.key)]
               == Record(r.hash, if Exists(b, r.kind, r.key) then KeptBy(b, r.kind, r.key) else Keeps(r), true, true)
            && (r.kind == Item ==> r.key in now.itemCodes && now.itemCodes[r.key] == r.code)
            && (r.kind == SupplierInvoice && !Exists(b, SupplierInvoice, r.key) ==>
                  (Ref(r, 0), r.code) in now.invoices)
  {
    ImportMirrors(b, file, place);
    assert IsNewInvoice(b, r) <==> r.kind == SupplierInvoice && !Exists(b, SupplierInvoice, r.key);
  }

  /** An entity without a committed row keeps its record, also one changed on the platform since the last import. */
  lemma OthersAreKept(b: Books, file: seq<Row>, place: seq<(nat, nat)>, id: Ident)
    requires |place| == |file| && forall r | r in CommittedRows(b, file, place) :: Ident(r.kind, r.key) != id
    ensures var now := AfterImport(b, file, place);
            (id in now.records <==> id in b.records) && (id in b.records ==> now.records[id] == b.records[id])
  {
    ImportMirrors(b, file, place);
    assert !Touched(CommittedRows(b, file, place), id);
  }

  /** A row does not overwrite an entity that the platform has changed since the last import. */
  lemma ConflictIsKept(b: Books, file: seq<Row>, place: seq<(nat, nat)>, r: Row)
    requires |place| == |file| && Ident(r.kind, r.key) in b.records
    requires var record := b.records[Ident(r.kind, r.key)]; record.alive && !record.inStep
    ensures Ident(r.kind, r.key) in AfterImport(b, file, place).records
    ensures AfterImport(b, file, place).records[Ident(r.kind, r.key)] == b.records[Ident(r.kind, r.key)]
  {
    CommittedIsSolution(b, file, place);
    forall q | q in CommittedRows(b, file, place) ensures Ident(q.kind, q.key) != Ident(r.kind, r.key) {
      CandidateIff(b, file, q);
    }
    OthersAreKept(b, file, place, Ident(r.kind, r.key));
  }

  /** No two new invoices of an import have one supplier and number, and none has a stored one. */
  lemma CommittedNumbersDiffer(b: Books, file: seq<Row>, place: seq<(nat, nat)>, p: Row, q: Row)
    requires |place| == |file| && p in CommittedRows(b, file, place) && q in CommittedRows(b, file, place)
    requires p.kind == q.kind == SupplierInvoice
    requires !Exists(b, SupplierInvoice, p.key) && !Exists(b, SupplierInvoice, q.key)
    ensures (Ref(p, 0), p.code) !in b.invoices
    ensures p != q ==> Ref(p, 0) != Ref(q, 0) || p.code != q.code
  {
    var done, results := CommittedRows(b, file, place), Listed(b, file, place);
    CommittedIsSolution(b, file, place);
    ListedLists(b, file, place);
    CommittedIff(b, file, place, p);
    CommittedIff(b, file, place, q);
    if p != q {
      OnePrecedes(results, Candidates(b, file), p, q);
      assert Precedes(results, p, q) ==> p in Earlier(results, done, q);
      assert Precedes(results, q, p) ==> q in Earlier(results, done, p);
    }
  }

  // ---------- How the import ends ----------

  /** The row is well-formed and the first with its identity, and it is committed, or unchanged since the last
      import. */
  ghost predicate RowIsSettled(b: Books, file: seq<Row>, place: seq<(nat, nat)>, i: nat)
    requires |place| == |file| && i < |file|
  {
    var r, id := file[i], Ident(file[i].kind, file[i].key);
    && r.wellFormed && (forall j | 0 <= j < i :: Ident(file[j].kind, file[j].key) != id)
    && (r in CommittedRows(b, file, place) || (id in b.records && b.records[id].hash == r.hash))
  }

  /** A row of the commit's order ends as committed or unchanged exactly when it was unchanged or is admitted. */
  lemma EndsSettledIff(b: Books, results: seq<Result>, i: nat)
    requires UniquePending(results) && i < |results| && results[i].action != Committed
    ensures Decide(Pass(b, results[..i]), results[i]) in {Committed, Unchanged}
            <==> results[i].action == Unchanged || (Pending(results[i]) && results[i].row in Admitted(b, results))
    ensures Decide(Pass(b, results[..i]), results[i]) !in {Insert, Update}
  {
    if Pending(results[i]) {
      PassOfNext(b, results, i);
      EarlierIdsDiffer(b, results, i);
      AdmittedSplits(b, results, i + 1);
      assert results[i].row !in Admitted(b, results[..i]);
    }
  }

  predicate ResultIsSettled(b: Books, listed: seq<Result>, x: Result) {
    x.action == Unchanged || (Pending(x) && x.row in Admitted(b, listed))
  }

  lemma FailuresAreUnsettled(b: Books, listed: seq<Result>, now: Books, results: seq<Result>)
    requires UniquePending(listed) && DecidedUpTo(b, listed, now, results, |results|)
    requires forall i | 0 <= i < |listed| :: listed[i].action != Committed
    ensures !HasFailures(results) <==> forall x | x in listed :: ResultIsSettled(b, listed, x)
  {
    assert forall i | 0 <= i < |listed| :: listed[i] in listed;
    forall i | 0 <= i < |results|
      ensures results[i].action !in {Error, Conflict} <==> ResultIsSettled(b, listed, listed[i])
    {
      EndsSettledIff(b, listed, i);
    }
  }

  lemma RowSettledIff(b: Books, file: seq<Row>, place: seq<(nat, nat)>, i: nat)
    requires |place| == |file| && i < |file|
    ensures ResultIsSettled(b, Listed(b, file, place), PreviewResults(b, file, place)[i])
            <==> RowIsSettled(b, file, place, i)
  {
    CommittedIsSolution(b, file, place);
    assert Seen(file[..i], Id(file[i])) <==> exists j | 0 <= j < i :: Id(file[j]) == Id(file[i]) by {
      assert forall j | 0 <= j < i :: file[..i][j] == file[j] && file[j] in file[..i];
    }
    if file[i] in CommittedRows(b, file, place) {
      CandidateIff(b, file, file[i]);
    }
  }

  lemma ListedFacts(b: Books, file: seq<Row>, place: seq<(nat, nat)>)
    requires |place| == |file|
    ensures var previewed, listed := PreviewResults(b, file, place), Listed(b, file, place);
            && UniquePending(listed)
            && (forall x :: x in listed <==> x in previewed)
            && forall i | 0 <= i < |listed| :: listed[i].action != Committed
  {
    var previewed, listed := PreviewResults(b, file, place), Listed(b, file, place);
    PreviewMarksTheCandidates(b, file, place);
    SortedKeeps(previewed);
    assert forall i | 0 <= i < |listed| :: listed[i] in previewed;
  }

  lemma SettledAlike(b: Books, listed: seq<Result>, previewed: seq<Result>)
    requires forall x :: x in listed <==> x in previewed
    ensures (forall x | x in listed :: ResultIsSettled(b, listed, x))
            <==> forall i | 0 <= i < |previewed| :: ResultIsSettled(b, listed, previewed[i])
  {
    assert forall i | 0 <= i < |previewed| :: previewed[i] in listed;
  }

  /** An import ends without errors exactly when every row of its file is settled: a refused row, a conflict, a
      malformed row and a repeated identity all show in its status. */
  lemma CompletesIff(b: Books, file: seq<Row>, place: seq<(nat, nat)>, now: Books, results: seq<Result>)
    requires |place| == |file| && DecidedUpTo(b, Listed(b, file, place), now, results, |results|)
    ensures !HasFailures(results) <==> forall i | 0 <= i < |file| :: RowIsSettled(b, file, place, i)
  {
    ListedFacts(b, file, place);
    FailuresAreUnsettled(b, Listed(b, file, place), now, results);
    SettledAlike(b, Listed(b, file, place), PreviewResults(b, file, place));
    forall i | 0 <= i < |file|
      ensures ResultIsSettled(b, Listed(b, file, place), PreviewResults(b, file, place)[i])
              <==> RowIsSettled(b, file, place, i)
    {
      RowSettledIff(b, file, place, i);
    }
  }
}
