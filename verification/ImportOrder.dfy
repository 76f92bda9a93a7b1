/** When the order of sheets and rows in an import file decides what is committed. */
module ImportOrder {
  import opened Wrappers
  import opened ImportCommit
  import opened ImportFixpoint

  predicate SameRows(f: seq<Row>, g: seq<Row>) {
    (forall r | r in f :: r in g) && (forall r | r in g :: r in f)
  }

  /** Some books let this row be committed. */
  predicate Committable(r: Row) {
    && r.wellFormed && r.admissible
    && (forall i | 0 <= i < |Refers(r.kind)| :: Ref(r, i) != "")
    && (r.kind == ReportingLine ==> Ref(r, 0) != Ref(r, 1))
  }

  /** Different rows of one identity, of which the first hides the other. */
  predicate SameIdentity(p: Row, q: Row) {
    p != q && Id(p) == Id(q)
  }

  /** Invoice rows under different keys with one supplier and number, of which the first takes the number. */
  predicate SameNumber(p: Row, q: Row) {
    p.kind == q.kind == SupplierInvoice && p.key != q.key && Number(p) == Number(q)
  }

  predicate NoContestedRow(file: seq<Row>) {
    forall p, q | p in file && q in file && SameIdentity(p, q) :: !Committable(p)
  }

  predicate NoContestedNumber(file: seq<Row>) {
    forall p, q | p in file && q in file && SameNumber(p, q) :: !(Committable(p) && Committable(q))
  }

  lemma {:induction false} FirstIsInFile(file: seq<Row>, r: Row)
    requires r in file
    ensures First(file, Id(r)).Some? && First(file, Id(r)).value in file && Id(First(file, Id(r)).value) == Id(r)
  {
    if Id(file[0]) != Id(r) {
      FirstIsInFile(file[1..], r);
    }
  }

  lemma ResolvedIsCommittable(b: Books, s: set<Row>, r: Row)
    requires r.wellFormed && r.admissible && Resolves(b, s, r)
    requires forall p, q | p in s && q in s :: !SameIdentity(p, q)
    ensures Committable(r)
  {
    forall i | 0 <= i < |Refers(r.kind)| ensures Ref(r, i) != "" {
      assert Supplied(b, s, RefId(r, i));
    }
    if r.kind == ReportingLine {
      var x, y :| SuppliesOrigin(b, s, RefId(r, 0), x) && SuppliesOrigin(b, s, RefId(r, 1), y) && x != y;
    }
  }

  lemma SolutionIsCommittable(b: Books, file: seq<Row>, results: seq<Result>, s: set<Row>, r: Row)
    requires IsSolution(b, Candidates(b, file), results, s) && r in s
    ensures Committable(r) && r in file
  {
    forall p, q | p in s && q in s ensures !SameIdentity(p, q) {
      assert First(file, Id(p)) == Some(p) && First(file, Id(q)) == Some(q);
    }
    ResolvedIsCommittable(b, s, r);
  }

  /** A committed row of one order is committed in another, if all rows of lower rank are. */
  lemma RowCarriesOver(
    b: Books, f: seq<Row>, fs: seq<Result>, s: set<Row>, g: seq<Row>, gs: seq<Result>, t: set<Row>, r: Row)
    requires SameRows(f, g) && NoContestedRow(f) && NoContestedNumber(f)
    requires IsSolution(b, Candidates(b, f), fs, s) && IsSolution(b, Candidates(b, g), gs, t)
    requires UniquePending(gs) && AgreeBelow(s, t, EntityOrder(r.kind)) && r in s
    ensures r in t
  {
    SolutionIsCommittable(b, f, fs, s, r);
    ResolvesAlike(b, s, t, r);
    FirstIsInFile(g, r);
    assert !SameIdentity(r, First(g, Id(r)).value);
    assert r in Candidates(b, g);
    forall q | q in Earlier(gs, t, r) && IsNewInvoice(b, q) && Number(q) == Number(r)
      ensures r.kind != SupplierInvoice
    {
      SolutionIsCommittable(b, g, gs, t, q);
      assert !SameIdentity(q, r) && !SameNumber(q, r);
      assert q != r by {
        var i, j :| 0 <= i < j < |gs| && Pending(gs[i]) && Pending(gs[j]) && gs[i].row == q && gs[j].row == r;
      }
    }
  }

  lemma {:induction false} OrdersAgreeBelow(
    b: Books, f: seq<Row>, fs: seq<Result>, s: set<Row>, g: seq<Row>, gs: seq<Result>, t: set<Row>, rank: int)
    requires SameRows(f, g) && NoContestedRow(f) && NoContestedNumber(f)
    requires IsSolution(b, Candidates(b, f), fs, s) && IsSolution(b, Candidates(b, g), gs, t)
    requires UniquePending(fs) && UniquePending(gs)
    ensures AgreeBelow(s, t, rank)
    decreases rank + 4
  {
    if rank > -4 {
      OrdersAgreeBelow(b, f, fs, s, g, gs, t, rank - 1);
      forall q | q in s && EntityOrder(q.kind) < rank ensures q in t {
        if EntityOrder(q.kind) == rank - 1 {
          RowCarriesOver(b, f, fs, s, g, gs, t, q);
        }
      }
      forall q | q in t && EntityOrder(q.kind) < rank ensures q in s {
        if EntityOrder(q.kind) == rank - 1 {
          assert NoContestedRow(g) && NoContestedNumber(g);
          RowCarriesOver(b, g, gs, t, f, fs, s, q);
        }
      }
    }
  }

  /** Without contested rows and numbers, order, placement and repetition of the rows do not matter. */
  lemma ReorderingCommitsTheSame(
    b: Books, f: seq<Row>, pf: seq<(nat, nat)>, g: seq<Row>, pg: seq<(nat, nat)>)
    requires |pf| == |f| && |pg| == |g| && SameRows(f, g) && NoContestedRow(f) && NoContestedNumber(f)
    ensures CommittedRows(b, g, pg) == CommittedRows(b, f, pf)
  {
    CommittedIsSolution(b, f, pf);
    CommittedIsSolution(b, g, pg);
    OrdersAgreeBelow(b, f, Listed(b, f, pf), CommittedRows(b, f, pf), g, Listed(b, g, pg), CommittedRows(b, g, pg), 11);
    AgreeingIsEqual(CommittedRows(b, f, pf), CommittedRows(b, g, pg));
  }

  lemma AgreeingIsEqual(s: set<Row>, t: set<Row>)
    requires AgreeBelow(s, t, 11)
    ensures s == t
  {
    assert forall q: Row :: EntityOrder(q.kind) < 11;
  }

  // ---------- Contested rows and numbers ----------

  /** The file with one of its rows moved to the front. */
  function ToFront(f: seq<Row>, i: nat): seq<Row>
    requires i < |f|
  {
    [f[i]] + f[..i] + f[i + 1..]
  }

  lemma ToFrontReorders(f: seq<Row>, i: nat)
    requires i < |f|
    ensures |ToFront(f, i)| == |f| && multiset(ToFront(f, i)) == multiset(f)
  {
    assert f == f[..i] + [f[i]] + f[i + 1..];
  }

  /** All rows in file order. */
  function InFileOrder(n: nat): seq<(nat, nat)> {
    seq(n, i => (0, i))
  }

  /** Books in which every reference of two committable rows resolves, and nothing else is stored. */
  function Welcoming(p: Row, q: Row): Books {
    Books(WelcomingRecords(p) + WelcomingRecords(q), map[], {p.code, q.code}, {})
  }

  function WelcomingRecords(r: Row): map<Ident, Record> {
    var kinds := Refers(r.kind);
    if |kinds| == 0 then map[]
    else if |kinds| == 1 then map[RefId(r, 0) := Record("", "", true, true)]
    else map[RefId(r, 0) := Record("", "", true, true),
             RefId(r, 1) := Record("", if r.kind == SupplierInvoice then Ref(r, 0)
                                       else if r.kind == ReportingLine then "manager" else "", true, true)]
  }

  lemma WelcomingResolves(p: Row, q: Row, s: set<Row>)
    requires Committable(p) && (p == q || SameNumber(p, q))
    ensures Id(p) !in Welcoming(p, q).records && Id(q) !in Welcoming(p, q).records
    ensures Resolves(Welcoming(p, q), s, p)
  {
    var b := Welcoming(p, q);
    forall i | 0 <= i < |Refers(p.kind)| ensures Alive(b, RefId(p, i)) {
      assert i == 0 || i == 1;
    }
    if p.kind == SupplierInvoiceLine {
      assert SuppliesOrigin(b, s, RefId(p, 0), "") && SuppliesOrigin(b, s, RefId(p, 1), "");
    } else if p.kind == ReportingLine {
      assert SuppliesOrigin(b, s, RefId(p, 0), "") && SuppliesOrigin(b, s, RefId(p, 1), "manager");
    }
  }

  /** In file order, nothing of its kind precedes the first row of the file. */
  lemma FirstRowPrecedes(b: Books, file: seq<Row>, q: Row)
    requires file != [] && file[0] in Candidates(b, file) && q in Candidates(b, file)
    requires q.kind == file[0].kind
    ensures var results := Listed(b, file, InFileOrder(|file|));
            !Precedes(results, q, file[0]) && (q != file[0] ==> Precedes(results, file[0], q))
  {
    var place := InFileOrder(|file|);
    var previewed, results := PreviewResults(b, file, place), Listed(b, file, place);
    ListedLists(b, file, place);
    PreviewMarksTheCandidates(b, file, place);
    SortedKeeps(previewed);
    var i :| 0 <= i < |results| && Pending(results[i]) && results[i].row == file[0];
    var j :| 0 <= j < |results| && Pending(results[j]) && results[j].row == q;
    PlaceOfRow(b, file, results[i]);
    PlaceOfRow(b, file, results[j]);
    assert i <= j;
  }

  lemma PlaceOfRow(b: Books, file: seq<Row>, x: Result)
    requires file != [] && x in PreviewResults(b, file, InFileOrder(|file|)) && Pending(x)
    ensures x.sheet == 0 && (x.number == 0 <==> x.row == file[0])
  {
    var k :| 0 <= k < |file| && x == PreviewResults(b, file, InFileOrder(|file|))[k];
    if k > 0 {
      assert file[..k][0] == file[0];
    }
  }

  lemma FrontIsCommitted(b: Books, file: seq<Row>)
    requires file != [] && file[0] in Candidates(b, file) && file[0].admissible && b.invoices == {}
    requires Resolves(b, CommittedRows(b, file, InFileOrder(|file|)), file[0])
    ensures file[0] in CommittedRows(b, file, InFileOrder(|file|))
  {
    var place, r := InFileOrder(|file|), file[0];
    var done, results := CommittedRows(b, file, place), Listed(b, file, place);
    CommittedIsSolution(b, file, place);
    forall q | q in Earlier(results, done, r) && q.kind == r.kind ensures false {
      FirstRowPrecedes(b, file, q);
    }
  }

  /** One of two contested rows at the front of the file is committed. */
  lemma FrontRowWins(f: seq<Row>, i: nat, p: Row, q: Row)
    requires i < |f| && f[i] == p && Committable(p) && (p == q || SameNumber(p, q))
    ensures var g := ToFront(f, i); p in CommittedRows(Welcoming(p, q), g, InFileOrder(|g|))
    ensures var g := ToFront(f, i); p in CommittedRows(Welcoming(q, p), g, InFileOrder(|g|))
  {
    var g := ToFront(f, i);
    assert g[0] == p && First(g, Id(p)) == Some(p);
    forall b | b == Welcoming(p, q) || b == Welcoming(q, p) ensures p in CommittedRows(b, g, InFileOrder(|g|)) {
      WelcomingResolves(p, q, CommittedRows(b, g, InFileOrder(|g|)));
      FrontIsCommitted(b, g);
    }
  }

  /** Books and two orders of the same file, such that a row is committed in the first order only. */
  lemma ContestedDecidesByOrder(f: seq<Row>, i: nat, j: nat) returns (b: Books)
    requires i < |f| && j < |f| && Committable(f[i])
    requires SameIdentity(f[i], f[j]) || (SameNumber(f[i], f[j]) && Committable(f[j]))
    ensures f[i] in CommittedRows(b, ToFront(f, i), InFileOrder(|f|))
    ensures f[i] !in CommittedRows(b, ToFront(f, j), InFileOrder(|f|))
  {
    var p, q := f[i], f[j];
    ToFrontReorders(f, i);
    ToFrontReorders(f, j);
    var losing := ToFront(f, j);
    assert losing[0] == q;
    if SameIdentity(p, q) {
      b := Welcoming(p, p);
      FrontRowWins(f, i, p, p);
      CommittedIsSolution(b, losing, InFileOrder(|f|));
      assert First(losing, Id(p)) == Some(q);
    } else {
      b := Welcoming(p, q);
      FrontRowWins(f, i, p, q);
      FrontRowWins(f, j, q, p);
      WelcomingResolves(p, q, {});
      NumberGoesToTheFirst(b, losing, p);
    }
  }

  lemma NumberGoesToTheFirst(b: Books, file: seq<Row>, p: Row)
    requires file != [] && SameNumber(p, file[0]) && !Alive(b, Id(p)) && !Alive(b, Id(file[0]))
    requires file[0] in CommittedRows(b, file, InFileOrder(|file|))
    ensures p !in CommittedRows(b, file, InFileOrder(|file|))
  {
    var place := InFileOrder(|file|);
    var done, results := CommittedRows(b, file, place), Listed(b, file, place);
    CommittedIsSolution(b, file, place);
    if p in Candidates(b, file) {
      FirstRowPrecedes(b, file, p);
      assert file[0] in Earlier(results, done, p);
    }
  }

  predicate Reordered(f: seq<Row>, pf: seq<(nat, nat)>, g: seq<Row>, pg: seq<(nat, nat)>) {
    multiset(g) == multiset(f) && |pg| == |g| && |pf| == |f|
  }

  /** The committed rows are the same for all books and every order and placement of the rows. */
  ghost predicate OrderIsIrrelevant(f: seq<Row>, pf: seq<(nat, nat)>)
    requires |pf| == |f|
  {
    forall b, g, pg | Reordered(f, pf, g, pg) :: CommittedRows(b, g, pg) == CommittedRows(b, f, pf)
  }

  lemma ContestedBreaksOrder(f: seq<Row>, pf: seq<(nat, nat)>, i: nat, j: nat)
    requires |pf| == |f| && i < |f| && j < |f| && Committable(f[i])
    requires SameIdentity(f[i], f[j]) || (SameNumber(f[i], f[j]) && Committable(f[j]))
    ensures !OrderIsIrrelevant(f, pf)
  {
    var b := ContestedDecidesByOrder(f, i, j);
    var winning, losing, place := ToFront(f, i), ToFront(f, j), InFileOrder(|f|);
    ToFrontReorders(f, i);
    ToFrontReorders(f, j);
    assert Reordered(f, pf, winning, place) && Reordered(f, pf, losing, place);
    if CommittedRows(b, winning, place) == CommittedRows(b, f, pf) {
      assert CommittedRows(b, losing, place) != CommittedRows(b, f, pf);
    }
  }

  lemma ReorderedHasSameRows(f: seq<Row>, g: seq<Row>)
    requires multiset(g) == multiset(f)
    ensures SameRows(f, g)
  {
    forall r ensures r in f <==> r in g {
      assert r in multiset(f) <==> r in multiset(g);
    }
  }

  /** Order is irrelevant exactly when no committable row shares its identity with a different row of the file and no
      two committable invoices under different keys share supplier and number. */
  lemma OrderIsIrrelevantIff(f: seq<Row>, pf: seq<(nat, nat)>)
    requires |pf| == |f|
    ensures OrderIsIrrelevant(f, pf) <==> NoContestedRow(f) && NoContestedNumber(f)
  {
    if NoContestedRow(f) && NoContestedNumber(f) {
      forall b, g, pg | Reordered(f, pf, g, pg) ensures CommittedRows(b, g, pg) == CommittedRows(b, f, pf) {
        ReorderedHasSameRows(f, g);
        ReorderingCommitsTheSame(b, f, pf, g, pg);
      }
    } else {
      var p, q :| p in f && q in f && Committable(p)
                  && (SameIdentity(p, q) || (SameNumber(p, q) && Committable(q)));
      var i :| 0 <= i < |f| && f[i] == p;
      var j :| 0 <= j < |f| && f[j] == q;
      ContestedBreaksOrder(f, pf, i, j);
    }
  }
}
