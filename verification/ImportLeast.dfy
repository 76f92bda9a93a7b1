/** When an import commits the least set of rows whose references resolve to stored entities or to committed rows. */
module ImportLeast {
  import opened Wrappers
  import opened ImportCommit
  import opened ImportFixpoint
  import opened ImportOrder

  // ---------- The promise, in which nothing that resolves ever stops resolving ----------

  /** An item carries the code before the import, or a row of `s` gives it one that does. */
  predicate CodeKnown(b: Books, s: set<Row>, code: string) {
    HasCode(b, code) || exists q | q in s :: q.kind == Item && q.code == code
  }

  ghost predicate Reaches(b: Books, s: set<Row>, r: Row) {
    if r.kind == PurchaseRequirement then CodeKnown(b, s, r.code) else Resolves(b, s, r)
  }

  /** `s` has every admissible candidate whose references resolve to stored entities or to rows of `s`, and whose
      invoice number was not stored before. */
  ghost predicate ClosedAsPromised(b: Books, candidates: set<Row>, s: set<Row>) {
    forall r | r in candidates && r.admissible && Reaches(b, s, r) && !NumberTaken(b, {}, r) :: r in s
  }

  ghost predicate IsLeast(b: Books, candidates: set<Row>, s: set<Row>) {
    ClosedAsPromised(b, candidates, s) && forall t | ClosedAsPromised(b, candidates, t) :: s <= t
  }

  /** The row would be committed but for a number that a row before it in the pass has taken. */
  ghost predicate RefusedForNumber(b: Books, results: seq<Result>, done: set<Row>, r: Row) {
    && r.admissible && Resolves(b, done, r) && !NumberTaken(b, {}, r)
    && NumberTaken(b, Earlier(results, done, r), r)
  }

  /** The requirement would be committed but for item rows of the pass that took its code away. */
  ghost predicate RefusedForRename(b: Books, done: set<Row>, r: Row) {
    r.kind == PurchaseRequirement && r.admissible && HasCode(b, r.code) && !CodeSupplied(b, done, r.code)
  }

  /** A solution of the commit's rule is contained in every set closed as promised. */
  lemma {:induction false} SolutionIsContained(
    b: Books, candidates: set<Row>, results: seq<Result>, s: set<Row>, t: set<Row>, rank: int)
    requires IsSolution(b, candidates, results, s) && ClosedAsPromised(b, candidates, t)
    ensures forall q | q in s && EntityOrder(q.kind) < rank :: q in t
    decreases rank + 4
  {
    if rank > -4 {
      SolutionIsContained(b, candidates, results, s, t, rank - 1);
      forall q | q in s && EntityOrder(q.kind) == rank - 1 ensures q in t {
        RowIsContained(b, candidates, results, s, t, q);
      }
    }
  }

  lemma RowIsContained(
    b: Books, candidates: set<Row>, results: seq<Result>, s: set<Row>, t: set<Row>, r: Row)
    requires IsSolution(b, candidates, results, s) && ClosedAsPromised(b, candidates, t) && r in s
    requires forall q | q in s && EntityOrder(q.kind) < EntityOrder(r.kind) :: q in t
    ensures r in t
  {
    assert Accepts(b, s, Earlier(results, s, r), r);
    if r.kind == PurchaseRequirement {
      if k :| k in b.itemCodes && b.itemCodes[k] == r.code && !Touched(s, Ident(Item, k)) {
        assert HasCode(b, r.code);
      }
    } else {
      ResolvesCarriesOver(b, s, t, r);
    }
  }

  /** The committed rows are the least set exactly when no row is refused for a number taken earlier in the pass and no
      requirement is refused for a renamed item. */
  lemma CommitsTheLeastSetIff(b: Books, file: seq<Row>, place: seq<(nat, nat)>)
    requires |place| == |file|
    ensures var done, candidates, results := CommittedRows(b, file, place), Candidates(b, file), Listed(b, file, place);
            IsLeast(b, candidates, done)
            <==> forall r | r in candidates ::
                   !RefusedForNumber(b, results, done, r) && !RefusedForRename(b, done, r)
  {
    var done, candidates, results := CommittedRows(b, file, place), Candidates(b, file), Listed(b, file, place);
    CommittedIsSolution(b, file, place);
    SolutionIsLeastIff(b, candidates, results, done);
  }

  lemma SolutionIsLeastIff(b: Books, candidates: set<Row>, results: seq<Result>, done: set<Row>)
    requires IsSolution(b, candidates, results, done)
    ensures IsLeast(b, candidates, done)
            <==> forall r | r in candidates ::
                   !RefusedForNumber(b, results, done, r) && !RefusedForRename(b, done, r)
  {
    forall t | ClosedAsPromised(b, candidates, t) ensures done <= t {
      SolutionIsContained(b, candidates, results, done, t, 11);
      assert forall q: Row :: EntityOrder(q.kind) < 11;
    }
    forall r | r in candidates
      ensures r !in done && r.admissible && Reaches(b, done, r) && !NumberTaken(b, {}, r)
              <==> RefusedForNumber(b, results, done, r) || RefusedForRename(b, done, r)
    {
      RefusedIff(b, candidates, results, done, r);
    }
  }

  lemma RefusedIff(b: Books, candidates: set<Row>, results: seq<Result>, done: set<Row>, r: Row)
    requires IsSolution(b, candidates, results, done) && r in candidates
    ensures r !in done && r.admissible && Reaches(b, done, r) && !NumberTaken(b, {}, r)
            <==> RefusedForNumber(b, results, done, r) || RefusedForRename(b, done, r)
  {
    assert r in done <==> Accepts(b, done, Earlier(results, done, r), r);
    if r.kind == PurchaseRequirement {
      CodeOfSet(b, done, r.code);
    }
  }

  /** What is supplied after renaming was known before, or is new. */
  lemma CodeOfSet(b: Books, s: set<Row>, code: string)
    ensures CodeSupplied(b, s, code) ==> CodeKnown(b, s, code)
    ensures CodeKnown(b, s, code) && !CodeSupplied(b, s, code) ==> HasCode(b, code)
  {
    if k :| k in b.itemCodes && b.itemCodes[k] == code && !Touched(s, Ident(Item, k)) {
      assert HasCode(b, code);
    }
  }

  // ---------- Which files keep the promise for all books ----------

  /** A row that preview does not hide behind an earlier one, and that some books let be committed. */
  predicate MayCommit(file: seq<Row>, r: Row) {
    r in file && First(file, Id(r)) == Some(r) && Committable(r)
  }

  predicate NoSharedNumber(file: seq<Row>) {
    forall p, q | p in file && q in file && SameNumber(p, q) :: !(MayCommit(file, p) && MayCommit(file, q))
  }

  /** No item row can rename an item that a requirement of the file asks for. */
  predicate NoRename(file: seq<Row>) {
    forall q, r | q in file && r in file && q.kind == Item && r.kind == PurchaseRequirement && q.code != r.code ::
      !(MayCommit(file, q) && MayCommit(file, r))
  }

  lemma NoNumberIsTakenEarlier(b: Books, file: seq<Row>, results: seq<Result>, done: set<Row>, r: Row)
    requires IsSolution(b, Candidates(b, file), results, done) && UniquePending(results)
    requires NoSharedNumber(file) && r in Candidates(b, file)
    ensures !RefusedForNumber(b, results, done, r)
  {
    if RefusedForNumber(b, results, done, r) {
      var q :| q in Earlier(results, done, r) && IsNewInvoice(b, q) && Number(q) == Number(r);
      SharersMayCommit(b, file, results, done, q, r);
    }
  }

  lemma SharersMayCommit(b: Books, file: seq<Row>, results: seq<Result>, done: set<Row>, q: Row, r: Row)
    requires IsSolution(b, Candidates(b, file), results, done) && UniquePending(results)
    requires q in done && Precedes(results, q, r) && r in Candidates(b, file) && r.admissible && Resolves(b, done, r)
    requires IsNewInvoice(b, q) && IsNewInvoice(b, r) && Number(q) == Number(r)
    ensures SameNumber(q, r) && MayCommit(file, q) && MayCommit(file, r)
  {
    SolutionIsCommittable(b, file, results, done, q);
    SolutionRowsDiffer(b, file, results, done);
    ResolvedIsCommittable(b, done, r);
    PrecedingDiffers(results, q, r);
  }

  lemma SolutionRowsDiffer(b: Books, file: seq<Row>, results: seq<Result>, s: set<Row>)
    requires IsSolution(b, Candidates(b, file), results, s)
    ensures forall p, q | p in s && q in s :: !SameIdentity(p, q)
  {
    forall p, q | p in s && q in s ensures !SameIdentity(p, q) {
      assert First(file, Id(p)) == Some(p) && First(file, Id(q)) == Some(q);
    }
  }

  lemma PrecedingDiffers(results: seq<Result>, q: Row, r: Row)
    requires UniquePending(results) && Precedes(results, q, r)
    ensures Id(q) != Id(r)
  {
    var i, j :| 0 <= i < j < |results| && Pending(results[i]) && Pending(results[j])
                && results[i].row == q && results[j].row == r;
  }

  lemma NoItemIsRenamed(b: Books, file: seq<Row>, results: seq<Result>, done: set<Row>, r: Row)
    requires IsSolution(b, Candidates(b, file), results, done) && NoRename(file) && r in Candidates(b, file)
    ensures !RefusedForRename(b, done, r)
  {
    if RefusedForRename(b, done, r) {
      var k :| k in b.itemCodes && b.itemCodes[k] == r.code;
      assert Touched(done, Ident(Item, k));
      var q :| q in done && Id(q) == Ident(Item, k);
      SolutionIsCommittable(b, file, results, done, q);
      assert MayCommit(file, q) && MayCommit(file, r);
    }
  }

  /** Two invoice rows under different keys with one supplier and number: in books where both would resolve, the commit
      refuses one, and the committed rows are not the least set. */
  lemma SharedNumberIsNotLeast(file: seq<Row>, place: seq<(nat, nat)>, p: Row, q: Row)
    requires |place| == |file| && SameNumber(p, q) && MayCommit(file, p) && MayCommit(file, q)
    ensures var b := Welcoming(p, q); !IsLeast(b, Candidates(b, file), CommittedRows(b, file, place))
  {
    var b := Welcoming(p, q);
    var done, candidates, results := CommittedRows(b, file, place), Candidates(b, file), Listed(b, file, place);
    CommittedIsSolution(b, file, place);
    ListedLists(b, file, place);
    WelcomingIsSymmetric(p, q);
    WelcomingResolves(p, q, done);
    WelcomingResolves(q, p, done);
    assert p in candidates && q in candidates;
    NotBothAreCommitted(b, candidates, results, done, p, q);
    MissingIsNotClosed(b, candidates, done, p, q);
  }

  lemma MissingIsNotClosed(b: Books, candidates: set<Row>, done: set<Row>, p: Row, q: Row)
    requires p !in done || q !in done
    requires forall r | r == p || r == q ::
               r in candidates && r.kind == SupplierInvoice && r.admissible && Resolves(b, done, r)
               && !NumberTaken(b, {}, r)
    ensures !IsLeast(b, candidates, done)
  {
    assert forall r | r == p || r == q :: Reaches(b, done, r);
  }

  lemma NotBothAreCommitted(b: Books, candidates: set<Row>, results: seq<Result>, done: set<Row>, p: Row, q: Row)
    requires IsSolution(b, candidates, results, done) && Lists(results, candidates)
    requires SameNumber(p, q) && IsNewInvoice(b, p) && IsNewInvoice(b, q) && p in candidates && q in candidates
    ensures p !in done || q !in done
  {
    OnePrecedes(results, candidates, p, q);
    assert p in done && Precedes(results, p, q) ==> p in Earlier(results, done, q);
    assert q in done && Precedes(results, q, p) ==> q in Earlier(results, done, p);
  }

  lemma WelcomingIsSymmetric(p: Row, q: Row)
    requires SameNumber(p, q)
    ensures Welcoming(p, q) == Welcoming(q, p)
  {}

  /** Books in which the item of `q` still carries the code `r` asks for, and every other item row is unchanged. */
  function Renaming(file: seq<Row>, q: Row, r: Row): Books {
    var others := set x | x in file && x.kind == Item && Id(x) != Id(q) :: Id(x);
    Books(map id | id in others :: Record(HashOf(file, id), "", true, true), map[q.key := r.code], {}, {})
  }

  function HashOf(file: seq<Row>, id: Ident): string {
    var first := First(file, id);
    if first.Some? then first.value.hash else ""
  }

  /** An item row renames the item a requirement asks for: the requirement is refused although its code was stored. */
  lemma RenameIsNotLeast(file: seq<Row>, place: seq<(nat, nat)>, q: Row, r: Row)
    requires |place| == |file| && q.kind == Item && r.kind == PurchaseRequirement && q.code != r.code
    requires MayCommit(file, q) && MayCommit(file, r)
    ensures var b := Renaming(file, q, r); !IsLeast(b, Candidates(b, file), CommittedRows(b, file, place))
  {
    var b := Renaming(file, q, r);
    var done, results := CommittedRows(b, file, place), Listed(b, file, place);
    CommittedIsSolution(b, file, place);
    assert q in Candidates(b, file) && r in Candidates(b, file);
    assert Accepts(b, done, Earlier(results, done, q), q);
    assert Touched(done, Ident(Item, q.key));
    forall x | x in done && x.kind == Item ensures x == q {
      OtherItemsAreUnchanged(file, q, r, x);
    }
    assert b.itemCodes[q.key] == r.code;
    assert RefusedForRename(b, done, r);
    CommitsTheLeastSetIff(b, file, place);
  }

  lemma OtherItemsAreUnchanged(file: seq<Row>, q: Row, r: Row, x: Row)
    requires x in Candidates(Renaming(file, q, r), file) && x.kind == Item && First(file, Id(q)) == Some(q)
    ensures x == q
  {
    assert Id(x) != Id(q) ==> Id(x) in Renaming(file, q, r).records;
  }

  /** A file's committed rows are the least set for all books exactly when no two invoice rows that may be committed
      share supplier and number under different keys, and no item row that may be committed differs in code from a
      requirement row that may be. */
  lemma LeastForAllBooksIff(file: seq<Row>, place: seq<(nat, nat)>)
    requires |place| == |file|
    ensures (forall b :: IsLeast(b, Candidates(b, file), CommittedRows(b, file, place)))
            <==> NoSharedNumber(file) && NoRename(file)
  {
    if p, q :| p in file && q in file && SameNumber(p, q) && MayCommit(file, p) && MayCommit(file, q) {
      SharedNumberIsNotLeast(file, place, p, q);
    } else if q, r :| q in file && r in file && q.kind == Item && r.kind == PurchaseRequirement && q.code != r.code
                      && MayCommit(file, q) && MayCommit(file, r) {
      RenameIsNotLeast(file, place, q, r);
    } else {
      forall b ensures IsLeast(b, Candidates(b, file), CommittedRows(b, file, place)) {
        CommitsTheLeastSetIff(b, file, place);
        CommittedIsSolution(b, file, place);
        forall r | r in Candidates(b, file)
          ensures !RefusedForNumber(b, Listed(b, file, place), CommittedRows(b, file, place), r)
          ensures !RefusedForRename(b, CommittedRows(b, file, place), r)
        {
          NoNumberIsTakenEarlier(b, file, Listed(b, file, place), CommittedRows(b, file, place), r);
          NoItemIsRenamed(b, file, Listed(b, file, place), CommittedRows(b, file, place), r);
        }
      }
    }
  }
}
