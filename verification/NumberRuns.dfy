/** When the business numbers issued over a whole run, to all plants and prefixes, are pairwise distinct. */
module NumberRuns {
  import opened BusinessNumbers
  import D = Decimal

  function Printed(i: Issue): string {
    Format(i.scope, i.value)
  }

  predicate SameStem(k: Scope, l: Scope) {
    k.prefix == l.prefix && k.year == l.year
  }

  // ---------- A number tells its prefix, year and value ----------

  /** What stands before the last hyphen. */
  function BeforeSuffix(s: string): string {
    if |s| <= |Suffix(s)| then "" else s[..|s| - |Suffix(s)| - 1]
  }

  lemma LastPartOf(front: string, digits: string)
    requires D.AllDigits(digits)
    ensures Suffix(front + "-" + digits) == digits && BeforeSuffix(front + "-" + digits) == front
  {
    SuffixOfStemmed(front, digits);
    assert (front + "-" + digits)[..|front|] == front;
  }

  /** Numbers are equal only for the same prefix, year and value. */
  lemma PrintedTells(a: Issue, b: Issue)
    ensures Printed(a) == Printed(b) <==> SameStem(a.scope, b.scope) && a.value == b.value
  {
    NumberParts(a);
    NumberParts(b);
    if Printed(a) == Printed(b) {
      D.PaddedIsInjective(a.value, b.value, WIDTH);
      D.PrintIsNumber(a.scope.year);
      D.PrintIsNumber(b.scope.year);
    }
  }

  lemma NumberParts(i: Issue)
    ensures Suffix(Printed(i)) == D.Padded(i.value, WIDTH)
    ensures Suffix(BeforeSuffix(Printed(i))) == D.Print(i.scope.year)
    ensures BeforeSuffix(BeforeSuffix(Printed(i))) == i.scope.prefix
  {
    var k := i.scope;
    var front := k.prefix + "-" + D.Print(k.year);
    D.PaddedReadsBack(i.value, WIDTH);
    D.PrintIsNumber(k.year);
    assert Printed(i) == front + "-" + D.Padded(i.value, WIDTH);
    LastPartOf(front, D.Padded(i.value, WIDTH));
    LastPartOf(k.prefix, D.Print(k.year));
  }

  // ---------- When an allocation repeats an issued number ----------

  /** The issued number is not stored, not behind the plant's counter, and no value before it is free for the plant. */
  ghost predicate Meets(t: Tables, l: Scope, issued: Issue) {
    && SameStem(issued.scope, l) && issued.scope != l
    && Printed(issued) !in Used(t.rows)
    && issued.value >= Start(t, l)
    && forall v | Start(t, l) <= v < issued.value :: Format(l, v) in Used(t.rows)
  }

  /** Every issued number is behind the counter of its own scope. */
  ghost predicate Tracks(t: Tables, issued: seq<Issue>) {
    forall i | 0 <= i < |issued| ::
      issued[i].scope in t.sequences && t.sequences[issued[i].scope] > issued[i].value
  }

  /** The next allocation repeats an issued number exactly when it meets it. */
  lemma AllocationRepeatsIff(t: Tables, l: Scope, issued: seq<Issue>, i: nat)
    requires Tracks(t, issued) && i < |issued|
    ensures Printed(Issue(l, AllocatedValue(t, l))) == Printed(issued[i]) <==> Meets(t, l, issued[i])
  {
    PrintedTells(Issue(l, AllocatedValue(t, l)), issued[i]);
    AllocationIsFresh(t, l);
    if SameStem(issued[i].scope, l) {
      assert forall v :: Format(issued[i].scope, v) == Format(l, v);
      if Meets(t, l, issued[i]) {
        FreeIsLeastFree(l, Used(t.rows), Start(t, l), issued[i].value);
      }
    }
  }

  // ---------- Runs ----------

  function IssueOf(t: Tables, op: Op): seq<Issue> {
    if op.Allocate? then [Issue(op.scope, AllocatedValue(t, op.scope))] else []
  }

  predicate AllDistinct(issues: seq<Issue>) {
    forall i, j | 0 <= i < j < |issues| :: Printed(issues[i]) != Printed(issues[j])
  }

  /** No allocation of the run meets a number issued before it. */
  ghost predicate NeverMeets(t: Tables, issued: seq<Issue>, ops: seq<Op>)
    decreases |ops|
  {
    ops != [] ==>
      && (ops[0].Allocate? ==> forall i | 0 <= i < |issued| :: !Meets(t, ops[0].scope, issued[i]))
      && NeverMeets(Next(t, ops[0]), issued + IssueOf(t, ops[0]), ops[1..])
  }

  lemma NextTracks(t: Tables, issued: seq<Issue>, op: Op)
    requires Tracks(t, issued)
    ensures Tracks(Next(t, op), issued + IssueOf(t, op))
  {
    if op.Allocate? {
      AllocationIsFresh(t, op.scope);
    }
  }

  lemma StepIsDistinctIff(t: Tables, issued: seq<Issue>, op: Op)
    requires Tracks(t, issued) && AllDistinct(issued)
    ensures AllDistinct(issued + IssueOf(t, op))
            <==> (op.Allocate? ==> forall i | 0 <= i < |issued| :: !Meets(t, op.scope, issued[i]))
  {
    if op.Allocate? {
      var longer := issued + IssueOf(t, op);
      forall i | 0 <= i < |issued|
        ensures Printed(longer[i]) == Printed(longer[|issued|]) <==> Meets(t, op.scope, issued[i])
      {
        AllocationRepeatsIff(t, op.scope, issued, i);
      }
    } else {
      assert issued + IssueOf(t, op) == issued;
    }
  }

  lemma {:induction false} RunIsDistinctIff(t: Tables, issued: seq<Issue>, ops: seq<Op>)
    requires Tracks(t, issued) && AllDistinct(issued)
    ensures AllDistinct(issued + Issues(t, ops)) <==> NeverMeets(t, issued, ops)
    decreases |ops|
  {
    if ops == [] {
      assert issued + Issues(t, ops) == issued;
    } else {
      var longer := issued + IssueOf(t, ops[0]);
      var rest := Issues(Next(t, ops[0]), ops[1..]);
      assert issued + Issues(t, ops) == longer + rest;
      StepIsDistinctIff(t, issued, ops[0]);
      NextTracks(t, issued, ops[0]);
      if AllDistinct(longer) {
        RunIsDistinctIff(Next(t, ops[0]), longer, ops[1..]);
      } else {
        PrefixIsNotDistinct(longer, rest);
      }
    }
  }

  lemma PrefixIsNotDistinct(a: seq<Issue>, b: seq<Issue>)
    requires !AllDistinct(a)
    ensures !AllDistinct(a + b)
  {
    var i, j :| 0 <= i < j < |a| && Printed(a[i]) == Printed(a[j]);
    assert (a + b)[i] == a[i] && (a + b)[j] == a[j];
  }

  /** Over any run of allocations for any plants, prefixes and years, with any rows stored in between, the numbers are
      pairwise distinct exactly when no allocation meets a number issued before it. */
  lemma NumbersAreDistinctIff(t: Tables, ops: seq<Op>)
    ensures AllDistinct(Issues(t, ops)) <==> NeverMeets(t, [], ops)
  {
    RunIsDistinctIff(t, [], ops);
    assert [] + Issues(t, ops) == Issues(t, ops);
  }

  /** Storing every number before the next allocation is enough. */
  predicate StoresEach(t: Tables, ops: seq<Op>)
    decreases |ops|
  {
    ops != [] ==>
      if ops[0].Store? then StoresEach(Next(t, ops[0]), ops[1..])
      else
        var number := Printed(Issue(ops[0].scope, AllocatedValue(t, ops[0].scope)));
        var t' := Next(t, ops[0]);
        |ops| == 1
        || (ops[1].Store? && ops[1].row.number == number && StoresEach(Next(t', ops[1]), ops[2..]))
  }

  lemma {:induction false} StoredNumbersAreDistinct(t: Tables, issued: seq<Issue>, ops: seq<Op>)
    requires StoresEach(t, ops) && forall i | 0 <= i < |issued| :: Printed(issued[i]) in Used(t.rows)
    ensures NeverMeets(t, issued, ops)
    decreases |ops|
  {
    if ops != [] {
      var t', longer := Next(t, ops[0]), issued + IssueOf(t, ops[0]);
      if ops[0].Store? {
        assert longer == issued;
        UsedGrows(t, ops[0].row);
        StoredNumbersAreDistinct(t', issued, ops[1..]);
      } else if |ops| > 1 {
        UsedGrows(t', ops[1].row);
        assert ops[1..][0] == ops[1] && ops[1..][1..] == ops[2..];
        assert longer + IssueOf(t', ops[1]) == longer;
        StoredNumbersAreDistinct(Next(t', ops[1]), longer, ops[2..]);
      }
    }
  }

  lemma UsedGrows(t: Tables, row: NumberRow)
    ensures Used(Next(t, Store(row)).rows) == Used(t.rows) + {row.number}
  {
    var rows := Next(t, Store(row)).rows;
    assert row in rows;
    assert forall r | r in t.rows :: r in rows;
  }
}
