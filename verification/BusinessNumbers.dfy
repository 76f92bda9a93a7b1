/** Business-number allocation under a per-plant sequence. */
module BusinessNumbers {
  import opened Wrappers
  import D = Decimal

  const WIDTH: nat := 4

  datatype Scope = Scope(tenant: string, plant: string, prefix: string, year: nat)

  /** A number in use. Rows not yet flushed count as used, but the first search for the highest number reads only
      flushed rows. */
  datatype NumberRow = NumberRow(tenant: string, plant: string, number: string, flushed: bool)

  function Stem(k: Scope): string {
    k.prefix + "-" + D.Print(k.year) + "-"
  }

  function Format(k: Scope, value: nat): string {
    Stem(k) + D.Padded(value, WIDTH)
  }

  lemma FormatIsInjective(k: Scope, a: nat, b: nat)
    requires Format(k, a) == Format(k, b)
    ensures a == b
  {
    var n := |Stem(k)|;
    assert Format(k, a)[n..] == D.Padded(a, WIDTH) && Format(k, b)[n..] == D.Padded(b, WIDTH);
    D.PaddedIsInjective(a, b, WIDTH);
  }

  lemma YearReads()
    ensures D.Print(2026) == "2026"
  {
    assert D.Print(2) == "2" && D.Print(20) == "20" && D.Print(202) == "202";
  }

  /** Numbers read like PR-2026-0007, with more digits from ten thousand on. */
  lemma NumbersRead(tenant: string, plant: string)
    ensures Format(Scope(tenant, plant, "PR", 2026), 7) == "PR-2026-0007"
    ensures Format(Scope(tenant, plant, "PR", 2026), 12345) == "PR-2026-12345"
  {
    YearReads();
    ValuesRead();
    assert Stem(Scope(tenant, plant, "PR", 2026)) == "PR-2026-";
  }

  lemma ValuesRead()
    ensures D.Padded(7, WIDTH) == "0007" && D.Padded(12345, WIDTH) == "12345"
  {
    assert D.Print(7) == "7" && D.Zeros(3) == "000";
    assert D.Print(1) == "1" && D.Print(12) == "12" && D.Print(123) == "123" && D.Print(1234) == "1234";
  }

  /** What follows the last hyphen. */
  function Suffix(s: string): string {
    if s == "" || s[|s| - 1] == '-' then "" else Suffix(s[..|s| - 1]) + [s[|s| - 1]]
  }

  function Parse(number: string): Option<nat> {
    if D.IsNumber(Suffix(number)) then Some(D.Read(Suffix(number))) else None
  }

  lemma {:induction false} SuffixOfStemmed(stem: string, digits: string)
    requires D.AllDigits(digits)
    ensures Suffix(stem + "-" + digits) == digits
  {
    var s := stem + "-" + digits;
    if digits != "" {
      assert s[..|s| - 1] == stem + "-" + digits[..|digits| - 1];
      SuffixOfStemmed(stem, digits[..|digits| - 1]);
    }
  }

  /** Parsing inverts formatting. */
  lemma ParseInvertsFormat(k: Scope, value: nat)
    ensures Parse(Format(k, value)) == Some(value)
  {
    var stem := k.prefix + "-" + D.Print(k.year);
    D.PaddedReadsBack(value, WIDTH);
    SuffixOfStemmed(stem, D.Padded(value, WIDTH));
    assert Format(k, value) == stem + "-" + D.Padded(value, WIDTH);
  }

  function Used(rows: seq<NumberRow>): set<string> {
    set r | r in rows :: r.number
  }

  /** Flushed rows of the scope's tenant and plant whose number starts with the stem. */
  predicate Counts(k: Scope, r: NumberRow) {
    r.flushed && r.tenant == k.tenant && r.plant == k.plant && Stem(k) <= r.number
  }

  function Max(a: nat, b: nat): nat {
    if a >= b then a else b
  }

  function Highest(k: Scope, rows: seq<NumberRow>): nat {
    if rows == [] then 0
    else
      var before, last := Highest(k, rows[..|rows| - 1]), rows[|rows| - 1];
      if Counts(k, last) && Parse(last.number).Some? then Max(before, Parse(last.number).value) else before
  }

  /** The first free value at or after `from`; the search removes one used number a step. */
  function LeastFree(k: Scope, used: set<string>, from: nat): (value: nat)
    ensures value >= from
    decreases |used|
  {
    if Format(k, from) !in used then from else LeastFree(k, used - {Format(k, from)}, from + 1)
  }

  lemma {:induction false} LeastFreeIsLeast(k: Scope, used: set<string>, from: nat)
    ensures Format(k, LeastFree(k, used, from)) !in used
    ensures forall v | from <= v < LeastFree(k, used, from) :: Format(k, v) in used
    decreases |used|
  {
    if Format(k, from) in used {
      LeastFreeIsLeast(k, used - {Format(k, from)}, from + 1);
      var value := LeastFree(k, used, from);
      if Format(k, value) == Format(k, from) {
        FormatIsInjective(k, value, from);
      }
    }
  }

  lemma FreeIsLeastFree(k: Scope, used: set<string>, from: nat, value: nat)
    requires value >= from && Format(k, value) !in used
    requires forall v | from <= v < value :: Format(k, v) in used
    ensures value == LeastFree(k, used, from)
  {
    LeastFreeIsLeast(k, used, from);
    var least := LeastFree(k, used, from);
    assert Format(k, least) !in used;
  }

  datatype Tables = Tables(rows: seq<NumberRow>, sequences: map<Scope, nat>)

  function Start(t: Tables, k: Scope): nat {
    if k in t.sequences then t.sequences[k] else Highest(k, t.rows) + 1
  }

  function AllocatedValue(t: Tables, k: Scope): nat {
    LeastFree(k, Used(t.rows), Start(t, k))
  }

  datatype Allocation = Allocated(number: string) | PlantMissing

  class Allocator {
    var rows: seq<NumberRow>
    var sequences: map<Scope, nat>

    function Value(): Tables
      reads this
    {
      Tables(rows, sequences)
    }

    constructor (t: Tables)
      ensures Value() == t
    {
      rows, sequences := t.rows, t.sequences;
    }

    method NextBusinessNumber(k: Scope) returns (a: Allocation)
      modifies `sequences
      ensures k.plant == "" <==> a == PlantMissing
      ensures k.plant == "" ==> sequences == old(sequences)
      ensures k.plant != "" ==>
                var value := AllocatedValue(old(Value()), k);
                && a == Allocated(Format(k, value))
                && sequences == old(sequences)[k := value + 1]
    {
      if k.plant == "" {
        return PlantMissing;
      }
      var value;
      if k !in sequences {
        var highest := 0;
        for i := 0 to |rows|
          invariant highest == Highest(k, rows[..i])
        {
          assert rows[..i + 1][..i] == rows[..i];
          var row := rows[i];
          if Counts(k, row) {
            var parsed := Parse(row.number);
            if parsed.Some? {
              highest := Max(highest, parsed.value);
            }
          }
        }
        assert rows[..|rows|] == rows;
        value := FirstFree(k, highest + 1);
      } else {
        value := FirstFree(k, sequences[k]);
      }
      sequences := sequences[k := value + 1];
      return Allocated(Format(k, value));
    }

    method FirstFree(k: Scope, start: nat) returns (value: nat)
      ensures value == LeastFree(k, Used(rows), start)
    {
      value := start;
      ghost var passed: set<string> := {};
      var exists' := NumberExists(Format(k, value));
      while exists'
        invariant value >= start && exists' == (Format(k, value) in Used(rows))
        invariant forall v | start <= v < value :: Format(k, v) in Used(rows)
        invariant passed == set v | start <= v < value :: Format(k, v)
        decreases Used(rows) - passed, exists'
      {
        if Format(k, value) in passed {
          var v :| start <= v < value && Format(k, v) == Format(k, value);
          FormatIsInjective(k, v, value);
        }
        passed := passed + {Format(k, value)};
        value := value + 1;
        exists' := NumberExists(Format(k, value));
      }
      FreeIsLeastFree(k, Used(rows), start, value);
    }

    method NumberExists(candidate: string) returns (found: bool)
      ensures found <==> candidate in Used(rows)
    {
      for i := 0 to |rows|
        invariant forall j | 0 <= j < i :: rows[j].number != candidate
      {
        if rows[i].number == candidate {
          assert rows[i] in rows;
          return true;
        }
      }
      return false;
    }
  }

  // ---------- Sequences of allocations ----------

  datatype Op = Allocate(scope: Scope) | Store(row: NumberRow)

  datatype Issue = Issue(scope: Scope, value: nat)

  function Next(t: Tables, op: Op): Tables {
    match op
    case Allocate(k) => t.(sequences := t.sequences[k := AllocatedValue(t, k) + 1])
    case Store(row) => t.(rows := t.rows + [row])
  }

  /** The values handed out over a run, in order. */
  function Issues(t: Tables, ops: seq<Op>): seq<Issue>
    decreases |ops|
  {
    if ops == [] then []
    else
      (if ops[0].Allocate? then [Issue(ops[0].scope, AllocatedValue(t, ops[0].scope))] else [])
      + Issues(Next(t, ops[0]), ops[1..])
  }

  /** An allocated number is used nowhere, in no tenant, and is the first such at or after the sequence's value. */
  lemma AllocationIsFresh(t: Tables, k: Scope)
    ensures Format(k, AllocatedValue(t, k)) !in Used(t.rows)
    ensures AllocatedValue(t, k) >= Start(t, k)
    ensures forall v | Start(t, k) <= v < AllocatedValue(t, k) :: Format(k, v) in Used(t.rows)
  {
    LeastFreeIsLeast(k, Used(t.rows), Start(t, k));
  }

  /** The first number of a scope is higher than every number its tables already hold under the same stem. */
  lemma {:induction false} HighestIsHighest(k: Scope, rows: seq<NumberRow>)
    ensures forall r | r in rows && Counts(k, r) && Parse(r.number).Some? :: Parse(r.number).value <= Highest(k, rows)
    ensures Highest(k, rows) > 0 ==>
              exists r :: r in rows && Counts(k, r) && Parse(r.number) == Some(Highest(k, rows))
  {
    if rows != [] {
      HighestIsHighest(k, rows[..|rows| - 1]);
      var before := rows[..|rows| - 1];
      assert forall r | r in rows :: r in before || r == rows[|rows| - 1];
      assert forall r | r in before :: r in rows;
    }
  }

  /** A flushed row of the scope's own tenant and plant. */
  predicate IsOwn(k: Scope, r: NumberRow) {
    r.flushed && r.tenant == k.tenant && r.plant == k.plant
  }

  /** The first number of a plant is one, or behind every number its own flushed rows hold under the prefix and year;
      rows of other tenants and plants, and rows not flushed, do not move it. */
  lemma FirstAllocationStarts(t: Tables, k: Scope)
    requires k !in t.sequences
    ensures forall r, v | r in t.rows && IsOwn(k, r) && r.number == Format(k, v) :: AllocatedValue(t, k) > v
    ensures (forall r | r in t.rows && IsOwn(k, r) :: !(k.prefix + "-" + D.Print(k.year) + "-" <= r.number)) ==>
              Start(t, k) == 1
  {
    HighestIsHighest(k, t.rows);
    AllocationIsFresh(t, k);
    forall r, v | r in t.rows && IsOwn(k, r) && r.number == Format(k, v) ensures AllocatedValue(t, k) > v {
      ParseInvertsFormat(k, v);
      assert Counts(k, r);
    }
  }

  lemma {:induction false} IssuesStayAbove(t: Tables, ops: seq<Op>, k: Scope)
    requires k in t.sequences
    ensures forall i | 0 <= i < |Issues(t, ops)| && Issues(t, ops)[i].scope == k ::
              Issues(t, ops)[i].value >= t.sequences[k]
    decreases |ops|
  {
    if ops != [] {
      IssuesStayAbove(Next(t, ops[0]), ops[1..], k);
      if ops[0].Allocate? {
        AllocationIsFresh(t, ops[0].scope);
      }
    }
  }

  /** Over any run of allocations and arbitrary new rows, the values of one scope increase strictly, so its numbers
      are pairwise distinct even when callers store none of them. */
  lemma {:induction false} IssuesIncrease(t: Tables, ops: seq<Op>)
    ensures forall i, j | 0 <= i < j < |Issues(t, ops)| && Issues(t, ops)[i].scope == Issues(t, ops)[j].scope ::
              && Issues(t, ops)[i].value < Issues(t, ops)[j].value
              && Format(Issues(t, ops)[i].scope, Issues(t, ops)[i].value)
                 != Format(Issues(t, ops)[j].scope, Issues(t, ops)[j].value)
    decreases |ops|
  {
    if ops != [] {
      var rest := Issues(Next(t, ops[0]), ops[1..]);
      IssuesIncrease(Next(t, ops[0]), ops[1..]);
      if ops[0].Allocate? {
        var k := ops[0].scope;
        IssuesStayAbove(Next(t, ops[0]), ops[1..], k);
        forall j | 0 <= j < |rest| && rest[j].scope == k
          ensures AllocatedValue(t, k) < rest[j].value
          ensures Format(k, AllocatedValue(t, k)) != Format(k, rest[j].value)
        {
          if Format(k, AllocatedValue(t, k)) == Format(k, rest[j].value) {
            FormatIsInjective(k, AllocatedValue(t, k), rest[j].value);
          }
        }
      }
    }
  }

  /** Every value from one counter up to the other is in use. */
  ghost predicate NoneFreeBetween(t: Tables, k: Scope, a: nat, c: nat) {
    forall v | a <= v < c || c <= v < a :: Format(k, v) in Used(t.rows)
  }

  /** Two plants that share prefix and year reach the same free value exactly when none is free between their
      counters. */
  lemma SameValueIff(t: Tables, k: Scope, l: Scope)
    requires k.prefix == l.prefix && k.year == l.year
    ensures AllocatedValue(t, k) == AllocatedValue(t, l) <==> NoneFreeBetween(t, k, Start(t, k), Start(t, l))
  {
    assert forall v :: Format(k, v) == Format(l, v);
    AllocationIsFresh(t, k);
    AllocationIsFresh(t, l);
  }

  /** The number does not carry the plant: for two plants, with or without sequence rows of their own, an allocation
      for the second right after one for the first gives the same number exactly when the first has not been stored in
      between and every value between the plants' counters is in use. */
  lemma PlantsCollideIff(k: Scope, l: Scope, t: Tables, stored: bool, flushed: bool)
    requires k.prefix == l.prefix && k.year == l.year && k != l
    ensures var first := Format(k, AllocatedValue(t, k));
            var t1 := Next(t, Allocate(k));
            var t2 := if stored then Next(t1, Store(NumberRow(k.tenant, k.plant, first, flushed))) else t1;
            Format(l, AllocatedValue(t2, l)) == first <==> !stored && NoneFreeBetween(t, k, Start(t, k), Start(t, l))
  {
    var first := Format(k, AllocatedValue(t, k));
    var t1 := Next(t, Allocate(k));
    assert Format(l, AllocatedValue(t, k)) == first;
    SameValueIff(t, k, l);
    if stored {
      var row := NumberRow(k.tenant, k.plant, first, flushed);
      var t2 := Next(t1, Store(row));
      assert row in t2.rows;
      AllocationIsFresh(t2, l);
    } else if Format(l, AllocatedValue(t1, l)) == first {
      FormatIsInjective(l, AllocatedValue(t1, l), AllocatedValue(t, k));
    }
  }
}
