/** Who reports to a member, directly or through others, in a manager graph that may have cycles. */
module ReportingLines {
  import opened Wrappers

  type MemberId = string

  datatype Membership = Membership(id: MemberId, tenant: string, manager: Option<MemberId>, active: bool)

  /** Identifiers are primary keys of the table. */
  predicate DistinctIds(members: seq<Membership>) {
    forall i, j | 0 <= i < j < |members| :: members[i].id != members[j].id
  }

  /** An active member of the tenant whose manager is `manager`. */
  predicate Reports(m: Membership, tenant: string, manager: MemberId) {
    m.tenant == tenant && m.active && m.manager == Some(manager)
  }

  /** The rows of the table whose manager is in the frontier, in table order. */
  function Query(members: seq<Membership>, tenant: string, frontier: seq<MemberId>): seq<Membership> {
    if members == [] then []
    else
      (if members[0].manager.Some? && members[0].manager.value in frontier
          && Reports(members[0], tenant, members[0].manager.value) then [members[0]] else [])
      + Query(members[1..], tenant, frontier)
  }

  function NewIds(rows: seq<Membership>, known: seq<MemberId>): seq<MemberId> {
    if rows == [] then []
    else (if rows[0].id !in known then [rows[0].id] else []) + NewIds(rows[1..], known)
  }

  predicate Distinct(ids: seq<MemberId>) {
    forall i, j | 0 <= i < j < |ids| :: ids[i] != ids[j]
  }

  /** One manager step: `to` is an active member of the tenant who reports to `from`. */
  predicate Step(members: seq<Membership>, tenant: string, from: MemberId, to: MemberId) {
    exists m | m in members :: m.id == to && m.tenant == tenant && m.active && m.manager == Some(from)
  }

  /** A chain of one or more manager steps through active members. */
  predicate IsChain(members: seq<Membership>, tenant: string, chain: seq<MemberId>) {
    |chain| >= 2 && forall k | 0 <= k < |chain| - 1 :: Step(members, tenant, chain[k], chain[k + 1])
  }

  ghost predicate Reachable(members: seq<Membership>, tenant: string, from: MemberId, to: MemberId) {
    exists chain :: IsChain(members, tenant, chain) && chain[0] == from && chain[|chain| - 1] == to
  }

  lemma {:induction false} QuerySelects(members: seq<Membership>, tenant: string, frontier: seq<MemberId>)
    ensures forall m :: m in Query(members, tenant, frontier)
                        <==> m in members && exists x | x in frontier :: Reports(m, tenant, x)
    ensures DistinctIds(members) ==> DistinctIds(Query(members, tenant, frontier))
  {
    if members != [] {
      QuerySelects(members[1..], tenant, frontier);
      var rest := Query(members[1..], tenant, frontier);
      assert forall k | 0 <= k < |rest| :: rest[k] in members[1..] by {
        assert forall k | 0 <= k < |rest| :: rest[k] in rest;
      }
    }
  }

  lemma {:induction false} NewIdsSelects(rows: seq<Membership>, known: seq<MemberId>)
    requires DistinctIds(rows)
    ensures Distinct(NewIds(rows, known))
    ensures forall id :: id in NewIds(rows, known) <==> id !in known && exists m | m in rows :: m.id == id
  {
    if rows != [] {
      NewIdsSelects(rows[1..], known);
      var rest := NewIds(rows[1..], known);
      assert forall id | id in rest :: exists m | m in rows[1..] :: m.id == id;
      assert forall m | m in rows[1..] :: m.id != rows[0].id;
      assert forall k | 0 <= k < |rest| :: rest[k] in rest;
    }
  }

  lemma ExtendReach(members: seq<Membership>, tenant: string, from: MemberId, via: MemberId, to: MemberId)
    requires Step(members, tenant, via, to)
    requires via == from || Reachable(members, tenant, from, via)
    ensures Reachable(members, tenant, from, to)
  {
    if Reachable(members, tenant, from, via) {
      var chain :| IsChain(members, tenant, chain) && chain[0] == from && chain[|chain| - 1] == via;
      var longer := chain + [to];
      assert IsChain(members, tenant, longer);
      assert longer[0] == from && longer[|longer| - 1] == to;
    } else {
      assert IsChain(members, tenant, [from, to]);
      assert [from, to][1] == to;
    }
  }

  /** A set that contains every report of `from` and of its own members contains everything reachable. */
  lemma {:induction false} ClosedContainsChain(
    members: seq<Membership>, tenant: string, from: MemberId, found: seq<MemberId>, chain: seq<MemberId>)
    requires forall x, y | (x == from || x in found) && Step(members, tenant, x, y) :: y in found
    requires IsChain(members, tenant, chain) && chain[0] == from
    ensures chain[|chain| - 1] in found
  {
    var n := |chain|;
    if n > 2 {
      assert IsChain(members, tenant, chain[..n - 1]);
      ClosedContainsChain(members, tenant, from, found, chain[..n - 1]);
    }
    assert Step(members, tenant, chain[n - 2], chain[n - 1]);
  }

  /** The members not found yet. */
  function Left(all: set<MemberId>, found: seq<MemberId>): set<MemberId> {
    set id | id in all && id !in found
  }

  lemma AppendsNew(all: set<MemberId>, known: seq<MemberId>, found: seq<MemberId>)
    requires Distinct(known) && Distinct(found)
    requires forall id | id in found :: id in all && id !in known
    ensures Distinct(known + found)
    ensures if found == [] then Left(all, known + found) == Left(all, known)
            else Left(all, known + found) < Left(all, known)
  {
    if found == [] {
      assert known + found == known;
    } else {
      assert found[0] in Left(all, known) && found[0] in known + found;
    }
    assert forall i | 0 <= i < |found| :: found[i] in found;
    assert forall i | 0 <= i < |known| :: known[i] in known;
  }

  /** Terminates on every graph, cyclic ones included, and returns without duplicates exactly the active members
      reachable in one or more manager steps through active members. */
  method ReportingDescendants(members: seq<Membership>, tenant: string, me: MemberId)
    returns (descendants: seq<MemberId>)
    requires DistinctIds(members)
    ensures Distinct(descendants)
    ensures forall id :: id in descendants <==> Reachable(members, tenant, me, id)
  {
    descendants := [];
    var frontier := [me];
    ghost var all := set m | m in members :: m.id;
    while frontier != []
      invariant Distinct(descendants)
      invariant forall id | id in descendants :: id in all && Reachable(members, tenant, me, id)
      invariant forall id | id in frontier :: id == me || id in descendants
      invariant forall x, y | (x == me || x in descendants) && x !in frontier && Step(members, tenant, x, y) ::
                  y in descendants
      decreases Left(all, descendants), |frontier|
    {
      var rows := Query(members, tenant, frontier);
      QuerySelects(members, tenant, frontier);
      NewIdsSelects(rows, descendants);
      var found := NewIds(rows, descendants);
      forall id | id in found ensures id in all && Reachable(members, tenant, me, id) {
        var m :| m in rows && m.id == id;
        var x :| x in frontier && Reports(m, tenant, x);
        ExtendReach(members, tenant, me, x, id);
      }
      forall x, y | x in frontier && Step(members, tenant, x, y) ensures y in descendants + found {
        var m :| m in members && m.id == y && Reports(m, tenant, x);
        assert m in rows;
      }
      AppendsNew(all, descendants, found);
      frontier := found;
      descendants := descendants + found;
    }
    forall id | Reachable(members, tenant, me, id) ensures id in descendants {
      var chain :| IsChain(members, tenant, chain) && chain[0] == me && chain[|chain| - 1] == id;
      ClosedContainsChain(members, tenant, me, descendants, chain);
    }
  }
}
