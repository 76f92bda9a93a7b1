/** The inventory consumer: late snapshots must not roll a position backwards. */
module InventoryProjection {
  import opened Wrappers

  type MaterialId = string

  datatype Snapshot = Snapshot(
    location: string, at: int, onHand: real, available: Option<real>, reserved: Option<real>,
    blocked: Option<real>, qualityHold: Option<real>, source: string)

  datatype Position = Position(
    onHand: real, available: real, reserved: real, blocked: real, asOf: int, source: string, isFresh: bool)

  function OrZero(q: Option<real>): real {
    if q.Some? then q.value else 0.0
  }

  /** A snapshot without a storage location counts for the default one. */
  function LocationCode(s: Snapshot): string {
    if s.location == "" then "DEFAULT" else s.location
  }

  function Reading(s: Snapshot): Position {
    Position(s.onHand, OrZero(s.available), OrZero(s.reserved), OrZero(s.blocked) + OrZero(s.qualityHold),
             s.at, s.source, true)
  }

  /** The stored position after one snapshot. */
  function Observe(p: Option<Position>, s: Snapshot): Option<Position> {
    if p.Some? && s.at < p.value.asOf then p else Some(Reading(s))
  }

  type Key = (MaterialId, string)

  function Lookup(positions: map<Key, Position>, key: Key): Option<Position> {
    if key in positions then Some(positions[key]) else None
  }

  /** The consumer with its tables; an event names a snapshot, which may be gone, and a material. */
  class Projection {
    const snapshots: map<string, Snapshot>
    var positions: map<Key, Position>

    constructor (s: map<string, Snapshot>)
      ensures snapshots == s && positions == map[]
    {
      snapshots, positions := s, map[];
    }

    method Consume(snapshotId: string, material: MaterialId)
      modifies this
      ensures snapshotId !in snapshots ==> positions == old(positions)
      ensures snapshotId in snapshots ==>
                var s := snapshots[snapshotId];
                var key := (material, LocationCode(s));
                positions == old(positions)[key := Observe(Lookup(old(positions), key), s).value]
    {
      if snapshotId !in snapshots {
        return;
      }
      var snapshot := snapshots[snapshotId];
      var key := (material, LocationCode(snapshot));
      if key !in positions {
        positions := positions[key := Position(0.0, 0.0, 0.0, 0.0, snapshot.at, snapshot.source, false)];
      }
      var position := positions[key];
      if snapshot.at < position.asOf {
        assert positions == old(positions)[key := position];
        return;
      }
      position := position.(onHand := snapshot.onHand, available := OrZero(snapshot.available),
                            reserved := OrZero(snapshot.reserved));
      position := position.(blocked := OrZero(snapshot.blocked) + OrZero(snapshot.qualityHold));
      position := position.(asOf := snapshot.at, source := snapshot.source, isFresh := true);
      positions := positions[key := position];
    }
  }

  // ---------- One key ----------

  function Final(run: seq<Snapshot>): Option<Position> {
    if run == [] then None else Observe(Final(run[..|run| - 1]), run[|run| - 1])
  }

  /** No snapshot of the run is newer. */
  predicate Newest(run: seq<Snapshot>, s: Snapshot) {
    s in run && forall t | t in run :: t.at <= s.at
  }

  /** The final position is the reading of a newest snapshot, in every field. */
  lemma {:induction false} FinalIsANewest(run: seq<Snapshot>) returns (s: Snapshot)
    requires run != []
    ensures Newest(run, s) && Final(run) == Some(Reading(s))
  {
    var before, last := run[..|run| - 1], run[|run| - 1];
    s := last;
    if before != [] {
      var earlier := FinalIsANewest(before);
      s := if last.at < earlier.at then earlier else last;
    }
    assert forall t | t in run :: t in before || t == last;
  }

  /** Of several newest snapshots the one that came last is shown. */
  lemma {:induction false} LastOfTheNewestWins(run: seq<Snapshot>) returns (i: nat)
    requires run != []
    ensures i < |run| && Newest(run, run[i]) && Final(run) == Some(Reading(run[i]))
    ensures forall j | i < j < |run| :: run[j].at < run[i].at
  {
    var n := |run| - 1;
    i := n;
    if n > 0 {
      var before := LastOfTheNewestWins(run[..n]);
      i := if run[n].at < run[before].at then before else n;
    }
    assert forall t | t in run :: t in run[..n] || t == run[n];
  }

  /** Field by field. */
  lemma FinalShowsANewest(run: seq<Snapshot>) returns (s: Snapshot)
    requires run != []
    ensures Newest(run, s) && Final(run).Some?
    ensures var p := Final(run).value;
            && p.onHand == s.onHand
            && p.available == (if s.available.Some? then s.available.value else 0.0)
            && p.reserved == (if s.reserved.Some? then s.reserved.value else 0.0)
            && p.blocked == (if s.blocked.Some? then s.blocked.value else 0.0)
                            + (if s.qualityHold.Some? then s.qualityHold.value else 0.0)
            && p.asOf == s.at && p.source == s.source && p.isFresh
  {
    s := FinalIsANewest(run);
  }

  predicate SameSnapshots(a: seq<Snapshot>, b: seq<Snapshot>) {
    (forall s | s in a :: s in b) && (forall s | s in b :: s in a)
  }

  /** The final position is the same for every order and repetition of the snapshots exactly when the snapshots
      carrying the newest time agree. Distinct times are enough; two readings at one newest time are not. */
  lemma ConvergesIff(run: seq<Snapshot>)
    requires run != []
    ensures (forall other | SameSnapshots(other, run) :: Final(other) == Final(run))
            <==> forall s, t | Newest(run, s) && Newest(run, t) :: Reading(s) == Reading(t)
  {
    if forall s, t | Newest(run, s) && Newest(run, t) :: Reading(s) == Reading(t) {
      forall other | SameSnapshots(other, run) ensures Final(other) == Final(run) {
        SameNewestSameFinal(run, other);
      }
    } else {
      var s, t :| Newest(run, s) && Newest(run, t) && Reading(s) != Reading(t);
      EndsWith(run, s);
      EndsWith(run, t);
    }
  }

  lemma SameNewestSameFinal(run: seq<Snapshot>, other: seq<Snapshot>)
    requires run != [] && SameSnapshots(other, run)
    requires forall s, t | Newest(run, s) && Newest(run, t) :: Reading(s) == Reading(t)
    ensures Final(other) == Final(run)
  {
    assert run[0] in other;
    var a := FinalIsANewest(run);
    var b := FinalIsANewest(other);
    assert Newest(run, b);
  }

  lemma EndsWith(run: seq<Snapshot>, s: Snapshot)
    requires Newest(run, s)
    ensures SameSnapshots(run + [s], run) && Final(run + [s]) == Some(Reading(s))
  {
    assert (run + [s])[..|run|] == run;
    var earlier := FinalIsANewest(run);
  }

  // ---------- All keys ----------

  datatype Observation = Observation(material: MaterialId, snapshot: Snapshot)

  function KeyOf(o: Observation): Key {
    (o.material, LocationCode(o.snapshot))
  }

  function Positions(run: seq<Observation>): map<Key, Position> {
    if run == [] then map[]
    else
      var before, last := Positions(run[..|run| - 1]), run[|run| - 1];
      before[KeyOf(last) := Observe(Lookup(before, KeyOf(last)), last.snapshot).value]
  }

  function SnapshotsFor(run: seq<Observation>, key: Key): seq<Snapshot> {
    if run == [] then []
    else
      SnapshotsFor(run[..|run| - 1], key)
      + if KeyOf(run[|run| - 1]) == key then [run[|run| - 1].snapshot] else []
  }

  /** Observations of one material and location never disturb another: each position is the final one of its
      own snapshots. */
  lemma {:induction false} PositionsAreIndependent(run: seq<Observation>, key: Key)
    ensures Lookup(Positions(run), key) == Final(SnapshotsFor(run, key))
  {
    if run != [] {
      var init, last := run[..|run| - 1], run[|run| - 1];
      PositionsAreIndependent(init, key);
      UpdateReaches(Positions(init), last, key);
      FinalOfAppended(SnapshotsFor(init, key), last.snapshot);
      assert SnapshotsFor(init, key) + [] == SnapshotsFor(init, key);
    }
  }

  /** A snapshot without a storage location is shown at the default one. */
  lemma DefaultLocation(run: seq<Observation>, material: MaterialId, s: Snapshot)
    ensures var place := if s.location == "" then "DEFAULT" else s.location;
            (material, place) in Positions(run + [Observation(material, s)])
  {
    assert (run + [Observation(material, s)])[..|run|] == run;
  }

  lemma UpdateReaches(positions: map<Key, Position>, o: Observation, key: Key)
    ensures var updated := positions[KeyOf(o) := Observe(Lookup(positions, KeyOf(o)), o.snapshot).value];
            Lookup(updated, key)
            == if KeyOf(o) == key then Observe(Lookup(positions, key), o.snapshot) else Lookup(positions, key)
  {}

  lemma FinalOfAppended(run: seq<Snapshot>, s: Snapshot)
    ensures Final(run + [s]) == Observe(Final(run), s)
  {
    assert (run + [s])[..|run|] == run;
  }
}
