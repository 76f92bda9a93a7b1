/** The assistant's bounded list of recently used business entities. */
module RecentEntities {
  import opened Wrappers

  const LIMIT: nat := 12

  type Key = (string, string)

  datatype Entity = Entity(key: Key, number: Option<string>, caption: Option<string>, usedAt: int)

  datatype Selected = Selected(key: Key, number: Option<string>, source: string)

  datatype ThreadState = ThreadState(selected: Option<Selected>, recent: seq<Entity>)

  function Without(list: seq<Entity>, key: Key): seq<Entity> {
    if list == [] then []
    else (if list[0].key == key then [] else [list[0]]) + Without(list[1..], key)
  }

  function Front<T>(list: seq<T>): seq<T> {
    if |list| <= LIMIT then list else list[..LIMIT]
  }

  /** The entity used last moves to the front. */
  function Touch(list: seq<Entity>, e: Entity): seq<Entity> {
    [e] + Without(list, e.key)
  }

  function SelectContext(s: ThreadState, key: Key, number: Option<string>, source: string, now: int): ThreadState {
    ThreadState(Some(Selected(key, number, source)), Front(Touch(s.recent, Entity(key, number, None, now))))
  }

  function RememberEntity(
    s: ThreadState, key: Key, number: Option<string>, caption: Option<string>, now: int): ThreadState
  {
    ThreadState(Some(Selected(key, number, "assistant")), Front(Touch(s.recent, Entity(key, number, caption, now))))
  }

  datatype Use =
    | Select(key: Key, number: Option<string>, source: string, now: int)
    | Remember(key: Key, number: Option<string>, caption: Option<string>, now: int)

  function Apply(s: ThreadState, u: Use): ThreadState {
    match u
    case Select(key, number, source, now) => SelectContext(s, key, number, source, now)
    case Remember(key, number, caption, now) => RememberEntity(s, key, number, caption, now)
  }

  function Run(s: ThreadState, uses: seq<Use>): ThreadState {
    if uses == [] then s else Apply(Run(s, uses[..|uses| - 1]), uses[|uses| - 1])
  }

  // ---------- The unbounded list ----------

  function EntityOf(u: Use): Entity {
    Entity(u.key, u.number, if u.Remember? then u.caption else None, u.now)
  }

  /** The uses behind a stored list, oldest first: the list from its end, then the new uses. */
  function Reversed(list: seq<Entity>): seq<Entity> {
    if list == [] then [] else Reversed(list[1..]) + [list[0]]
  }

  function Used(uses: seq<Use>): seq<Entity> {
    if uses == [] then [] else Used(uses[..|uses| - 1]) + [EntityOf(uses[|uses| - 1])]
  }

  function MoveToFront(history: seq<Entity>): seq<Entity> {
    if history == [] then [] else Touch(MoveToFront(history[..|history| - 1]), history[|history| - 1])
  }

  predicate DistinctKeys(list: seq<Entity>) {
    forall i, j | 0 <= i < j < |list| :: list[i].key != list[j].key
  }

  /** Position of the last use of a key, or -1. */
  function LastUse(history: seq<Entity>, key: Key): (p: int)
    ensures -1 <= p < |history|
  {
    if history == [] then -1
    else if history[|history| - 1].key == key then |history| - 1
    else LastUse(history[..|history| - 1], key)
  }

  lemma {:induction false} WithoutFacts(list: seq<Entity>, key: Key)
    ensures forall e :: e in Without(list, key) <==> e in list && e.key != key
    ensures DistinctKeys(list) ==> DistinctKeys(Without(list, key))
  {
    if list != [] {
      WithoutFacts(list[1..], key);
      var rest := Without(list[1..], key);
      assert forall k | 0 <= k < |rest| :: rest[k] in rest;
    }
  }

  lemma {:induction false} LastUseFacts(history: seq<Entity>, key: Key)
    ensures LastUse(history, key) >= 0 ==> history[LastUse(history, key)].key == key
    ensures forall i | LastUse(history, key) < i < |history| :: history[i].key != key
  {
    if history != [] && history[|history| - 1].key != key {
      LastUseFacts(history[..|history| - 1], key);
    }
  }

  /** Later entries of the list were used earlier. */
  ghost predicate ByLastUse(list: seq<Entity>, history: seq<Entity>) {
    forall i, j | 0 <= i < j < |list| :: LastUse(history, list[i].key) > LastUse(history, list[j].key)
  }

  lemma {:induction false} WithoutKeepsOrder(list: seq<Entity>, key: Key, history: seq<Entity>)
    requires ByLastUse(list, history)
    ensures ByLastUse(Without(list, key), history)
  {
    if list != [] {
      assert ByLastUse(list[1..], history);
      WithoutKeepsOrder(list[1..], key, history);
      WithoutFacts(list[1..], key);
      var rest := Without(list[1..], key);
      forall k | 0 <= k < |rest| ensures LastUse(history, list[0].key) > LastUse(history, rest[k].key) {
        assert rest[k] in rest;
        var m :| 0 <= m < |list[1..]| && list[1..][m] == rest[k];
        assert list[m + 1] == rest[k];
      }
    }
  }

  /** The unbounded list holds every used entity once, as last used, ordered by last use. */
  lemma {:induction false} MoveToFrontIsByLastUse(history: seq<Entity>)
    ensures ByLastUse(MoveToFront(history), history)
    ensures forall e :: e in MoveToFront(history)
                        <==> LastUse(history, e.key) >= 0 && e == history[LastUse(history, e.key)]
  {
    if history != [] {
      var init, last := history[..|history| - 1], history[|history| - 1];
      var before := MoveToFront(init);
      MoveToFrontIsByLastUse(init);
      WithoutFacts(before, last.key);
      WithoutKeepsOrder(before, last.key, init);
      var rest := Without(before, last.key);
      forall k | 0 <= k < |rest| ensures LastUse(history, rest[k].key) == LastUse(init, rest[k].key) < |init| {
        assert rest[k] in rest;
        LastUseFacts(init, rest[k].key);
      }
      forall e ensures e in MoveToFront(history)
                       <==> LastUse(history, e.key) >= 0 && e == history[LastUse(history, e.key)] {
        LastUseFacts(init, e.key);
      }
    }
  }

  lemma ByLastUseIsDistinct(list: seq<Entity>, history: seq<Entity>)
    requires ByLastUse(list, history)
    ensures DistinctKeys(list)
  {
    forall i, j | 0 <= i < j < |list| ensures list[i].key != list[j].key {
      assert LastUse(history, list[i].key) > LastUse(history, list[j].key);
    }
  }

  // ---------- The bounded list is the front of the unbounded one ----------

  lemma {:induction false} WithoutAbsent(list: seq<Entity>, key: Key)
    requires forall i | 0 <= i < |list| :: list[i].key != key
    ensures Without(list, key) == list
  {
    if list != [] {
      WithoutAbsent(list[1..], key);
    }
  }

  lemma {:induction false} WithoutSplits(a: seq<Entity>, b: seq<Entity>, key: Key)
    ensures Without(a + b, key) == Without(a, key) + Without(b, key)
  {
    if a == [] {
      assert a + b == b;
    } else {
      WithoutSplits(a[1..], b, key);
      assert (a + b)[1..] == a[1..] + b;
    }
  }

  /** Removing a key costs at most one entry of a list without duplicates. */
  lemma {:induction false} WithoutLength(list: seq<Entity>, key: Key)
    requires DistinctKeys(list)
    ensures |list| - 1 <= |Without(list, key)| <= |list|
    ensures |Without(list, key)| == |list| ==> forall i | 0 <= i < |list| :: list[i].key != key
  {
    if list != [] {
      if list[0].key == key {
        WithoutAbsent(list[1..], key);
      } else {
        WithoutLength(list[1..], key);
      }
    }
  }

  lemma TouchOfFront(list: seq<Entity>, e: Entity)
    requires DistinctKeys(list)
    ensures Front(Touch(Front(list), e)) == Front(Touch(list, e))
  {
    if |list| > LIMIT {
      var a, b := list[..LIMIT], list[LIMIT..];
      assert a + b == list;
      WithoutSplits(a, b, e.key);
      WithoutLength(a, e.key);
      if |Without(a, e.key)| == LIMIT - 1 {
        var front := [e] + Without(a, e.key);
        assert Touch(list, e) == front + Without(b, e.key);
        assert Touch(list, e)[..LIMIT] == front;
      } else {
        assert Touch(list, e)[..LIMIT] == Touch(a, e)[..LIMIT];
      }
    }
  }

  lemma {:induction false} ReversedRebuilds(list: seq<Entity>)
    requires DistinctKeys(list)
    ensures MoveToFront(Reversed(list)) == list
  {
    if list != [] {
      ReversedRebuilds(list[1..]);
      assert Reversed(list)[..|Reversed(list)| - 1] == Reversed(list[1..]);
      WithoutAbsent(list[1..], list[0].key);
    }
  }

  lemma {:induction false} StoredIsFront(s: ThreadState, uses: seq<Use>)
    requires DistinctKeys(s.recent) && |s.recent| <= LIMIT
    ensures Run(s, uses).recent == Front(MoveToFront(Reversed(s.recent) + Used(uses)))
  {
    var history := Reversed(s.recent) + Used(uses);
    if uses == [] {
      assert history == Reversed(s.recent);
      ReversedRebuilds(s.recent);
    } else {
      var init := Reversed(s.recent) + Used(uses[..|uses| - 1]);
      var last := EntityOf(uses[|uses| - 1]);
      StoredIsFront(s, uses[..|uses| - 1]);
      assert history == init + [last] && history[..|history| - 1] == init;
      MoveToFrontIsByLastUse(init);
      ByLastUseIsDistinct(MoveToFront(init), init);
      TouchOfFront(MoveToFront(init), last);
    }
  }

  /** After any uses, the entity used last is both the selected one and the head of the stored list. */
  lemma SelectedIsTheLastUsed(s: ThreadState, uses: seq<Use>)
    requires uses != []
    ensures var end, last := Run(s, uses), uses[|uses| - 1];
            && end.selected == Some(Selected(last.key, last.number, if last.Select? then last.source else "assistant"))
            && 0 < |end.recent| <= LIMIT && end.recent[0] == EntityOf(last)
            && forall i | 0 < i < |end.recent| :: end.recent[i].key != last.key
  {
    var before := Run(s, uses[..|uses| - 1]).recent;
    var last := EntityOf(uses[|uses| - 1]);
    WithoutFacts(before, last.key);
    var rest := Without(before, last.key);
    assert forall k | 0 <= k < |rest| :: rest[k] in rest;
  }

  ghost predicate StoresFirstTwelve(s: ThreadState, uses: seq<Use>) {
    var all := MoveToFront(Reversed(s.recent) + Used(uses));
    Run(s, uses).recent == if |all| <= 12 then all else all[..12]
  }

  /** After every sequence of uses the stored list is exactly the first twelve of all distinct entities ordered by
      last use, for precisely those start lists that have no duplicate and at most twelve entries. */
  lemma StoredIsFirstTwelveIff(s: ThreadState)
    ensures (forall uses :: StoresFirstTwelve(s, uses)) <==> DistinctKeys(s.recent) && |s.recent| <= 12
  {
    if DistinctKeys(s.recent) && |s.recent| <= LIMIT {
      forall uses ensures StoresFirstTwelve(s, uses) {
        StoredIsFront(s, uses);
      }
    } else {
      var history := Reversed(s.recent) + Used([]);
      MoveToFrontIsByLastUse(history);
      ByLastUseIsDistinct(MoveToFront(history), history);
      var front := Front(MoveToFront(history));
      assert DistinctKeys(front) && |front| <= LIMIT;
      assert !StoresFirstTwelve(s, []);
    }
  }
}
