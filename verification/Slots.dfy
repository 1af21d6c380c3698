/** Stores that change slot by slot towards goals. Items name a slot (key) and what they
    want there (goal); several items may name the same slot. */
module Slots {
  import opened Wrappers
  import opened Sequences

  ghost predicate Same<K, V>(a: map<K, V>, b: map<K, V>, k: K) {
    (k in a <==> k in b) && (k in a ==> a[k] == b[k])
  }

  /** The item's slot is k, and the store has the item's goal there. */
  ghost predicate At<P, K, V>(store: map<K, V>, k: K, p: P, key: P -> K, goal: P -> V) {
    key(p) == k && k in store && store[k] == goal(p)
  }

  ghost predicate SomeAt<P, K, V>(store: map<K, V>, k: K, items: seq<P>, key: P -> K, goal: P -> V) {
    exists p :: p in items && At(store, k, p, key, goal)
  }

  /** Every slot is as it was, or is what some item wants there. */
  ghost predicate Between<P, K(!new), V>(before: map<K, V>, after: map<K, V>, items: seq<P>, key: P -> K,
                                         goal: P -> V) {
    forall k: K :: Same(before, after, k) || SomeAt(after, k, items, key, goal)
  }

  /** The slots of the items in done are what some item wants there. */
  ghost predicate Settled<P, K, V>(store: map<K, V>, done: seq<P>, items: seq<P>, key: P -> K, goal: P -> V) {
    forall p | p in done :: SomeAt(store, key(p), items, key, goal)
  }

  /** Items of one slot are the same item. */
  ghost predicate OnePerSlot<P, K>(items: seq<P>, key: P -> K) {
    forall p, q | p in items && q in items && key(p) == key(q) :: p == q
  }

  lemma SameSlots<P, K, L>(items: seq<P>, key: P -> K, other: P -> L)
    requires forall p, q | p in items && q in items :: key(p) == key(q) <==> other(p) == other(q)
    ensures OnePerSlot(items, key) <==> OnePerSlot(items, other)
  {
  }

  /** The item writes its goal in its slot, or nothing; nothing and no error only when the
      slot was at that goal from the start. */
  ghost predicate Writes<P, K, V>(before: map<K, V>, a: map<K, V>, b: map<K, V>, p: P, key: P -> K, goal: P -> V,
                                  ok: bool) {
    b == a[key(p) := goal(p)] || (b == a && (ok ==> At(before, key(p), p, key, goal)))
  }

  lemma WriteKeepsSettled<P, K, V>(a: map<K, V>, b: map<K, V>, k: K, p: P, items: seq<P>, key: P -> K, goal: P -> V)
    requires p in items && SomeAt(a, k, items, key, goal)
    requires b == a[key(p) := goal(p)] || b == a
    ensures SomeAt(b, k, items, key, goal)
  {
    var q :| q in items && At(a, k, q, key, goal);
    assert At(b, k, q, key, goal) || At(b, k, p, key, goal);
  }

  lemma WriteKeepsBetween<P, K(!new), V>(before: map<K, V>, a: map<K, V>, b: map<K, V>, p: P, ok: bool, items: seq<P>,
                                         key: P -> K, goal: P -> V)
    requires p in items && Between(before, a, items, key, goal) && Writes(before, a, b, p, key, goal, ok)
    ensures Between(before, b, items, key, goal)
  {
    forall k: K ensures Same(before, b, k) || SomeAt(b, k, items, key, goal) {
      if SomeAt(a, k, items, key, goal) {
        WriteKeepsSettled(a, b, k, p, items, key, goal);
      } else {
        assert Same(a, b, k) || At(b, k, p, key, goal);
      }
    }
  }

  lemma WriteSettles<P, K(!new), V>(before: map<K, V>, a: map<K, V>, b: map<K, V>, p: P, done: seq<P>, items: seq<P>,
                                    key: P -> K, goal: P -> V)
    requires p in items && Between(before, a, items, key, goal) && Settled(a, done, items, key, goal)
    requires Writes(before, a, b, p, key, goal, true)
    ensures Settled(b, done + [p], items, key, goal)
  {
    forall d | d in done + [p] ensures SomeAt(b, key(d), items, key, goal) {
      if SomeAt(a, key(d), items, key, goal) {
        WriteKeepsSettled(a, b, key(d), p, items, key, goal);
      } else {
        assert d !in done && d == p;
        assert b == a ==> Same(before, a, key(p));
        assert At(b, key(p), p, key, goal);
      }
    }
  }

  lemma SettledAlone<P, K, V>(store: map<K, V>, p: P, items: seq<P>, key: P -> K, goal: P -> V)
    requires OnePerSlot(items, key) && p in items && Settled(store, items, items, key, goal)
    ensures At(store, key(p), p, key, goal)
  {
    var q :| q in items && At(store, key(p), q, key, goal);
  }

  lemma SomeAtCarries<P, K, V>(a: map<K, V>, b: map<K, V>, k: K, items: seq<P>, key: P -> K, goal: P -> V)
    requires Same(a, b, k) && SomeAt(a, k, items, key, goal)
    ensures SomeAt(b, k, items, key, goal)
  {
    var p :| p in items && At(a, k, p, key, goal);
    assert At(b, k, p, key, goal);
  }

  lemma SomeAtSameGoals<P, K, V>(store: map<K, V>, k: K, items: seq<P>, key: P -> K, goal: P -> V, goal': P -> V)
    requires SomeAt(store, k, items, key, goal') && forall p | p in items :: goal'(p) == goal(p)
    ensures SomeAt(store, k, items, key, goal)
  {
    var p :| p in items && At(store, k, p, key, goal');
    assert At(store, k, p, key, goal);
  }

  lemma SettledSameGoals<P, K, V>(store: map<K, V>, done: seq<P>, items: seq<P>, key: P -> K, goal: P -> V,
                                  goal': P -> V)
    requires Settled(store, done, items, key, goal') && forall p | p in items :: goal'(p) == goal(p)
    ensures Settled(store, done, items, key, goal)
  {
    forall p | p in done ensures SomeAt(store, key(p), items, key, goal) {
      SomeAtSameGoals(store, key(p), items, key, goal, goal');
    }
  }

  lemma BetweenTransitive<P, K(!new), V>(before: map<K, V>, mid: map<K, V>, after: map<K, V>, items: seq<P>,
                                         key: P -> K, goal: P -> V, goal': P -> V)
    requires Between(before, mid, items, key, goal) && Between(mid, after, items, key, goal')
    requires forall p | p in items :: goal'(p) == goal(p)
    ensures Between(before, after, items, key, goal)
  {
    forall k: K ensures Same(before, after, k) || SomeAt(after, k, items, key, goal) {
      if !Same(mid, after, k) {
        SomeAtSameGoals(after, k, items, key, goal, goal');
      } else if !Same(before, mid, k) {
        SomeAtCarries(mid, after, k, items, key, goal);
      }
    }
  }

  // ----- runs that write slot after slot -----

  /** Steps that write one item each, and stop for good at the first failure. */
  ghost predicate WritesEach<S(!new), P, K, V>(step: (S, P) -> S, store: S -> map<K, V>, failed: S -> bool,
                                               before: map<K, V>, items: seq<P>, key: P -> K, goal: P -> V) {
    forall s, p | p in items ::
      if failed(s) then step(s, p) == s
      else Writes(before, store(s), store(step(s, p)), p, key, goal, !failed(step(s, p)))
  }

  lemma {:induction false} FoldWrites<S(!new), P, K(!new), V>(
    step: (S, P) -> S, store: S -> map<K, V>, failed: S -> bool, s: S, done: seq<P>, todo: seq<P>,
    before: map<K, V>, items: seq<P>, key: P -> K, goal: P -> V)
    requires WritesEach(step, store, failed, before, items, key, goal)
    requires items == done + todo && !failed(s)
    requires Between(before, store(s), items, key, goal) && Settled(store(s), done, items, key, goal)
    ensures Between(before, store(Fold(step, s, todo)), items, key, goal)
    ensures !failed(Fold(step, s, todo)) ==> Settled(store(Fold(step, s, todo)), items, items, key, goal)
    decreases |todo|
  {
    if todo == [] {
      assert items == done;
    } else {
      var p := todo[0];
      assert p in items;
      var next := step(s, p);
      WriteKeepsBetween(before, store(s), store(next), p, !failed(next), items, key, goal);
      if failed(next) {
        assert forall q | q in todo[1..] :: q in items;
        FoldStuck(step, next, todo[1..]);
      } else {
        WriteSettles(before, store(s), store(next), p, done, items, key, goal);
        assert items == (done + [p]) + todo[1..];
        FoldWrites(step, store, failed, next, done + [p], todo[1..], before, items, key, goal);
      }
    }
  }

  /** Each step that does not fail adds one to the count; a failing one adds nothing. */
  lemma {:induction false} FoldCounts<S(!new), P(!new)>(
    step: (S, P) -> S, count: S -> int, failed: S -> bool, s: S, items: seq<P>)
    requires forall s, p :: if failed(s) then step(s, p) == s
                            else count(step(s, p)) == count(s) + (if failed(step(s, p)) then 0 else 1)
    requires !failed(s)
    ensures if failed(Fold(step, s, items)) then count(Fold(step, s, items)) < count(s) + |items|
            else count(Fold(step, s, items)) == count(s) + |items|
    decreases |items|
  {
    if items != [] {
      var next := step(s, items[0]);
      if failed(next) {
        FoldStuck(step, next, items[1..]);
      } else {
        FoldCounts(step, count, failed, next, items[1..]);
      }
    }
  }

  /** Each step adds one to the count exactly when its item is idle. */
  lemma {:induction false} FoldCountsIdle<S(!new), P(!new)>(
    step: (S, P) -> S, count: S -> int, failed: S -> bool, idle: P -> bool, s: S, items: seq<P>)
    requires forall s, p :: if failed(s) then step(s, p) == s
                            else count(step(s, p)) == count(s) + (if idle(p) then 1 else 0)
    requires !failed(s)
    ensures count(Fold(step, s, items)) <= count(s) + |items|
    ensures count(Fold(step, s, items)) == count(s) + |items| ==> forall p | p in items :: idle(p)
    decreases |items|
  {
    if items != [] {
      var next := step(s, items[0]);
      assert items == [items[0]] + items[1..];
      if failed(next) {
        FoldStuck(step, next, items[1..]);
      } else {
        FoldCountsIdle(step, count, failed, idle, next, items[1..]);
      }
    }
  }

  /** Steps that do not raise the count change nothing that was there. */
  ghost predicate Extends<K, V>(a: map<K, V>, b: map<K, V>) {
    forall k | k in a :: k in b && b[k] == a[k]
  }

  lemma {:induction false} FoldExtends<S(!new), P(!new), K, V>(
    step: (S, P) -> S, count: S -> int, failed: S -> bool, store: S -> map<K, V>, s: S, items: seq<P>)
    requires forall s, p :: if failed(s) then step(s, p) == s
                            else && count(s) <= count(step(s, p))
                                 && (failed(step(s, p)) || count(s) < count(step(s, p))
                                     || Extends(store(s), store(step(s, p))))
    requires !failed(s)
    ensures count(s) <= count(Fold(step, s, items))
    ensures failed(Fold(step, s, items)) || count(s) < count(Fold(step, s, items))
            || Extends(store(s), store(Fold(step, s, items)))
    decreases |items|
  {
    if items != [] {
      var next := step(s, items[0]);
      if failed(next) {
        FoldStuck(step, next, items[1..]);
      } else {
        FoldExtends(step, count, failed, store, next, items[1..]);
      }
    }
  }

  // ----- runs that create slots -----

  /** Items that name the same slot name one that was there before. */
  ghost predicate AskedOnce<P, K, V>(before: map<K, V>, items: seq<P>, key: P -> K) {
    forall i, j | 0 <= i < j < |items| && key(items[i]) == key(items[j]) :: key(items[i]) in before
  }

  ghost function Named<P, K>(items: seq<P>, key: P -> K): set<K> {
    set p | p in items :: key(p)
  }

  lemma PresentAskedOnce<P, K, V>(before: map<K, V>, items: seq<P>, key: P -> K)
    requires Named(items, key) <= before.Keys
    ensures AskedOnce(before, items, key)
  {
    forall i | 0 <= i < |items| ensures key(items[i]) in before {
      assert key(items[i]) in Named(items, key);
    }
  }

  /** A step for slot k. It fails if the slot is new and already created by now; otherwise it
      fails only when a call does. After it the slot is there, or else nothing has changed. */
  ghost predicate Creates<K, V>(before: map<K, V>, a: map<K, V>, b: map<K, V>, k: K, ok: bool, works: bool) {
    && (k !in before && k in a ==> !ok)
    && (works && (k in a <==> k in before) ==> ok)
    && (before.Keys <= a.Keys && ok ==> b.Keys == a.Keys + {k})
    && (works && !ok ==> b == a)
  }

  ghost predicate CreatesEach<S(!new), P(!new), K, V>(step: (S, P) -> S, store: S -> map<K, V>, failed: S -> bool,
                                                      before: map<K, V>, key: P -> K, works: bool) {
    forall s, p ::
      if failed(s) then step(s, p) == s
      else Creates(before, store(s), store(step(s, p)), key(p), !failed(step(s, p)), works)
  }

  lemma AskedOnceNext<P, K, V>(before: map<K, V>, done: seq<P>, p: P, key: P -> K)
    requires AskedOnce(before, done, key)
    requires key(p) in before || key(p) !in Named(done, key)
    ensures AskedOnce(before, done + [p], key)
  {
    forall i, j | 0 <= i < j < |done + [p]| && key((done + [p])[i]) == key((done + [p])[j])
      ensures key((done + [p])[i]) in before
    {
      if j == |done| {
        assert key(done[i]) in Named(done, key);
      }
    }
  }

  lemma AskedTwice<P, K, V>(before: map<K, V>, done: seq<P>, todo: seq<P>, key: P -> K)
    requires todo != [] && key(todo[0]) !in before && key(todo[0]) in Named(done, key)
    ensures !AskedOnce(before, done + todo, key)
  {
    var q :| q in done && key(q) == key(todo[0]);
    var i :| 0 <= i < |done| && done[i] == q;
    assert (done + todo)[i] == q && (done + todo)[|done|] == todo[0];
  }

  /** Such a run can only succeed when no new slot is asked for twice, and then does if all
      calls work; if it fails although they do, it has created a slot before. */
  lemma {:induction false} FoldCreates<S(!new), P(!new), K, V>(
    step: (S, P) -> S, store: S -> map<K, V>, failed: S -> bool, s: S, done: seq<P>, todo: seq<P>,
    before: map<K, V>, key: P -> K, works: bool)
    requires CreatesEach(step, store, failed, before, key, works) && !failed(s)
    requires AskedOnce(before, done, key) && store(s).Keys == before.Keys + Named(done, key)
    ensures var end := Fold(step, s, todo);
            && (!failed(end) ==> AskedOnce(before, done + todo, key))
            && (!failed(end) ==> store(end).Keys == before.Keys + Named(done + todo, key))
            && (works && AskedOnce(before, done + todo, key) ==> !failed(end))
            && (works && failed(end) ==> exists p :: p in todo && key(p) !in before && key(p) in store(end))
    decreases |todo|
  {
    if todo == [] {
      assert done + todo == done;
    } else {
      var p, next := todo[0], step(s, todo[0]);
      assert Creates(before, store(s), store(next), key(p), !failed(next), works);
      if failed(next) {
        FoldStuck(step, next, todo[1..]);
        if key(p) !in before && key(p) in store(s) {
          AskedTwice(before, done, todo, key);
        }
      } else {
        AskedOnceNext(before, done, p, key);
        assert Named(done + [p], key) == Named(done, key) + {key(p)};
        assert done + todo == (done + [p]) + todo[1..];
        FoldCreates(step, store, failed, next, done + [p], todo[1..], before, key, works);
      }
    }
  }

  /** The first item of that slot, if there is one. */
  function ItemAt<P, K(==)>(items: seq<P>, k: K, key: P -> K): (r: Option<P>)
    ensures r.Some? ==> r.value in items && key(r.value) == k
    ensures r.None? ==> forall p | p in items :: key(p) != k
  {
    if items == [] then None
    else if key(items[0]) == k then Some(items[0])
    else ItemAt(items[1..], k, key)
  }

  /** The goal in every named slot, and the rest as it was. */
  function Target<P(==), K(==), V>(before: map<K, V>, items: seq<P>, key: P -> K, goal: P -> V): map<K, V> {
    var named := set p | p in items :: key(p);
    map k | k in before.Keys + named ::
      if ItemAt(items, k, key).Some? then goal(ItemAt(items, k, key).value) else before[k]
  }

  lemma SettledIsTarget<P, K(!new), V>(before: map<K, V>, after: map<K, V>, items: seq<P>, key: P -> K, goal: P -> V)
    requires OnePerSlot(items, key) && Between(before, after, items, key, goal)
             && Settled(after, items, items, key, goal)
    ensures after == Target(before, items, key, goal)
  {
    var target := Target(before, items, key, goal);
    forall k: K ensures k in after <==> k in target
      ensures k in after ==> after[k] == target[k]
    {
      var found := ItemAt(items, k, key);
      if found.Some? {
        SettledAlone(after, found.value, items, key, goal);
        assert key(found.value) in (set p | p in items :: key(p));
      } else {
        assert Same(before, after, k);
      }
    }
  }
}
