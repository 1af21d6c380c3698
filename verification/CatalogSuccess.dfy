/** When a registration succeeds, how many reruns it takes, and what never settles. */
module CatalogSuccess {
  import opened Wrappers
  import opened Sequences
  import opened Slots
  import opened Text
  import opened Policy
  import opened Catalog
  import opened CatalogRuns

  const WORKS: nat -> CallFate := (n: nat) => Works

  ghost predicate Working(fates: nat -> CallFate) {
    forall n :: fates(n) == Works
  }

  /** The catalog names an owner and a model, so a run whose fetch works comes to its pairs. */
  predicate Reached(cat: Catalog) {
    TrimSpace(cat.owner) != "" && TrimSpace(cat.model) != ""
  }

  // ----- one run -----

  lemma StepCreates(before: Store, st: RunState, next: RunState, k: Key, goal: RemotePermission,
                                       fate: CallFate, works: bool)
    requires IsStep(before, st, next, k, goal, fate) && st.error == None && (works ==> fate == Works)
    ensures Creates(before, st.perms, next.perms, k, next.error == None, works)
  {
  }

  lemma StepPairCreates(cat: Catalog, before: Store, st: RunState, p: Pair, fates: nat -> CallFate,
                                           works: bool)
    requires ValidStore(before) && (works ==> Working(fates))
    ensures var next := StepPair(cat, ByName(before, TrimSpace(cat.owner)), st, p, fates);
            if FAILED(st) then next == st
            else Creates(before, STORE(st), STORE(next), KeyFor(cat)(p), !FAILED(next), works)
  {
    if st.error == None {
      var next := StepPair(cat, ByName(before, TrimSpace(cat.owner)), st, p, fates);
      StepPairIs(cat, before, st, p, fates);
      StepCreates(before, st, next, KeyFor(cat)(p), Goal(cat, before)(p), fates(st.calls), works);
    }
  }

  lemma StepperCreates(cat: Catalog, before: Store, fates: nat -> CallFate, works: bool)
    requires ValidStore(before) && (works ==> Working(fates))
    ensures CreatesEach(Stepper(cat, ByName(before, TrimSpace(cat.owner)), fates), STORE, FAILED, before, KeyFor(cat),
                        works)
  {
    var step := Stepper(cat, ByName(before, TrimSpace(cat.owner)), fates);
    forall st: RunState, p
      ensures if FAILED(st) then step(st, p) == st
              else Creates(before, STORE(st), STORE(step(st, p)), KeyFor(cat)(p), !FAILED(step(st, p)), works)
    {
      StepPairCreates(cat, before, st, p, fates, works);
    }
  }

  /** What a run says about the records it was asked to create. */
  ghost predicate Created(cat: Catalog, before: Store, end: RunState, works: bool) {
    var pairs, key := Pairs(cat.entries), KeyFor(cat);
    && (end.error == None ==> AskedOnce(before, pairs, key) && end.perms.Keys == before.Keys + Named(pairs, key))
    && (works && AskedOnce(before, pairs, key) ==> end.error == None)
    && (works && end.error.Some? ==> exists p :: p in pairs && key(p) !in before && key(p) in end.perms)
  }

  lemma RegisterCreates(cat: Catalog, before: Store, fates: nat -> CallFate, works: bool)
    requires ValidStore(before) && Reached(cat) && (works ==> Working(fates))
    ensures Created(cat, before, Register(cat, before, false, fates), works)
  {
    var pairs, step := Pairs(cat.entries), Stepper(cat, ByName(before, TrimSpace(cat.owner)), fates);
    StepperCreates(cat, before, fates, works);
    assert [] + pairs == pairs;
    FoldCreates(step, STORE, FAILED, Start(before), [], pairs, before, KeyFor(cat), works);
  }

  /** A registration succeeds only if every name it asks for twice was in the store it fetched;
      if so, and all calls work, it does. The picture of the store is not refreshed while the
      run adds, so a repeated new name is added twice, which fails. */
  lemma SucceedsExactly(cat: Catalog, before: Store, fates: nat -> CallFate)
    requires ValidStore(before) && Reached(cat)
    ensures var error := Register(cat, before, false, fates).error;
            && (error == None ==> AskedOnce(before, Pairs(cat.entries), KeyFor(cat)))
            && (Working(fates) ==> (error == None <==> AskedOnce(before, Pairs(cat.entries), KeyFor(cat))))
  {
    RegisterCreates(cat, before, fates, false);
    if Working(fates) {
      RegisterCreates(cat, before, fates, true);
    }
  }

  // ----- reruns -----

  /** The records of the catalog that the store does not have. */
  ghost function Missing(cat: Catalog, perms: Store): set<Key> {
    Named(Pairs(cat.entries), KeyFor(cat)) - perms.Keys
  }

  function Rerun(cat: Catalog): Store -> Store {
    (perms: Store) => Register(cat, perms, false, WORKS).perms
  }

  /** The store after n runs in which every call works. */
  function Reruns(cat: Catalog, perms: Store, n: nat): Store {
    Iterate(Rerun(cat), perms, n)
  }

  lemma SubsetIsSmaller<T>(a: set<T>, b: set<T>)
    requires a <= b
    ensures |a| <= |b|
  {
    assert b == a + (b - a);
  }

  lemma RegisterOnlyFinds(cat: Catalog, before: Store, fetchFails: bool, fates: nat -> CallFate)
    requires ValidStore(before)
    ensures var after := Register(cat, before, fetchFails, fates).perms;
            ValidStore(after) && Missing(cat, after) <= Missing(cat, before)
  {
    var after := Register(cat, before, fetchFails, fates).perms;
    RegisterPreservesBindings(cat, before, fetchFails, fates);
    forall k | k in before ensures k in after {
      assert SlotSafe(cat, before, after, k);
    }
  }

  lemma MissingShrinks(cat: Catalog, before: Store, after: Store, p: Pair)
    requires Missing(cat, after) <= Missing(cat, before)
    requires p in Pairs(cat.entries) && KeyFor(cat)(p) !in before && KeyFor(cat)(p) in after
    ensures |Missing(cat, after)| < |Missing(cat, before)|
  {
    assert KeyFor(cat)(p) in Missing(cat, before);
    SubsetIsSmaller(Missing(cat, after), Missing(cat, before) - {KeyFor(cat)(p)});
  }

  /** A run that fails although every call works has created a record that was missing. */
  lemma FailedRunProgresses(cat: Catalog, before: Store)
    requires ValidStore(before) && Reached(cat) && Register(cat, before, false, WORKS).error.Some?
    ensures |Missing(cat, Rerun(cat)(before))| < |Missing(cat, before)|
  {
    var end := Register(cat, before, false, WORKS);
    RegisterOnlyFinds(cat, before, false, WORKS);
    RegisterCreates(cat, before, WORKS, true);
    var p :| p in Pairs(cat.entries) && KeyFor(cat)(p) !in before && KeyFor(cat)(p) in end.perms;
    MissingShrinks(cat, before, end.perms, p);
  }

  ghost function MissingCount(cat: Catalog): Store -> nat {
    (perms: Store) => |Missing(cat, perms)|
  }

  predicate Succeeds(cat: Catalog, perms: Store) {
    Register(cat, perms, false, WORKS).error == None
  }

  lemma RerunProgresses(cat: Catalog, perms: Store)
    requires ValidStore(perms) && Reached(cat)
    ensures ValidStore(Rerun(cat)(perms))
    ensures Succeeds(cat, perms) || MissingCount(cat)(Rerun(cat)(perms)) < MissingCount(cat)(perms)
  {
    RegisterOnlyFinds(cat, perms, false, WORKS);
    if Register(cat, perms, false, WORKS).error.Some? {
      FailedRunProgresses(cat, perms);
    }
  }

  /** From any store, once calls work, a registration succeeds after at most as many failures
      as records are missing. */
  lemma WorkingRunsSucceed(cat: Catalog, before: Store) returns (n: nat)
    requires ValidStore(before) && Reached(cat)
    ensures n <= |Missing(cat, before)| && Succeeds(cat, Reruns(cat, before, n))
  {
    var holds, there := (perms: Store) => ValidStore(perms), (perms: Store) => Succeeds(cat, perms);
    forall perms | holds(perms)
      ensures holds(Rerun(cat)(perms))
      ensures there(perms) || MissingCount(cat)(Rerun(cat)(perms)) < MissingCount(cat)(perms)
    {
      RerunProgresses(cat, perms);
    }
    n := IterateReaches(Rerun(cat), holds, there, MissingCount(cat), before);
  }

  function WorkingTries(n: nat): seq<Attempt> {
    seq(n, i => Attempt(false, WORKS))
  }

  lemma {:induction false} AttemptsStep(cat: Catalog, perms: Store, tries: seq<Attempt>)
    requires tries != [] && tries[0] == Attempt(false, WORKS)
    ensures Attempts(cat, perms, tries) == Attempts(cat, Rerun(cat)(perms), tries[1..])
  {
  }

  lemma {:induction false} RerunsAreAttempts(cat: Catalog, perms: Store, n: nat)
    ensures Attempts(cat, perms, WorkingTries(n)) == Iterate(Rerun(cat), perms, n)
    decreases n
  {
    if n > 0 {
      assert WorkingTries(n)[1..] == WorkingTries(n - 1);
      AttemptsStep(cat, perms, WorkingTries(n));
      RerunsAreAttempts(cat, Rerun(cat)(perms), n - 1);
    }
  }

  lemma {:induction false} AttemptsConcat(cat: Catalog, perms: Store, a: seq<Attempt>, b: seq<Attempt>)
    ensures Attempts(cat, perms, a + b) == Attempts(cat, Attempts(cat, perms, a), b)
    decreases |a|
  {
    if a == [] {
      assert a + b == b;
    } else {
      assert (a + b)[1..] == a[1..] + b;
      AttemptsConcat(cat, Register(cat, perms, a[0].fetchFails, a[0].fates).perms, a[1..], b);
    }
  }

  lemma {:induction false} AttemptsOnlyFind(cat: Catalog, perms: Store, tries: seq<Attempt>)
    requires ValidStore(perms)
    ensures ValidStore(Attempts(cat, perms, tries)) && Missing(cat, Attempts(cat, perms, tries)) <= Missing(cat, perms)
    decreases |tries|
  {
    if tries != [] {
      RegisterOnlyFinds(cat, perms, tries[0].fetchFails, tries[0].fates);
      AttemptsOnlyFind(cat, Register(cat, perms, tries[0].fetchFails, tries[0].fates).perms, tries[1..]);
    }
  }

  /** Convergence without a condition on the outcome: whatever failed before and however, once
      calls work a bounded number of reruns leaves the target of the original store. */
  lemma RetriesReachTarget(cat: Catalog, before: Store, tries: seq<Attempt>) returns (n: nat)
    requires Consistent(Pairs(cat.entries)) && ValidStore(before) && Reached(cat)
    ensures n <= |Missing(cat, before)|
    ensures var store := Reruns(cat, Attempts(cat, before, tries), n);
            Succeeds(cat, store) && Rerun(cat)(store) == CatalogTarget(cat, before)
  {
    var mid := Attempts(cat, before, tries);
    AttemptsOnlyFind(cat, before, tries);
    SubsetIsSmaller(Missing(cat, mid), Missing(cat, before));
    n := WorkingRunsSucceed(cat, mid);
    RerunsAreAttempts(cat, mid, n);
    AttemptsConcat(cat, before, tries, WorkingTries(n));
    RetriesConverge(cat, before, tries + WorkingTries(n), Attempt(false, WORKS));
  }

  // ----- catalogs that never settle -----

  /** A successful run of a catalog with colliding names always writes. */
  lemma CollisionWrites(cat: Catalog, before: Store, fates: nat -> CallFate)
    requires ValidStore(before) && Reached(cat) && !Consistent(Pairs(cat.entries))
    requires Register(cat, before, false, fates).error == None
    ensures var result := Register(cat, before, false, fates).result; result.added + result.updated >= 1
  {
    var run := Register(cat, before, false, fates);
    RegisterCounts(cat, before, fates);
    if run.result.skipped == |Pairs(cat.entries)| {
      SkipCount(cat, before, Start(before), Pairs(cat.entries), fates);
      AllSkippedConsistent(cat, before);
    }
  }

  lemma StepAddsNothing(before: Store, st: RunState, next: RunState, k: Key, goal: RemotePermission,
                                           fate: CallFate)
    requires IsStep(before, st, next, k, goal, fate) && k in before
    ensures next.result.added == st.result.added
  {
  }

  lemma PresentStep(cat: Catalog, before: Store, st: RunState, p: Pair, fates: nat -> CallFate)
    requires ValidStore(before) && KeyFor(cat)(p) in before && st.result.added == 0
    ensures StepPair(cat, ByName(before, TrimSpace(cat.owner)), st, p, fates).result.added == 0
  {
    if st.error == None {
      var next := StepPair(cat, ByName(before, TrimSpace(cat.owner)), st, p, fates);
      StepPairIs(cat, before, st, p, fates);
      StepAddsNothing(before, st, next, KeyFor(cat)(p), Goal(cat, before)(p), fates(st.calls));
    }
  }

  lemma AllNamed<P, K>(items: seq<P>, key: P -> K, present: set<K>)
    requires Named(items, key) <= present
    ensures forall p | p in items :: key(p) in present
  {
    forall p | p in items ensures key(p) in present {
      assert key(p) in Named(items, key);
    }
  }

  lemma PresentAddsNothing(cat: Catalog, before: Store, fates: nat -> CallFate)
    requires ValidStore(before) && Reached(cat) && Named(Pairs(cat.entries), KeyFor(cat)) <= before.Keys
    ensures Register(cat, before, false, fates).result.added == 0
  {
    var step := Stepper(cat, ByName(before, TrimSpace(cat.owner)), fates);
    var holds, present := (st: RunState) => st.result.added == 0, (p: Pair) => KeyFor(cat)(p) in before.Keys;
    forall st: RunState, p | holds(st) && present(p) ensures holds(step(st, p)) {
      PresentStep(cat, before, st, p, fates);
    }
    AllNamed(Pairs(cat.entries), KeyFor(cat), before.Keys);
    FoldInvariant(step, holds, present, Start(before), Pairs(cat.entries));
  }

  /** The store has a record for every pair of the catalog. */
  ghost predicate Complete(cat: Catalog, perms: Store) {
    ValidStore(perms) && Named(Pairs(cat.entries), KeyFor(cat)) <= perms.Keys
  }

  lemma RerunKeepsComplete(cat: Catalog, perms: Store)
    requires Complete(cat, perms)
    ensures Complete(cat, Rerun(cat)(perms))
  {
    RegisterOnlyFinds(cat, perms, false, WORKS);
    assert Missing(cat, perms) == {};
  }

  lemma CompleteRewrites(cat: Catalog, before: Store)
    requires Complete(cat, before) && Reached(cat) && !Consistent(Pairs(cat.entries))
    ensures Rewrites(Register(cat, before, false, WORKS))
  {
    PresentAskedOnce(before, Pairs(cat.entries), KeyFor(cat));
    SucceedsExactly(cat, before, WORKS);
    PresentAddsNothing(cat, before, WORKS);
    CollisionWrites(cat, before, WORKS);
  }

  /** A run without an error that changed a record it had found. */
  predicate Rewrites(run: RunState) {
    run.error == None && run.result.added == 0 && run.result.updated >= 1
  }

  /** Once its records are there, a catalog with colliding names is registered without an error
      for ever, and every single run rewrites something. */
  lemma NeverSettles(cat: Catalog, before: Store, n: nat)
    requires Complete(cat, before) && Reached(cat) && !Consistent(Pairs(cat.entries))
    ensures Rewrites(Register(cat, Reruns(cat, before, n), false, WORKS))
  {
    var holds := (perms: Store) => Complete(cat, perms);
    forall perms | holds(perms) ensures holds(Rerun(cat)(perms)) {
      RerunKeepsComplete(cat, perms);
    }
    IterateKeeps(Rerun(cat), holds, before, n);
    CompleteRewrites(cat, Reruns(cat, before, n));
  }

  // ----- such a catalog -----

  const COLLIDING := Catalog("default", "default/vpp-rbac", "demo",
                             [CatalogEntry("a:b", ["c"]), CatalogEntry("a", ["b-c"])])

  const COLLIDING_KEY := Key("default", "catalog-a-b-c")

  /** One record, as an operator might have made it by hand. */
  const ONE_RECORD: Store := map[COLLIDING_KEY :=
    RemotePermission("default", "catalog-a-b-c", "", "", [], [], ["default/admin"], [], "default/vpp-rbac", "Custom",
                     ["a"], ["b-c"], "Allow", true, "Approved")]

  lemma OneAction(entry: CatalogEntry, action: string)
    requires Trimmed(entry.obj) && entry.obj != "" && Trimmed(action) && action != "" && entry.actions == [action]
    ensures EntryPairs()(entry) == [Pair(entry.obj, action)]
  {
    TrimmedUnchanged(entry.obj);
    TrimmedUnchanged(action);
    var f := ActionPairs(entry.obj);
    assert [action][1..] == [];
    assert FlatMap([action], f) == f(action) + FlatMap([], f);
  }

  lemma TwoEntries(a: CatalogEntry, b: CatalogEntry)
    ensures Pairs([a, b]) == EntryPairs()(a) + EntryPairs()(b)
  {
    var f := EntryPairs();
    assert [a, b][1..] == [b] && [b][1..] == [];
    assert FlatMap([b], f) == f(b) + FlatMap([], f);
  }

  lemma KeyByName(cat: Catalog, p: Pair, name: string)
    requires Trimmed(cat.owner) && CatalogPermissionName(p.obj, p.act) == name
    ensures KeyFor(cat)(p) == Key(cat.owner, name)
  {
    TrimmedUnchanged(cat.owner);
  }

  const FIRST := Pair("a:b", "c")
  const SECOND := Pair("a", "b-c")

  lemma CollidingKeys()
    ensures KeyFor(COLLIDING)(FIRST) == COLLIDING_KEY == KeyFor(COLLIDING)(SECOND)
  {
    NamesCollide();
    KeyByName(COLLIDING, FIRST, "catalog-a-b-c");
    KeyByName(COLLIDING, SECOND, "catalog-a-b-c");
  }

  lemma CollidingReached()
    ensures Reached(COLLIDING)
  {
    TrimmedUnchanged(COLLIDING.owner);
    TrimmedUnchanged(COLLIDING.model);
  }

  lemma CollidingPairs()
    ensures Pairs(COLLIDING.entries) == [FIRST, SECOND]
  {
    var a, b := COLLIDING.entries[0], COLLIDING.entries[1];
    assert COLLIDING.entries == [a, b];
    TwoEntries(a, b);
    OneAction(a, "c");
    OneAction(b, "b-c");
  }

  lemma CollidingIsInconsistent()
    ensures !Consistent(Pairs(COLLIDING.entries))
  {
    CollidingPairs();
    CollidingKeys();
    SameKeyExactly(COLLIDING, FIRST, SECOND);
    assert FIRST in [FIRST, SECOND] && SECOND in [FIRST, SECOND];
    assert |FIRST.obj| != |SECOND.obj|;
  }

  lemma AskedTwiceFails<P, K, V>(before: map<K, V>, a: P, b: P, key: P -> K)
    requires key(a) == key(b) && key(a) !in before
    ensures !AskedOnce(before, [a, b], key)
  {
    assert key([a, b][0]) == key([a, b][1]);
  }

  /** Its first registration fails, whatever the calls do. */
  lemma CollidingFailsFirst(fates: nat -> CallFate)
    ensures Register(COLLIDING, map[], false, fates).error.Some?
  {
    CollidingPairs();
    CollidingKeys();
    CollidingReached();
    var none: Store := map[];
    SucceedsExactly(COLLIDING, none, fates);
    AskedTwiceFails(none, FIRST, SECOND, KeyFor(COLLIDING));
  }

  lemma OneRecordIsComplete()
    ensures Complete(COLLIDING, ONE_RECORD)
  {
    CollidingPairs();
    CollidingKeys();
    forall p | p in [FIRST, SECOND] ensures KeyFor(COLLIDING)(p) == COLLIDING_KEY {
      assert p == FIRST || p == SECOND;
    }
  }

  /** And with the record there, runs succeed and rewrite it for ever: the first, the second
      and every later one. */
  lemma CollidingNeverSettles(n: nat)
    ensures ValidStore(ONE_RECORD)
    ensures Rewrites(Register(COLLIDING, Reruns(COLLIDING, ONE_RECORD, n), false, WORKS))
  {
    CollidingReached();
    CollidingIsInconsistent();
    OneRecordIsComplete();
    NeverSettles(COLLIDING, ONE_RECORD, n);
  }
}
