/** What catalog registration does to the remote store over one run, over any number of
    failed and repeated runs, and to the rules compiled from the store afterwards. */
module CatalogRuns {
  import opened Wrappers
  import opened Sequences
  import opened Slots
  import opened Text
  import opened Policy
  import opened Catalog

  // ----- the catalog as slots with goals -----

  function PairKey(cat: Catalog, p: Pair): Key {
    Key(TrimSpace(cat.owner), NameOf(p))
  }

  /** What registration wants for a pair, given the store it found. */
  function PairGoal(cat: Catalog, before: Store, p: Pair): RemotePermission {
    if PairKey(cat, p) in before then Merge(before[PairKey(cat, p)], Desired(cat, p)) else Desired(cat, p)
  }

  function KeyFor(cat: Catalog): Pair -> Key {
    (p: Pair) => PairKey(cat, p)
  }

  function Goal(cat: Catalog, before: Store): Pair -> RemotePermission {
    (p: Pair) => PairGoal(cat, before, p)
  }

  /** No two different pairs share a permission name. */
  ghost predicate Consistent(pairs: seq<Pair>) {
    OnePerSlot(pairs, Naming())
  }

  function Naming(): Pair -> string {
    (p: Pair) => NameOf(p)
  }

  lemma SameKeyExactly(cat: Catalog, p: Pair, q: Pair)
    ensures KeyFor(cat)(p) == KeyFor(cat)(q) <==> Naming()(p) == Naming()(q)
  {
  }

  lemma ConsistentSlots(cat: Catalog)
    ensures Consistent(Pairs(cat.entries)) <==> OnePerSlot(Pairs(cat.entries), KeyFor(cat))
  {
    forall p, q ensures KeyFor(cat)(p) == KeyFor(cat)(q) <==> Naming()(p) == Naming()(q) {
      SameKeyExactly(cat, p, q);
    }
    SameSlots(Pairs(cat.entries), KeyFor(cat), Naming());
  }

  // ----- one run -----

  const STORE := (st: RunState) => st.perms
  const FAILED := (st: RunState) => st.error.Some?
  const COUNTED := (st: RunState) => (st.result.added + st.result.updated + st.result.skipped) as int
  const SKIPPED := (st: RunState) => st.result.skipped as int
  const UPDATED := (st: RunState) => st.result.updated as int

  /** What the step for one pair is, in terms of the pair's slot and goal. */
  ghost predicate IsStep(before: Store, st: RunState, next: RunState, k: Key, goal: RemotePermission, fate: CallFate) {
    && KeyOf(goal) == k
    && (k !in before ==> next == AddStep(st, k.name, goal, fate))
    && (k in before ==>
        && (SameCatalogFields(before[k], goal) <==> before[k] == goal)
        && next == ReconcileStep(st, k.name, before[k], goal, fate))
  }

  lemma MergedDiffersExactly(old': RemotePermission, desired: RemotePermission)
    ensures SameCatalogFields(old', Merge(old', desired)) <==> old' == Merge(old', desired)
    ensures KeyOf(Merge(old', desired)) == KeyOf(old')
  {
  }

  lemma StepPairIs(cat: Catalog, before: Store, st: RunState, p: Pair, fates: nat -> CallFate)
    requires ValidStore(before) && st.error == None
    ensures IsStep(before, st, StepPair(cat, ByName(before, TrimSpace(cat.owner)), st, p, fates),
                   KeyFor(cat)(p), Goal(cat, before)(p), fates(st.calls))
  {
    var k := PairKey(cat, p);
    if k in before {
      MergedDiffersExactly(before[k], Desired(cat, p));
    }
  }

  lemma StepWrites<P>(before: Store, st: RunState, next: RunState, fate: CallFate,
                                         p: P, key: P -> Key, goal: P -> RemotePermission)
    requires IsStep(before, st, next, key(p), goal(p), fate)
    ensures Writes(before, st.perms, next.perms, p, key, goal, next.error == None)
  {
  }

  lemma StepPairWrites(cat: Catalog, before: Store, st: RunState, p: Pair, fates: nat -> CallFate)
    requires ValidStore(before) && st.error == None
    ensures var next := StepPair(cat, ByName(before, TrimSpace(cat.owner)), st, p, fates);
            Writes(before, st.perms, next.perms, p, KeyFor(cat), Goal(cat, before), next.error == None)
  {
    var next := StepPair(cat, ByName(before, TrimSpace(cat.owner)), st, p, fates);
    StepPairIs(cat, before, st, p, fates);
    StepWrites(before, st, next, fates(st.calls), p, KeyFor(cat), Goal(cat, before));
  }

  /** The store is between what it was and what the catalog wants. */
  ghost predicate CatalogBetween(cat: Catalog, before: Store, after: Store) {
    Between(before, after, Pairs(cat.entries), KeyFor(cat), Goal(cat, before))
  }

  /** Every pair's slot is what some pair of that name wants there. */
  ghost predicate CatalogSettled(cat: Catalog, before: Store, after: Store) {
    Settled(after, Pairs(cat.entries), Pairs(cat.entries), KeyFor(cat), Goal(cat, before))
  }

  /** Register does not reach the pairs, or it is the run over them. */
  lemma RegisterCases(cat: Catalog, before: Store, fetchFails: bool, fates: nat -> CallFate)
    ensures var run := Register(cat, before, fetchFails, fates);
            || (run.perms == before && run.error.Some?)
            || (!fetchFails && run == RunPairs(cat, ByName(before, TrimSpace(cat.owner)), Start(before),
                                               Pairs(cat.entries), fates))
  {
  }

  /** However a run ends, the store is between; when it ends well, every pair is settled. */
  lemma RegisterBetween(cat: Catalog, before: Store, fetchFails: bool, fates: nat -> CallFate)
    requires ValidStore(before)
    ensures CatalogBetween(cat, before, Register(cat, before, fetchFails, fates).perms)
    ensures Register(cat, before, fetchFails, fates).error == None ==>
            CatalogSettled(cat, before, Register(cat, before, fetchFails, fates).perms)
  {
    var pairs, step := Pairs(cat.entries), Stepper(cat, ByName(before, TrimSpace(cat.owner)), fates);
    forall st: RunState, p | p in pairs
      ensures if FAILED(st) then step(st, p) == st
              else Writes(before, STORE(st), STORE(step(st, p)), p, KeyFor(cat), Goal(cat, before),
                          !FAILED(step(st, p)))
    {
      if st.error == None {
        StepPairWrites(cat, before, st, p, fates);
      }
    }
    FoldWrites(step, STORE, FAILED, Start(before), [], pairs, before, pairs, KeyFor(cat), Goal(cat, before));
    RegisterCases(cat, before, fetchFails, fates);
  }

  /** The fields the operator manages. */
  ghost predicate SameBindings(a: RemotePermission, b: RemotePermission) {
    a.owner == b.owner && a.name == b.name && a.roles == b.roles && a.users == b.users
    && a.groups == b.groups && a.domains == b.domains
  }

  ghost predicate Unbound(p: RemotePermission) {
    p.roles == [] && p.users == [] && p.groups == [] && p.domains == []
  }

  lemma GoalPreservesBindings(cat: Catalog, before: Store, p: Pair)
    requires ValidStore(before)
    ensures var k, g := KeyFor(cat)(p), Goal(cat, before)(p);
            && KeyOf(g) == k
            && (if k in before then SameBindings(before[k], g) else Unbound(g))
  {
  }

  /** What a registration may do to one slot: a record stays under its key, is not removed and
      keeps its operator's bindings, a new one is bound to nobody, and a slot that is touched
      at all is one the catalog names. */
  ghost predicate SlotSafe(cat: Catalog, before: Store, after: Store, k: Key) {
    && (k in after ==> KeyOf(after[k]) == k)
    && (k in before ==> k in after && SameBindings(before[k], after[k]))
    && (k in after && k !in before ==> Unbound(after[k]))
    && (Same(before, after, k) || exists p :: p in Pairs(cat.entries) && KeyFor(cat)(p) == k)
  }

  lemma SlotIsSafe(cat: Catalog, before: Store, after: Store, k: Key)
    requires ValidStore(before) && CatalogBetween(cat, before, after)
    ensures SlotSafe(cat, before, after, k)
  {
    if !Same(before, after, k) {
      var p :| p in Pairs(cat.entries) && At(after, k, p, KeyFor(cat), Goal(cat, before));
      GoalPreservesBindings(cat, before, p);
    }
  }

  lemma SlotsAreSafe(cat: Catalog, before: Store, after: Store)
    requires ValidStore(before) && CatalogBetween(cat, before, after)
    ensures forall k: Key :: SlotSafe(cat, before, after, k)
  {
    forall k: Key ensures SlotSafe(cat, before, after, k) {
      SlotIsSafe(cat, before, after, k);
    }
  }

  /** Safety of every slot, however the run ends. */
  lemma RegisterPreservesBindings(cat: Catalog, before: Store, fetchFails: bool, fates: nat -> CallFate)
    requires ValidStore(before)
    ensures var after := Register(cat, before, fetchFails, fates).perms;
            ValidStore(after) && forall k: Key :: SlotSafe(cat, before, after, k)
  {
    RegisterBetween(cat, before, fetchFails, fates);
    var after := Register(cat, before, fetchFails, fates).perms;
    SlotsAreSafe(cat, before, after);
    forall k | k in after ensures after[k].owner == k.owner && after[k].name == k.name {
      assert SlotSafe(cat, before, after, k);
    }
  }

  lemma AddStepCounts(st: RunState, name: string, desired: RemotePermission, fate: CallFate)
    requires st.error == None
    ensures var next := AddStep(st, name, desired, fate);
            COUNTED(next) == COUNTED(st) + (if FAILED(next) then 0 else 1)
  {
  }

  lemma ReconcileStepCounts(st: RunState, name: string, current: RemotePermission,
                                               merged: RemotePermission, fate: CallFate)
    requires st.error == None
    ensures var next := ReconcileStep(st, name, current, merged, fate);
            COUNTED(next) == COUNTED(st) + (if FAILED(next) then 0 else 1)
  {
  }

  lemma StepPairCounts(cat: Catalog, byName: map<string, RemotePermission>, st: RunState, p: Pair,
                                          fates: nat -> CallFate)
    ensures var next := StepPair(cat, byName, st, p, fates);
            if FAILED(st) then next == st else COUNTED(next) == COUNTED(st) + (if FAILED(next) then 0 else 1)
  {
    var name, desired := NameOf(p), Desired(cat, p);
    if st.error == None {
      if name in byName {
        ReconcileStepCounts(st, name, byName[name], Merge(byName[name], desired), fates(st.calls));
      } else {
        AddStepCounts(st, name, desired, fates(st.calls));
      }
    }
  }

  /** A run that reaches the pairs counts each exactly once if it ends well, and fewer if not. */
  lemma RegisterCounts(cat: Catalog, before: Store, fates: nat -> CallFate)
    requires TrimSpace(cat.owner) != "" && TrimSpace(cat.model) != ""
    ensures var run := Register(cat, before, false, fates);
            var counted := run.result.added + run.result.updated + run.result.skipped;
            (run.error == None <==> counted == |Pairs(cat.entries)|) && counted <= |Pairs(cat.entries)|
  {
    var byName := ByName(before, TrimSpace(cat.owner));
    var step := Stepper(cat, byName, fates);
    forall st: RunState, p
      ensures if FAILED(st) then step(st, p) == st
              else COUNTED(step(st, p)) == COUNTED(st) + (if FAILED(step(st, p)) then 0 else 1)
    {
      StepPairCounts(cat, byName, st, p, fates);
    }
    FoldCounts(step, COUNTED, FAILED, Start(before), Pairs(cat.entries));
  }

  // ----- repeated runs -----

  /** The slot of the pair already is what it wants there. */
  ghost predicate Skipped(cat: Catalog, perms: Store, p: Pair) {
    At(perms, KeyFor(cat)(p), p, KeyFor(cat), Goal(cat, perms))
  }

  function MoreSkipped(st: RunState, n: nat): RunState {
    st.(result := st.result.(skipped := st.result.skipped + n))
  }

  lemma StepSkips(before: Store, st: RunState, next: RunState, k: Key, goal: RemotePermission, fate: CallFate)
    requires IsStep(before, st, next, k, goal, fate)
    ensures if k in before && before[k] == goal then next == MoreSkipped(st, 1)
            else next.result.skipped == st.result.skipped
  {
  }

  lemma StepPairSkips(cat: Catalog, perms: Store, st: RunState, p: Pair, fates: nat -> CallFate)
    requires ValidStore(perms) && st.error == None
    ensures var next := StepPair(cat, ByName(perms, TrimSpace(cat.owner)), st, p, fates);
            if Skipped(cat, perms, p) then next == MoreSkipped(st, 1)
            else next.result.skipped == st.result.skipped
  {
    var next := StepPair(cat, ByName(perms, TrimSpace(cat.owner)), st, p, fates);
    StepPairIs(cat, perms, st, p, fates);
    StepSkips(perms, st, next, KeyFor(cat)(p), Goal(cat, perms)(p), fates(st.calls));
  }

  lemma AllSkippedRun(cat: Catalog, perms: Store, st: RunState, pairs: seq<Pair>, fates: nat -> CallFate)
    requires ValidStore(perms) && st.error == None && forall p | p in pairs :: Skipped(cat, perms, p)
    ensures RunPairs(cat, ByName(perms, TrimSpace(cat.owner)), st, pairs, fates) == MoreSkipped(st, |pairs|)
    decreases |pairs|
  {
    if pairs != [] {
      StepPairSkips(cat, perms, st, pairs[0], fates);
      AllSkippedRun(cat, perms, MoreSkipped(st, 1), pairs[1..], fates);
    }
  }

  predicate AtGoal(cat: Catalog, perms: Store, p: Pair) {
    KeyFor(cat)(p) in perms && perms[KeyFor(cat)(p)] == Goal(cat, perms)(p)
  }

  lemma StepSkipCount(cat: Catalog, perms: Store, st: RunState, p: Pair, fates: nat -> CallFate)
    requires ValidStore(perms)
    ensures var next := StepPair(cat, ByName(perms, TrimSpace(cat.owner)), st, p, fates);
            if FAILED(st) then next == st
            else SKIPPED(next) == SKIPPED(st) + (if AtGoal(cat, perms, p) then 1 else 0)
  {
    if st.error == None {
      StepPairSkips(cat, perms, st, p, fates);
    }
  }

  lemma SkipCount(cat: Catalog, perms: Store, st: RunState, pairs: seq<Pair>, fates: nat -> CallFate)
    requires ValidStore(perms) && st.error == None
    requires RunPairs(cat, ByName(perms, TrimSpace(cat.owner)), st, pairs, fates).result.skipped
             == st.result.skipped + |pairs|
    ensures forall p | p in pairs :: Skipped(cat, perms, p)
  {
    var step := Stepper(cat, ByName(perms, TrimSpace(cat.owner)), fates);
    var idle := (p: Pair) => AtGoal(cat, perms, p);
    forall st: RunState, p
      ensures if FAILED(st) then step(st, p) == st
              else SKIPPED(step(st, p)) == SKIPPED(st) + (if idle(p) then 1 else 0)
    {
      StepSkipCount(cat, perms, st, p, fates);
    }
    FoldCountsIdle(step, SKIPPED, FAILED, idle, st, pairs);
  }

  /** A run that finds nothing to do: all pairs skipped, no write made, the store as it was. */
  ghost predicate OnlySkips(cat: Catalog, perms: Store, run: RunState) {
    run == RunState(perms, RegisterResult(0, 0, |Pairs(cat.entries)|), 0, None)
  }

  lemma OnlySkipsExactly(cat: Catalog, perms: Store, fates: nat -> CallFate)
    requires ValidStore(perms) && TrimSpace(cat.owner) != "" && TrimSpace(cat.model) != ""
    ensures OnlySkips(cat, perms, Register(cat, perms, false, fates)) <==>
            forall p | p in Pairs(cat.entries) :: Skipped(cat, perms, p)
  {
    if forall p | p in Pairs(cat.entries) :: Skipped(cat, perms, p) {
      AllSkippedRun(cat, perms, Start(perms), Pairs(cat.entries), fates);
    }
    if OnlySkips(cat, perms, Register(cat, perms, false, fates)) {
      SkipCount(cat, perms, Start(perms), Pairs(cat.entries), fates);
    }
  }

  /** In a store between, a pair wants what it wanted at first. */
  lemma GoalStable(cat: Catalog, before: Store, mid: Store, p: Pair)
    requires Same(before, mid, KeyFor(cat)(p)) || At(mid, KeyFor(cat)(p), p, KeyFor(cat), Goal(cat, before))
    ensures Goal(cat, mid)(p) == Goal(cat, before)(p)
  {
  }

  lemma GoalsStable(cat: Catalog, before: Store, mid: Store)
    requires Consistent(Pairs(cat.entries)) && CatalogBetween(cat, before, mid)
    ensures forall p | p in Pairs(cat.entries) :: Goal(cat, mid)(p) == Goal(cat, before)(p)
  {
    ConsistentSlots(cat);
    forall p | p in Pairs(cat.entries) ensures Goal(cat, mid)(p) == Goal(cat, before)(p) {
      if !Same(before, mid, KeyFor(cat)(p)) {
        var q :| q in Pairs(cat.entries) && At(mid, KeyFor(cat)(p), q, KeyFor(cat), Goal(cat, before));
        assert p == q;
      }
      GoalStable(cat, before, mid, p);
    }
  }

  lemma SettledSkips(cat: Catalog, before: Store, after: Store, p: Pair)
    requires Consistent(Pairs(cat.entries)) && p in Pairs(cat.entries)
    requires CatalogBetween(cat, before, after) && CatalogSettled(cat, before, after)
    ensures Skipped(cat, after, p)
  {
    ConsistentSlots(cat);
    SettledAlone(after, p, Pairs(cat.entries), KeyFor(cat), Goal(cat, before));
    GoalsStable(cat, before, after);
  }

  lemma AllSettledSkip(cat: Catalog, before: Store, after: Store)
    requires Consistent(Pairs(cat.entries))
    requires CatalogBetween(cat, before, after) && CatalogSettled(cat, before, after)
    ensures forall p | p in Pairs(cat.entries) :: Skipped(cat, after, p)
  {
    forall p | p in Pairs(cat.entries) ensures Skipped(cat, after, p) {
      SettledSkips(cat, before, after, p);
    }
  }

  lemma GoalNamesPair(cat: Catalog, perms: Store, p: Pair)
    ensures Goal(cat, perms)(p).resources == [p.obj] && Goal(cat, perms)(p).actions == [p.act]
  {
  }

  lemma SkippedTogetherEqual(cat: Catalog, perms: Store, p: Pair, q: Pair)
    requires Skipped(cat, perms, p) && Skipped(cat, perms, q) && KeyFor(cat)(p) == KeyFor(cat)(q)
    ensures p == q
  {
    GoalNamesPair(cat, perms, p);
    GoalNamesPair(cat, perms, q);
    var r := perms[KeyFor(cat)(p)];
    assert r.resources[0] == p.obj == q.obj && r.actions[0] == p.act == q.act;
  }

  lemma AllSkippedConsistent(cat: Catalog, perms: Store)
    requires forall p | p in Pairs(cat.entries) :: Skipped(cat, perms, p)
    ensures Consistent(Pairs(cat.entries))
  {
    ConsistentSlots(cat);
    forall p, q | p in Pairs(cat.entries) && q in Pairs(cat.entries) && KeyFor(cat)(p) == KeyFor(cat)(q)
      ensures p == q
    {
      SkippedTogetherEqual(cat, perms, p, q);
    }
  }

  lemma SettledSkipsExactly(cat: Catalog, before: Store, after: Store)
    requires CatalogBetween(cat, before, after) && CatalogSettled(cat, before, after)
    ensures (forall p | p in Pairs(cat.entries) :: Skipped(cat, after, p)) <==> Consistent(Pairs(cat.entries))
  {
    if Consistent(Pairs(cat.entries)) {
      AllSettledSkip(cat, before, after);
    }
    if forall p | p in Pairs(cat.entries) :: Skipped(cat, after, p) {
      AllSkippedConsistent(cat, after);
    }
  }

  /** After a successful run, the next one finds nothing to do exactly when no two different
      pairs of the catalog share a name. Otherwise every later run rewrites something. */
  lemma RerunOnlySkipsExactly(cat: Catalog, before: Store, fates: nat -> CallFate, refates: nat -> CallFate)
    requires ValidStore(before) && Register(cat, before, false, fates).error == None
    ensures var after := Register(cat, before, false, fates).perms;
            OnlySkips(cat, after, Register(cat, after, false, refates)) <==> Consistent(Pairs(cat.entries))
  {
    var after := Register(cat, before, false, fates).perms;
    RegisterBetween(cat, before, false, fates);
    RegisterPreservesBindings(cat, before, false, fates);
    OnlySkipsExactly(cat, after, refates);
    SettledSkipsExactly(cat, before, after);
  }

  /** One attempt to register: whether the fetch fails, and how each write goes. */
  datatype Attempt = Attempt(fetchFails: bool, fates: nat -> CallFate)

  function Attempts(cat: Catalog, perms: Store, tries: seq<Attempt>): Store
    decreases |tries|
  {
    if tries == [] then perms
    else Attempts(cat, Register(cat, perms, tries[0].fetchFails, tries[0].fates).perms, tries[1..])
  }

  lemma AttemptKeepsBetween(cat: Catalog, before: Store, perms: Store, try: Attempt)
    requires Consistent(Pairs(cat.entries)) && ValidStore(perms) && CatalogBetween(cat, before, perms)
    ensures ValidStore(Register(cat, perms, try.fetchFails, try.fates).perms)
    ensures CatalogBetween(cat, before, Register(cat, perms, try.fetchFails, try.fates).perms)
  {
    var next := Register(cat, perms, try.fetchFails, try.fates).perms;
    RegisterBetween(cat, perms, try.fetchFails, try.fates);
    RegisterPreservesBindings(cat, perms, try.fetchFails, try.fates);
    GoalsStable(cat, before, perms);
    BetweenTransitive(before, perms, next, Pairs(cat.entries), KeyFor(cat), Goal(cat, before), Goal(cat, perms));
  }

  lemma {:induction false} AttemptsBetween(cat: Catalog, before: Store, perms: Store, tries: seq<Attempt>)
    requires Consistent(Pairs(cat.entries)) && ValidStore(perms) && CatalogBetween(cat, before, perms)
    ensures ValidStore(Attempts(cat, perms, tries)) && CatalogBetween(cat, before, Attempts(cat, perms, tries))
    decreases |tries|
  {
    if tries != [] {
      AttemptKeepsBetween(cat, before, perms, tries[0]);
      AttemptsBetween(cat, before, Register(cat, perms, tries[0].fetchFails, tries[0].fates).perms, tries[1..]);
    }
  }

  /** The store a registration aims at: the goal in every catalog slot, the rest as it was. */
  function CatalogTarget(cat: Catalog, before: Store): Store {
    Target(before, Pairs(cat.entries), KeyFor(cat), Goal(cat, before))
  }

  lemma SettledLater(cat: Catalog, before: Store, mid: Store, after: Store)
    requires Consistent(Pairs(cat.entries)) && CatalogBetween(cat, before, mid) && CatalogSettled(cat, mid, after)
    ensures CatalogSettled(cat, before, after)
  {
    var pairs := Pairs(cat.entries);
    GoalsStable(cat, before, mid);
    SettledSameGoals(after, pairs, pairs, KeyFor(cat), Goal(cat, before), Goal(cat, mid));
  }

  /** Convergence: after any attempts that failed anywhere (a failed write may even have been
      applied), the first one that succeeds leaves the target of the original store, which is
      what one uninterrupted run leaves. */
  lemma {:induction false} RetriesConverge(cat: Catalog, before: Store, tries: seq<Attempt>, last: Attempt)
    requires Consistent(Pairs(cat.entries)) && ValidStore(before)
    requires Register(cat, Attempts(cat, before, tries), last.fetchFails, last.fates).error == None
    ensures Register(cat, Attempts(cat, before, tries), last.fetchFails, last.fates).perms == CatalogTarget(cat, before)
  {
    var mid := Attempts(cat, before, tries);
    var after := Register(cat, mid, last.fetchFails, last.fates).perms;
    AttemptsBetween(cat, before, before, tries);
    RegisterBetween(cat, mid, last.fetchFails, last.fates);
    AttemptKeepsBetween(cat, before, mid, last);
    SettledLater(cat, before, mid, after);
    ConsistentSlots(cat);
    SettledIsTarget(before, after, Pairs(cat.entries), KeyFor(cat), Goal(cat, before));
  }

  // ----- names -----

  function Colons(s: string): nat {
    if s == "" then 0 else (if s[0] == ':' then 1 else 0) + Colons(s[1..])
  }

  function Dash(c: char): char {
    if c == ':' then '-' else c
  }

  lemma DashesStep(x: string, t: string)
    requires x != ""
    ensures ColonsToDashes(x) + t == [Dash(x[0])] + (ColonsToDashes(x[1..]) + t)
  {
  }

  lemma SameHead(a: char, s: string, b: char, t: string)
    requires [a] + s == [b] + t
    ensures a == b && s == t
  {
    assert s == ([a] + s)[1..] && t == ([b] + t)[1..];
  }

  lemma {:induction false} NoColonsLeft(x: string, u: string, v: string)
    requires x != "" && '-' !in x && Colons(x) == 0
    ensures ColonsToDashes(x) + ("-" + u) != "-" + v
  {
    DashesStep(x, "-" + u);
    assert x[0] in x;
    if [Dash(x[0])] + (ColonsToDashes(x[1..]) + ("-" + u)) == ['-'] + v {
      SameHead(Dash(x[0]), ColonsToDashes(x[1..]) + ("-" + u), '-', v);
    }
  }

  lemma {:induction false} DashedPrefixDetermines(x: string, u: string, y: string, v: string)
    requires '-' !in x && '-' !in y && Colons(x) == Colons(y)
    requires ColonsToDashes(x) + ("-" + u) == ColonsToDashes(y) + ("-" + v)
    ensures x == y && u == v
  {
    if x == "" && y == "" {
      assert ColonsToDashes(x) + ("-" + u) == ['-'] + u && ColonsToDashes(y) + ("-" + v) == ['-'] + v;
      SameHead('-', u, '-', v);
    } else if x == "" {
      NoColonsLeft(y, v, u);
    } else if y == "" {
      NoColonsLeft(x, u, v);
    } else {
      DashesStep(x, "-" + u);
      DashesStep(y, "-" + v);
      SameHead(Dash(x[0]), ColonsToDashes(x[1..]) + ("-" + u), Dash(y[0]), ColonsToDashes(y[1..]) + ("-" + v));
      assert x[0] in x && y[0] in y;
      DashedPrefixDetermines(x[1..], u, y[1..], v);
    }
  }

  /** Among objects without '-' and with equally many ':', a name determines the trimmed
      object and action, whatever the action contains. */
  lemma NameDetermines(o1: string, a1: string, o2: string, a2: string)
    requires '-' !in TrimSpace(o1) && '-' !in TrimSpace(o2)
    requires Colons(TrimSpace(o1)) == Colons(TrimSpace(o2))
    ensures CatalogPermissionName(o1, a1) == CatalogPermissionName(o2, a2) <==>
            TrimSpace(o1) == TrimSpace(o2) && TrimSpace(a1) == TrimSpace(a2)
  {
    var x, y := ColonsToDashes(TrimSpace(o1)), ColonsToDashes(TrimSpace(o2));
    var u, v := TrimSpace(a1), TrimSpace(a2);
    var n1, n2 := CatalogPermissionName(o1, a1), CatalogPermissionName(o2, a2);
    assert n1 == "catalog-" + (x + ("-" + u)) && n2 == "catalog-" + (y + ("-" + v));
    if n1 == n2 {
      assert n1[8..] == x + ("-" + u) && n2[8..] == y + ("-" + v);
      DashedPrefixDetermines(TrimSpace(o1), u, TrimSpace(o2), v);
    }
  }

  /** Neither restriction can be dropped: fewer colons, or a dash in the object, collide. */
  lemma NamesCollide()
    ensures CatalogPermissionName("a:b", "c") == CatalogPermissionName("a", "b-c") == "catalog-a-b-c"
    ensures CatalogPermissionName("s:a-b", "c") == CatalogPermissionName("s:a", "b-c")
  {
    TrimmedUnchanged("a:b");
    TrimmedUnchanged("b-c");
    TrimmedUnchanged("s:a-b");
    TrimmedUnchanged("s:a");
    assert CatalogPermissionName("a:b", "c") == "catalog-a-b-c" == CatalogPermissionName("a", "b-c");
    assert CatalogPermissionName("s:a-b", "c") == "catalog-s-a-b-c" == CatalogPermissionName("s:a", "b-c");
  }

  /** So a catalog of service:name objects converges. */
  lemma ShapedCatalogConsistent(pairs: seq<Pair>)
    requires forall p | p in pairs :: Trimmed(p.obj) && Trimmed(p.act) && '-' !in p.obj && Colons(p.obj) == 1
    ensures Consistent(pairs)
  {
    forall p, q | p in pairs && q in pairs && NameOf(p) == NameOf(q) ensures p == q {
      TrimmedUnchanged(p.obj);
      TrimmedUnchanged(q.obj);
      TrimmedUnchanged(p.act);
      TrimmedUnchanged(q.act);
      NameDetermines(p.obj, p.act, q.obj, q.act);
    }
  }

  // ----- the rules compiled from the store -----

  lemma UnboundHasNoRules(p: RemotePermission, modelFilter: string)
    requires Unbound(p)
    ensures PermissionRules(modelFilter)(p) == []
  {
  }

  ghost function KnownIn(before: Store): RemotePermission -> bool {
    (p: RemotePermission) => KeyOf(p) in before
  }

  lemma KnownAreListed(before: Store, after: Store, owner: string, a: seq<RemotePermission>,
                                          b: seq<RemotePermission>, p: RemotePermission)
    requires ValidStore(before) && ValidStore(after) && Extends(before, after)
    requires Enumerates(before, owner, a) && Enumerates(after, owner, b)
    ensures p in a <==> p in b && KnownIn(before)(p)
  {
    assert p in a <==> Key(owner, p.name) in before && before[Key(owner, p.name)] == p;
    assert p in b <==> Key(owner, p.name) in after && after[Key(owner, p.name)] == p;
    if p in a || p in b {
      assert KeyOf(p) == Key(owner, p.name);
    }
  }

  lemma NewOnesCompileToNothing(cat: Catalog, before: Store, after: Store, owner: string,
                                                   a: seq<RemotePermission>, b: seq<RemotePermission>,
                                                   modelFilter: string)
    requires ValidStore(before) && ValidStore(after) && Extends(before, after)
    requires forall k: Key :: SlotSafe(cat, before, after, k)
    requires Enumerates(before, owner, a) && Enumerates(after, owner, b)
    ensures multiset(Rules(a, modelFilter)) == multiset(Rules(b, modelFilter))
  {
    var known, f := KnownIn(before), PermissionRules(modelFilter);
    forall p | p in b && !known(p) ensures f(p) == [] {
      assert SlotSafe(cat, before, after, Key(owner, p.name));
      UnboundHasNoRules(p, modelFilter);
    }
    FilterDistinct(b, known);
    FlatMapFilter(b, f, known);
    forall p ensures p in a <==> p in Filter(b, known) {
      FilterContains(b, known, p);
      KnownAreListed(before, after, owner, a, b, p);
    }
    DistinctMultiset(a, Filter(b, known));
    FlatMapPermutes(a, Filter(b, known), f);
  }

  /** A run that changed no existing record changes no rule: whatever order the two listings
      come in, the same rules are compiled, each as often. */
  lemma AddsCompileToNothing(cat: Catalog, before: Store, fetchFails: bool, fates: nat -> CallFate, owner: string,
                             a: seq<RemotePermission>, b: seq<RemotePermission>, modelFilter: string)
    requires ValidStore(before)
    requires var after := Register(cat, before, fetchFails, fates).perms;
             && Extends(before, after) && Enumerates(before, owner, a) && Enumerates(after, owner, b)
    ensures multiset(Rules(a, modelFilter)) == multiset(Rules(b, modelFilter))
  {
    RegisterPreservesBindings(cat, before, fetchFails, fates);
    NewOnesCompileToNothing(cat, before, Register(cat, before, fetchFails, fates).perms, owner, a, b, modelFilter);
  }

  lemma AddStepExtends(st: RunState, name: string, desired: RemotePermission, fate: CallFate)
    ensures UPDATED(AddStep(st, name, desired, fate)) == UPDATED(st)
    ensures Extends(st.perms, AddStep(st, name, desired, fate).perms)
  {
  }

  lemma ReconcileStepExtends(st: RunState, name: string, current: RemotePermission,
                                                merged: RemotePermission, fate: CallFate)
    ensures var next := ReconcileStep(st, name, current, merged, fate);
            && UPDATED(st) <= UPDATED(next)
            && (FAILED(next) || UPDATED(st) < UPDATED(next) || Extends(st.perms, next.perms))
  {
  }

  lemma StepPairExtends(cat: Catalog, byName: map<string, RemotePermission>, st: RunState, p: Pair,
                                           fates: nat -> CallFate)
    ensures var next := StepPair(cat, byName, st, p, fates);
            if FAILED(st) then next == st
            else && UPDATED(st) <= UPDATED(next)
                 && (FAILED(next) || UPDATED(st) < UPDATED(next) || Extends(st.perms, next.perms))
  {
    var name, desired := NameOf(p), Desired(cat, p);
    if st.error == None {
      if name in byName {
        ReconcileStepExtends(st, name, byName[name], Merge(byName[name], desired), fates(st.calls));
      } else {
        AddStepExtends(st, name, desired, fates(st.calls));
      }
    }
  }

  /** A run that ends well without an update is such a run. */
  lemma AddOnlyRunKeepsRules(cat: Catalog, before: Store, fates: nat -> CallFate, owner: string,
                             a: seq<RemotePermission>, b: seq<RemotePermission>, modelFilter: string)
    requires ValidStore(before)
    requires var run := Register(cat, before, false, fates);
             && run.error == None && run.result.updated == 0
             && Enumerates(before, owner, a) && Enumerates(run.perms, owner, b)
    ensures multiset(Rules(a, modelFilter)) == multiset(Rules(b, modelFilter))
  {
    var byName := ByName(before, TrimSpace(cat.owner));
    var step := Stepper(cat, byName, fates);
    forall st: RunState, p
      ensures if FAILED(st) then step(st, p) == st
              else && UPDATED(st) <= UPDATED(step(st, p))
                   && (FAILED(step(st, p)) || UPDATED(st) < UPDATED(step(st, p))
                       || Extends(STORE(st), STORE(step(st, p))))
    {
      StepPairExtends(cat, byName, st, p, fates);
    }
    FoldExtends(step, UPDATED, FAILED, STORE, Start(before), Pairs(cat.entries));
    AddsCompileToNothing(cat, before, false, fates, owner, a, b, modelFilter);
  }

  lemma PairsTrimmed(entries: seq<CatalogEntry>, p: Pair)
    requires p in Pairs(entries)
    ensures p.obj != "" && p.act != "" && TrimSpace(p.obj) == p.obj && TrimSpace(p.act) == p.act
  {
    FlatMapContains(entries, EntryPairs(), p);
    var e :| e in entries && p in EntryPairs()(e);
    FlatMapContains(e.actions, ActionPairs(TrimSpace(e.obj)), p);
    var a :| a in e.actions && p in ActionPairs(TrimSpace(e.obj))(a);
    TrimSpaceTrims(e.obj);
    TrimSpaceTrims(a);
  }

  lemma GoalFields(cat: Catalog, before: Store, p: Pair)
    ensures var g := Goal(cat, before)(p);
            && g.isEnabled && g.state == "Approved" && g.effect == "Allow" && g.model == TrimSpace(cat.model)
            && g.resources == [p.obj] && g.actions == [p.act]
            && g.roles == if PairKey(cat, p) in before then before[PairKey(cat, p)].roles else []
  {
  }

  lemma PairGrants(g: RemotePermission, p: Pair, modelFilter: string, r: Rule)
    requires g.isEnabled && g.state == "Approved" && g.effect == "Allow"
    requires modelFilter == "" || g.model == modelFilter
    requires g.resources == [p.obj] && g.actions == [p.act]
    requires p.obj != "" && p.act != "" && TrimSpace(p.obj) == p.obj && TrimSpace(p.act) == p.act
    ensures Grants(g, modelFilter, r) <==> BindsRole(g, r.sub) && r.obj == p.obj && r.act == p.act
  {
    TrimmedUnchanged("Allow");
    assert InAnyCase("Approved", "approved", "APPROVED") && InAnyCase("Allow", "allow", "ALLOW");
    ListsOne(p.obj, r.obj);
    ListsOne(p.act, r.act);
  }

  lemma ListsOne(x: string, text: string)
    requires x != "" && TrimSpace(x) == x
    ensures Lists([x], text) <==> text == x
  {
    assert x in [x];
  }

  /** After a successful run of a consistent catalog, a catalog permission grants exactly its
      own pair to exactly the roles the operator had bound, even if the record was disabled,
      denied, pending or of another model before. */
  lemma CatalogGrantsExactly(cat: Catalog, before: Store, fates: nat -> CallFate, p: Pair, modelFilter: string, r: Rule)
    requires ValidStore(before) && Consistent(Pairs(cat.entries)) && p in Pairs(cat.entries)
    requires Register(cat, before, false, fates).error == None
    requires modelFilter == "" || modelFilter == TrimSpace(cat.model)
    ensures var k := KeyFor(cat)(p);
            var after := Register(cat, before, false, fates).perms;
            && k in after
            && (Grants(after[k], modelFilter, r) <==>
                k in before && BindsRole(before[k], r.sub) && r.obj == p.obj && r.act == p.act)
  {
    var after := Register(cat, before, false, fates).perms;
    RegisterBetween(cat, before, false, fates);
    ConsistentSlots(cat);
    SettledAlone(after, p, Pairs(cat.entries), KeyFor(cat), Goal(cat, before));
    PairsTrimmed(cat.entries, p);
    GoalFields(cat, before, p);
    PairGrants(after[KeyFor(cat)(p)], p, modelFilter, r);
  }

  // ----- what a catalog writes -----

  /** The nine values a catalog wants of the record of a pair: they name the pair, the service
      and the model, and switch the permission on. */
  ghost predicate AsDeclared(cat: Catalog, r: RemotePermission, p: Pair) {
    && r.displayName == p.obj + ":" + p.act
    && r.description == "VPP authz catalog ("
                        + (if TrimSpace(cat.service) == "" then "service" else TrimSpace(cat.service))
                        + "): " + p.obj + ":" + p.act
                        + " \U{2014} bind roles in Casdoor; do not rely on empty Roles for enforce"
    && r.model == TrimSpace(cat.model) && r.resourceType == "Custom"
    && r.resources == [p.obj] && r.actions == [p.act]
    && r.effect == "Allow" && r.isEnabled && r.state == "Approved"
  }

  lemma FullIDOf(p: Pair)
    requires TrimSpace(p.obj) == p.obj && TrimSpace(p.act) == p.act
    ensures FullPermissionID(p.obj, p.act) == p.obj + ":" + p.act
  {
  }

  lemma DescriptionOf(cat: Catalog, obj: string, act: string)
    ensures CatalogDescription(cat.service, obj + ":" + act)
         == "VPP authz catalog (" + (if TrimSpace(cat.service) == "" then "service" else TrimSpace(cat.service))
            + "): " + obj + ":" + act + " \U{2014} bind roles in Casdoor; do not rely on empty Roles for enforce"
  {
    var svc := if TrimSpace(cat.service) == "" then "service" else TrimSpace(cat.service);
    var head := "VPP authz catalog (" + svc + "): ";
    assert head + (obj + ":" + act) == head + obj + ":" + act;
  }

  lemma DesiredAsDeclared(cat: Catalog, p: Pair)
    requires TrimSpace(p.obj) == p.obj && TrimSpace(p.act) == p.act
    ensures AsDeclared(cat, Desired(cat, p), p)
  {
    FullIDOf(p);
    DescriptionOf(cat, p.obj, p.act);
  }

  lemma DeclaredFieldsExactly(cat: Catalog, r: RemotePermission, d: RemotePermission, p: Pair)
    requires AsDeclared(cat, d, p)
    ensures AsDeclared(cat, r, p) <==> SameCatalogFields(r, d)
  {
  }

  lemma MergeTakesFields(old': RemotePermission, d: RemotePermission)
    ensures SameCatalogFields(Merge(old', d), d)
    ensures Merge(old', d) == old' <==> SameCatalogFields(old', d)
  {
  }

  /** The record a pair wants has the declared values, and is the one found exactly when that
      has them already. */
  lemma GoalAsDeclared(cat: Catalog, before: Store, p: Pair)
    requires TrimSpace(p.obj) == p.obj && TrimSpace(p.act) == p.act
    ensures AsDeclared(cat, Goal(cat, before)(p), p)
    ensures Skipped(cat, before, p) <==> KeyFor(cat)(p) in before && AsDeclared(cat, before[KeyFor(cat)(p)], p)
  {
    var k, d := PairKey(cat, p), Desired(cat, p);
    DesiredAsDeclared(cat, p);
    if k in before {
      MergeTakesFields(before[k], d);
      DeclaredFieldsExactly(cat, Merge(before[k], d), d, p);
      DeclaredFieldsExactly(cat, before[k], d, p);
    }
  }

  /** After a successful run of a consistent catalog, every pair of it has a record, under its
      name, with exactly the declared values and the bindings it had. */
  lemma CatalogRecordsExactly(cat: Catalog, before: Store, fates: nat -> CallFate, p: Pair)
    requires ValidStore(before) && Consistent(Pairs(cat.entries)) && p in Pairs(cat.entries)
    requires Register(cat, before, false, fates).error == None
    ensures var k := Key(TrimSpace(cat.owner), CatalogPermissionName(p.obj, p.act));
            var after := Register(cat, before, false, fates).perms;
            && k in after && AsDeclared(cat, after[k], p)
            && (if k in before then SameBindings(before[k], after[k]) else Unbound(after[k]))
  {
    var k, after := KeyFor(cat)(p), Register(cat, before, false, fates).perms;
    RegisterBetween(cat, before, false, fates);
    RegisterPreservesBindings(cat, before, false, fates);
    ConsistentSlots(cat);
    SettledAlone(after, p, Pairs(cat.entries), KeyFor(cat), Goal(cat, before));
    PairsTrimmed(cat.entries, p);
    GoalAsDeclared(cat, before, p);
    assert SlotSafe(cat, before, after, k);
  }

  /** An add stores the record and counts it, if the key is free and the call works; a failure
      names the record. */
  lemma AddStepExactly(st: RunState, name: string, desired: RemotePermission, fate: CallFate)
    requires st.error == None
    ensures var next, k := AddStep(st, name, desired, fate), Key(desired.owner, desired.name);
            if k !in st.perms && fate == Works
            then next == RunState(st.perms[k := desired], st.result.(added := st.result.added + 1), st.calls + 1, None)
            else next.result == st.result && next.calls == st.calls + 1 && next.error == Some(AddFailed(name))
  {
  }

  /** An update replaces the record and counts it, if the key is there and the call works. */
  lemma UpdateStepExactly(st: RunState, name: string, current: RemotePermission, merged: RemotePermission,
                          fate: CallFate)
    requires st.error == None && !SameCatalogFields(current, merged)
    ensures var next, k := ReconcileStep(st, name, current, merged, fate), Key(merged.owner, merged.name);
            if k in st.perms && fate == Works
            then next.perms == st.perms[k := merged] && next.calls == st.calls + 1 && next.error == None
                 && next.result == st.result.(updated := st.result.updated + 1)
            else next.result == st.result && next.calls == st.calls + 1 && next.error == Some(UpdateFailed(name))
  {
  }

  /** A run counts a pair as skipped, and makes no call for it, exactly when its record has the
      declared values when the run begins. */
  lemma SkipsExactly(cat: Catalog, perms: Store, st: RunState, p: Pair, fates: nat -> CallFate)
    requires ValidStore(perms) && st.error == None && p in Pairs(cat.entries)
    ensures var k := Key(TrimSpace(cat.owner), CatalogPermissionName(p.obj, p.act));
            var next := StepPair(cat, ByName(perms, TrimSpace(cat.owner)), st, p, fates);
            next == MoreSkipped(st, 1) <==> k in perms && AsDeclared(cat, perms[k], p)
  {
    PairsTrimmed(cat.entries, p);
    GoalAsDeclared(cat, perms, p);
    StepPairSkips(cat, perms, st, p, fates);
  }

  /** The pairs of a catalog: every entry's trimmed object with each of its trimmed actions,
      unless one of the two is blank. */
  lemma PairsExactly(entries: seq<CatalogEntry>, p: Pair)
    ensures p in Pairs(entries) <==>
            exists e, a ::
              e in entries && a in e.actions && p == Pair(TrimSpace(e.obj), TrimSpace(a)) && p.obj != "" && p.act != ""
  {
    FlatMapContains(entries, EntryPairs(), p);
    forall e | e in entries
      ensures p in EntryPairs()(e) <==>
              exists a :: a in e.actions && p == Pair(TrimSpace(e.obj), TrimSpace(a)) && p.obj != "" && p.act != ""
    {
      FlatMapContains(e.actions, ActionPairs(TrimSpace(e.obj)), p);
      if a :| a in e.actions && p == Pair(TrimSpace(e.obj), TrimSpace(a)) && p.obj != "" && p.act != "" {
        assert p in ActionPairs(TrimSpace(e.obj))(a);
      }
    }
  }

  /** A catalog without owner or model, or a fetch that fails, is an error that touches nothing. */
  lemma NothingWithoutFetch(cat: Catalog, before: Store, fetchFails: bool, fates: nat -> CallFate)
    requires TrimSpace(cat.owner) == "" || TrimSpace(cat.model) == "" || fetchFails
    ensures var run := Register(cat, before, fetchFails, fates);
            && run.perms == before && run.result == RegisterResult(0, 0, 0) && run.calls == 0
            && run.error == Some(if TrimSpace(cat.owner) == "" then OwnerRequired
                                 else if TrimSpace(cat.model) == "" then ModelRequired else FetchFailed)
  {
  }
}
