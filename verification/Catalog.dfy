/** Registration of a service's permission catalog in the remote store
    (internal/platform/authz/catalog.go). */
module Catalog {
  import opened Wrappers
  import opened Sequences
  import opened Text
  import opened Policy

  datatype CatalogEntry = CatalogEntry(obj: string, actions: seq<string>)

  datatype Catalog = Catalog(owner: string, model: string, service: string, entries: seq<CatalogEntry>)

  datatype RegisterResult = RegisterResult(added: nat, updated: nat, skipped: nat)

  datatype CatalogError =
    | OwnerRequired
    | ModelRequired
    | FetchFailed
    | AddFailed(name: string)
    | UpdateFailed(name: string)

  // ----- the remote store -----

  datatype Key = Key(owner: string, name: string)

  type Store = map<Key, RemotePermission>

  /** How a remote write goes. A call may fail after the store has already applied it. */
  datatype CallFate = Works | FailsUnapplied | FailsApplied

  ghost predicate ValidStore(perms: Store) {
    forall k | k in perms :: perms[k].owner == k.owner && perms[k].name == k.name
  }

  function KeyOf(p: RemotePermission): Key {
    Key(p.owner, p.name)
  }

  function StoreAfterAdd(perms: Store, p: RemotePermission, fate: CallFate): Store {
    if KeyOf(p) in perms || fate.FailsUnapplied? then perms else perms[KeyOf(p) := p]
  }

  predicate AddSucceeds(perms: Store, p: RemotePermission, fate: CallFate) {
    KeyOf(p) !in perms && fate.Works?
  }

  function StoreAfterUpdate(perms: Store, p: RemotePermission, fate: CallFate): Store {
    if KeyOf(p) !in perms || fate.FailsUnapplied? then perms else perms[KeyOf(p) := p]
  }

  predicate UpdateSucceeds(perms: Store, p: RemotePermission, fate: CallFate) {
    KeyOf(p) in perms && fate.Works?
  }

  /** A listing of one owner's permissions: each once, in any order. */
  ghost predicate Enumerates(perms: Store, owner: string, list: seq<RemotePermission>) {
    && (forall i, j | 0 <= i < j < |list| :: list[i].name != list[j].name)
    && (forall p :: p in list <==> Key(owner, p.name) in perms && perms[Key(owner, p.name)] == p)
  }

  class PermissionAdmin {
    var perms: Store

    constructor (initial: Store)
      ensures perms == initial
    {
      perms := initial;
    }

    method FetchPermissions(owner: string, fails: bool) returns (r: Result<seq<RemotePermission>, ()>)
      requires ValidStore(perms)
      ensures r.Err? <==> fails
      ensures r.Ok? ==> Enumerates(perms, owner, r.value)
    {
      if fails {
        return Err(());
      }
      var left := set k | k in perms && k.owner == owner;
      var out: seq<RemotePermission> := [];
      while left != {}
        invariant forall k | k in left :: k in perms && k.owner == owner
        invariant forall i, j | 0 <= i < j < |out| :: out[i].name != out[j].name
        invariant forall p | p in out :: Key(owner, p.name) !in left
        invariant forall p | p in out :: Key(owner, p.name) in perms && perms[Key(owner, p.name)] == p
        invariant forall k | k in perms && k.owner == owner && k !in left :: perms[k] in out
        decreases left
      {
        var k :| k in left;
        left := left - {k};
        out := out + [perms[k]];
      }
      r := Ok(out);
    }

    method AddPermission(p: RemotePermission, fate: CallFate) returns (ok: bool)
      modifies this
      ensures perms == StoreAfterAdd(old(perms), p, fate)
      ensures ok == AddSucceeds(old(perms), p, fate)
    {
      if KeyOf(p) in perms {
        return false;
      }
      if !fate.FailsUnapplied? {
        perms := perms[KeyOf(p) := p];
      }
      ok := fate.Works?;
    }

    method UpdatePermission(p: RemotePermission, fate: CallFate) returns (ok: bool)
      modifies this
      ensures perms == StoreAfterUpdate(old(perms), p, fate)
      ensures ok == UpdateSucceeds(old(perms), p, fate)
    {
      if KeyOf(p) !in perms {
        return false;
      }
      if !fate.FailsUnapplied? {
        perms := perms[KeyOf(p) := p];
      }
      ok := fate.Works?;
    }
  }

  // ----- what a catalog asks for -----

  function CatalogPermissionName(obj: string, action: string): string {
    "catalog-" + ColonsToDashes(TrimSpace(obj)) + "-" + TrimSpace(action)
  }

  function FullPermissionID(obj: string, action: string): string {
    TrimSpace(obj) + ":" + TrimSpace(action)
  }

  function CatalogDescription(service: string, fullID: string): string {
    var svc := if TrimSpace(service) == "" then "service" else TrimSpace(service);
    "VPP authz catalog (" + svc + "): " + fullID
    + " \U{2014} bind roles in Casdoor; do not rely on empty Roles for enforce"
  }

  /** One non-blank, trimmed (object, action) of the catalog. */
  datatype Pair = Pair(obj: string, act: string)

  function ActionPairs(obj: string): string -> seq<Pair> {
    (action: string) => if TrimSpace(action) == "" then [] else [Pair(obj, TrimSpace(action))]
  }

  function EntryPairs(): CatalogEntry -> seq<Pair> {
    (e: CatalogEntry) =>
      if TrimSpace(e.obj) == "" then [] else FlatMap(e.actions, ActionPairs(TrimSpace(e.obj)))
  }

  /** The pairs of a catalog, in the order the two loops reach them. */
  function Pairs(entries: seq<CatalogEntry>): seq<Pair> {
    FlatMap(entries, EntryPairs())
  }

  function NameOf(p: Pair): string {
    CatalogPermissionName(p.obj, p.act)
  }

  function Desired(cat: Catalog, p: Pair): RemotePermission {
    var fullID := FullPermissionID(p.obj, p.act);
    RemotePermission(TrimSpace(cat.owner), NameOf(p), fullID, CatalogDescription(cat.service, fullID),
                     [], [], [], [], TrimSpace(cat.model), "Custom", [p.obj], [p.act], "Allow", true, "Approved")
  }

  /** mergeCatalogPermission: the catalog's fields over the old record; owner, name, users,
      groups, roles and domains stay the operator's. */
  function Merge(old': RemotePermission, desired: RemotePermission): RemotePermission {
    old'.(displayName := desired.displayName, description := desired.description, model := desired.model,
          resourceType := desired.resourceType, resources := desired.resources, actions := desired.actions,
          effect := desired.effect, isEnabled := desired.isEnabled, state := desired.state)
  }

  method StringSliceEqual(a: seq<string>, b: seq<string>) returns (equal: bool)
    ensures equal <==> a == b
  {
    if |a| != |b| {
      return false;
    }
    for i := 0 to |a|
      invariant a[..i] == b[..i]
    {
      if a[i] != b[i] {
        return false;
      }
    }
    equal := true;
  }

  /** catalogPermissionEqual compares the nine catalog fields only. */
  method CatalogPermissionEqual(a: RemotePermission, b: RemotePermission) returns (equal: bool)
    ensures equal <==> SameCatalogFields(a, b)
  {
    var resources := StringSliceEqual(a.resources, b.resources);
    var actions := StringSliceEqual(a.actions, b.actions);
    equal := a.displayName == b.displayName && a.description == b.description && a.model == b.model
             && a.resourceType == b.resourceType && a.effect == b.effect && a.isEnabled == b.isEnabled
             && a.state == b.state && resources && actions;
  }

  predicate SameCatalogFields(a: RemotePermission, b: RemotePermission) {
    a.displayName == b.displayName && a.description == b.description && a.model == b.model
    && a.resourceType == b.resourceType && a.effect == b.effect && a.isEnabled == b.isEnabled
    && a.state == b.state && a.resources == b.resources && a.actions == b.actions
  }

  // ----- one run, as a fold over the pairs -----

  /** A run in progress: the store, the counters, how many remote writes were made, and
      the error that ended it. */
  datatype RunState = RunState(perms: Store, result: RegisterResult, calls: nat, error: Option<CatalogError>)

  /** The records of one owner by name: the picture taken by the fetch at the start. */
  function ByName(perms: Store, owner: string): map<string, RemotePermission> {
    map k | k in perms && k.owner == owner :: k.name := perms[k]
  }

  /** A name the fetch did not find: add. */
  function AddStep(st: RunState, name: string, desired: RemotePermission, fate: CallFate): RunState {
    var ok := AddSucceeds(st.perms, desired, fate);
    RunState(StoreAfterAdd(st.perms, desired, fate),
             if ok then st.result.(added := st.result.added + 1) else st.result,
             st.calls + 1,
             if ok then None else Some(AddFailed(name)))
  }

  /** A record the fetch found: update it, unless that changes nothing. */
  function ReconcileStep(st: RunState, name: string, current: RemotePermission, merged: RemotePermission,
                         fate: CallFate)
    : RunState
  {
    if SameCatalogFields(current, merged) then st.(result := st.result.(skipped := st.result.skipped + 1))
    else
      var ok := UpdateSucceeds(st.perms, merged, fate);
      RunState(StoreAfterUpdate(st.perms, merged, fate),
               if ok then st.result.(updated := st.result.updated + 1) else st.result,
               st.calls + 1,
               if ok then None else Some(UpdateFailed(name)))
  }

  function StepPair(cat: Catalog, byName: map<string, RemotePermission>, st: RunState, p: Pair, fates: nat -> CallFate)
    : RunState
  {
    var name, desired := NameOf(p), Desired(cat, p);
    if st.error.Some? then st
    else if name !in byName then AddStep(st, name, desired, fates(st.calls))
    else ReconcileStep(st, name, byName[name], Merge(byName[name], desired), fates(st.calls))
  }

  function Stepper(cat: Catalog, byName: map<string, RemotePermission>, fates: nat -> CallFate)
    : (RunState, Pair) -> RunState
  {
    (st: RunState, p: Pair) => StepPair(cat, byName, st, p, fates)
  }

  function RunPairs(cat: Catalog, byName: map<string, RemotePermission>, st: RunState, pairs: seq<Pair>,
                    fates: nat -> CallFate): RunState {
    Fold(Stepper(cat, byName, fates), st, pairs)
  }

  const NO_COUNTS := RegisterResult(0, 0, 0)

  function Start(perms: Store): RunState {
    RunState(perms, NO_COUNTS, 0, None)
  }

  /** RegisterCatalog on a store, with the fates of the fetch and of each write. */
  function Register(cat: Catalog, perms: Store, fetchFails: bool, fates: nat -> CallFate): RunState {
    if TrimSpace(cat.owner) == "" then Start(perms).(error := Some(OwnerRequired))
    else if TrimSpace(cat.model) == "" then Start(perms).(error := Some(ModelRequired))
    else if fetchFails then Start(perms).(error := Some(FetchFailed))
    else RunPairs(cat, ByName(perms, TrimSpace(cat.owner)), Start(perms), Pairs(cat.entries), fates)
  }

  lemma RunPairsStopped(cat: Catalog, byName: map<string, RemotePermission>, st: RunState, pairs: seq<Pair>,
                        fates: nat -> CallFate)
    requires st.error.Some?
    ensures RunPairs(cat, byName, st, pairs, fates) == st
  {
    FoldStuck(Stepper(cat, byName, fates), st, pairs);
  }

  /** One more turn of a loop whose turns contribute the pairs f gives. */
  lemma RunTurn<A>(cat: Catalog, byName: map<string, RemotePermission>, st: RunState, items: seq<A>, i: nat,
                   f: A -> seq<Pair>, fates: nat -> CallFate)
    requires i < |items|
    ensures RunPairs(cat, byName, st, FlatMap(items[..i + 1], f), fates)
         == RunPairs(cat, byName, RunPairs(cat, byName, st, FlatMap(items[..i], f), fates), f(items[i]), fates)
  {
    FlatMapStep(items, i, f);
    FoldConcat(Stepper(cat, byName, fates), st, FlatMap(items[..i], f), f(items[i]));
  }

  /** A turn that ends in an error ends the loop. */
  lemma {:induction false} RunStopsEarly<A>(cat: Catalog, byName: map<string, RemotePermission>, st: RunState,
                                            items: seq<A>, i: nat, f: A -> seq<Pair>, fates: nat -> CallFate)
    requires i <= |items|
    requires RunPairs(cat, byName, st, FlatMap(items[..i], f), fates).error.Some?
    ensures RunPairs(cat, byName, st, FlatMap(items, f), fates)
            == RunPairs(cat, byName, st, FlatMap(items[..i], f), fates)
  {
    assert items == items[..i] + items[i..];
    FlatMapConcat(items[..i], items[i..], f);
    FoldConcat(Stepper(cat, byName, fates), st, FlatMap(items[..i], f), FlatMap(items[i..], f));
    RunPairsStopped(cat, byName, RunPairs(cat, byName, st, FlatMap(items[..i], f), fates), FlatMap(items[i..], f),
                    fates);
  }

  // ----- the run as the code performs it -----

  class Registration {
    var out: RegisterResult
    var calls: nat

    ghost function Progress(admin: PermissionAdmin, error: Option<CatalogError>): RunState
      reads this, admin
    {
      RunState(admin.perms, out, calls, error)
    }

    constructor ()
      ensures out == NO_COUNTS && calls == 0
    {
      out, calls := NO_COUNTS, 0;
    }

    /** The body of the inner loop, for one pair. */
    method RegisterPair(admin: PermissionAdmin, cat: Catalog, byName: map<string, RemotePermission>, p: Pair,
                        fates: nat -> CallFate)
      returns (error: Option<CatalogError>)
      modifies this, admin
      ensures Progress(admin, error) == RunPairs(cat, byName, old(Progress(admin, None)), [p], fates)
    {
      FoldOne(Stepper(cat, byName, fates), Progress(admin, None), p);
      var name := CatalogPermissionName(p.obj, p.act);
      var desired := Desired(cat, p);
      if name !in byName {
        var ok := admin.AddPermission(desired, fates(calls));
        calls := calls + 1;
        if !ok {
          return Some(AddFailed(name));
        }
        out := out.(added := out.added + 1);
        return None;
      }
      var old' := byName[name];
      var merged := Merge(old', desired);
      var equal := CatalogPermissionEqual(old', merged);
      if equal {
        out := out.(skipped := out.skipped + 1);
        return None;
      }
      var ok := admin.UpdatePermission(merged, fates(calls));
      calls := calls + 1;
      if !ok {
        return Some(UpdateFailed(name));
      }
      out := out.(updated := out.updated + 1);
      error := None;
    }

    /** The inner loop: the actions of one entry. */
    method RegisterActions(admin: PermissionAdmin, cat: Catalog, byName: map<string, RemotePermission>, obj: string,
                           actions: seq<string>, fates: nat -> CallFate)
      returns (error: Option<CatalogError>)
      modifies this, admin
      ensures Progress(admin, error) == RunPairs(cat, byName, old(Progress(admin, None)),
                                                 FlatMap(actions, ActionPairs(obj)), fates)
    {
      var f := ActionPairs(obj);
      ghost var start := Progress(admin, None);
      for i := 0 to |actions|
        invariant Progress(admin, None) == RunPairs(cat, byName, start, FlatMap(actions[..i], f), fates)
      {
        ghost var before := Progress(admin, None);
        RunTurn(cat, byName, start, actions, i, f, fates);
        var act := TrimSpace(actions[i]);
        if act == "" {
          assert f(actions[i]) == [];
          continue;
        }
        assert f(actions[i]) == [Pair(obj, act)];
        error := RegisterPair(admin, cat, byName, Pair(obj, act), fates);
        assert Progress(admin, error) == RunPairs(cat, byName, start, FlatMap(actions[..i + 1], f), fates);
        if error.Some? {
          RunStopsEarly(cat, byName, start, actions, i + 1, f, fates);
          return;
        }
      }
      assert actions[..|actions|] == actions;
      error := None;
    }

    /** The outer loop's body: one entry, unless its object is blank. */
    method RegisterEntry(admin: PermissionAdmin, cat: Catalog, byName: map<string, RemotePermission>,
                         entry: CatalogEntry, fates: nat -> CallFate)
      returns (error: Option<CatalogError>)
      modifies this, admin
      ensures Progress(admin, error) == RunPairs(cat, byName, old(Progress(admin, None)), EntryPairs()(entry), fates)
    {
      var obj := TrimSpace(entry.obj);
      if obj == "" {
        return None;
      }
      error := RegisterActions(admin, cat, byName, obj, entry.actions, fates);
    }
  }

  /** A map that has exactly the listed records under their names. */
  lemma ListedByName(list: seq<RemotePermission>, perms: Store, owner: string, byName: map<string, RemotePermission>)
    requires ValidStore(perms) && Enumerates(perms, owner, list)
    requires forall n | n in byName :: byName[n] in list && byName[n].name == n
    requires forall p | p in list :: p.name in byName
    ensures byName == ByName(perms, owner)
  {
    forall n ensures n in byName <==> Key(owner, n) in perms
      ensures n in byName ==> byName[n] == perms[Key(owner, n)]
    {
      if Key(owner, n) in perms {
        assert perms[Key(owner, n)] in list;
      }
    }
    forall n ensures n in ByName(perms, owner) <==> Key(owner, n) in perms {
      if Key(owner, n) in perms {
        assert Key(owner, n).owner == owner;
      }
    }
  }

  /** The map built from the fetched list: a later record of a name replaces an earlier one. */
  method IndexByName(list: seq<RemotePermission>, ghost perms: Store, ghost owner: string)
      returns (byName: map<string, RemotePermission>)
    requires ValidStore(perms) && Enumerates(perms, owner, list)
    ensures byName == ByName(perms, owner)
  {
    byName := map[];
    for i := 0 to |list|
      invariant forall n | n in byName :: byName[n] in list && byName[n].name == n
      invariant forall j | 0 <= j < i :: list[j].name in byName
    {
      byName := byName[list[i].name := list[i]];
    }
    ListedByName(list, perms, owner, byName);
  }

  method RegisterCatalog(admin: PermissionAdmin, cat: Catalog, fetchFails: bool, fates: nat -> CallFate)
    returns (out: RegisterResult, error: Option<CatalogError>)
    requires ValidStore(admin.perms)
    modifies admin
    ensures var run := Register(cat, old(admin.perms), fetchFails, fates);
            admin.perms == run.perms && out == run.result && error == run.error
  {
    var owner := TrimSpace(cat.owner);
    if owner == "" {
      return NO_COUNTS, Some(OwnerRequired);
    }
    var model := TrimSpace(cat.model);
    if model == "" {
      return NO_COUNTS, Some(ModelRequired);
    }
    var existing := admin.FetchPermissions(owner, fetchFails);
    if existing.Err? {
      return NO_COUNTS, Some(FetchFailed);
    }
    var byName := IndexByName(existing.value, admin.perms, owner);
    var reg := new Registration();
    ghost var start := Start(admin.perms);
    for i := 0 to |cat.entries|
      invariant reg.Progress(admin, None) == RunPairs(cat, byName, start, FlatMap(cat.entries[..i], EntryPairs()),
                                                      fates)
    {
      RunTurn(cat, byName, start, cat.entries, i, EntryPairs(), fates);
      error := reg.RegisterEntry(admin, cat, byName, cat.entries[i], fates);
      if error.Some? {
        RunStopsEarly(cat, byName, start, cat.entries, i + 1, EntryPairs(), fates);
        return reg.out, error;
      }
    }
    assert cat.entries[..|cat.entries|] == cat.entries;
    return reg.out, None;
  }
}
