# Proofs about the VPP backend

This project models three parts of the VPP backend in Dafny 4.11 and proves what each is for.

* **The canonical resource revision** (`api/contracts/revision.go`). Two services hash a
  snapshot of a resolved scope and must agree on the result. The model has the sorting, the
  validation and the length-prefixed encoder in the form they run in, and an independent
  decoder. The bytes are a canonical form: equal exactly when the scope and the three
  multisets are equal, whatever bytes the ids contain.
* **The authorization cache and the permission catalog** (`internal/platform/authz`). Remote
  permissions are compiled to rules, swapped into a checker, persisted with write-then-rename
  and consulted under three tiers of staleness; a catalog registration upserts permissions
  into the remote store. The model covers whole lives of a process (replacements that fail
  anywhere, crashes, restarts) and whole sequences of registrations.
* **The simulated device runtime** (`internal/simulator`). Five kinds of device, a fault engine
  keyed by two aliases, a manager with two indexes over the same devices, and the retrying
  loader. The proofs are about every interleaving of ticks, commands, faults, status changes,
  resets and loads.

`dafny verify dfyconfig.toml` checks everything.

## How it is laid out

| files | content |
|---|---|
| `Strconv`, `Text`, `GoTime`, `Wrappers` | Go integers, strings, time and optional results |
| `Order`, `Sequences`, `Slots` | sorting by a total order, loops as folds and flat maps, stores that change slot by slot |
| `Revision`, `RevisionDecoder` | the snapshot encoder, its decoder and the canonical form |
| `Policy`, `Config`, `Decisions`, `Snapshot`, `CasbinChecker`, `CheckerRuns` | compiling rules, thresholds, decisions, the disk, the checker and syncer objects, whole lives |
| `Catalog`, `CatalogRuns`, `CatalogSuccess`, `CatalogSync` | one registration, repeated ones, when they succeed, and what callers notice of them |
| `Fault`, `Devices`, `DeviceRuns`, `BatteryRuns` | the fault engine, the devices, runs of one device, energy |
| `Fleet`, `FleetRuns`, `Manager` | the shared state and its runs, the manager and the fault handler as objects |
| `FleetThreads`, `FleetThawing`, `FleetStatus` | the same state under threads that interleave at every lock: values under faults, and statuses |
| `Retry` | loading with retries until a deadline |

Where the source updates objects, the model has classes with the same fields, and each method
is proved equal to a function on values; theorems about runs are then about those functions.
A `while` loop over a Go map takes the keys in an arbitrary order.

## What the proofs found

* Revision: the format comment (`api/contracts/revision.go:22-25`) leaves the version out of
  the sort keys; the code sorts by it too, and order independence needs that: two versions of
  one node would keep the caller's order otherwise (`VersionKeyNeeded`).
* `RegisterCatalog` does not refresh its picture of the store while it adds. With working calls
  it succeeds if and only if every name it asks for twice was already there (`SucceedsExactly`);
  so even a catalog that only repeats an action fails on a fresh store. Reruns get through,
  after at most as many failures as records are missing (`WorkingRunsSucceed`).
* A catalog in which two different pairs share a permission name, like `("a:b", "c")` and
  `("a", "b-c")`, never settles. Its first registration on an empty store fails
  (`CollidingFailsFirst`); once the record is there, registrations succeed and every single one
  rewrites something (`NeverSettles`, `CollidingNeverSettles`).
* A registration re-enables and re-approves catalog permissions that an operator had disabled
  (`CatalogGrantsExactly`).
* Permission is monotone in time exactly when a non-empty replacement is in force or nothing
  was ever synced. After a sync that brought no rules, the safety-net role is first denied and
  later admitted (`DegradesExactly`, `SafetyNetLater`), although `config.go:20-21` speaks of a
  cold start only.
* `ReplacePolicies` is called atomic in its comment. Should an `AddPolicy` fail, part of the new
  rules would stay under the old flag and age (`FlagBrokenExactly`); whatever fails, the flag
  stays truthful exactly for replacements without rules, or of one rule on an empty cache
  (`FlagSafeExactly`). Nothing in the repository shows that `AddPolicy` can fail on an enforcer
  without an adapter. Decisions would still have a reason (`EveryAllowHasAReason`).
* A snapshot saved with the zero time stops the next start (`RestartNeedsSyncTime`).
* A measured point declared as a control point breaks the limits of its device
  (`BoundedExactly`).
* `ResetAll` looks at no fault: it resets values of a device under an offline fault and puts it
  online until the next tick (`ResetIgnoresFaults`).
* `TickAll` and `Execute` hold no lock between their look at the faults and their write. An
  offline fault freezes a device from its request on exactly when no thread stands in between
  at that moment, if anyone may set statuses (`FreezesExactly`); if only the code does, also
  when the device is offline and nothing can bring it back (`FreezesInCodeExactly`).
* A request that is through between a sweep's look at the faults and its look at the status is
  undone by the same turn, which revives and ticks the device (`RaceRevives`); one that is
  through before the tick itself holds (`LateRequestHolds`). A clear between the look and the
  write leaves the device offline without a fault (`RaceGoesOffline`). A status goes on agreeing
  with the faults exactly when no thread holds such a stale look or write
  (`StatusAgreesExactly`).
* When the last spec of a CU code is not also the last of its external id, or the other way
  round, some device is commanded but never ticked, or ticked but not found
  (`IndexesAgreeExactly`, `TickStatus`). When a device's
  external id is another's CU code, a command and a fault under that key reach different
  devices (`TargetsAgreeExactly`).

## Modelling choices

* In `Revision` a Go string is a sequence of bytes. Elsewhere it is a sequence of code points:
  `TrimSpace` is exact, `ToLower` and `EqualFold` are exact for the ASCII words the code
  compares with. Strings that are not valid UTF-8 are not modelled there.
* `sort.SliceStable` is an in-place insertion sort; with a strict total order every stable sort
  returns the same array, which `SortedUnique` proves.
* SHA-256 with its hex form, Casbin's `keyMatch2` and the JSON codec are parameters. The codec
  is assumed to decode what it encoded. `model.conf` declares `g`, but the code never adds a
  grouping rule, so `g` is equality.
* The remote store is a map by owner and name. Adding an existing key and updating a missing
  one fail; any other call that fails may have been applied or not. An `AddPolicy` failure is
  the index of the failing rule.
* Each operation of the checker is under one lock and is one step. Under threads a step is
  what the simulator does under one lock; a key is looked up in both indexes at once, since
  only loads change them. `FleetRuns` takes a whole sweep, command, fault request or reset as
  one step, which is what a thread does that nobody interrupts (`AloneIsOneStep`). `PutStatus`
  is `SetStatus` of a device, called from outside; the code calls it in `TickAll`, `Execute` and
  `ApplyFault` only, which have steps of their own.
* Crashes may fall between any two steps of a save and inside the write of the temporary file;
  the rename is atomic.
* Durations are 64-bit: `Sub` saturates and the fault delay wraps around. Clock readings are
  unbounded integers, and 0 is Go's zero time.
* Measurements are reals; random draws and the sun's share are inputs, the same draws for the
  object and its specification. A draw lies in [-1, 1).
* `Registration` holds the locals of `RegisterCatalog`, and `TryOnce` is the loop body of
  `loadWithRetry`. The time that passes in each round of the latter, and the outcome of each
  load, are inputs.
* The fields `all`, `cuIndex` and `extIndex` of `Manager` are ghost: they name the devices of
  the last load in spec order.

## Model

| member | source | states |
|---|---|---|
| Revision.ComparatorsAreStrictTotal | api/contracts/revision.go:84-110 | each of the three comparators is a strict total order on all fields, so no two different rows tie |
| Order.SortInPlace | api/contracts/revision.go:84-110 | sorting in place yields the one sorted arrangement of the slice |
| Order.SortedUnique | api/contracts/revision.go:84-110 | a multiset has only one sorted arrangement, whatever sort made it |
| Order.SortCanonical | api/contracts/revision.go:80-110 | two lists sort to the same list exactly when they are the same multiset |
| Strconv.ParseIntExact | api/contracts/revision.go:120-127 | decimal printing has an exact inverse that rejects every other spelling, so it is injective |
| Revision.AppendLenPrefixed | api/contracts/revision.go:168-174 | appends one length-prefixed field and leaves what was in the buffer |
| Revision.AppendNodes | api/contracts/revision.go:119-128 | appends the node section, or returns the error of the first invalid node in the given order |
| Revision.AppendCapabilities | api/contracts/revision.go:130-139 | appends the capability section, or returns the error of the first invalid capability |
| Revision.AppendBindings | api/contracts/revision.go:141-150 | appends the binding section, or returns the error of the first invalid binding |
| Revision.ResourceRevision | api/contracts/revision.go:65-154 | returns the hash of the canonical snapshot or its error, and changes no slice of the caller |
| RevisionDecoder.ReadFieldExact | api/contracts/revision.go:168-174 | a reader gets exactly (value, rest) from a buffer if and only if the buffer is that field followed by that rest; ids may contain digits, ':' and newlines |
| RevisionDecoder.ReadRowsExact | api/contracts/revision.go:121-128 | the same for a counted list of rows |
| RevisionDecoder.ReadSectionExact | api/contracts/revision.go:119-150 | the same for a tagged section |
| RevisionDecoder.ReadScopeExact | api/contracts/revision.go:112-117 | the same for the version, the scope tag and the scope identity |
| RevisionDecoder.DecodeExact | api/contracts/revision.go:112-150 | the same for a whole snapshot: the decoder accepts exactly the encoder's output |
| RevisionDecoder.RoundTrip | api/contracts/revision.go:112-150 | every successful snapshot, followed by anything, decodes to the scope and the three sorted lists and leaves the rest untouched |
| RevisionDecoder.SnapshotSpellsFields | api/contracts/revision.go:112-150 | every successful snapshot, read back, has the scope and, row by row, the fields of the sorted nodes, capabilities and bindings in the order the format gives them, in key order, with known entity types only |
| RevisionDecoder.BytesLessExactly | api/contracts/revision.go:85-91 | the string order is that of the first byte that differs, or of the end |
| RevisionDecoder.ExampleBytes | api/contracts/revision.go:112-150 | the bytes of a small scope, written out: version, tags, counts and field order |
| RevisionDecoder.ErrorsInOrder | api/contracts/revision.go:71-149 | which error is reported: the scope first, then the nodes, the capabilities and the bindings, each with what is wrong |
| RevisionDecoder.CanonicalForm | api/contracts/revision.go:14-25 | two successful calls build equal bytes if and only if the scopes are equal and the three lists are equal as multisets |
| RevisionDecoder.PrefixFree | api/contracts/revision.go:168-174 | no snapshot is a proper prefix of another |
| RevisionDecoder.OrderIndependence | api/contracts/revision.go:80-150 | permuting the lists changes neither the bytes nor the error |
| RevisionDecoder.SucceedsExactly | api/contracts/revision.go:71-78 | a call succeeds if and only if the scope identity and every row are valid |
| RevisionDecoder.LeastBadNodeReported | api/contracts/revision.go:121-124 | with several bad nodes, the error is that of the least in key order |
| RevisionDecoder.VersionKeyNeeded | api/contracts/revision.go:91 | without the version key a stable sort keeps two versions of a node in the caller's order, and the bytes of the two orders differ |
| Policy.PoliciesFromPermissions | internal/platform/authz/policy.go:29-65 | the nested loops build the rules permission by permission, role by role, resource by resource, action by action |
| Policy.RulesExact | internal/platform/authz/policy.go:29-65 | a rule is produced if and only if some enabled, approved, allowing permission that passes the filter binds its role and lists its resource and action |
| Policy.CountsExactly | internal/platform/authz/policy.go:32-43 | a permission is imported if and only if it is enabled, approved in any case or without a state, allowing in any case or without an effect, and of the model asked for, if one is |
| Policy.OthersYieldNothing | internal/platform/authz/policy.go:32-43 | a permission that is disabled, pending or denied, or of another model, yields no rule |
| Policy.BareRoleExactly | internal/platform/authz/policy.go:67-76 | a role id without a slash, or with one at its end, is kept; any other becomes what follows its last slash |
| Policy.BareRoleDropsOrg | internal/platform/authz/policy.go:67-76 | org/name and name stand for the same role, for any org, slashes and spaces included |
| Config.WithDefaultsRepairs | internal/platform/authz/config.go:52-74 | withDefaults yields ordered positive thresholds from any configuration, keeps every good field, changes a configuration exactly when it is bad, and is idempotent |
| Config.BadFieldsBecome | internal/platform/authz/config.go:52-74 | which value each bad field is given |
| Config.DefaultsSpelled | internal/platform/authz/config.go:40-50 | the default configuration, with its times in nanoseconds |
| CasbinChecker.Checker.New | internal/platform/authz/casbin_checker.go:35-60 | a new checker has the given matcher and codec and the rules, flag and age of the snapshot, is cold without one, and fails on one it cannot read or decode |
| CasbinChecker.Checker.ReplacePoliciesLocked | internal/platform/authz/casbin_checker.go:171-181 | replaces rules, flag and age, or, when AddPolicy fails, only a prefix of the rules |
| CasbinChecker.Checker.ReplacePolicies | internal/platform/authz/casbin_checker.go:153-169 | memory first, then disk; nothing is saved after a failed replacement, and a failed save keeps the new rules |
| CasbinChecker.Checker.EnforceLocked | internal/platform/authz/casbin_checker.go:217-231 | true if and only if the request is not blank and some role of the caller is matched by some rule |
| CasbinChecker.Checker.Allow | internal/platform/authz/casbin_checker.go:71-118 | the decision of the tier, degraded if and only if the tier is not healthy |
| CasbinChecker.Syncer.SyncOnce | internal/platform/authz/syncer.go:34-49 | a failed fetch changes nothing; otherwise the compiled rules replace the old ones |
| CasbinChecker.EnforcedExactly | internal/platform/authz/policy.go:29-65 | the deduplicated rules enforce a request if and only if a remote permission grants it |
| CasbinChecker.SyncRefinesRemote | internal/platform/authz/syncer.go:34-49 | after a successful sync every request is answered from what the remote permissions grant, read off their fields: while healthy if and only if they grant it; while stale also only reads if writes are denied then; past that only reads, if switched on, or the safety net if they grant nothing at all |
| CasbinChecker.ReplaceReports | internal/platform/authz/casbin_checker.go:153-169 | a replacement reports success if and only if all rules are added and the save, if there is one, is done; it touches the disk only after all rules are in |
| CasbinChecker.SameRulesDecideAlike | internal/platform/authz/casbin_checker.go:171-181 | only the set of rules counts, in every tier |
| CasbinChecker.SyncIgnoresOrder | internal/platform/authz/syncer.go:34-49 | neither duplicates nor the order of the fetched permissions change an answer |
| Decisions.AddAllAdds | internal/platform/authz/casbin_checker.go:172-177 | adding rules one by one to an enforcer that drops duplicates loses none and invents none |
| Decisions.DecidesExactly | internal/platform/authz/casbin_checker.go:71-98 | every answer of every cache at every age, by whether a rule grants the request, the switches and the safety-net role |
| Decisions.ReplacedExactly | internal/platform/authz/casbin_checker.go:171-181 | rules, flag and time after a replacement that succeeds, and after one that fails |
| Decisions.TierBands | internal/platform/authz/casbin_checker.go:203-215 | the thresholds cut the age of a sync into the three tiers, in order and without a gap, saturation included |
| GoTime.SubExactly | internal/platform/authz/casbin_checker.go:207 | a difference of times that does not fit in 64 bits becomes the nearest one that does |
| Decisions.DegradesWithRules | internal/platform/authz/casbin_checker.go:80-97 | with loaded rules, what is allowed later was allowed earlier, for all flag settings |
| Decisions.DegradesExactly | internal/platform/authz/casbin_checker.go:80-97 | permission is only lost with time if and only if a non-empty replacement is in force or nothing was ever synced |
| Decisions.SafetyNetLater | internal/platform/authz/casbin_checker.go:89-92 | the exception: an empty cache denies the safety-net role at first and admits it once expired |
| Snapshot.Disk.SaveSnapshot | internal/platform/authz/snapshot.go:38-54 | the files a save leaves and what it returns, for a stop at or inside any step |
| Snapshot.Disk.LoadSnapshot | internal/platform/authz/snapshot.go:17-36 | no file is no snapshot; a read that fails, a file that cannot be decoded or a zero time is an error |
| Snapshot.SaveIsAllOrNothing | internal/platform/authz/snapshot.go:49-53 | wherever a save stops, the path holds the whole old or the whole new snapshot, the new one exactly when the save completed |
| Snapshot.SavesExactly | internal/platform/authz/snapshot.go:38-54 | a save that runs to its end leaves the data and no temporary file, any other leaves the path alone |
| Snapshot.SaveReports | internal/platform/authz/snapshot.go:38-54 | a save reports success if and only if it is switched off or done; a failed one is reported |
| Snapshot.LoadsExactly | internal/platform/authz/snapshot.go:17-36 | which files load, which are no snapshot, and which are which error |
| CheckerRuns.RestartRestores | internal/platform/authz/casbin_checker.go:51-58 | after any life, crashes included, a new process that can read its disk has the cache of the last completed save, or a cold one |
| CheckerRuns.RestartDecidesAlike | internal/platform/authz/casbin_checker.go:51-58 | so it answers every request at every time as the checker did then |
| CheckerRuns.RestartNeedsSyncTime | internal/platform/authz/snapshot.go:32-34 | a restart from a saved snapshot works if and only if its time is not zero |
| CheckerRuns.EveryAllowHasAReason | internal/platform/authz/casbin_checker.go:71-117 | in every reachable state an allowed request matches a rule of the replacement last begun or booted from, or is the safety net of an expired empty cache |
| CheckerRuns.FlagIsTruthful | internal/platform/authz/casbin_checker.go:144-181 | without AddPolicy failures the flag is set exactly when rules are loaded, loaded rules have a sync time, and they are those of the last replacement |
| CheckerRuns.FlagBrokenExactly | internal/platform/authz/casbin_checker.go:171-181 | if AddPolicy fails on a given rule, whether the flag then tells the truth |
| CheckerRuns.FlagSafeExactly | internal/platform/authz/casbin_checker.go:171-181 | the flag tells the truth whichever AddPolicy fails if and only if there are no rules, or one rule for an empty cache |
| Catalog.RegisterCatalog | internal/platform/authz/catalog.go:54-128 | the loops leave the store, the counters and the error of the run over the catalog's non-blank pairs |
| Catalog.CatalogPermissionEqual | internal/platform/authz/catalog.go:155-177 | true if and only if the nine catalog fields agree, resources and actions element by element |
| Catalog.StringSliceEqual | internal/platform/authz/catalog.go:167-177 | true if and only if the slices are equal |
| CatalogRuns.RegisterBetween | internal/platform/authz/catalog.go:77-126 | wherever a run stops, each record is untouched or is what a pair of the catalog wants there; after success every pair's record is |
| CatalogRuns.RegisterPreservesBindings | internal/platform/authz/catalog.go:138-153 | no run changes roles, users, groups or domains of an existing permission, or any permission outside the catalog; new ones are bound to nobody |
| CatalogRuns.PairsExactly | internal/platform/authz/catalog.go:77-86 | the pairs of a catalog are its trimmed objects with each of their trimmed actions, blanks left out |
| CatalogRuns.CatalogRecordsExactly | internal/platform/authz/catalog.go:89-105 | after a successful run of a consistent catalog every pair has a record with exactly the nine declared values, and with the bindings it had |
| CatalogRuns.SkipsExactly | internal/platform/authz/catalog.go:116-120 | a run skips a pair if and only if its record has those nine values |
| CatalogRuns.AddStepExactly | internal/platform/authz/catalog.go:108-114 | an add stores and counts the record if its key is free and the call works, and otherwise names it in the error |
| CatalogRuns.UpdateStepExactly | internal/platform/authz/catalog.go:116-124 | an update replaces and counts the record if its key is there and the call works, and otherwise names it in the error |
| CatalogRuns.NothingWithoutFetch | internal/platform/authz/catalog.go:59-71 | without an owner or a model, or when the fetch fails, the error says which and nothing is touched |
| CatalogRuns.RegisterCounts | internal/platform/authz/catalog.go:108-127 | added + updated + skipped is the number of non-blank pairs if and only if the run succeeds, and less otherwise |
| CatalogRuns.RerunOnlySkipsExactly | internal/platform/authz/catalog.go:72-127 | after a successful run the next one only skips and writes nothing if and only if no two different pairs share a name |
| CatalogRuns.RetriesConverge | internal/platform/authz/catalog.go:54-128 | after any failed attempts, an attempt that succeeds leaves the store that one uninterrupted run leaves |
| CatalogSuccess.SucceedsExactly | internal/platform/authz/catalog.go:72-113 | a run that reaches its pairs succeeds only if every name asked for twice was in the fetched store; if so, and all calls work, it does |
| CatalogSuccess.WorkingRunsSucceed | internal/platform/authz/catalog.go:72-127 | once calls work, a registration succeeds after at most as many failures as records are missing |
| CatalogSuccess.RetriesReachTarget | internal/platform/authz/catalog.go:54-128 | whatever failed before, a bounded number of working reruns leaves the target of the original store |
| CatalogSuccess.NeverSettles | internal/platform/authz/catalog.go:72-127 | once its records are there, a catalog with colliding names is registered without error for ever, and every run updates something |
| CatalogSuccess.CollidingFailsFirst | internal/platform/authz/catalog.go:107-111 | a concrete colliding catalog fails on an empty store, whatever the calls do |
| CatalogSuccess.CollidingNeverSettles | internal/platform/authz/catalog.go:116-124 | on a store that has its record, the first run, the second and every later one succeed and update |
| CatalogRuns.NameDetermines | internal/platform/authz/catalog.go:41-45 | among objects without '-' and with equally many ':', equal names mean equal objects and actions |
| CatalogRuns.NamesCollide | internal/platform/authz/catalog.go:41-45 | neither restriction can be dropped |
| CatalogRuns.ShapedCatalogConsistent | internal/platform/authz/catalog.go:39-45 | a catalog of service:name objects without '-' has distinct names |
| CatalogRuns.AddsCompileToNothing | internal/platform/authz/catalog.go:94-97 | new catalog records contribute no rule: the compiled multiset of rules is as before |
| CatalogRuns.AddOnlyRunKeepsRules | internal/platform/authz/catalog.go:108-126 | a successful run without updates keeps the multiset of rules |
| CatalogRuns.CatalogGrantsExactly | internal/platform/authz/catalog.go:138-153 | after success a catalog permission grants exactly its pair to exactly the roles bound before, even if it was disabled or denied |
| CatalogSync.AddOnlyRunDecidesAlike | internal/platform/authz/catalog.go:94-114 | a registration that only adds and skips changes no answer to any caller after the next sync |
| Fault.Engine.Apply | internal/simulator/fault/engine.go:37-56 | one application creates, changes or deletes the entry of its key, with default delay and 64-bit wrap-around |
| Fault.DelayExactly | internal/simulator/fault/engine.go:50-54 | a delay is that many milliseconds, 2000 if it is not positive, and wraps around in 64 bits |
| Fault.AppliedExactly | internal/simulator/fault/engine.go:37-56 | what each kind does to the entry of its key |
| Fault.Engine.Lookup | internal/simulator/fault/engine.go:72-88 | the merge is offline or rejecting if some entry is, and has the longest delay |
| Fault.Engine.IsOffline | internal/simulator/fault/engine.go:101-110 | true if and only if some key has an offline entry |
| Fault.Engine.ShouldRejectCommand | internal/simulator/fault/engine.go:90-99 | true if and only if some key has a rejecting entry |
| Fault.Engine.LongestDelay | internal/simulator/fault/engine.go:112-122 | the longest delay of the keys' entries, 0 if none is positive |
| Fault.LookupAgrees | internal/simulator/fault/engine.go:70-122 | Lookup agrees field by field with the three single queries on every key list |
| Fault.ReplayExact | internal/simulator/fault/engine.go:37-56 | after any history a key has an entry exactly when it was applied since its last clear, and the entry says what those applications say, the last delay counting |
| Fault.KeysIndependent | internal/simulator/fault/engine.go:27-56 | a key's entry is what its own applications alone would have made |
| Devices.Device.NewBase | internal/simulator/device/device.go:25-44 | points, values and flags are those of the non-virtual definitions, the last of a key winning |
| Devices.Device.constructor | internal/simulator/device/device.go:130-146 | a new device has the blueprint of its spec and type and its initial state |
| DeviceRuns.TypeDecides | internal/simulator/device/device.go:134-145 | which type words make which device, and its rating or the default of its type |
| DeviceRuns.SpecKept | internal/simulator/device/device.go:131-133 | a missing external id becomes the CU code; nothing else of the spec changes |
| DeviceRuns.StartsExactly | internal/simulator/device/device.go:172-181 | a new device is online with all points at 0, a battery with its charge within 5 of 60 |
| DeviceRuns.LastDefinitionWins | internal/simulator/device/device.go:34-42 | of several definitions of a point the last that is not virtual counts |
| Devices.Device.Tick | internal/simulator/device/device.go:185-205 | one tick of any of the five types takes the state to the specified next state |
| Devices.Device.TickPassthrough | internal/simulator/device/device.go:390-403 | the loop disturbs every point that is not a control point once, in any order |
| Devices.Device.Execute | internal/simulator/device/device.go:207-217 | the specified outcome and state, setpoint clamping included |
| Devices.Device.Reset | internal/simulator/device/device.go:219-232 | the specified reset state of the device's type |
| DeviceRuns.PointsAreNonVirtual | internal/simulator/device/device.go:34-42 | the points are exactly the non-virtual definitions, writable when flagged or the setpoint of a battery or an inverter |
| DeviceRuns.BehaviourFinds | internal/simulator/device/device.go:117-127 | each behaviour uses exactly its canonical metrics, when present, and positive ratings |
| DeviceRuns.TickTracks | internal/simulator/device/device.go:185-403 | a tick brings each measured point within its noise amplitude of its clamped setpoint, of the sun's share or of its old value |
| DeviceRuns.TickExactly | internal/simulator/device/device.go:185-403 | what a tick writes to each measured point, with the noise amplitude of each type |
| GoTime.UnitsSpelled | internal/simulator/device/device.go:191 | the units of time, and hours as a fraction of 3600 seconds |
| DeviceRuns.TickLeavesOthers | internal/simulator/device/device.go:185-403 | a tick changes nothing but measured points, and nothing at all on a device that is not online |
| DeviceRuns.ExecuteExactly | internal/simulator/device/device.go:88-100 | when a command goes through, that it then sets exactly its point, and with which error it is refused |
| DeviceRuns.ResetExactly | internal/simulator/device/device.go:219-232 | what every point reads after a reset |
| DeviceRuns.RunBounded | internal/simulator/device/device.go:159-380 | without flagged measured points every run keeps state of charge in [5,95], powers and battery setpoint within the rating, reactive power within half of it, PV in [0,max], meter in [-200,200] |
| DeviceRuns.BoundedExactly | internal/simulator/device/device.go:88-100 | from construction, every run keeps the limits if and only if no measured point is a control point |
| DeviceRuns.RunKeyed | internal/simulator/device/device.go:73-100 | in every run the values are those of the points, flags and limits aside |
| BatteryRuns.TickSoc | internal/simulator/device/device.go:196-204 | a tick moves the state of charge by its power, within the limits, and the power point reads that power |
| BatteryRuns.EnergyAccounts | internal/simulator/device/device.go:185-205 | where the limits do not bind, final charge is initial charge minus the energy drawn in percent of capacity, over any run without resets |
| BatteryRuns.ChargeMovesSlowly | internal/simulator/device/device.go:196-203 | charge never moves by more than 100 percent per hour online |
| BatteryRuns.Saturates | internal/simulator/device/device.go:196-203 | under a fixed setpoint beyond the noise, enough ticks leave the battery at exactly 5, or 95, and later ones too |
| Fleet.TurnsMapListed | internal/simulator/runtime/manager.go:88-106 | device by device in any order of the map, every listed device gets the operation exactly once |
| Fleet.IndexByExact | internal/simulator/runtime/manager.go:37-42 | a key of an index leads to the last spec with that key, and exactly the keys of specs are there |
| Fleet.StepValid | internal/simulator/runtime/manager.go:31-132 | every operation keeps indexes that lead to devices carrying the key |
| Fleet.StepKeepsShape | internal/simulator/runtime/manager.go:88-132 | only a load changes devices or indexes |
| Manager.Manager.List | internal/simulator/runtime/manager.go:78-86 | every device of the CU index once, in some order |
| Manager.Manager.Load | internal/simulator/runtime/manager.go:31-43 | new devices from the specs, and both indexes rebuilt |
| Manager.Manager.TickAll | internal/simulator/runtime/manager.go:88-106 | every listed device goes offline under an offline fault on either alias, and otherwise comes back online and ticks; nothing else changes |
| Manager.Manager.Execute | internal/simulator/runtime/manager.go:108-127 | external id first, then CU code; offline and reject faults refuse; otherwise the device's own answer |
| Manager.Manager.ResetAll | internal/simulator/runtime/manager.go:129-133 | every listed device is reset |
| Manager.Manager.Summary | internal/simulator/runtime/manager.go:154-179 | CU code first; the device's state and its faults merged over both aliases |
| Manager.Handler.ApplyFault | internal/simulator/api/handler.go:137-158 | an unknown kind changes nothing; a known one changes the engine and, for offline and clear, the status of the device so named |
| Manager.KindsNamed | internal/simulator/api/handler.go:137-143 | which words name which fault, spaces and case aside; all others are refused |
| Text.ToLowerExactly | internal/simulator/device/device.go:134 | lower case changes the capital letters of ASCII text and nothing else |
| Text.TrimSpaceCuts | internal/platform/authz/catalog.go:42-43 | a trim cuts all spaces off both ends, and nothing else |
| FleetRuns.RunProjects | internal/simulator/runtime/manager.go:88-133 | between loads, whatever the fleet goes through is, for each device, a run of its own events |
| FleetRuns.LookupOrder | internal/simulator/runtime/manager.go:108-162 | commands find the external id before the CU code, summaries and fault requests the other way round |
| FleetRuns.CommandExactly | internal/simulator/runtime/manager.go:117-127 | the answer to a command and what it leaves, in each case, and that nothing else changes |
| FleetRuns.CommandToNobody | internal/simulator/runtime/manager.go:109-115 | a command to an unknown key is not found and changes nothing |
| FleetRuns.RequestExactly | internal/simulator/api/handler.go:144-158 | a fault request is applied by the engine, an offline one puts the device it leads to offline, a clear puts it online, and nothing else changes |
| FleetRuns.RequestForNobody | internal/simulator/api/handler.go:144-158 | a request that leads to no device is applied by the engine only |
| FleetRuns.FleetStaysSound | internal/simulator/runtime/manager.go:31-133 | in every run, loads included, indexes are right and every device keeps its points and limits |
| FleetRuns.FleetEnergyAccounts | internal/simulator/device/device.go:185-205 | in every fleet run without reset or load a battery's charge falls by exactly the energy it gave while no limit binds, and never by more than 100 percent per hour online |
| FleetRuns.OfflineFreezes | internal/simulator/runtime/manager.go:96-99 | under an offline fault on either alias no tick, command, fault or status change alters a value |
| FleetRuns.RejectFreezes | internal/simulator/runtime/manager.go:122-124 | under a reject fault no command does |
| FleetRuns.OfflineFreezesRun | internal/simulator/runtime/manager.go:88-127 | from an offline fault on a key until that key is cleared, over any interleaving without reset or load, the device's values stay |
| FleetRuns.RejectFreezesRun | internal/simulator/runtime/manager.go:108-127 | the same for a reject fault, in runs without ticks |
| FleetRuns.TickStatus | internal/simulator/runtime/manager.go:96-105 | after a tick a listed device is offline if and only if an alias carries an offline fault; an unlisted device is passed over |
| FleetRuns.OfflineByHistory | internal/simulator/api/handler.go:144-158 | so its status can be read off the history of fault requests since the last clear of either key |
| FleetRuns.ResetIgnoresFaults | internal/simulator/runtime/manager.go:129-133 | a reset puts every listed device online with its reset values, faults or not |
| FleetRuns.IndexesAgreeExactly | internal/simulator/runtime/manager.go:34-42 | the two indexes hold the same devices if and only if the last spec of a CU code is always the last of its external id and conversely |
| FleetRuns.AllReachableExactly | internal/simulator/runtime/manager.go:31-43 | after any run, each spec of the last load has its own device under both keys if and only if CU codes and effective external ids are distinct |
| FleetRuns.TargetsAgreeExactly | internal/simulator/runtime/manager.go:108-162 | over distinct keys, commands and summaries resolve every key alike if and only if no external id is another device's CU code |
| FleetThreads.FreezesExactly | internal/simulator/runtime/manager.go:95-127 | with every lock an interleaving point: from an offline fault on a key until the key is cleared or the device reset, with fair draws and statuses set by anyone, values stay if and only if no thread then stands between its look at the faults and a write that would change something |
| FleetThreads.RejectFreezesExactly | internal/simulator/runtime/manager.go:118-126 | the same for a reject fault, ticks aside: if and only if no command has already passed its look at the reject faults |
| FleetThawing.FreezesInCodeExactly | internal/simulator/runtime/manager.go:95-127 | the same where only the code sets statuses: values stay if and only if no thread stands in between, or the device is offline and no thread, other key or sweep can bring it back |
| FleetThawing.RejectFreezesInCodeExactly | internal/simulator/runtime/manager.go:118-126 | the same for a reject fault, ticks aside |
| FleetThawing.AlwaysFormed | internal/simulator/runtime/manager.go:31-127 | what those two assume of a state holds after a load in every interleaving |
| FleetStatus.StatusAgreesExactly | internal/simulator/runtime/manager.go:96-105 | a status that agrees with the faults goes on doing so, until the device's own faults are touched, its status is set from outside or it is reset, if and only if no thread holds a stale look or status write |
| FleetStatus.FaultsFollowRequests | internal/simulator/fault/engine.go:37-56 | under threads the faults are those of the requests that came through, one after the other |
| FleetStatus.AgreedStatusByHistory | internal/simulator/api/handler.go:144-158 | where a status agrees with the faults, it can be read off the requests since the last clear of either key, under threads as well |
| FleetStatus.RaceGoesOffline | internal/simulator/runtime/manager.go:97-98 | a clear between a sweep's look and its write leaves the device offline without a fault |
| FleetStatus.LateRequestHolds | internal/simulator/runtime/manager.go:101-104 | a fault request that is through before the tick itself makes the tick do nothing |
| FleetThreads.RaceRevives | internal/simulator/runtime/manager.go:96-105 | a fault request that is through between a sweep's look at the faults and its look at the status is undone: the device ends online, with ticked values, under the fault |
| FleetThreads.AloneIsOneStep | internal/simulator/runtime/manager.go:88-133 | a thread that nobody interrupts does what the coarser model takes as one step, for every operation |
| Retry.LoadWithRetry | internal/simulator/server.go:129-164 | the loop makes exactly the specified loads, ends at the specified time with the specified result, and terminates |
| Retry.IntervalsRoundUp | internal/simulator/server.go:155-162 | the bound used below is the overall time divided by the interval, rounded up |
| Retry.LoadsBounded | internal/simulator/server.go:133-163 | at most that many loads, one if the interval is not positive, none if the overall time is not, however the clock moves |
| Retry.BoundReached | internal/simulator/server.go:133-163 | the bound is reached when loads fail at once and sleeps are exact |
| Retry.ResultTells | internal/simulator/server.go:136-161 | the count in an error is the number of loads made, its cause the last failure; the error without a count means no load; success means the last load succeeded |
| Retry.RetryTimely | internal/simulator/server.go:142-162 | each load's timeout is 10 s, or what is left until the deadline if that is less; loads are an interval apart; with an interval there is no giving up early |
| Retry.RetryEndsInTime | internal/simulator/server.go:155-162 | sleeps never reach past the deadline: the loop is over by then, but for the time two rounds take besides their sleep |

## Left out

* Server wiring, configuration, HTTP and gRPC plumbing, generated code, metrics, tracing and logging: no deep property.
* The Casdoor client, its breaker and its rate limiter: an abstract remote store stands in for them.
* SHA-256 collisions: equal bytes give equal digests, and nothing is said in the other direction.
* A nil admin in `RegisterCatalog` and a failing model or enforcer construction: there is no such value in the model.
* Errors of Casbin's `Enforce`: the matcher is a total predicate.
* Durability beyond an atomic rename, and the directory that a save creates.
* FleetRuns.OfflineFreezesRun: takes every operation as one step; under threads the exact conditions are those of `FleetThreads.FreezesExactly` and `FleetThawing.FreezesInCodeExactly`.
* FleetRuns.RejectFreezesRun: takes every operation as one step; under threads the exact conditions are those of `FleetThreads.RejectFreezesExactly` and `FleetThawing.RejectFreezesInCodeExactly`.
* FleetRuns.TickStatus: takes the sweep as one step; requests inside the device's turn break it, as `FleetThreads.RaceRevives` and `FleetStatus.RaceGoesOffline` show. Under threads the exact condition is that of `FleetStatus.StatusAgreesExactly`.
* FleetRuns.OfflineByHistory: takes every operation as one step, as `TickStatus` does; under threads it is `FleetStatus.AgreedStatusByHistory`, where the status agrees with the faults, which `FleetStatus.StatusAgreesExactly` decides.
* A load between two steps of another operation: threads are modelled between loads. A sweep under way would go on with the devices it listed.
* Floating point: rounding, NaN and infinity are outside a model on reals.
* The bell curve of PV output: any share of the rated power, in [0, 1] where limits matter.
* The seeding of random numbers: draws are inputs.
* `ReloadFromSpecs`, `Count`, `Snapshot` and `All`: easy readers and a load of the stored specs.
* `Run` of the syncer and the tick engine: they repeat `SyncOnce` and `TickAll` on a timer.
* `capability_specs.go` and `registry.go`: checks on fixed tables.
