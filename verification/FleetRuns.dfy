/** What holds of the whole fleet over every run of its operations. */
module FleetRuns {
  import opened Wrappers
  import opened Sequences
  import opened GoTime
  import opened Fault
  import opened Devices
  import DeviceRuns
  import BatteryRuns
  import opened Fleet

  ghost function Stepper(): (World, Event) -> World {
    (w: World, e: Event) => Step(w, e)
  }

  ghost function Run(w: World, events: seq<Event>): World {
    Fold(Stepper(), w, events)
  }

  ghost predicate NoLoad(events: seq<Event>) {
    forall e | e in events :: !e.Load?
  }

  lemma RunLast(w: World, events: seq<Event>, e: Event)
    ensures Run(w, events + [e]) == Step(Run(w, events), e)
  {
    FoldConcat(Stepper(), w, events, [e]);
    FoldOne(Stepper(), Run(w, events), e);
  }

  // ----- the fleet seen from one device -----

  /** What one event of the fleet is to its i-th device. */
  ghost function Seen(w: World, i: nat, e: Event): seq<DeviceRuns.Event>
    requires Has(w, i)
  {
    var bp, st := w.blueprints[i], w.states[i];
    match e
    case TickAll(hours, draws) =>
      if !Listed(w, i) then []
      else if OfflineFault(w, i) then [DeviceRuns.SetStatus(Offline)]
      else
        var tick := DeviceRuns.Tick(hours, draws(bp.spec.cuCode).sun, draws(bp.spec.cuCode).noise);
        if st.status == Offline then [DeviceRuns.SetStatus(Online), tick] else [tick]
    case Execute(id, key, value) =>
      if ExecuteTarget(w, id) != Some(i) then []
      else if OfflineFault(w, i) then [DeviceRuns.SetStatus(Offline)]
      else if RejectFault(w, i) then []
      else [DeviceRuns.Execute(key, value)]
    case ApplyFault(key, kind, _) =>
      if SummaryTarget(w, key) != Some(i) then []
      else if kind == FaultOffline then [DeviceRuns.SetStatus(Offline)]
      else if kind == FaultClear then [DeviceRuns.SetStatus(Online)]
      else []
    case SetStatus(j, status) => if j == i then [DeviceRuns.SetStatus(status)] else []
    case ResetAll => if Listed(w, i) then [DeviceRuns.Reset] else []
    case Load(_, _) => []
  }

  lemma DeviceRunOne(bp: Blueprint, st: DeviceState, e: DeviceRuns.Event)
    ensures DeviceRuns.Run(bp, st, [e]) == DeviceRuns.Step(bp, st, e)
  {
    FoldOne(DeviceRuns.Stepper(bp), st, e);
  }

  lemma DeviceRunTwo(bp: Blueprint, st: DeviceState, d: DeviceRuns.Event, e: DeviceRuns.Event)
    ensures DeviceRuns.Run(bp, st, [d, e]) == DeviceRuns.Step(bp, DeviceRuns.Step(bp, st, d), e)
  {
    assert [d, e][1..] == [e];
    DeviceRunOne(bp, DeviceRuns.Step(bp, st, d), e);
  }

  /** The device's next state, as a run of what it sees. */
  ghost predicate Projects(w: World, i: nat, e: Event)
    requires Has(w, i)
  {
    && Has(Step(w, e), i)
    && Step(w, e).states[i] == DeviceRuns.Run(w.blueprints[i], w.states[i], Seen(w, i, e))
  }

  lemma NothingSeen(bp: Blueprint, st: DeviceState)
    ensures DeviceRuns.Run(bp, st, []) == st
  {
  }

  lemma TickProjects(w: World, i: nat, hours: real, draws: string -> Draw)
    requires Has(w, i)
    ensures Projects(w, i, TickAll(hours, draws))
  {
    var bp, st, seen := w.blueprints[i], w.states[i], Seen(w, i, TickAll(hours, draws));
    if |seen| == 0 {
      NothingSeen(bp, st);
    } else if |seen| == 1 {
      DeviceRunOne(bp, st, seen[0]);
    } else {
      DeviceRunTwo(bp, st, seen[0], seen[1]);
    }
  }

  lemma ResetProjects(w: World, i: nat)
    requires Has(w, i)
    ensures Projects(w, i, ResetAll)
  {
    if Listed(w, i) {
      DeviceRunOne(w.blueprints[i], w.states[i], DeviceRuns.Reset);
    } else {
      NothingSeen(w.blueprints[i], w.states[i]);
    }
  }

  lemma ExecuteProjects(w: World, i: nat, id: string, key: string, value: real)
    requires Has(w, i)
    ensures Projects(w, i, Execute(id, key, value))
  {
    var seen := Seen(w, i, Execute(id, key, value));
    if seen == [] {
      NothingSeen(w.blueprints[i], w.states[i]);
    } else {
      DeviceRunOne(w.blueprints[i], w.states[i], seen[0]);
    }
  }

  lemma StatusProjects(w: World, i: nat, e: Event)
    requires Has(w, i) && (e.ApplyFault? || e.SetStatus?)
    ensures Projects(w, i, e)
  {
    var seen := Seen(w, i, e);
    if seen == [] {
      NothingSeen(w.blueprints[i], w.states[i]);
    } else {
      DeviceRunOne(w.blueprints[i], w.states[i], seen[0]);
    }
  }

  lemma StepProjects(w: World, i: nat, e: Event)
    requires Has(w, i) && !e.Load?
    ensures Projects(w, i, e) && Step(w, e).blueprints[i] == w.blueprints[i]
  {
    StepKeepsShape(w, e);
    match e {
      case TickAll(hours, draws) => TickProjects(w, i, hours, draws);
      case ResetAll => ResetProjects(w, i);
      case Execute(id, key, value) => ExecuteProjects(w, i, id, key, value);
      case ApplyFault(_, _, _) => StatusProjects(w, i, e);
      case SetStatus(_, _) => StatusProjects(w, i, e);
    }
  }

  ghost function SeenAll(w: World, i: nat, events: seq<Event>): seq<DeviceRuns.Event>
    requires Has(w, i) && NoLoad(events)
    decreases |events|
  {
    if events == [] then []
    else
      StepProjects(w, i, events[0]);
      Seen(w, i, events[0]) + SeenAll(Step(w, events[0]), i, events[1..])
  }

  /** Between two loads, each device lives a run of its own: whatever interleaving of
      operations, keys and faults the fleet goes through, what reaches a device is a sequence
      of its own ticks, commands, status changes and resets, so what holds of every device
      run holds in the fleet. */
  lemma {:induction false} RunProjects(w: World, i: nat, events: seq<Event>)
    requires Has(w, i) && NoLoad(events)
    ensures Has(Run(w, events), i) && Run(w, events).blueprints[i] == w.blueprints[i]
    ensures Run(w, events).states[i] == DeviceRuns.Run(w.blueprints[i], w.states[i], SeenAll(w, i, events))
    decreases |events|
  {
    if events != [] {
      var e, next := events[0], Step(w, events[0]);
      StepProjects(w, i, e);
      RunProjects(next, i, events[1..]);
      FoldConcat(DeviceRuns.Stepper(w.blueprints[i]), w.states[i], Seen(w, i, e), SeenAll(next, i, events[1..]));
    }
  }

  // ----- limits in the whole fleet -----

  /** Every device is well built, has exactly its points, and keeps its limits unless a
      measured point of it is declared a control point. */
  ghost predicate DeviceSound(bp: Blueprint, st: DeviceState) {
    DeviceRuns.WellBuilt(bp) && DeviceRuns.Keyed(bp, st) && (DeviceRuns.Unflagged(bp) ==> DeviceRuns.Bounded(bp, st))
  }

  ghost predicate FleetSound(w: World) {
    Valid(w) && forall i: nat | Has(w, i) :: DeviceSound(w.blueprints[i], w.states[i])
  }

  /** The random charge a battery starts with is a random draw. */
  ghost predicate FairLoad(e: Event) {
    e.Load? ==> forall i :: UnitNoise(e.noise(i))
  }

  lemma DeviceRunSound(bp: Blueprint, st: DeviceState, events: seq<DeviceRuns.Event>)
    requires DeviceSound(bp, st)
    ensures DeviceSound(bp, DeviceRuns.Run(bp, st, events))
  {
    DeviceRuns.RunKeyed(bp, st, events);
    if DeviceRuns.Unflagged(bp) {
      DeviceRuns.RunBounded(bp, st, events);
    }
  }

  lemma LoadSound(faults: Faults, specs: seq<DeviceSpec>, noise: nat -> Noise)
    requires forall i :: UnitNoise(noise(i))
    ensures FleetSound(LoadedWorld(faults, specs, noise))
  {
    LoadedValid(faults, specs, noise);
    var w := LoadedWorld(faults, specs, noise);
    forall i: nat | Has(w, i) ensures DeviceSound(w.blueprints[i], w.states[i]) {
      LoadedAt(specs, noise, i);
      DeviceRuns.BlueprintWellBuilt(specs[i]);
      DeviceRuns.InitialBounded(specs[i], noise(i));
    }
  }

  lemma DeviceStaysSound(w: World, e: Event, i: nat)
    requires FleetSound(w) && !e.Load? && Has(w, i)
    ensures Has(Step(w, e), i) && DeviceSound(Step(w, e).blueprints[i], Step(w, e).states[i])
  {
    StepProjects(w, i, e);
    DeviceRunSound(w.blueprints[i], w.states[i], Seen(w, i, e));
  }

  lemma AllSound(w: World, after: World)
    requires Valid(after) && SameShape(w, after)
    requires forall i: nat | Has(w, i) :: Has(after, i) && DeviceSound(after.blueprints[i], after.states[i])
    ensures FleetSound(after)
  {
    forall i: nat | Has(after, i) ensures DeviceSound(after.blueprints[i], after.states[i]) {
      assert Has(w, i);
    }
  }

  lemma StepSound(w: World, e: Event)
    requires FleetSound(w) && FairLoad(e)
    ensures FleetSound(Step(w, e))
  {
    if e.Load? {
      LoadSound(w.faults, e.specs, e.noise);
      StepLoads(w, e.specs, e.noise);
    } else {
      var after := Step(w, e);
      StepValid(w, e);
      StepKeepsShape(w, e);
      forall i: nat | Has(w, i) ensures Has(after, i) && DeviceSound(after.blueprints[i], after.states[i]) {
        DeviceStaysSound(w, e, i);
      }
      AllSound(w, after);
    }
  }

  /** In every run of the simulator, loads included, the indexes lead to the right devices,
      and no device leaves its limits or gains or loses a point. */
  lemma FleetStaysSound(faults: Faults, events: seq<Event>)
    requires forall e | e in events :: FairLoad(e)
    ensures FleetSound(Run(EMPTY.(faults := faults), events))
  {
    forall w, e | FleetSound(w) && FairLoad(e) ensures FleetSound(Step(w, e)) {
      StepSound(w, e);
    }
    var start := EMPTY.(faults := faults);
    assert FleetSound(start);
    FoldInvariant(Stepper(), w => FleetSound(w), e => FairLoad(e), start, events);
  }

  // ----- energy in the whole fleet -----

  lemma {:induction false} SeenNoReset(w: World, i: nat, events: seq<Event>)
    requires Has(w, i) && NoLoad(events) && forall e | e in events :: !e.ResetAll?
    ensures BatteryRuns.NoReset(SeenAll(w, i, events))
    decreases |events|
  {
    if events != [] {
      StepProjects(w, i, events[0]);
      SeenNoReset(Step(w, events[0]), i, events[1..]);
    }
  }

  /** Energy is accounted for in the whole fleet: whatever else happens to a battery and to
      the devices around it, faults included, its charge falls by the energy it gave and by
      nothing else as long as no limit binds, and never faster than its hours online allow. */
  lemma {:induction false} FleetEnergyAccounts(w: World, i: nat, events: seq<Event>)
    requires Has(w, i) && NoLoad(events) && forall e | e in events :: !e.ResetAll?
    requires BatteryRuns.Metered(w.blueprints[i], w.states[i])
    ensures var bp, st, seen, end := w.blueprints[i], w.states[i], SeenAll(w, i, events), Run(w, events);
            && Has(end, i)
            && var moved := BatteryRuns.Soc(bp, end.states[i]) - BatteryRuns.Soc(bp, st);
            && (BatteryRuns.LimitsFree(bp, st, seen) ==>
                moved == -(BatteryRuns.Energy(bp, st, seen) / bp.behaviour.capacityKWh * 100.0))
            && -100.0 * BatteryRuns.TotalHours(bp, st, seen) <= moved <= 100.0 * BatteryRuns.TotalHours(bp, st, seen)
  {
    var bp, st, seen := w.blueprints[i], w.states[i], SeenAll(w, i, events);
    RunProjects(w, i, events);
    SeenNoReset(w, i, events);
    BatteryRuns.ChargeMovesSlowly(bp, st, seen);
    if BatteryRuns.LimitsFree(bp, st, seen) {
      BatteryRuns.EnergyAccounts(bp, st, seen);
    }
  }

  // ----- faults -----

  /** Under an offline fault no tick and no command changes a value, and neither do faults or
      statuses set meanwhile. */
  lemma OfflineFreezes(w: World, i: nat, e: Event)
    requires Has(w, i) && OfflineFault(w, i) && !e.Load? && !e.ResetAll?
    ensures Has(Step(w, e), i) && Step(w, e).states[i].values == w.states[i].values
  {
    StepProjects(w, i, e);
    SilentEvents(w.blueprints[i], w.states[i], Seen(w, i, e));
  }

  lemma SilentEvents(bp: Blueprint, st: DeviceState, events: seq<DeviceRuns.Event>)
    requires |events| <= 1 && forall e | e in events :: e.SetStatus?
    ensures DeviceRuns.Run(bp, st, events).values == st.values
  {
    if events != [] {
      assert events[0] in events && events == [events[0]];
      DeviceRunOne(bp, st, events[0]);
      assert DeviceRuns.Step(bp, st, events[0]).values == st.values;
    }
  }

  /** Under a reject fault no command does. */
  lemma RejectFreezes(w: World, i: nat, e: Event)
    requires Has(w, i) && RejectFault(w, i) && !e.Load? && !e.ResetAll? && !e.TickAll?
    ensures Has(Step(w, e), i) && Step(w, e).states[i].values == w.states[i].values
  {
    StepProjects(w, i, e);
    SilentEvents(w.blueprints[i], w.states[i], Seen(w, i, e));
  }

  /** The event does not lift what was injected under the key. */
  ghost predicate Leaves(e: Event, key: string) {
    !e.Load? && !e.ResetAll? && !(e.ApplyFault? && e.faultKey == key && e.kind == FaultClear)
  }

  /** A fault under the key stays until the key is cleared. */
  lemma FaultStays(w: World, e: Event, key: string)
    requires Leaves(e, key) && key in w.faults
    ensures key in Step(w, e).faults
    ensures w.faults[key].offline ==> Step(w, e).faults[key].offline
    ensures w.faults[key].commandReject ==> Step(w, e).faults[key].commandReject
  {
    StepFaults(w, e);
  }

  lemma StepFaults(w: World, e: Event)
    ensures Step(w, e).faults == if e.ApplyFault? then Applied(w.faults, e.faultKey, e.kind, e.delayMS) else w.faults
  {
  }

  /** From the moment a key of a device carries an offline fault until that key is cleared,
      the device's values do not change, whatever else happens to it, to its other key or to
      other devices; only a reset, which looks at no fault, or a load gets through. */
  lemma OfflineFreezesRun(w: World, i: nat, key: string, events: seq<Event>)
    requires Has(w, i) && key in Aliases(w.blueprints[i]) && key in w.faults && w.faults[key].offline
    requires forall e | e in events :: Leaves(e, key)
    ensures Has(Run(w, events), i) && Run(w, events).states[i].values == w.states[i].values
    ensures OfflineFault(Run(w, events), i)
    decreases |events|
  {
    if events != [] {
      var e := events[0];
      assert Leaves(e, key) && OfflineFault(w, i);
      OfflineFreezes(w, i, e);
      FaultStays(w, e, key);
      StepKeepsShape(w, e);
      OfflineFreezesRun(Step(w, e), i, key, events[1..]);
    }
  }

  /** The same for a reject fault, in runs without ticks. */
  lemma RejectFreezesRun(w: World, i: nat, key: string, events: seq<Event>)
    requires Has(w, i) && key in Aliases(w.blueprints[i]) && key in w.faults && w.faults[key].commandReject
    requires forall e | e in events :: Leaves(e, key) && !e.TickAll?
    ensures Has(Run(w, events), i) && Run(w, events).states[i].values == w.states[i].values
    decreases |events|
  {
    if events != [] {
      var e := events[0];
      assert Leaves(e, key) && RejectFault(w, i);
      RejectFreezes(w, i, e);
      FaultStays(w, e, key);
      StepKeepsShape(w, e);
      RejectFreezesRun(Step(w, e), i, key, events[1..]);
    }
  }

  /** A reset is no respecter of faults: every listed device is online after it. */
  lemma ResetIgnoresFaults(w: World, i: nat)
    requires Has(w, i) && Listed(w, i)
    ensures Step(w, ResetAll).states[i] == ResetState(w.blueprints[i], w.states[i])
    ensures Step(w, ResetAll).states[i].status == Online
  {
  }

  /** What the tick makes of the status, and which devices it passes over. */
  lemma TickStatus(w: World, hours: real, draws: string -> Draw, i: nat)
    requires Has(w, i)
    ensures var next := Step(w, TickAll(hours, draws));
            if Listed(w, i) then next.states[i].status == Offline <==> OfflineFault(w, i)
            else next.states[i] == w.states[i]
  {
    if Listed(w, i) {
      var draw := draws(w.blueprints[i].spec.cuCode);
      TickOneStatus(w.blueprints[i], w.states[i], w.faults, hours, draw);
      assert Step(w, TickAll(hours, draws)).states[i] == TickOne(w.blueprints[i], w.states[i], w.faults, hours, draw);
    }
  }

  lemma TickOneStatus(bp: Blueprint, st: DeviceState, faults: Faults, hours: real, draw: Draw)
    ensures TickOne(bp, st, faults, hours, draw).status == Offline <==> AnyOffline(faults, Aliases(bp))
  {
  }

  // ----- the whole history of faults -----

  function OpsOf(events: seq<Event>): seq<Op> {
    if events == [] then []
    else
      var e := events[|events| - 1];
      OpsOf(events[..|events| - 1]) + if e.ApplyFault? then [Op(e.faultKey, e.kind, e.delayMS)] else []
  }

  lemma {:induction false} FaultsAreReplayed(events: seq<Event>)
    ensures Run(EMPTY, events).faults == Replay(OpsOf(events))
  {
    if events != [] {
      var init, e := events[..|events| - 1], events[|events| - 1];
      assert events == init + [e];
      FaultsAreReplayed(init);
      RunLast(EMPTY, init, e);
      StepFaults(Run(EMPTY, init), e);
      if e.ApplyFault? {
        ReplayAppend(OpsOf(init), Op(e.faultKey, e.kind, e.delayMS));
      } else {
        assert OpsOf(events) == OpsOf(init);
      }
    }
  }

  /** An offline fault was applied under the key and the key not cleared since. */
  ghost predicate PutOffline(events: seq<Event>, key: string) {
    HasKind(SinceClear(OpsOf(events), key), FaultOffline)
  }

  /** The status a tick shows can be read off the history of fault requests alone: a listed
      device is offline after a tick exactly when one of its two keys was put offline and not
      cleared since, whatever statuses, commands, ticks, resets and loads came in between. */
  lemma OfflineByHistory(events: seq<Event>, hours: real, draws: string -> Draw, i: nat)
    requires Has(Run(EMPTY, events), i) && Listed(Run(EMPTY, events), i)
    ensures var w := Run(EMPTY, events);
            Step(w, TickAll(hours, draws)).states[i].status == Offline <==>
            PutOffline(events, w.blueprints[i].spec.cuCode) || PutOffline(events, w.blueprints[i].spec.externalID)
  {
    var w := Run(EMPTY, events);
    var a, b := w.blueprints[i].spec.cuCode, w.blueprints[i].spec.externalID;
    TickStatus(w, hours, draws, i);
    FaultsAreReplayed(events);
    EntrySaysOffline(OpsOf(events), a);
    EntrySaysOffline(OpsOf(events), b);
    EitherOffline(w.faults, a, b);
  }

  // ----- the two indexes -----

  /** No later spec has the same key. */
  ghost predicate LastWith(specs: seq<DeviceSpec>, key: DeviceSpec -> string, i: nat) {
    i < |specs| && forall j | i < j < |specs| :: key(specs[j]) != key(specs[i])
  }

  ghost predicate DistinctBy(specs: seq<DeviceSpec>, key: DeviceSpec -> string) {
    forall i, j | 0 <= i < j < |specs| :: key(specs[i]) != key(specs[j])
  }

  /** A device is in an index exactly when its spec is the last with its key. */
  lemma {:induction false} IndexedExactly(specs: seq<DeviceSpec>, key: DeviceSpec -> string, i: nat)
    ensures i in IndexBy(specs, key).Values <==> LastWith(specs, key, i)
    ensures LastWith(specs, key, i) ==> key(specs[i]) in IndexBy(specs, key) && IndexBy(specs, key)[key(specs[i])] == i
  {
    var index := IndexBy(specs, key);
    if i in index.Values {
      var k :| k in index && index[k] == i;
      IndexByExact(specs, key, k);
    }
    if LastWith(specs, key, i) {
      IndexByExact(specs, key, key(specs[i]));
    }
  }

  /** The two indexes hold the same devices exactly when the last spec of a CU code is always
      the last of its external id too, and conversely. Otherwise some device is ticked but not
      found by its external id, or commanded but never ticked. */
  lemma {:induction false} IndexesAgreeExactly(specs: seq<DeviceSpec>)
    ensures IndexBy(specs, CuCode()).Values == IndexBy(specs, ExternalID()).Values <==>
            forall i | 0 <= i < |specs| :: LastWith(specs, CuCode(), i) <==> LastWith(specs, ExternalID(), i)
  {
    var byCU, byExt := IndexBy(specs, CuCode()), IndexBy(specs, ExternalID());
    forall i: nat ensures i in byCU.Values <==> LastWith(specs, CuCode(), i)
      ensures i in byExt.Values <==> LastWith(specs, ExternalID(), i)
    {
      IndexedExactly(specs, CuCode(), i);
      IndexedExactly(specs, ExternalID(), i);
    }
  }

  /** The i-th device is found under both its keys. */
  ghost predicate Reachable(w: World, i: nat) {
    && Has(w, i)
    && var spec := w.blueprints[i].spec;
       && spec.cuCode in w.byCU && w.byCU[spec.cuCode] == i
       && spec.externalID in w.byExt && w.byExt[spec.externalID] == i
  }

  /** The same world as far as devices and indexes go, after any run without a load. */
  lemma RunKeepsShape(w: World, events: seq<Event>)
    requires NoLoad(events)
    ensures SameShape(w, Run(w, events))
    decreases |events|
  {
    if events != [] {
      StepKeepsShape(w, events[0]);
      RunKeepsShape(Step(w, events[0]), events[1..]);
    }
  }

  lemma RunConcat(w: World, a: seq<Event>, b: seq<Event>)
    ensures Run(w, a + b) == Run(Run(w, a), b)
  {
    FoldConcat(Stepper(), w, a, b);
  }

  lemma StepLoads(w: World, specs: seq<DeviceSpec>, noise: nat -> Noise)
    ensures Step(w, Load(specs, noise)) == LoadedWorld(w.faults, specs, noise)
  {
  }

  lemma AfterLoad(w: World, before: seq<Event>, specs: seq<DeviceSpec>, noise: nat -> Noise)
    ensures Run(w, before + [Load(specs, noise)]) == LoadedWorld(Run(w, before).faults, specs, noise)
  {
    RunLast(w, before, Load(specs, noise));
    StepLoads(Run(w, before), specs, noise);
  }

  lemma {:induction false} SinceLoad(w: World, before: seq<Event>, specs: seq<DeviceSpec>, noise: nat -> Noise,
                                     after: seq<Event>)
    requires NoLoad(after)
    ensures var end := Run(w, before + [Load(specs, noise)] + after);
            && end.blueprints == BlueprintsOf(specs) && |end.states| == |specs|
            && end.byCU == IndexBy(specs, CuCode()) && end.byExt == IndexBy(specs, ExternalID())
  {
    RunConcat(w, before + [Load(specs, noise)], after);
    AfterLoad(w, before, specs, noise);
    RunKeepsShape(LoadedWorld(Run(w, before).faults, specs, noise), after);
  }

  /** After any run, every spec of the last load has its own device, found under both keys,
      exactly when no two specs share a CU code and no two share an external id. */
  lemma AllReachableExactly(w: World, before: seq<Event>, specs: seq<DeviceSpec>, noise: nat -> Noise,
                            after: seq<Event>)
    requires NoLoad(after)
    ensures var end := Run(w, before + [Load(specs, noise)] + after);
            (forall i | 0 <= i < |specs| :: Reachable(end, i)) <==>
                DistinctBy(specs, CuCode()) && DistinctBy(specs, ExternalID())
  {
    var end := Run(w, before + [Load(specs, noise)] + after);
    SinceLoad(w, before, specs, noise, after);
    forall i: nat | i < |specs|
      ensures Reachable(end, i) <==> LastWith(specs, CuCode(), i) && LastWith(specs, ExternalID(), i)
    {
      ReachableExactly(end, specs, noise, i);
    }
    AllLast(specs, CuCode());
    AllLast(specs, ExternalID());
  }

  lemma AllLast(specs: seq<DeviceSpec>, key: DeviceSpec -> string)
    ensures (forall i | 0 <= i < |specs| :: LastWith(specs, key, i)) <==> DistinctBy(specs, key)
  {
    if forall i | 0 <= i < |specs| :: LastWith(specs, key, i) {
      forall i, j | 0 <= i < j < |specs| ensures key(specs[i]) != key(specs[j]) {
        assert LastWith(specs, key, i);
      }
    }
  }

  lemma {:induction false} ReachableExactly(w: World, specs: seq<DeviceSpec>, noise: nat -> Noise, i: nat)
    requires w.blueprints == BlueprintsOf(specs) && |w.states| == |specs| && i < |specs|
    requires w.byCU == IndexBy(specs, CuCode()) && w.byExt == IndexBy(specs, ExternalID())
    ensures Reachable(w, i) <==> LastWith(specs, CuCode(), i) && LastWith(specs, ExternalID(), i)
  {
    LoadedKeys(specs, noise, i);
    IndexedExactly(specs, CuCode(), i);
    IndexedExactly(specs, ExternalID(), i);
  }

  /** No device's external id is another device's CU code. */
  ghost predicate KeysApart(specs: seq<DeviceSpec>) {
    forall i, j | 0 <= i < |specs| && 0 <= j < |specs| && i != j :: CuCode()(specs[i]) != ExternalID()(specs[j])
  }

  /** Each spec is what both its keys lead to. */
  ghost predicate Direct(w: World, specs: seq<DeviceSpec>) {
    && w.byCU == IndexBy(specs, CuCode()) && w.byExt == IndexBy(specs, ExternalID())
    && (forall i | 0 <= i < |specs| :: CuCode()(specs[i]) in w.byCU && w.byCU[CuCode()(specs[i])] == i)
    && (forall i | 0 <= i < |specs| :: ExternalID()(specs[i]) in w.byExt && w.byExt[ExternalID()(specs[i])] == i)
  }

  lemma {:induction false} DistinctAreDirect(w: World, specs: seq<DeviceSpec>)
    requires w.byCU == IndexBy(specs, CuCode()) && w.byExt == IndexBy(specs, ExternalID())
    requires DistinctBy(specs, CuCode()) && DistinctBy(specs, ExternalID())
    ensures Direct(w, specs)
  {
    forall i | 0 <= i < |specs|
      ensures CuCode()(specs[i]) in w.byCU && w.byCU[CuCode()(specs[i])] == i
      ensures ExternalID()(specs[i]) in w.byExt && w.byExt[ExternalID()(specs[i])] == i
    {
      IndexedExactly(specs, CuCode(), i);
      IndexedExactly(specs, ExternalID(), i);
    }
  }

  lemma ApartTargetsAgree(w: World, specs: seq<DeviceSpec>, k: string)
    requires Direct(w, specs) && KeysApart(specs)
    ensures ExecuteTarget(w, k) == SummaryTarget(w, k)
  {
    IndexByExact(specs, CuCode(), k);
    IndexByExact(specs, ExternalID(), k);
  }

  lemma SharedTargetsDiffer(w: World, specs: seq<DeviceSpec>) returns (k: string)
    requires Direct(w, specs) && !KeysApart(specs)
    ensures ExecuteTarget(w, k) != SummaryTarget(w, k)
  {
    var i, j :|
      0 <= i < |specs| && 0 <= j < |specs| && i != j && CuCode()(specs[i]) == ExternalID()(specs[j]);
    k := CuCode()(specs[i]);
  }

  /** Commands look for the external id first, summaries and faults for the CU code first.
      After any run over distinct keys, both find the same device under every key exactly
      when no device's external id is another's CU code. */
  lemma TargetsAgreeExactly(w: World, before: seq<Event>, specs: seq<DeviceSpec>, noise: nat -> Noise,
                            after: seq<Event>)
    requires NoLoad(after) && DistinctBy(specs, CuCode()) && DistinctBy(specs, ExternalID())
    ensures var end := Run(w, before + [Load(specs, noise)] + after);
            (forall k :: ExecuteTarget(end, k) == SummaryTarget(end, k)) <==> KeysApart(specs)
  {
    var end := Run(w, before + [Load(specs, noise)] + after);
    SinceLoad(w, before, specs, noise, after);
    DistinctAreDirect(end, specs);
    if KeysApart(specs) {
      forall k ensures ExecuteTarget(end, k) == SummaryTarget(end, k) {
        ApartTargetsAgree(end, specs, k);
      }
    } else {
      var k := SharedTargetsDiffer(end, specs);
    }
  }

  // ----- who answers to a key, and how -----

  /** A command goes to a device with that external id, if one is indexed, or else to one with
      that CU code; a summary or a fault request the other way round. */
  lemma LookupOrder(w: World, key: string)
    requires Valid(w)
    ensures ExecuteTarget(w, key).Some? <==> key in w.byExt || key in w.byCU
    ensures SummaryTarget(w, key).Some? <==> key in w.byExt || key in w.byCU
    ensures key in w.byExt ==> w.blueprints[ExecuteTarget(w, key).value].spec.externalID == key
    ensures key !in w.byExt && key in w.byCU ==> w.blueprints[ExecuteTarget(w, key).value].spec.cuCode == key
    ensures key in w.byCU ==> w.blueprints[SummaryTarget(w, key).value].spec.cuCode == key
    ensures key !in w.byCU && key in w.byExt ==> w.blueprints[SummaryTarget(w, key).value].spec.externalID == key
  {
  }

  lemma CommandAnswer(bp: Blueprint, st: DeviceState, faults: Faults, key: string, value: real)
    ensures var answer, after := CommandOutcomeOne(bp, st, faults, key), CommandedOne(bp, st, faults, key, value);
            if AnyOffline(faults, Aliases(bp)) then answer == Err(ErrDeviceOffline) && after == st.(status := Offline)
            else if AnyReject(faults, Aliases(bp)) then answer == Err(ErrCommandRejected) && after == st
            else answer == ExecuteOutcome(bp, st, key) && after == Executed(bp, st, key, value)
  {
  }

  /** A command to a key nobody has changes nothing. */
  lemma CommandToNobody(w: World, id: string, key: string, value: real)
    requires ExecuteTarget(w, id).None?
    ensures CommandOutcome(w, id, key) == Err(ErrDeviceNotFound) && Step(w, Execute(id, key, value)) == w
  {
  }

  lemma StepExecutes(w: World, id: string, key: string, value: real)
    ensures Step(w, Execute(id, key, value)) == CommandedWorld(w, id, key, value)
  {
  }

  /** What becomes of a command to the i-th device, and what it leaves: it is offline and noted as
      such, or refuses, or gives its own answer; and nothing else changes. */
  lemma CommandExactly(w: World, id: string, key: string, value: real, i: nat) returns (after: DeviceState)
    requires Valid(w) && ExecuteTarget(w, id) == Some(i)
    ensures Has(w, i)
    ensures Step(w, Execute(id, key, value)) == w.(states := w.states[i := after])
    ensures var answer, bp, st := CommandOutcome(w, id, key), w.blueprints[i], w.states[i];
            if OfflineFault(w, i) then answer == Err(ErrDeviceOffline) && after == st.(status := Offline)
            else if RejectFault(w, i) then answer == Err(ErrCommandRejected) && after == st
            else answer == ExecuteOutcome(bp, st, key) && after == Executed(bp, st, key, value)
  {
    after := CommandedOne(w.blueprints[i], w.states[i], w.faults, key, value);
    StepExecutes(w, id, key, value);
    CommandedAt(w, id, key, value, i);
    CommandAnswer(w.blueprints[i], w.states[i], w.faults, key, value);
  }

  /** A fault request leads to no device: only the engine applies it. */
  lemma RequestForNobody(w: World, key: string, kind: Kind, delayMS: Int64)
    requires SummaryTarget(w, key).None?
    ensures Step(w, ApplyFault(key, kind, delayMS)) == w.(faults := Applied(w.faults, key, kind, delayMS))
  {
  }

  lemma StepRequests(w: World, key: string, kind: Kind, delayMS: Int64)
    ensures Step(w, ApplyFault(key, kind, delayMS)) == FaultedWorld(w, key, kind, delayMS)
  {
  }

  /** The status a device has after a fault request of this kind. */
  function RequestedState(st: DeviceState, kind: Kind): DeviceState {
    match kind
    case FaultOffline => st.(status := Offline)
    case FaultClear => st.(status := Online)
    case _ => st
  }

  lemma FaultedAt(w: World, key: string, kind: Kind, delayMS: Int64, i: nat)
    requires SummaryTarget(w, key) == Some(i) && Has(w, i)
    ensures var applied := w.(faults := Applied(w.faults, key, kind, delayMS));
            FaultedWorld(w, key, kind, delayMS)
            == applied.(states := applied.states[i := RequestedState(applied.states[i], kind)])
  {
    var applied := w.(faults := Applied(w.faults, key, kind, delayMS));
    if kind == FaultOffline {
      StatusSetAt(applied, key, Offline, i);
    } else if kind == FaultClear {
      StatusSetAt(applied, key, Online, i);
    } else {
      assert applied.states[i := applied.states[i]] == applied.states;
    }
  }

  /** A fault request that leads to the i-th device: the engine applies it, an offline request puts
      the device offline, a clear puts it online, and nothing else changes. */
  lemma RequestExactly(w: World, key: string, kind: Kind, delayMS: Int64, i: nat)
    requires Valid(w) && SummaryTarget(w, key) == Some(i)
    ensures Has(w, i)
    ensures Step(w, ApplyFault(key, kind, delayMS)) ==
            w.(faults := Applied(w.faults, key, kind, delayMS),
               states := w.states[i := RequestedState(w.states[i], kind)])
    ensures RequestedState(w.states[i], FaultOffline) == w.states[i].(status := Offline)
    ensures RequestedState(w.states[i], FaultClear) == w.states[i].(status := Online)
    ensures kind != FaultOffline && kind != FaultClear ==> RequestedState(w.states[i], kind) == w.states[i]
  {
    StepRequests(w, key, kind, delayMS);
    FaultedAt(w, key, kind, delayMS, i);
  }
}
