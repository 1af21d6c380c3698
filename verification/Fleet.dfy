/** The simulator's shared state and what every operation does to it: the devices of the
    last load, the two indexes over them, and the injected faults. */
module Fleet {
  import opened Wrappers
  import opened Sequences
  import opened GoTime
  import opened Fault
  import opened Devices

  datatype World = World(
    blueprints: seq<Blueprint>,
    states: seq<DeviceState>,
    byCU: map<string, nat>,
    byExt: map<string, nat>,
    faults: Faults)

  const EMPTY := World([], [], map[], map[], map[])

  /** The indexes point at devices that carry the key they are found under. */
  ghost predicate Valid(w: World) {
    && |w.blueprints| == |w.states|
    && (forall k | k in w.byCU :: w.byCU[k] < |w.states| && w.blueprints[w.byCU[k]].spec.cuCode == k)
    && (forall k | k in w.byExt :: w.byExt[k] < |w.states| && w.blueprints[w.byExt[k]].spec.externalID == k)
  }

  predicate Has(w: World, i: nat) {
    i < |w.blueprints| && i < |w.states|
  }

  /** The two keys under which a device's faults are looked up. */
  function Aliases(bp: Blueprint): seq<string> {
    [bp.spec.cuCode, bp.spec.externalID]
  }

  ghost predicate OfflineFault(w: World, i: nat)
    requires i < |w.blueprints|
  {
    AnyOffline(w.faults, Aliases(w.blueprints[i]))
  }

  ghost predicate RejectFault(w: World, i: nat)
    requires i < |w.blueprints|
  {
    AnyReject(w.faults, Aliases(w.blueprints[i]))
  }

  /** The listed devices: those the CU index holds. */
  ghost predicate Listed(w: World, i: nat) {
    exists k :: k in w.byCU && w.byCU[k] == i
  }

  /** Sunlight and noise for one device in one tick. */
  datatype Draw = Draw(sun: real, noise: Noise)

  function TickOne(bp: Blueprint, st: DeviceState, faults: Faults, hours: real, draw: Draw): DeviceState {
    if AnyOffline(faults, Aliases(bp)) then st.(status := Offline)
    else Ticked(bp, if st.status == Offline then st.(status := Online) else st, hours, draw.sun, draw.noise)
  }

  /** Execute looks for the external id first, then for the CU code. */
  function ExecuteTarget(w: World, id: string): Option<nat> {
    if id in w.byExt then Some(w.byExt[id]) else if id in w.byCU then Some(w.byCU[id]) else None
  }

  /** Summary and the fault handler look for the CU code first. */
  function SummaryTarget(w: World, id: string): Option<nat> {
    if id in w.byCU then Some(w.byCU[id]) else if id in w.byExt then Some(w.byExt[id]) else None
  }

  datatype Event =
    | TickAll(hours: real, draws: string -> Draw)
    | Execute(id: string, key: string, value: real)
    | ApplyFault(faultKey: string, kind: Kind, delayMS: Int64)
    | SetStatus(device: nat, status: Status)
    | ResetAll
    | Load(specs: seq<DeviceSpec>, noise: nat -> Noise)

  /** An operation on every listed device. */
  ghost function MapListed(w: World, op: (Blueprint, DeviceState) -> DeviceState): World {
    w.(states := seq(|w.states|, i requires 0 <= i < |w.states| =>
      if Listed(w, i) && Has(w, i) then op(w.blueprints[i], w.states[i]) else w.states[i]))
  }

  function TickOp(faults: Faults, hours: real, draws: string -> Draw): (Blueprint, DeviceState) -> DeviceState {
    (bp: Blueprint, st: DeviceState) => TickOne(bp, st, faults, hours, draws(bp.spec.cuCode))
  }

  function ResetOp(): (Blueprint, DeviceState) -> DeviceState {
    (bp: Blueprint, st: DeviceState) => ResetState(bp, st)
  }

  ghost function TickedWorld(w: World, hours: real, draws: string -> Draw): World {
    MapListed(w, TickOp(w.faults, hours, draws))
  }

  ghost function ResetWorld(w: World): World {
    MapListed(w, ResetOp())
  }

  /** The states after the operation has come to the devices under these keys, one by one. */
  function Turns(w: World, op: (Blueprint, DeviceState) -> DeviceState, keys: seq<string>): (states: seq<DeviceState>)
    ensures |states| == |w.states|
  {
    if keys == [] then w.states
    else
      var before := Turns(w, op, keys[..|keys| - 1]);
      var k := keys[|keys| - 1];
      if k in w.byCU && Has(w, w.byCU[k])
      then before[w.byCU[k] := op(w.blueprints[w.byCU[k]], before[w.byCU[k]])] else before
  }

  lemma {:induction false} TurnsNext(w: World, op: (Blueprint, DeviceState) -> DeviceState, keys: seq<string>, j: nat)
    requires j < |keys| && keys[j] in w.byCU && Has(w, w.byCU[keys[j]])
    ensures var before, i := Turns(w, op, keys[..j]), w.byCU[keys[j]];
            Turns(w, op, keys[..j + 1]) == before[i := op(w.blueprints[i], before[i])]
  {
    assert keys[..j + 1][..j] == keys[..j];
  }

  /** Turn by turn, each key once, every listed device gets the operation once: the order of
      a map's keys does not matter. */
  lemma {:induction false} TurnsSoFar(w: World, op: (Blueprint, DeviceState) -> DeviceState, keys: seq<string>, i: nat)
    requires Valid(w) && Distinct(keys) && (forall k | k in keys :: k in w.byCU) && i < |w.states|
    ensures Turns(w, op, keys)[i] ==
            if w.blueprints[i].spec.cuCode in keys && w.byCU[w.blueprints[i].spec.cuCode] == i
            then op(w.blueprints[i], w.states[i]) else w.states[i]
  {
    if keys != [] {
      var init, k := keys[..|keys| - 1], keys[|keys| - 1];
      assert keys == init + [k];
      assert k !in init;
      TurnsSoFar(w, op, init, i);
    }
  }

  /** A device is listed exactly when its own CU code leads to it. */
  lemma ListedByOwnKey(w: World, i: nat)
    requires Valid(w) && i < |w.states|
    ensures Listed(w, i) <==> w.blueprints[i].spec.cuCode in w.byCU && w.byCU[w.blueprints[i].spec.cuCode] == i
  {
    if Listed(w, i) {
      var k :| k in w.byCU && w.byCU[k] == i;
      assert w.blueprints[w.byCU[k]].spec.cuCode == k;
    }
  }

  lemma {:induction false} TurnsMapListed(w: World, op: (Blueprint, DeviceState) -> DeviceState, keys: seq<string>)
    requires Valid(w) && Distinct(keys) && forall k :: k in keys <==> k in w.byCU
    ensures Turns(w, op, keys) == MapListed(w, op).states
  {
    forall i | 0 <= i < |w.states| ensures Turns(w, op, keys)[i] == MapListed(w, op).states[i] {
      TurnsSoFar(w, op, keys, i);
      ListedByOwnKey(w, i);
    }
  }

  /** A command on the device it resolved to: refused while an offline or a reject fault sits
      on an alias, and an offline fault is written into the status on the way. */
  function CommandedOne(bp: Blueprint, st: DeviceState, faults: Faults, key: string, value: real): DeviceState {
    if AnyOffline(faults, Aliases(bp)) then st.(status := Offline)
    else if AnyReject(faults, Aliases(bp)) then st
    else Executed(bp, st, key, value)
  }

  function CommandOutcomeOne(bp: Blueprint, st: DeviceState, faults: Faults, key: string): Result<(), DeviceError> {
    if AnyOffline(faults, Aliases(bp)) then Err(ErrDeviceOffline)
    else if AnyReject(faults, Aliases(bp)) then Err(ErrCommandRejected)
    else ExecuteOutcome(bp, st, key)
  }

  function CommandOutcome(w: World, id: string, key: string): Result<(), DeviceError> {
    match ExecuteTarget(w, id)
    case None => Err(ErrDeviceNotFound)
    case Some(i) =>
      if Has(w, i) then CommandOutcomeOne(w.blueprints[i], w.states[i], w.faults, key) else Err(ErrDeviceNotFound)
  }

  /** The world with one device's state replaced. */
  function WithState(w: World, i: nat, st: DeviceState): World {
    if i < |w.states| then w.(states := w.states[i := st]) else w
  }

  function CommandedWorld(w: World, id: string, key: string, value: real): World {
    match ExecuteTarget(w, id)
    case None => w
    case Some(i) =>
      if Has(w, i) then WithState(w, i, CommandedOne(w.blueprints[i], w.states[i], w.faults, key, value)) else w
  }

  lemma CommandedAt(w: World, id: string, key: string, value: real, i: nat)
    requires ExecuteTarget(w, id) == Some(i) && Has(w, i)
    ensures CommandedWorld(w, id, key, value)
         == w.(states := w.states[i := CommandedOne(w.blueprints[i], w.states[i], w.faults, key, value)])
    ensures CommandOutcome(w, id, key) == CommandOutcomeOne(w.blueprints[i], w.states[i], w.faults, key)
  {
  }

  lemma StatusSetAt(w: World, key: string, status: Status, i: nat)
    requires SummaryTarget(w, key) == Some(i) && Has(w, i)
    ensures StatusSetWorld(w, key, status) == w.(states := w.states[i := w.states[i].(status := status)])
  {
  }

  function StatusSetWorld(w: World, key: string, status: Status): World {
    match SummaryTarget(w, key)
    case None => w
    case Some(i) => if Has(w, i) then WithState(w, i, w.states[i].(status := status)) else w
  }

  /** ApplyFault of the HTTP handler: the engine, then the status of the device so named. */
  function FaultedWorld(w: World, key: string, kind: Kind, delayMS: Int64): World {
    var after := w.(faults := Applied(w.faults, key, kind, delayMS));
    if kind == FaultOffline then StatusSetWorld(after, key, Offline)
    else if kind == FaultClear then StatusSetWorld(after, key, Online)
    else after
  }

  /** The last position of each key: a later spec replaces an earlier one. */
  function IndexBy(specs: seq<DeviceSpec>, key: DeviceSpec -> string): (m: map<string, nat>)
    ensures forall k | k in m :: m[k] < |specs|
  {
    if specs == [] then map[]
    else IndexBy(specs[..|specs| - 1], key)[key(specs[|specs| - 1]) := |specs| - 1]
  }

  lemma IndexByNext(specs: seq<DeviceSpec>, i: nat, key: DeviceSpec -> string)
    requires i < |specs|
    ensures IndexBy(specs[..i + 1], key) == IndexBy(specs[..i], key)[key(specs[i]) := i]
  {
    assert specs[..i + 1][..i] == specs[..i];
  }

  function CuCode(): DeviceSpec -> string {
    (s: DeviceSpec) => s.cuCode
  }

  function ExternalID(): DeviceSpec -> string {
    (s: DeviceSpec) => Effective(s).externalID
  }

  function BlueprintsOf(specs: seq<DeviceSpec>): (bps: seq<Blueprint>)
    ensures |bps| == |specs|
  {
    if specs == [] then [] else BlueprintsOf(specs[..|specs| - 1]) + [BlueprintOf(specs[|specs| - 1])]
  }

  function FreshStates(specs: seq<DeviceSpec>, noise: nat -> Noise): (states: seq<DeviceState>)
    ensures |states| == |specs|
  {
    if specs == [] then []
    else FreshStates(specs[..|specs| - 1], noise) + [InitialState(BlueprintOf(specs[|specs| - 1]), noise(|specs| - 1))]
  }

  function LoadedWorld(faults: Faults, specs: seq<DeviceSpec>, noise: nat -> Noise): World {
    World(BlueprintsOf(specs), FreshStates(specs, noise), IndexBy(specs, CuCode()), IndexBy(specs, ExternalID()),
          faults)
  }

  lemma LoadedNext(specs: seq<DeviceSpec>, i: nat, noise: nat -> Noise)
    requires i < |specs|
    ensures BlueprintsOf(specs[..i + 1]) == BlueprintsOf(specs[..i]) + [BlueprintOf(specs[i])]
    ensures FreshStates(specs[..i + 1], noise)
            == FreshStates(specs[..i], noise) + [InitialState(BlueprintOf(specs[i]), noise(i))]
  {
    assert specs[..i + 1][..i] == specs[..i];
  }

  lemma {:induction false} LoadedAt(specs: seq<DeviceSpec>, noise: nat -> Noise, i: nat)
    requires i < |specs|
    ensures BlueprintsOf(specs)[i] == BlueprintOf(specs[i])
    ensures FreshStates(specs, noise)[i] == InitialState(BlueprintOf(specs[i]), noise(i))
  {
    if i < |specs| - 1 {
      LoadedAt(specs[..|specs| - 1], noise, i);
    }
  }

  lemma BlueprintKeys(spec: DeviceSpec)
    ensures BlueprintOf(spec).spec.cuCode == CuCode()(spec) && BlueprintOf(spec).spec.externalID == ExternalID()(spec)
  {
  }

  ghost function Step(w: World, e: Event): World {
    match e
    case TickAll(hours, draws) => TickedWorld(w, hours, draws)
    case Execute(id, key, value) => CommandedWorld(w, id, key, value)
    case ApplyFault(key, kind, delayMS) => FaultedWorld(w, key, kind, delayMS)
    case SetStatus(i, status) => if Has(w, i) then WithState(w, i, w.states[i].(status := status)) else w
    case ResetAll => ResetWorld(w)
    case Load(specs, noise) => LoadedWorld(w.faults, specs, noise)
  }

  lemma {:induction false} IndexByExact(specs: seq<DeviceSpec>, key: DeviceSpec -> string, k: string)
    ensures k in IndexBy(specs, key) <==> exists i :: 0 <= i < |specs| && key(specs[i]) == k
    ensures k in IndexBy(specs, key) ==> key(specs[IndexBy(specs, key)[k]]) == k
    ensures k in IndexBy(specs, key) ==> forall j | IndexBy(specs, key)[k] < j < |specs| :: key(specs[j]) != k
  {
    if specs != [] {
      var init := specs[..|specs| - 1];
      IndexByExact(init, key, k);
      if key(specs[|specs| - 1]) != k && (exists i :: 0 <= i < |specs| && key(specs[i]) == k) {
        var i :| 0 <= i < |specs| && key(specs[i]) == k;
        assert init[i] == specs[i];
      }
    }
  }

  lemma {:induction false} LoadedKeys(specs: seq<DeviceSpec>, noise: nat -> Noise, i: nat)
    requires i < |specs|
    ensures BlueprintsOf(specs)[i].spec.cuCode == CuCode()(specs[i])
            && BlueprintsOf(specs)[i].spec.externalID == ExternalID()(specs[i])
  {
    LoadedAt(specs, noise, i);
    BlueprintKeys(specs[i]);
  }

  lemma LoadedValid(faults: Faults, specs: seq<DeviceSpec>, noise: nat -> Noise)
    ensures Valid(LoadedWorld(faults, specs, noise))
  {
    var byCU, byExt := IndexBy(specs, CuCode()), IndexBy(specs, ExternalID());
    forall k | k in byCU ensures BlueprintsOf(specs)[byCU[k]].spec.cuCode == k {
      IndexByExact(specs, CuCode(), k);
      LoadedKeys(specs, noise, byCU[k]);
    }
    forall k | k in byExt ensures BlueprintsOf(specs)[byExt[k]].spec.externalID == k {
      IndexByExact(specs, ExternalID(), k);
      LoadedKeys(specs, noise, byExt[k]);
    }
  }

  /** The devices themselves and the indexes. */
  ghost predicate SameShape(a: World, b: World) {
    a.blueprints == b.blueprints && |a.states| == |b.states| && a.byCU == b.byCU && a.byExt == b.byExt
  }

  lemma CommandKeepsShape(w: World, id: string, key: string, value: real)
    ensures SameShape(w, CommandedWorld(w, id, key, value))
  {
  }

  /** Only a load touches the shape. */
  lemma StepKeepsShape(w: World, e: Event)
    requires !e.Load?
    ensures SameShape(w, Step(w, e))
  {
    if e.Execute? {
      CommandKeepsShape(w, e.id, e.key, e.value);
    }
  }

  lemma StepValid(w: World, e: Event)
    requires Valid(w)
    ensures Valid(Step(w, e))
  {
    if e.Load? {
      LoadedValid(w.faults, e.specs, e.noise);
    } else {
      StepKeepsShape(w, e);
    }
  }
}
