/** The manager of all live devices and the fault handler, as objects
    (internal/simulator/runtime/manager.go, internal/simulator/api/handler.go). */
module Manager {
  import opened Wrappers
  import opened Sequences
  import opened GoTime
  import opened Text
  import opened Fault
  import opened Devices
  import opened Fleet

  ghost function Blueprints(devs: seq<Device>): (s: seq<Blueprint>)
    ensures |s| == |devs| && forall i | 0 <= i < |devs| :: s[i] == devs[i].bp
  {
    seq(|devs|, i requires 0 <= i < |devs| => devs[i].bp)
  }

  ghost function States(devs: seq<Device>): (s: seq<DeviceState>)
    reads devs
    ensures |s| == |devs| && forall i | 0 <= i < |devs| :: s[i] == devs[i].State()
  {
    seq(|devs|, i requires 0 <= i < |devs| reads devs => devs[i].State())
  }

  // ----- changing many devices, one after the other -----

  ghost predicate Apart(devs: seq<Device>) {
    forall i, j | 0 <= i < j < |devs| :: devs[i] != devs[j]
  }

  /** What changes when one device does. */
  lemma OneDeviceChanged(devs: seq<Device>, i: nat, before: seq<DeviceState>)
    requires i < |devs| == |before|
    requires forall j | 0 <= j < |devs| && j != i :: devs[j].State() == before[j]
    ensures States(devs) == before[i := devs[i].State()]
  {
  }

  /** The map holds, under each key, the device whose position the index gives. */
  ghost predicate Follows(m: map<string, Device>, index: map<string, nat>, devs: seq<Device>) {
    m.Keys == index.Keys && forall k | k in m :: index[k] < |devs| && m[k] == devs[index[k]]
  }

  lemma FollowsNext(m: map<string, Device>, index: map<string, nat>, devs: seq<Device>, k: string, d: Device)
    requires Follows(m, index, devs)
    ensures Follows(m[k := d], index[k := |devs|], devs + [d])
  {
  }

  /** These devices have these blueprints and are in these states. */
  ghost predicate Made(devs: seq<Device>, bps: seq<Blueprint>, states: seq<DeviceState>)
    reads devs
  {
    Blueprints(devs) == bps && States(devs) == states
  }

  lemma MadeNext(devs: seq<Device>, d: Device, bps: seq<Blueprint>, states: seq<DeviceState>)
    requires Made(devs, bps, states)
    ensures Made(devs + [d], bps + [d.bp], states + [d.State()])
  {
  }

  datatype DeviceSummary = DeviceSummary(cuCode: string, externalID: string, state: DeviceState, fault: FaultState)

  /** The summary is of the i-th device and of the faults under both its keys. */
  ghost predicate Summarizes(w: World, i: nat, s: DeviceSummary) {
    && Has(w, i) && Aliases(w.blueprints[i]) == [s.cuCode, s.externalID] && s.state == w.states[i]
    && (s.fault.offline <==> OfflineFault(w, i)) && (s.fault.commandReject <==> RejectFault(w, i))
    && IsLongestDelay(w.faults, Aliases(w.blueprints[i]), s.fault.telemetryDelay)
  }

  class Manager {
    var devices: map<string, Device>
    var byExt: map<string, Device>
    const faults: Engine?
    var specs: seq<DeviceSpec>

    /** The devices of the last load in spec order, and where each key points. */
    ghost var all: seq<Device>
    ghost var cuIndex: map<string, nat>
    ghost var extIndex: map<string, nat>

    ghost predicate Shaped()
      reads this
    {
      && Apart(all)
      && Follows(devices, cuIndex, all) && (forall k | k in devices :: devices[k].bp.spec.cuCode == k)
      && Follows(byExt, extIndex, all) && (forall k | k in byExt :: byExt[k].bp.spec.externalID == k)
    }

    ghost function FaultsNow(): Faults
      reads this, faults
    {
      if faults == null then map[] else faults.byKey
    }

    /** The abstract state: what the specification of the fleet talks about. */
    ghost function World(): World
      reads this, all, faults
    {
      Fleet.World(Blueprints(all), States(all), cuIndex, extIndex, FaultsNow())
    }

    /** The indexes of a manager point at devices that carry the key. */
    lemma ShapedIsValid()
      requires Shaped()
      ensures Valid(World())
    {
    }

    constructor (faults: Engine?)
      ensures Shaped() && all == [] && this.faults == faults
      ensures World() == EMPTY.(faults := FaultsNow())
    {
      this.faults := faults;
      devices, byExt, specs := map[], map[], [];
      all, cuIndex, extIndex := [], map[], map[];
    }

    method GetByCU(cuCode: string) returns (d: Device?)
      requires Shaped()
      ensures d != null <==> cuCode in cuIndex
      ensures d != null ==> d == all[cuIndex[cuCode]]
    {
      d := if cuCode in devices then devices[cuCode] else null;
    }

    method GetByExternalID(externalID: string) returns (d: Device?)
      requires Shaped()
      ensures d != null <==> externalID in extIndex
      ensures d != null ==> d == all[extIndex[externalID]]
    {
      d := if externalID in byExt then byExt[externalID] else null;
    }

    /** List: every device of the CU index once, in some order; keys says under which. */
    method List() returns (devs: seq<Device>, ghost keys: seq<string>)
      requires Shaped()
      ensures Apart(devs) && forall d :: d in devs <==> d in devices.Values
      ensures |keys| == |devs| && forall j | 0 <= j < |devs| :: keys[j] in cuIndex && devs[j] == all[cuIndex[keys[j]]]
      ensures Distinct(keys) && forall k :: k in keys <==> k in cuIndex
    {
      devs, keys := [], [];
      var left := devices.Keys;
      while left != {}
        invariant left <= devices.Keys && |keys| == |devs|
        invariant forall j | 0 <= j < |devs| :: keys[j] in devices && devs[j] == devices[keys[j]]
        invariant Distinct(keys) && forall k :: k in keys <==> k in devices && k !in left
        decreases left
      {
        var k :| k in left;
        left := left - {k};
        devs, keys := devs + [devices[k]], keys + [k];
      }
    }

    /** Puts one device under its two keys. */
    method Register(d: Device)
      requires Shaped() && d !in all
      modifies this
      ensures Shaped() && all == old(all) + [d]
      ensures cuIndex == old(cuIndex)[d.bp.spec.cuCode := |old(all)|]
      ensures extIndex == old(extIndex)[d.bp.spec.externalID := |old(all)|]
      ensures specs == old(specs)
    {
      FollowsNext(devices, cuIndex, all, d.bp.spec.cuCode, d);
      FollowsNext(byExt, extIndex, all, d.bp.spec.externalID, d);
      devices := devices[d.bp.spec.cuCode := d];
      byExt := byExt[d.bp.spec.externalID := d];
      cuIndex := cuIndex[d.bp.spec.cuCode := |all|];
      extIndex := extIndex[d.bp.spec.externalID := |all|];
      all := all + [d];
    }

    /** The manager holds what a load of these specs makes. */
    ghost predicate Holding(specs: seq<DeviceSpec>, noise: nat -> Noise)
      reads this, all
    {
      && Shaped() && Made(all, BlueprintsOf(specs), FreshStates(specs, noise))
      && cuIndex == IndexBy(specs, CuCode()) && extIndex == IndexBy(specs, ExternalID())
    }

    lemma HoldingWorld(specs: seq<DeviceSpec>, noise: nat -> Noise)
      requires Holding(specs, noise)
      ensures World() == LoadedWorld(FaultsNow(), specs, noise)
    {
    }

    /** The loop body of Load: a new device, under its two keys. */
    method LoadOne(spec: DeviceSpec, u: Noise) returns (d: Device)
      requires Shaped()
      modifies this
      ensures Shaped() && fresh(d) && all == old(all) + [d]
      ensures d.bp == BlueprintOf(spec) && d.State() == InitialState(d.bp, u)
      ensures cuIndex == old(cuIndex)[CuCode()(spec) := |old(all)|]
      ensures extIndex == old(extIndex)[ExternalID()(spec) := |old(all)|]
      ensures specs == old(specs)
    {
      d := new Device(spec, u);
      BlueprintKeys(spec);
      Register(d);
    }

    lemma LoadedNextMade(specs: seq<DeviceSpec>, noise: nat -> Noise, i: nat, devs: seq<Device>, d: Device)
      requires i < |specs| && Made(devs, BlueprintsOf(specs[..i]), FreshStates(specs[..i], noise))
      requires d.bp == BlueprintOf(specs[i]) && d.State() == InitialState(d.bp, noise(i))
      ensures Made(devs + [d], BlueprintsOf(specs[..i + 1]), FreshStates(specs[..i + 1], noise))
    {
      LoadedNext(specs, i, noise);
      MadeNext(devs, d, BlueprintsOf(specs[..i]), FreshStates(specs[..i], noise));
    }

    /** The loop body, said of the loop. */
    method LoadNext(specs: seq<DeviceSpec>, noise: nat -> Noise, i: nat) returns (d: Device)
      requires i < |specs| && Holding(specs[..i], noise)
      modifies this
      ensures Holding(specs[..i + 1], noise) && this.specs == old(this.specs)
      ensures fresh(d) && all == old(all) + [d]
    {
      ghost var before := all;
      d := LoadOne(specs[i], noise(i));
      LoadedNextMade(specs, noise, i, before, d);
      IndexByNext(specs, i, CuCode());
      IndexByNext(specs, i, ExternalID());
    }

    method Clear(specs: seq<DeviceSpec>, ghost noise: nat -> Noise)
      modifies this
      ensures Holding(specs[..0], noise)
      ensures this.specs == specs && all == []
    {
      devices, byExt := map[], map[];
      this.specs := specs;
      all, cuIndex, extIndex := [], map[], map[];
    }

    /** The loop of Load. */
    method Rebuild(specs: seq<DeviceSpec>, noise: nat -> Noise)
      modifies this
      ensures Holding(specs, noise) && this.specs == specs
      ensures fresh(set d | d in all)
    {
      Clear(specs, noise);
      for i := 0 to |specs|
        invariant Holding(specs[..i], noise) && this.specs == specs
        invariant fresh(set d | d in all)
      {
        var d := LoadNext(specs, noise, i);
      }
      assert specs[..|specs|] == specs;
    }

    /** Load: new devices from the specs, and both indexes rebuilt from scratch. */
    method Load(specs: seq<DeviceSpec>, noise: nat -> Noise)
      modifies this
      ensures Shaped() && this.specs == specs && fresh(set d | d in all)
      ensures World() == LoadedWorld(FaultsNow(), specs, noise)
    {
      Rebuild(specs, noise);
      HoldingWorld(specs, noise);
    }

    /** TickAll's work on one device, which is the i-th. */
    method TickDevice(d: Device, delta: Duration, draw: Draw, ghost i: nat)
      requires Shaped() && i < |all| && all[i] == d
      modifies d
      ensures States(all) == old(States(all))[i := TickOne(d.bp, old(States(all))[i], FaultsNow(), Hours(delta), draw)]
    {
      ghost var before := States(all);
      var offline := false;
      if faults != null {
        offline := faults.IsOffline([d.bp.spec.cuCode, d.bp.spec.externalID]);
      }
      if offline {
        d.SetStatus(Offline);
      } else {
        if d.status == Offline {
          d.SetStatus(Online);
        }
        d.Tick(delta, draw.sun, draw.noise);
      }
      OneDeviceChanged(all, i, before);
    }

    /** A sweep of an operation over the keys has had its first j turns, starting at w. */
    ghost predicate Swept(w: Fleet.World, op: (Blueprint, DeviceState) -> DeviceState, keys: seq<string>, j: nat)
      reads this, all, faults
    {
      && Shaped() && j <= |keys| && |w.states| == |all|
      && World() == w.(states := Turns(w, op, keys[..j]))
    }

    lemma SweepBegins(op: (Blueprint, DeviceState) -> DeviceState, keys: seq<string>)
      requires Shaped()
      ensures Swept(World(), op, keys, 0)
    {
    }

    /** A turn for the device under the j-th key. */
    ghost predicate AtTurn(d: Device, keys: seq<string>, j: nat)
      reads this
    {
      j < |keys| && keys[j] in cuIndex && cuIndex[keys[j]] < |all| && d == all[cuIndex[keys[j]]]
    }

    lemma SweepEnds(w: Fleet.World, op: (Blueprint, DeviceState) -> DeviceState, keys: seq<string>)
      requires Swept(w, op, keys, |keys|)
      requires Distinct(keys) && forall k :: k in keys <==> k in cuIndex
      ensures World() == MapListed(w, op)
    {
      ShapedIsValid();
      assert keys[..|keys|] == keys;
      TurnsMapListed(w, op, keys);
    }

    method TickTurn(d: Device, delta: Duration, draws: string -> Draw, ghost w: Fleet.World, ghost keys: seq<string>,
                    ghost j: nat)
      requires Swept(w, TickOp(w.faults, Hours(delta), draws), keys, j) && AtTurn(d, keys, j)
      modifies d
      ensures Swept(w, TickOp(w.faults, Hours(delta), draws), keys, j + 1)
    {
      TurnsNext(w, TickOp(w.faults, Hours(delta), draws), keys, j);
      TickDevice(d, delta, draws(d.bp.spec.cuCode), cuIndex[keys[j]]);
    }

    /** TickAll: the listed devices, in whatever order the map gives them. */
    method TickAll(delta: Duration, draws: string -> Draw)
      requires Shaped()
      modifies all
      ensures Shaped() && World() == TickedWorld(old(World()), Hours(delta), draws)
    {
      var devs, keys := List();
      ghost var w := World();
      ghost var op := TickOp(w.faults, Hours(delta), draws);
      SweepBegins(op, keys);
      for j := 0 to |devs|
        invariant Swept(w, op, keys, j)
      {
        TickTurn(devs[j], delta, draws, w, keys, j);
      }
      SweepEnds(w, op, keys);
    }

    method ResetDevice(d: Device, ghost i: nat)
      requires Shaped() && i < |all| && all[i] == d
      modifies d
      ensures States(all) == old(States(all))[i := ResetState(d.bp, old(States(all))[i])]
    {
      ghost var before := States(all);
      d.Reset();
      OneDeviceChanged(all, i, before);
    }

    method ResetTurn(d: Device, ghost w: Fleet.World, ghost keys: seq<string>, ghost j: nat)
      requires Swept(w, ResetOp(), keys, j) && AtTurn(d, keys, j)
      modifies d
      ensures Swept(w, ResetOp(), keys, j + 1)
    {
      TurnsNext(w, ResetOp(), keys, j);
      ResetDevice(d, cuIndex[keys[j]]);
    }

    /** ResetAll: the listed devices, faults or not. */
    method ResetAll()
      requires Shaped()
      modifies all
      ensures Shaped() && World() == ResetWorld(old(World()))
    {
      var devs, keys := List();
      ghost var w := World();
      SweepBegins(ResetOp(), keys);
      for j := 0 to |devs|
        invariant Swept(w, ResetOp(), keys, j)
      {
        ResetTurn(devs[j], w, keys, j);
      }
      SweepEnds(w, ResetOp(), keys);
    }

    /** A command on the device that was found, which is the i-th. */
    method ExecuteOn(d: Device, key: string, value: real, ghost i: nat) returns (r: Result<(), DeviceError>)
      requires Shaped() && i < |all| && all[i] == d
      modifies d
      ensures States(all) == old(States(all))[i := CommandedOne(d.bp, old(States(all))[i], FaultsNow(), key, value)]
      ensures r == CommandOutcomeOne(d.bp, old(States(all))[i], FaultsNow(), key)
      ensures Shaped() && World() == old(World()).(states := States(all))
    {
      ghost var before := States(all);
      var offline, reject := false, false;
      if faults != null {
        offline := faults.IsOffline([d.bp.spec.cuCode, d.bp.spec.externalID]);
        reject := faults.ShouldRejectCommand([d.bp.spec.cuCode, d.bp.spec.externalID]);
      }
      if offline {
        d.SetStatus(Offline);
        r := Err(ErrDeviceOffline);
      } else if reject {
        r := Err(ErrCommandRejected);
      } else {
        r := d.Execute(key, value);
      }
      OneDeviceChanged(all, i, before);
    }

    method ExecuteFound(d: Device, id: string, key: string, value: real, ghost i: nat)
        returns (r: Result<(), DeviceError>)
      requires Shaped() && i < |all| && all[i] == d && ExecuteTarget(World(), id) == Some(i)
      modifies d
      ensures Shaped() && World() == CommandedWorld(old(World()), id, key, value)
      ensures r == CommandOutcome(old(World()), id, key)
    {
      ghost var w := World();
      CommandedAt(w, id, key, value, i);
      r := ExecuteOn(d, key, value, i);
    }

    method Execute(id: string, key: string, value: real) returns (r: Result<(), DeviceError>)
      requires Shaped()
      modifies all
      ensures Shaped() && World() == CommandedWorld(old(World()), id, key, value)
      ensures r == CommandOutcome(old(World()), id, key)
    {
      var found := GetByExternalID(id);
      if found == null {
        found := GetByCU(id);
        if found == null {
          return Err(ErrDeviceNotFound);
        }
      }
      r := ExecuteFound(found, id, key, value, ExecuteTarget(World(), id).value);
    }

    /** deviceSummary */
    method DeviceSummaryOf(d: Device, ghost i: nat) returns (s: DeviceSummary)
      requires Shaped() && i < |all| && all[i] == d
      ensures Summarizes(World(), i, s)
    {
      var f := NO_FAULT;
      if faults != null {
        f := faults.Lookup([d.bp.spec.cuCode, d.bp.spec.externalID]);
      }
      s := DeviceSummary(d.bp.spec.cuCode, d.bp.spec.externalID, d.State(), f);
    }

    /** Summary: the state of the device found under the key, CU code first, and its faults
        merged over both its keys. */
    method Summary(key: string) returns (r: Result<DeviceSummary, DeviceError>)
      requires Shaped()
      ensures match SummaryTarget(World(), key)
              case None => r == Err(ErrDeviceNotFound)
              case Some(i) => r.Ok? && Summarizes(World(), i, r.value)
    {
      var d := GetByCU(key);
      if d == null {
        d := GetByExternalID(key);
        if d == null {
          return Err(ErrDeviceNotFound);
        }
      }
      var s := DeviceSummaryOf(d, SummaryTarget(World(), key).value);
      r := Ok(s);
    }

    method SetStatusOn(d: Device, status: Status, ghost i: nat)
      requires Shaped() && i < |all| && all[i] == d
      modifies d
      ensures States(all) == old(States(all))[i := old(States(all))[i].(status := status)]
      ensures Shaped() && World() == old(World()).(states := States(all))
    {
      ghost var before := States(all);
      d.SetStatus(status);
      OneDeviceChanged(all, i, before);
    }

    method SetStatusFound(d: Device, key: string, status: Status, ghost i: nat)
      requires Shaped() && i < |all| && all[i] == d && SummaryTarget(World(), key) == Some(i)
      modifies d
      ensures Shaped() && World() == StatusSetWorld(old(World()), key, status)
    {
      ghost var w := World();
      StatusSetAt(w, key, status, i);
      SetStatusOn(d, status, i);
    }

    /** Sets the status of the device found under the key, CU code first. */
    method SetStatusByKey(key: string, status: Status)
      requires Shaped()
      modifies all
      ensures Shaped() && World() == StatusSetWorld(old(World()), key, status)
    {
      var found := GetByCU(key);
      if found == null {
        found := GetByExternalID(key);
        if found == null {
          return;
        }
      }
      SetStatusFound(found, key, status, SummaryTarget(World(), key).value);
    }
  }

  // ----- the fault handler -----

  /** The kind a request names: trimmed and in lower case; anything else is refused. */
  function ParseKind(text: string): Option<Kind> {
    var t := ToLower(TrimSpace(text));
    if t == "offline" then Some(FaultOffline)
    else if t == "command_reject" then Some(FaultCommandReject)
    else if t == "telemetry_delay" then Some(FaultTelemetryDelay)
    else if t == "clear" then Some(FaultClear)
    else None
  }

  /** Which words name which fault, spaces and case aside. */
  lemma KindsNamed(text: string)
    ensures var word, kind := ToLower(TrimSpace(text)), ParseKind(text);
            && (kind == Some(FaultOffline) <==> word == "offline")
            && (kind == Some(FaultCommandReject) <==> word == "command_reject")
            && (kind == Some(FaultTelemetryDelay) <==> word == "telemetry_delay")
            && (kind == Some(FaultClear) <==> word == "clear")
            && kind != Some(FaultUnknown)
  {
  }

  /** The handler and its manager share one fault engine. */
  class Handler {
    const manager: Manager
    const faults: Engine

    constructor (manager: Manager, faults: Engine)
      ensures this.manager == manager && this.faults == faults
    {
      this.manager, this.faults := manager, faults;
    }

    /** ApplyFault, without the HTTP around it; false is a refused request. */
    method ApplyFault(key: string, kindText: string, delayMS: Int64) returns (ok: bool)
      requires manager.Shaped() && manager.faults == faults
      modifies faults, manager.all
      ensures manager.Shaped() && (ok <==> ParseKind(kindText).Some?)
      ensures manager.World() == if ok then FaultedWorld(old(manager.World()), key, ParseKind(kindText).value, delayMS)
                                 else old(manager.World())
    {
      var kind := ParseKind(kindText);
      if kind.None? {
        return false;
      }
      ghost var w := manager.World();
      faults.Apply(key, kind.value, delayMS);
      assert manager.World() == w.(faults := Applied(w.faults, key, kind.value, delayMS));
      if kind.value == FaultOffline {
        manager.SetStatusByKey(key, Offline);
      } else if kind.value == FaultClear {
        manager.SetStatusByKey(key, Online);
      }
      ok := true;
    }
  }
}
