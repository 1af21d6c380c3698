/** Simulated devices (internal/simulator/device/device.go). The five device types share one
    record of points and values; what differs is the behaviour, chosen once from the type. */
module Devices {
  import opened Wrappers
  import opened GoTime
  import opened Text

  datatype PointDef = PointDef(id: string, pointKey: string, controlFlag: bool, isVirtual: bool)

  /** The part of the resource record the runtime uses. */
  datatype DeviceSpec = DeviceSpec(
    cuCode: string, externalID: string, name: string, deviceType: string, ratedCapacityKW: real, points: seq<PointDef>)

  datatype Status = Online | Offline | Faulted

  datatype DeviceError =
    | ErrDeviceNotFound
    | ErrPointNotWritable
    | ErrPointUnknown
    | ErrCommandRejected
    | ErrDeviceOffline

  const METRIC_STATE_OF_CHARGE := "energy_storage.state_of_charge.v1"
  const METRIC_ACTIVE_POWER := "electrical.active_power.v1"
  const METRIC_REACTIVE_POWER := "electrical.reactive_power.v1"
  const METRIC_ACTIVE_POWER_SETPOINT := "electrical.active_power_setpoint.v1"

  /** A key is "" when the device has no such point. */
  datatype Behaviour =
    | Battery(socKey: string, powerKey: string, setpointKey: string, capacityKWh: real, maxPowerKW: real)
    | PCS(powerKey: string, reactiveKey: string, setpointKey: string, maxPowerKW: real)
    | PV(powerKey: string, maxPowerKW: real)
    | Meter(powerKey: string)
    | Passthrough

  type Values = map<string, real>

  /** What is fixed when a device is made. */
  datatype Blueprint = Blueprint(spec: DeviceSpec, points: map<string, PointDef>, writable: map<string, bool>,
                                 behaviour: Behaviour)

  /** What changes afterwards. */
  datatype DeviceState = DeviceState(status: Status, values: Values)

  /** One random draw per point, before it is scaled to an amplitude. */
  type Noise = string -> real

  ghost predicate UnitNoise(u: Noise) {
    forall k :: -1.0 <= u(k) < 1.0
  }

  function Clamp(v: real, lo: real, hi: real): real {
    var raised := if v > lo then v else lo;
    if raised < hi then raised else hi
  }

  // ----- making a device -----

  function PointMap(defs: seq<PointDef>): map<string, PointDef> {
    if defs == [] then map[]
    else
      var p := defs[|defs| - 1];
      var before := PointMap(defs[..|defs| - 1]);
      if p.isVirtual then before else before[p.pointKey := p]
  }

  /** findPoint: the first of the keys that is present, or "". */
  function FindPoint(keys: seq<string>, points: map<string, PointDef>): string {
    if keys == [] then ""
    else if keys[0] in points then keys[0]
    else FindPoint(keys[1..], points)
  }

  function Rated(spec: DeviceSpec, default: real): real {
    if spec.ratedCapacityKW <= 0.0 then default else spec.ratedCapacityKW
  }

  function BehaviourOf(spec: DeviceSpec, points: map<string, PointDef>): Behaviour {
    var t := ToLower(TrimSpace(spec.deviceType));
    var power := FindPoint([METRIC_ACTIVE_POWER], points);
    var setpoint := FindPoint([METRIC_ACTIVE_POWER_SETPOINT], points);
    if t == "battery" || t == "bess" || t == "ess" then
      Battery(FindPoint([METRIC_STATE_OF_CHARGE], points), power, setpoint, Rated(spec, 100.0), Rated(spec, 100.0))
    else if t == "pcs" || t == "inverter" then
      PCS(power, FindPoint([METRIC_REACTIVE_POWER], points), setpoint, Rated(spec, 100.0))
    else if t == "pv" || t == "solar" || t == "photovoltaic" then PV(power, Rated(spec, 50.0))
    else if t == "meter" || t == "ammeter" then Meter(power)
    else Passthrough
  }

  function Effective(spec: DeviceSpec): DeviceSpec {
    if spec.externalID == "" then spec.(externalID := spec.cuCode) else spec
  }

  /** The setpoint of a battery or an inverter can be written whatever its flag says. */
  function Assembled(spec: DeviceSpec, points: map<string, PointDef>, flags: map<string, bool>,
                     behaviour: Behaviour): Blueprint {
    var forced := (behaviour.Battery? || behaviour.PCS?) && behaviour.setpointKey != "";
    Blueprint(Effective(spec), points, if forced then flags[behaviour.setpointKey := true] else flags, behaviour)
  }

  function BlueprintOf(spec: DeviceSpec): Blueprint {
    var points := PointMap(spec.points);
    Assembled(spec, points, map k | k in points :: points[k].controlFlag, BehaviourOf(spec, points))
  }

  function Put(bp: Blueprint, values: Values, key: string, v: real): Values {
    if key in bp.points then values[key := v] else values
  }

  function Get(values: Values, key: string): real {
    if key in values then values[key] else 0.0
  }

  function InitialState(bp: Blueprint, u: Noise): DeviceState {
    var zero := map k | k in bp.points :: 0.0;
    DeviceState(Online, if bp.behaviour.Battery? && bp.behaviour.socKey != ""
                        then Put(bp, zero, bp.behaviour.socKey, 60.0 + u(bp.behaviour.socKey) * 5.0) else zero)
  }

  // ----- the operations -----

  /** The power a battery draws in one tick: its setpoint with noise, within its rating. */
  function BatteryPower(bp: Blueprint, values: Values, u: Noise): real
    requires bp.behaviour.Battery?
  {
    var b := bp.behaviour;
    Clamp((if b.setpointKey != "" then Get(values, b.setpointKey) else 0.0) + u(b.powerKey) * 0.3,
          -b.maxPowerKW, b.maxPowerKW)
  }

  /** State of charge, in percent, after power has flowed for some hours: discharge lowers it. */
  function SocAfter(soc: real, power: real, hours: real, capacity: real): real
    requires capacity > 0.0
  {
    soc - power * hours / capacity * 100.0
  }

  /** The points that are not control points. */
  function ReadPoints(bp: Blueprint): set<string> {
    set k | k in bp.points && !bp.points[k].controlFlag
  }

  /** Noise on each of these values. */
  function Disturbed(values: Values, keys: set<string>, u: Noise): Values {
    map k | k in values.Keys + keys :: if k in keys then Get(values, k) + u(k) * 0.1 else values[k]
  }

  lemma DisturbedOneMore(values: Values, done: set<string>, k: string, u: Noise)
    requires k !in done
    ensures var v := Disturbed(values, done, u);
            Disturbed(values, done + {k}, u) == v[k := Get(v, k) + u(k) * 0.1]
  {
  }

  lemma DisturbedNone(values: Values, u: Noise)
    ensures Disturbed(values, {}, u) == values
  {
  }

  /** A share of the rated power, with noise. */
  function SunPower(max: real, sun: real, draw: real): real {
    max * sun + draw * 0.5
  }

  /** A battery that gives this power for these hours. */
  function BatteryTicked(bp: Blueprint, values: Values, power: real, hours: real): Values
    requires bp.behaviour.Battery?
  {
    var b := bp.behaviour;
    var v := if b.powerKey != "" then Put(bp, values, b.powerKey, power) else values;
    if b.socKey != "" && b.capacityKWh > 0.0 then
      Put(bp, v, b.socKey, Clamp(SocAfter(Get(v, b.socKey), power, hours, b.capacityKWh), 5.0, 95.0))
    else v
  }

  /** An inverter follows its setpoint. */
  function InverterPower(bp: Blueprint, values: Values, u: Noise): real
    requires bp.behaviour.PCS?
  {
    var b := bp.behaviour;
    Clamp(Get(values, b.setpointKey) + u(b.powerKey) * 0.2, -b.maxPowerKW, b.maxPowerKW)
  }

  /** Its reactive power wanders. */
  function InverterReactive(bp: Blueprint, values: Values, u: Noise): real
    requires bp.behaviour.PCS?
  {
    var b := bp.behaviour;
    Clamp(Get(values, b.reactiveKey) + u(b.reactiveKey) * 0.1, -b.maxPowerKW / 2.0, b.maxPowerKW / 2.0)
  }

  function PCSTicked(bp: Blueprint, values: Values, u: Noise): Values
    requires bp.behaviour.PCS?
  {
    var b := bp.behaviour;
    var v := if b.setpointKey != "" && b.powerKey != ""
             then Put(bp, values, b.powerKey, InverterPower(bp, values, u)) else values;
    if b.reactiveKey != "" then Put(bp, v, b.reactiveKey, InverterReactive(bp, v, u)) else v
  }

  function TickedValues(bp: Blueprint, values: Values, hours: real, sun: real, u: Noise): Values {
    match bp.behaviour
    case Battery(_, _, _, _, _) => BatteryTicked(bp, values, BatteryPower(bp, values, u), hours)
    case PCS(_, _, _, _) => PCSTicked(bp, values, u)
    case PV(power, max) =>
      if power != "" then Put(bp, values, power, Clamp(SunPower(max, sun, u(power)), 0.0, max)) else values
    case Meter(power) =>
      if power != "" then Put(bp, values, power, Clamp(Get(values, power) + u(power) * 1.5, -200.0, 200.0)) else values
    case Passthrough => Disturbed(values, ReadPoints(bp), u)
  }

  /** One tick of so many hours; nothing happens unless the device is online. */
  function Ticked(bp: Blueprint, st: DeviceState, hours: real, sun: real, u: Noise): DeviceState {
    if st.status != Online then st else st.(values := TickedValues(bp, st.values, hours, sun, u))
  }

  function ExecuteOutcome(bp: Blueprint, st: DeviceState, key: string): Result<(), DeviceError> {
    if st.status == Offline then Err(ErrDeviceOffline)
    else if key !in bp.points then Err(ErrPointUnknown)
    else if key !in bp.writable || !bp.writable[key] then Err(ErrPointNotWritable)
    else Ok(())
  }

  function Executed(bp: Blueprint, st: DeviceState, key: string, v: real): DeviceState {
    if ExecuteOutcome(bp, st, key).Err? then st
    else if bp.behaviour.Battery? && key == bp.behaviour.setpointKey then
      st.(values := st.values[key := Clamp(v, -bp.behaviour.maxPowerKW, bp.behaviour.maxPowerKW)])
    else st.(values := st.values[key := v])
  }

  function ResetState(bp: Blueprint, st: DeviceState): DeviceState {
    match bp.behaviour
    case Battery(soc, power, setpoint, _, _) =>
      var v1 := if soc != "" then Put(bp, st.values, soc, 60.0) else st.values;
      var v2 := if power != "" then Put(bp, v1, power, 0.0) else v1;
      DeviceState(Online, if setpoint != "" then Put(bp, v2, setpoint, 0.0) else v2)
    case PV(power, _) => DeviceState(Online, if power != "" then Put(bp, st.values, power, 0.0) else st.values)
    case _ => DeviceState(Online, map k | k in st.values :: 0.0)
  }

  // ----- the object -----

  class Device {
    const bp: Blueprint
    var status: Status
    var values: Values

    function State(): DeviceState
      reads this
    {
      DeviceState(status, values)
    }

    /** newBase: the non-virtual points, each with value 0 and writable when flagged. */
    static method NewBase(defs: seq<PointDef>)
        returns (points: map<string, PointDef>, values: Values, writable: map<string, bool>)
      ensures points == PointMap(defs)
      ensures values == map k | k in points :: 0.0
      ensures writable == map k | k in points :: points[k].controlFlag
    {
      points, values, writable := map[], map[], map[];
      for i := 0 to |defs|
        invariant points == PointMap(defs[..i])
        invariant values == map k | k in points :: 0.0
        invariant writable == map k | k in points :: points[k].controlFlag
      {
        assert defs[..i + 1][..i] == defs[..i];
        var p := defs[i];
        if p.isVirtual {
          continue;
        }
        points := points[p.pointKey := p];
        writable := writable[p.pointKey := p.controlFlag];
        values := values[p.pointKey := 0.0];
      }
      assert defs[..|defs|] == defs;
    }

    /** The value points start with: 0, and a random charge for a battery that measures it. */
    static method Start(bp: Blueprint, zero: Values, u: Noise) returns (start: Values)
      requires zero == map k | k in bp.points :: 0.0
      ensures start == InitialState(bp, u).values
    {
      start := zero;
      if bp.behaviour.Battery? && bp.behaviour.socKey != "" {
        start := Put(bp, start, bp.behaviour.socKey, 60.0 + u(bp.behaviour.socKey) * 5.0);
      }
    }

    static method Design(spec: DeviceSpec, u: Noise) returns (bp: Blueprint, start: Values)
      ensures bp == BlueprintOf(spec) && start == InitialState(bp, u).values
    {
      var points, zero, writable := NewBase(spec.points);
      bp := Assembled(spec, points, writable, BehaviourOf(spec, points));
      start := Start(bp, zero, u);
    }

    /** New, with the constructor of the type it picks. */
    constructor (spec: DeviceSpec, u: Noise)
      ensures bp == BlueprintOf(spec) && State() == InitialState(bp, u)
    {
      var plan, start := Design(spec, u);
      bp := plan;
      status := Online;
      values := start;
    }

    method SetStatus(s: Status)
      modifies this
      ensures State() == old(State()).(status := s)
    {
      status := s;
    }

    method SetValue(key: string, v: real)
      modifies this
      ensures State() == old(State()).(values := Put(bp, old(values), key, v))
    {
      if key in bp.points {
        values := values[key := v];
      }
    }

    method Tick(delta: Duration, sun: real, u: Noise)
      modifies this
      ensures State() == Ticked(bp, old(State()), Hours(delta), sun, u)
    {
      if status != Online {
        return;
      }
      match bp.behaviour {
        case Battery(_, _, _, _, _) =>
          TickBattery(Hours(delta), u);
        case PCS(_, _, _, _) =>
          TickPCS(u);
        case PV(powerKey, max) =>
          if powerKey != "" {
            SetValue(powerKey, Clamp(SunPower(max, sun, u(powerKey)), 0.0, max));
          }
        case Meter(powerKey) =>
          if powerKey != "" {
            SetValue(powerKey, Clamp(Get(values, powerKey) + u(powerKey) * 1.5, -200.0, 200.0));
          }
        case Passthrough =>
          TickPassthrough(u);
      }
    }

    method TickPCS(u: Noise)
      requires bp.behaviour.PCS?
      modifies this
      ensures State() == old(State()).(values := PCSTicked(bp, old(values), u))
    {
      var b := bp.behaviour;
      if b.setpointKey != "" && b.powerKey != "" {
        SetValue(b.powerKey, InverterPower(bp, values, u));
      }
      if b.reactiveKey != "" {
        SetValue(b.reactiveKey, InverterReactive(bp, values, u));
      }
    }

    method TickBattery(hours: real, u: Noise)
      requires bp.behaviour.Battery?
      modifies this
      ensures State() == old(State()).(values :=
                                       BatteryTicked(bp, old(values), BatteryPower(bp, old(values), u), hours))
    {
      var b := bp.behaviour;
      var power := 0.0;
      if b.setpointKey != "" {
        power := Get(values, b.setpointKey);
      }
      power := Clamp(power + u(b.powerKey) * 0.3, -b.maxPowerKW, b.maxPowerKW);
      assert power == BatteryPower(bp, old(values), u);
      ApplyPower(power, hours);
    }

    method ApplyPower(power: real, hours: real)
      requires bp.behaviour.Battery?
      modifies this
      ensures State() == old(State()).(values := BatteryTicked(bp, old(values), power, hours))
    {
      var b := bp.behaviour;
      if b.powerKey != "" {
        SetValue(b.powerKey, power);
      }
      if b.socKey != "" && b.capacityKWh > 0.0 {
        SetValue(b.socKey, Clamp(SocAfter(Get(values, b.socKey), power, hours, b.capacityKWh), 5.0, 95.0));
      }
    }

    /** Noise on every point that is not a control point, in whatever order the map gives. */
    method TickPassthrough(u: Noise)
      modifies this
      ensures State() == old(State()).(values := Disturbed(old(values), ReadPoints(bp), u))
    {
      var left := bp.points.Keys;
      ghost var done: set<string> := {};
      DisturbedNone(values, u);
      while left != {}
        invariant left <= bp.points.Keys && status == old(status)
        invariant done == ReadPoints(bp) - left
        invariant values == Disturbed(old(values), done, u)
        decreases left
      {
        var k :| k in left;
        left := left - {k};
        if bp.points[k].controlFlag {
          continue;
        }
        DisturbedOneMore(old(values), done, k, u);
        values := values[k := Get(values, k) + u(k) * 0.1];
        done := done + {k};
      }
      assert done == ReadPoints(bp);
    }

    method ExecuteLocked(key: string, v: real) returns (r: Result<(), DeviceError>)
      modifies this
      ensures r == ExecuteOutcome(bp, old(State()), key)
      ensures State() == if r.Ok? then old(State()).(values := old(values)[key := v]) else old(State())
    {
      if status == Offline {
        return Err(ErrDeviceOffline);
      }
      if key !in bp.points {
        return Err(ErrPointUnknown);
      }
      if key !in bp.writable || !bp.writable[key] {
        return Err(ErrPointNotWritable);
      }
      values := values[key := v];
      r := Ok(());
    }

    method Execute(key: string, v: real) returns (r: Result<(), DeviceError>)
      modifies this
      ensures r == ExecuteOutcome(bp, old(State()), key)
      ensures State() == Executed(bp, old(State()), key, v)
    {
      r := ExecuteLocked(key, v);
      if r.Err? {
        return;
      }
      if bp.behaviour.Battery? && key == bp.behaviour.setpointKey {
        SetValue(key, Clamp(v, -bp.behaviour.maxPowerKW, bp.behaviour.maxPowerKW));
      }
    }

    method Reset()
      modifies this
      ensures State() == ResetState(bp, old(State()))
    {
      status := Online;
      match bp.behaviour {
        case Battery(soc, powerKey, setpoint, _, _) =>
          if soc != "" {
            SetValue(soc, 60.0);
          }
          if powerKey != "" {
            SetValue(powerKey, 0.0);
          }
          if setpoint != "" {
            SetValue(setpoint, 0.0);
          }
        case PV(powerKey, _) =>
          if powerKey != "" {
            SetValue(powerKey, 0.0);
          }
        case _ =>
          values := map k | k in values :: 0.0;
      }
    }
  }
}
