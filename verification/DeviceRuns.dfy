/** What holds of one device over every run of ticks, commands, status changes and resets. */
module DeviceRuns {
  import opened Sequences
  import opened Text
  import opened Devices

  datatype Event =
    | Tick(hours: real, sun: real, noise: Noise)
    | Execute(key: string, value: real)
    | SetStatus(status: Status)
    | Reset

  function Step(bp: Blueprint, st: DeviceState, e: Event): DeviceState {
    match e
    case Tick(hours, sun, noise) => Ticked(bp, st, hours, sun, noise)
    case Execute(key, value) => Executed(bp, st, key, value)
    case SetStatus(status) => st.(status := status)
    case Reset => ResetState(bp, st)
  }

  function Stepper(bp: Blueprint): (DeviceState, Event) -> DeviceState {
    (st: DeviceState, e: Event) => Step(bp, st, e)
  }

  function Run(bp: Blueprint, st: DeviceState, events: seq<Event>): DeviceState {
    Fold(Stepper(bp), st, events)
  }

  /** The random draws are draws, and the sun gives a share of the rated power. */
  ghost predicate Fair(e: Event) {
    e.Tick? ==> UnitNoise(e.noise) && 0.0 <= e.sun <= 1.0
  }

  // ----- the points a device has -----

  /** The values are those of the device's points, no more and no fewer. */
  ghost predicate Keyed(bp: Blueprint, st: DeviceState) {
    st.values.Keys == bp.points.Keys
  }

  lemma {:induction false} PointMapExact(defs: seq<PointDef>, k: string)
    ensures k in PointMap(defs) <==> exists p :: p in defs && !p.isVirtual && p.pointKey == k
  {
    if defs != [] {
      var last := defs[|defs| - 1];
      PointMapExact(defs[..|defs| - 1], k);
      assert defs == defs[..|defs| - 1] + [last];
      assert last in defs;
    }
  }

  lemma {:induction false} FindPointOne(k: string, points: map<string, PointDef>)
    ensures FindPoint([k], points) == if k in points then k else ""
  {
    assert FindPoint([], points) == "";
  }

  /** The points a behaviour writes as measurements, "" for one the device does not have. */
  function MeasuredKeys(b: Behaviour): seq<string> {
    match b
    case Battery(soc, power, _, _, _) => [soc, power]
    case PCS(power, reactive, _, _) => [power, reactive]
    case PV(power, _) => [power]
    case Meter(power) => [power]
    case Passthrough => []
  }

  /** The point a behaviour forces to be writable, or "". */
  function SetpointKey(b: Behaviour): string {
    if b.Battery? || b.PCS? then b.setpointKey else ""
  }

  /** A measured point of the device is not the one forced to be writable. */
  ghost predicate MeasuredApart(bp: Blueprint, key: string) {
    key != "" ==> key in bp.points && key != SetpointKey(bp.behaviour)
  }

  /** What construction establishes about a blueprint. */
  ghost predicate WellBuilt(bp: Blueprint) {
    && bp.writable.Keys == bp.points.Keys
    && (forall k | k in bp.points ::
          bp.writable[k] == (bp.points[k].controlFlag || (k == SetpointKey(bp.behaviour) && k != "")))
    && (SetpointKey(bp.behaviour) != "" ==> SetpointKey(bp.behaviour) in bp.points)
    && (match bp.behaviour
        case Battery(soc, power, _, capacity, max) =>
          MeasuredApart(bp, soc) && MeasuredApart(bp, power) && (soc != "" ==> soc != power) && capacity == max > 0.0
        case PCS(power, reactive, _, max) =>
          MeasuredApart(bp, power) && MeasuredApart(bp, reactive) && (power != "" ==> power != reactive) && max > 0.0
        case PV(power, max) => MeasuredApart(bp, power) && max > 0.0
        case Meter(power) => MeasuredApart(bp, power)
        case Passthrough => true)
  }

  lemma MetricsDiffer()
    ensures METRIC_STATE_OF_CHARGE != METRIC_ACTIVE_POWER && METRIC_STATE_OF_CHARGE != METRIC_ACTIVE_POWER_SETPOINT
    ensures METRIC_ACTIVE_POWER != METRIC_ACTIVE_POWER_SETPOINT && METRIC_REACTIVE_POWER != METRIC_ACTIVE_POWER_SETPOINT
    ensures METRIC_ACTIVE_POWER != METRIC_REACTIVE_POWER
  {
    assert METRIC_STATE_OF_CHARGE[1] == 'n' && METRIC_ACTIVE_POWER[1] == 'l' && METRIC_ACTIVE_POWER_SETPOINT[1] == 'l';
    assert METRIC_ACTIVE_POWER[11] == 'a' && METRIC_REACTIVE_POWER[11] == 'r'
        && METRIC_ACTIVE_POWER_SETPOINT[11] == 'a';
    assert |METRIC_ACTIVE_POWER| != |METRIC_ACTIVE_POWER_SETPOINT|;
  }

  /** A behaviour's key is the metric itself when the device has that point, and "" otherwise. */
  lemma BehaviourFinds(spec: DeviceSpec, points: map<string, PointDef>)
    ensures var b := BehaviourOf(spec, points);
            && (b.Battery? ==> b.socKey == if METRIC_STATE_OF_CHARGE in points then METRIC_STATE_OF_CHARGE else "")
            && (!b.Passthrough? ==> b.powerKey == if METRIC_ACTIVE_POWER in points then METRIC_ACTIVE_POWER else "")
            && (b.PCS? ==> b.reactiveKey == if METRIC_REACTIVE_POWER in points then METRIC_REACTIVE_POWER else "")
            && (b.Battery? || b.PCS? ==>
                b.setpointKey == if METRIC_ACTIVE_POWER_SETPOINT in points then METRIC_ACTIVE_POWER_SETPOINT else "")
            && (b.Battery? ==> b.capacityKWh == b.maxPowerKW > 0.0)
            && (b.PCS? || b.PV? ==> b.maxPowerKW > 0.0)
  {
    FindPointOne(METRIC_STATE_OF_CHARGE, points);
    FindPointOne(METRIC_ACTIVE_POWER, points);
    FindPointOne(METRIC_REACTIVE_POWER, points);
    FindPointOne(METRIC_ACTIVE_POWER_SETPOINT, points);
  }

  /** A device has a point exactly for each non-virtual point of its spec, readable, and
      writable when it is flagged or is the setpoint of a battery or an inverter. */
  lemma PointsAreNonVirtual(spec: DeviceSpec, k: string)
    ensures var bp := BlueprintOf(spec);
            && bp.writable.Keys == bp.points.Keys
            && (k in bp.points <==> exists p :: p in bp.spec.points && !p.isVirtual && p.pointKey == k)
            && (k in bp.points ==> (bp.writable[k] <==>
                                    bp.points[k].controlFlag || (k == SetpointKey(bp.behaviour) && k != "")))
  {
    PointMapExact(spec.points, k);
    BlueprintWellBuilt(spec);
  }

  lemma BlueprintWellBuilt(spec: DeviceSpec)
    ensures WellBuilt(BlueprintOf(spec))
  {
    var bp := BlueprintOf(spec);
    BehaviourFinds(spec, bp.points);
    MetricsDiffer();
  }

  // ----- what a spec makes -----

  /** The rating of a spec, or the default of its type. */
  function RatingOr(spec: DeviceSpec, default: real): real {
    if spec.ratedCapacityKW > 0.0 then spec.ratedCapacityKW else default
  }

  /** The type word decides the behaviour, in any case and with spaces around it; the rating is
      the given one if it is positive, or else 100 kW, 50 kW for PV. */
  lemma TypeDecides(spec: DeviceSpec)
    ensures var b, t := BlueprintOf(spec).behaviour, ToLower(TrimSpace(spec.deviceType));
            && (b.Battery? <==> t == "battery" || t == "bess" || t == "ess")
            && (b.PCS? <==> t == "pcs" || t == "inverter")
            && (b.PV? <==> t == "pv" || t == "solar" || t == "photovoltaic")
            && (b.Meter? <==> t == "meter" || t == "ammeter")
            && (b.Battery? ==> b.capacityKWh == b.maxPowerKW == RatingOr(spec, 100.0))
            && (b.PCS? ==> b.maxPowerKW == RatingOr(spec, 100.0))
            && (b.PV? ==> b.maxPowerKW == RatingOr(spec, 50.0))
  {
  }

  /** The device keeps its spec, with the CU code for an external id if none is given. */
  lemma SpecKept(spec: DeviceSpec)
    ensures BlueprintOf(spec).spec ==
            spec.(externalID := if spec.externalID == "" then spec.cuCode else spec.externalID)
  {
  }

  lemma {:induction false} LastDefinition(defs: seq<PointDef>, k: string) returns (i: nat)
    requires k in PointMap(defs)
    ensures i < |defs| && !defs[i].isVirtual && defs[i].pointKey == k && PointMap(defs)[k] == defs[i]
    ensures forall j | i < j < |defs| :: defs[j].isVirtual || defs[j].pointKey != k
  {
    var last := defs[|defs| - 1];
    if !last.isVirtual && last.pointKey == k {
      i := |defs| - 1;
    } else {
      i := LastDefinition(defs[..|defs| - 1], k);
    }
  }

  /** Of several definitions of a point the last one that is not virtual counts. */
  lemma LastDefinitionWins(spec: DeviceSpec, k: string) returns (i: nat)
    requires k in BlueprintOf(spec).points
    ensures i < |spec.points| && BlueprintOf(spec).points[k] == spec.points[i]
    ensures !spec.points[i].isVirtual && spec.points[i].pointKey == k
    ensures forall j | i < j < |spec.points| :: spec.points[j].isVirtual || spec.points[j].pointKey != k
  {
    i := LastDefinition(spec.points, k);
  }

  /** A new device is online, and every point of it is at 0, except a battery's state of charge,
      which is within 5 of 60. */
  lemma StartsExactly(spec: DeviceSpec, u: Noise, k: string)
    requires UnitNoise(u) && k in BlueprintOf(spec).points
    ensures var bp, st := BlueprintOf(spec), InitialState(BlueprintOf(spec), u);
            && st.status == Online && st.values.Keys == bp.points.Keys
            && (if bp.behaviour.Battery? && k == METRIC_STATE_OF_CHARGE then Near(st.values[k], 60.0, 5.0)
                else st.values[k] == 0.0)
  {
    var bp := BlueprintOf(spec);
    BehaviourFinds(spec, bp.points);
    DrawNear(u, METRIC_STATE_OF_CHARGE, 5.0);
    assert bp.behaviour.Battery? && k == METRIC_STATE_OF_CHARGE ==> k != "";
  }

  // ----- bounds -----

  /** The value of a point, if the device has it, lies between the two limits. */
  ghost predicate Within(st: DeviceState, key: string, lo: real, hi: real) {
    key != "" ==> key in st.values && lo <= st.values[key] <= hi
  }

  /** The limits every device is meant to respect. */
  ghost predicate Bounded(bp: Blueprint, st: DeviceState) {
    match bp.behaviour
    case Battery(soc, power, setpoint, _, max) =>
      Within(st, soc, 5.0, 95.0) && Within(st, power, -max, max) && Within(st, setpoint, -max, max)
    case PCS(power, reactive, _, max) =>
      Within(st, power, -max, max) && Within(st, reactive, -max / 2.0, max / 2.0)
    case PV(power, max) => Within(st, power, 0.0, max)
    case Meter(power) => Within(st, power, -200.0, 200.0)
    case Passthrough => true
  }

  /** No measured point is declared a control point. */
  ghost predicate Unflagged(bp: Blueprint) {
    forall k | k in MeasuredKeys(bp.behaviour) && k != "" && k in bp.points :: !bp.points[k].controlFlag
  }

  lemma MeasuredReadOnly(bp: Blueprint, k: string)
    requires WellBuilt(bp) && Unflagged(bp) && k in MeasuredKeys(bp.behaviour) && k != ""
    ensures k in bp.points && !bp.writable[k]
  {
    assert k in bp.points && k != SetpointKey(bp.behaviour) by {
      match bp.behaviour {
        case Battery(soc, power, _, _, _) => assert k == soc || k == power;
        case PCS(power, reactive, _, _) => assert k == power || k == reactive;
        case PV(power, _) => assert k == power;
        case Meter(power) => assert k == power;
        case Passthrough =>
      }
    }
  }

  lemma ClampWithin(v: real, lo: real, hi: real)
    requires lo <= hi
    ensures lo <= Clamp(v, lo, hi) <= hi
  {
  }

  lemma InitialBounded(spec: DeviceSpec, u: Noise)
    requires UnitNoise(u)
    ensures Keyed(BlueprintOf(spec), InitialState(BlueprintOf(spec), u))
    ensures Bounded(BlueprintOf(spec), InitialState(BlueprintOf(spec), u))
  {
    BlueprintWellBuilt(spec);
    var bp := BlueprintOf(spec);
    if bp.behaviour.Battery? {
      assert -1.0 <= u(bp.behaviour.socKey) < 1.0;
    }
  }

  lemma BatteryTickBounded(bp: Blueprint, st: DeviceState, power: real, hours: real)
    requires WellBuilt(bp) && Keyed(bp, st) && Bounded(bp, st) && bp.behaviour.Battery?
    requires -bp.behaviour.maxPowerKW <= power <= bp.behaviour.maxPowerKW
    ensures var next := st.(values := BatteryTicked(bp, st.values, power, hours));
            Keyed(bp, next) && Bounded(bp, next)
  {
  }

  lemma PowerBounded(bp: Blueprint, values: Values, u: Noise)
    requires bp.behaviour.Battery? && bp.behaviour.maxPowerKW > 0.0
    ensures -bp.behaviour.maxPowerKW <= BatteryPower(bp, values, u) <= bp.behaviour.maxPowerKW
  {
  }

  lemma OtherTickBounded(bp: Blueprint, st: DeviceState, hours: real, sun: real, u: Noise)
    requires WellBuilt(bp) && Keyed(bp, st) && Bounded(bp, st) && !bp.behaviour.Battery?
    ensures Keyed(bp, Ticked(bp, st, hours, sun, u)) && Bounded(bp, Ticked(bp, st, hours, sun, u))
  {
  }

  lemma TickBounded(bp: Blueprint, st: DeviceState, hours: real, sun: real, u: Noise)
    requires WellBuilt(bp) && Keyed(bp, st) && Bounded(bp, st)
    ensures Keyed(bp, Ticked(bp, st, hours, sun, u)) && Bounded(bp, Ticked(bp, st, hours, sun, u))
  {
    if bp.behaviour.Battery? {
      PowerBounded(bp, st.values, u);
      BatteryTickBounded(bp, st, BatteryPower(bp, st.values, u), hours);
    } else {
      OtherTickBounded(bp, st, hours, sun, u);
    }
  }

  /** Writing a point that carries no limit, or a value within its limit, breaks none. */
  lemma WriteBounded(bp: Blueprint, st: DeviceState, key: string, v: real)
    requires WellBuilt(bp) && Keyed(bp, st) && Bounded(bp, st)
    requires key in bp.points && (key == "" || key !in MeasuredKeys(bp.behaviour))
    requires bp.behaviour.Battery? && key == bp.behaviour.setpointKey ==>
             -bp.behaviour.maxPowerKW <= v <= bp.behaviour.maxPowerKW
    ensures Keyed(bp, st.(values := st.values[key := v])) && Bounded(bp, st.(values := st.values[key := v]))
  {
  }

  lemma ExecuteBounded(bp: Blueprint, st: DeviceState, key: string, v: real)
    requires WellBuilt(bp) && Keyed(bp, st) && Bounded(bp, st) && Unflagged(bp)
    ensures Keyed(bp, Executed(bp, st, key, v)) && Bounded(bp, Executed(bp, st, key, v))
  {
    if ExecuteOutcome(bp, st, key).Ok? {
      if key in MeasuredKeys(bp.behaviour) && key != "" {
        MeasuredReadOnly(bp, key);
      }
      if bp.behaviour.Battery? && key == bp.behaviour.setpointKey {
        ClampWithin(v, -bp.behaviour.maxPowerKW, bp.behaviour.maxPowerKW);
        WriteBounded(bp, st, key, Clamp(v, -bp.behaviour.maxPowerKW, bp.behaviour.maxPowerKW));
      } else {
        WriteBounded(bp, st, key, v);
      }
    }
  }

  lemma ResetBounded(bp: Blueprint, st: DeviceState)
    requires WellBuilt(bp) && Keyed(bp, st) && Bounded(bp, st)
    ensures Keyed(bp, ResetState(bp, st)) && Bounded(bp, ResetState(bp, st))
  {
  }

  lemma StepBounded(bp: Blueprint, st: DeviceState, e: Event)
    requires WellBuilt(bp) && Unflagged(bp) && Keyed(bp, st) && Bounded(bp, st)
    ensures Keyed(bp, Step(bp, st, e)) && Bounded(bp, Step(bp, st, e))
  {
    match e {
      case Tick(hours, sun, noise) => TickBounded(bp, st, hours, sun, noise);
      case Execute(key, value) => ExecuteBounded(bp, st, key, value);
      case Reset => ResetBounded(bp, st);
      case SetStatus(_) =>
    }
  }

  // ----- what one operation does to each point -----

  ghost predicate Near(a: real, b: real, distance: real) {
    b - distance <= a <= b + distance
  }

  lemma ClampNear(x: real, d: real, lo: real, hi: real, distance: real)
    requires lo <= hi && -distance <= d <= distance
    ensures Near(Clamp(x + d, lo, hi), Clamp(x, lo, hi), distance)
    ensures lo <= x <= hi ==> Clamp(x, lo, hi) == x
  {
  }

  lemma DrawNear(u: Noise, k: string, amplitude: real)
    requires UnitNoise(u) && amplitude >= 0.0
    ensures -amplitude <= u(k) * amplitude <= amplitude
  {
    assert -1.0 <= u(k) < 1.0;
    DrawScaled(u(k), amplitude);
  }

  lemma DrawScaled(draw: real, amplitude: real)
    requires -1.0 <= draw <= 1.0 && amplitude >= 0.0
    ensures -amplitude <= draw * amplitude <= amplitude
  {
  }

  /** Where a measured point is after a tick: around its setpoint, around the sun's share, or
      around where it was. */
  ghost predicate Tracks(bp: Blueprint, before: Values, after: Values, sun: real) {
    match bp.behaviour
    case Battery(_, power, setpoint, _, max) =>
      power != "" ==> Near(Get(after, power), Clamp(if setpoint != "" then Get(before, setpoint) else 0.0, -max, max),
                           0.3)
    case PCS(power, reactive, setpoint, max) =>
      && (power != "" && setpoint != "" ==> Near(Get(after, power), Clamp(Get(before, setpoint), -max, max), 0.2))
      && (power != "" && setpoint == "" ==> Get(after, power) == Get(before, power))
      && (reactive != "" ==> Near(Get(after, reactive), Get(before, reactive), 0.1))
    case PV(power, max) => power != "" ==> Near(Get(after, power), Clamp(max * sun, 0.0, max), 0.5)
    case Meter(power) => power != "" ==> Near(Get(after, power), Get(before, power), 1.5)
    case Passthrough => forall k | k in ReadPoints(bp) :: Near(Get(after, k), Get(before, k), 0.1)
  }

  lemma BatteryTracks(bp: Blueprint, st: DeviceState, hours: real, sun: real, u: Noise)
    requires WellBuilt(bp) && Keyed(bp, st) && Bounded(bp, st) && UnitNoise(u) && st.status == Online
             && bp.behaviour.Battery?
    ensures Tracks(bp, st.values, Ticked(bp, st, hours, sun, u).values, sun)
  {
    var b := bp.behaviour;
    var target := if b.setpointKey != "" then Get(st.values, b.setpointKey) else 0.0;
    DrawNear(u, b.powerKey, 0.3);
    ClampNear(target, u(b.powerKey) * 0.3, -b.maxPowerKW, b.maxPowerKW, 0.3);
  }

  lemma PCSPowerTracks(bp: Blueprint, st: DeviceState, hours: real, sun: real, u: Noise)
    requires WellBuilt(bp) && Keyed(bp, st) && UnitNoise(u) && st.status == Online && bp.behaviour.PCS?
    ensures var b, after := bp.behaviour, Ticked(bp, st, hours, sun, u).values;
            b.powerKey != "" ==>
            if b.setpointKey == "" then Get(after, b.powerKey) == Get(st.values, b.powerKey)
            else Near(Get(after, b.powerKey), Clamp(Get(st.values, b.setpointKey), -b.maxPowerKW, b.maxPowerKW), 0.2)
  {
    var b := bp.behaviour;
    DrawNear(u, b.powerKey, 0.2);
    ClampNear(Get(st.values, b.setpointKey), u(b.powerKey) * 0.2, -b.maxPowerKW, b.maxPowerKW, 0.2);
  }

  lemma PCSReactiveTracks(bp: Blueprint, st: DeviceState, hours: real, sun: real, u: Noise)
    requires WellBuilt(bp) && Keyed(bp, st) && Bounded(bp, st)
    requires UnitNoise(u) && st.status == Online && bp.behaviour.PCS?
    ensures var b, after := bp.behaviour, Ticked(bp, st, hours, sun, u).values;
            b.reactiveKey != "" ==> Near(Get(after, b.reactiveKey), Get(st.values, b.reactiveKey), 0.1)
  {
    var b := bp.behaviour;
    DrawNear(u, b.reactiveKey, 0.1);
    ClampNear(Get(st.values, b.reactiveKey), u(b.reactiveKey) * 0.1, -b.maxPowerKW / 2.0, b.maxPowerKW / 2.0, 0.1);
  }

  lemma PCSTracks(bp: Blueprint, st: DeviceState, hours: real, sun: real, u: Noise)
    requires WellBuilt(bp) && Keyed(bp, st) && Bounded(bp, st)
    requires UnitNoise(u) && st.status == Online && bp.behaviour.PCS?
    ensures Tracks(bp, st.values, Ticked(bp, st, hours, sun, u).values, sun)
  {
    PCSPowerTracks(bp, st, hours, sun, u);
    PCSReactiveTracks(bp, st, hours, sun, u);
  }

  lemma SunNear(max: real, sun: real, draw: real, target: real)
    requires max >= 0.0 && -1.0 <= draw <= 1.0 && target == Clamp(max * sun, 0.0, max)
    ensures Near(Clamp(SunPower(max, sun, draw), 0.0, max), target, 0.5)
  {
    DrawScaled(draw, 0.5);
    ClampNear(max * sun, draw * 0.5, 0.0, max, 0.5);
  }

  lemma PVTracks(bp: Blueprint, st: DeviceState, hours: real, sun: real, u: Noise)
    requires WellBuilt(bp) && Keyed(bp, st) && Bounded(bp, st) && UnitNoise(u) && st.status == Online
             && bp.behaviour.PV?
    ensures Tracks(bp, st.values, Ticked(bp, st, hours, sun, u).values, sun)
  {
    var b := bp.behaviour;
    assert -1.0 <= u(b.powerKey) < 1.0;
    SunNear(b.maxPowerKW, sun, u(b.powerKey), Clamp(b.maxPowerKW * sun, 0.0, b.maxPowerKW));
  }

  lemma MeterTracks(bp: Blueprint, st: DeviceState, hours: real, sun: real, u: Noise)
    requires WellBuilt(bp) && Keyed(bp, st) && Bounded(bp, st) && UnitNoise(u) && st.status == Online
             && bp.behaviour.Meter?
    ensures Tracks(bp, st.values, Ticked(bp, st, hours, sun, u).values, sun)
  {
    var b := bp.behaviour;
    DrawNear(u, b.powerKey, 1.5);
    ClampNear(Get(st.values, b.powerKey), u(b.powerKey) * 1.5, -200.0, 200.0, 1.5);
  }

  lemma PassthroughTracks(bp: Blueprint, st: DeviceState, hours: real, sun: real, u: Noise)
    requires WellBuilt(bp) && Keyed(bp, st) && Bounded(bp, st) && UnitNoise(u) && st.status == Online
             && bp.behaviour.Passthrough?
    ensures Tracks(bp, st.values, Ticked(bp, st, hours, sun, u).values, sun)
  {
    forall k | k in ReadPoints(bp) ensures Near(Get(Ticked(bp, st, hours, sun, u).values, k), Get(st.values, k), 0.1) {
      DrawNear(u, k, 0.1);
    }
  }

  /** A tick brings measured points to their targets within the noise of their type. */
  lemma TickTracks(bp: Blueprint, st: DeviceState, hours: real, sun: real, u: Noise)
    requires WellBuilt(bp) && Keyed(bp, st) && Bounded(bp, st) && UnitNoise(u) && st.status == Online
    ensures Tracks(bp, st.values, Ticked(bp, st, hours, sun, u).values, sun)
  {
    match bp.behaviour {
      case Battery(_, _, _, _, _) => BatteryTracks(bp, st, hours, sun, u);
      case PCS(_, _, _, _) => PCSTracks(bp, st, hours, sun, u);
      case PV(_, _) => PVTracks(bp, st, hours, sun, u);
      case Meter(_) => MeterTracks(bp, st, hours, sun, u);
      case Passthrough => PassthroughTracks(bp, st, hours, sun, u);
    }
  }

  /** A clamp leaves what is within the limits and moves the rest to the nearer limit. */
  lemma ClampExactly(v: real, lo: real, hi: real)
    requires lo <= hi
    ensures Clamp(v, lo, hi) == if v < lo then lo else if v > hi then hi else v
  {
  }

  /** What a tick writes, point by point, with the amplitude of the noise of each type. */
  ghost predicate TicksTo(bp: Blueprint, before: Values, after: Values, sun: real, u: Noise) {
    match bp.behaviour
    case Battery(_, power, setpoint, _, max) =>
      power != "" ==>
        Get(after, power) == Clamp((if setpoint != "" then Get(before, setpoint) else 0.0) + 0.3 * u(power), -max, max)
    case PCS(power, reactive, setpoint, max) =>
      && (power != "" && setpoint != "" ==>
          Get(after, power) == Clamp(Get(before, setpoint) + 0.2 * u(power), -max, max))
      && (reactive != "" ==>
          Get(after, reactive) == Clamp(Get(before, reactive) + 0.1 * u(reactive), -max / 2.0, max / 2.0))
    case PV(power, max) => power != "" ==> Get(after, power) == Clamp(max * sun + 0.5 * u(power), 0.0, max)
    case Meter(power) => power != "" ==> Get(after, power) == Clamp(Get(before, power) + 1.5 * u(power), -200.0, 200.0)
    case Passthrough => forall k | k in ReadPoints(bp) :: Get(after, k) == Get(before, k) + 0.1 * u(k)
  }

  lemma TickExactly(bp: Blueprint, st: DeviceState, hours: real, sun: real, u: Noise)
    requires WellBuilt(bp) && Keyed(bp, st) && st.status == Online
    ensures TicksTo(bp, st.values, Ticked(bp, st, hours, sun, u).values, sun, u)
  {
  }

  /** The points a tick may write. */
  function TickedKeys(bp: Blueprint): set<string> {
    if bp.behaviour.Passthrough? then ReadPoints(bp) else set k | k in MeasuredKeys(bp.behaviour)
  }

  /** A tick leaves the status, and every point but the measured ones, in particular every
      setpoint; nothing at all happens to a device that is not online. */
  lemma TickLeavesOthers(bp: Blueprint, st: DeviceState, hours: real, sun: real, u: Noise, k: string)
    requires WellBuilt(bp) && Keyed(bp, st)
    ensures var next := Ticked(bp, st, hours, sun, u);
            && next.status == st.status
            && (st.status != Online ==> next == st)
            && (k !in TickedKeys(bp) ==> Get(next.values, k) == Get(st.values, k))
  {
  }

  /** A command goes through exactly on a device that is not offline, to a point it has, that
      is a control point or the setpoint of a battery or an inverter. Then that point reads
      what was commanded, within the rating for a battery's setpoint; nothing else changes. */
  lemma ExecuteExactly(bp: Blueprint, st: DeviceState, key: string, v: real, k: string)
    requires WellBuilt(bp) && Keyed(bp, st)
    ensures ExecuteOutcome(bp, st, key).Ok? <==>
            st.status != Offline && key in bp.points
                && (bp.points[key].controlFlag || (key == SetpointKey(bp.behaviour) && key != ""))
    ensures ExecuteOutcome(bp, st, key).Err? ==>
            && Executed(bp, st, key, v) == st
            && ExecuteOutcome(bp, st, key).error ==
               if st.status == Offline then ErrDeviceOffline
               else if key !in bp.points then ErrPointUnknown else ErrPointNotWritable
    ensures ExecuteOutcome(bp, st, key).Ok? ==>
            var next := Executed(bp, st, key, v);
            && next.status == st.status && (k != key ==> Get(next.values, k) == Get(st.values, k))
            && (bp.behaviour.Battery? && key == bp.behaviour.setpointKey ==>
                Get(next.values, key) == Clamp(v, -bp.behaviour.maxPowerKW, bp.behaviour.maxPowerKW))
            && (!(bp.behaviour.Battery? && key == bp.behaviour.setpointKey) ==> Get(next.values, key) == v)
  {
  }

  /** A reset brings every device online and puts the points its type resets to 0, a state of
      charge to 60; batteries and PV keep their other points. */
  lemma ResetExactly(bp: Blueprint, st: DeviceState, k: string)
    requires WellBuilt(bp) && Keyed(bp, st)
    ensures var next := ResetState(bp, st);
            && next.status == Online
            && Get(next.values, k) ==
               (match bp.behaviour
                case Battery(soc, power, setpoint, _, _) =>
                  if k == "" then Get(st.values, k)
                  else if k == soc then 60.0
                  else if k in {power, setpoint} then 0.0
                  else Get(st.values, k)
                case PV(power, _) => if k != "" && k == power then 0.0 else Get(st.values, k)
                case _ => 0.0)
  {
  }

  // ----- whole runs -----

  lemma RunBounded(bp: Blueprint, st: DeviceState, events: seq<Event>)
    requires WellBuilt(bp) && Keyed(bp, st) && Bounded(bp, st) && Unflagged(bp)
    ensures Keyed(bp, Run(bp, st, events)) && Bounded(bp, Run(bp, st, events))
  {
    forall s, e | Keyed(bp, s) && Bounded(bp, s) ensures Keyed(bp, Step(bp, s, e)) && Bounded(bp, Step(bp, s, e)) {
      StepBounded(bp, s, e);
    }
    FoldInvariant(Stepper(bp), s => Keyed(bp, s) && Bounded(bp, s), e => true, st, events);
  }

  lemma StepKeyed(bp: Blueprint, st: DeviceState, e: Event)
    requires WellBuilt(bp) && Keyed(bp, st)
    ensures Keyed(bp, Step(bp, st, e))
  {
  }

  /** In every run the points are exactly the non-virtual ones, flags and limits aside. */
  lemma RunKeyed(bp: Blueprint, st: DeviceState, events: seq<Event>)
    requires WellBuilt(bp) && Keyed(bp, st)
    ensures Keyed(bp, Run(bp, st, events))
  {
    forall s, e | Keyed(bp, s) ensures Keyed(bp, Step(bp, s, e)) {
      StepKeyed(bp, s, e);
    }
    FoldInvariant(Stepper(bp), s => Keyed(bp, s), e => true, st, events);
  }

  /** A command to a control point that is also a measured point breaks its limits. */
  lemma FlaggedBreaks(spec: DeviceSpec, u: Noise, k: string) returns (events: seq<Event>)
    requires UnitNoise(u)
    requires var bp := BlueprintOf(spec);
             k in MeasuredKeys(bp.behaviour) && k != "" && k in bp.points && bp.points[k].controlFlag
    ensures !Bounded(BlueprintOf(spec), Run(BlueprintOf(spec), InitialState(BlueprintOf(spec), u), events))
  {
    var bp := BlueprintOf(spec);
    BlueprintWellBuilt(spec);
    var high := match bp.behaviour
      case Battery(_, _, _, _, max) => max + 96.0
      case PCS(_, _, _, max) => max + 1.0
      case PV(_, max) => max + 1.0
      case Meter(_) => 201.0
      case Passthrough => 0.0;
    events := [Execute(k, high)];
    var st := InitialState(bp, u);
    FoldOne(Stepper(bp), st, events[0]);
    assert Step(bp, st, events[0]).values[k] == high;
  }

  /** Every run from construction keeps the limits, exactly when no measured point is also a
      control point; the noise and the sun play no part. */
  lemma BoundedExactly(spec: DeviceSpec, u: Noise)
    requires UnitNoise(u)
    ensures Unflagged(BlueprintOf(spec)) <==>
            forall events :: Bounded(BlueprintOf(spec),
                                     Run(BlueprintOf(spec), InitialState(BlueprintOf(spec), u), events))
  {
    var bp := BlueprintOf(spec);
    if Unflagged(bp) {
      BlueprintWellBuilt(spec);
      InitialBounded(spec, u);
      forall events ensures Bounded(bp, Run(bp, InitialState(bp, u), events)) {
        RunBounded(bp, InitialState(bp, u), events);
      }
    } else {
      var k :| k in MeasuredKeys(bp.behaviour) && k != "" && k in bp.points && bp.points[k].controlFlag;
      var events := FlaggedBreaks(spec, u, k);
    }
  }
}
