/** Energy accounting of a simulated battery over whole runs. */
module BatteryRuns {
  import opened Sequences
  import opened Devices
  import opened DeviceRuns

  /** A battery that measures its state of charge, not writable from outside. */
  ghost predicate Metered(bp: Blueprint, st: DeviceState) {
    && bp.behaviour.Battery? && bp.behaviour.socKey != "" && WellBuilt(bp) && Unflagged(bp)
    && Keyed(bp, st) && Bounded(bp, st)
  }

  function Soc(bp: Blueprint, st: DeviceState): real {
    if bp.behaviour.Battery? then Get(st.values, bp.behaviour.socKey) else 0.0
  }

  /** Hours in which a tick has effect: none while the device is not online. */
  function TickHours(st: DeviceState, e: Event): real {
    if e.Tick? && st.status == Online then e.hours else 0.0
  }

  /** The energy one event draws from a battery, in kWh: power times hours. */
  function TickEnergy(bp: Blueprint, st: DeviceState, e: Event): real {
    if bp.behaviour.Battery? && e.Tick? && st.status == Online
    then BatteryPower(bp, st.values, e.noise) * e.hours else 0.0
  }

  function Energy(bp: Blueprint, st: DeviceState, events: seq<Event>): real
    decreases |events|
  {
    if events == [] then 0.0 else TickEnergy(bp, st, events[0]) + Energy(bp, Step(bp, st, events[0]), events[1..])
  }

  function TotalHours(bp: Blueprint, st: DeviceState, events: seq<Event>): real
    decreases |events|
  {
    if events == [] then 0.0
    else
      var h := TickHours(st, events[0]);
      (if h < 0.0 then -h else h) + TotalHours(bp, Step(bp, st, events[0]), events[1..])
  }

  /** In no tick of the run does a 5 or 95 percent limit bind. */
  ghost predicate LimitsFree(bp: Blueprint, st: DeviceState, events: seq<Event>)
    decreases |events|
  {
    events == [] ||
    (&& (bp.behaviour.Battery? && bp.behaviour.capacityKWh > 0.0 && events[0].Tick? && st.status == Online ==>
         5.0 <= SocAfter(Soc(bp, st), BatteryPower(bp, st.values, events[0].noise), events[0].hours,
                         bp.behaviour.capacityKWh) <= 95.0)
     && LimitsFree(bp, Step(bp, st, events[0]), events[1..]))
  }

  ghost predicate NoReset(events: seq<Event>) {
    forall e | e in events :: !e.Reset?
  }

  // ----- real arithmetic -----

  lemma DivideSum(a: real, b: real, c: real)
    requires c > 0.0
    ensures (a + b) / c == a / c + b / c
  {
  }

  lemma ShareBounded(p: real, h: real, c: real)
    requires c > 0.0 && -c <= p <= c
    ensures h >= 0.0 ==> -h <= p * h / c <= h
    ensures h <= 0.0 ==> h <= p * h / c <= -h
  {
    var share := p / c;
    assert -1.0 <= share <= 1.0;
    assert p * h / c == share * h;
  }

  lemma ShareMonotone(p: real, q: real, h: real, c: real)
    requires c > 0.0 && h >= 0.0 && p <= q
    ensures p * h / c <= q * h / c
  {
    assert (q - p) * h >= 0.0;
    assert p * h + (q - p) * h == q * h;
    DivideSum(p * h, (q - p) * h, c);
  }

  /** Percent of the capacity that a power moves in some hours. */
  function Percent(power: real, hours: real, c: real): real
    requires c > 0.0
  {
    power * hours / c * 100.0
  }

  function Times(n: nat, d: real): real {
    n as real * d
  }

  lemma SocAfterEnergy(soc: real, p: real, h: real, c: real, energy: real)
    requires c > 0.0 && energy == p * h
    ensures SocAfter(soc, p, h, c) == soc - energy / c * 100.0
  {
  }

  lemma SocAfterFalls(soc: real, p: real, q: real, h: real, c: real)
    requires c > 0.0 && h >= 0.0 && q <= p
    ensures SocAfter(soc, p, h, c) <= soc - Percent(q, h, c)
  {
    ShareMonotone(q, p, h, c);
  }

  lemma SocAfterRises(soc: real, p: real, q: real, h: real, c: real)
    requires c > 0.0 && h >= 0.0 && p <= q
    ensures SocAfter(soc, p, h, c) >= soc - Percent(q, h, c)
  {
    ShareMonotone(p, q, h, c);
  }

  lemma SocAfterMoves(soc: real, p: real, h: real, c: real)
    requires c > 0.0 && -c <= p <= c
    ensures var limit := if h < 0.0 then -100.0 * h else 100.0 * h;
            soc - limit <= SocAfter(soc, p, h, c) <= soc + limit
  {
    ShareBounded(p, h, c);
  }

  lemma PercentSign(power: real, hours: real, c: real)
    requires hours >= 0.0 && c > 0.0
    ensures power >= 0.0 ==> Percent(power, hours, c) >= 0.0
    ensures power <= 0.0 ==> Percent(power, hours, c) <= 0.0
  {
    if power >= 0.0 {
      ShareMonotone(0.0, power, hours, c);
    } else {
      ShareMonotone(power, 0.0, hours, c);
    }
  }

  /** Two steps of accounting are one. */
  lemma AccountsChain(soc: real, mid: real, end: real, first: real, rest: real, c: real)
    requires c > 0.0 && mid == soc - first / c * 100.0 && end == mid - rest / c * 100.0
    ensures end == soc - (first + rest) / c * 100.0
  {
    DivideSum(first, rest, c);
  }

  /** A step that falls by d or hits the floor, then n more, is n + 1 such steps. */
  lemma FallsChain(soc: real, mid: real, end: real, n: nat, d: real)
    requires d >= 0.0 && end >= 5.0
    requires mid == 5.0 || mid <= soc - d
    requires end == 5.0 || end <= mid - Times(n, d)
    ensures end == 5.0 || end <= soc - Times(n + 1, d)
  {
    assert n as real * d >= 0.0;
    assert (n + 1) as real * d == n as real * d + d;
  }

  lemma RisesChain(soc: real, mid: real, end: real, n: nat, d: real)
    requires d <= 0.0 && end <= 95.0
    requires mid == 95.0 || mid >= soc - d
    requires end == 95.0 || end >= mid - Times(n, d)
    ensures end == 95.0 || end >= soc - Times(n + 1, d)
  {
    assert n as real * d <= 0.0;
    assert (n + 1) as real * d == n as real * d + d;
  }

  lemma ClampMoves(soc: real, next: real, limit: real)
    requires 5.0 <= soc <= 95.0 && soc - limit <= next <= soc + limit
    ensures soc - limit <= Clamp(next, 5.0, 95.0) <= soc + limit
  {
  }

  lemma ClampFalls(soc: real, next: real, d: real)
    requires next <= soc - d
    ensures Clamp(next, 5.0, 95.0) == 5.0 || Clamp(next, 5.0, 95.0) <= soc - d
  {
  }

  lemma ClampRises(soc: real, next: real, d: real)
    requires next >= soc - d
    ensures Clamp(next, 5.0, 95.0) == 95.0 || Clamp(next, 5.0, 95.0) >= soc - d
  {
  }

  // ----- one event -----

  /** A tick of a metered battery moves the charge by its power, within the limits, and that
      power is what the power point reads afterwards. */
  lemma TickSoc(bp: Blueprint, st: DeviceState, e: Event)
    requires Metered(bp, st) && e.Tick?
    ensures Soc(bp, Step(bp, st, e)) ==
            if st.status != Online then Soc(bp, st)
            else Clamp(SocAfter(Soc(bp, st), BatteryPower(bp, st.values, e.noise), e.hours, bp.behaviour.capacityKWh),
                       5.0, 95.0)
    ensures st.status == Online && bp.behaviour.powerKey != "" ==>
            Get(Step(bp, st, e).values, bp.behaviour.powerKey) == BatteryPower(bp, st.values, e.noise)
  {
  }

  lemma OtherEventsKeepSoc(bp: Blueprint, st: DeviceState, e: Event)
    requires Metered(bp, st) && !e.Tick? && !e.Reset?
    ensures Soc(bp, Step(bp, st, e)) == Soc(bp, st)
  {
    if e.Execute? {
      MeasuredReadOnly(bp, bp.behaviour.socKey);
    }
  }

  lemma StepMetered(bp: Blueprint, st: DeviceState, e: Event)
    requires Metered(bp, st)
    ensures Metered(bp, Step(bp, st, e))
  {
    match e {
      case Tick(hours, sun, noise) => TickBounded(bp, st, hours, sun, noise);
      case Execute(key, value) => ExecuteBounded(bp, st, key, value);
      case Reset => ResetBounded(bp, st);
      case SetStatus(_) =>
    }
  }

  // ----- whole runs -----

  lemma {:induction false} TickAccounts(bp: Blueprint, st: DeviceState, e: Event)
    requires Metered(bp, st) && e.Tick? && LimitsFree(bp, st, [e])
    ensures Soc(bp, Step(bp, st, e)) == Soc(bp, st) - TickEnergy(bp, st, e) / bp.behaviour.capacityKWh * 100.0
  {
    TickSoc(bp, st, e);
    if st.status == Online {
      SocAfterEnergy(Soc(bp, st), BatteryPower(bp, st.values, e.noise), e.hours, bp.behaviour.capacityKWh,
                     TickEnergy(bp, st, e));
    }
  }

  lemma {:induction false} StepAccounts(bp: Blueprint, st: DeviceState, e: Event)
    requires Metered(bp, st) && !e.Reset? && LimitsFree(bp, st, [e])
    ensures Soc(bp, Step(bp, st, e)) == Soc(bp, st) - TickEnergy(bp, st, e) / bp.behaviour.capacityKWh * 100.0
  {
    if e.Tick? {
      TickAccounts(bp, st, e);
    } else {
      OtherEventsKeepSoc(bp, st, e);
    }
  }

  lemma {:induction false} FirstOfRun(bp: Blueprint, st: DeviceState, events: seq<Event>)
    requires events != [] && NoReset(events) && LimitsFree(bp, st, events)
    ensures var e, next, rest := events[0], Step(bp, st, events[0]), events[1..];
            && !e.Reset? && LimitsFree(bp, st, [e]) && NoReset(rest) && LimitsFree(bp, next, rest)
            && Run(bp, st, events) == Run(bp, next, rest)
            && Energy(bp, st, events) == TickEnergy(bp, st, e) + Energy(bp, next, rest)
  {
  }

  /** Where the limits do not bind, charge is conserved: what is missing at the end is the
      energy drawn, in percent of the capacity, whatever commands came in between. */
  lemma {:induction false} EnergyAccounts(bp: Blueprint, st: DeviceState, events: seq<Event>)
    requires Metered(bp, st) && NoReset(events) && LimitsFree(bp, st, events)
    ensures Soc(bp, Run(bp, st, events)) == Soc(bp, st) - Energy(bp, st, events) / bp.behaviour.capacityKWh * 100.0
    decreases |events|
  {
    if events != [] {
      var e := events[0];
      var next := Step(bp, st, e);
      StepMetered(bp, st, e);
      FirstOfRun(bp, st, events);
      StepAccounts(bp, st, e);
      EnergyAccounts(bp, next, events[1..]);
      AccountsChain(Soc(bp, st), Soc(bp, next), Soc(bp, Run(bp, next, events[1..])),
                    TickEnergy(bp, st, e), Energy(bp, next, events[1..]), bp.behaviour.capacityKWh);
    }
  }

  lemma TickMoves(bp: Blueprint, st: DeviceState, e: Event)
    requires Metered(bp, st) && e.Tick?
    ensures var h, moved := TickHours(st, e), Soc(bp, Step(bp, st, e)) - Soc(bp, st);
            if h < 0.0 then 100.0 * h <= moved <= -100.0 * h else -100.0 * h <= moved <= 100.0 * h
  {
    TickSoc(bp, st, e);
    if st.status == Online {
      var h, p := e.hours, BatteryPower(bp, st.values, e.noise);
      PowerBounded(bp, st.values, e.noise);
      SocAfterMoves(Soc(bp, st), p, h, bp.behaviour.capacityKWh);
      ClampMoves(Soc(bp, st), SocAfter(Soc(bp, st), p, h, bp.behaviour.capacityKWh),
                 if h < 0.0 then -100.0 * h else 100.0 * h);
    }
  }

  /** Limits or not, charge never moves by more than 100 percent per hour online. */
  lemma {:induction false} ChargeMovesSlowly(bp: Blueprint, st: DeviceState, events: seq<Event>)
    requires Metered(bp, st) && NoReset(events)
    ensures var moved := Soc(bp, Run(bp, st, events)) - Soc(bp, st);
            -100.0 * TotalHours(bp, st, events) <= moved <= 100.0 * TotalHours(bp, st, events)
    decreases |events|
  {
    if events != [] {
      var e := events[0];
      StepMetered(bp, st, e);
      if e.Tick? {
        TickMoves(bp, st, e);
      } else {
        OtherEventsKeepSoc(bp, st, e);
      }
      ChargeMovesSlowly(bp, Step(bp, st, e), events[1..]);
    }
  }

  // ----- running flat, filling up -----

  /** An online battery whose setpoint is s. */
  ghost predicate Holds(bp: Blueprint, st: DeviceState, s: real) {
    Metered(bp, st) && st.status == Online && bp.behaviour.setpointKey != ""
        && Get(st.values, bp.behaviour.setpointKey) == s
  }

  /** Fair ticks of one length. */
  ghost predicate Ticks(events: seq<Event>, hours: real) {
    AllGood(FairTick(hours), events)
  }

  lemma TickHolds(bp: Blueprint, st: DeviceState, s: real, e: Event)
    requires Holds(bp, st, s) && e.Tick?
    ensures Holds(bp, Step(bp, st, e), s)
  {
    StepMetered(bp, st, e);
  }

  /** With noise, the power stays within 0.3 kW of the setpoint. */
  lemma PowerNearSetpoint(bp: Blueprint, st: DeviceState, s: real, u: Noise)
    requires Holds(bp, st, s) && UnitNoise(u)
    ensures s - 0.3 <= BatteryPower(bp, st.values, u) <= s + 0.3
  {
    assert -1.0 <= u(bp.behaviour.powerKey) < 1.0;
  }

  lemma DischargeTick(bp: Blueprint, st: DeviceState, s: real, e: Event)
    requires Holds(bp, st, s) && e.Tick? && Fair(e) && e.hours >= 0.0
    ensures var next := Soc(bp, Step(bp, st, e));
            next == 5.0 || next <= Soc(bp, st) - Percent(s - 0.3, e.hours, bp.behaviour.capacityKWh)
  {
    var p, c := BatteryPower(bp, st.values, e.noise), bp.behaviour.capacityKWh;
    TickSoc(bp, st, e);
    PowerNearSetpoint(bp, st, s, e.noise);
    SocAfterFalls(Soc(bp, st), p, s - 0.3, e.hours, c);
    ClampFalls(Soc(bp, st), SocAfter(Soc(bp, st), p, e.hours, c), Percent(s - 0.3, e.hours, c));
  }

  lemma ChargeTick(bp: Blueprint, st: DeviceState, s: real, e: Event)
    requires Holds(bp, st, s) && e.Tick? && Fair(e) && e.hours >= 0.0
    ensures var next := Soc(bp, Step(bp, st, e));
            next == 95.0 || next >= Soc(bp, st) - Percent(s + 0.3, e.hours, bp.behaviour.capacityKWh)
  {
    var p, c := BatteryPower(bp, st.values, e.noise), bp.behaviour.capacityKWh;
    TickSoc(bp, st, e);
    PowerNearSetpoint(bp, st, s, e.noise);
    SocAfterRises(Soc(bp, st), p, s + 0.3, e.hours, c);
    ClampRises(Soc(bp, st), SocAfter(Soc(bp, st), p, e.hours, c), Percent(s + 0.3, e.hours, c));
  }

  lemma HeldSocWithin(bp: Blueprint, st: DeviceState, s: real)
    requires Holds(bp, st, s)
    ensures 5.0 <= Soc(bp, st) <= 95.0
  {
  }

  /** While a condition holds, the quantity lies in [5, 95]. */
  ghost predicate KeptWithin<S(!new)>(soc: S -> real, holds: S -> bool) {
    forall t | holds(t) :: 5.0 <= soc(t) <= 95.0
  }

  /** Each good step keeps the condition and lowers the quantity by d, or leaves it at 5. */
  ghost predicate FallsEach<S(!new), A(!new)>(step: (S, A) -> S, soc: S -> real, holds: S -> bool, good: A -> bool,
                                              d: real) {
    forall t, e | holds(t) && good(e) :: holds(step(t, e)) && (soc(step(t, e)) == 5.0 || soc(step(t, e)) <= soc(t) - d)
  }

  ghost predicate RisesEach<S(!new), A(!new)>(step: (S, A) -> S, soc: S -> real, holds: S -> bool, good: A -> bool,
                                              d: real) {
    forall t, e | holds(t) && good(e) :: holds(step(t, e)) && (soc(step(t, e)) == 95.0 || soc(step(t, e)) >= soc(t) - d)
  }

  ghost predicate AllGood<A>(good: A -> bool, items: seq<A>) {
    forall e | e in items :: good(e)
  }

  lemma {:induction false} FoldFalls<S(!new), A(!new)>(
    step: (S, A) -> S, soc: S -> real, holds: S -> bool, good: A -> bool, s: S, items: seq<A>, d: real)
    requires FallsEach(step, soc, holds, good, d)
    requires KeptWithin(soc, holds)
    requires holds(s) && d >= 0.0 && AllGood(good, items)
    ensures 5.0 <= soc(Fold(step, s, items)) <= 95.0
    ensures soc(Fold(step, s, items)) == 5.0 || soc(Fold(step, s, items)) <= soc(s) - Times(|items|, d)
    decreases |items|
  {
    if items != [] {
      var next := step(s, items[0]);
      FoldFalls(step, soc, holds, good, next, items[1..], d);
      FallsChain(soc(s), soc(next), soc(Fold(step, next, items[1..])), |items[1..]|, d);
    }
  }

  lemma {:induction false} FoldRises<S(!new), A(!new)>(
    step: (S, A) -> S, soc: S -> real, holds: S -> bool, good: A -> bool, s: S, items: seq<A>, d: real)
    requires RisesEach(step, soc, holds, good, d)
    requires KeptWithin(soc, holds)
    requires holds(s) && d <= 0.0 && AllGood(good, items)
    ensures 5.0 <= soc(Fold(step, s, items)) <= 95.0
    ensures soc(Fold(step, s, items)) == 95.0 || soc(Fold(step, s, items)) >= soc(s) - Times(|items|, d)
    decreases |items|
  {
    if items != [] {
      var next := step(s, items[0]);
      FoldRises(step, soc, holds, good, next, items[1..], d);
      RisesChain(soc(s), soc(next), soc(Fold(step, next, items[1..])), |items[1..]|, d);
    }
  }

  function SocOf(bp: Blueprint): DeviceState -> real {
    (st: DeviceState) => Soc(bp, st)
  }

  ghost function HoldsAt(bp: Blueprint, s: real): DeviceState -> bool {
    (st: DeviceState) => Holds(bp, st, s)
  }

  ghost function FairTick(hours: real): Event -> bool {
    (e: Event) => e.Tick? && e.hours == hours && Fair(e)
  }

  lemma HeldAllWithin(bp: Blueprint, s: real)
    ensures KeptWithin(SocOf(bp), HoldsAt(bp, s))
  {
    forall t | HoldsAt(bp, s)(t) ensures 5.0 <= Soc(bp, t) <= 95.0 {
      HeldSocWithin(bp, t, s);
    }
  }

  lemma DischargeSteps(bp: Blueprint, s: real, hours: real, c: real)
    requires hours >= 0.0 && bp.behaviour.Battery? && c == bp.behaviour.capacityKWh > 0.0
    ensures FallsEach(Stepper(bp), SocOf(bp), HoldsAt(bp, s), FairTick(hours), Percent(s - 0.3, hours, c))
  {
    forall t, e | HoldsAt(bp, s)(t) && FairTick(hours)(e)
      ensures Holds(bp, Step(bp, t, e), s)
      ensures Soc(bp, Step(bp, t, e)) == 5.0 || Soc(bp, Step(bp, t, e)) <= Soc(bp, t) - Percent(s - 0.3, hours, c)
    {
      TickHolds(bp, t, s, e);
      DischargeTick(bp, t, s, e);
    }
  }

  lemma DischargeRun(bp: Blueprint, st: DeviceState, s: real, hours: real, events: seq<Event>)
    requires Holds(bp, st, s) && Ticks(events, hours) && hours >= 0.0 && s > 0.3
    ensures var end := SocOf(bp)(Run(bp, st, events));
            end == 5.0 || end <= SocOf(bp)(st) - Times(|events|, Percent(s - 0.3, hours, bp.behaviour.capacityKWh))
    ensures 5.0 <= SocOf(bp)(Run(bp, st, events)) <= 95.0
  {
    var d := Percent(s - 0.3, hours, bp.behaviour.capacityKWh);
    PercentSign(s - 0.3, hours, bp.behaviour.capacityKWh);
    DischargeSteps(bp, s, hours, bp.behaviour.capacityKWh);
    HeldAllWithin(bp, s);
    FoldFalls(Stepper(bp), SocOf(bp), HoldsAt(bp, s), FairTick(hours), st, events, d);
  }

  lemma ChargeSteps(bp: Blueprint, s: real, hours: real, c: real)
    requires hours >= 0.0 && bp.behaviour.Battery? && c == bp.behaviour.capacityKWh > 0.0
    ensures RisesEach(Stepper(bp), SocOf(bp), HoldsAt(bp, s), FairTick(hours), Percent(s + 0.3, hours, c))
  {
    forall t, e | HoldsAt(bp, s)(t) && FairTick(hours)(e)
      ensures Holds(bp, Step(bp, t, e), s)
      ensures Soc(bp, Step(bp, t, e)) == 95.0 || Soc(bp, Step(bp, t, e)) >= Soc(bp, t) - Percent(s + 0.3, hours, c)
    {
      TickHolds(bp, t, s, e);
      ChargeTick(bp, t, s, e);
    }
  }

  lemma ChargeRun(bp: Blueprint, st: DeviceState, s: real, hours: real, events: seq<Event>)
    requires Holds(bp, st, s) && Ticks(events, hours) && hours >= 0.0 && s < -0.3
    ensures var end := SocOf(bp)(Run(bp, st, events));
            end == 95.0 || end >= SocOf(bp)(st) - Times(|events|, Percent(s + 0.3, hours, bp.behaviour.capacityKWh))
    ensures 5.0 <= SocOf(bp)(Run(bp, st, events)) <= 95.0
  {
    var d := Percent(s + 0.3, hours, bp.behaviour.capacityKWh);
    PercentSign(s + 0.3, hours, bp.behaviour.capacityKWh);
    ChargeSteps(bp, s, hours, bp.behaviour.capacityKWh);
    HeldAllWithin(bp, s);
    FoldRises(Stepper(bp), SocOf(bp), HoldsAt(bp, s), FairTick(hours), st, events, d);
  }

  /** Under a fixed discharge setpoint above the noise, enough ticks to draw 90 percent leave
      the battery at exactly 5 percent, and all later ticks do too, whatever it started from;
      under a fixed charge setpoint, at exactly 95. */
  lemma Saturates(bp: Blueprint, st: DeviceState, s: real, hours: real, events: seq<Event>)
    requires Holds(bp, st, s) && Ticks(events, hours) && hours >= 0.0
    ensures s > 0.3 && Times(|events|, Percent(s - 0.3, hours, bp.behaviour.capacityKWh)) >= 90.0
            ==> Soc(bp, Run(bp, st, events)) == 5.0
    ensures s < -0.3 && Times(|events|, Percent(s + 0.3, hours, bp.behaviour.capacityKWh)) <= -90.0
            ==> Soc(bp, Run(bp, st, events)) == 95.0
  {
    HeldSocWithin(bp, st, s);
    if s > 0.3 {
      DischargeRun(bp, st, s, hours, events);
    } else if s < -0.3 {
      ChargeRun(bp, st, s, hours, events);
    }
  }
}
