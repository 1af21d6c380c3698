/** When the statuses of devices agree with the faults, under threads that interleave at every
    lock. */
module FleetStatus {
  import opened Wrappers
  import opened Sequences
  import opened GoTime
  import opened Fault
  import opened Devices
  import opened Fleet
  import opened FleetThreads

  /** The device is offline exactly when one of its keys carries an offline fault. */
  ghost predicate AgreesIn(w: World, i: nat)
    requires Has(w, i)
  {
    w.states[i].status == Offline <==> OfflineFault(w, i)
  }

  ghost predicate Agrees(s: Threads, i: nat) {
    Has(s.world, i) && AgreesIn(s.world, i)
  }

  /** The move neither asks for an offline fault or a clear on a key of the device, nor sets its
      status from outside, nor resets it. */
  ghost predicate Leaves(s: Threads, m: Move, i: nat)
    requires Has(s.world, i)
  {
    && !(m.action.BeginFault? && m.action.faultKey in Aliases(s.world.blueprints[i])
         && (m.action.kind == FaultOffline || m.action.kind == FaultClear))
    && !(m.action.PutStatus? && m.action.device == i)
    && !(m.action.Continue? && m.thread in s.at
         && s.at[m.thread].ResetNext? && s.at[m.thread].todo != [] && s.at[m.thread].todo[0] == i)
  }

  ghost predicate LeavesAll(s: Threads, moves: seq<Move>, i: nat)
    decreases |moves|
  {
    moves == [] || (Has(s.world, i) && Leaves(s, moves[0], i) && LeavesAll(Next(s, moves[0]), moves[1..], i))
  }

  /** What the thread knows of the device's faults, or is about to write into its status, no
      longer agrees with the faults. */
  ghost predicate StaleAt(w: World, pc: Pc, i: nat)
    requires Has(w, i)
  {
    match pc
    case TickDown(j, _, _) => j == i && !OfflineFault(w, i)
    case CommandDown(j) => j == i && !OfflineFault(w, i)
    case TickUp(j, _, _) => j == i && OfflineFault(w, i)
    case TickRevive(j, _, _) => j == i && OfflineFault(w, i)
    case FaultApplied(j, status) => j == i && !(status == Offline <==> OfflineFault(w, i))
    case _ => false
  }

  ghost predicate Stale(s: Threads, t: nat, i: nat)
    requires Has(s.world, i)
  {
    t in s.at && StaleAt(s.world, s.at[t], i)
  }

  // ----- without stale threads -----

  lemma AppliedElsewhere(faults: Faults, keys: seq<string>, key: string, kind: Kind, delayMS: Int64)
    requires !(key in keys && (kind == FaultOffline || kind == FaultClear))
    ensures AnyOffline(Applied(faults, key, kind, delayMS), keys) <==> AnyOffline(faults, keys)
  {
    var after := Applied(faults, key, kind, delayMS);
    forall k | k in keys ensures (k in after && after[k].offline) <==> (k in faults && faults[k].offline) {
    }
  }

  /** Where the faults and the device stand after a move. */
  lemma FaultsStay(s: Threads, m: Move, i: nat)
    requires Has(s.world, i) && Leaves(s, m, i)
    ensures var w := Next(s, m).world;
            && SameShape(s.world, w) && Has(w, i)
            && (OfflineFault(w, i) <==> OfflineFault(s.world, i))
  {
    BegunShape(s, m.thread, m.action);
    if m.action.BeginFault? {
      AppliedElsewhere(s.world.faults, Aliases(s.world.blueprints[i]), m.action.faultKey, m.action.kind,
                       m.action.delayMS);
    }
    if m.action.Continue? && m.thread in s.at {
      NextWorldShape(s.world, s.at[m.thread], m.action.draw);
    }
  }

  lemma NextAgrees(w: World, pc: Pc, draw: Draw, i: nat)
    requires Has(w, i) && AgreesIn(w, i) && !StaleAt(w, pc, i)
    requires !(pc.ResetNext? && pc.todo != [] && pc.todo[0] == i)
    ensures Has(NextWorld(w, pc, draw), i) && AgreesIn(NextWorld(w, pc, draw), i)
  {
    NextWorldShape(w, pc, draw);
  }

  lemma BegunStatus(s: Threads, t: nat, action: Action, i: nat)
    requires Has(s.world, i) && !(action.PutStatus? && action.device == i)
    ensures Has(Begun(s, t, action).world, i) && Begun(s, t, action).world.states[i] == s.world.states[i]
  {
  }

  lemma MoveAgrees(s: Threads, m: Move, i: nat)
    requires Agrees(s, i) && Leaves(s, m, i) && forall t: nat :: !Stale(s, t, i)
    ensures Agrees(Next(s, m), i)
  {
    FaultsStay(s, m, i);
    if m.action.Continue? && m.thread in s.at {
      assert !Stale(s, m.thread, i);
      NextAgrees(s.world, s.at[m.thread], m.action.draw, i);
    } else {
      BegunStatus(s, m.thread, m.action, i);
    }
  }

  lemma NextNotStale(w: World, pc: Pc, i: nat)
    requires Has(w, i) && AgreesIn(w, i) && !StaleAt(w, pc, i) && NextPc(w, pc).Some?
    ensures !StaleAt(w, NextPc(w, pc).value, i)
  {
  }

  lemma SameFaultsSameStale(w: World, after: World, pc: Pc, i: nat)
    requires Has(w, i) && Has(after, i) && (OfflineFault(after, i) <==> OfflineFault(w, i))
    ensures StaleAt(after, pc, i) <==> StaleAt(w, pc, i)
  {
  }

  /** A request that leads to the device is on one of its keys. */
  lemma TargetIsAlias(w: World, key: string, i: nat)
    requires Valid(w) && SummaryTarget(w, key) == Some(i)
    ensures Has(w, i) && key in Aliases(w.blueprints[i])
  {
  }

  lemma BegunNotStale(s: Threads, m: Move, u: nat, i: nat)
    requires Valid(s.world) && Has(s.world, i) && Leaves(s, m, i)
    requires m.thread !in s.at && u in Begun(s, m.thread, m.action).at
    ensures u == m.thread ==> !StaleAt(s.world, Begun(s, m.thread, m.action).at[u], i)
    ensures u != m.thread ==> u in s.at && Begun(s, m.thread, m.action).at[u] == s.at[u]
  {
    if m.action.BeginFault? && SummaryTarget(s.world, m.action.faultKey) == Some(i) {
      TargetIsAlias(s.world, m.action.faultKey, i);
    }
  }

  lemma NoneGoesStale(s: Threads, m: Move, i: nat)
    requires Valid(s.world) && Agrees(s, i) && Leaves(s, m, i) && forall t: nat :: !Stale(s, t, i)
    ensures Has(Next(s, m).world, i) && forall t: nat :: !Stale(Next(s, m), t, i)
  {
    var next := Next(s, m);
    FaultsStay(s, m, i);
    forall u: nat | u in next.at ensures !StaleAt(next.world, next.at[u], i) {
      SameFaultsSameStale(s.world, next.world, next.at[u], i);
      if u in s.at && next.at[u] == s.at[u] {
        assert !Stale(s, u, i);
      } else if m.thread in s.at {
        assert !Stale(s, u, i);
        NextNotStale(s.world, s.at[u], i);
      } else {
        BegunNotStale(s, m, u, i);
      }
    }
  }

  lemma ShapeKeepsValid(w: World, after: World)
    requires Valid(w) && SameShape(w, after)
    ensures Valid(after)
  {
  }

  lemma {:induction false} RunAgrees(s: Threads, moves: seq<Move>, i: nat)
    requires Valid(s.world) && Agrees(s, i) && LeavesAll(s, moves, i) && forall t: nat :: !Stale(s, t, i)
    ensures Agrees(Run(s, moves), i)
    decreases |moves|
  {
    if moves != [] {
      FaultsStay(s, moves[0], i);
      ShapeKeepsValid(s.world, Next(s, moves[0]).world);
      MoveAgrees(s, moves[0], i);
      NoneGoesStale(s, moves[0], i);
      RunAgrees(Next(s, moves[0]), moves[1..], i);
    }
  }

  // ----- with one -----

  lemma {:induction false} StaleWrites(s: Threads, t: nat, i: nat)
    requires Agrees(s, i) && Stale(s, t, i) && !s.at[t].TickUp?
    ensures LeavesAll(s, [Move(t, Continue(ANY_DRAW))], i) && !Agrees(Run(s, [Move(t, Continue(ANY_DRAW))]), i)
  {
    var m := Move(t, Continue(ANY_DRAW));
    RunOne(s, m);
    assert [m][1..] == [];
    NextWorldShape(s.world, s.at[t], ANY_DRAW);
  }

  lemma StaleLookRevives(s: Threads, t: nat, i: nat)
    requires Agrees(s, i) && Stale(s, t, i) && s.at[t].TickUp?
    ensures var next := Next(s, Move(t, Continue(ANY_DRAW)));
            next.world == s.world && Agrees(next, i) && Stale(next, t, i) && next.at[t].TickRevive?
  {
  }

  lemma StaleDisagrees(s: Threads, t: nat, i: nat) returns (moves: seq<Move>)
    requires Agrees(s, i) && Stale(s, t, i)
    ensures LeavesAll(s, moves, i) && !Agrees(Run(s, moves), i)
  {
    var m := Move(t, Continue(ANY_DRAW));
    if s.at[t].TickUp? {
      StaleLookRevives(s, t, i);
      StaleWrites(Next(s, m), t, i);
      moves := [m] + [m];
      RunFirst(s, m, [m]);
      assert moves[1..] == [m];
    } else {
      StaleWrites(s, t, i);
      moves := [m];
    }
  }

  /** The status of the device goes on agreeing with the faults. */
  ghost predicate StaysInAgreement(s: Threads, i: nat) {
    forall moves | LeavesAll(s, moves, i) :: Agrees(Run(s, moves), i)
  }

  lemma {:induction false} DisagreementBreaks(s: Threads, moves: seq<Move>, i: nat)
    requires LeavesAll(s, moves, i) && !Agrees(Run(s, moves), i)
    ensures !StaysInAgreement(s, i)
  {
  }

  /** Once a device's status agrees with the faults, it goes on doing so over every interleaving
      of sweeps, commands and requests for other devices, until its own faults are touched, its
      status is set from outside or it is reset, exactly when no thread holds a look at its
      faults, or is about to write a status, that the faults have overtaken. */
  lemma StatusAgreesExactly(s: Threads, i: nat)
    requires Valid(s.world) && Agrees(s, i)
    ensures StaysInAgreement(s, i) <==> forall t: nat :: !Stale(s, t, i)
  {
    if forall t: nat :: !Stale(s, t, i) {
      forall moves | LeavesAll(s, moves, i) ensures Agrees(Run(s, moves), i) {
        RunAgrees(s, moves, i);
      }
    } else {
      var t: nat :| Stale(s, t, i);
      var moves := StaleDisagrees(s, t, i);
      DisagreementBreaks(s, moves, i);
    }
  }

  // ----- the history of requests -----

  /** The fault requests that came through, in the order in which the engine saw them. */
  ghost function Requests(s: Threads, moves: seq<Move>): seq<Op>
    decreases |moves|
  {
    if moves == [] then []
    else
      var init, m := moves[..|moves| - 1], moves[|moves| - 1];
      Requests(s, init) +
      if m.action.BeginFault? && m.thread !in Run(s, init).at
      then [Op(m.action.faultKey, m.action.kind, m.action.delayMS)] else []
  }

  lemma NextFaults(s: Threads, m: Move)
    ensures Next(s, m).world.faults ==
            if m.action.BeginFault? && m.thread !in s.at
            then Applied(s.world.faults, m.action.faultKey, m.action.kind, m.action.delayMS) else s.world.faults
  {
    BegunShape(s, m.thread, m.action);
    if m.action.Continue? && m.thread in s.at {
      NextWorldShape(s.world, s.at[m.thread], m.action.draw);
    }
  }

  /** Whatever interleaves, the faults are those of the requests, one after the other. */
  lemma {:induction false} FaultsFollowRequests(s: Threads, moves: seq<Move>)
    requires s.world.faults == map[]
    ensures Run(s, moves).world.faults == Replay(Requests(s, moves))
    decreases |moves|
  {
    if moves != [] {
      var init, m := moves[..|moves| - 1], moves[|moves| - 1];
      assert moves == init + [m];
      FaultsFollowRequests(s, init);
      RunConcat(s, init, [m]);
      RunOne(Run(s, init), m);
      NextFaults(Run(s, init), m);
      if m.action.BeginFault? && m.thread !in Run(s, init).at {
        ReplayAppend(Requests(s, init), Op(m.action.faultKey, m.action.kind, m.action.delayMS));
      } else {
        assert Requests(s, moves) == Requests(s, init);
      }
    }
  }

  /** Among the requests for the key since its last clear is one for an offline fault. */
  ghost predicate AskedOffline(s: Threads, moves: seq<Move>, key: string) {
    HasKind(SinceClear(Requests(s, moves), key), FaultOffline)
  }

  /** Where a device's status agrees with the faults, it can be read off the history of the
      requests for its two keys, under threads as well. */
  lemma {:induction false} AgreedStatusByHistory(s: Threads, moves: seq<Move>, i: nat)
    requires s.world.faults == map[] && Agrees(Run(s, moves), i)
    ensures var w := Run(s, moves).world;
            var spec := w.blueprints[i].spec;
            w.states[i].status == Offline <==>
            AskedOffline(s, moves, spec.cuCode) || AskedOffline(s, moves, spec.externalID)
  {
    var w := Run(s, moves).world;
    FaultsFollowRequests(s, moves);
    EntrySaysOffline(Requests(s, moves), w.blueprints[i].spec.cuCode);
    EntrySaysOffline(Requests(s, moves), w.blueprints[i].spec.externalID);
    EitherOffline(w.faults, w.blueprints[i].spec.cuCode, w.blueprints[i].spec.externalID);
  }

  // ----- races inside one turn -----

  /** The sweep has seen the fault; a clear comes, and puts the device online. */
  lemma {:induction false} ClearInTurn(s: Threads, t: nat, u: nat, i: nat, rest: seq<nat>, hours: real, key: string)
    requires t in s.at && u !in s.at && s.at[t] == TickDown(i, rest, hours)
    requires Has(s.world, i) && SummaryTarget(s.world, key) == Some(i)
    ensures var end := Run(s, [Move(u, BeginFault(key, FaultClear, 0))] + [Move(u, Continue(ANY_DRAW))]);
            var cleared := s.world.(faults := s.world.faults - {key});
            && end.world == WithState(cleared, i, s.world.states[i].(status := Online))
            && t in end.at && end.at[t] == s.at[t]
  {
    var ask, put := Move(u, BeginFault(key, FaultClear, 0)), Move(u, Continue(ANY_DRAW));
    RunFirst(s, ask, [put]);
    RunOne(Next(s, ask), put);
  }

  /** The opposite of RaceRevives: the sweep has seen the fault; a clear comes, removes it and
      puts the device online; then the sweep puts it offline, with no fault left. */
  lemma RaceGoesOffline(s: Threads, t: nat, u: nat, i: nat, rest: seq<nat>, hours: real, key: string)
    returns (moves: seq<Move>)
    requires t in s.at && u !in s.at && s.at[t] == TickNext([i] + rest, hours)
    requires Has(s.world, i) && SummaryTarget(s.world, key) == Some(i)
    requires OfflineFault(s.world, i) && !AnyOffline(s.world.faults - {key}, Aliases(s.world.blueprints[i]))
    ensures forall m | m in moves :: m.action.Continue? || m.action == BeginFault(key, FaultClear, 0)
    ensures var end := Run(s, moves).world;
            && Has(end, i) && end.blueprints == s.world.blueprints && !OfflineFault(end, i)
            && end.states[i] == s.world.states[i].(status := Offline)
  {
    var look := Move(t, Continue(ANY_DRAW));
    var request := [Move(u, BeginFault(key, FaultClear, 0))] + [Move(u, Continue(ANY_DRAW))];
    assert ([i] + rest)[1..] == rest;
    var looked := Next(s, look);
    ClearInTurn(looked, t, u, i, rest, hours, key);
    moves := [look] + (request + [look]);
    RunFirst(s, look, request + [look]);
    RunConcat(looked, request, [look]);
    RunOne(Run(looked, request), look);
  }

  /** A request that is through before the tick itself holds: the tick does nothing. */
  lemma {:induction false} LateRequestHolds(s: Threads, t: nat, u: nat, i: nat, rest: seq<nat>, hours: real, draw: Draw,
                                            key: string)
    requires t in s.at && u !in s.at && s.at[t] == TickReady(i, rest, hours)
    requires Has(s.world, i) && SummaryTarget(s.world, key) == Some(i)
    ensures var request := [Move(u, BeginFault(key, FaultOffline, 0))] + [Move(u, Continue(draw))];
            var end := Run(s, request + [Move(t, Continue(draw))]).world;
            Has(end, i) && end.states[i] == s.world.states[i].(status := Offline)
  {
    var ask, put, go := Move(u, BeginFault(key, FaultOffline, 0)), Move(u, Continue(draw)), Move(t, Continue(draw));
    var asked := Next(s, ask);
    assert [ask] + [put] + [go] == [ask] + ([put] + [go]);
    RunFirst(s, ask, [put] + [go]);
    RunFirst(asked, put, [go]);
    RunOne(Next(asked, put), go);
  }
}
