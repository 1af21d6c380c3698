/** Exactly when a fault freezes a device if statuses are set by the code alone: a thread that
    has passed its look at the faults can only write if something still brings the device
    online. */
module FleetThawing {
  import opened Wrappers
  import opened Sequences
  import opened GoTime
  import opened Fault
  import opened Devices
  import opened Fleet
  import opened FleetThreads
  import opened FleetStatus

  // ----- what holds between loads -----

  /** The devices a sweep still has before it. */
  function Rest(pc: Pc): seq<nat> {
    match pc
    case TickNext(todo, _) => todo
    case TickDown(_, rest, _) => rest
    case TickUp(_, rest, _) => rest
    case TickRevive(_, rest, _) => rest
    case TickReady(_, rest, _) => rest
    case _ => []
  }

  ghost predicate FormedAt(w: World, pc: Pc) {
    (pc.FaultApplied? ==> pc.status != Faulted) && forall j | j in Rest(pc) :: Listed(w, j)
  }

  ghost predicate NoneFaulted(w: World) {
    forall i: nat | Has(w, i) :: w.states[i].status != Faulted
  }

  /** The indexes are right, no device has the status no code sets, and sweeps are over listed
      devices. */
  ghost predicate Formed(s: Threads) {
    Valid(s.world) && NoneFaulted(s.world) && forall t | t in s.at :: FormedAt(s.world, s.at[t])
  }

  lemma NextPcFormed(w: World, pc: Pc)
    requires FormedAt(w, pc) && NextPc(w, pc).Some?
    ensures FormedAt(w, NextPc(w, pc).value)
  {
    if pc.TickNext? && pc.todo != [] {
      assert forall j | j in pc.todo[1..] :: j in pc.todo;
    }
  }

  lemma NextNoneFaulted(w: World, pc: Pc, draw: Draw)
    requires NoneFaulted(w) && FormedAt(w, pc)
    ensures NoneFaulted(NextWorld(w, pc, draw))
  {
  }

  lemma ShapeKeepsFormed(w: World, after: World, pc: Pc)
    requires SameShape(w, after) && FormedAt(w, pc)
    ensures FormedAt(after, pc)
  {
    forall j | j in Rest(pc) ensures Listed(after, j) {
      assert Listed(w, j);
    }
  }

  lemma BegunFormed(s: Threads, t: nat, action: Action, u: nat)
    requires Formed(s) && t !in s.at && !action.PutStatus? && u in Begun(s, t, action).at
    ensures FormedAt(s.world, Begun(s, t, action).at[u])
  {
  }

  lemma BegunNoneFaulted(s: Threads, t: nat, action: Action)
    requires NoneFaulted(s.world) && !action.PutStatus?
    ensures NoneFaulted(Begun(s, t, action).world)
  {
  }

  lemma NextFormed(s: Threads, m: Move)
    requires Formed(s) && !m.action.PutStatus?
    ensures Formed(Next(s, m))
  {
    var next := Next(s, m);
    BegunShape(s, m.thread, m.action);
    if m.thread in s.at && m.action.Continue? {
      NextWorldShape(s.world, s.at[m.thread], m.action.draw);
      NextNoneFaulted(s.world, s.at[m.thread], m.action.draw);
    } else if m.thread !in s.at {
      BegunNoneFaulted(s, m.thread, m.action);
    }
    ShapeKeepsValid(s.world, next.world);
    forall u | u in next.at ensures FormedAt(next.world, next.at[u]) {
      if m.thread in s.at && m.action.Continue? && u == m.thread {
        NextPcFormed(s.world, s.at[u]);
      } else if m.thread !in s.at {
        BegunFormed(s, m.thread, m.action, u);
      }
      ShapeKeepsFormed(s.world, next.world, next.at[u]);
    }
  }

  lemma {:induction false} RunFormed(s: Threads, moves: seq<Move>)
    requires Formed(s) && CodeOnly(moves)
    ensures Formed(Run(s, moves))
    decreases |moves|
  {
    if moves != [] {
      assert moves[0] in moves;
      NextFormed(s, moves[0]);
      RunFormed(Next(s, moves[0]), moves[1..]);
    }
  }

  /** After a load, in all that threads do, this always holds. */
  lemma {:induction false} AlwaysFormed(faults: Faults, specs: seq<DeviceSpec>, noise: nat -> Noise, moves: seq<Move>)
    requires CodeOnly(moves)
    ensures Formed(Run(Threads(LoadedWorld(faults, specs, noise), map[]), moves))
  {
    var w := LoadedWorld(faults, specs, noise);
    LoadedValid(faults, specs, noise);
    forall i: nat | Has(w, i) ensures w.states[i].status != Faulted {
      LoadedAt(specs, noise, i);
    }
    RunFormed(Threads(w, map[]), moves);
  }

  // ----- what can still bring the device online -----

  /** The thread is about to bring the device online, or looks whether it has to. */
  predicate RevivesAt(pc: Pc, i: nat) {
    match pc
    case TickUp(j, _, _) => j == i
    case TickRevive(j, _, _) => j == i
    case FaultApplied(j, status) => j == i && status == Online
    case _ => false
  }

  /** Something may bring the device online although the key is not cleared: a thread under way,
      a clear of another key that leads to it, or a sweep, unless the key is put offline. */
  ghost predicate Revivable(s: Threads, i: nat, key: string)
    requires Marked(s, i, key)
  {
    || (exists t :: t in s.at && RevivesAt(s.at[t], i))
    || (exists k :: k != key && SummaryTarget(s.world, k) == Some(i))
    || (Listed(s.world, i) && !s.world.faults[key].offline)
  }

  /** Offline, and nothing brings it back. */
  ghost predicate Stuck(s: Threads, i: nat, key: string) {
    Marked(s, i, key) && s.world.states[i].status == Offline && !Revivable(s, i, key)
  }

  lemma NextStaysOffline(w: World, pc: Pc, draw: Draw, i: nat)
    requires Has(w, i) && w.states[i].status == Offline && FormedAt(w, pc) && !RevivesAt(pc, i)
    requires !(pc.ResetNext? && pc.todo != [] && pc.todo[0] == i)
    ensures Has(NextWorld(w, pc, draw), i) && NextWorld(w, pc, draw).states[i] == w.states[i]
  {
  }

  lemma NextNotReviving(w: World, pc: Pc, i: nat)
    requires Has(w, i) && FormedAt(w, pc) && !RevivesAt(pc, i)
    requires NextPc(w, pc).Some? && RevivesAt(NextPc(w, pc).value, i)
    ensures Listed(w, i) && !OfflineFault(w, i)
  {
  }

  lemma BegunNotReviving(s: Threads, t: nat, action: Action, u: nat, i: nat)
    requires t !in s.at && u in Begun(s, t, action).at && RevivesAt(Begun(s, t, action).at[u], i)
    ensures (u in s.at && Begun(s, t, action).at[u] == s.at[u])
         || (action.BeginFault? && action.kind == FaultClear && SummaryTarget(s.world, action.faultKey) == Some(i))
  {
  }

  lemma StuckThreads(s: Threads, m: Move, i: nat, key: string, u: nat)
    requires Formed(s) && Stuck(s, i, key) && Spares(s, m, i, key) && !m.action.PutStatus?
    requires u in Next(s, m).at
    ensures !RevivesAt(Next(s, m).at[u], i)
  {
    var next := Next(s, m);
    if u in s.at && next.at[u] == s.at[u] {
      assert !RevivesAt(s.at[u], i);
    } else if m.thread in s.at {
      assert !RevivesAt(s.at[u], i);
      if RevivesAt(next.at[u], i) {
        NextNotReviving(s.world, s.at[u], i);
        assert false;
      }
    } else if RevivesAt(next.at[u], i) {
      BegunNotReviving(s, m.thread, m.action, u, i);
      assert false;
    }
  }

  lemma StuckMove(s: Threads, m: Move, i: nat, key: string)
    requires Formed(s) && Stuck(s, i, key) && Spares(s, m, i, key) && !m.action.PutStatus?
    ensures Stuck(Next(s, m), i, key) && ValuesOf(Next(s, m), i) == ValuesOf(s, i)
  {
    var next := Next(s, m);
    MarkStays(s, m, i, key);
    BegunShape(s, m.thread, m.action);
    if m.thread in s.at && m.action.Continue? {
      assert !RevivesAt(s.at[m.thread], i);
      NextWorldShape(s.world, s.at[m.thread], m.action.draw);
      NextStaysOffline(s.world, s.at[m.thread], m.action.draw, i);
    } else {
      BegunStatus(s, m.thread, m.action, i);
    }
    assert SameShape(s.world, next.world);
    forall u | u in next.at ensures !RevivesAt(next.at[u], i) {
      StuckThreads(s, m, i, key, u);
    }
    StillNotRevivable(s, next, i, key);
  }

  lemma StillNotRevivable(s: Threads, next: Threads, i: nat, key: string)
    requires Marked(s, i, key) && Marked(next, i, key) && !Revivable(s, i, key)
    requires SameShape(s.world, next.world) && (s.world.faults[key].offline ==> next.world.faults[key].offline)
    requires forall u | u in next.at :: !RevivesAt(next.at[u], i)
    ensures !Revivable(next, i, key)
  {
    forall k | k != key ensures SummaryTarget(next.world, k) != Some(i) {
      assert SummaryTarget(s.world, k) != Some(i);
    }
    assert Listed(next.world, i) <==> Listed(s.world, i);
  }

  lemma {:induction false} StuckRun(s: Threads, moves: seq<Move>, i: nat, key: string)
    requires Formed(s) && Stuck(s, i, key) && SparesAll(s, moves, i, key) && CodeOnly(moves)
    ensures ValuesOf(Run(s, moves), i) == ValuesOf(s, i)
    decreases |moves|
  {
    if moves != [] {
      assert moves[0] in moves;
      StuckMove(s, moves[0], i, key);
      NextFormed(s, moves[0]);
      StuckRun(Next(s, moves[0]), moves[1..], i, key);
    }
  }

  // ----- bringing it online -----

  /** The same device, mark and values, and the thread where it was. */
  ghost predicate Kept(s: Threads, next: Threads, t: nat, i: nat, key: string) {
    && Marked(s, i, key) && Marked(next, i, key)
    && SameShape(s.world, next.world) && next.world.faults[key] == s.world.faults[key]
    && ValuesOf(next, i) == ValuesOf(s, i)
    && t in s.at && t in next.at && next.at[t] == s.at[t]
  }

  /** A move of the code that neither ticks nor resets the device, nor clears the key. */
  ghost predicate Quietly(s: Threads, m: Move, i: nat, key: string) {
    && Spares(s, m, i, key) && !m.action.PutStatus?
    && !(m.action.Continue? && m.thread in s.at && s.at[m.thread].TickReady? && s.at[m.thread].device == i)
  }

  /** After these moves the device is online, and otherwise all is as it was. */
  ghost predicate Revives(s: Threads, moves: seq<Move>, t: nat, i: nat, key: string) {
    && NoTicks(s, moves, i, key) && CodeOnly(moves)
    && Kept(s, Run(s, moves), t, i, key) && Run(s, moves).world.states[i].status == Online
  }

  lemma RevivesLater(s: Threads, m: Move, moves: seq<Move>, t: nat, i: nat, key: string)
    requires Quietly(s, m, i, key) && Kept(s, Next(s, m), t, i, key) && Revives(Next(s, m), moves, t, i, key)
    ensures Revives(s, [m] + moves, t, i, key)
  {
    assert ([m] + moves)[1..] == moves;
    RunFirst(s, m, moves);
  }

  /** A thread under way brings the device online. */
  lemma SetterRevives(s: Threads, u: nat, t: nat, i: nat, key: string) returns (moves: seq<Move>)
    requires Marked(s, i, key) && t in s.at && u in s.at && u != t
    requires RevivesAt(s.at[u], i) && !s.at[u].TickUp?
    ensures Revives(s, moves, t, i, key)
  {
    var m := Move(u, Continue(ANY_DRAW));
    moves := [m];
    RunOne(s, m);
    NextWorldShape(s.world, s.at[u], ANY_DRAW);
    assert moves[1..] == [];
  }

  lemma LookerRevives(s: Threads, u: nat, t: nat, i: nat, key: string) returns (moves: seq<Move>)
    requires Marked(s, i, key) && s.world.states[i].status == Offline && t in s.at && u in s.at && u != t
    requires RevivesAt(s.at[u], i)
    ensures Revives(s, moves, t, i, key)
  {
    if s.at[u].TickUp? {
      var m := Move(u, Continue(ANY_DRAW));
      var later := SetterRevives(Next(s, m), u, t, i, key);
      RevivesLater(s, m, later, t, i, key);
      moves := [m] + later;
    } else {
      moves := SetterRevives(s, u, t, i, key);
    }
  }

  lemma FreshThread(s: Threads) returns (u: nat)
    ensures u !in s.at
  {
    u := Above(s.at.Keys);
  }

  /** A clear of another key. */
  lemma ClearKeeps(s: Threads, u: nat, k: string, t: nat, i: nat, key: string)
    requires Marked(s, i, key) && t in s.at && u !in s.at && k != key
    ensures var m := Move(u, BeginFault(k, FaultClear, 0));
            && Quietly(s, m, i, key) && Kept(s, Next(s, m), t, i, key)
            && Next(s, m).world.states == s.world.states && Next(s, m).world.faults == s.world.faults - {k}
  {
    BegunShape(s, u, BeginFault(k, FaultClear, 0));
  }

  lemma ClearRevives(s: Threads, k: string, t: nat, i: nat, key: string) returns (moves: seq<Move>)
    requires Marked(s, i, key) && t in s.at && k != key && SummaryTarget(s.world, k) == Some(i)
    ensures Revives(s, moves, t, i, key)
  {
    var u := FreshThread(s);
    var m := Move(u, BeginFault(k, FaultClear, 0));
    ClearKeeps(s, u, k, t, i, key);
    var later := SetterRevives(Next(s, m), u, t, i, key);
    RevivesLater(s, m, later, t, i, key);
    moves := [m] + later;
  }

  lemma SequenceOf(members: set<nat>) returns (q: seq<nat>)
    ensures Distinct(q) && forall x :: x in q <==> x in members
    decreases |members|
  {
    if members == {} {
      q := [];
    } else {
      var x :| x in members;
      var rest := SequenceOf(members - {x});
      q := [x] + rest;
    }
  }

  /** A sweep may come to the device first. */
  lemma ListingFrom(w: World, i: nat) returns (rest: seq<nat>)
    requires Listed(w, i)
    ensures Listing(w, [i] + rest)
  {
    var listed := set k | k in w.byCU :: w.byCU[k];
    rest := SequenceOf(listed - {i});
    forall j: nat ensures j in [i] + rest <==> Listed(w, j) {
      assert j in listed <==> Listed(w, j);
    }
  }

  lemma SweepBeginsAt(s: Threads, u: nat, t: nat, i: nat, rest: seq<nat>, key: string)
    requires Marked(s, i, key) && t in s.at && u !in s.at && Listing(s.world, [i] + rest)
    requires !OfflineFault(s.world, i)
    ensures var begin, look := Move(u, BeginTick([i] + rest, 0.0)), Move(u, Continue(ANY_DRAW));
            var begun := Next(s, begin);
            && Quietly(s, begin, i, key) && Kept(s, begun, t, i, key)
            && Quietly(begun, look, i, key) && Kept(begun, Next(begun, look), t, i, key)
            && Next(begun, look).world == s.world && u in Next(begun, look).at
            && Next(begun, look).at[u] == TickUp(i, rest, 0.0)
  {
    assert ([i] + rest)[1..] == rest;
  }

  lemma SweepRevives(s: Threads, t: nat, i: nat, key: string) returns (moves: seq<Move>)
    requires Marked(s, i, key) && s.world.states[i].status == Offline && t in s.at
    requires Listed(s.world, i) && !OfflineFault(s.world, i)
    ensures Revives(s, moves, t, i, key)
  {
    var u := FreshThread(s);
    var rest := ListingFrom(s.world, i);
    var begin, look := Move(u, BeginTick([i] + rest, 0.0)), Move(u, Continue(ANY_DRAW));
    SweepBeginsAt(s, u, t, i, rest, key);
    var begun := Next(s, begin);
    var later := LookerRevives(Next(begun, look), u, t, i, key);
    RevivesLater(begun, look, later, t, i, key);
    RevivesLater(s, begin, [look] + later, t, i, key);
    moves := [begin] + ([look] + later);
  }

  /** The other key of the device. */
  function OtherKey(bp: Blueprint, key: string): string {
    if bp.spec.cuCode == key then bp.spec.externalID else bp.spec.cuCode
  }

  lemma OnlyOtherOffline(faults: Faults, bp: Blueprint, key: string)
    requires key in Aliases(bp) && key in faults && !faults[key].offline && AnyOffline(faults, Aliases(bp))
    ensures OtherKey(bp, key) != key && !AnyOffline(faults - {OtherKey(bp, key)}, Aliases(bp))
  {
  }

  lemma ListedRevives(s: Threads, t: nat, i: nat, key: string) returns (moves: seq<Move>)
    requires Marked(s, i, key) && s.world.states[i].status == Offline && t in s.at
    requires Listed(s.world, i) && !s.world.faults[key].offline
    ensures Revives(s, moves, t, i, key)
  {
    if OfflineFault(s.world, i) {
      var u := FreshThread(s);
      var other := OtherKey(s.world.blueprints[i], key);
      var m := Move(u, BeginFault(other, FaultClear, 0));
      OnlyOtherOffline(s.world.faults, s.world.blueprints[i], key);
      ClearKeeps(s, u, other, t, i, key);
      var k :| k in s.world.byCU && s.world.byCU[k] == i;
      assert Listed(Next(s, m).world, i);
      var later := SweepRevives(Next(s, m), t, i, key);
      RevivesLater(s, m, later, t, i, key);
      moves := [m] + later;
    } else {
      moves := SweepRevives(s, t, i, key);
    }
  }

  lemma RevivableRevives(s: Threads, t: nat, i: nat, key: string) returns (moves: seq<Move>)
    requires Marked(s, i, key) && s.world.states[i].status == Offline && Revivable(s, i, key)
    requires t in s.at && !RevivesAt(s.at[t], i)
    ensures Revives(s, moves, t, i, key)
  {
    if u :| u in s.at && RevivesAt(s.at[u], i) {
      moves := LookerRevives(s, u, t, i, key);
    } else if k :| k != key && SummaryTarget(s.world, k) == Some(i) {
      moves := ClearRevives(s, k, t, i, key);
    } else {
      moves := ListedRevives(s, t, i, key);
    }
  }

  // ----- offline faults -----

  lemma OnlinePendingChanges(s: Threads, t: nat, i: nat, key: string) returns (moves: seq<Move>)
    requires Marked(s, i, key) && s.world.states[i].status == Online && Pending(s, t, i, key)
    ensures Changes(s, moves, i, key) && CodeOnly(moves)
  {
    var keys := Aliases(s.world.blueprints[i]);
    if s.at[t].CommandUp? && AnyReject(s.world.faults, keys) {
      var u := FreshThread(s);
      var other := OtherKey(s.world.blueprints[i], key);
      var m := Move(u, BeginFault(other, FaultClear, 0));
      ClearOther(s, u, t, i, key, other);
      var rest := OnlineChanges(Next(s, m), t, i, key);
      ChangesLater(s, m, rest, i, key);
      moves := [m] + rest;
    } else {
      moves := OnlineChanges(s, t, i, key);
    }
  }

  lemma SelfRevives(s: Threads, t: nat, i: nat, key: string)
    requires Marked(s, i, key) && s.world.states[i].status == Offline
    requires Pending(s, t, i, key) && RevivesAt(s.at[t], i)
    ensures var m := Move(t, Continue(ANY_DRAW));
            var next := Next(s, m);
            && Spares(s, m, i, key) && Marked(next, i, key) && Pending(next, t, i, key)
            && ValuesOf(next, i) == ValuesOf(s, i)
            && (if s.at[t].TickUp? then next.world == s.world && next.at[t].TickRevive?
                else next.world.states[i].status == Online)
  {
    NextWorldShape(s.world, s.at[t], ANY_DRAW);
  }

  lemma SelfChanges(s: Threads, t: nat, i: nat, key: string) returns (moves: seq<Move>)
    requires Marked(s, i, key) && s.world.states[i].status == Offline
    requires Pending(s, t, i, key) && RevivesAt(s.at[t], i)
    ensures Changes(s, moves, i, key) && CodeOnly(moves)
  {
    var m := Move(t, Continue(ANY_DRAW));
    SelfRevives(s, t, i, key);
    if s.at[t].TickUp? {
      var next := Next(s, m);
      SelfRevives(next, t, i, key);
      var rest := OnlinePendingChanges(Next(next, m), t, i, key);
      ChangesLater(next, m, rest, i, key);
      ChangesLater(s, m, [m] + rest, i, key);
      moves := [m] + ([m] + rest);
    } else {
      var rest := OnlinePendingChanges(Next(s, m), t, i, key);
      ChangesLater(s, m, rest, i, key);
      moves := [m] + rest;
    }
  }

  lemma {:induction false} ChangesAfter(s: Threads, pre: seq<Move>, moves: seq<Move>, i: nat, key: string)
    requires NoTicks(s, pre, i, key) && SparesAll(Run(s, pre), moves, i, key)
    ensures SparesAll(s, pre + moves, i, key) && Run(s, pre + moves) == Run(Run(s, pre), moves)
    decreases |pre|
  {
    if pre == [] {
      assert pre + moves == moves;
    } else {
      assert (pre + moves)[1..] == pre[1..] + moves;
      ChangesAfter(Next(s, pre[0]), pre[1..], moves, i, key);
    }
  }

  lemma KeptPending(s: Threads, next: Threads, t: nat, i: nat, key: string)
    requires Kept(s, next, t, i, key) && Pending(s, t, i, key)
    ensures Pending(next, t, i, key)
  {
  }

  lemma RevivedChanges(s: Threads, t: nat, i: nat, key: string) returns (moves: seq<Move>)
    requires Marked(s, i, key) && Pending(s, t, i, key)
    requires s.world.states[i].status == Online || (s.world.states[i].status == Offline && Revivable(s, i, key))
    ensures Changes(s, moves, i, key) && CodeOnly(moves)
  {
    if s.world.states[i].status == Online {
      moves := OnlinePendingChanges(s, t, i, key);
    } else if RevivesAt(s.at[t], i) {
      moves := SelfChanges(s, t, i, key);
    } else {
      var pre := RevivableRevives(s, t, i, key);
      KeptPending(s, Run(s, pre), t, i, key);
      var rest := OnlinePendingChanges(Run(s, pre), t, i, key);
      ChangesAfter(s, pre, rest, i, key);
      moves := pre + rest;
    }
  }

  /** No interleaving of code changes a value. */
  ghost predicate FrozenInCode(s: Threads, i: nat, key: string) {
    forall moves | CodeOnly(moves) && SparesAll(s, moves, i, key) :: ValuesOf(Run(s, moves), i) == ValuesOf(s, i)
  }

  lemma CodeThaws(s: Threads, moves: seq<Move>, i: nat, key: string)
    requires Changes(s, moves, i, key) && CodeOnly(moves)
    ensures !FrozenInCode(s, i, key)
  {
  }

  /** Where only the code sets statuses, an offline fault freezes the device from its request on
      exactly when no thread stands between its look at the faults and a write that would
      change something, or the device is offline and nothing can bring it back before the key
      is cleared. */
  lemma FreezesInCodeExactly(s: Threads, i: nat, key: string)
    requires Formed(s) && Marked(s, i, key) && s.world.faults[key].offline
    ensures FrozenInCode(s, i, key) <==> Quiet(s, i, key) || Stuck(s, i, key)
  {
    if Quiet(s, i, key) || Stuck(s, i, key) {
      forall moves | CodeOnly(moves) && SparesAll(s, moves, i, key)
        ensures ValuesOf(Run(s, moves), i) == ValuesOf(s, i)
      {
        if Quiet(s, i, key) {
          QuietRun(s, moves, i, key);
        } else {
          StuckRun(s, moves, i, key);
        }
      }
    } else {
      var t: nat :| Pending(s, t, i, key);
      var moves := RevivedChanges(s, t, i, key);
      CodeThaws(s, moves, i, key);
    }
  }

  // ----- reject faults -----

  lemma {:induction false} NoTicksSpares(s: Threads, moves: seq<Move>, i: nat, key: string)
    requires NoTicks(s, moves, i, key)
    ensures SparesAll(s, moves, i, key)
    decreases |moves|
  {
    if moves != [] {
      NoTicksSpares(Next(s, moves[0]), moves[1..], i, key);
    }
  }

  lemma {:induction false} NoTicksConcat(s: Threads, pre: seq<Move>, moves: seq<Move>, i: nat, key: string)
    requires NoTicks(s, pre, i, key) && NoTicks(Run(s, pre), moves, i, key)
    ensures NoTicks(s, pre + moves, i, key)
    decreases |pre|
  {
    if pre == [] {
      assert pre + moves == moves;
    } else {
      assert (pre + moves)[1..] == pre[1..] + moves;
      NoTicksConcat(Next(s, pre[0]), pre[1..], moves, i, key);
    }
  }

  /** A command on a device that is not offline goes through. */
  lemma {:induction false} CommandWrites(s: Threads, t: nat, i: nat, key: string)
    requires Marked(s, i, key) && CommandPending(s, t, i) && s.world.states[i].status != Offline
    ensures var moves := [Move(t, Continue(ANY_DRAW))];
            NoTicks(s, moves, i, key) && CodeOnly(moves) && ValuesOf(Run(s, moves), i) != ValuesOf(s, i)
  {
    var m := Move(t, Continue(ANY_DRAW));
    RunOne(s, m);
    assert [m][1..] == [];
  }

  lemma CommandChanges(s: Threads, t: nat, i: nat, key: string) returns (moves: seq<Move>)
    requires Marked(s, i, key) && CommandPending(s, t, i)
    requires s.world.states[i].status != Offline || Revivable(s, i, key)
    ensures NoTicks(s, moves, i, key) && CodeOnly(moves) && ValuesOf(Run(s, moves), i) != ValuesOf(s, i)
  {
    var write := [Move(t, Continue(ANY_DRAW))];
    if s.world.states[i].status != Offline {
      CommandWrites(s, t, i, key);
      moves := write;
    } else {
      var pre := RevivableRevives(s, t, i, key);
      CommandWrites(Run(s, pre), t, i, key);
      NoTicksConcat(s, pre, write, i, key);
      RunConcat(s, pre, write);
      moves := pre + write;
    }
  }

  ghost predicate FrozenToCommandsInCode(s: Threads, i: nat, key: string) {
    forall moves | CodeOnly(moves) && NoTicks(s, moves, i, key) :: ValuesOf(Run(s, moves), i) == ValuesOf(s, i)
  }

  lemma {:induction false} CommandThawsInCode(s: Threads, moves: seq<Move>, i: nat, key: string)
    requires CodeOnly(moves) && NoTicks(s, moves, i, key) && ValuesOf(Run(s, moves), i) != ValuesOf(s, i)
    ensures !FrozenToCommandsInCode(s, i, key)
  {
  }

  /** The same for a reject fault, ticks of the device aside. */
  lemma RejectFreezesInCodeExactly(s: Threads, i: nat, key: string)
    requires Formed(s) && Marked(s, i, key) && s.world.faults[key].commandReject
    ensures FrozenToCommandsInCode(s, i, key) <==> (forall t: nat :: !CommandPending(s, t, i)) || Stuck(s, i, key)
  {
    if (forall t: nat :: !CommandPending(s, t, i)) || Stuck(s, i, key) {
      forall moves | CodeOnly(moves) && NoTicks(s, moves, i, key) ensures ValuesOf(Run(s, moves), i) == ValuesOf(s, i) {
        if Stuck(s, i, key) {
          NoTicksSpares(s, moves, i, key);
          StuckRun(s, moves, i, key);
        } else {
          RejectedRun(s, moves, i, key);
        }
      }
    } else {
      var t: nat :| CommandPending(s, t, i);
      var moves := CommandChanges(s, t, i, key);
      CommandThawsInCode(s, moves, i, key);
    }
  }
}
