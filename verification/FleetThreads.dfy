/** The fleet between two loads as its threads see it: sweeps, commands, fault requests and
    resets interleave at every lock they take, also inside one device's turn. */
module FleetThreads {
  import opened Wrappers
  import opened Sequences
  import opened GoTime
  import opened Fault
  import opened Devices
  import opened Fleet

  /** Where a thread stands. Up and Down follow the look at the offline faults, by what it
      found; Ready is between the last look and the write. */
  datatype Pc =
    | TickNext(todo: seq<nat>, hours: real)
    | TickDown(device: nat, rest: seq<nat>, hours: real)
    | TickUp(device: nat, rest: seq<nat>, hours: real)
    | TickRevive(device: nat, rest: seq<nat>, hours: real)
    | TickReady(device: nat, rest: seq<nat>, hours: real)
    | CommandFound(device: nat, key: string, value: real)
    | CommandDown(device: nat)
    | CommandUp(device: nat, key: string, value: real)
    | CommandReady(device: nat, key: string, value: real)
    | FaultApplied(device: nat, status: Status)
    | ResetNext(todo: seq<nat>)

  datatype Threads = Threads(world: World, at: map<nat, Pc>)

  /** What a thread does at once: it begins an operation if it has none, or goes on to the next
      lock of the one it is in. The order of a sweep is how the map listed the devices. */
  datatype Action =
    | BeginTick(order: seq<nat>, hours: real)
    | BeginCommand(id: string, key: string, value: real)
    | BeginFault(faultKey: string, kind: Kind, delayMS: Int64)
    | BeginReset(order: seq<nat>)
    | PutStatus(device: nat, status: Status)
    | Continue(draw: Draw)

  datatype Move = Move(thread: nat, action: Action)

  ghost predicate Listing(w: World, order: seq<nat>) {
    Distinct(order) && forall i: nat :: i in order <==> Listed(w, i)
  }

  function StatusPutWorld(w: World, i: nat, status: Status): World {
    if Has(w, i) then WithState(w, i, w.states[i].(status := status)) else w
  }

  /** The world after the thread's next step. */
  function NextWorld(w: World, pc: Pc, draw: Draw): World {
    match pc
    case TickDown(i, _, _) => StatusPutWorld(w, i, Offline)
    case TickRevive(i, _, _) => StatusPutWorld(w, i, Online)
    case TickReady(i, _, hours) =>
      if Has(w, i) then WithState(w, i, Ticked(w.blueprints[i], w.states[i], hours, draw.sun, draw.noise)) else w
    case CommandDown(i) => StatusPutWorld(w, i, Offline)
    case CommandReady(i, key, value) =>
      if Has(w, i) then WithState(w, i, Executed(w.blueprints[i], w.states[i], key, value)) else w
    case FaultApplied(i, status) => StatusPutWorld(w, i, status)
    case ResetNext(todo) =>
      if todo != [] && Has(w, todo[0]) then WithState(w, todo[0], ResetState(w.blueprints[todo[0]], w.states[todo[0]]))
      else w
    case _ => w
  }

  /** Where it stands after that, unless it is done. */
  function NextPc(w: World, pc: Pc): Option<Pc> {
    match pc
    case TickNext(todo, hours) =>
      if todo == [] then None
      else if !Has(w, todo[0]) then Some(TickNext(todo[1..], hours))
      else if AnyOffline(w.faults, Aliases(w.blueprints[todo[0]])) then Some(TickDown(todo[0], todo[1..], hours))
      else Some(TickUp(todo[0], todo[1..], hours))
    case TickDown(_, rest, hours) => Some(TickNext(rest, hours))
    case TickUp(i, rest, hours) =>
      if Has(w, i) && w.states[i].status == Offline then Some(TickRevive(i, rest, hours))
      else Some(TickReady(i, rest, hours))
    case TickRevive(i, rest, hours) => Some(TickReady(i, rest, hours))
    case TickReady(_, rest, hours) => Some(TickNext(rest, hours))
    case CommandFound(i, key, value) =>
      if Has(w, i) && AnyOffline(w.faults, Aliases(w.blueprints[i])) then Some(CommandDown(i))
      else Some(CommandUp(i, key, value))
    case CommandUp(i, key, value) =>
      if Has(w, i) && AnyReject(w.faults, Aliases(w.blueprints[i])) then None else Some(CommandReady(i, key, value))
    case ResetNext(todo) => if todo == [] then None else Some(ResetNext(todo[1..]))
    case _ => None
  }

  function Moved(s: Threads, t: nat, w: World, pc: Option<Pc>): Threads {
    Threads(w, if pc.Some? then s.at[t := pc.value] else s.at - {t})
  }

  ghost function Begun(s: Threads, t: nat, action: Action): Threads {
    match action
    case BeginTick(order, hours) =>
      if Listing(s.world, order) then Moved(s, t, s.world, Some(TickNext(order, hours))) else s
    case BeginReset(order) =>
      if Listing(s.world, order) then Moved(s, t, s.world, Some(ResetNext(order))) else s
    case BeginCommand(id, key, value) =>
      var target := ExecuteTarget(s.world, id);
      if target.Some? then Moved(s, t, s.world, Some(CommandFound(target.value, key, value))) else s
    case BeginFault(key, kind, delayMS) =>
      var target := SummaryTarget(s.world, key);
      var w := s.world.(faults := Applied(s.world.faults, key, kind, delayMS));
      if target.Some? && kind == FaultOffline then Moved(s, t, w, Some(FaultApplied(target.value, Offline)))
      else if target.Some? && kind == FaultClear then Moved(s, t, w, Some(FaultApplied(target.value, Online)))
      else Moved(s, t, w, None)
    case PutStatus(i, status) => s.(world := StatusPutWorld(s.world, i, status))
    case Continue(_) => s
  }

  ghost function Next(s: Threads, m: Move): Threads {
    if m.thread in s.at then
      if m.action.Continue?
      then Moved(s, m.thread, NextWorld(s.world, s.at[m.thread], m.action.draw), NextPc(s.world, s.at[m.thread]))
      else if m.action.PutStatus? then Begun(s, m.thread, m.action) else s
    else Begun(s, m.thread, m.action)
  }

  ghost function Run(s: Threads, moves: seq<Move>): Threads
    decreases |moves|
  {
    if moves == [] then s else Run(Next(s, moves[0]), moves[1..])
  }

  lemma {:induction false} RunOne(s: Threads, m: Move)
    ensures Run(s, [m]) == Next(s, m)
  {
    assert [m][1..] == [];
  }

  lemma {:induction false} RunFirst(s: Threads, m: Move, moves: seq<Move>)
    ensures Run(s, [m] + moves) == Run(Next(s, m), moves)
  {
    assert ([m] + moves)[1..] == moves;
  }

  // ----- freezing -----

  function ValuesOf(s: Threads, i: nat): Values {
    if Has(s.world, i) then s.world.states[i].values else map[]
  }

  /** The device exists, and one of its keys carries an entry. */
  ghost predicate Marked(s: Threads, i: nat, key: string) {
    Has(s.world, i) && key in Aliases(s.world.blueprints[i]) && key in s.world.faults
  }

  /** The random draws are draws, and the sun gives a share of the rated power. */
  ghost predicate FairDraw(draw: Draw) {
    UnitNoise(draw.noise) && 0.0 <= draw.sun <= 1.0
  }

  /** The move is a fair one, and neither clears the key nor resets the device. */
  ghost predicate Spares(s: Threads, m: Move, i: nat, key: string) {
    && (m.action.Continue? ==> FairDraw(m.action.draw))
    && !(m.action.BeginFault? && m.action.faultKey == key && m.action.kind == FaultClear)
    && !(m.action.Continue? && m.thread in s.at
         && s.at[m.thread].ResetNext? && s.at[m.thread].todo != [] && s.at[m.thread].todo[0] == i)
  }

  ghost predicate SparesAll(s: Threads, moves: seq<Move>, i: nat, key: string)
    decreases |moves|
  {
    moves == [] || (Spares(s, moves[0], i, key) && SparesAll(Next(s, moves[0]), moves[1..], i, key))
  }

  /** Some fair draw would make a tick change a value, were the device online. */
  ghost predicate TickWouldChange(bp: Blueprint, values: Values, hours: real) {
    exists draw: Draw :: FairDraw(draw) && TickedValues(bp, values, hours, draw.sun, draw.noise) != values
  }

  /** The command would. */
  predicate CommandWouldChange(bp: Blueprint, values: Values, key: string, value: real) {
    Executed(bp, DeviceState(Online, values), key, value).values != values
  }

  /** A thread that stands here looked at the device's faults before the key was marked, found
      nothing, and has yet to write what would change a value. */
  ghost predicate PendingAt(w: World, pc: Pc, i: nat, key: string)
    requires Has(w, i) && key in w.faults
  {
    var bp, values := w.blueprints[i], w.states[i].values;
    match pc
    case TickUp(j, _, hours) => j == i && TickWouldChange(bp, values, hours)
    case TickRevive(j, _, hours) => j == i && TickWouldChange(bp, values, hours)
    case TickReady(j, _, hours) => j == i && TickWouldChange(bp, values, hours)
    case CommandUp(j, k, v) => j == i && !w.faults[key].commandReject && CommandWouldChange(bp, values, k, v)
    case CommandReady(j, k, v) => j == i && CommandWouldChange(bp, values, k, v)
    case _ => false
  }

  ghost predicate Pending(s: Threads, t: nat, i: nat, key: string)
    requires Marked(s, i, key)
  {
    t in s.at && PendingAt(s.world, s.at[t], i, key)
  }

  ghost predicate Quiet(s: Threads, i: nat, key: string)
    requires Marked(s, i, key)
  {
    forall t: nat :: !Pending(s, t, i, key)
  }

  lemma MarkedOffline(s: Threads, i: nat, key: string)
    requires Marked(s, i, key) && s.world.faults[key].offline
    ensures AnyOffline(s.world.faults, Aliases(s.world.blueprints[i]))
  {
  }

  lemma MarkedReject(s: Threads, i: nat, key: string)
    requires Marked(s, i, key) && s.world.faults[key].commandReject
    ensures AnyReject(s.world.faults, Aliases(s.world.blueprints[i]))
  {
  }

  lemma NextWorldShape(w: World, pc: Pc, draw: Draw)
    ensures SameShape(w, NextWorld(w, pc, draw)) && NextWorld(w, pc, draw).faults == w.faults
  {
  }

  lemma BegunShape(s: Threads, t: nat, action: Action)
    ensures var w := Begun(s, t, action).world;
            && SameShape(s.world, w)
            && w.faults == if action.BeginFault? then Applied(s.world.faults, action.faultKey, action.kind,
                                                              action.delayMS)
                           else s.world.faults
  {
  }

  lemma AppliedKeepsMark(faults: Faults, key: string, o: string, kind: Kind, delayMS: Int64)
    requires key in faults && !(o == key && kind == FaultClear)
    ensures var after := Applied(faults, o, kind, delayMS);
            && key in after
            && (faults[key].offline ==> after[key].offline) && (faults[key].commandReject ==> after[key].commandReject)
  {
  }

  /** The mark on a key stays, in all that threads can do. */
  lemma MarkStays(s: Threads, m: Move, i: nat, key: string)
    requires Marked(s, i, key) && Spares(s, m, i, key)
    ensures var next := Next(s, m);
            && Marked(next, i, key) && next.world.blueprints[i] == s.world.blueprints[i]
            && (s.world.faults[key].offline ==> next.world.faults[key].offline)
            && (s.world.faults[key].commandReject ==> next.world.faults[key].commandReject)
  {
    BegunShape(s, m.thread, m.action);
    if m.action.BeginFault? {
      AppliedKeepsMark(s.world.faults, key, m.action.faultKey, m.action.kind, m.action.delayMS);
    }
    if m.action.Continue? && m.thread in s.at {
      NextWorldShape(s.world, s.at[m.thread], m.action.draw);
    }
  }

  /** The thread's next step writes values of the device. */
  predicate WritesTo(pc: Pc, i: nat) {
    match pc
    case TickReady(j, _, _) => j == i
    case CommandReady(j, _, _) => j == i
    case ResetNext(todo) => todo != [] && todo[0] == i
    case _ => false
  }

  lemma NextWorldKeeps(w: World, pc: Pc, draw: Draw, i: nat)
    requires Has(w, i) && !WritesTo(pc, i)
    ensures Has(NextWorld(w, pc, draw), i) && NextWorld(w, pc, draw).states[i].values == w.states[i].values
  {
  }

  lemma BegunKeeps(s: Threads, t: nat, action: Action, i: nat)
    requires Has(s.world, i)
    ensures var w := Begun(s, t, action).world; Has(w, i) && w.states[i].values == s.world.states[i].values
  {
  }

  /** A write that would change nothing changes nothing, whatever the status and the draw. */
  lemma IdleWriteKeeps(w: World, pc: Pc, draw: Draw, i: nat, key: string)
    requires Has(w, i) && key in w.faults && WritesTo(pc, i) && !pc.ResetNext? && !PendingAt(w, pc, i, key)
    requires FairDraw(draw)
    ensures Has(NextWorld(w, pc, draw), i) && NextWorld(w, pc, draw).states[i].values == w.states[i].values
  {
  }

  lemma QuietKeeps(s: Threads, m: Move, i: nat, key: string)
    requires Marked(s, i, key) && Spares(s, m, i, key) && Quiet(s, i, key)
    ensures ValuesOf(Next(s, m), i) == ValuesOf(s, i)
  {
    BegunKeeps(s, m.thread, m.action, i);
    if m.action.Continue? && m.thread in s.at {
      var pc := s.at[m.thread];
      if WritesTo(pc, i) {
        assert !Pending(s, m.thread, i, key);
        IdleWriteKeeps(s.world, pc, m.action.draw, i, key);
      } else {
        NextWorldKeeps(s.world, pc, m.action.draw, i);
      }
    }
  }

  /** Nobody comes past the look at the faults any more. */
  lemma NextNotPending(w: World, pc: Pc, i: nat, key: string)
    requires Has(w, i) && key in w.faults && key in Aliases(w.blueprints[i]) && w.faults[key].offline
    requires NextPc(w, pc).Some? && !PendingAt(w, pc, i, key)
    ensures !PendingAt(w, NextPc(w, pc).value, i, key)
  {
    assert AnyOffline(w.faults, Aliases(w.blueprints[i]));
    assert w.faults[key].commandReject ==> AnyReject(w.faults, Aliases(w.blueprints[i]));
  }

  /** What is pending depends on the values and the reject flag only, and not being so lasts. */
  lemma StaysNotPending(w: World, after: World, pc: Pc, i: nat, key: string)
    requires Has(w, i) && key in w.faults && !PendingAt(w, pc, i, key)
    requires Has(after, i) && key in after.faults
    requires after.blueprints[i] == w.blueprints[i] && after.states[i].values == w.states[i].values
    requires w.faults[key].commandReject ==> after.faults[key].commandReject
    ensures !PendingAt(after, pc, i, key)
  {
  }

  lemma BegunNotPending(s: Threads, t: nat, action: Action, u: nat, w: World, i: nat, key: string)
    requires t !in s.at && Has(w, i) && key in w.faults
    requires u in Begun(s, t, action).at
    ensures u == t ==> !PendingAt(w, Begun(s, t, action).at[u], i, key)
    ensures u != t ==> u in s.at && Begun(s, t, action).at[u] == s.at[u]
  {
  }

  lemma QuietStays(s: Threads, m: Move, i: nat, key: string)
    requires Marked(s, i, key) && s.world.faults[key].offline && Spares(s, m, i, key) && Quiet(s, i, key)
    ensures Marked(Next(s, m), i, key) && Quiet(Next(s, m), i, key)
  {
    var next := Next(s, m);
    MarkStays(s, m, i, key);
    QuietKeeps(s, m, i, key);
    forall u: nat | u in next.at ensures !PendingAt(next.world, next.at[u], i, key) {
      if u in s.at && next.at[u] == s.at[u] {
        assert !Pending(s, u, i, key);
        StaysNotPending(s.world, next.world, s.at[u], i, key);
      } else if m.thread in s.at {
        assert !Pending(s, u, i, key);
        NextNotPending(s.world, s.at[u], i, key);
        StaysNotPending(s.world, next.world, next.at[u], i, key);
      } else {
        BegunNotPending(s, m.thread, m.action, u, next.world, i, key);
      }
    }
  }

  lemma {:induction false} QuietRun(s: Threads, moves: seq<Move>, i: nat, key: string)
    requires Marked(s, i, key) && s.world.faults[key].offline && Quiet(s, i, key) && SparesAll(s, moves, i, key)
    ensures ValuesOf(Run(s, moves), i) == ValuesOf(s, i)
    decreases |moves|
  {
    if moves != [] {
      MarkStays(s, moves[0], i, key);
      QuietKeeps(s, moves[0], i, key);
      QuietStays(s, moves[0], i, key);
      QuietRun(Next(s, moves[0]), moves[1..], i, key);
    }
  }

  // ----- and when it does not hold -----

  /** Nobody sets a status from outside. */
  ghost predicate CodeOnly(moves: seq<Move>) {
    forall m | m in moves :: !m.action.PutStatus?
  }

  /** The moves spare the key and the device, and yet a value of the device changes. */
  ghost predicate Changes(s: Threads, moves: seq<Move>, i: nat, key: string) {
    SparesAll(s, moves, i, key) && ValuesOf(Run(s, moves), i) != ValuesOf(s, i)
  }

  lemma ChangesLater(s: Threads, m: Move, moves: seq<Move>, i: nat, key: string)
    requires Spares(s, m, i, key) && ValuesOf(Next(s, m), i) == ValuesOf(s, i)
    requires Changes(Next(s, m), moves, i, key)
    ensures Changes(s, [m] + moves, i, key)
  {
    assert ([m] + moves)[1..] == moves;
  }

  const ANY_DRAW: Draw := Draw(0.0, (k: string) => 0.0)

  /** The device is online, and the thread is about to write. */
  lemma ReadyChanges(s: Threads, t: nat, i: nat, key: string) returns (moves: seq<Move>)
    requires Marked(s, i, key) && s.world.states[i].status == Online
    requires Pending(s, t, i, key) && WritesTo(s.at[t], i)
    ensures Changes(s, moves, i, key) && CodeOnly(moves)
  {
    var draw := ANY_DRAW;
    if s.at[t].TickReady? {
      var d: Draw :| FairDraw(d) &&
        TickedValues(s.world.blueprints[i], s.world.states[i].values, s.at[t].hours, d.sun, d.noise)
        != s.world.states[i].values;
      draw := d;
    }
    moves := [Move(t, Continue(draw))];
    RunOne(s, moves[0]);
    assert moves[1..] == [];
  }

  /** The thread goes on to its next lock, where it is still pending. */
  lemma PendingGoesOn(s: Threads, t: nat, i: nat, key: string)
    requires Marked(s, i, key) && Pending(s, t, i, key) && !WritesTo(s.at[t], i)
    requires s.world.states[i].status == Online
    requires s.at[t].CommandUp? ==> !AnyReject(s.world.faults, Aliases(s.world.blueprints[i]))
    ensures var next := Next(s, Move(t, Continue(ANY_DRAW)));
            && Marked(next, i, key) && Pending(next, t, i, key) && next.world.states[i] == s.world.states[i]
            && (next.at[t].TickReady? || next.at[t].CommandReady?)
  {
  }

  lemma OnlineChanges(s: Threads, t: nat, i: nat, key: string) returns (moves: seq<Move>)
    requires Marked(s, i, key) && s.world.states[i].status == Online && Pending(s, t, i, key)
    requires s.at[t].CommandUp? ==> !AnyReject(s.world.faults, Aliases(s.world.blueprints[i]))
    ensures Changes(s, moves, i, key) && CodeOnly(moves)
  {
    if WritesTo(s.at[t], i) {
      moves := ReadyChanges(s, t, i, key);
    } else {
      var m := Move(t, Continue(ANY_DRAW));
      PendingGoesOn(s, t, i, key);
      var rest := ReadyChanges(Next(s, m), t, i, key);
      ChangesLater(s, m, rest, i, key);
      moves := [m] + rest;
    }
  }

  lemma PutOnline(s: Threads, u: nat, t: nat, i: nat, key: string)
    requires Marked(s, i, key) && Pending(s, t, i, key)
    ensures var next := Next(s, Move(u, PutStatus(i, Online)));
            && Marked(next, i, key) && Pending(next, t, i, key)
            && next.at == s.at && next.world.faults == s.world.faults && next.world.blueprints == s.world.blueprints
            && next.world.states[i] == s.world.states[i].(status := Online)
  {
  }

  lemma UnrejectedChanges(s: Threads, t: nat, i: nat, key: string) returns (moves: seq<Move>)
    requires Marked(s, i, key) && Pending(s, t, i, key)
    requires s.at[t].CommandUp? ==> !AnyReject(s.world.faults, Aliases(s.world.blueprints[i]))
    ensures Changes(s, moves, i, key)
  {
    var m := Move(t, PutStatus(i, Online));
    PutOnline(s, t, t, i, key);
    var rest := OnlineChanges(Next(s, m), t, i, key);
    ChangesLater(s, m, rest, i, key);
    moves := [m] + rest;
  }

  lemma Above(used: set<nat>) returns (n: nat)
    ensures forall x | x in used :: x < n
    decreases |used|
  {
    if used == {} {
      n := 0;
    } else {
      var x :| x in used;
      var m := Above(used - {x});
      assert forall y | y in used :: y == x || y in used - {x};
      n := if m > x then m else x + 1;
    }
  }

  /** The other key of the device, whose reject fault can be cleared. */
  lemma ClearOther(s: Threads, u: nat, t: nat, i: nat, key: string, other: string)
    requires Marked(s, i, key) && Pending(s, t, i, key) && u !in s.at && s.at[t].CommandUp?
    requires other != key && forall k | k in Aliases(s.world.blueprints[i]) :: k == key || k == other
    ensures var next := Next(s, Move(u, BeginFault(other, FaultClear, 0)));
            && Marked(next, i, key) && Pending(next, t, i, key) && next.at[t] == s.at[t]
            && next.world.blueprints == s.world.blueprints && next.world.states == s.world.states
            && !AnyReject(next.world.faults, Aliases(next.world.blueprints[i]))
  {
    BegunShape(s, u, BeginFault(other, FaultClear, 0));
  }

  lemma PendingChanges(s: Threads, t: nat, i: nat, key: string) returns (moves: seq<Move>)
    requires Marked(s, i, key) && Pending(s, t, i, key)
    ensures Changes(s, moves, i, key)
  {
    var keys := Aliases(s.world.blueprints[i]);
    if s.at[t].CommandUp? && AnyReject(s.world.faults, keys) {
      var other := if keys[0] == key then keys[1] else keys[0];
      var u := Above(s.at.Keys);
      var m := Move(u, BeginFault(other, FaultClear, 0));
      ClearOther(s, u, t, i, key, other);
      var rest := UnrejectedChanges(Next(s, m), t, i, key);
      ChangesLater(s, m, rest, i, key);
      moves := [m] + rest;
    } else {
      moves := UnrejectedChanges(s, t, i, key);
    }
  }

  /** No interleaving that spares the key and the device changes a value of the device. */
  ghost predicate Frozen(s: Threads, i: nat, key: string) {
    forall moves | SparesAll(s, moves, i, key) :: ValuesOf(Run(s, moves), i) == ValuesOf(s, i)
  }

  lemma ChangesThaw(s: Threads, moves: seq<Move>, i: nat, key: string)
    requires Changes(s, moves, i, key)
    ensures !Frozen(s, i, key)
  {
  }

  /** From the moment a key of a device carries an offline fault, until the key is cleared or
      the device reset, no interleaving of any threads changes a value of the device, exactly
      when at that moment no thread stands between its look at the device's faults and a write
      that would change something. */
  lemma FreezesExactly(s: Threads, i: nat, key: string)
    requires Marked(s, i, key) && s.world.faults[key].offline
    ensures Frozen(s, i, key) <==> Quiet(s, i, key)
  {
    if Quiet(s, i, key) {
      forall moves | SparesAll(s, moves, i, key) ensures ValuesOf(Run(s, moves), i) == ValuesOf(s, i) {
        QuietRun(s, moves, i, key);
      }
    } else {
      var t: nat :| Pending(s, t, i, key);
      var moves := PendingChanges(s, t, i, key);
      ChangesThaw(s, moves, i, key);
    }
  }

  // ----- reject faults -----

  /** The thread has passed its look at the reject faults with a command that would change
      something. */
  ghost predicate CommandPending(s: Threads, t: nat, i: nat)
    requires Has(s.world, i)
  {
    && t in s.at && s.at[t].CommandReady? && s.at[t].device == i
    && CommandWouldChange(s.world.blueprints[i], s.world.states[i].values, s.at[t].key, s.at[t].value)
  }

  /** As above, and no tick of the device comes to its write either. */
  ghost predicate NoTicks(s: Threads, moves: seq<Move>, i: nat, key: string)
    decreases |moves|
  {
    moves == [] ||
    (&& Spares(s, moves[0], i, key)
     && !(moves[0].action.Continue? && moves[0].thread in s.at
          && s.at[moves[0].thread].TickReady? && s.at[moves[0].thread].device == i)
     && NoTicks(Next(s, moves[0]), moves[1..], i, key))
  }

  lemma IdleCommandKeeps(w: World, pc: Pc, draw: Draw, i: nat)
    requires Has(w, i) && pc.CommandReady? && pc.device == i
    requires !CommandWouldChange(w.blueprints[i], w.states[i].values, pc.key, pc.value)
    ensures Has(NextWorld(w, pc, draw), i) && NextWorld(w, pc, draw).states[i].values == w.states[i].values
  {
  }

  lemma {:induction false} RejectedStep(s: Threads, m: Move, i: nat, key: string)
    requires Marked(s, i, key) && s.world.faults[key].commandReject && NoTicks(s, [m], i, key)
    requires forall t: nat :: !CommandPending(s, t, i)
    ensures Marked(Next(s, m), i, key) && ValuesOf(Next(s, m), i) == ValuesOf(s, i)
  {
    MarkStays(s, m, i, key);
    BegunKeeps(s, m.thread, m.action, i);
    if m.action.Continue? && m.thread in s.at {
      var pc := s.at[m.thread];
      assert !CommandPending(s, m.thread, i);
      if pc.CommandReady? && pc.device == i {
        IdleCommandKeeps(s.world, pc, m.action.draw, i);
      } else {
        NextWorldKeeps(s.world, pc, m.action.draw, i);
      }
    }
  }

  lemma NextNotReady(w: World, pc: Pc, i: nat)
    requires Has(w, i) && AnyReject(w.faults, Aliases(w.blueprints[i]))
    requires NextPc(w, pc).Some? && NextPc(w, pc).value.CommandReady?
    ensures NextPc(w, pc).value.device != i
  {
  }

  lemma BegunNotReady(s: Threads, t: nat, action: Action, u: nat)
    requires t !in s.at && u in Begun(s, t, action).at && Begun(s, t, action).at[u].CommandReady?
    ensures u in s.at && Begun(s, t, action).at[u] == s.at[u]
  {
  }

  lemma {:induction false} RejectedStays(s: Threads, m: Move, i: nat, key: string)
    requires Marked(s, i, key) && s.world.faults[key].commandReject && NoTicks(s, [m], i, key)
    requires forall t: nat :: !CommandPending(s, t, i)
    ensures Marked(Next(s, m), i, key) && forall t: nat :: !CommandPending(Next(s, m), t, i)
  {
    var next := Next(s, m);
    MarkStays(s, m, i, key);
    RejectedStep(s, m, i, key);
    MarkedReject(s, i, key);
    forall t: nat ensures !CommandPending(next, t, i) {
      assert !CommandPending(s, t, i);
      if t in next.at && next.at[t].CommandReady? && !(t in s.at && next.at[t] == s.at[t]) {
        if m.thread in s.at {
          NextNotReady(s.world, s.at[t], i);
        } else {
          BegunNotReady(s, m.thread, m.action, t);
        }
      }
    }
  }

  lemma {:induction false} RejectedRun(s: Threads, moves: seq<Move>, i: nat, key: string)
    requires Marked(s, i, key) && s.world.faults[key].commandReject && NoTicks(s, moves, i, key)
    requires forall t: nat :: !CommandPending(s, t, i)
    ensures ValuesOf(Run(s, moves), i) == ValuesOf(s, i)
    decreases |moves|
  {
    if moves != [] {
      assert NoTicks(s, [moves[0]], i, key);
      MarkStays(s, moves[0], i, key);
      RejectedStep(s, moves[0], i, key);
      RejectedStays(s, moves[0], i, key);
      RejectedRun(Next(s, moves[0]), moves[1..], i, key);
    }
  }

  lemma ReadyCommandChanges(s: Threads, t: nat, i: nat, key: string) returns (moves: seq<Move>)
    requires Marked(s, i, key) && CommandPending(s, t, i)
    ensures NoTicks(s, moves, i, key) && ValuesOf(Run(s, moves), i) != ValuesOf(s, i)
  {
    var put, write := Move(t, PutStatus(i, Online)), Move(t, Continue(ANY_DRAW));
    moves := [put] + [write];
    var mid := Next(s, put);
    assert mid.at == s.at && mid.world.states[i] == s.world.states[i].(status := Online);
    RunFirst(s, put, [write]);
    RunOne(mid, write);
    assert moves[1..] == [write] && [write][1..] == [];
  }

  /** No interleaving without ticks of the device that spares the key and the device changes a
      value of the device. */
  ghost predicate FrozenToCommands(s: Threads, i: nat, key: string) {
    forall moves | NoTicks(s, moves, i, key) :: ValuesOf(Run(s, moves), i) == ValuesOf(s, i)
  }

  lemma {:induction false} CommandThaws(s: Threads, moves: seq<Move>, i: nat, key: string)
    requires NoTicks(s, moves, i, key) && ValuesOf(Run(s, moves), i) != ValuesOf(s, i)
    ensures !FrozenToCommands(s, i, key)
  {
  }

  /** Under a reject fault, ticks aside, the values stay exactly when at that moment no command
      has already passed its look at the reject faults. */
  lemma RejectFreezesExactly(s: Threads, i: nat, key: string)
    requires Marked(s, i, key) && s.world.faults[key].commandReject
    ensures FrozenToCommands(s, i, key) <==> forall t: nat :: !CommandPending(s, t, i)
  {
    if forall t: nat :: !CommandPending(s, t, i) {
      forall moves | NoTicks(s, moves, i, key) ensures ValuesOf(Run(s, moves), i) == ValuesOf(s, i) {
        RejectedRun(s, moves, i, key);
      }
    } else {
      var t: nat :| CommandPending(s, t, i);
      var moves := ReadyCommandChanges(s, t, i, key);
      CommandThaws(s, moves, i, key);
    }
  }

  // ----- operations that nobody interrupts -----

  ghost predicate AllBy(moves: seq<Move>, t: nat) {
    forall m | m in moves :: m.thread == t
  }

  lemma {:induction false} RunConcat(s: Threads, a: seq<Move>, b: seq<Move>)
    ensures Run(s, a + b) == Run(Run(s, a), b)
    decreases |a|
  {
    if a == [] {
      assert a + b == b;
    } else {
      assert (a + b)[1..] == a[1..] + b;
      RunConcat(Next(s, a[0]), a[1..], b);
    }
  }

  /** The rest of a turn that found no fault: revive the device if it is offline, and tick it. */
  lemma UpAlone(s: Threads, t: nat, i: nat, rest: seq<nat>, hours: real, draw: Draw) returns (moves: seq<Move>)
    requires t in s.at && s.at[t] == TickUp(i, rest, hours) && Has(s.world, i)
    ensures AllBy(moves, t) && forall m | m in moves :: m.action.Continue?
    ensures var bp, st := s.world.blueprints[i], s.world.states[i];
            var up := if st.status == Offline then st.(status := Online) else st;
            Run(s, moves) == Moved(s, t, WithState(s.world, i, Ticked(bp, up, hours, draw.sun, draw.noise)),
                                   Some(TickNext(rest, hours)))
  {
    var go := Move(t, Continue(draw));
    var s1 := Next(s, go);
    var s2 := Next(s1, go);
    if s.world.states[i].status == Offline {
      moves := [go] + ([go] + [go]);
      RunFirst(s, go, [go] + [go]);
      RunFirst(s1, go, [go]);
      RunOne(s2, go);
    } else {
      moves := [go] + [go];
      RunFirst(s, go, [go]);
      RunOne(s1, go);
    }
  }

  /** One device's turn of a tick. */
  lemma TurnAlone(s: Threads, t: nat, i: nat, rest: seq<nat>, hours: real, draw: Draw) returns (moves: seq<Move>)
    requires t in s.at && s.at[t] == TickNext([i] + rest, hours) && Has(s.world, i)
    ensures AllBy(moves, t)
    ensures var w := s.world;
            Run(s, moves) == Moved(s, t, WithState(w, i, TickOne(w.blueprints[i], w.states[i], w.faults, hours, draw)),
                                   Some(TickNext(rest, hours)))
  {
    assert ([i] + rest)[1..] == rest;
    var go := Move(t, Continue(draw));
    var s1 := Next(s, go);
    if AnyOffline(s.world.faults, Aliases(s.world.blueprints[i])) {
      moves := [go] + [go];
      RunFirst(s, go, [go]);
      RunOne(s1, go);
    } else {
      var later := UpAlone(s1, t, i, rest, hours, draw);
      moves := [go] + later;
      RunFirst(s, go, later);
    }
  }

  /** The operation has come to exactly these devices. */
  ghost predicate Over(w: World, after: World, order: seq<nat>, op: (Blueprint, DeviceState) -> DeviceState) {
    && SameShape(w, after) && after.faults == w.faults
    && forall k: nat | Has(w, k) && Has(after, k) ::
         after.states[k] == if k in order then op(w.blueprints[k], w.states[k]) else w.states[k]
  }

  lemma OverNext(w: World, mid: World, after: World, i: nat, rest: seq<nat>,
                 op: (Blueprint, DeviceState) -> DeviceState)
    requires Has(w, i) && i !in rest && mid == WithState(w, i, op(w.blueprints[i], w.states[i]))
    requires Over(mid, after, rest, op)
    ensures Over(w, after, [i] + rest, op)
  {
  }

  /** The thread has given one device its turn, and then the others. */
  lemma SweepGoesOn(s: Threads, t: nat, mid: Threads, after: Threads, pc: Pc, i: nat, rest: seq<nat>,
                    op: (Blueprint, DeviceState) -> DeviceState)
    requires Has(s.world, i) && i !in rest
    requires mid == Moved(s, t, WithState(s.world, i, op(s.world.blueprints[i], s.world.states[i])), Some(pc))
    requires after.at == mid.at - {t} && Over(mid.world, after.world, rest, op)
    ensures after.at == s.at - {t} && Over(s.world, after.world, [i] + rest, op)
  {
    assert s.at[t := pc] - {t} == s.at - {t};
    OverNext(s.world, mid.world, after.world, i, rest, op);
  }

  lemma SweepAlone(s: Threads, t: nat, order: seq<nat>, hours: real, draws: string -> Draw)
    returns (moves: seq<Move>)
    requires t in s.at && s.at[t] == TickNext(order, hours)
    requires Distinct(order) && forall i | i in order :: Has(s.world, i)
    ensures AllBy(moves, t) && Run(s, moves).at == s.at - {t}
    ensures Over(s.world, Run(s, moves).world, order, TickOp(s.world.faults, hours, draws))
    decreases |order|
  {
    if order == [] {
      moves := [Move(t, Continue(ANY_DRAW))];
      RunOne(s, moves[0]);
    } else {
      var i, rest := order[0], order[1..];
      var op := TickOp(s.world.faults, hours, draws);
      assert order == [i] + rest && i in order;
      var first := TurnAlone(s, t, i, rest, hours, draws(s.world.blueprints[i].spec.cuCode));
      var mid := Run(s, first);
      assert forall k | k in rest :: k in order;
      var later := SweepAlone(mid, t, rest, hours, draws);
      moves := first + later;
      RunConcat(s, first, later);
      SweepGoesOn(s, t, mid, Run(s, moves), TickNext(rest, hours), i, rest, op);
    }
  }

  lemma ResetTurnAlone(s: Threads, t: nat, i: nat, rest: seq<nat>)
    requires t in s.at && s.at[t] == ResetNext([i] + rest) && Has(s.world, i)
    ensures var reset := ResetOp()(s.world.blueprints[i], s.world.states[i]);
            Next(s, Move(t, Continue(ANY_DRAW))) == Moved(s, t, WithState(s.world, i, reset), Some(ResetNext(rest)))
  {
    assert ([i] + rest)[1..] == rest;
  }

  lemma ResetsAlone(s: Threads, t: nat, order: seq<nat>) returns (moves: seq<Move>)
    requires t in s.at && s.at[t] == ResetNext(order)
    requires Distinct(order) && forall i | i in order :: Has(s.world, i)
    ensures AllBy(moves, t) && Run(s, moves).at == s.at - {t}
    ensures Over(s.world, Run(s, moves).world, order, ResetOp())
    decreases |order|
  {
    var go := Move(t, Continue(ANY_DRAW));
    if order == [] {
      moves := [go];
      RunOne(s, go);
    } else {
      var i, rest, mid := order[0], order[1..], Next(s, go);
      assert order == [i] + rest && i in order;
      assert forall k | k in rest :: k in order;
      ResetTurnAlone(s, t, i, rest);
      var later := ResetsAlone(mid, t, rest);
      moves := [go] + later;
      RunFirst(s, go, later);
      SweepGoesOn(s, t, mid, Run(s, moves), ResetNext(rest), i, rest, ResetOp());
    }
  }

  lemma OverListing(w: World, after: World, order: seq<nat>, op: (Blueprint, DeviceState) -> DeviceState)
    requires Valid(w) && Listing(w, order) && Over(w, after, order, op)
    ensures after == MapListed(w, op)
  {
    assert after.states == MapListed(w, op).states;
  }

  lemma ListedExist(w: World, order: seq<nat>)
    requires Valid(w) && Listing(w, order)
    ensures forall i | i in order :: Has(w, i)
  {
    forall i | i in order ensures Has(w, i) {
      assert Listed(w, i);
    }
  }

  lemma FoundAlone(s: Threads, t: nat, i: nat, key: string, value: real) returns (moves: seq<Move>)
    requires t in s.at && s.at[t] == CommandFound(i, key, value) && Has(s.world, i)
    ensures AllBy(moves, t)
    ensures var w := s.world;
            Run(s, moves)
            == Moved(s, t, WithState(w, i, CommandedOne(w.blueprints[i], w.states[i], w.faults, key, value)), None)
  {
    var go := Move(t, Continue(ANY_DRAW));
    var s1 := Next(s, go);
    var s2 := Next(s1, go);
    var keys := Aliases(s.world.blueprints[i]);
    if AnyOffline(s.world.faults, keys) || AnyReject(s.world.faults, keys) {
      moves := [go] + [go];
      RunFirst(s, go, [go]);
      RunOne(s1, go);
    } else {
      moves := [go] + ([go] + [go]);
      RunFirst(s, go, [go] + [go]);
      RunFirst(s1, go, [go]);
      RunOne(s2, go);
    }
  }

  lemma MovedAway(s: Threads, t: nat, w: World, pc: Pc, after: World)
    requires t !in s.at
    ensures Moved(Moved(s, t, w, Some(pc)), t, after, None) == s.(world := after)
  {
    assert s.at[t := pc] - {t} == s.at;
  }

  lemma CommandAlone(s: Threads, t: nat, id: string, key: string, value: real) returns (moves: seq<Move>)
    requires t !in s.at && Valid(s.world)
    ensures AllBy(moves, t) && Run(s, moves) == s.(world := CommandedWorld(s.world, id, key, value))
  {
    var begin, target := Move(t, BeginCommand(id, key, value)), ExecuteTarget(s.world, id);
    moves := [begin];
    RunOne(s, begin);
    if target.Some? {
      var i := target.value;
      var later := FoundAlone(Next(s, begin), t, i, key, value);
      moves := [begin] + later;
      RunFirst(s, begin, later);
      CommandedAt(s.world, id, key, value, i);
      MovedAway(s, t, s.world, CommandFound(i, key, value), CommandedWorld(s.world, id, key, value));
    }
  }

  lemma ShownAlone(s: Threads, t: nat, i: nat, status: Status, w: World)
    requires t !in s.at
    ensures Next(Moved(s, t, w, Some(FaultApplied(i, status))), Move(t, Continue(ANY_DRAW)))
         == s.(world := StatusPutWorld(w, i, status))
  {
    MovedAway(s, t, w, FaultApplied(i, status), StatusPutWorld(w, i, status));
  }

  /** The status a request of this kind sets, if it sets one. */
  function RequestedStatus(kind: Kind): Option<Status> {
    if kind == FaultOffline then Some(Offline) else if kind == FaultClear then Some(Online) else None
  }

  function WithFault(w: World, key: string, kind: Kind, delayMS: Int64): World {
    w.(faults := Applied(w.faults, key, kind, delayMS))
  }

  lemma FaultBegins(s: Threads, t: nat, key: string, kind: Kind, delayMS: Int64)
    requires t !in s.at
    ensures var target, status := SummaryTarget(s.world, key), RequestedStatus(kind);
            var w := WithFault(s.world, key, kind, delayMS);
            Next(s, Move(t, BeginFault(key, kind, delayMS))) ==
            if target.Some? && status.Some? then Moved(s, t, w, Some(FaultApplied(target.value, status.value)))
            else s.(world := w)
  {
    assert s.at - {t} == s.at;
  }

  lemma FaultedInTwo(w: World, key: string, kind: Kind, delayMS: Int64)
    requires Valid(w)
    ensures var target, status, after := SummaryTarget(w, key), RequestedStatus(kind), WithFault(w, key, kind, delayMS);
            FaultedWorld(w, key, kind, delayMS) ==
            if target.Some? && status.Some? then StatusPutWorld(after, target.value, status.value) else after
  {
  }

  lemma FaultAlone(s: Threads, t: nat, key: string, kind: Kind, delayMS: Int64) returns (moves: seq<Move>)
    requires t !in s.at && Valid(s.world)
    ensures AllBy(moves, t) && Run(s, moves) == s.(world := FaultedWorld(s.world, key, kind, delayMS))
  {
    var begin, go := Move(t, BeginFault(key, kind, delayMS)), Move(t, Continue(ANY_DRAW));
    var target, status := SummaryTarget(s.world, key), RequestedStatus(kind);
    FaultBegins(s, t, key, kind, delayMS);
    FaultedInTwo(s.world, key, kind, delayMS);
    if target.Some? && status.Some? {
      moves := [begin] + [go];
      RunFirst(s, begin, [go]);
      RunOne(Next(s, begin), go);
      ShownAlone(s, t, target.value, status.value, WithFault(s.world, key, kind, delayMS));
    } else {
      moves := [begin];
      RunOne(s, begin);
    }
  }

  /** What the coarser model takes as one step is what a thread does that nobody interrupts. */
  lemma AloneIsOneStep(s: Threads, t: nat, e: Event, order: seq<nat>) returns (moves: seq<Move>)
    requires t !in s.at && Valid(s.world) && Listing(s.world, order) && !e.Load?
    ensures AllBy(moves, t) && Run(s, moves) == s.(world := Fleet.Step(s.world, e))
  {
    ListedExist(s.world, order);
    match e {
      case TickAll(hours, draws) =>
        var begin := Move(t, BeginTick(order, hours));
        var later := SweepAlone(Next(s, begin), t, order, hours, draws);
        moves := [begin] + later;
        RunFirst(s, begin, later);
        OverListing(s.world, Run(s, moves).world, order, TickOp(s.world.faults, hours, draws));
      case ResetAll =>
        var begin := Move(t, BeginReset(order));
        var later := ResetsAlone(Next(s, begin), t, order);
        moves := [begin] + later;
        RunFirst(s, begin, later);
        OverListing(s.world, Run(s, moves).world, order, ResetOp());
      case Execute(id, key, value) => moves := CommandAlone(s, t, id, key, value);
      case ApplyFault(key, kind, delayMS) => moves := FaultAlone(s, t, key, kind, delayMS);
      case SetStatus(i, status) =>
        moves := [Move(t, PutStatus(i, status))];
        RunOne(s, moves[0]);
    }
  }

  // ----- a race -----

  /** The sweep has found no fault; the request comes, and puts the device offline. */
  lemma {:induction false} RequestInTurn(s: Threads, t: nat, u: nat, i: nat, rest: seq<nat>, hours: real, draw: Draw,
                                         key: string)
    requires t in s.at && u !in s.at && s.at[t] == TickUp(i, rest, hours)
    requires Has(s.world, i) && key in Aliases(s.world.blueprints[i]) && SummaryTarget(s.world, key) == Some(i)
    ensures var end := Run(s, [Move(u, BeginFault(key, FaultOffline, 0))] + [Move(u, Continue(draw))]);
            && SameShape(s.world, end.world) && end.world.states[i] == s.world.states[i].(status := Offline)
            && t in end.at && end.at[t] == s.at[t] && key in end.world.faults && end.world.faults[key].offline
  {
    var ask, put := Move(u, BeginFault(key, FaultOffline, 0)), Move(u, Continue(draw));
    RunFirst(s, ask, [put]);
    RunOne(Next(s, ask), put);
  }

  /** All a fault request needs to be undone is to fall into a device's turn: the sweep finds no
      fault, the request puts the device offline, and the sweep, which now finds it offline,
      revives it and ticks it, under the fault. */
  lemma RaceRevives(s: Threads, t: nat, u: nat, i: nat, rest: seq<nat>, hours: real, draw: Draw, key: string)
    returns (moves: seq<Move>)
    requires t in s.at && u !in s.at && s.at[t] == TickNext([i] + rest, hours)
    requires Has(s.world, i) && key in Aliases(s.world.blueprints[i]) && SummaryTarget(s.world, key) == Some(i)
    requires !AnyOffline(s.world.faults, Aliases(s.world.blueprints[i]))
    ensures forall m | m in moves :: m.action.Continue? || m.action == BeginFault(key, FaultOffline, 0)
    ensures var bp, end := s.world.blueprints[i], Run(s, moves).world;
            && Has(end, i) && end.blueprints[i] == bp && AnyOffline(end.faults, Aliases(bp))
            && end.states[i] == DeviceState(Online,
                                            TickedValues(bp, s.world.states[i].values, hours, draw.sun, draw.noise))
  {
    var look := Move(t, Continue(draw));
    var request := [Move(u, BeginFault(key, FaultOffline, 0))] + [Move(u, Continue(draw))];
    assert ([i] + rest)[1..] == rest;
    var looked := Next(s, look);
    RequestInTurn(looked, t, u, i, rest, hours, draw, key);
    var asked := Run(looked, request);
    var later := UpAlone(asked, t, i, rest, hours, draw);
    moves := [look] + (request + later);
    RunFirst(s, look, request + later);
    RunConcat(looked, request, later);
    MarkedOffline(asked, i, key);
  }
}
