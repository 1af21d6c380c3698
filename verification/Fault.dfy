/** Injected faults, keyed by CU code or external id (internal/simulator/fault/engine.go). */
module Fault {
  import opened Sequences
  import opened Slots
  import opened GoTime

  datatype FaultState = FaultState(offline: bool, commandReject: bool, telemetryDelay: Duration)

  /** The kinds of fault; the engine is also defined on kinds it does not know. */
  datatype Kind = FaultOffline | FaultCommandReject | FaultTelemetryDelay | FaultClear | FaultUnknown

  type Faults = map<string, FaultState>

  const NO_FAULT := FaultState(false, false, 0)

  /** time.Duration(delayMS) * time.Millisecond, with 2000 for a delay that is not positive. */
  function Delay(delayMS: Int64): Duration {
    Wrap64((if delayMS <= 0 then 2000 else delayMS) * MILLISECOND)
  }

  function Applied(byKey: Faults, key: string, kind: Kind, delayMS: Int64): Faults {
    var s := if key in byKey then byKey[key] else NO_FAULT;
    match kind
    case FaultClear => byKey - {key}
    case FaultOffline => byKey[key := s.(offline := true)]
    case FaultCommandReject => byKey[key := s.(commandReject := true)]
    case FaultTelemetryDelay => byKey[key := s.(telemetryDelay := Delay(delayMS))]
    case FaultUnknown => byKey[key := s]
  }

  // ----- what the queries mean -----

  predicate AnyOffline(byKey: Faults, keys: seq<string>) {
    exists k | k in keys :: k in byKey && byKey[k].offline
  }

  predicate AnyReject(byKey: Faults, keys: seq<string>) {
    exists k | k in keys :: k in byKey && byKey[k].commandReject
  }

  /** The longest delay among the keys, and 0 when none is positive. */
  ghost predicate IsLongestDelay(byKey: Faults, keys: seq<string>, d: Duration) {
    && 0 <= d
    && (forall k | k in keys && k in byKey :: byKey[k].telemetryDelay <= d)
    && (d == 0 || exists k :: k in keys && k in byKey && byKey[k].telemetryDelay == d)
  }

  class Engine {
    var byKey: Faults

    constructor ()
      ensures byKey == map[]
    {
      byKey := map[];
    }

    method Apply(key: string, kind: Kind, delayMS: Int64)
      modifies this
      ensures byKey == Applied(old(byKey), key, kind, delayMS)
    {
      if kind == FaultClear {
        byKey := byKey - {key};
        return;
      }
      if key !in byKey {
        byKey := byKey[key := NO_FAULT];
      }
      var s := byKey[key];
      match kind {
        case FaultOffline => s := s.(offline := true);
        case FaultCommandReject => s := s.(commandReject := true);
        case FaultTelemetryDelay =>
          var delay := if delayMS <= 0 then 2000 else delayMS;
          s := s.(telemetryDelay := Wrap64(delay * MILLISECOND));
        case _ =>
      }
      byKey := byKey[key := s];
    }

    /** The merge of the keys' entries. */
    method Lookup(keys: seq<string>) returns (out: FaultState)
      ensures out.offline == AnyOffline(byKey, keys)
      ensures out.commandReject == AnyReject(byKey, keys)
      ensures IsLongestDelay(byKey, keys, out.telemetryDelay)
    {
      out := NO_FAULT;
      for i := 0 to |keys|
        invariant out.offline == AnyOffline(byKey, keys[..i])
        invariant out.commandReject == AnyReject(byKey, keys[..i])
        invariant IsLongestDelay(byKey, keys[..i], out.telemetryDelay)
      {
        assert keys[..i + 1] == keys[..i] + [keys[i]];
        if keys[i] in byKey {
          var s := byKey[keys[i]];
          out := FaultState(out.offline || s.offline, out.commandReject || s.commandReject,
                       if s.telemetryDelay > out.telemetryDelay then s.telemetryDelay else out.telemetryDelay);
        }
      }
      assert keys[..|keys|] == keys;
    }

    method ShouldRejectCommand(keys: seq<string>) returns (r: bool)
      ensures r == AnyReject(byKey, keys)
    {
      for i := 0 to |keys|
        invariant !AnyReject(byKey, keys[..i])
      {
        if keys[i] in byKey && byKey[keys[i]].commandReject {
          return true;
        }
        assert keys[..i + 1] == keys[..i] + [keys[i]];
      }
      assert keys[..|keys|] == keys;
      r := false;
    }

    method IsOffline(keys: seq<string>) returns (r: bool)
      ensures r == AnyOffline(byKey, keys)
    {
      for i := 0 to |keys|
        invariant !AnyOffline(byKey, keys[..i])
      {
        if keys[i] in byKey && byKey[keys[i]].offline {
          return true;
        }
        assert keys[..i + 1] == keys[..i] + [keys[i]];
      }
      assert keys[..|keys|] == keys;
      r := false;
    }

    method LongestDelay(keys: seq<string>) returns (max: Duration)
      ensures IsLongestDelay(byKey, keys, max)
    {
      max := 0;
      for i := 0 to |keys|
        invariant IsLongestDelay(byKey, keys[..i], max)
      {
        assert keys[..i + 1] == keys[..i] + [keys[i]];
        if keys[i] in byKey && byKey[keys[i]].telemetryDelay > max {
          max := byKey[keys[i]].telemetryDelay;
        }
      }
      assert keys[..|keys|] == keys;
    }
  }

  /** There is one longest delay, so two queries that both return it agree. */
  lemma LongestDelayUnique(byKey: Faults, keys: seq<string>, d: Duration, e: Duration)
    requires IsLongestDelay(byKey, keys, d) && IsLongestDelay(byKey, keys, e)
    ensures d == e
  {
  }

  /** Lookup agrees field by field with the three single queries, on every key list. */
  method LookupAgrees(e: Engine, keys: seq<string>)
      returns (merged: FaultState, offline: bool, reject: bool, delay: Duration)
    ensures merged == FaultState(offline, reject, delay)
    ensures offline == AnyOffline(e.byKey, keys) && reject == AnyReject(e.byKey, keys)
            && IsLongestDelay(e.byKey, keys, delay)
  {
    merged := e.Lookup(keys);
    offline := e.IsOffline(keys);
    reject := e.ShouldRejectCommand(keys);
    delay := e.LongestDelay(keys);
    LongestDelayUnique(e.byKey, keys, merged.telemetryDelay, delay);
  }

  // ----- histories -----

  datatype Op = Op(key: string, kind: Kind, delayMS: Int64)

  function Replay(ops: seq<Op>): Faults {
    if ops == [] then map[]
    else
      var last := ops[|ops| - 1];
      Applied(Replay(ops[..|ops| - 1]), last.key, last.kind, last.delayMS)
  }

  /** The applications of one key after its last clear: a reading of the history alone. */
  function SinceClear(ops: seq<Op>, key: string): seq<Op> {
    if ops == [] then []
    else
      var last := ops[|ops| - 1];
      if last.key != key then SinceClear(ops[..|ops| - 1], key)
      else if last.kind == FaultClear then []
      else SinceClear(ops[..|ops| - 1], key) + [last]
  }

  /** The delay of the last delay application, 0 if there is none. */
  function LastDelay(ops: seq<Op>): Duration {
    if ops == [] then 0
    else if ops[|ops| - 1].kind == FaultTelemetryDelay then Delay(ops[|ops| - 1].delayMS)
    else LastDelay(ops[..|ops| - 1])
  }

  predicate HasKind(ops: seq<Op>, kind: Kind) {
    exists o | o in ops :: o.kind == kind
  }

  lemma HasKindAppend(ops: seq<Op>, last: Op, kind: Kind)
    ensures HasKind(ops + [last], kind) <==> HasKind(ops, kind) || last.kind == kind
  {
    assert last in ops + [last];
    assert forall o :: o in ops + [last] <==> o in ops || o == last;
  }

  lemma {:induction false} LastDelayAppend(ops: seq<Op>, last: Op)
    ensures LastDelay(ops + [last]) == if last.kind == FaultTelemetryDelay then Delay(last.delayMS) else LastDelay(ops)
  {
    assert (ops + [last])[..|ops|] == ops;
  }

  /** What an entry says about the applications since the last clear. */
  ghost predicate Reflects(byKey: Faults, key: string, since: seq<Op>) {
    && (key in byKey <==> since != [])
    && (key in byKey ==> byKey[key] == FaultState(HasKind(since, FaultOffline), HasKind(since, FaultCommandReject),
                                                  LastDelay(since)))
  }

  /** After any history, a key has an entry exactly when it was applied since its last clear,
      and the entry is what those applications say. */
  lemma {:induction false} ReplayExact(ops: seq<Op>, key: string)
    ensures Reflects(Replay(ops), key, SinceClear(ops, key))
  {
    if ops != [] {
      var init, last := ops[..|ops| - 1], ops[|ops| - 1];
      ReplayExact(init, key);
      if last.key == key && last.kind != FaultClear {
        var before := SinceClear(init, key);
        HasKindAppend(before, last, FaultOffline);
        HasKindAppend(before, last, FaultCommandReject);
        LastDelayAppend(before, last);
      }
    }
  }

  lemma {:induction false} EntrySaysOffline(ops: seq<Op>, key: string)
    ensures (key in Replay(ops) && Replay(ops)[key].offline) <==> HasKind(SinceClear(ops, key), FaultOffline)
  {
    ReplayExact(ops, key);
  }

  lemma EitherOffline(faults: Faults, a: string, b: string)
    ensures AnyOffline(faults, [a, b]) <==> (a in faults && faults[a].offline) || (b in faults && faults[b].offline)
  {
    assert a in [a, b] && b in [a, b];
  }

  function IsOn(key: string): Op -> bool {
    (o: Op) => o.key == key
  }

  lemma {:induction false} ReplayAppend(ops: seq<Op>, last: Op)
    ensures Replay(ops + [last]) == Applied(Replay(ops), last.key, last.kind, last.delayMS)
  {
    assert (ops + [last])[..|ops|] == ops;
  }

  /** An application only looks at, and only changes, the entry of its own key. */
  lemma AppliedLocal(a: Faults, b: Faults, key: string, o: Op)
    requires Same(a, b, key)
    ensures Same(Applied(a, o.key, o.kind, o.delayMS), Applied(b, o.key, o.kind, o.delayMS), key)
    ensures o.key != key ==> Same(Applied(a, o.key, o.kind, o.delayMS), b, key)
  {
  }

  /** Entries of different keys do not influence each other: a key's entry is what its own
      applications would have made by themselves. */
  lemma {:induction false} KeysIndependent(ops: seq<Op>, key: string)
    ensures Same(Replay(ops), Replay(Filter(ops, IsOn(key))), key)
  {
    if ops != [] {
      var init, last := ops[..|ops| - 1], ops[|ops| - 1];
      var own := Filter(init, IsOn(key));
      KeysIndependent(init, key);
      assert ops == init + [last];
      FilterAppend(init, last, IsOn(key));
      AppliedLocal(Replay(init), Replay(own), key, last);
      ReplayAppend(init, last);
      ReplayAppend(own, last);
      assert own + [] == own;
    }
  }

  /** A delay is that many milliseconds, two seconds if none is given; only delays of more than
      292 years wrap around. */
  lemma DelayExactly(delayMS: Int64)
    ensures delayMS <= 0 ==> Delay(delayMS) == 2_000_000_000
    ensures 0 < delayMS <= 9_223_372_036_854 ==> Delay(delayMS) == delayMS * 1_000_000
    ensures delayMS > 0 ==> (Delay(delayMS) - delayMS * 1_000_000) % 0x1_0000_0000_0000_0000 == 0
  {
    WrapsExactly(delayMS * 1_000_000);
    WrapsExactly(2_000_000_000);
  }

  /** An application of one kind sets what it is for, and leaves the rest of the entry. */
  lemma AppliedExactly(faults: Faults, key: string, kind: Kind, delayMS: Int64)
    ensures var after := Applied(faults, key, kind, delayMS);
            var was := if key in faults then faults[key] else FaultState(false, false, 0);
            && (kind == FaultClear ==> after == faults - {key})
            && (kind == FaultOffline ==> after == faults[key := was.(offline := true)])
            && (kind == FaultCommandReject ==> after == faults[key := was.(commandReject := true)])
            && (kind == FaultTelemetryDelay ==> after == faults[key := was.(telemetryDelay := Delay(delayMS))])
            && (kind == FaultUnknown ==> after == faults[key := was])
  {
  }
}
