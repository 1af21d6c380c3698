/** Loading with retries until an overall deadline (internal/simulator/server.go). */
module Retry {
  import opened Wrappers
  import opened GoTime

  type LoadError = string

  /** What the rest of the world does in one round: the time that passes before the first
      clock reading, inside the load, before the second reading and beyond the requested
      sleep, and the load's error if it fails. */
  datatype Turn = Turn(beforeReading: nat, loading: nat, failure: Option<LoadError>, beforeCheck: nat, oversleep: nat)

  /** A load: the reading its timeout was computed at, and the timeout. */
  datatype LoadCall = LoadCall(at: Time, timeout: Duration)

  datatype RetryError =
    | TimedOutWaiting(overall: Duration)
    | TimedOut(overall: Duration, attempts: nat, last: LoadError)

  datatype Trace = Trace(result: Result<(), RetryError>, loads: seq<LoadCall>, end: Time)

  const LOAD_TIMEOUT: Duration := 10 * SECOND

  function Min(a: int, b: int): int {
    if b < a then b else a
  }

  /** A round ends the loop, after a load or without one, or leads to another round. */
  datatype Round = Stop(trace: Trace) | Again(call: LoadCall, next: Time)

  function OneRound(n: nat, now: Time, deadline: Time, overall: Duration, interval: Duration, last: Option<LoadError>,
                    t: Turn): (r: Round)
    ensures r.Again? ==> now < r.next && now < deadline
  {
    var at := now + t.beforeReading;
    if at >= deadline then
      Stop(Trace(Err(if last.Some? then TimedOut(overall, n, last.value) else TimedOutWaiting(overall)), [], at))
    else
      var call := LoadCall(at, Min(LOAD_TIMEOUT, Sub(deadline, at)));
      if t.failure.None? then Stop(Trace(Ok(()), [call], at + t.loading))
      else
        var check := at + t.loading + t.beforeCheck;
        var sleep := Min(interval, Sub(deadline, check));
        if sleep <= 0 then Stop(Trace(Err(TimedOut(overall, n + 1, t.failure.value)), [call], check))
        else Again(call, check + sleep + t.oversleep)
  }

  /** The rounds from the n-th on. */
  function Rounds(n: nat, now: Time, deadline: Time, overall: Duration, interval: Duration, last: Option<LoadError>,
                  turns: nat -> Turn): Trace
    decreases if now < deadline then deadline - now else 0
  {
    match OneRound(n, now, deadline, overall, interval, last, turns(n))
    case Stop(trace) => trace
    case Again(call, next) =>
      var rest := Rounds(n + 1, next, deadline, overall, interval, turns(n).failure, turns);
      rest.(loads := [call] + rest.loads)
  }

  function After(made: seq<LoadCall>, rest: Trace): Trace {
    rest.(loads := made + rest.loads)
  }

  /** A round that leads to another: its load is made, the rest is to come. */
  lemma RoundAgain(made: seq<LoadCall>, n: nat, now: Time, deadline: Time, overall: Duration, interval: Duration,
                   last: Option<LoadError>, turns: nat -> Turn)
    requires OneRound(n, now, deadline, overall, interval, last, turns(n)).Again?
    ensures var r := OneRound(n, now, deadline, overall, interval, last, turns(n));
            After(made, Rounds(n, now, deadline, overall, interval, last, turns))
            == After(made + [r.call], Rounds(n + 1, r.next, deadline, overall, interval, turns(n).failure, turns))
  {
  }

  lemma {:induction false} RoundStops(made: seq<LoadCall>, n: nat, now: Time, deadline: Time, overall: Duration,
                                      interval: Duration, last: Option<LoadError>, turns: nat -> Turn)
    requires OneRound(n, now, deadline, overall, interval, last, turns(n)).Stop?
    ensures var r := OneRound(n, now, deadline, overall, interval, last, turns(n));
            After(made, Rounds(n, now, deadline, overall, interval, last, turns)) == After(made, r.trace)
  {
  }

  function Retried(start: Time, overall: Duration, interval: Duration, turns: nat -> Turn): Trace {
    Rounds(0, start, start + overall, overall, interval, None, turns)
  }

  /** The clock, which moves on in every operation, and the loads made so far. */
  class Environment {
    var now: Time
    ghost var loads: seq<LoadCall>

    constructor (now: Time)
      ensures this.now == now && loads == []
    {
      this.now, loads := now, [];
    }

    method Read(passed: nat) returns (t: Time)
      modifies this
      ensures t == now == old(now) + passed && loads == old(loads)
    {
      now := now + passed;
      t := now;
    }

    method Load(timeout: Duration, passed: nat, failure: Option<LoadError>) returns (err: Option<LoadError>)
      modifies this
      ensures now == old(now) + passed && loads == old(loads) + [LoadCall(old(now), timeout)] && err == failure
    {
      loads := loads + [LoadCall(now, timeout)];
      now := now + passed;
      err := failure;
    }

    method Sleep(d: Duration, oversleep: nat)
      requires d > 0
      modifies this
      ensures now == old(now) + d + oversleep && loads == old(loads)
    {
      now := now + d + oversleep;
    }
  }

  /** One round, as the loop body makes it. */
  method TryOnce(env: Environment, attempt: nat, deadline: Time, overall: Duration, interval: Duration,
                 lastErr: Option<LoadError>, turn: Turn)
    returns (done: bool, r: Result<(), RetryError>, err: Option<LoadError>)
    requires attempt > 0
    modifies env
    ensures match OneRound(attempt - 1, old(env.now), deadline, overall, interval, lastErr, turn)
            case Stop(trace) =>
              done && r == trace.result && env.loads == old(env.loads) + trace.loads && env.now == trace.end
            case Again(call, next) =>
              !done && err == turn.failure && env.loads == old(env.loads) + [call] && env.now == next
  {
    done, err := true, lastErr;
    var at := env.Read(turn.beforeReading);
    var remaining := Sub(deadline, at);
    if remaining <= 0 {
      if lastErr.Some? {
        r := Err(TimedOut(overall, attempt - 1, lastErr.value));
        return;
      }
      r := Err(TimedOutWaiting(overall));
      return;
    }
    var timeout := LOAD_TIMEOUT;
    if remaining < timeout {
      timeout := remaining;
    }
    err := env.Load(timeout, turn.loading, turn.failure);
    if err.None? {
      r := Ok(());
      return;
    }
    var sleep := interval;
    var check := env.Read(turn.beforeCheck);
    if Sub(deadline, check) < sleep {
      sleep := Sub(deadline, check);
    }
    r := Err(TimedOut(overall, attempt, err.value));
    if sleep <= 0 {
      return;
    }
    env.Sleep(sleep, turn.oversleep);
    done := false;
  }

  method LoadWithRetry(env: Environment, overall: Duration, interval: Duration, turns: nat -> Turn)
      returns (r: Result<(), RetryError>)
    modifies env
    ensures var trace := Retried(old(env.now), overall, interval, turns);
            r == trace.result && env.loads == old(env.loads) + trace.loads && env.now == trace.end
  {
    var start := env.Read(0);
    var deadline := start + overall;
    var lastErr: Option<LoadError> := None;
    var attempt: nat := 0;
    while true
      invariant After(old(env.loads), Retried(old(env.now), overall, interval, turns))
             == After(env.loads, Rounds(attempt, env.now, deadline, overall, interval, lastErr, turns))
      decreases if env.now < deadline then deadline - env.now else 0
    {
      ghost var made, n, now, last := env.loads, attempt, env.now, lastErr;
      attempt := attempt + 1;
      var done, result, err := TryOnce(env, attempt, deadline, overall, interval, lastErr, turns(attempt - 1));
      if done {
        RoundStops(made, n, now, deadline, overall, interval, last, turns);
        return result;
      }
      RoundAgain(made, n, now, deadline, overall, interval, last, turns);
      lastErr := err;
    }
  }

  // ----- what the loop promises -----

  /** The number of intervals that begin within the overall time. */
  function Intervals(overall: int, interval: int): nat
    requires interval > 0
    decreases if overall > 0 then overall else 0
  {
    if overall <= 0 then 0 else 1 + Intervals(overall - interval, interval)
  }

  /** It is the quotient rounded up. */
  lemma {:induction false} IntervalsRoundUp(overall: int, interval: int)
    requires interval > 0 && overall > 0
    ensures var k := Intervals(overall, interval); (k - 1) * interval < overall <= k * interval
    decreases overall
  {
    if overall > interval {
      IntervalsRoundUp(overall - interval, interval);
    }
  }

  lemma {:induction false} IntervalsMonotone(a: int, b: int, interval: int)
    requires interval > 0 && a <= b
    ensures Intervals(a, interval) <= Intervals(b, interval)
    decreases if b > 0 then b else 0
  {
    if a > 0 {
      IntervalsMonotone(a - interval, b - interval, interval);
    }
  }

  /** The next round starts an interval later, or too late. */
  lemma AgainLater(n: nat, now: Time, deadline: Time, overall: Duration, interval: Duration, last: Option<LoadError>,
                   t: Turn)
    requires OneRound(n, now, deadline, overall, interval, last, t).Again?
    ensures var r := OneRound(n, now, deadline, overall, interval, last, t);
            && t.failure.Some? && 0 < interval && CallWithin(r.call, now, deadline)
            && (r.next >= r.call.at + interval || r.next >= deadline)
  {
  }

  /** A load is given ten seconds, or what is left until the deadline if that is less. */
  ghost predicate CallWithin(call: LoadCall, from: Time, deadline: Time) {
    && from <= call.at < deadline && 0 < call.timeout
    && call.timeout == if deadline - call.at < 10_000_000_000 then deadline - call.at else 10_000_000_000
  }

  lemma {:induction false} RoundsBound(n: nat, now: Time, deadline: Time, overall: Duration, interval: Duration,
                                       last: Option<LoadError>, turns: nat -> Turn)
    ensures var loads := |Rounds(n, now, deadline, overall, interval, last, turns).loads|;
            && (now >= deadline ==> loads == 0)
            && (interval <= 0 ==> loads <= 1)
            && (interval > 0 ==> loads <= Intervals(deadline - now, interval))
    decreases if now < deadline then deadline - now else 0
  {
    var r := OneRound(n, now, deadline, overall, interval, last, turns(n));
    if r.Again? {
      AgainLater(n, now, deadline, overall, interval, last, turns(n));
      RoundsBound(n + 1, r.next, deadline, overall, interval, turns(n).failure, turns);
      if r.next < deadline {
        IntervalsMonotone(deadline - r.next, deadline - now - interval, interval);
      }
    }
  }

  /** However the clock moves and however often the load fails, no more loads are made than
      intervals begin before the deadline; at most one when there is no interval to wait. */
  lemma {:induction false} LoadsBounded(start: Time, overall: Duration, interval: Duration, turns: nat -> Turn)
    ensures var loads := |Retried(start, overall, interval, turns).loads|;
            if overall <= 0 then loads == 0
            else if interval <= 0 then loads <= 1
            else loads <= Intervals(overall, interval)
  {
    RoundsBound(0, start, start + overall, overall, interval, None, turns);
  }

  ghost predicate Idle(turns: nat -> Turn) {
    forall n :: turns(n).failure.Some? && turns(n).beforeReading == turns(n).loading == turns(n).beforeCheck
        == turns(n).oversleep == 0
  }

  lemma {:induction false} RoundsReached(n: nat, now: Time, deadline: Time, overall: Duration, interval: Duration,
                                         last: Option<LoadError>, turns: nat -> Turn)
    requires Idle(turns) && interval > 0 && deadline - now <= MAX_DURATION
    ensures |Rounds(n, now, deadline, overall, interval, last, turns).loads| == Intervals(deadline - now, interval)
    decreases if now < deadline then deadline - now else 0
  {
    if now < deadline {
      var next := now + Min(interval, Sub(deadline, now));
      RoundsReached(n + 1, next, deadline, overall, interval, turns(n).failure, turns);
    }
  }

  /** The bound is the best one: it is reached when every load fails at once and sleeps are
      exact. */
  lemma {:induction false} BoundReached(start: Time, overall: Duration, interval: Duration, turns: nat -> Turn)
    requires Idle(turns) && interval > 0
    ensures |Retried(start, overall, interval, turns).loads| == Intervals(overall, interval)
  {
    RoundsReached(0, start, start + overall, overall, interval, None, turns);
  }

  /** Loads made before this round, and how the last one failed. */
  ghost predicate History(n: nat, last: Option<LoadError>, turns: nat -> Turn) {
    && last == (if n > 0 then turns(n - 1).failure else None)
    && AllFail(n, turns)
  }

  ghost predicate AllFail(n: nat, turns: nat -> Turn) {
    forall j: nat | j < n :: turns(j).failure.Some?
  }

  /** What a result says about the number of loads made. */
  ghost predicate Tells(result: Result<(), RetryError>, overall: Duration, made: nat, turns: nat -> Turn) {
    match result
    case Ok(_) => made > 0 && turns(made - 1).failure == None && AllFail(made - 1, turns)
    case Err(TimedOutWaiting(o)) => o == overall && made == 0
    case Err(TimedOut(o, attempts, last)) =>
      o == overall && attempts == made > 0 && turns(made - 1).failure == Some(last) && AllFail(made, turns)
  }

  lemma StopTells(n: nat, now: Time, deadline: Time, overall: Duration, interval: Duration, last: Option<LoadError>,
                  turns: nat -> Turn)
    requires History(n, last, turns) && OneRound(n, now, deadline, overall, interval, last, turns(n)).Stop?
    ensures var trace := OneRound(n, now, deadline, overall, interval, last, turns(n)).trace;
            Tells(trace.result, overall, n + |trace.loads|, turns)
  {
  }

  lemma {:induction false} RoundsTell(n: nat, now: Time, deadline: Time, overall: Duration, interval: Duration,
                                      last: Option<LoadError>, turns: nat -> Turn)
    requires History(n, last, turns)
    ensures var trace := Rounds(n, now, deadline, overall, interval, last, turns);
            Tells(trace.result, overall, n + |trace.loads|, turns)
    decreases if now < deadline then deadline - now else 0
  {
    var r := OneRound(n, now, deadline, overall, interval, last, turns(n));
    if r.Again? {
      AgainLater(n, now, deadline, overall, interval, last, turns(n));
      RoundsTell(n + 1, r.next, deadline, overall, interval, turns(n).failure, turns);
    } else {
      StopTells(n, now, deadline, overall, interval, last, turns);
    }
  }

  /** The count in an error is the number of loads made, all of which failed, and its cause
      is the last failure; the error without a count means no load was made; success means
      the last load, and only that one, succeeded. */
  lemma ResultTells(start: Time, overall: Duration, interval: Duration, turns: nat -> Turn)
    ensures var trace := Retried(start, overall, interval, turns);
            Tells(trace.result, overall, |trace.loads|, turns)
  {
    RoundsTell(0, start, start + overall, overall, interval, None, turns);
  }

  /** Every load keeps within the deadline and the loads are an interval apart. */
  ghost predicate Timely(loads: seq<LoadCall>, from: Time, deadline: Time, interval: Duration) {
    && (forall j | 0 <= j < |loads| :: CallWithin(loads[j], from, deadline))
    && (forall j | 0 < j < |loads| :: loads[j - 1].at + interval <= loads[j].at)
  }

  lemma TimelyCons(call: LoadCall, rest: seq<LoadCall>, from: Time, next: Time, deadline: Time, interval: Duration)
    requires CallWithin(call, from, deadline) && Timely(rest, next, deadline, interval) && from <= next
    requires rest != [] ==> next >= call.at + interval
    ensures Timely([call] + rest, from, deadline, interval)
  {
  }

  lemma {:induction false} RoundsTimely(n: nat, now: Time, deadline: Time, overall: Duration, interval: Duration,
                                        last: Option<LoadError>, turns: nat -> Turn)
    ensures var trace := Rounds(n, now, deadline, overall, interval, last, turns);
            Timely(trace.loads, now, deadline, interval)
                && (trace.result.Err? && interval > 0 ==> trace.end >= deadline)
    decreases if now < deadline then deadline - now else 0
  {
    var r := OneRound(n, now, deadline, overall, interval, last, turns(n));
    if r.Again? {
      AgainLater(n, now, deadline, overall, interval, last, turns(n));
      RoundsTimely(n + 1, r.next, deadline, overall, interval, turns(n).failure, turns);
      RoundsBound(n + 1, r.next, deadline, overall, interval, turns(n).failure, turns);
      TimelyCons(r.call, Rounds(n + 1, r.next, deadline, overall, interval, turns(n).failure, turns).loads, now, r.next,
                 deadline, interval);
    }
  }

  /** No load is given time beyond the deadline, loads never come closer together than the
      interval, and with an interval to wait there is no giving up before the deadline. */
  lemma RetryTimely(start: Time, overall: Duration, interval: Duration, turns: nat -> Turn)
    ensures var trace := Retried(start, overall, interval, turns);
            && Timely(trace.loads, start, start + overall, interval)
            && (trace.result.Err? && interval > 0 ==> trace.end >= start + overall)
  {
    RoundsTimely(0, start, start + overall, overall, interval, None, turns);
  }

  // ----- and not for longer -----

  /** No round takes more than so much time besides its sleep. */
  ghost predicate Brisk(turns: nat -> Turn, most: nat) {
    forall n :: turns(n).beforeReading + turns(n).loading + turns(n).beforeCheck + turns(n).oversleep <= most
  }

  lemma RoundEnds(n: nat, now: Time, deadline: Time, overall: Duration, interval: Duration, last: Option<LoadError>,
                  t: Turn, most: nat)
    requires t.beforeReading + t.loading + t.beforeCheck + t.oversleep <= most
    ensures match OneRound(n, now, deadline, overall, interval, last, t)
            case Stop(trace) => trace.end <= (if now < deadline then deadline else now) + most
            case Again(_, next) => next <= deadline + most
  {
  }

  lemma {:induction false} RoundsEnd(n: nat, now: Time, deadline: Time, overall: Duration, interval: Duration,
                                     last: Option<LoadError>, turns: nat -> Turn, most: nat)
    requires Brisk(turns, most) && now <= deadline + most
    ensures Rounds(n, now, deadline, overall, interval, last, turns).end <= deadline + 2 * most
    decreases if now < deadline then deadline - now else 0
  {
    var r := OneRound(n, now, deadline, overall, interval, last, turns(n));
    RoundEnds(n, now, deadline, overall, interval, last, turns(n), most);
    if r.Again? {
      RoundsEnd(n + 1, r.next, deadline, overall, interval, turns(n).failure, turns, most);
    }
  }

  /** Sleeps never reach past the deadline: the loop is over there, but for what two rounds take
      besides their sleep. */
  lemma RetryEndsInTime(start: Time, overall: Duration, interval: Duration, turns: nat -> Turn, most: nat)
    requires Brisk(turns, most) && overall >= 0
    ensures Retried(start, overall, interval, turns).end <= start + overall + 2 * most
  {
    RoundsEnd(0, start, start + overall, overall, interval, None, turns, most);
  }
}
