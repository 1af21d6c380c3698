/** Go's time values: durations are 64-bit nanosecond counts, times are instants. */
module GoTime {

  type Int64 = v: int | -0x8000_0000_0000_0000 <= v < 0x8000_0000_0000_0000

  type Duration = Int64

  /** Nanoseconds since Go's zero time; 0 is the zero time itself. */
  type Time = int

  const MILLISECOND: Duration := 1_000_000
  const SECOND: Duration := 1_000_000_000
  const MINUTE: Duration := 60_000_000_000
  const HOUR: Duration := 3_600_000_000_000

  const MAX_DURATION: Duration := 0x7FFF_FFFF_FFFF_FFFF
  const MIN_DURATION: Duration := -0x8000_0000_0000_0000

  /** time.Time.Sub, which saturates. */
  function Sub(t: Time, u: Time): Duration {
    if t - u > MAX_DURATION then MAX_DURATION
    else if t - u < MIN_DURATION then MIN_DURATION
    else t - u
  }

  /** Two's-complement wrap-around of 64-bit arithmetic. */
  function Wrap64(v: int): Int64 {
    var m := v % 0x1_0000_0000_0000_0000;
    if m < 0x8000_0000_0000_0000 then m else m - 0x1_0000_0000_0000_0000
  }

  /** Duration.Hours, as a real. */
  function Hours(d: Duration): real {
    d as real / HOUR as real
  }

  /** The units: a thousand milliseconds, sixty seconds, sixty minutes; and hours are a fraction
      of 3600 seconds. */
  lemma UnitsSpelled(d: Duration)
    ensures MILLISECOND == 1_000_000 && SECOND == 1000 * MILLISECOND && MINUTE == 60 * SECOND && HOUR == 60 * MINUTE
    ensures Hours(d) * 3600.0 * 1_000_000_000.0 == d as real
  {
  }

  /** Wrap-around stays within 64 bits and drops multiples of 2^64 only. */
  lemma WrapsExactly(v: int)
    ensures (Wrap64(v) - v) % 0x1_0000_0000_0000_0000 == 0
    ensures -0x8000_0000_0000_0000 <= v < 0x8000_0000_0000_0000 ==> Wrap64(v) == v
  {
  }

  /** A difference that does not fit in 64 bits becomes the nearest one that does. */
  lemma SubExactly(t: Time, u: Time)
    ensures Sub(t, u) == if t - u > 9_223_372_036_854_775_807 then 9_223_372_036_854_775_807
                         else if t - u < -9_223_372_036_854_775_808 then -9_223_372_036_854_775_808
                         else t - u
  {
  }
}
