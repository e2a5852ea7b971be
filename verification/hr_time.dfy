/** `hrTimeToNanos` of `src/exporters/otlp-http.ts`: a `[seconds, nanos]`
    high-resolution time rendered as one decimal nanosecond count. */
module HrTime {
  import opened Wrappers
  import Decimal

  const NanosPerSecond: int := 1_000_000_000

  /** A `[seconds, nanoseconds]` pair. */
  datatype HrTime = HrTime(seconds: int, nanos: int)

  /** The pairs the runtime produces: the nanosecond part below one second. */
  predicate Normalized(t: HrTime) {
    0 <= t.nanos < NanosPerSecond
  }

  /** The decimal text of `seconds * 1e9 + nanos`. */
  function HrTimeToNanos(t: HrTime): (s: string)
    ensures Decimal.ParseInt(s) == Some(t.seconds * NanosPerSecond + t.nanos)
  {
    Decimal.IntToStringRoundTrip(t.seconds * NanosPerSecond + t.nanos);
    Decimal.IntToString(t.seconds * NanosPerSecond + t.nanos)
  }

  /** The collector's reading of a nanosecond text back into a pair. */
  function NanosToHrTime(s: string): Option<HrTime> {
    var n :- Decimal.ParseInt(s);
    Some(HrTime(n / NanosPerSecond, n % NanosPerSecond))
  }

  /** A normalized pair survives the trip through its nanosecond text. */
  lemma HrTimeRoundTrip(t: HrTime)
    requires Normalized(t)
    ensures NanosToHrTime(HrTimeToNanos(t)) == Some(t)
  {
    var n := t.seconds * NanosPerSecond + t.nanos;
    assert n / NanosPerSecond == t.seconds;
    assert n % NanosPerSecond == t.nanos;
  }

  /** Distinct normalized pairs render to distinct texts. */
  lemma HrTimeToNanosInjective(a: HrTime, b: HrTime)
    requires Normalized(a) && Normalized(b)
    requires HrTimeToNanos(a) == HrTimeToNanos(b)
    ensures a == b
  {
    HrTimeRoundTrip(a);
    HrTimeRoundTrip(b);
  }
}
