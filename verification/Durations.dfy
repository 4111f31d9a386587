/** `std::time::Duration` as the client uses it: u64 seconds and nanoseconds below 10^9. */
module Durations {
  import opened Wrappers

  const NANOS_PER_SEC: nat := 1_000_000_000
  const U64_MAX: nat := 0xFFFF_FFFF_FFFF_FFFF

  type U64 = n: nat | n <= U64_MAX
  type Nanos = n: nat | n < NANOS_PER_SEC

  datatype Duration = Duration(secs: U64, nanos: Nanos)

  const ZERO := Duration(0, 0)
  const LONGEST := Duration(U64_MAX, NANOS_PER_SEC - 1)

  /** The meaning of a duration: its length in nanoseconds, without bound. */
  ghost function Total(d: Duration): nat {
    d.secs * NANOS_PER_SEC + d.nanos
  }

  function FromMillis(ms: nat): (d: Duration)
    requires ms / 1000 <= U64_MAX
    ensures Total(d) == ms * 1_000_000
  {
    Duration(ms / 1000, (ms % 1000) * 1_000_000)
  }

  /** The derived `Ord`: seconds first, then nanoseconds. */
  predicate AtMost(a: Duration, b: Duration) {
    a.secs < b.secs || (a.secs == b.secs && a.nanos <= b.nanos)
  }

  lemma OrderIsTotal(a: Duration, b: Duration)
    ensures AtMost(a, b) <==> Total(a) <= Total(b)
    ensures a == b <==> Total(a) == Total(b)
  {
  }

  /** `Ord::min`. */
  function Shorter(a: Duration, b: Duration): (d: Duration)
    ensures Total(d) == Min(Total(a), Total(b))
  {
    OrderIsTotal(a, b);
    if AtMost(a, b) then a else b
  }

  /** `saturating_mul(2)`: the nanoseconds carry into the seconds, either step may overflow. */
  function SaturatingDouble(d: Duration): (r: Duration)
    ensures Total(r) == Min(2 * Total(d), Total(LONGEST))
  {
    var totalNanos := d.nanos * 2;
    var extraSecs := totalNanos / NANOS_PER_SEC;
    var nanos := totalNanos % NANOS_PER_SEC;
    if d.secs * 2 > U64_MAX then LONGEST
    else if d.secs * 2 + extraSecs > U64_MAX then LONGEST
    else Duration(d.secs * 2 + extraSecs, nanos)
  }

  /** `base / 2`: an odd second carries into the nanoseconds. */
  function Half(d: Duration): (r: Duration)
    ensures Total(r) == Total(d) / 2
  {
    var extraSecs := d.secs % 2;
    var extraNanos := d.nanos % 2;
    Duration(d.secs / 2, d.nanos / 2 + (extraSecs * NANOS_PER_SEC + extraNanos) / 2)
  }

  /** `+`, which panics on overflow: callers must stay within the longest duration. */
  function Add(a: Duration, b: Duration): (r: Duration)
    requires Total(a) + Total(b) <= Total(LONGEST)
    ensures Total(r) == Total(a) + Total(b)
  {
    var nanos := a.nanos + b.nanos;
    if nanos < NANOS_PER_SEC then Duration(a.secs + b.secs, nanos)
    else Duration(a.secs + b.secs + 1, nanos - NANOS_PER_SEC)
  }

  function Clamp(unit: real): real {
    if unit < 0.0 then 0.0 else if unit > 1.0 then 1.0 else unit
  }

  /** `mul_f64` by a factor in [0, 1], in exact arithmetic rounded to the nearest nanosecond. */
  function Scale(d: Duration, factor: real): (r: Duration)
    requires 0.0 <= factor <= 1.0
    ensures Total(r) <= Total(d)
    ensures -0.5 <= Total(r) as real - Total(d) as real * factor <= 0.5
  {
    var total := d.secs * NANOS_PER_SEC + d.nanos;
    ScaledBound(total, factor);
    var scaled: nat := (total as real * factor + 0.5).Floor;
    Duration(scaled / NANOS_PER_SEC, scaled % NANOS_PER_SEC)
  }

  lemma ScaledBound(total: nat, factor: real)
    requires 0.0 <= factor <= 1.0
    ensures 0.0 <= total as real * factor <= total as real
    ensures 0 <= (total as real * factor + 0.5).Floor <= total
  {
    var x := total as real * factor;
    assert total as real - x == total as real * (1.0 - factor);
  }
}
