/** Time values (tmv.h): 64-bit nanosecond counts, wire time stamps and scaled correction fields. */
module Tmv {
  const TWO_16 := 0x1_0000
  const TWO_32 := 0x1_0000_0000
  const TWO_63 := 0x8000_0000_0000_0000
  const TWO_64 := 0x1_0000_0000_0000_0000
  const NS_PER_SEC := 1_000_000_000

  /** The smallest and largest nanosecond counts a TimeInterval (nanoseconds << 16) can hold. */
  const MIN_INTERVAL_NS := -0x8000_0000_0000
  const MAX_INTERVAL_NS := 0x7FFF_FFFF_FFFF

  predicate IsU64(x: int) { 0 <= x < TWO_64 }

  predicate IsI64(x: int) { -TWO_63 <= x < TWO_63 }

  /** Conversion to uint64_t. */
  function ToU64(x: int): (u: int)
    ensures IsU64(u)
    ensures IsU64(x) ==> u == x
  {
    x % TWO_64
  }

  /** Conversion to int64_t on a two's complement machine. */
  function ToI64(x: int): (i: int)
    ensures IsI64(i)
    ensures IsI64(x) ==> i == x
  {
    var u := x % TWO_64;
    if u < TWO_63 then u else u - TWO_64
  }

  lemma Remainder(x: int, k: int)
    ensures (x + k * TWO_64) % TWO_64 == x % TWO_64
  {
    var q, q' := x / TWO_64, (x + k * TWO_64) / TWO_64;
    assert x == q * TWO_64 + x % TWO_64 && x + k * TWO_64 == q' * TWO_64 + (x + k * TWO_64) % TWO_64;
    assert (q' - q - k) * TWO_64 == x % TWO_64 - (x + k * TWO_64) % TWO_64;
  }

  /** The conversion takes away a whole number of wraps. */
  lemma Wraps(x: int)
    ensures ToU64(x) == x - (x / TWO_64) * TWO_64
  {
  }

  /** Wrap-around on the way does not disturb sums and differences. */
  lemma WrapCancels(y: int, offset: int)
    ensures ToI64(ToU64(y - offset) - y) == ToI64(-offset)
  {
    hide ToU64;
    Wraps(y - offset);
    Remainder(-offset, -((y - offset) / TWO_64));
  }

  lemma WrapDifference(y: int, offset: int)
    ensures ToI64(ToU64(y) - ToU64(y - offset)) == ToI64(offset)
  {
    hide ToU64;
    Wraps(y);
    Wraps(y - offset);
    Remainder(offset, (y - offset) / TWO_64 - y / TWO_64);
  }

  lemma WrapAdds(x: int, step: int)
    ensures ToU64(ToU64(x) + step) == ToU64(x + step)
  {
    Wraps(x);
    Remainder(x + step, -(x / TWO_64));
  }

  /** The cast from double to an integer type drops the fraction. */
  function Truncate(r: real): (i: int)
    ensures r >= 0.0 ==> i as real <= r < i as real + 1.0
    ensures r < 0.0 ==> i as real - 1.0 < r <= i as real
  {
    if r >= 0.0 then r.Floor else -((-r).Floor)
  }

  /** C's integer division. */
  function TruncDiv(a: int, b: int): (q: int)
    requires b > 0
    ensures a >= 0 ==> q * b <= a < (q + 1) * b
    ensures a < 0 ==> (q - 1) * b < a <= q * b
  {
    if a >= 0 then a / b else -((-a) / b)
  }

  function Add(a: int, b: int): int { ToI64(a + b) }

  function Sub(a: int, b: int): int { ToI64(a - b) }

  datatype Timestamp = Timestamp(secondsMsb: int, secondsLsb: int, nanoseconds: int)

  function ToTimestamp(ns: int): Timestamp {
    var u := ToU64(ns);
    var sec := u / NS_PER_SEC;
    Timestamp((sec / TWO_32) % TWO_16, sec % TWO_32, u % NS_PER_SEC)
  }

  /** The host form that timestamp_post_recv assembles from the three wire fields. */
  datatype HostTimestamp = HostTimestamp(sec: int, nsec: int)

  function Assemble(t: Timestamp): HostTimestamp {
    HostTimestamp(t.secondsLsb + t.secondsMsb * TWO_32, t.nanoseconds)
  }

  function FromTimestamp(t: HostTimestamp): int {
    ToI64(t.sec * NS_PER_SEC + t.nsec)
  }

  /** Every 64-bit time value survives the wire format, negative ones included. */
  lemma TimestampRoundTrip(ns: int)
    requires IsI64(ns)
    ensures FromTimestamp(Assemble(ToTimestamp(ns))) == ns
    ensures 0 <= ToTimestamp(ns).nanoseconds < NS_PER_SEC
  {
  }

  function ToTimeInterval(ns: int): (c: int)
    ensures IsI64(c)
  {
    if ns < MIN_INTERVAL_NS then -TWO_63
    else if ns > MAX_INTERVAL_NS then MAX_INTERVAL_NS * TWO_16
    else ns * TWO_16
  }

  /** An arithmetic right shift by 16. */
  function FromCorrection(c: int): (ns: int)
    requires IsI64(c)
    ensures MIN_INTERVAL_NS <= ns <= MAX_INTERVAL_NS
  {
    c / TWO_16
  }

  function Clamp(x: int, lo: int, hi: int): int {
    if x < lo then lo else if x > hi then hi else x
  }

  /** A time value put in a correction field comes back clamped; it comes back unchanged iff it fits. */
  lemma IntervalRoundTrip(ns: int)
    ensures FromCorrection(ToTimeInterval(ns)) == Clamp(ns, MIN_INTERVAL_NS, MAX_INTERVAL_NS)
    ensures FromCorrection(ToTimeInterval(ns)) == ns <==> MIN_INTERVAL_NS <= ns <= MAX_INTERVAL_NS
  {
  }
}
