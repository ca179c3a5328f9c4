/**
 * The clock sanity check (clockcheck.c): the advance of the synchronized clock is compared with that of the
 * monotonic clock. Frequencies are in ppb; quotients are taken in real arithmetic.
 */
module ClockCheck {
  import opened Tmv

  const CHECK_MIN_INTERVAL := 1_000_000_000
  const CHECK_MAX_FREQ := 900_000_000
  const PPB := 1_000_000_000

  datatype Check = Check(limit: int, known: bool, current: int, max: int, min: int, lastTs: int, lastMono: int)

  /** How far a clock with correction freq runs ahead of the monotonic clock when it gains 1 + freq per tick. */
  function Rate(freq: int): real { 1.0 + freq as real / PPB as real }

  /** The measured offset in ppb, once the correction is taken out. */
  function Offset(interval: int, freq: int, mono: int): real
    requires freq > -PPB && mono > 0
  {
    PPB as real * (interval as real / Rate(freq) / mono as real - 1.0)
  }

  // ----- the operations on values

  function AfterReset(c: Check): Check {
    c.(known := false, max := -CHECK_MAX_FREQ, min := CHECK_MAX_FREQ, lastTs := 0)
  }

  function AfterSetFreq(c: Check, freq: int): Check {
    c.(max := if c.max < freq then freq else c.max, min := if c.min > freq then freq else c.min,
       current := freq, known := true)
  }

  function AfterStep(c: Check, step: int): Check {
    if c.lastTs != 0 then c.(lastTs := ToU64(c.lastTs + step)) else c
  }

  function Interval(c: Check, ts: int): int { ToI64(ts - c.lastTs) }

  /** Whether a sample is far enough from the last recorded one to be recorded. */
  predicate Records(c: Check, ts: int, mono: int) {
    && c.known
    && !(0 <= Interval(c, ts) < CHECK_MIN_INTERVAL)
    && mono - c.lastMono >= CHECK_MIN_INTERVAL
  }

  function AfterSample(c: Check, ts: int, mono: int): Check {
    if Records(c, ts, mono) then c.(lastMono := mono, lastTs := ts, max := c.current, min := c.current) else c
  }

  predicate Alarm(c: Check, ts: int, mono: int)
    requires c.min > -PPB && c.max > -PPB
  {
    && Records(c, ts, mono) && c.lastTs != 0 && c.max <= CHECK_MAX_FREQ
    && (|| Offset(Interval(c, ts), c.max, mono - c.lastMono) > c.limit as real
        || Offset(Interval(c, ts), c.min, mono - c.lastMono) < -(c.limit as real))
  }

  class ClockCheck {
    const limit: int
    var known: bool
    var current: int
    var max: int
    var min: int
    var lastTs: int
    var lastMono: int

    ghost function State(): Check
      reads this
    {
      Check(limit, known, current, max, min, lastTs, lastMono)
    }

    constructor (freqLimit: int)
      ensures State() == Initial(freqLimit)
    {
      limit := freqLimit;
      current, lastMono := 0, 0;
      known, max, min, lastTs := false, -CHECK_MAX_FREQ, CHECK_MAX_FREQ, 0;
    }

    method Reset()
      modifies this
      ensures State() == AfterReset(old(State()))
    {
      known, max, min, lastTs := false, -CHECK_MAX_FREQ, CHECK_MAX_FREQ, 0;
    }

    /** clockcheck_sample, given the reading of the monotonic clock; the result tells if there is an alarm. */
    method Sample(ts: int, mono: int) returns (alarm: bool)
      requires min > -PPB && max > -PPB
      modifies this
      ensures State() == AfterSample(old(State()), ts, mono)
      ensures alarm == Alarm(old(State()), ts, mono)
      ensures var interval := ToI64(ts - old(lastTs));
              if !old(known) || 0 <= interval < 1_000_000_000 || mono - old(lastMono) < 1_000_000_000 then
                State() == old(State()) && !alarm
              else lastTs == ts && lastMono == mono && max == min == current == old(current)
    {
      alarm := false;
      if !known {
        return;
      }
      var interval := ToI64(ts - lastTs);
      if interval >= 0 && interval < CHECK_MIN_INTERVAL {
        return;
      }
      var monoInterval := mono - lastMono;
      if monoInterval < CHECK_MIN_INTERVAL {
        return;
      }
      if lastTs != 0 && max <= CHECK_MAX_FREQ {
        var maxOffset := PPB as real * (interval as real / (1.0 + min as real / PPB as real) / monoInterval as real - 1.0);
        var minOffset := PPB as real * (interval as real / (1.0 + max as real / PPB as real) / monoInterval as real - 1.0);
        if minOffset > limit as real {
          alarm := true;
        } else if maxOffset < -(limit as real) {
          alarm := true;
        }
      }
      lastMono, lastTs := mono, ts;
      max, min := current, current;
    }

    method SetFreq(freq: int)
      modifies this
      ensures State() == AfterSetFreq(old(State()), freq)
    {
      if max < freq {
        max := freq;
      }
      if min > freq {
        min := freq;
      }
      current, known := freq, true;
    }

    method Step(step: int)
      modifies this
      ensures State() == AfterStep(old(State()), step)
    {
      if lastTs != 0 {
        lastTs := ToU64(lastTs + step);
      }
    }
  }

  function Initial(limit: int): Check {
    Check(limit, false, 0, -CHECK_MAX_FREQ, CHECK_MAX_FREQ, 0, 0)
  }

  // ----- runs against a clock

  /** What the fastest clock within the limit gains in mono ticks with a correction, and the slowest. */
  function Fastest(limit: int, freq: int, mono: int): real {
    (1.0 + limit as real / 1_000_000_000.0) * (1.0 + freq as real / 1_000_000_000.0) * mono as real
  }

  function Slowest(limit: int, freq: int, mono: int): real {
    (1.0 - limit as real / 1_000_000_000.0) * (1.0 + freq as real / 1_000_000_000.0) * mono as real
  }

  lemma BoundsByRate(limit: int, freq: int, mono: int)
    ensures Fastest(limit, freq, mono) == Rate(limit) * Rate(freq) * mono as real
    ensures Slowest(limit, freq, mono) == Rate(-limit) * Rate(freq) * mono as real
  {
    assert PPB as real == 1_000_000_000.0;
  }

  /**
   * The monotonic and the synchronized clock run on. The latter's own rate is off by some e, its correction is the
   * last one set, so gained == (1 + e) * (1 + freq) * mono; the rate may be different in every such event.
   */
  datatype Event =
    | Run(mono: nat, gained: int)
    | SetFreq(freq: int)
    | Step(step: int)
    | Reset
    | Sample

  /** The check, the two clocks and the correction in force; since is what the clock gained since the last record. */
  datatype World = World(check: Check, mono: int, clock: int, freq: int, since: int)

  function Apply(w: World, e: Event): World {
    match e
    case Run(mono, gained) => w.(mono := w.mono + mono, clock := w.clock + gained, since := w.since + gained)
    case SetFreq(freq) => w.(check := AfterSetFreq(w.check, freq), freq := freq)
    case Step(step) => w.(check := AfterStep(w.check, step), clock := w.clock + step)
    case Reset => w.(check := AfterReset(w.check))
    case Sample =>
      w.(check := AfterSample(w.check, ToU64(w.clock), w.mono),
         since := if Records(w.check, ToU64(w.clock), w.mono) then 0 else w.since)
  }

  /** The clock keeps within the limit, and its corrections above -100 %. */
  ghost predicate Proper(w: World, e: Event) {
    match e
    case Run(mono, gained) =>
      Slowest(w.check.limit, w.freq, mono) <= gained as real <= Fastest(w.check.limit, w.freq, mono)
    case SetFreq(freq) => freq > -PPB
    case Step(step) => true
    case Reset => true
    case Sample => w.check.lastTs != 0 ==> w.since < TWO_63
  }

  ghost predicate ProperRun(w: World, es: seq<Event>)
    decreases |es|
  {
    es == [] || (Proper(w, es[0]) && ProperRun(Apply(w, es[0]), es[1..]))
  }

  ghost predicate Quiet(w: World, es: seq<Event>)
    decreases |es|
  {
    || es == []
    || (&& (es[0].Sample? ==> w.check.min > -PPB && w.check.max > -PPB && !Alarm(w.check, ToU64(w.clock), w.mono))
        && Quiet(Apply(w, es[0]), es[1..]))
  }

  /** The recorded time stamp lies since behind the clock, and since is within what the corrections allow. */
  ghost predicate Tracks(w: World) {
    var c := w.check;
    && 0 <= c.limit <= PPB && c.min > -PPB && c.max > -PPB && w.freq > -PPB
    && (c.known ==> c.current == w.freq)
    && (c.lastTs != 0 ==>
          && c.known && c.min <= c.current <= c.max && c.lastMono <= w.mono
          && c.lastTs == ToU64(w.clock - w.since)
          && Slowest(c.limit, c.min, w.mono - c.lastMono) <= w.since as real
          && w.since as real <= Fastest(c.limit, c.max, w.mono - c.lastMono))
  }

  lemma Product(a: real, b: real, c: real)
    requires a >= 0.0 && b <= c
    ensures a * b <= a * c && b * a <= c * a
  {
    assert a * (c - b) >= 0.0;
  }

  /** Both bounds move with the correction in the same direction. */
  lemma BoundsMonotone(limit: int, f: int, g: int, mono: nat)
    requires 0 <= limit <= PPB && -PPB < f <= g
    ensures Fastest(limit, f, mono) <= Fastest(limit, g, mono)
    ensures 0.0 <= Slowest(limit, f, mono) <= Slowest(limit, g, mono)
  {
    BoundsByRate(limit, f, mono);
    BoundsByRate(limit, g, mono);
    hide Fastest, Slowest;
    assert 0.0 < Rate(f) <= Rate(g) && 0.0 <= Rate(-limit) && 0.0 <= Rate(limit);
    Products(Rate(limit), Rate(f), Rate(g), mono as real);
    Products(Rate(-limit), Rate(f), Rate(g), mono as real);
  }

  lemma Products(l: real, a: real, b: real, m: real)
    requires l >= 0.0 && 0.0 <= a <= b && m >= 0.0
    ensures 0.0 <= l * a * m <= l * b * m
  {
    Product(l, 0.0, a);
    Product(l, a, b);
    Product(m, 0.0, l * a);
    Product(m, l * a, l * b);
  }

  lemma BoundsAdd(limit: int, f: int, a: nat, b: nat)
    ensures Fastest(limit, f, a + b) == Fastest(limit, f, a) + Fastest(limit, f, b)
    ensures Slowest(limit, f, a + b) == Slowest(limit, f, a) + Slowest(limit, f, b)
  {
    hide Rate, Fastest, Slowest;
    BoundsByRate(limit, f, a);
    BoundsByRate(limit, f, b);
    BoundsByRate(limit, f, a + b);
    Distributes(Rate(limit) * Rate(f), a as real, b as real);
    Distributes(Rate(-limit) * Rate(f), a as real, b as real);
  }

  lemma Distributes(k: real, a: real, b: real)
    ensures k * (a + b) == k * a + k * b
  {
  }

  /** An offset above the limit says just that the clock gained more than the fastest could have. */
  lemma OffsetAbove(interval: int, freq: int, mono: int, limit: int)
    requires freq > -PPB && mono > 0
    ensures Offset(interval, freq, mono) > limit as real <==> interval as real > Fastest(limit, freq, mono)
    ensures Offset(interval, freq, mono) < -(limit as real) <==> (interval as real) < Slowest(limit, freq, mono)
  {
    var r, m, x := Rate(freq), mono as real, interval as real;
    var q := x / r / m;
    BoundsByRate(limit, freq, mono);
    QuotientOfBoth(x, r, m);
    Regrouped(Rate(limit), r, m);
    Regrouped(Rate(-limit), r, m);
    Threshold(q, r * m, x, Rate(limit), limit, Fastest(limit, freq, mono));
    Threshold(q, r * m, x, Rate(-limit), -limit, Slowest(limit, freq, mono));
  }

  lemma Threshold(q: real, k: real, x: real, rate: real, limit: int, bound: real)
    requires k > 0.0 && q * k == x && rate == Rate(limit) && bound == rate * k
    ensures PPB as real * (q - 1.0) > limit as real <==> x > bound
    ensures PPB as real * (q - 1.0) < limit as real <==> x < bound
  {
    Scaled(q, rate, k);
    assert PPB as real * (q - 1.0) > limit as real <==> q > rate;
    assert PPB as real * (q - 1.0) < limit as real <==> q < rate;
  }

  lemma QuotientOfBoth(x: real, r: real, m: real)
    requires r > 0.0 && m > 0.0
    ensures r * m > 0.0 && x / r / m * (r * m) == x
  {
    var q := x / r / m;
    assert q * m == x / r;
    assert q * m * r == x;
    assert q * (r * m) == q * m * r;
  }

  lemma Regrouped(a: real, b: real, c: real)
    ensures a * b * c == a * (b * c)
  {
  }

  lemma Scaled(p: real, q: real, k: real)
    ensures k > 0.0 ==> (p * k > q * k <==> p > q) && (p * k < q * k <==> p < q)
  {
    if k > 0.0 {
      assert (p - q) * k == p * k - q * k;
    }
  }

  /** An alarm means that the clock gained more or less since the last record than any clock within the limit. */
  lemma AlarmExactly(c: Check, ts: int, mono: int)
    requires c.min > -PPB && c.max > -PPB
    ensures Alarm(c, ts, mono) <==>
              && Records(c, ts, mono) && c.lastTs != 0 && c.max <= CHECK_MAX_FREQ
              && (|| Interval(c, ts) as real > Fastest(c.limit, c.max, mono - c.lastMono)
                  || (Interval(c, ts) as real) < Slowest(c.limit, c.min, mono - c.lastMono))
  {
    hide Offset, Fastest, Slowest;
    if Records(c, ts, mono) {
      OffsetAbove(Interval(c, ts), c.max, mono - c.lastMono, c.limit);
      OffsetAbove(Interval(c, ts), c.min, mono - c.lastMono, c.limit);
    }
  }

  /** In particular a clock that has gone back since the last record, by however little, raises an alarm. */
  lemma BackwardRaisesAlarm(c: Check, ts: int, mono: int)
    requires c.known && c.lastTs != 0 && Interval(c, ts) < 0 && mono - c.lastMono >= CHECK_MIN_INTERVAL
    requires 0 <= c.limit <= PPB && -PPB < c.min && -PPB < c.max <= CHECK_MAX_FREQ
    ensures Alarm(c, ts, mono)
  {
    AlarmExactly(c, ts, mono);
    BoundsMonotone(c.limit, c.min, c.min, mono - c.lastMono);
  }

  lemma SinceIsInterval(w: World)
    requires Tracks(w) && w.check.lastTs != 0 && w.since < TWO_63
    ensures Interval(w.check, ToU64(w.clock)) == w.since
  {
    BoundsMonotone(w.check.limit, w.check.min, w.check.min, w.mono - w.check.lastMono);
    assert w.since >= 0;
    WrapDifference(w.clock, w.since);
  }

  lemma TracksStep(w: World, e: Event)
    requires Tracks(w) && Proper(w, e)
    ensures Tracks(Apply(w, e))
  {
    hide Fastest, Slowest, ToU64, ToI64;
    var c := w.check;
    match e
    case Run(mono, gained) =>
      if c.lastTs != 0 {
        BoundsAdd(c.limit, c.max, w.mono - c.lastMono, mono);
        BoundsAdd(c.limit, c.min, w.mono - c.lastMono, mono);
        BoundsMonotone(c.limit, w.freq, c.max, mono);
        BoundsMonotone(c.limit, c.min, w.freq, mono);
      }
    case SetFreq(freq) =>
      if c.lastTs != 0 {
        BoundsMonotone(c.limit, c.max, if c.max < freq then freq else c.max, w.mono - c.lastMono);
        BoundsMonotone(c.limit, if c.min > freq then freq else c.min, c.min, w.mono - c.lastMono);
      }
    case Step(step) =>
      WrapAdds(w.clock - w.since, step);
    case Reset =>
    case Sample =>
      NothingGained(c.limit, c.current);
  }

  lemma NothingGained(limit: int, freq: int)
    ensures Fastest(limit, freq, 0) == 0.0 == Slowest(limit, freq, 0)
  {
  }

  /** On every run of a clock that keeps within the limit, no sample raises an alarm. */
  lemma {:induction false} NoFalseAlarm(w: World, es: seq<Event>)
    requires Tracks(w) && ProperRun(w, es)
    ensures Quiet(w, es)
    decreases |es|
  {
    hide Tracks, Alarm, Apply;
    if es != [] {
      if es[0].Sample? {
        NoAlarmNow(w);
      }
      TracksStep(w, es[0]);
      NoFalseAlarm(Apply(w, es[0]), es[1..]);
    }
  }

  lemma NoAlarmNow(w: World)
    requires Tracks(w) && Proper(w, Sample)
    ensures w.check.min > -PPB && w.check.max > -PPB && !Alarm(w.check, ToU64(w.clock), w.mono)
  {
    hide Fastest, Slowest, ToU64, ToI64, Interval;
    AlarmExactly(w.check, ToU64(w.clock), w.mono);
    if w.check.lastTs != 0 {
      SinceIsInterval(w);
    }
  }

  /** Every run starts like this: with a fresh check, at any time, and with any correction not yet reported. */
  lemma RunsStartTracked(limit: int, mono: int, clock: int, freq: int, es: seq<Event>)
    requires 0 <= limit <= PPB && freq > -PPB
    requires ProperRun(World(Initial(limit), mono, clock, freq, 0), es)
    ensures Quiet(World(Initial(limit), mono, clock, freq, 0), es)
  {
    NoFalseAlarm(World(Initial(limit), mono, clock, freq, 0), es);
  }
}
