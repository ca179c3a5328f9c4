/** The proportional-integral servo core (pi.c), in real arithmetic. */
module PiServo {
  import opened Basics
  import opened ServoTypes

  const FREQ_EST_MARGIN := 0.001
  const MAX_EST_INTERVAL := 1000.0
  const EST_GAIN := 0.016
  const NS := 1_000_000_000.0

  /** How the gains follow from the sync interval; the powers of the interval come from the caller. */
  datatype Gains = Gains(kpScale: real, kpNormMax: real, kiScale: real, kiNormMax: real) {
    predicate NotNegative() { kpScale >= 0.0 && kpNormMax >= 0.0 && kiScale >= 0.0 && kiNormMax >= 0.0 }
  }

  datatype Pi = Pi(offset0: int, local0: int, drift: real, kp: real, ki: real, lastFreq: real, count: nat)

  function Initial(fadj: real): Pi { Pi(0, 0, fadj, 0.0, 0.0, fadj, 0) }

  /** How long to wait for the frequency estimate, in seconds; without an integral gain as long as at most. */
  function EstimateInterval(ki: real): (r: real)
    requires ki >= 0.0
    ensures 0.0 < r <= MAX_EST_INTERVAL
  {
    if ki == 0.0 || EST_GAIN / ki > MAX_EST_INTERVAL then MAX_EST_INTERVAL
    else
      Quotient(EST_GAIN, ki);
      EST_GAIN / ki
  }

  lemma Quotient(a: real, b: real)
    requires a > 0.0 && b > 0.0
    ensures a / b > 0.0
  {
  }

  /** The drift once the frequency offset between two samples is added to it. */
  function Estimate(drift: real, offsets: int, locals: int): real
    requires locals > 0
  {
    drift + (NS - drift) * offsets as real / locals as real
  }

  /** The estimate multiplies the rates: that of the corrected clock with that seen in the offsets. */
  lemma EstimateMultipliesRates(drift: real, offsets: int, locals: int)
    requires locals > 0
    ensures 1.0 - Estimate(drift, offsets, locals) / NS
            == (1.0 - drift / NS) * (1.0 - offsets as real / locals as real)
  {
    var x, o, l := NS - drift, offsets as real, locals as real;
    assert x * o / l == x * (o / l) by {
      assert l * (x * (o / l)) == x * o;
    }
    assert (x - x * (o / l)) == x * (1.0 - o / l);
  }

  /** The proportional or the integral term. */
  function Term(gain: real, offset: int, weight: real): real { gain * offset as real * weight }

  datatype Outcome = Outcome(pi: Pi, ppb: real, state: ServoState)

  predicate LongEnough(ki: real, locals: int)
    requires ki >= 0.0
  {
    var seconds := locals as real / NS;
    seconds + seconds * FREQ_EST_MARGIN >= EstimateInterval(ki)
  }

  /** pi_sample. */
  function Sampled(pi: Pi, c: Limits, offset: int, local: int, weight: real): Outcome
    requires pi.ki >= 0.0 && c.maxFrequency >= 0.0 && pi.count <= 2
  {
    if pi.count == 0 then Outcome(pi.(offset0 := offset, local0 := local, count := 1), pi.lastFreq, Unlocked)
    else if pi.count == 1 then
      if pi.local0 >= local then Outcome(pi.(count := 0), pi.lastFreq, Unlocked)
      else if !LongEnough(pi.ki, local - pi.local0) then Outcome(pi, pi.lastFreq, Unlocked)
      else
        var drift := ClampFrequency(Estimate(pi.drift, offset - pi.offset0, local - pi.local0), c.maxFrequency);
        Outcome(pi.(drift := drift, lastFreq := drift, count := 2), drift,
                if StepNeeded(c, offset as real) then Jump else Locked)
    else if c.stepThreshold != 0.0 && c.stepThreshold < Abs(offset as real) then
      Outcome(pi.(count := 0), pi.lastFreq, Unlocked)
    else
      var kiTerm := Term(pi.ki, offset, weight);
      var raw := Term(pi.kp, offset, weight) + pi.drift + kiTerm;
      var ppb := ClampFrequency(raw, c.maxFrequency);
      Outcome(pi.(drift := if ppb == raw then pi.drift + kiTerm else pi.drift, lastFreq := ppb), ppb, Locked)
  }

  /**
   * The second sample: a time stamp that has not advanced starts over, one that is too early waits, and otherwise the
   * servo locks, with a jump exactly if the offset is beyond a threshold, the first one only at the first update.
   */
  lemma LocksExactly(pi: Pi, c: Limits, offset: int, local: int, weight: real)
    requires pi.count == 1 && pi.ki >= 0.0 && c.maxFrequency >= 0.0
    ensures var o := Sampled(pi, c, offset, local, weight);
            var waited := 1.001 * (local - pi.local0) as real / 1_000_000_000.0;
            if local <= pi.local0 then o == Outcome(pi.(count := 0), pi.lastFreq, Unlocked)
            else if waited < EstimateInterval(pi.ki) then o == Outcome(pi, pi.lastFreq, Unlocked)
            else && o.pi.count == 2 && o.ppb == o.pi.drift == o.pi.lastFreq
                 && (o.state == Jump <==> Beyond(c.stepThreshold, offset as real)
                                          || (c.firstUpdate && Beyond(c.firstStepThreshold, offset as real)))
                 && (o.state != Jump ==> o.state == Locked)
  {
    hide EstimateInterval, Estimate;
  }

  /** A locked servo starts over exactly if the offset is beyond the step threshold, and else stays locked. */
  lemma UnlocksExactly(pi: Pi, c: Limits, offset: int, local: int, weight: real)
    requires pi.count == 2 && pi.ki >= 0.0 && c.maxFrequency >= 0.0
    ensures var o := Sampled(pi, c, offset, local, weight);
            if Beyond(c.stepThreshold, offset as real) then o == Outcome(pi.(count := 0), pi.lastFreq, Unlocked)
            else o.state == Locked && o.pi.count == 2 && o.pi.lastFreq == o.ppb
  {
    hide Term;
  }

  function LimitedGain(scale: real, power: real, normMax: real, interval: real): (r: real)
    requires interval > 0.0 && scale >= 0.0 && power >= 0.0 && normMax >= 0.0
    ensures r >= 0.0
    ensures scale * power * interval <= normMax ==> r == scale * power
    ensures scale * power * interval > normMax ==> r * interval == normMax
  {
    Division(normMax, interval);
    GainTimes(scale * power, normMax, interval);
    if scale * power > normMax / interval then normMax / interval else scale * power
  }

  lemma Division(a: real, b: real)
    requires a >= 0.0 && b > 0.0
    ensures a / b >= 0.0 && a / b * b == a
  {
  }

  lemma GainTimes(gain: real, normMax: real, interval: real)
    requires interval > 0.0 && normMax >= 0.0
    ensures gain <= normMax / interval <==> gain * interval <= normMax
  {
    assert normMax / interval * interval == normMax;
    if gain <= normMax / interval {
      assert (normMax / interval - gain) * interval >= 0.0;
    } else {
      assert (gain - normMax / interval) * interval > 0.0;
    }
  }

  function AfterSyncInterval(pi: Pi, g: Gains, interval: real, kpPower: real, kiPower: real): Pi
    requires interval > 0.0 && g.NotNegative() && kpPower >= 0.0 && kiPower >= 0.0
  {
    pi.(kp := LimitedGain(g.kpScale, kpPower, g.kpNormMax, interval),
        ki := LimitedGain(g.kiScale, kiPower, g.kiNormMax, interval))
  }

  class PiServo {
    var offset: seq<int>
    var local: seq<int>
    var drift: real
    var kp: real
    var ki: real
    var lastFreq: real
    var count: nat
    const gains: Gains

    ghost predicate Valid()
      reads this
    {
      |offset| == |local| == 2 && count <= 2 && kp >= 0.0 && ki >= 0.0 && gains.NotNegative()
    }

    /** All that later samples depend on: the second entries are only of use within one call. */
    ghost function State(): Pi
      requires Valid()
      reads this
    {
      Pi(offset[0], local[0], drift, kp, ki, lastFreq, count)
    }

    constructor (fadj: real, g: Gains)
      requires g.NotNegative()
      ensures Valid() && State() == Initial(fadj) && gains == g
    {
      offset, local := [0, 0], [0, 0];
      drift, lastFreq := fadj, fadj;
      kp, ki, count := 0.0, 0.0, 0;
      gains := g;
    }

    method Sample(c: Limits, newOffset: int, localTs: int, weight: real) returns (r: real, state: ServoState)
      requires Valid() && c.maxFrequency >= 0.0
      modifies this
      ensures Valid() && Outcome(State(), r, state) == Sampled(old(State()), c, newOffset, localTs, weight)
    {
      hide EstimateInterval, Estimate, StepNeeded, Term, LongEnough;
      var ppb := lastFreq;
      state := Unlocked;
      if count == 0 {
        offset, local := offset[0 := newOffset], local[0 := localTs];
        count := 1;
      } else if count == 1 {
        offset, local := offset[1 := newOffset], local[1 := localTs];
        if local[0] >= local[1] {
          count := 0;
        } else if LongEnough(ki, local[1] - local[0]) {
          drift := Estimate(drift, offset[1] - offset[0], local[1] - local[0]);
          if drift < -c.maxFrequency {
            drift := -c.maxFrequency;
          } else if drift > c.maxFrequency {
            drift := c.maxFrequency;
          }
          state := if StepNeeded(c, newOffset as real) then Jump else Locked;
          ppb := drift;
          count := 2;
        }
      } else if c.stepThreshold != 0.0 && c.stepThreshold < Abs(newOffset as real) {
        count := 0;
      } else {
        var kiTerm := Term(ki, newOffset, weight);
        ppb := Term(kp, newOffset, weight) + drift + kiTerm;
        if ppb < -c.maxFrequency {
          ppb := -c.maxFrequency;
        } else if ppb > c.maxFrequency {
          ppb := c.maxFrequency;
        } else {
          drift := drift + kiTerm;
        }
        state := Locked;
      }
      lastFreq := ppb;
      r := ppb;
    }

    method SyncInterval(interval: real, kpPower: real, kiPower: real)
      requires Valid() && interval > 0.0 && kpPower >= 0.0 && kiPower >= 0.0
      modifies this`kp, this`ki
      ensures Valid() && State() == AfterSyncInterval(old(State()), gains, interval, kpPower, kiPower)
      ensures kp * interval <= gains.kpNormMax && ki * interval <= gains.kiNormMax
      ensures kp == gains.kpScale * kpPower || kp * interval == gains.kpNormMax
      ensures ki == gains.kiScale * kiPower || ki * interval == gains.kiNormMax
    {
      kp := LimitedGain(gains.kpScale, kpPower, gains.kpNormMax, interval);
      ki := LimitedGain(gains.kiScale, kiPower, gains.kiNormMax, interval);
    }

    method Reset()
      requires Valid()
      modifies this`count
      ensures Valid() && State() == old(State()).(count := 0)
    {
      count := 0;
    }
  }

  // ----- runs

  /** Samples with any weight that is not negative, resets, and changes of the gains to any that are not negative. */
  datatype Event =
    | Sample(limits: Limits, offset: int, local: int, weight: real)
    | SetGains(kp: real, ki: real)
    | Reset

  predicate Proper(e: Event, max: real) {
    match e
    case Sample(limits, offset, local, weight) => limits.maxFrequency == max && weight >= 0.0
    case SetGains(kp, ki) => kp >= 0.0 && ki >= 0.0
    case Reset => true
  }

  function Apply(pi: Pi, e: Event, max: real): Pi
    requires max >= 0.0 && pi.ki >= 0.0 && pi.count <= 2 && Proper(e, max)
  {
    match e
    case Sample(limits, offset, local, weight) => Sampled(pi, limits, offset, local, weight).pi
    case SetGains(kp, ki) => pi.(kp := kp, ki := ki)
    case Reset => pi.(count := 0)
  }

  predicate Within(x: real, max: real) { -max <= x <= max }

  /** Before the first lock nothing is known but the initial frequency; after it all frequencies are bounded. */
  ghost predicate Tame(pi: Pi, max: real, locked: bool, fadj: real) {
    && pi.kp >= 0.0 && pi.ki >= 0.0 && pi.count <= 2
    && if locked then Within(pi.drift, max) && Within(pi.lastFreq, max)
       else pi.drift == fadj == pi.lastFreq && pi.count < 2
  }

  /** Every sample returns the initial frequency before the first lock or jump, and from then on one within max. */
  ghost predicate TameRun(pi: Pi, es: seq<Event>, max: real, locked: bool, fadj: real)
    requires max >= 0.0
    decreases |es|
  {
    && Tame(pi, max, locked, fadj)
    && (es != [] ==>
          && Proper(es[0], max)
          && match es[0] {
               case Sample(limits, offset, local, weight) =>
                 var o := Sampled(pi, limits, offset, local, weight);
                 var locked' := locked || o.state != Unlocked;
                 && (if locked' then Within(o.ppb, max) else o.ppb == fadj)
                 && TameRun(o.pi, es[1..], max, locked', fadj)
               case _ => TameRun(Apply(pi, es[0], max), es[1..], max, locked, fadj)
             })
  }

  /** Proportional and integral term have the same sign: the drift never leaves the range of the frequency. */
  lemma NoWindup(pi: Pi, c: Limits, offset: int, weight: real)
    requires pi.kp >= 0.0 && pi.ki >= 0.0 && weight >= 0.0 && Within(pi.drift, c.maxFrequency)
    requires Within(Term(pi.kp, offset, weight) + pi.drift + Term(pi.ki, offset, weight), c.maxFrequency)
    ensures Within(pi.drift + Term(pi.ki, offset, weight), c.maxFrequency)
  {
    SameSign(pi.kp, offset as real, weight);
    SameSign(pi.ki, offset as real, weight);
  }

  lemma SameSign(k: real, x: real, w: real)
    requires k >= 0.0 && w >= 0.0
    ensures x >= 0.0 ==> k * x * w >= 0.0
    ensures x <= 0.0 ==> k * x * w <= 0.0
  {
    if x >= 0.0 {
      assert k * x >= 0.0;
    } else {
      assert k * x <= 0.0;
      assert (-(k * x)) * w >= 0.0;
    }
  }

  lemma TameSample(pi: Pi, c: Limits, offset: int, local: int, weight: real, locked: bool, fadj: real)
    requires c.maxFrequency >= 0.0 && weight >= 0.0 && Tame(pi, c.maxFrequency, locked, fadj)
    ensures var o := Sampled(pi, c, offset, local, weight);
            var locked' := locked || o.state != Unlocked;
            && Tame(o.pi, c.maxFrequency, locked', fadj)
            && if locked' then Within(o.ppb, c.maxFrequency) else o.ppb == fadj
  {
    hide EstimateInterval, Estimate, StepNeeded, LongEnough, Term;
    if pi.count == 2 {
      if Within(Term(pi.kp, offset, weight) + pi.drift + Term(pi.ki, offset, weight), c.maxFrequency) {
        NoWindup(pi, c, offset, weight);
      }
    }
  }

  /** On every run from the creation of the servo, with any resets and gains. */
  lemma {:induction false} NeverWindsUp(pi: Pi, es: seq<Event>, max: real, locked: bool, fadj: real)
    requires max >= 0.0 && Tame(pi, max, locked, fadj) && forall e :: e in es ==> Proper(e, max)
    ensures TameRun(pi, es, max, locked, fadj)
    decreases |es|
  {
    hide Sampled;
    if es != [] {
      assert Proper(es[0], max);
      match es[0]
      case Sample(limits, offset, local, weight) =>
        TameSample(pi, limits, offset, local, weight, locked, fadj);
        var o := Sampled(pi, limits, offset, local, weight);
        NeverWindsUp(o.pi, es[1..], max, locked || o.state != Unlocked, fadj);
      case _ =>
        NeverWindsUp(Apply(pi, es[0], max), es[1..], max, locked, fadj);
    }
  }

  // ----- what the drift is

  /** A locked servo that takes a sample without a step or a limit in its way. */
  predicate Unlimited(pi: Pi, e: Event, max: real) {
    && e.Sample? && e.limits.maxFrequency == max && pi.count == 2 && pi.ki >= 0.0 && max >= 0.0
    && !(e.limits.stepThreshold != 0.0 && e.limits.stepThreshold < Abs(e.offset as real))
    && Within(Term(pi.kp, e.offset, e.weight) + pi.drift + Term(pi.ki, e.offset, e.weight), max)
  }

  ghost predicate UnlimitedRun(pi: Pi, es: seq<Event>, max: real)
    decreases |es|
  {
    es == [] || (Unlimited(pi, es[0], max)
                 && UnlimitedRun(Sampled(pi, es[0].limits, es[0].offset, es[0].local, es[0].weight).pi, es[1..], max))
  }

  function WeightedOffsets(es: seq<Event>): real {
    if es == [] then 0.0
    else WeightedOffsets(es[1..]) + if es[0].Sample? then es[0].offset as real * es[0].weight else 0.0
  }

  /**
   * Between steps and limits the drift is the integral of the weighted offsets, on top of the drift to begin with, and
   * the frequency is the proportional term on top of the drift.
   */
  lemma {:induction false} DriftIsIntegral(pi: Pi, es: seq<Event>, max: real)
    requires es != [] && UnlimitedRun(pi, es, max)
    ensures var o, last := LastOutcome(pi, es, max), es[|es| - 1];
            && o.pi.drift == pi.drift + pi.ki * WeightedOffsets(es)
            && last.Sample? && o.state == Locked && o.ppb == Term(pi.kp, last.offset, last.weight) + o.pi.drift
    decreases |es|
  {
    hide Term, EstimateInterval, Estimate, StepNeeded, LongEnough;
    var e := es[0];
    var o := Sampled(pi, e.limits, e.offset, e.local, e.weight);
    TermOfProduct(pi.ki, e.offset, e.weight);
    Distributes(pi.ki, WeightedOffsets(es[1..]), e.offset as real * e.weight);
    if |es| == 1 {
      assert es[1..] == [];
    } else {
      DriftIsIntegral(o.pi, es[1..], max);
    }
  }

  function LastOutcome(pi: Pi, es: seq<Event>, max: real): Outcome
    requires es != [] && UnlimitedRun(pi, es, max)
    decreases |es|
  {
    var o := Sampled(pi, es[0].limits, es[0].offset, es[0].local, es[0].weight);
    if |es| == 1 then o else LastOutcome(o.pi, es[1..], max)
  }

  lemma TermOfProduct(gain: real, offset: int, weight: real)
    ensures Term(gain, offset, weight) == gain * (offset as real * weight)
  {
  }

  lemma Distributes(k: real, a: real, b: real)
    ensures k * (a + b) == k * a + k * b
  {
  }
}
