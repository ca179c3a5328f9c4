/** The linear-regression servo (linreg.c): a ring of points, and one fit per power of two. */
module Linreg {
  import opened Basics
  import opened LeastSquares
  import opened ServoTypes
  import opened SizeChoice
  import opened Tmv

  const MAX_POINTS := 64
  const ERR_SMOOTH := 0.02
  const BILLION := 1_000_000_000.0

  /** Local and remote time as unsigned 64-bit counters, and a weight. */
  datatype Point = Point(x: int, y: int, w: real)

  function Height(f: Fit, t: real): real { f.intercept + f.slope * t }

  /** A fit after its reference point moved by (dx, dy). */
  function Moved(f: Fit, dx: int, dy: int): Fit {
    f.(intercept := f.intercept + (dx as real * f.slope - dy as real))
  }

  /** Moving the reference leaves the line where it was. */
  lemma MovedIsSameLine(f: Fit, dx: int, dy: int, t: real)
    ensures Height(Moved(f, dx, dy), t) == Height(f, t + dx as real) - dy as real
  {
  }

  /** How many points each size uses. */
  function Points(size: nat): (n: nat)
    requires MIN_SIZE <= size <= MAX_SIZE
    ensures 4 <= n <= MAX_POINTS
  {
    if size == 2 then 4 else if size == 3 then 8 else if size == 4 then 16 else if size == 5 then 32 else 64
  }

  function Slot(last: nat, i: nat): (k: nat)
    requires last < MAX_POINTS && i < MAX_POINTS
    ensures k < MAX_POINTS
  {
    (MAX_POINTS + last - i) % MAX_POINTS
  }

  /** A stored point relative to the reference, through the signed differences of the unsigned counters. */
  function Relative(p: Point, refX: int, refY: int): Sample {
    Sample(ToI64(p.x - refX) as real, ToI64(p.y - refY) as real, p.w)
  }

  /** The k newest entries of the ring, newest first. */
  function Newest(ring: seq<Point>, last: nat, refX: int, refY: int, k: nat): (s: seq<Sample>)
    requires |ring| == MAX_POINTS && last < MAX_POINTS && k <= MAX_POINTS
    ensures |s| == k
    ensures forall i :: 0 <= i < k ==> s[i] == Relative(ring[Slot(last, i)], refX, refY)
  {
    if k == 0 then []
    else Newest(ring, last, refX, refY, k - 1) + [Relative(ring[Slot(last, k - 1)], refX, refY)]
  }

  ghost predicate Weighted(ring: seq<Point>, last: nat, num: nat)
    requires |ring| == MAX_POINTS && last < MAX_POINTS && num <= MAX_POINTS
  {
    forall i :: 0 <= i < num ==> ring[Slot(last, i)].w > 0.0
  }

  lemma SlotAfterPush(last: nat, i: nat)
    requires last < MAX_POINTS && i < MAX_POINTS - 1
    ensures Slot((last + 1) % MAX_POINTS, i + 1) == Slot(last, i) != (last + 1) % MAX_POINTS
    ensures Slot((last + 1) % MAX_POINTS, 0) == (last + 1) % MAX_POINTS
  {
  }

  /** Pushing a point makes it the newest entry and ages the others by one. */
  lemma {:induction false} NewestAfterPush(ring: seq<Point>, last: nat, p: Point, refX: int, refY: int, k: nat)
    requires |ring| == MAX_POINTS && last < MAX_POINTS && k < MAX_POINTS
    ensures var last' := (last + 1) % MAX_POINTS;
            Newest(ring[last' := p], last', refX, refY, k + 1)
            == [Relative(p, refX, refY)] + Newest(ring, last, refX, refY, k)
  {
    var last' := (last + 1) % MAX_POINTS;
    if k == 0 {
      SlotAfterPush(last, 0);
    } else {
      NewestAfterPush(ring, last, p, refX, refY, k - 1);
      SlotAfterPush(last, k - 1);
    }
  }

  lemma WeightedAfterPush(ring: seq<Point>, last: nat, p: Point, num: nat)
    requires |ring| == MAX_POINTS && last < MAX_POINTS && num <= MAX_POINTS
    requires Weighted(ring, last, num) && p.w > 0.0
    ensures Weighted(ring[(last + 1) % MAX_POINTS := p], (last + 1) % MAX_POINTS, Min(num + 1, MAX_POINTS))
  {
    var last' := (last + 1) % MAX_POINTS;
    forall i | 0 <= i < Min(num + 1, MAX_POINTS)
      ensures ring[last' := p][Slot(last', i)].w > 0.0
    {
      if i > 0 {
        SlotAfterPush(last, i - 1);
      }
    }
  }

  lemma AverageNonNegative(err: real, n: nat, e: real)
    ensures err >= 0.0 && e >= 0.0 ==> (err * n as real + e) / (n + 1) as real >= 0.0
  {
    if err >= 0.0 && e >= 0.0 {
      var sum := err * n as real + e;
      assert err * n as real >= 0.0;
      assert sum / (n + 1) as real >= 0.0;
    }
  }

  /** The moving average of the prediction error, brought up to date before the refit. */
  function Smoothed(f: Fit, y0: real): (g: Fit)
    ensures f.err >= 0.0 ==> g.err >= 0.0
  {
    if f.slope == 0.0 then f
    else
      AverageNonNegative(f.err, f.errUpdates, Abs(f.intercept - y0));
      var e := Abs(f.intercept - y0);
      if f.errUpdates < ERR_INITIAL_UPDATES then
        f.(err := (f.err * f.errUpdates as real + e) / (f.errUpdates + 1) as real, errUpdates := f.errUpdates + 1)
      else
        f.(err := f.err + ERR_SMOOTH * (e - f.err))
  }

  /**
   * The average over the first ten predictions, and from then on one that forgets: the newest prediction counts 2 %.
   * Without a line there was no prediction.
   */
  lemma SmoothedExactly(f: Fit, y0: real)
    ensures var g, e := Smoothed(f, y0), if f.intercept < y0 then y0 - f.intercept else f.intercept - y0;
            && g.slope == f.slope && g.intercept == f.intercept
            && (f.slope == 0.0 ==> g == f)
            && (f.slope != 0.0 && f.errUpdates < 10 ==>
                  && g.errUpdates == f.errUpdates + 1
                  && g.err * g.errUpdates as real == f.err * f.errUpdates as real + e)
            && (f.slope != 0.0 && f.errUpdates >= 10 ==>
                  g.errUpdates == f.errUpdates && g.err == 0.98 * f.err + 0.02 * e)
  {
  }

  /**
   * The best line through the samples, if they have one. Otherwise the slope is a division by zero, of which only
   * this much is said: it counts as a slope.
   */
  ghost predicate Fitted(s: seq<Sample>, f: Fit) {
    if TwoAbscissae(s) then BestLine(s, f.slope, f.intercept) else f.slope != 0.0
  }

  /** What a regression must leave in the result of one size. */
  ghost predicate Regressed(ring: seq<Point>, last: nat, refX: int, refY: int, num: nat, k: nat,
                            before: Fit, after: Fit)
    requires |ring| == MAX_POINTS && last < MAX_POINTS && k <= MAX_SIZE - MIN_SIZE
  {
    var n := Points(k + MIN_SIZE);
    if n > num then after == before
    else
      && Fitted(Newest(ring, last, refX, refY, n), after)
      && var was := Smoothed(before, Relative(ring[last], refX, refY).y);
         after.err == was.err && after.errUpdates == was.errUpdates
  }

  lemma MoreAbscissae(ring: seq<Point>, last: nat, refX: int, refY: int, k: nat, n: nat)
    requires |ring| == MAX_POINTS && last < MAX_POINTS && k <= n <= MAX_POINTS
    requires TwoAbscissae(Newest(ring, last, refX, refY, k))
    ensures TwoAbscissae(Newest(ring, last, refX, refY, n))
  {
    var s, t := Newest(ring, last, refX, refY, k), Newest(ring, last, refX, refY, n);
    var i, j :| 0 <= i < j < |s| && s[i].x != s[j].x;
    assert t[i] == s[i] && t[j] == s[j];
  }

  /**
   * What the correction interval leaves of the intercept, when the frequency that a slope calls for is off by as much
   * as freq is: one update up to size 4, and half as many updates as the size counts above.
   */
  function LeftOver(freq: real, slope: real, intercept: real, interval: real, size: nat): real {
    intercept - (freq - BILLION * (slope - 1.0)) * interval * (if size <= 4 then 1 else size / 2) as real
  }

  /** Either nothing is left over, or the frequency is at the limit on whose far side nothing would be. */
  ghost predicate Corrects(freq: real, slope: real, intercept: real, interval: real, size: nat, max: real) {
    && -max <= freq <= max
    && (LeftOver(freq, slope, intercept, interval, size) == 0.0
        || (freq == max && LeftOver(freq, slope, intercept, interval, size) > 0.0)
        || (freq == -max && LeftOver(freq, slope, intercept, interval, size) < 0.0))
  }

  lemma CorrectsExactly(slope: real, intercept: real, interval: real, size: nat, wanted: real, max: real)
    requires interval > 0.0 && max >= 0.0
    requires wanted == BILLION * (slope - 1.0) + intercept / interval / (if size <= 4 then 1 else size / 2) as real
    ensures Corrects(ClampFrequency(wanted, max), slope, intercept, interval, size, max)
  {
    var c := (if size <= 4 then 1 else size / 2) as real;
    var base, freq := BILLION * (slope - 1.0), ClampFrequency(wanted, max);
    var step := intercept / interval / c;
    assert step * c == intercept / interval;
    assert step * interval * c == intercept;
    Share(freq - base, step, interval, c);
  }

  lemma Share(d: real, step: real, interval: real, c: real)
    requires interval > 0.0 && c > 0.0
    ensures d == step ==> d * interval * c == step * interval * c
    ensures d < step ==> d * interval * c < step * interval * c
    ensures d > step ==> d * interval * c > step * interval * c
  {
  }

  // ----- the servo

  class LinregServo {
    const points: array<Point>
    const results: array<Fit>
    var referenceX: int
    var referenceY: int
    var numPoints: nat
    var lastPoint: nat
    var xRemainder: real
    var lastUpdate: int
    var size: nat
    var clockFreq: real
    var updateInterval: real
    var frequencyRatio: real
    var leap: int

    ghost predicate RingValid()
      reads this`lastPoint
    {
      points.Length == MAX_POINTS && lastPoint < MAX_POINTS
    }

    ghost predicate PointsValid()
      requires RingValid()
      reads this`lastPoint, this`numPoints, points
    {
      && numPoints <= MAX_POINTS
      && Weighted(points[..], lastPoint, numPoints)
      && forall k :: 0 <= k < points.Length ==> IsU64(points[k].x)
    }

    ghost predicate FitsValid()
      requires results.Length == MAX_SIZE - MIN_SIZE + 1
      reads this`numPoints, results
    {
      forall k :: 0 <= k < results.Length ==>
        results[k].err >= 0.0 && (numPoints < Points(k + MIN_SIZE) ==> results[k].slope == 0.0)
    }

    ghost predicate Valid()
      reads this, points, results
    {
      && RingValid() && PointsValid() && numPoints <= MAX_POINTS
      && results.Length == MAX_SIZE - MIN_SIZE + 1 && FitsValid()
      && IsU64(referenceX) && IsU64(referenceY) && IsU64(lastUpdate)
      && clockFreq > -BILLION && updateInterval >= 0.0 && -1.0 < xRemainder < 1.0
    }

    /** The k newest samples relative to the current reference. */
    ghost function Window(k: nat): seq<Sample>
      requires RingValid() && k <= MAX_POINTS
      reads this`lastPoint, this`referenceX, this`referenceY, points
    {
      Newest(points[..], lastPoint, referenceX, referenceY, k)
    }

    /** Where the reference will be after UpdateReference. */
    ghost function NextX(localTs: int): int
      requires clockFreq > -BILLION
      reads this
    {
      if lastUpdate == 0 then referenceX
      else
        var dy := ToI64(localTs - lastUpdate);
        ToU64(referenceX + Truncate(dy as real / (1.0 + clockFreq / BILLION) + xRemainder))
    }

    /** The new sample leaves two different abscissae among the four newest, so the fits exist. */
    ghost predicate Informative(localTs: int)
      requires Valid()
      reads this, points, results
    {
      numPoints < 3 || exists i :: 0 <= i < 3 && points[Slot(lastPoint, i)].x != NextX(localTs)
    }

    constructor (fadj: real)
      requires fadj < BILLION
      ensures Valid() && fresh(points) && fresh(results)
      ensures numPoints == 0 && lastPoint == 0 && lastUpdate == 0 && size == 0
      ensures clockFreq == -fadj && updateInterval == 0.0
      ensures forall k :: 0 <= k < results.Length ==> results[k].slope == 0.0
    {
      points := new Point[MAX_POINTS](_ => Point(0, 0, 0.0));
      results := new Fit[MAX_SIZE - MIN_SIZE + 1](_ => Fit(0.0, 0.0, 0.0, 0));
      referenceX, referenceY, numPoints, lastPoint, lastUpdate, size := 0, 0, 0, 0, 0, 0;
      clockFreq, updateInterval, frequencyRatio, xRemainder, leap := -fadj, 0.0, 1.0, 0.0, 0;
    }

    method MoveReference(dx: int, dy: int)
      requires Valid()
      modifies this`referenceX, this`referenceY, results
      ensures Valid()
      ensures referenceX == ToU64(old(referenceX) + dx) && referenceY == ToU64(old(referenceY) + dy)
      ensures forall k :: 0 <= k < results.Length ==> results[k] == Moved(old(results[..])[k], dx, dy)
    {
      hide PointsValid, ToU64;
      referenceX, referenceY := ToU64(referenceX + dx), ToU64(referenceY + dy);
      var i := MIN_SIZE;
      while i <= MAX_SIZE
        invariant MIN_SIZE <= i <= MAX_SIZE + 1
        invariant referenceX == ToU64(old(referenceX) + dx) && referenceY == ToU64(old(referenceY) + dy)
        invariant forall k :: 0 <= k < i - MIN_SIZE ==> results[k] == Moved(old(results[..])[k], dx, dy)
        invariant forall k :: i - MIN_SIZE <= k < results.Length ==> results[k] == old(results[..])[k]
      {
        var res := results[i - MIN_SIZE];
        results[i - MIN_SIZE] := res.(intercept := res.intercept + (dx as real * res.slope - dy as real));
        i := i + 1;
      }
    }

    /**
     * The reference follows the local clock with the current frequency correction taken out. Nothing is lost to
     * truncation: what the counter does not take stays in the remainder.
     */
    method UpdateReference(localTs: int) returns (dx: int)
      requires Valid() && IsU64(localTs)
      modifies this`referenceX, this`referenceY, this`xRemainder, this`lastUpdate, results
      ensures Valid() && lastUpdate == localTs && referenceX == old(NextX(localTs))
      ensures old(lastUpdate) == 0 ==>
                && referenceX == old(referenceX) && referenceY == old(referenceY)
                && xRemainder == old(xRemainder) && results[..] == old(results[..])
      ensures old(lastUpdate) != 0 ==>
                var dy := ToI64(localTs - old(lastUpdate));
                && referenceX == ToU64(old(referenceX) + dx) && referenceY == ToU64(old(referenceY) + dy)
                && dx as real + xRemainder == old(xRemainder) + dy as real / (1.0 + clockFreq / BILLION)
                && -1.0 < xRemainder < 1.0
                && forall k :: 0 <= k < results.Length ==> results[k] == Moved(old(results[..])[k], dx, dy)
    {
      dx := 0;
      if lastUpdate != 0 {
        var yInterval := ToI64(localTs - lastUpdate);
        var xInterval := yInterval as real / (1.0 + clockFreq / BILLION);
        xInterval := xInterval + xRemainder;
        dx := Truncate(xInterval);
        xRemainder := xInterval - dx as real;
        MoveReference(dx, yInterval);
      }
      lastUpdate := localTs;
    }

    method AddSample(offset: int, weight: real)
      requires Valid() && weight > 0.0
      modifies this`lastPoint, this`numPoints, points
      ensures Valid()
      ensures lastPoint == (old(lastPoint) + 1) % MAX_POINTS && numPoints == Min(old(numPoints) + 1, MAX_POINTS)
      ensures points[..] == old(points[..])[lastPoint := Point(referenceX, ToU64(referenceY - offset), weight)]
    {
      ghost var before, last := points[..], lastPoint;
      var p := Point(referenceX, ToU64(referenceY - offset), weight);
      lastPoint := (lastPoint + 1) % MAX_POINTS;
      points[lastPoint] := p;
      if numPoints < MAX_POINTS {
        numPoints := numPoints + 1;
      }
      assert points[..] == before[lastPoint := p];
      WeightedAfterPush(before, last, p, old(numPoints));
    }

    /** One pass over the ring serves all sizes, and every size gets the best line through its own points. */
    method Regress()
      requires Valid()
      modifies results
      ensures Valid()
      ensures forall k :: 0 <= k < results.Length ==>
                Regressed(points[..], lastPoint, referenceX, referenceY, numPoints, k, old(results[..])[k], results[k])
    {
      hide Regressed, Newest, TwoAbscissae, Weighted;
      assert Window(0) == [];
      var sums := NO_SUMS;
      var i := 0;
      var y0 := ToI64(points[lastPoint].y - referenceY) as real;
      var size := MIN_SIZE;
      while size <= MAX_SIZE && Points(size) <= numPoints
        invariant MIN_SIZE <= size <= MAX_SIZE + 1 && i <= numPoints
        invariant i == if size == MIN_SIZE then 0 else Points(size - 1)
        invariant Valid() && sums == SumsOf(Window(i))
        invariant forall k :: 0 <= k < size - MIN_SIZE ==>
                    Regressed(points[..], lastPoint, referenceX, referenceY, numPoints, k, old(results[..])[k], results[k])
        invariant forall k :: size - MIN_SIZE <= k < results.Length ==> results[k] == old(results[..])[k]
      {
        sums, i := Refit(size, sums, i, y0);
        size := size + 1;
      }
      TooFewPoints(size, old(results[..]));
    }

    lemma TooFewPoints(size: nat, before: seq<Fit>)
      requires Valid() && |before| == results.Length && MIN_SIZE <= size <= MAX_SIZE + 1
      requires size <= MAX_SIZE ==> numPoints < Points(size)
      requires forall k :: size - MIN_SIZE <= k < results.Length ==> results[k] == before[k]
      ensures forall k :: size - MIN_SIZE <= k < results.Length ==>
                Regressed(points[..], lastPoint, referenceX, referenceY, numPoints, k, before[k], results[k])
    {
    }

    /** The body of the outer loop: one size more, from the sums over the i points of the smaller sizes. */
    method Refit(size: nat, start: Sums, from: nat, y0: real) returns (sums: Sums, i: nat)
      requires Valid() && MIN_SIZE <= size <= MAX_SIZE && from <= Points(size) <= numPoints
      requires start == SumsOf(Window(from))
      requires y0 == ToI64(points[lastPoint].y - referenceY) as real
      modifies results
      ensures Valid() && i == Points(size) && sums == SumsOf(Window(i))
      ensures forall k :: 0 <= k < results.Length && k != size - MIN_SIZE ==> results[k] == old(results[..])[k]
      ensures var k := size - MIN_SIZE;
              Regressed(points[..], lastPoint, referenceX, referenceY, numPoints, k, old(results[..])[k], results[k])
    {
      hide Fitted, Newest, SumsOf, TwoAbscissae, Weighted;
      var n := Points(size);
      var res := Smoothed(results[size - MIN_SIZE], y0);
      sums, i := Extend(start, from, n);
      DivisionNeedsInformation(n);
      if Divisor(sums) != 0.0 {
        res := res.(slope := Slope(sums));
        res := res.(intercept := Intercept(sums, res.slope));
      } else {
        // Zero by zero: any value that counts as a slope.
        var slope: real, intercept: real := *, *;
        res := res.(slope := if slope == 0.0 then 1.0 else slope, intercept := intercept);
      }
      BestOrNone(n, res);
      results[size - MIN_SIZE] := res;
    }

    /** The inner loop: extends the sums over i points to the sums over n points, from newest to oldest. */
    method Extend(start: Sums, from: nat, n: nat) returns (sums: Sums, i: nat)
      requires Valid() && from <= n <= MAX_POINTS
      requires start == SumsOf(Window(from))
      ensures i == n && sums == SumsOf(Window(n))
    {
      sums, i := start, from;
      while i < n
        invariant from <= i <= n
        invariant sums == SumsOf(Window(i))
      {
        var p := points[Slot(lastPoint, i)];
        var x, y := ToI64(p.x - referenceX) as real, ToI64(p.y - referenceY) as real;
        assert Window(i + 1) == Window(i) + [Sample(x, y, p.w)];
        sums := Include(sums, Sample(x, y, p.w));
        i := i + 1;
      }
    }

    /** Two different abscissae among the newest n points are just what a fit through them needs. */
    lemma DivisionNeedsInformation(n: nat)
      requires Valid() && 4 <= n <= numPoints
      ensures SumsOf(Window(n)).w > 0.0
      ensures Divisor(SumsOf(Window(n))) == 0.0 <==> !TwoAbscissae(Window(n))
    {
      DivisorZeroExactly(Window(n));
    }

    lemma BestOrNone(n: nat, f: Fit)
      requires Valid() && 4 <= n <= numPoints && SumsOf(Window(n)).w > 0.0
      requires var sums := SumsOf(Window(n));
               if Divisor(sums) == 0.0 then f.slope != 0.0
               else f.slope == Slope(sums) && f.intercept == Intercept(sums, f.slope)
      ensures Fitted(Window(n), f)
    {
      hide Slope, Intercept, BestLine, SumsOf, Newest;
      DivisionNeedsInformation(n);
      if TwoAbscissae(Window(n)) {
        FitIsBest(Window(n));
      }
    }

    /** The size that the scan over all results ends with; what its error is worth is said about Chosen. */
    method UpdateSize()
      requires Valid()
      modifies this`size
      ensures Valid() && (size == 0 || MIN_SIZE <= size <= MAX_SIZE)
      ensures numPoints < 4 ==> size == 0
      ensures size == Chosen(results[..], results.Length) && NearlyBest(results[..], results.Length, size)
    {
      hide NearlyBest, Weighted, Chosen;
      ghost var rs := results[..];
      var bestSize: nat, bestErr := 0, 0.0;
      var n := 0;
      NothingChosen(rs);
      while n + MIN_SIZE <= MAX_SIZE
        invariant 0 <= n <= results.Length
        invariant bestSize == Chosen(rs, n) && bestErr == ErrorOf(rs, bestSize)
      {
        var res := results[n];
        ChosenNext(rs, n);
        if (bestSize == 0 && res.slope != 0.0)
           || (bestErr * ERR_EQUALS > res.err && res.errUpdates >= ERR_INITIAL_UPDATES) {
          bestSize, bestErr := n + MIN_SIZE, res.err;
        }
        n := n + 1;
      }
      size := bestSize;
      ChosenIsNearlyBest(rs, n);
      NoSlopeNoSize(rs, n, size);
    }

    /** The first two steps of a sample: it enters the ring, and the four newest points can be told apart or not. */
    method Observe(offset: int, localTs: int, weight: real)
      requires Valid() && IsU64(localTs) && weight > 0.0
      modifies this`referenceX, this`referenceY, this`xRemainder, this`lastUpdate, this`lastPoint, this`numPoints
      modifies points, results
      ensures Valid() && numPoints == Min(old(numPoints) + 1, MAX_POINTS) && lastUpdate == localTs
      ensures referenceX == old(NextX(localTs)) && lastPoint == (old(lastPoint) + 1) % MAX_POINTS
      ensures points[..] == old(points[..])[lastPoint := Point(referenceX, ToU64(referenceY - offset), weight)]
      ensures 4 <= numPoints ==> (TwoAbscissae(Window(4)) <==> old(Informative(localTs)))
    {
      hide Newest, TwoAbscissae, NextX, PointsValid, FitsValid;
      var _ := UpdateReference(localTs);
      ghost var before, last := points[..], lastPoint;
      AddSample(offset, weight);
      SlotAfterPush(last, 0);
      SlotAfterPush(last, 1);
      SlotAfterPush(last, 2);
      if 4 <= numPoints {
        if i :| 0 <= i < 3 && before[Slot(last, i)].x != referenceX {
          DifferentAbscissae(0, i + 1);
        } else {
          EqualAbscissae();
        }
      }
    }

    /** Everything linreg_sample does before it looks at the chosen fit. */
    method Estimate(offset: int, localTs: int, weight: real)
      requires Valid() && IsU64(localTs) && weight > 0.0
      modifies this`referenceX, this`referenceY, this`xRemainder, this`lastUpdate, this`lastPoint, this`numPoints
      modifies this`size, points, results
      ensures Valid() && numPoints == Min(old(numPoints) + 1, MAX_POINTS) && lastUpdate == localTs
      ensures referenceX == old(NextX(localTs)) && lastPoint == (old(lastPoint) + 1) % MAX_POINTS
      ensures points[..] == old(points[..])[lastPoint := Point(referenceX, ToU64(referenceY - offset), weight)]
      ensures size == 0 || MIN_SIZE <= size <= MAX_SIZE
      ensures numPoints < 4 ==> size == 0
      ensures size == Chosen(results[..], results.Length) && NearlyBest(results[..], results.Length, size)
      ensures AllFitted() && (old(Informative(localTs)) ==> AllBest())
    {
      hide Newest, TwoAbscissae, BestLine, NearlyBest, PointsValid, FitsValid, Informative, Chosen, NextX, Fitted;
      Observe(offset, localTs, weight);
      Regress();
      UpdateSize();
      if 4 <= numPoints && TwoAbscissae(Window(4)) {
        AllWindowsInformative();
      }
    }

    /** Every size with enough points holds the best line through exactly its newest points, if there is one. */
    ghost predicate AllFitted()
      requires Valid()
      reads this, points, results
    {
      forall k :: 0 <= k < results.Length && Points(k + MIN_SIZE) <= numPoints ==>
        Fitted(Window(Points(k + MIN_SIZE)), results[k])
    }

    /** Every size with enough points holds the best line through exactly its newest points. */
    ghost predicate AllBest()
      requires Valid()
      reads this, points, results
    {
      forall k :: 0 <= k < results.Length && Points(k + MIN_SIZE) <= numPoints ==>
        BestLine(Window(Points(k + MIN_SIZE)), results[k].slope, results[k].intercept)
    }

    lemma AllWindowsInformative()
      requires Valid() && TwoAbscissae(Window(4)) && AllFitted()
      ensures AllBest()
    {
      hide BestLine, Newest, TwoAbscissae;
      forall k | 0 <= k < results.Length && Points(k + MIN_SIZE) <= numPoints
        ensures BestLine(Window(Points(k + MIN_SIZE)), results[k].slope, results[k].intercept)
      {
        MoreAbscissae(points[..], lastPoint, referenceX, referenceY, 4, Points(k + MIN_SIZE));
      }
    }

    lemma DifferentAbscissae(i: nat, j: nat)
      requires Valid() && i < j < 4
      requires points[Slot(lastPoint, i)].x != points[Slot(lastPoint, j)].x
      ensures TwoAbscissae(Window(4))
    {
      DifferenceInjective(points[Slot(lastPoint, i)].x, points[Slot(lastPoint, j)].x, referenceX);
      assert Window(4)[i].x != Window(4)[j].x;
    }

    lemma EqualAbscissae()
      requires Valid()
      requires forall i :: 0 <= i < 4 ==> points[Slot(lastPoint, i)].x == referenceX
      ensures !TwoAbscissae(Window(4))
    {
    }

    /** With no more than a jump to add: the reference moves back by it, and so do all intercepts. */
    ghost predicate AllBestBeforeJump(jump: int)
      requires RingValid() && results.Length == MAX_SIZE - MIN_SIZE + 1
      reads this`lastPoint, this`numPoints, this`referenceX, this`referenceY, points, results
    {
      forall k :: 0 <= k < results.Length && Points(k + MIN_SIZE) <= numPoints ==>
        BestLine(Newest(points[..], lastPoint, referenceX, ToU64(referenceY + jump), Points(k + MIN_SIZE)),
                 results[k].slope, results[k].intercept - jump as real)
    }

    /** The frequency that cancels the slope and works the intercept off over the correction interval. */
    function Wanted(slope: real, intercept: real): real
      requires updateInterval > 0.0
      reads this
    {
      var corrInterval := if size <= 4 then 1 else size / 2;
      BILLION * (slope - 1.0) + intercept / updateInterval / corrInterval as real
    }

    /** A step of the clock by -offset: every fit keeps its slope and is raised by the offset. */
    method Step(offset: int)
      requires Valid() && AllBest()
      modifies this`referenceX, this`referenceY, this`lastUpdate, results
      ensures Valid() && AllBestBeforeJump(offset) && lastUpdate == ToU64(old(lastUpdate) - offset)
      ensures referenceX == old(referenceX) && referenceY == ToU64(old(referenceY) - offset)
      ensures forall k :: 0 <= k < results.Length ==>
                results[k] == old(results[..])[k].(intercept := old(results[..])[k].intercept + offset as real)
    {
      hide BestLine, PointsValid, FitsValid, Newest, ToU64;
      BackAgain(referenceX, 0);
      BackAgain(referenceY, offset);
      MoveReference(0, -offset);
      lastUpdate := ToU64(lastUpdate - offset);
    }

    method SetFrequency(f: Fit, max: real)
      requires Valid() && updateInterval > 0.0 && 0.0 <= max < BILLION
      modifies this`clockFreq, this`frequencyRatio
      ensures Valid() && clockFreq == ClampFrequency(Wanted(f.slope, f.intercept), max)
      ensures Corrects(clockFreq, f.slope, f.intercept, updateInterval, size, max)
      ensures frequencyRatio * (1.0 + clockFreq / BILLION) == f.slope
    {
      hide Weighted;
      CorrectsExactly(f.slope, f.intercept, updateInterval, size, Wanted(f.slope, f.intercept), max);
      clockFreq := ClampFrequency(Wanted(f.slope, f.intercept), max);
      frequencyRatio := f.slope / (1.0 + clockFreq / BILLION);
    }

    lemma NearlyBestRaised(before: seq<Fit>)
      requires Valid() && |before| == results.Length
      requires size == Chosen(before, results.Length) && NearlyBest(before, results.Length, size)
      requires forall k :: 0 <= k < results.Length ==>
                 results[k].slope == before[k].slope && results[k].err == before[k].err
                 && results[k].errUpdates == before[k].errUpdates
      ensures size == Chosen(results[..], results.Length) && NearlyBest(results[..], results.Length, size)
    {
      ChosenRaised(before, results[..], results.Length);
      ChosenIsNearlyBest(results[..], results.Length);
    }

    lemma NoJump()
      requires Valid() && AllBest()
      ensures AllBestBeforeJump(0)
    {
      hide BestLine, Newest;
      assert ToU64(referenceY + 0) == referenceY;
    }

    /** The clock is to be stepped exactly if the intercept of the chosen size is beyond a threshold. */
    method StepOrNot(limits: Limits, offset: int) returns (state: ServoState)
      requires Valid() && AllBest() && MIN_SIZE <= size <= MAX_SIZE
      requires size == Chosen(results[..], results.Length) && NearlyBest(results[..], results.Length, size)
      modifies this`referenceX, this`referenceY, this`lastUpdate, results
      ensures Valid() && state in {Jump, Locked} && referenceX == old(referenceX)
      ensures size == Chosen(results[..], results.Length) && NearlyBest(results[..], results.Length, size)
      ensures var jump := if state == Jump then offset else 0;
              var intercept := results[size - MIN_SIZE].intercept - jump as real;
              && intercept == old(results[size - MIN_SIZE].intercept)
              && (state == Jump <==> || Beyond(limits.stepThreshold, intercept)
                                     || (limits.firstUpdate && Beyond(limits.firstStepThreshold, intercept)))
              && AllBestBeforeJump(jump)
      ensures lastUpdate == if state == Jump then ToU64(old(lastUpdate) - offset) else old(lastUpdate)
    {
      hide BestLine, Weighted, Newest, NearlyBest, StepNeeded, PointsValid, FitsValid, Chosen, Beyond;
      var res := results[size - MIN_SIZE];
      StepNeededExactly(limits, res.intercept);
      if StepNeeded(limits, res.intercept) {
        ghost var before := results[..];
        Step(offset);
        NearlyBestRaised(before);
        state := Jump;
      } else {
        state := Locked;
        NoJump();
      }
    }

    method TakeSample(limits: Limits, offset: int, localTs: int, weight: real) returns (ppb: real, state: ServoState)
      requires Valid() && IsU64(localTs) && weight > 0.0 && Informative(localTs)
      requires updateInterval > 0.0 && 0.0 <= limits.maxFrequency < BILLION
      modifies this, points, results
      ensures Valid() && updateInterval == old(updateInterval) && numPoints == Min(old(numPoints) + 1, MAX_POINTS)
      ensures size == 0 || MIN_SIZE <= size <= MAX_SIZE
      ensures size == Chosen(results[..], results.Length) && NearlyBest(results[..], results.Length, size)
      ensures referenceX == old(NextX(localTs)) && lastPoint == (old(lastPoint) + 1) % MAX_POINTS
      ensures points[lastPoint].x == referenceX && forall k :: 0 <= k < MAX_POINTS && k != lastPoint ==>
                points[k] == old(points[..])[k]
      ensures ppb == -clockFreq
      ensures state == Unlocked <==> size == 0
      ensures state == Unlocked ==> clockFreq == old(clockFreq)
      ensures numPoints < 4 ==> state == Unlocked
      ensures state != Unlocked ==>
                var jump := if state == Jump then offset else 0;
                var slope, intercept := results[size - MIN_SIZE].slope, results[size - MIN_SIZE].intercept;
                && (state == Jump <==>
                      || Beyond(limits.stepThreshold, intercept - jump as real)
                      || (limits.firstUpdate && Beyond(limits.firstStepThreshold, intercept - jump as real)))
                && Corrects(clockFreq, slope, intercept, updateInterval, size, limits.maxFrequency)
                && frequencyRatio * (1.0 + clockFreq / BILLION) == slope
      ensures state in {Unlocked, Jump, Locked}
      ensures lastUpdate == if state == Jump then ToU64(localTs - offset) else localTs
      ensures AllBestBeforeJump(if state == Jump then offset else 0)
    {
      hide BestLine, Weighted, Newest, NearlyBest, ClampFrequency;
      hide PointsValid, FitsValid, Informative, Chosen, NextX, Corrects, Beyond, AllBestBeforeJump;
      Estimate(offset, localTs, weight);
      if size < MIN_SIZE {
        NoJump();
        return -clockFreq, Unlocked;
      }
      state := StepOrNot(limits, offset);
      SetFrequency(results[size - MIN_SIZE], limits.maxFrequency);
      ppb := -clockFreq;
    }

    /** A sample with the time stamp of the one before does not move the reference. */
    lemma EqualStamp(localTs: int)
      requires Valid() && (lastUpdate == 0 || lastUpdate == localTs)
      ensures NextX(localTs) == referenceX
    {
      hide PointsValid, FitsValid;
      if lastUpdate != 0 {
        assert (0 as real) / (1.0 + clockFreq / BILLION) == 0.0;
        assert Truncate(xRemainder) == 0;
      }
    }

    /** All points so far, n of them, were stored at the current reference. */
    ghost predicate AllAtReference(n: nat)
      reads this`lastPoint, this`numPoints, this`referenceX, points
    {
      numPoints == lastPoint == n < points.Length && forall k :: 1 <= k <= n ==> points[k].x == referenceX
    }

    method TakeEqualStamp(limits: Limits, ghost n: nat)
      requires Valid() && AllAtReference(n) && n < 3 && (lastUpdate == 0 || lastUpdate == 1)
      requires updateInterval > 0.0 && 0.0 <= limits.maxFrequency < BILLION
      modifies this, points, results
      ensures Valid() && updateInterval == old(updateInterval) && AllAtReference(n + 1) && lastUpdate == 1
    {
      hide NextX, PointsValid, FitsValid, NearlyBest, Chosen, AllBestBeforeJump, StepNeeded, ClampFrequency;
      EqualStamp(1);
      var _, _ := TakeSample(limits, 0, 1, 1.0);
    }

    lemma EqualStampsNotInformative()
      requires Valid() && AllAtReference(3) && lastUpdate == 1
      ensures !Informative(1)
    {
      hide NextX, PointsValid, FitsValid;
      EqualStamp(1);
    }

    method SyncInterval(interval: real)
      requires Valid() && interval > 0.0
      modifies this`updateInterval
      ensures Valid() && updateInterval == interval
    {
      updateInterval := interval;
    }

    /** Forgets the points; the clock frequency and the reference stay. */
    method Reset()
      requires Valid()
      modifies this`numPoints, this`lastUpdate, this`size, this`frequencyRatio, results
      ensures Valid() && numPoints == 0 && lastUpdate == 0 && size == 0 && frequencyRatio == 1.0
      ensures forall k :: 0 <= k < results.Length ==>
                results[k] == old(results[..])[k].(slope := 0.0, errUpdates := 0)
    {
      numPoints, lastUpdate, size, frequencyRatio := 0, 0, 0, 1.0;
      var i := MIN_SIZE;
      while i <= MAX_SIZE
        invariant MIN_SIZE <= i <= MAX_SIZE + 1
        invariant numPoints == 0 && lastUpdate == 0 && size == 0 && frequencyRatio == 1.0
        invariant forall k :: 0 <= k < i - MIN_SIZE ==>
                    results[k] == old(results[..])[k].(slope := 0.0, errUpdates := 0)
        invariant forall k :: i - MIN_SIZE <= k < results.Length ==> results[k] == old(results[..])[k]
      {
        results[i - MIN_SIZE] := results[i - MIN_SIZE].(slope := 0.0, errUpdates := 0);
        i := i + 1;
      }
    }

    /** A pending leap second that is applied moves the reference like a step the other way. */
    method SetLeap(newLeap: int)
      requires Valid()
      modifies this`referenceX, this`referenceY, this`leap, results
      ensures Valid() && leap == newLeap
      ensures var dy := if old(leap) != 0 && newLeap == 0 then old(leap) * NS_PER_SEC else 0;
              && referenceX == old(referenceX) && referenceY == ToU64(old(referenceY) + dy)
              && forall k :: 0 <= k < results.Length ==> results[k] == Moved(old(results[..])[k], 0, dy)
    {
      if leap != 0 && newLeap == 0 {
        MoveReference(0, leap * NS_PER_SEC);
      }
      leap := newLeap;
    }
  }

  lemma BackAgain(t: int, offset: int)
    requires IsU64(t)
    ensures ToU64(ToU64(t - offset) + offset) == t && ToU64(t) == t
  {
  }

  lemma DifferenceInjective(x: int, x': int, refX: int)
    requires IsU64(x) && IsU64(x') && x != x'
    ensures ToI64(x - refX) != ToI64(x' - refX)
  {
  }

  /** A new sample enters every window in front, at x == 0 and y == -offset. */
  lemma SampleEntersWindow(ring: seq<Point>, last: nat, refX: int, refY: int, offset: int, weight: real, k: nat)
    requires |ring| == MAX_POINTS && last < MAX_POINTS && k < MAX_POINTS
    requires IsU64(refX) && IsU64(refY)
    ensures var last' := (last + 1) % MAX_POINTS;
            var p := Point(refX, ToU64(refY - offset), weight);
            Newest(ring[last' := p], last', refX, refY, k + 1)
            == [Sample(0.0, ToI64(-offset) as real, weight)] + Newest(ring, last, refX, refY, k)
  {
    hide Newest, ToI64, ToU64;
    var p := Point(refX, ToU64(refY - offset), weight);
    WrapCancels(refY, offset);
    NewestAfterPush(ring, last, p, refX, refY, k);
  }

  /**
   * Samples for which there is no fit do occur: after three samples with one and the same time stamp a fourth one
   * leaves a single abscissa among the newest four points, and the divisor of the slope is zero.
   */
  method FourEqualStamps(limits: Limits) returns (servo: LinregServo)
    requires 0.0 <= limits.maxFrequency < BILLION
    ensures servo.Valid() && servo.numPoints == 4
    ensures SumsOf(servo.Window(4)).w > 0.0 && Divisor(SumsOf(servo.Window(4))) == 0.0
  {
    servo := new LinregServo(0.0);
    servo.SyncInterval(1.0);
    servo.TakeEqualStamp(limits, 0);
    servo.TakeEqualStamp(limits, 1);
    servo.TakeEqualStamp(limits, 2);
    servo.EqualStampsNotInformative();
    servo.Observe(0, 1, 1.0);
    servo.DivisionNeedsInformation(4);
  }
}
