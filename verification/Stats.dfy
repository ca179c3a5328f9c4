/** Statistics of a stream of values in one pass (stats.c), in real arithmetic. */
module Stats {
  import opened Basics

  function Sum(vs: seq<real>): real
    decreases |vs|
  {
    if vs == [] then 0.0 else Sum(vs[..|vs| - 1]) + vs[|vs| - 1]
  }

  function Square(x: real): real { x * x }

  function SquareSum(vs: seq<real>): real
    decreases |vs|
  {
    if vs == [] then 0.0 else SquareSum(vs[..|vs| - 1]) + Square(vs[|vs| - 1])
  }

  /** The sum of squared deviations from c, for which the values are gone through a second time. */
  function Deviation(vs: seq<real>, c: real): real
    decreases |vs|
  {
    if vs == [] then 0.0 else Deviation(vs[..|vs| - 1], c) + Square(vs[|vs| - 1] - c)
  }

  lemma Append<T>(vs: seq<T>, v: T)
    ensures (vs + [v])[..|vs + [v]| - 1] == vs
  {
  }

  lemma Appended(vs: seq<real>, v: real)
    ensures Sum(vs + [v]) == Sum(vs) + v
    ensures SquareSum(vs + [v]) == SquareSum(vs) + Square(v)
  {
    Append(vs, v);
  }

  /** The deviations from c of n values, from their sum and their squares. */
  function FromMoments(n: real, sum: real, squares: real, c: real): real {
    squares - 2.0 * c * sum + n * (c * c)
  }

  lemma {:induction false} DeviationExpanded(vs: seq<real>, c: real)
    ensures Deviation(vs, c) == FromMoments(|vs| as real, Sum(vs), SquareSum(vs), c)
    decreases |vs|
  {
    if vs != [] {
      var init, v := vs[..|vs| - 1], vs[|vs| - 1];
      DeviationExpanded(init, c);
      OneMore(c, v, Sum(init), SquareSum(init), |init| as real);
    }
  }

  lemma OneMore(c: real, v: real, sum: real, squares: real, n: real)
    ensures FromMoments(n + 1.0, sum + v, squares + Square(v), c) == FromMoments(n, sum, squares, c) + Square(v - c)
  {
    assert Square(v - c) == Square(v) - 2.0 * c * v + c * c;
    assert 2.0 * c * (sum + v) == 2.0 * c * sum + 2.0 * c * v;
    assert (n + 1.0) * (c * c) == n * (c * c) + c * c;
  }

  lemma {:induction false} DeviationNotNegative(vs: seq<real>, c: real)
    ensures Deviation(vs, c) >= 0.0
    decreases |vs|
  {
    if vs != [] {
      DeviationNotNegative(vs[..|vs| - 1], c);
      SquareNotNegative(vs[|vs| - 1] - c);
    }
  }

  lemma SquareNotNegative(x: real)
    ensures Square(x) >= 0.0
  {
  }

  /** The arithmetic of one step, with n values of sum n * m before and the new mean m'. */
  lemma StepArithmetic(n: real, m: real, m': real, v: real, sum: real, squares: real)
    requires sum == n * m && (n + 1.0) * m' == sum + v
    ensures FromMoments(n + 1.0, sum + v, squares + Square(v), m')
            == FromMoments(n, sum, squares, m) + (v - m) * (v - m')
  {
    var a, b, p := m * m, m' * m', m * m';
    assert m' * (sum + v) == (n + 1.0) * b by {
      assert m' * ((n + 1.0) * m') == (n + 1.0) * (m' * m');
    }
    assert m * sum == n * a by {
      assert m * (n * m) == n * (m * m);
    }
    assert (v - m) * (v - m') == v * v - v * m' - v * m + p;
    assert v * m' == (n + 1.0) * b - n * p by {
      assert ((n + 1.0) * m' - n * m) * m' == (n + 1.0) * (m' * m') - n * (m * m');
    }
    assert v * m == (n + 1.0) * p - n * a by {
      assert ((n + 1.0) * m' - n * m) * m == (n + 1.0) * (m * m') - n * (m * m);
    }
  }

  /** The one-pass step: deviations from the new mean, out of those from the old one and the new value alone. */
  lemma DeviationStep(vs: seq<real>, m: real, m': real, v: real)
    requires Sum(vs) == |vs| as real * m
    requires (|vs| as real + 1.0) * m' == Sum(vs) + v
    ensures Deviation(vs + [v], m') == Deviation(vs, m) + (v - m) * (v - m')
  {
    hide FromMoments, Sum, SquareSum, Deviation, Square;
    Appended(vs, v);
    DeviationExpanded(vs + [v], m');
    DeviationExpanded(vs, m);
    StepArithmetic(|vs| as real, m, m', v, Sum(vs), SquareSum(vs));
  }

  /** Around the mean the deviations are the squares less the square of the mean, and no other centre does better. */
  lemma VarianceIsLeast(vs: seq<real>, m: real, c: real)
    requires Sum(vs) == |vs| as real * m
    ensures Deviation(vs, m) == SquareSum(vs) - |vs| as real * (m * m)
    ensures Deviation(vs, c) == Deviation(vs, m) + |vs| as real * Square(c - m) >= Deviation(vs, m)
  {
    hide FromMoments, Sum, SquareSum, Deviation, Square;
    var n := |vs| as real;
    DeviationExpanded(vs, m);
    DeviationExpanded(vs, c);
    Centres(n, m, m, Sum(vs), SquareSum(vs));
    Centres(n, m, c, Sum(vs), SquareSum(vs));
    SquareNotNegative(c - m);
    NotNegative(n, Square(c - m));
    Zero(n, m);
  }

  lemma Zero(n: real, m: real)
    ensures n * Square(m - m) == 0.0
  {
  }

  lemma Centres(n: real, m: real, c: real, sum: real, squares: real)
    requires sum == n * m
    ensures FromMoments(n, sum, squares, c) == squares - n * (m * m) + n * Square(c - m)
  {
    assert Square(c - m) == c * c - 2.0 * (c * m) + m * m;
    assert 2.0 * c * (n * m) == 2.0 * (n * (c * m));
    assert n * (c * c - 2.0 * (c * m) + m * m) == n * (c * c) - 2.0 * (n * (c * m)) + n * (m * m);
  }

  lemma NotNegative(a: real, b: real)
    requires a >= 0.0 && b >= 0.0
    ensures a * b >= 0.0
  {
  }

  ghost predicate IsLeast(vs: seq<real>, x: real) { x in vs && forall v :: v in vs ==> x <= v }

  ghost predicate IsGreatest(vs: seq<real>, x: real) { x in vs && forall v :: v in vs ==> v <= x }

  /** The roots of a result are left to the caller: rms * rms == meanSquare and stddev * stddev == variance. */
  datatype Result = NoValues | Result(min: real, max: real, maxAbs: real, mean: real, meanSquare: real, variance: real)

  /** A result describes values: their extremes, mean, mean square and mean squared deviation from the mean. */
  ghost predicate Describes(vs: seq<real>, r: Result) {
    && (r.NoValues? <==> vs == [])
    && (r.Result? ==>
          var n := |vs| as real;
          && IsLeast(vs, r.min) && IsGreatest(vs, r.max)
          && (forall v :: v in vs ==> Abs(v) <= r.maxAbs) && (exists v :: v in vs && Abs(v) == r.maxAbs)
          && r.mean == Sum(vs) / n
          && r.meanSquare == SquareSum(vs) / n
          && r.variance == Deviation(vs, r.mean) / n
          && 0.0 <= r.variance == r.meanSquare - r.mean * r.mean)
  }

  lemma ResultDescribes(vs: seq<real>, r: Result)
    requires r.Result? && vs != [] && IsLeast(vs, r.min) && IsGreatest(vs, r.max)
    requires r.maxAbs == if r.max > -r.min then r.max else -r.min
    requires |vs| as real * r.mean == Sum(vs)
    requires r.meanSquare == SquareSum(vs) / |vs| as real && r.variance == Deviation(vs, r.mean) / |vs| as real
    ensures Describes(vs, r)
  {
    hide Deviation, Sum, SquareSum;
    GreatestAbs(vs, r.min, r.max);
    VarianceIsLeast(vs, r.mean, r.mean);
    DeviationNotNegative(vs, r.mean);
    Quotients(|vs| as real, r.mean, Sum(vs), SquareSum(vs), Deviation(vs, r.mean));
  }

  /** What the fields say about the values: the results of going through them all. */
  ghost predicate Summary(vs: seq<real>, num: nat, min: real, max: real, mean: real, sumSqr: real, sumDiffSqr: real) {
    && num == |vs|
    && num as real * mean == Sum(vs)
    && sumSqr == SquareSum(vs)
    && sumDiffSqr == Deviation(vs, mean)
    && (vs != [] ==> IsLeast(vs, min) && IsGreatest(vs, max))
    && (vs == [] ==> mean == 0.0)
  }

  lemma SummaryStep(vs: seq<real>, num: nat, min: real, max: real, mean: real, sumSqr: real, sumDiffSqr: real, v: real,
                    newMin: real, newMax: real, newMean: real, newSumSqr: real, newSumDiffSqr: real)
    requires Summary(vs, num, min, max, mean, sumSqr, sumDiffSqr)
    requires newMin == (if num == 0 || min > v then v else min) && newMax == (if num == 0 || max < v then v else max)
    requires newMean == mean + (v - mean) / (num + 1) as real
    requires newSumSqr == sumSqr + v * v && newSumDiffSqr == sumDiffSqr + (v - mean) * (v - newMean)
    ensures Summary(vs + [v], num + 1, newMin, newMax, newMean, newSumSqr, newSumDiffSqr)
  {
    hide Deviation, Sum, SquareSum, IsLeast, IsGreatest;
    ExtremesStep(vs, min, max, v);
    MeanStep(num, mean, v, newMean, Sum(vs));
    DeviationStep(vs, mean, newMean, v);
    Appended(vs, v);
  }

  class Stats {
    var num: nat
    var min: real
    var max: real
    var mean: real
    var sumSqr: real
    var sumDiffSqr: real
    /** All values since the last reset. */
    ghost var values: seq<real>

    ghost predicate Valid()
      reads this
    {
      Summary(values, num, min, max, mean, sumSqr, sumDiffSqr)
    }

    constructor ()
      ensures Valid() && values == []
    {
      num, min, max, mean, sumSqr, sumDiffSqr := 0, 0.0, 0.0, 0.0, 0.0, 0.0;
      values := [];
    }

    method AddValue(value: real)
      requires Valid()
      modifies this
      ensures Valid() && values == old(values) + [value]
    {
      hide Summary;
      ghost var n, least, greatest, squares, deviations := num, min, max, sumSqr, sumDiffSqr;
      var oldMean := mean;
      if num == 0 || max < value {
        max := value;
      }
      if num == 0 || min > value {
        min := value;
      }
      num := num + 1;
      mean := oldMean + (value - oldMean) / num as real;
      sumSqr := sumSqr + value * value;
      sumDiffSqr := sumDiffSqr + (value - oldMean) * (value - mean);
      SummaryStep(values, n, least, greatest, oldMean, squares, deviations, value, min, max, mean, sumSqr, sumDiffSqr);
      values := values + [value];
    }

    /** stats_get_result: without values there is none, otherwise it describes all values since the reset. */
    method GetResult() returns (r: Result)
      requires Valid()
      ensures Describes(values, r)
    {
      hide Deviation, Sum, SquareSum;
      if num == 0 {
        return NoValues;
      }
      var maxAbs := if max > -min then max else -min;
      r := Result(min, max, maxAbs, mean, sumSqr / num as real, sumDiffSqr / num as real);
      ResultDescribes(values, r);
    }

    method Reset()
      modifies this
      ensures Valid() && values == []
    {
      num, min, max, mean, sumSqr, sumDiffSqr := 0, 0.0, 0.0, 0.0, 0.0, 0.0;
      values := [];
    }
  }

  lemma ExtremesStep(vs: seq<real>, least: real, greatest: real, v: real)
    requires vs != [] ==> IsLeast(vs, least) && IsGreatest(vs, greatest)
    ensures IsLeast(vs + [v], if vs == [] || least > v then v else least)
    ensures IsGreatest(vs + [v], if vs == [] || greatest < v then v else greatest)
  {
    assert forall x :: x in vs + [v] <==> x in vs || x == v;
  }

  lemma MeanStep(n: nat, m: real, v: real, m': real, sum: real)
    requires sum == n as real * m && m' == m + (v - m) / (n + 1) as real
    ensures (n as real + 1.0) * m' == sum + v && (n + 1) as real == n as real + 1.0
  {
    var k := n as real + 1.0;
    var q := (v - m) / k;
    assert k * q == v - m;
    assert k * (m + q) == k * m + k * q;
    assert k * m == n as real * m + m;
  }

  /** The largest magnitude belongs to the least or to the greatest value. */
  lemma GreatestAbs(vs: seq<real>, least: real, greatest: real)
    requires IsLeast(vs, least) && IsGreatest(vs, greatest)
    ensures var a := if greatest > -least then greatest else -least;
            (forall v :: v in vs ==> Abs(v) <= a) && (exists v :: v in vs && Abs(v) == a)
  {
    var v := if greatest > -least then greatest else least;
    assert v in vs && Abs(v) == if greatest > -least then greatest else -least;
  }

  lemma Quotients(n: real, m: real, sum: real, squares: real, deviations: real)
    requires n > 0.0 && n * m == sum && deviations >= 0.0 && deviations == squares - n * (m * m)
    ensures deviations / n >= 0.0 && deviations / n == squares / n - m * m && m == sum / n
  {
    assert squares / n == deviations / n + m * m by {
      assert n * (deviations / n + m * m) == squares;
    }
  }
}
