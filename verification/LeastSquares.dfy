/** Weighted least squares over a list of samples: the mathematics behind linreg.c. */
module LeastSquares {
  /** A sample relative to the servo's reference point. */
  datatype Sample = Sample(x: real, y: real, w: real)

  /** The five running sums that the servo extends as it visits older samples. */
  datatype Sums = Sums(x: real, y: real, xy: real, x2: real, w: real)

  const NO_SUMS := Sums(0.0, 0.0, 0.0, 0.0, 0.0)

  function Include(t: Sums, p: Sample): Sums {
    Sums(t.x + p.x * p.w, t.y + p.y * p.w, t.xy + p.x * p.y * p.w, t.x2 + p.x * p.x * p.w, t.w + p.w)
  }

  function SumsOf(s: seq<Sample>): Sums {
    if s == [] then NO_SUMS else Include(SumsOf(s[..|s| - 1]), s[|s| - 1])
  }

  // Products and squares have names so that the lemmas about whole lists can hide them and stay linear.
  function Mul(a: real, b: real): real { a * b }

  function Square(v: real): real { v * v }

  function Penalty(w: real, v: real): real { w * Square(v) }

  /** The height of the line with slope a and intercept b at a sample. */
  function Line(p: Sample, a: real, b: real): real { b + a * p.x }

  /** The weighted squared error of a line. */
  function Error(s: seq<Sample>, a: real, b: real): real {
    if s == [] then 0.0
    else
      var p := s[|s| - 1];
      Error(s[..|s| - 1], a, b) + Penalty(p.w, p.y - Line(p, a, b))
  }

  /** The weighted sum of the squared heights of a line. */
  function Spread(s: seq<Sample>, a: real, b: real): real {
    if s == [] then 0.0
    else
      var p := s[|s| - 1];
      Spread(s[..|s| - 1], a, b) + Penalty(p.w, Line(p, a, b))
  }

  ghost predicate PositiveWeights(s: seq<Sample>) {
    forall i :: 0 <= i < |s| ==> s[i].w > 0.0
  }

  ghost predicate TwoAbscissae(s: seq<Sample>) {
    exists i, j :: 0 <= i < j < |s| && s[i].x != s[j].x
  }

  /** Every other line has a larger error. */
  ghost predicate BestLine(s: seq<Sample>, slope: real, intercept: real) {
    forall a: real, b: real :: a != slope || b != intercept ==> Error(s, slope, intercept) < Error(s, a, b)
  }

  /** The weighted sums of the residuals, plain and multiplied by x; both vanish for the fitted line. */
  function Residuals(t: Sums, a: real, b: real): real { t.y - b * t.w - a * t.x }

  function Moments(t: Sums, a: real, b: real): real { t.xy - b * t.x - a * t.x2 }

  // ----- moving from one line to another

  lemma MulSum(k: real, sum: real, u: real, v: real)
    requires sum == u + v
    ensures Mul(k, sum) == Mul(k, u) + Mul(k, v)
  {
  }

  lemma NothingSummed(a: real, b: real, da: real, db: real)
    ensures Mul(db, Residuals(NO_SUMS, a, b)) == 0.0 == Mul(da, Moments(NO_SUMS, a, b))
    ensures Mul(db * db, 0.0) == Mul(da * db, 0.0) == Mul(da * da, 0.0) == 0.0
  {
  }

  /** One sample's share of ErrorShift. */
  lemma ShiftStep(p: Sample, a: real, b: real, da: real, db: real)
    ensures var r := p.y - Line(p, a, b);
            Penalty(p.w, p.y - Line(p, a + da, b + db))
            == Penalty(p.w, r) - 2.0 * Mul(db, p.w * r) - 2.0 * Mul(da, p.x * (p.w * r))
               + Penalty(p.w, Line(p, da, db))
  {
    var r, l := p.y - Line(p, a, b), Line(p, da, db);
    assert p.y - Line(p, a + da, b + db) == r - l;
    assert Square(r - l) == Square(r) - 2.0 * (l * r) + Square(l);
  }

  /** How one sample changes the two residual sums. */
  lemma ResidualStep(t: Sums, p: Sample, a: real, b: real)
    ensures Residuals(Include(t, p), a, b) == Residuals(t, a, b) + p.w * (p.y - Line(p, a, b))
    ensures Moments(Include(t, p), a, b) == Moments(t, a, b) + p.x * (p.w * (p.y - Line(p, a, b)))
  {
  }

  lemma {:induction false} ErrorShift(s: seq<Sample>, a: real, b: real, da: real, db: real)
    ensures Error(s, a + da, b + db) == Error(s, a, b) - 2.0 * Mul(db, Residuals(SumsOf(s), a, b))
                                        - 2.0 * Mul(da, Moments(SumsOf(s), a, b)) + Spread(s, da, db)
  {
    hide Mul, Penalty, Line, Residuals, Moments;
    if s == [] {
      NothingSummed(a, b, da, db);
    } else {
      var p, t := s[|s| - 1], SumsOf(s[..|s| - 1]);
      ErrorShift(s[..|s| - 1], a, b, da, db);
      ShiftStep(p, a, b, da, db);
      ResidualStep(t, p, a, b);
      var r := p.y - Line(p, a, b);
      MulSum(db, Residuals(SumsOf(s), a, b), Residuals(t, a, b), p.w * r);
      MulSum(da, Moments(SumsOf(s), a, b), Moments(t, a, b), p.x * (p.w * r));
    }
  }

  // ----- the spread: from the sums, and its sign

  lemma PenaltyExpands(p: Sample, da: real, db: real)
    ensures Penalty(p.w, Line(p, da, db))
            == Mul(db * db, p.w) + 2.0 * Mul(da * db, p.x * p.w) + Mul(da * da, p.x * p.x * p.w)
  {
  }

  lemma SumsStep(s: seq<Sample>)
    requires s != []
    ensures SumsOf(s) == Include(SumsOf(s[..|s| - 1]), s[|s| - 1])
  {
    hide Include;
  }

  lemma {:induction false} SpreadOfSums(s: seq<Sample>, da: real, db: real)
    ensures Spread(s, da, db)
            == Mul(db * db, SumsOf(s).w) + 2.0 * Mul(da * db, SumsOf(s).x) + Mul(da * da, SumsOf(s).x2)
  {
    hide Mul, Penalty, Line, SumsOf;
    if s == [] {
      assert SumsOf(s) == NO_SUMS by { NothingSampled(); }
      NothingSummed(0.0, 0.0, da, db);
    } else {
      var p, t := s[|s| - 1], SumsOf(s[..|s| - 1]);
      SpreadOfSums(s[..|s| - 1], da, db);
      PenaltyExpands(p, da, db);
      SumsStep(s);
      MulSum(db * db, SumsOf(s).w, t.w, p.w);
      MulSum(da * db, SumsOf(s).x, t.x, p.x * p.w);
      MulSum(da * da, SumsOf(s).x2, t.x2, p.x * p.x * p.w);
    }
  }

  lemma NothingSampled()
    ensures SumsOf([]) == NO_SUMS
  {
  }

  lemma ProductPositive(u: real, v: real, product: real)
    requires u > 0.0 && v > 0.0 && product == u * v
    ensures product > 0.0
  {
  }

  lemma PenaltySign(w: real, v: real)
    requires w > 0.0
    ensures Penalty(w, v) >= 0.0
    ensures v != 0.0 ==> Penalty(w, v) > 0.0
  {
    if v > 0.0 {
      ProductPositive(v, v, Square(v));
      ProductPositive(w, Square(v), Penalty(w, v));
    } else if v < 0.0 {
      ProductPositive(-v, -v, Square(v));
      ProductPositive(w, Square(v), Penalty(w, v));
    }
  }

  lemma {:induction false} SpreadNonNegative(s: seq<Sample>, da: real, db: real)
    requires PositiveWeights(s)
    ensures Spread(s, da, db) >= 0.0
  {
    hide Penalty, Line;
    if s != [] {
      SpreadNonNegative(s[..|s| - 1], da, db);
      PenaltySign(s[|s| - 1].w, Line(s[|s| - 1], da, db));
    }
  }

  lemma {:induction false} SpreadPositive(s: seq<Sample>, da: real, db: real, i: nat)
    requires PositiveWeights(s) && i < |s| && Line(s[i], da, db) != 0.0
    ensures Spread(s, da, db) > 0.0
  {
    hide Penalty, Line;
    PenaltySign(s[|s| - 1].w, Line(s[|s| - 1], da, db));
    if i == |s| - 1 {
      SpreadNonNegative(s[..|s| - 1], da, db);
    } else {
      SpreadPositive(s[..|s| - 1], da, db, i);
    }
  }

  /** A line that is not zero everywhere vanishes at one abscissa at most. */
  lemma OneRoot(p: Sample, q: Sample, da: real, db: real)
    requires p.x != q.x && (da != 0.0 || db != 0.0)
    ensures Line(p, da, db) != 0.0 || Line(q, da, db) != 0.0
  {
  }

  lemma SpreadSeparates(s: seq<Sample>, da: real, db: real)
    requires PositiveWeights(s) && TwoAbscissae(s)
    requires da != 0.0 || db != 0.0
    ensures Spread(s, da, db) > 0.0
  {
    hide Line;
    var i, j :| 0 <= i < j < |s| && s[i].x != s[j].x;
    OneRoot(s[i], s[j], da, db);
    SpreadPositive(s, da, db, if Line(s[i], da, db) != 0.0 then i else j);
  }

  // ----- the fit

  lemma {:induction false} TotalWeightPositive(s: seq<Sample>)
    requires PositiveWeights(s)
    ensures if s == [] then SumsOf(s).w == 0.0 else SumsOf(s).w > 0.0
  {
    if s != [] {
      TotalWeightPositive(s[..|s| - 1]);
    }
  }

  /** The divisor of the slope. */
  function Divisor(t: Sums): real
    requires t.w != 0.0
  {
    t.x2 - t.x * t.x / t.w
  }

  lemma Centre(x: real, x2: real, w: real, m: real)
    requires w != 0.0 && m == -(x / w)
    ensures Mul(m * m, w) + 2.0 * Mul(1.0 * m, x) + Mul(1.0 * 1.0, x2) == x2 - x * x / w
  {
  }

  /** The divisor is the spread around the weighted mean of x, here -m. */
  lemma CentredSpread(s: seq<Sample>, m: real)
    requires SumsOf(s).w != 0.0 && m == -(SumsOf(s).x / SumsOf(s).w)
    ensures Spread(s, 1.0, m) == Divisor(SumsOf(s))
  {
    hide Mul, SumsOf, Spread;
    SpreadOfSums(s, 1.0, m);
    Centre(SumsOf(s).x, SumsOf(s).x2, SumsOf(s).w, m);
  }

  /** Two different abscissae make both divisions of the fit safe. */
  lemma DivisorPositive(s: seq<Sample>)
    requires PositiveWeights(s) && TwoAbscissae(s)
    ensures SumsOf(s).w > 0.0
    ensures Divisor(SumsOf(s)) > 0.0
  {
    TotalWeightPositive(s);
    var m := -(SumsOf(s).x / SumsOf(s).w);
    SpreadSeparates(s, 1.0, m);
    CentredSpread(s, m);
  }

  function Slope(t: Sums): real
    requires t.w != 0.0 && Divisor(t) != 0.0
  {
    (t.xy - t.x * t.y / t.w) / Divisor(t)
  }

  function Intercept(t: Sums, slope: real): real
    requires t.w != 0.0
  {
    (t.y - slope * t.x) / t.w
  }

  lemma NormalEquations(t: Sums)
    requires t.w != 0.0 && Divisor(t) != 0.0
    ensures Residuals(t, Slope(t), Intercept(t, Slope(t))) == 0.0
    ensures Moments(t, Slope(t), Intercept(t, Slope(t))) == 0.0
  {
  }

  /** The line from the sums is the unique minimiser of the weighted squared error. */
  lemma FitIsBest(s: seq<Sample>)
    requires PositiveWeights(s) && TwoAbscissae(s)
    ensures SumsOf(s).w != 0.0 && Divisor(SumsOf(s)) != 0.0
    ensures BestLine(s, Slope(SumsOf(s)), Intercept(SumsOf(s), Slope(SumsOf(s))))
  {
    DivisorPositive(s);
    var slope := Slope(SumsOf(s));
    var intercept := Intercept(SumsOf(s), slope);
    forall a: real, b: real | a != slope || b != intercept
      ensures Error(s, slope, intercept) < Error(s, a, b)
    {
      SmallerError(s, slope, intercept, a, b);
    }
  }

  lemma SmallerError(s: seq<Sample>, slope: real, intercept: real, a: real, b: real)
    requires PositiveWeights(s) && TwoAbscissae(s)
    requires SumsOf(s).w != 0.0 && Divisor(SumsOf(s)) != 0.0
    requires slope == Slope(SumsOf(s)) && intercept == Intercept(SumsOf(s), slope)
    requires a != slope || b != intercept
    ensures Error(s, slope, intercept) < Error(s, a, b)
  {
    hide Slope, Intercept, Divisor, Residuals, Moments;
    NormalEquations(SumsOf(s));
    ErrorShift(s, slope, intercept, a - slope, b - intercept);
    SpreadSeparates(s, a - slope, b - intercept);
    assert slope + (a - slope) == a && intercept + (b - intercept) == b;
  }

  /** With a single abscissa there is no best line, so the guard of FitIsBest is exact. */
  lemma OneAbscissaNoBestLine(s: seq<Sample>, slope: real, intercept: real)
    requires !TwoAbscissae(s)
    ensures !BestLine(s, slope, intercept)
  {
    var x := if s == [] then 0.0 else s[0].x;
    forall i | 0 <= i < |s|
      ensures s[i].x == x
    {
    }
    ErrorOnOneAbscissa(s, x, slope, intercept, slope + 1.0, intercept - x);
  }

  lemma {:induction false} ErrorOnOneAbscissa(s: seq<Sample>, x: real, a: real, b: real, c: real, d: real)
    requires forall i :: 0 <= i < |s| ==> s[i].x == x
    requires b + a * x == d + c * x
    ensures Error(s, a, b) == Error(s, c, d)
  {
    if s != [] {
      ErrorOnOneAbscissa(s[..|s| - 1], x, a, b, c, d);
      SameHeight(s[|s| - 1], a, b, c, d);
    }
  }

  lemma SameHeight(p: Sample, a: real, b: real, c: real, d: real)
    requires b + a * p.x == d + c * p.x
    ensures Line(p, a, b) == Line(p, c, d)
  {
  }

  lemma {:induction false} SumsOnOneAbscissa(s: seq<Sample>, x: real)
    requires forall i :: 0 <= i < |s| ==> s[i].x == x
    ensures SumsOf(s).x == x * SumsOf(s).w && SumsOf(s).x2 == x * x * SumsOf(s).w
  {
    if s != [] {
      hide SumsOf, Include;
      SumsOnOneAbscissa(s[..|s| - 1], x);
      SumsStep(s);
      IncludedOnOneAbscissa(SumsOf(s[..|s| - 1]), s[|s| - 1]);
    }
  }

  lemma IncludedOnOneAbscissa(t: Sums, p: Sample)
    requires t.x == p.x * t.w && t.x2 == p.x * p.x * t.w
    ensures Include(t, p).x == p.x * Include(t, p).w && Include(t, p).x2 == p.x * p.x * Include(t, p).w
  {
    assert p.x * (t.w + p.w) == p.x * t.w + p.x * p.w;
    assert p.x * p.x * (t.w + p.w) == p.x * p.x * t.w + p.x * p.x * p.w;
  }

  /** And with a single abscissa the slope would be divided by zero: two abscissae are what the division needs. */
  lemma DivisorZeroExactly(s: seq<Sample>)
    requires s != [] && PositiveWeights(s)
    ensures SumsOf(s).w > 0.0
    ensures Divisor(SumsOf(s)) == 0.0 <==> !TwoAbscissae(s)
  {
    TotalWeightPositive(s);
    if TwoAbscissae(s) {
      DivisorPositive(s);
    } else {
      var x := s[0].x;
      forall i | 0 <= i < |s|
        ensures s[i].x == x
      {
        assert i > 0 ==> s[0].x == s[i].x;
      }
      SumsOnOneAbscissa(s, x);
      SquareOverWeight(x, SumsOf(s).w);
    }
  }

  lemma SquareOverWeight(x: real, w: real)
    requires w != 0.0
    ensures x * w * (x * w) / w == x * x * w
  {
    assert x * w * (x * w) == x * x * w * w;
  }
}
