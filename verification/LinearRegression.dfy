/** Least-squares regression over exact reals, and the sliding window that feeds it. */
module LinearRegression {
  import opened Rounding

  datatype Point = Point(x: real, y: real)
  datatype Line = Line(slope: real, intercept: real) {
    function At(x: real): real {
      slope * x + intercept
    }
  }

  /** `accumulate` from the left. */
  function Sum(ps: seq<Point>, f: Point -> real): real {
    if ps == [] then 0.0 else Sum(ps[..|ps| - 1], f) + f(ps[|ps| - 1])
  }

  function XOf(): Point -> real { (p: Point) => p.x }
  function YOf(): Point -> real { (p: Point) => p.y }
  function XX(meanX: real): Point -> real { (p: Point) => (p.x - meanX) * (p.x - meanX) }
  function XY(meanX: real, meanY: real): Point -> real { (p: Point) => (p.x - meanX) * (p.y - meanY) }

  function Mean(ps: seq<Point>, f: Point -> real): real
    requires ps != []
  {
    Sum(ps, f) / |ps| as real
  }

  function Regression(ps: seq<Point>): Line
    requires ps != []
  {
    var meanX := Mean(ps, XOf());
    var productXX := Sum(ps, XX(meanX));
    var meanY := Mean(ps, YOf());
    var productXY := Sum(ps, XY(meanX, meanY));
    LineFrom(meanX, meanY, productXX, productXY)
  }

  function LineFrom(meanX: real, meanY: real, productXX: real, productXY: real): Line {
    var slope := if productXX == 0.0 then 0.0 else productXY / productXX;
    Line(slope, meanY - slope * meanX)
  }

  function Residual(l: Line): Point -> real { (p: Point) => p.y - l.At(p.x) }
  function ResidualX(l: Line): Point -> real { (p: Point) => (p.y - l.At(p.x)) * p.x }
  function SquaredResidual(l: Line): Point -> real { (p: Point) => (p.y - l.At(p.x)) * (p.y - l.At(p.x)) }
  function SquaredValue(l: Line): Point -> real { (p: Point) => l.At(p.x) * l.At(p.x) }

  /** The sum of squared residuals of a line. */
  function Error(ps: seq<Point>, l: Line): real {
    Sum(ps, SquaredResidual(l))
  }

  lemma {:induction false} SumConcat(a: seq<Point>, b: seq<Point>, f: Point -> real)
    ensures Sum(a + b, f) == Sum(a, f) + Sum(b, f)
    decreases |b|
  {
    if b == [] {
      assert a + b == a;
    } else {
      var front := b[..|b| - 1];
      SumConcat(a, front, f);
      assert (a + b)[..|a + b| - 1] == a + front;
    }
  }

  function One(): Point -> real { (p: Point) => 1.0 }

  lemma {:induction false} SumOfOnes(ps: seq<Point>)
    ensures Sum(ps, One()) == |ps| as real
  {
    if ps != [] {
      SumOfOnes(ps[..|ps| - 1]);
    }
  }

  lemma Distribute(a: real, s: real, t: real)
    ensures a * (s + t) == a * s + a * t
  {
  }

  lemma {:induction false} SumOfResiduals(ps: seq<Point>, l: Line)
    ensures Sum(ps, Residual(l)) == Sum(ps, YOf()) - l.slope * Sum(ps, XOf()) - l.intercept * Sum(ps, One())
  {
    if ps != [] {
      var front, p := ps[..|ps| - 1], ps[|ps| - 1];
      SumOfResiduals(front, l);
      Distribute(l.slope, Sum(front, XOf()), p.x);
      Distribute(l.intercept, Sum(front, One()), 1.0);
    }
  }

  lemma {:induction false} SumOfResidualsX(ps: seq<Point>, l: Line, mx: real, my: real)
    requires l.intercept == my - l.slope * mx
    ensures Sum(ps, ResidualX(l)) == Sum(ps, XY(mx, my)) - l.slope * Sum(ps, XX(mx)) + mx * Sum(ps, Residual(l))
  {
    if ps != [] {
      var front, p := ps[..|ps| - 1], ps[|ps| - 1];
      SumOfResidualsX(front, l, mx, my);
      PointResidual(p, l, mx, my);
      Distribute(l.slope, Sum(front, XX(mx)), XX(mx)(p));
      Distribute(mx, Sum(front, Residual(l)), Residual(l)(p));
    }
  }

  /** Around a point that the line goes through, the residuals are made of the deviations. */
  lemma PointResidual(p: Point, l: Line, mx: real, my: real)
    requires l.intercept == my - l.slope * mx
    ensures ResidualX(l)(p) == XY(mx, my)(p) - l.slope * XX(mx)(p) + mx * Residual(l)(p)
  {
    var dx, dy := p.x - mx, p.y - my;
    assert p.y - l.At(p.x) == dy - l.slope * dx;
    assert (dy - l.slope * dx) * (dx + mx) == dx * dy - l.slope * (dx * dx) + mx * (dy - l.slope * dx);
  }

  /** How the error changes from one line to another. */
  lemma {:induction false} ErrorOfShiftedLine(ps: seq<Point>, l: Line, d: Line)
    ensures Error(ps, Line(l.slope + d.slope, l.intercept + d.intercept)) ==
            Error(ps, l) - 2.0 * d.slope * Sum(ps, ResidualX(l)) - 2.0 * d.intercept * Sum(ps, Residual(l))
            + Sum(ps, SquaredValue(d))
    ensures Sum(ps, SquaredValue(d)) >= 0.0
  {
    if ps != [] {
      ErrorOfShiftedLine(ps[..|ps| - 1], l, d);
      PointError(ps[|ps| - 1], l, d);
    }
  }

  lemma PointError(p: Point, l: Line, d: Line)
    ensures SquaredResidual(Line(l.slope + d.slope, l.intercept + d.intercept))(p) ==
            SquaredResidual(l)(p) - 2.0 * d.slope * ResidualX(l)(p) - 2.0 * d.intercept * Residual(l)(p)
            + SquaredValue(d)(p)
    ensures SquaredValue(d)(p) >= 0.0
  {
  }

  /** If no x deviates from the mean, nothing covaries with x. */
  lemma {:induction false} NoDeviation(ps: seq<Point>, mx: real, my: real)
    ensures Sum(ps, XX(mx)) >= 0.0
    ensures Sum(ps, XX(mx)) == 0.0 ==> Sum(ps, XY(mx, my)) == 0.0
  {
    if ps != [] {
      var p := ps[|ps| - 1];
      NoDeviation(ps[..|ps| - 1], mx, my);
      var d := p.x - mx;
      Square(d);
      assert XX(mx)(p) == d * d;
      if d == 0.0 { assert XY(mx, my)(p) == 0.0 * (p.y - my); }
    }
  }

  lemma Square(d: real)
    ensures d * d >= 0.0 && (d * d == 0.0 ==> d == 0.0)
  {
    if d != 0.0 { assert d * d / d == d; }
  }

  lemma ResidualsCancel(ps: seq<Point>)
    requires ps != []
    ensures Sum(ps, Residual(Regression(ps))) == 0.0
  {
    var l, n := Regression(ps), |ps| as real;
    SumOfResiduals(ps, l);
    SumOfOnes(ps);
    BalancedAtMean(n, Sum(ps, XOf()), Sum(ps, YOf()), Mean(ps, XOf()), Mean(ps, YOf()), l, Sum(ps, Residual(l)));
  }

  lemma ResidualsUncorrelated(ps: seq<Point>, l: Line, mx: real, my: real, xx: real, xy: real)
    requires xx == Sum(ps, XX(mx)) && xy == Sum(ps, XY(mx, my)) && l == LineFrom(mx, my, xx, xy)
    requires Sum(ps, Residual(l)) == 0.0
    ensures Sum(ps, ResidualX(l)) == 0.0
  {
    InterceptOf(l, mx, my, xx, xy);
    SumOfResidualsX(ps, l, mx, my);
    NoDeviation(ps, mx, my);
    SlopeCancels(l.slope, xx, xy, mx, Sum(ps, Residual(l)), Sum(ps, ResidualX(l)));
  }

  lemma InterceptOf(l: Line, mx: real, my: real, xx: real, xy: real)
    requires l == LineFrom(mx, my, xx, xy)
    ensures l.intercept == my - l.slope * mx
    ensures l.slope == if xx == 0.0 then 0.0 else xy / xx
  {
  }

  /** The regression line leaves no residual on average and none correlated with x. */
  lemma NormalEquations(ps: seq<Point>)
    requires ps != []
    ensures Sum(ps, Residual(Regression(ps))) == 0.0
    ensures Sum(ps, ResidualX(Regression(ps))) == 0.0
  {
    ResidualsCancel(ps);
    var mx, my := Mean(ps, XOf()), Mean(ps, YOf());
    ResidualsUncorrelated(ps, Regression(ps), mx, my, Sum(ps, XX(mx)), Sum(ps, XY(mx, my)));
  }

  lemma BalancedAtMean(n: real, sx: real, sy: real, mx: real, my: real, l: Line, residual: real)
    requires n > 0.0 && mx == sx / n && my == sy / n && l.intercept == my - l.slope * mx
    requires residual == sy - l.slope * sx - l.intercept * n
    ensures residual == 0.0
  {
    assert mx * n == sx && my * n == sy;
    assert (my - l.slope * mx) * n == my * n - l.slope * (mx * n);
  }

  lemma SlopeCancels(slope: real, xx: real, xy: real, mx: real, residual: real, residualX: real)
    requires slope == if xx == 0.0 then 0.0 else xy / xx
    requires xx == 0.0 ==> xy == 0.0
    requires residual == 0.0 && residualX == xy - slope * xx + mx * residual
    ensures residualX == 0.0
  {
    if xx != 0.0 { assert xy / xx * xx == xy; }
  }

  /** No line has a smaller sum of squared residuals, whatever the points, also when all x agree. */
  lemma RegressionIsOptimal(ps: seq<Point>, other: Line)
    requires ps != []
    ensures Error(ps, Regression(ps)) <= Error(ps, other)
  {
    var l := Regression(ps);
    var d := Line(other.slope - l.slope, other.intercept - l.intercept);
    NormalEquations(ps);
    ErrorOfShiftedLine(ps, l, d);
    assert Line(l.slope + d.slope, l.intercept + d.intercept) == other;
  }

  lemma {:induction false} ZeroEverywhere(ps: seq<Point>, d: Line, k: nat)
    requires Sum(ps, SquaredValue(d)) <= 0.0 && k < |ps|
    ensures d.At(ps[k].x) == 0.0
  {
    var front, p := ps[..|ps| - 1], ps[|ps| - 1];
    SquaresSum(front, d);
    Square(d.At(p.x));
    assert Sum(ps, SquaredValue(d)) == Sum(front, SquaredValue(d)) + d.At(p.x) * d.At(p.x);
    if k < |ps| - 1 { ZeroEverywhere(front, d, k); }
  }

  lemma {:induction false} SquaresSum(ps: seq<Point>, d: Line)
    ensures Sum(ps, SquaredValue(d)) >= 0.0
  {
    if ps != [] {
      SquaresSum(ps[..|ps| - 1], d);
      Square(d.At(ps[|ps| - 1].x));
    }
  }

  lemma TwoZeros(d: Line, x: real, y: real)
    requires x != y && d.At(x) == 0.0 && d.At(y) == 0.0
    ensures d.slope == 0.0 && d.intercept == 0.0
  {
    assert d.slope * (x - y) == 0.0;
    assert d.slope * (x - y) / (x - y) == d.slope;
  }

  /** If two points differ in x, the regression line is the only one with so small an error. */
  lemma RegressionIsUnique(ps: seq<Point>, other: Line, i: nat, j: nat)
    requires i < |ps| && j < |ps| && ps[i].x != ps[j].x
    requires Error(ps, other) <= Error(ps, Regression(ps))
    ensures other == Regression(ps)
  {
    var l := Regression(ps);
    var d := Line(other.slope - l.slope, other.intercept - l.intercept);
    NormalEquations(ps);
    ErrorOfShiftedLine(ps, l, d);
    assert Line(l.slope + d.slope, l.intercept + d.intercept) == other;
    ZeroEverywhere(ps, d, i);
    ZeroEverywhere(ps, d, j);
    TwoZeros(d, ps[i].x, ps[j].x);
  }

  lemma OneMore(total: real, n: real, m: real, x: real)
    requires total == n * x && m == n + 1.0
    ensures total + x == m * x
  {
    Distribute(x, n, 1.0);
  }

  lemma AtTheMean(p: Point, x: real)
    requires p.x == x
    ensures XX(x)(p) == 0.0
  {
  }

  lemma {:induction false} SumOfSameX(ps: seq<Point>, x: real)
    requires forall p :: p in ps ==> p.x == x
    ensures Sum(ps, XOf()) == |ps| as real * x
    ensures Sum(ps, XX(x)) == 0.0
  {
    if ps != [] {
      var front, p := ps[..|ps| - 1], ps[|ps| - 1];
      assert p in ps;
      SumOfSameX(front, x);
      OneMore(Sum(front, XOf()), |front| as real, |ps| as real, x);
      AtTheMean(p, x);
    }
  }

  /** If all points have the same x, the line is level, at the mean of the values. */
  lemma SameXIsLevel(ps: seq<Point>, x: real, at: real)
    requires ps != [] && forall p :: p in ps ==> p.x == x
    ensures Regression(ps).slope == 0.0 && Regression(ps).At(at) == Sum(ps, YOf()) / |ps| as real
  {
    SumOfSameX(ps, x);
    MeanOfSame(Sum(ps, XOf()), |ps| as real, x);
    assert Mean(ps, XOf()) == x;
    LevelLine(Regression(ps), Mean(ps, YOf()), x, at);
  }

  lemma LevelLine(l: Line, y: real, x: real, at: real)
    requires l.slope == 0.0 && l.intercept == y - l.slope * x
    ensures l.At(at) == y
  {
  }

  lemma MeanOfSame(total: real, n: real, x: real)
    requires n > 0.0 && total == n * x
    ensures total / n == x
  {
  }

  /** The order of two parts of the data does not matter. */
  lemma RegressionOfRotation(a: seq<Point>, b: seq<Point>)
    requires a + b != []
    ensures Regression(a + b) == Regression(b + a)
  {
    var mx, my := Mean(a + b, XOf()), Mean(a + b, YOf());
    RotatedSum(a, b, XOf());
    RotatedSum(a, b, YOf());
    assert |a + b| == |b + a|;
    assert Mean(b + a, XOf()) == mx && Mean(b + a, YOf()) == my;
    RotatedSum(a, b, XX(mx));
    RotatedSum(a, b, XY(mx, my));
  }

  lemma RegressionOfRing(ring: seq<Point>, at: nat, window: seq<Point>)
    requires ring != [] && at <= |ring| && window == ring[at..] + ring[..at]
    ensures Regression(ring) == Regression(window)
  {
    assert ring[..at] + ring[at..] == ring;
    RegressionOfRotation(ring[at..], ring[..at]);
  }

  lemma RotatedSum(a: seq<Point>, b: seq<Point>, f: Point -> real)
    ensures Sum(a + b, f) == Sum(b + a, f)
  {
    SumConcat(a, b, f);
    SumConcat(b, a, f);
  }

  // ---- HostTimeFilter ----

  const NUM_POINTS := 512

  /** The newest samples, at most NUM_POINTS of them. */
  function Window(history: seq<Point>): seq<Point> {
    if |history| <= NUM_POINTS then history else history[|history| - NUM_POINTS..]
  }

  /** The window: all samples, or the last 512 of them. */
  lemma WindowIsLast512(history: seq<Point>)
    ensures |Window(history)| == (if |history| < 512 then |history| else 512)
    ensures Window(history) == history[|history| - |Window(history)|..]
  {
  }

  /** Read from `index` round to `index` the ring holds the window, oldest sample first. */
  ghost predicate IsRing(points: seq<Point>, index: nat, history: seq<Point>) {
    && index <= |points| && index < NUM_POINTS
    && (|points| < NUM_POINTS ==> index == |points| == |history|)
    && (|points| >= NUM_POINTS ==> |points| == NUM_POINTS <= |history|)
    && points[index..] + points[..index] == Window(history)
  }

  class HostTimeFilter {
    var mIndex: nat
    var mPoints: seq<Point>
    /** All samples since the last reset. */
    ghost var history: seq<Point>

    ghost predicate Valid()
      reads this
    {
      IsRing(mPoints, mIndex, history)
    }

    constructor ()
      ensures Valid() && history == []
    {
      mIndex, mPoints, history := 0, [], [];
    }

    method Reset()
      modifies this
      ensures Valid() && history == []
    {
      mIndex, mPoints, history := 0, [], [];
    }

    method Add(point: Point)
      requires Valid()
      modifies this
      ensures Valid() && mPoints != [] && history == old(history) + [point]
    {
      RingAdvances(mPoints, mIndex, history, point);
      ghost var advanced := Advance(mPoints, mIndex, point);
      if |mPoints| < NUM_POINTS {
        mPoints := mPoints + [point];
      } else {
        mPoints := mPoints[mIndex := point];
      }
      mIndex := (mIndex + 1) % NUM_POINTS;
      assert mPoints == advanced.0 && mIndex == advanced.1;
      history := history + [point];
    }

    /** The host time predicted for a sample time is the rounded value, at that sample time, of the
        least-squares line through the samples of the window, the new sample included. */
    method SampleTimeToHostTime(sampleTime: real, micros: int) returns (hostTime: int)
      requires Valid()
      modifies this
      ensures Valid()
      ensures history == old(history) + [Point(sampleTime, micros as real)]
      ensures hostTime == LRound(Regression(Window(history)).At(sampleTime))
    {
      Add(Point(sampleTime, micros as real));
      RegressionOfRing(mPoints, mIndex, Window(history));
      hostTime := LRound(Regression(mPoints).At(sampleTime));
    }
  }

  /** The ring and index after a new sample. */
  ghost function Advance(points: seq<Point>, index: nat, p: Point): (seq<Point>, nat)
    requires index < |points| || |points| < NUM_POINTS
  {
    (if |points| < NUM_POINTS then points + [p] else points[index := p], (index + 1) % NUM_POINTS)
  }

  lemma RingGrows(points: seq<Point>, index: nat, history: seq<Point>, p: Point)
    requires IsRing(points, index, history) && |points| < NUM_POINTS
    ensures IsRing(points + [p], if index + 1 == NUM_POINTS then 0 else index + 1, history + [p])
  {
    var more := points + [p];
    assert points[index..] + points[..index] == points;
    assert more[..|more|] == more && more[0..] == more && more[|more|..] + more == more && more + more[..0] == more;
  }

  lemma RingTurns(points: seq<Point>, index: nat, history: seq<Point>, p: Point)
    requires IsRing(points, index, history) && |points| == NUM_POINTS
    ensures IsRing(points[index := p], (index + 1) % NUM_POINTS, history + [p])
  {
    RingOverwrite(points, index, p);
    assert Window(history + [p]) == Window(history)[1..] + [p];
  }

  lemma RingAdvances(points: seq<Point>, index: nat, history: seq<Point>, p: Point)
    requires IsRing(points, index, history)
    ensures var next := Advance(points, index, p); IsRing(next.0, next.1, history + [p]) && next.0 != []
  {
    if |points| < NUM_POINTS {
      RingGrows(points, index, history, p);
    } else {
      RingTurns(points, index, history, p);
    }
  }

  /** Overwriting the slot at the index and advancing drops the oldest element and adds the new one. */
  lemma RingOverwrite(ring: seq<Point>, at: nat, p: Point)
    requires at < |ring|
    ensures var next := (at + 1) % |ring|;
            ring[at := p][next..] + ring[at := p][..next] == (ring[at..] + ring[..at])[1..] + [p]
  {
    var after := ring[at := p];
    if at + 1 == |ring| {
      ModUnique(at + 1, |ring|, 0, 1);
      assert after[0..] + after[..0] == ring[..at] + [p];
    } else {
      ModUnique(at + 1, |ring|, at + 1, 0);
      assert after[at + 1..] == ring[at + 1..] && after[..at + 1] == ring[..at] + [p];
    }
  }
}
