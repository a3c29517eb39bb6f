/** The Kalman filter that turns measured clock offsets into one ghost transform, over exact reals. */
module Kalman {
  import opened Rounding
  import opened LinkTime
  import LinearRegression

  // ---- Sample statistics ----

  function Total(ds: seq<real>): real {
    if ds == [] then 0.0 else Total(ds[..|ds| - 1]) + ds[|ds| - 1]
  }

  function SquaresAround(ds: seq<real>, mean: real): real {
    if ds == [] then 0.0
    else SquaresAround(ds[..|ds| - 1], mean) + (ds[|ds| - 1] - mean) * (ds[|ds| - 1] - mean)
  }

  function SampleVariance(ds: seq<real>): real
    requires |ds| >= 2
  {
    SquaresAround(ds, Total(ds) / |ds| as real) / (|ds| - 1) as real
  }

  lemma {:induction false} SquaresNonNegative(ds: seq<real>, mean: real)
    ensures SquaresAround(ds, mean) >= 0.0
  {
    if ds != [] {
      SquaresNonNegative(ds[..|ds| - 1], mean);
      assert (ds[|ds| - 1] - mean) * (ds[|ds| - 1] - mean) >= 0.0;
    }
  }

  lemma TotalsOfPrefix(ds: seq<real>, k: nat, mean: real)
    requires k < |ds|
    ensures Total(ds[..k + 1]) == Total(ds[..k]) + ds[k]
    ensures SquaresAround(ds[..k + 1], mean) == SquaresAround(ds[..k], mean) + (ds[k] - mean) * (ds[k] - mean)
  {
    assert ds[..k + 1][..k] == ds[..k];
  }

  lemma VarianceNonNegative(ds: seq<real>)
    requires |ds| >= 2
    ensures SampleVariance(ds) >= 0.0
  {
    SquaresNonNegative(ds, Total(ds) / |ds| as real);
  }

  /** The values as points above zero: a line is then as good as its intercept is as a centre. */
  function AboveZero(ds: seq<real>): (ps: seq<LinearRegression.Point>)
    ensures |ps| == |ds|
  {
    if ds == [] then [] else AboveZero(ds[..|ds| - 1]) + [LinearRegression.Point(0.0, ds[|ds| - 1])]
  }

  lemma SumOfSnoc(ps: seq<LinearRegression.Point>, p: LinearRegression.Point, f: LinearRegression.Point -> real)
    ensures LinearRegression.Sum(ps + [p], f) == LinearRegression.Sum(ps, f) + f(p)
  {
    assert (ps + [p])[..|ps|] == ps;
  }

  lemma {:induction false} ErrorAboveZero(ds: seq<real>, l: LinearRegression.Line)
    ensures LinearRegression.Error(AboveZero(ds), l) == SquaresAround(ds, l.intercept)
  {
    if ds != [] {
      var front, d := ds[..|ds| - 1], ds[|ds| - 1];
      ErrorAboveZero(front, l);
      SumOfSnoc(AboveZero(front), LinearRegression.Point(0.0, d), LinearRegression.SquaredResidual(l));
      assert l.At(0.0) == l.intercept;
    }
  }

  lemma {:induction false} SumsAboveZero(ds: seq<real>)
    ensures LinearRegression.Sum(AboveZero(ds), LinearRegression.XOf()) == 0.0
    ensures LinearRegression.Sum(AboveZero(ds), LinearRegression.YOf()) == Total(ds)
  {
    if ds != [] {
      var front, p := ds[..|ds| - 1], LinearRegression.Point(0.0, ds[|ds| - 1]);
      SumsAboveZero(front);
      SumOfSnoc(AboveZero(front), p, LinearRegression.XOf());
      SumOfSnoc(AboveZero(front), p, LinearRegression.YOf());
    }
  }

  lemma LineAboveZero(ds: seq<real>)
    requires ds != []
    ensures LinearRegression.Regression(AboveZero(ds)).intercept == Total(ds) / |ds| as real
  {
    SumsAboveZero(ds);
    var mx := LinearRegression.Mean(AboveZero(ds), LinearRegression.XOf());
    assert mx == 0.0 / |ds| as real == 0.0;
  }

  /** The sample variance, times one less than the number of values, is the least sum of squares around
      any centre: no centre has a smaller one, and the mean attains it. */
  lemma VarianceIsLeast(ds: seq<real>, centre: real)
    requires |ds| >= 2
    ensures (|ds| - 1) as real * SampleVariance(ds) <= SquaresAround(ds, centre)
    ensures (|ds| - 1) as real * SampleVariance(ds) == SquaresAround(ds, Total(ds) / |ds| as real)
  {
    var ps, other := AboveZero(ds), LinearRegression.Line(0.0, centre);
    VarianceTimes(ds);
    LineAboveZero(ds);
    LinearRegression.RegressionIsOptimal(ps, other);
    ErrorAboveZero(ds, other);
    ErrorAboveZero(ds, LinearRegression.Regression(ps));
  }

  lemma VarianceTimes(ds: seq<real>)
    requires |ds| >= 2
    ensures (|ds| - 1) as real * SampleVariance(ds) == SquaresAround(ds, Total(ds) / |ds| as real)
  {
    ExactQuotient(SquaresAround(ds, Total(ds) / |ds| as real), (|ds| - 1) as real);
  }

  // ---- Hulls ----

  /** Some input is at most v and some input is at least v. */
  ghost predicate InHull(v: real, inputs: seq<real>) {
    (exists i :: 0 <= i < |inputs| && inputs[i] <= v) && (exists j :: 0 <= j < |inputs| && v <= inputs[j])
  }

  lemma HullGrows(v: real, inputs: seq<real>, more: real)
    requires InHull(v, inputs)
    ensures InHull(v, inputs + [more])
  {
    var i :| 0 <= i < |inputs| && inputs[i] <= v;
    var j :| 0 <= j < |inputs| && v <= inputs[j];
    assert (inputs + [more])[i] <= v <= (inputs + [more])[j];
  }

  lemma HullConvex(v: real, a: real, b: real, inputs: seq<real>)
    requires InHull(a, inputs) && InHull(b, inputs)
    requires a <= v <= b || b <= v <= a
    ensures InHull(v, inputs)
  {
    var lowA :| 0 <= lowA < |inputs| && inputs[lowA] <= a;
    var lowB :| 0 <= lowB < |inputs| && inputs[lowB] <= b;
    var highA :| 0 <= highA < |inputs| && a <= inputs[highA];
    var highB :| 0 <= highB < |inputs| && b <= inputs[highB];
    assert inputs[lowA] <= v || inputs[lowB] <= v;
    assert v <= inputs[highA] || v <= inputs[highB];
  }

  lemma ProductNonNegative(a: real, b: real)
    requires a >= 0.0 && b >= 0.0
    ensures a * b >= 0.0
  {
  }

  lemma Complement(gain: real, d: real)
    ensures (1.0 - gain) * d == d - gain * d
  {
  }

  function Blend(prev: real, value: real, gain: real): real {
    prev + gain * (value - prev)
  }

  /** The update moves from the previous value towards the input and never past it. */
  lemma GainIsBetween(prev: real, value: real, gain: real)
    requires 0.0 <= gain <= 1.0
    ensures var v := Blend(prev, value, gain); prev <= v <= value || value <= v <= prev
  {
    var d := value - prev;
    var e := if d >= 0.0 then d else -d;
    ProductNonNegative(gain, e);
    ProductNonNegative(1.0 - gain, e);
    Complement(gain, e);
    assert d < 0.0 ==> gain * e == -(gain * d);
  }

  /** How far the filter follows an input: 1 adopts it, 0 ignores it. */
  function Gain(coVariance: real, noise: real): (gain: real)
    requires coVariance >= 0.0 && noise >= 0.0
    ensures 0.0 <= gain <= 1.0
  {
    if coVariance + noise != 0.0 then
      QuotientInUnit(coVariance, noise);
      coVariance / (coVariance + noise)
    else 0.7
  }

  lemma QuotientInUnit(a: real, b: real)
    requires a >= 0.0 && b >= 0.0 && a + b != 0.0
    ensures 0.0 <= a / (a + b) <= 1.0
  {
    UnitQuotient(a, a + b);
  }

  lemma UnitQuotient(a: real, s: real)
    requires 0.0 <= a <= s && s > 0.0
    ensures 0.0 <= a / s <= 1.0
  {
    var q := a / s;
    assert q * s == a;
    Complement(q, s);
    if q < 0.0 { ProductPositive(-q, s); }
    if q > 1.0 { ProductPositive(q - 1.0, s); }
  }

  lemma ProductPositive(a: real, b: real)
    requires a > 0.0 && b > 0.0
    ensures a * b > 0.0
  {
  }

  /** The new value lies between the old one and the input, and so in the hull of all inputs. */
  lemma BlendInHull(prev: real, value: real, gain: real, inputs: seq<real>)
    requires InHull(prev, inputs) && InHull(value, inputs) && 0.0 <= gain <= 1.0
    ensures InHull(Blend(prev, value, gain), inputs)
  {
    GainIsBetween(prev, value, gain);
    HullConvex(Blend(prev, value, gain), prev, value, inputs);
  }

  /** The index expression of the filter's history, counted back from the next slot. */
  function Back(counter: nat, k: nat, n: nat): (i: nat)
    requires n > 0 && k <= counter
    ensures i < n
  {
    (counter - k) % n
  }

  /** The measurement noise: measured minus filtered values, slot by slot. */
  function VDiffs(measured: seq<real>, filtered: seq<real>): (ds: seq<real>)
    requires |measured| == |filtered|
    ensures |ds| == |filtered|
  {
    seq(|filtered|, i requires 0 <= i < |filtered| => measured[i] - filtered[i])
  }

  /** The process noise: steps between consecutive filtered values, newest first, going once round
      the ring. */
  function WDiffs(filtered: seq<real>, counter: nat): (ds: seq<real>)
    requires 0 < |filtered| < counter
    ensures |ds| == |filtered|
  {
    var n := |filtered|;
    seq(n, k requires 0 <= k < n => filtered[Back(counter, k + 1, n)] - filtered[Back(counter, k + 2, n)])
  }

  lemma {:induction false} WDiffsTelescope(filtered: seq<real>, counter: nat, k: nat)
    requires 0 < |filtered| < counter && k <= |filtered|
    ensures var n := |filtered|;
            Total(WDiffs(filtered, counter)[..k]) == filtered[Back(counter, 1, n)] - filtered[Back(counter, k + 1, n)]
  {
    if k > 0 {
      WDiffsTelescope(filtered, counter, k - 1);
      TotalsOfPrefix(WDiffs(filtered, counter), k - 1, 0.0);
    }
  }

  /** The steps of the process noise go once round the ring, so their mean is always zero: the
      process variance is the mean square of the steps, whatever the filter has seen. */
  lemma WDiffsCancel(filtered: seq<real>, counter: nat)
    requires 2 <= |filtered| < counter
    ensures Total(WDiffs(filtered, counter)) == 0.0
    ensures SampleVariance(WDiffs(filtered, counter)) ==
            SquaresAround(WDiffs(filtered, counter), 0.0) / (|filtered| - 1) as real
  {
    var n := |filtered|;
    var ds := WDiffs(filtered, counter);
    WDiffsTelescope(filtered, counter, n);
    assert ds[..n] == ds;
    ModShift(counter - 1 - n, n, 1);
  }

  datatype Estimation = Estimation(value: real, coVariance: real)

  /** Value and covariance after one step of the full filter. */
  function Estimate(prev: real, value: real, coVariance: real, wVariance: real, vVariance: real): (r: Estimation)
    requires coVariance >= 0.0 && wVariance >= 0.0 && vVariance >= 0.0
    ensures r.coVariance >= 0.0
  {
    var estimation := coVariance + wVariance;
    var gain := Gain(estimation, vVariance);
    ProductNonNegative(1.0 - gain, estimation);
    Estimation(Blend(prev, value, gain), (1.0 - gain) * estimation)
  }

  lemma EstimateInHull(prev: real, value: real, coVariance: real, wVariance: real, vVariance: real, inputs: seq<real>)
    requires coVariance >= 0.0 && wVariance >= 0.0 && vVariance >= 0.0
    requires InHull(prev, inputs) && InHull(value, inputs)
    ensures InHull(Estimate(prev, value, coVariance, wVariance, vVariance).value, inputs)
  {
    BlendInHull(prev, value, Gain(coVariance + wVariance, vVariance), inputs);
  }

  /** The error variance that is left when the input is followed with weight `g`: of what the filter
      knew, the rest of the weight, and of the input's noise, the weight itself. */
  function Cost(e: real, noise: real, g: real): real {
    (1.0 - g) * (1.0 - g) * e + g * g * noise
  }

  /** Around the gain the cost grows with the square of the distance. */
  lemma CostAround(e: real, noise: real, k: real, g: real)
    requires k * (e + noise) == e
    ensures Cost(e, noise, g) == (1.0 - k) * e + (e + noise) * ((g - k) * (g - k))
  {
    var s := e + noise;
    assert Cost(e, noise, g) == e - 2.0 * (g * e) + g * g * s;
    assert s * ((g - k) * (g - k)) == g * g * s - 2.0 * (g * (k * s)) + k * (k * s);
    assert (1.0 - k) * e == e - k * e;
  }

  lemma GainTimesSum(e: real, noise: real)
    requires e >= 0.0 && noise >= 0.0 && e + noise != 0.0
    ensures Gain(e, noise) * (e + noise) == e
  {
    ExactQuotient(e, e + noise);
  }

  lemma GainAttains(e: real, noise: real)
    requires e >= 0.0 && noise >= 0.0
    ensures Cost(e, noise, Gain(e, noise)) == (1.0 - Gain(e, noise)) * e
  {
    var k := Gain(e, noise);
    if e + noise != 0.0 {
      GainTimesSum(e, noise);
      CostAround(e, noise, k, k);
    } else {
      NoCost(e, noise, k);
    }
  }

  /** The step follows the input with a weight `k` of least error variance, and keeps that variance as its
      covariance: no other weight has a smaller one, and none but `k` attains it. If there is no variance
      at all the weight is 0.7. */
  lemma GainIsOptimal(prev: real, value: real, coVariance: real, wVariance: real, vVariance: real) returns (k: real)
    requires coVariance >= 0.0 && wVariance >= 0.0 && vVariance >= 0.0
    ensures var e, r := coVariance + wVariance, Estimate(prev, value, coVariance, wVariance, vVariance);
            r.value == prev + k * (value - prev) && r.coVariance == Cost(e, vVariance, k)
            && (forall g :: Cost(e, vVariance, g) >= Cost(e, vVariance, k))
            && (e + vVariance != 0.0 ==> forall g :: Cost(e, vVariance, g) == Cost(e, vVariance, k) ==> g == k)
            && (e + vVariance == 0.0 ==> k == 0.7 && r.coVariance == 0.0)
  {
    var e := coVariance + wVariance;
    k := Gain(e, vVariance);
    GainAttains(e, vVariance);
    forall g
      ensures Cost(e, vVariance, g) >= Cost(e, vVariance, k)
      ensures e + vVariance != 0.0 && Cost(e, vVariance, g) == Cost(e, vVariance, k) ==> g == k
    {
      OtherGain(e, vVariance, g);
    }
    if e + vVariance == 0.0 { NoCost(e, vVariance, k); }
  }

  lemma OtherGain(e: real, noise: real, g: real)
    requires e >= 0.0 && noise >= 0.0
    ensures Cost(e, noise, g) >= Cost(e, noise, Gain(e, noise))
    ensures e + noise != 0.0 && Cost(e, noise, g) == Cost(e, noise, Gain(e, noise)) ==> g == Gain(e, noise)
  {
    var s, k := e + noise, Gain(e, noise);
    GainAttains(e, noise);
    if s > 0.0 {
      GainTimesSum(e, noise);
      CostAround(e, noise, k, g);
      SquareNonNegative(g - k);
      ProductNonNegative(s, (g - k) * (g - k));
      OnlyThere(s, g - k);
    } else {
      NoCost(e, noise, g);
    }
  }

  lemma NoCost(e: real, noise: real, g: real)
    requires e == 0.0 && noise == 0.0
    ensures Cost(e, noise, g) == 0.0
  {
  }

  lemma OnlyThere(s: real, d: real)
    requires s > 0.0
    ensures s * (d * d) == 0.0 ==> d == 0.0
  {
    if s * (d * d) == 0.0 {
      ScaledZero(s, d * d);
      LinearRegression.Square(d);
    }
  }

  lemma ScaledZero(s: real, q: real)
    requires s > 0.0 && s * q == 0.0
    ensures q == 0.0
  {
    assert s * q / s == q;
  }

  lemma SquareNonNegative(d: real)
    ensures d * d >= 0.0
  {
  }

  function WVariance(filtered: seq<real>, counter: nat): (v: real)
    requires 2 <= |filtered| < counter
    ensures v >= 0.0
  {
    VarianceNonNegative(WDiffs(filtered, counter));
    SampleVariance(WDiffs(filtered, counter))
  }

  function VVariance(measured: seq<real>, filtered: seq<real>): (v: real)
    requires 2 <= |filtered| == |measured|
    ensures v >= 0.0
  {
    VarianceNonNegative(VDiffs(measured, filtered));
    SampleVariance(VDiffs(measured, filtered))
  }

  // ---- What the filter computes, told without its arrays ----

  datatype Run = Run(outputs: seq<real>, coVariance: real)

  function Last(s: seq<real>): real
    requires s != []
  {
    s[|s| - 1]
  }

  /** The output held for time `j` among the last n: the oldest one has been replaced by the newest. */
  function HeldAt(outputs: seq<real>, n: nat, j: nat): real
    requires n <= |outputs| && |outputs| - n <= j < |outputs|
  {
    if j == |outputs| - n then Last(outputs) else outputs[j]
  }

  /** The steps between consecutive outputs held, newest first, and once more no step at all. */
  function Steps(outputs: seq<real>, n: nat): (ds: seq<real>)
    requires 2 <= n <= |outputs|
    ensures |ds| == n
  {
    var i := |outputs|;
    seq(n, k requires 0 <= k < n =>
      if k < n - 1 then HeldAt(outputs, n, i - 1 - k) - HeldAt(outputs, n, i - 2 - k) else 0.0)
  }

  /** What the last n inputs differ from the outputs held, the newest input from the newest output. */
  function Noise(inputs: seq<real>, outputs: seq<real>, n: nat): (ds: seq<real>)
    requires 2 <= n <= |outputs| && |inputs| == |outputs| + 1
    ensures |ds| == n
  {
    var i := |outputs|;
    seq(n, k requires 0 <= k < n =>
      if k == 0 then inputs[i] - Last(outputs) else inputs[i - n + k] - outputs[i - n + k])
  }

  /** All outputs of the filter for the inputs so far, and its covariance: at first the input, then
      halfway to each input, and from input n on the estimate from the last n inputs and outputs. */
  function Reference(inputs: seq<real>, n: nat): (run: Run)
    requires n >= 2
    ensures |run.outputs| == |inputs| && run.coVariance >= 0.0
    decreases |inputs|
  {
    if inputs == [] then Run([], 1.0)
    else
      var i := |inputs| - 1;
      var before, x := Reference(inputs[..i], n), inputs[i];
      if i == 0 then Run([x], before.coVariance)
      else if i < n then Run(before.outputs + [(Last(before.outputs) + x) / 2.0], before.coVariance)
      else
        VarianceNonNegative(Steps(before.outputs, n));
        VarianceNonNegative(Noise(inputs, before.outputs, n));
        var r := Estimate(Last(before.outputs), x, before.coVariance,
          SampleVariance(Steps(before.outputs, n)), SampleVariance(Noise(inputs, before.outputs, n)));
        Run(before.outputs + [r.value], r.coVariance)
  }

  // ---- The arrays hold the last n outputs and inputs ----

  ghost predicate InSlot(n: nat, values: seq<real>, array': seq<real>, j: nat) {
    n > 0 && j < |values| && |array'| == n && array'[j % n] == values[j]
  }

  ghost predicate Holds(n: nat, values: seq<real>, array': seq<real>) {
    |array'| == n && forall j: nat :: j < |values| <= j + n ==> InSlot(n, values, array', j)
  }

  lemma DistinctTimes(a: nat, b: nat, n: nat)
    requires a < b < a + n
    ensures a % n != b % n
  {
    EqualResidues(b, a, n);
    if (b - a) % n == 0 { CongruentGap(b, a, n); }
  }

  lemma HoldsMore(n: nat, values: seq<real>, array': seq<real>, x: real)
    requires n >= 2 && Holds(n, values, array')
    ensures Holds(n, values + [x], array'[|values| % n := x])
  {
    var i, more, next := |values|, values + [x], array'[|values| % n := x];
    forall j: nat | j < i + 1 <= j + n
      ensures InSlot(n, more, next, j)
    {
      if j < i {
        assert InSlot(n, values, array', j);
        DistinctTimes(j, i, n);
      }
    }
  }

  /** Once the newest output stands in the slot of the next one, the slot of time `j` shows what is
      held for it. */
  lemma HeldSlot(n: nat, outputs: seq<real>, f: seq<real>, j: nat)
    requires 2 <= n <= |outputs| && Holds(n, outputs, f) && |outputs| - n <= j < |outputs|
    ensures f[|outputs| % n := Last(outputs)][j % n] == HeldAt(outputs, n, j)
  {
    var i := |outputs|;
    if j == i - n {
      ModShift(j, n, 1);
    } else {
      DistinctTimes(j, i, n);
      assert InSlot(n, outputs, f, j);
    }
  }

  lemma BackSlot(i: nat, k: nat, n: nat)
    requires 0 < n <= i && k <= i
    ensures Back(n + i, k, n) == (i - k) % n
  {
    ModShift(i - k, n, 1);
  }

  lemma StepsInRing(n: nat, outputs: seq<real>, f: seq<real>, k: nat)
    requires 2 <= n <= |outputs| && Holds(n, outputs, f) && k < n
    ensures WDiffs(f[|outputs| % n := Last(outputs)], n + |outputs|)[k] == Steps(outputs, n)[k]
  {
    var i := |outputs|;
    HeldSlot(n, outputs, f, i - 1 - k);
    BackSlot(i, k + 1, n);
    if k < n - 1 {
      HeldSlot(n, outputs, f, i - 2 - k);
      BackSlot(i, k + 2, n);
    } else {
      HeldSlot(n, outputs, f, i - 1);
      WholeTurn(i, n);
    }
  }

  lemma WholeTurn(i: nat, n: nat)
    requires 2 <= n <= i
    ensures Back(n + i, n + 1, n) == (i - 1) % n
  {
  }

  lemma StepsAgree(n: nat, outputs: seq<real>, f: seq<real>)
    requires 2 <= n <= |outputs| && Holds(n, outputs, f)
    ensures WDiffs(f[|outputs| % n := Last(outputs)], n + |outputs|) == Steps(outputs, n)
  {
    forall k: nat | k < n
      ensures WDiffs(f[|outputs| % n := Last(outputs)], n + |outputs|)[k] == Steps(outputs, n)[k]
    {
      StepsInRing(n, outputs, f, k);
    }
  }

  lemma {:induction false} TotalOfConcat(a: seq<real>, b: seq<real>, mean: real)
    ensures Total(a + b) == Total(a) + Total(b)
    ensures SquaresAround(a + b, mean) == SquaresAround(a, mean) + SquaresAround(b, mean)
    decreases |b|
  {
    if b == [] {
      assert a + b == a;
    } else {
      TotalOfConcat(a, b[..|b| - 1], mean);
      assert (a + b)[..|a + b| - 1] == a + b[..|b| - 1];
    }
  }

  lemma VarianceOfRotation(ds: seq<real>, at: nat)
    requires |ds| >= 2 && at <= |ds|
    ensures SampleVariance(ds[at..] + ds[..at]) == SampleVariance(ds)
  {
    var mean := Total(ds) / |ds| as real;
    assert ds[..at] + ds[at..] == ds;
    TotalOfConcat(ds[..at], ds[at..], mean);
    TotalOfConcat(ds[at..], ds[..at], mean);
  }

  lemma NoiseInRing(n: nat, inputs: seq<real>, outputs: seq<real>, m: seq<real>, f: seq<real>, k: nat)
    requires 2 <= n <= |outputs| && |inputs| == |outputs| + 1 && k < n
    requires Holds(n, inputs, m) && Holds(n, outputs, f)
    ensures var i := |outputs|;
            VDiffs(m, f[i % n := Last(outputs)])[(i + k) % n] == Noise(inputs, outputs, n)[k]
  {
    var i := |outputs|;
    if k == 0 {
      assert InSlot(n, inputs, m, i);
    } else {
      var j := i - n + k;
      ModShift(j, n, 1);
      assert InSlot(n, inputs, m, j);
      HeldSlot(n, outputs, f, j);
    }
  }

  lemma RotatedIndex(r: nat, k: nat, i: nat, n: nat)
    requires n > 0 && r == i % n && k < n
    ensures (i + k) % n == if r + k < n then r + k else r + k - n
  {
    var q := i / n;
    assert i + k == r + k + q * n;
    ModShift(r + k, n, q);
    if r + k < n { ModUnique(r + k, n, r + k, 0); } else { ModUnique(r + k, n, r + k - n, 1); }
  }

  lemma NoiseAgrees(n: nat, inputs: seq<real>, outputs: seq<real>, m: seq<real>, f: seq<real>)
    requires 2 <= n <= |outputs| && |inputs| == |outputs| + 1
    requires Holds(n, inputs, m) && Holds(n, outputs, f)
    ensures SampleVariance(VDiffs(m, f[|outputs| % n := Last(outputs)])) == SampleVariance(Noise(inputs, outputs, n))
  {
    var i := |outputs|;
    var r, ds := i % n, VDiffs(m, f[i % n := Last(outputs)]);
    var rotated := ds[r..] + ds[..r];
    forall k: nat | k < n
      ensures rotated[k] == Noise(inputs, outputs, n)[k]
    {
      NoiseInRing(n, inputs, outputs, m, f, k);
      RotatedIndex(r, k, i, n);
    }
    assert rotated == Noise(inputs, outputs, n);
    VarianceOfRotation(ds, r);
  }

  /** The fields of the filter show the reference's last n outputs and inputs. */
  ghost predicate Tracking(n: nat, inputs: seq<real>, value: real, coVariance: real, f: seq<real>, m: seq<real>)
    requires n >= 2
  {
    var run := Reference(inputs, n);
    coVariance == run.coVariance && (inputs != [] ==> value == Last(run.outputs))
    && Holds(n, run.outputs, f) && Holds(n, inputs, m)
  }

  /** The step in the arrays, from an estimate over their contents. */
  ghost predicate Stepped(n: nat, i: nat, x: real, value: real, coVariance: real, f: seq<real>, m: seq<real>,
      value': real, coVariance': real)
    requires n >= 2 && coVariance >= 0.0 && |f| == n == |m|
  {
    if i == 0 then value' == x && coVariance' == coVariance
    else if i < n then value' == (value + x) / 2.0 && coVariance' == coVariance
    else
      var prev := f[(i - 1) % n];
      var held := f[i % n := prev];
      Estimation(value', coVariance') ==
        Estimate(prev, x, coVariance, WVariance(held, n + i), VVariance(m[i % n := x], held))
  }

  lemma BackNow(i: nat, n: nat)
    requires n > 0
    ensures Back(n + i, 0, n) == i % n && (i > 0 ==> Back(n + i, 1, n) == (i - 1) % n)
  {
    ModShift(i, n, 1);
    if i > 0 { ModShift(i - 1, n, 1); }
  }

  lemma SlotForm(n: nat, i: nat, x: real, value: real, coVariance: real, f: seq<real>, m: seq<real>, m': seq<real>,
      value': real, coVariance': real)
    requires n >= 2 && coVariance >= 0.0 && |f| == n == |m| && m' == m[Back(n + i, 0, n) := x]
    requires i == 0 ==> value' == x
    requires 0 < i < n ==> value' == (value + x) / 2.0
    requires i < n ==> coVariance' == coVariance
    requires i >= n ==>
               var prev := f[Back(n + i, 1, n)];
               var held := f[Back(n + i, 0, n) := prev];
               Estimation(value', coVariance') ==
                 Estimate(prev, x, coVariance, WVariance(held, n + i), VVariance(m', held))
    ensures Stepped(n, i, x, value, coVariance, f, m, value', coVariance')
  {
    BackNow(i, n);
  }

  /** The run after the last of the inputs, given the run before it. */
  ghost predicate Continues(inputs: seq<real>, n: nat, before: Run, run: Run)
    requires n >= 2 && |inputs| == |before.outputs| + 1 && before.coVariance >= 0.0
  {
    var i := |inputs| - 1;
    |run.outputs| == i + 1 && run.outputs[..i] == before.outputs
    && if i == 0 then run.outputs[i] == inputs[i] && run.coVariance == before.coVariance
       else if i < n then
         run.outputs[i] == (Last(before.outputs) + inputs[i]) / 2.0 && run.coVariance == before.coVariance
       else
         var w, v := SampleVariance(Steps(before.outputs, n)), SampleVariance(Noise(inputs, before.outputs, n));
         w >= 0.0 && v >= 0.0
         && Estimation(run.outputs[i], run.coVariance) ==
            Estimate(Last(before.outputs), inputs[i], before.coVariance, w, v)
  }

  lemma ReferenceStep(inputs: seq<real>, n: nat, x: real)
    requires n >= 2
    ensures Continues(inputs + [x], n, Reference(inputs, n), Reference(inputs + [x], n))
  {
    assert (inputs + [x])[..|inputs|] == inputs;
    if |inputs| >= n {
      VarianceNonNegative(Steps(Reference(inputs, n).outputs, n));
      VarianceNonNegative(Noise(inputs + [x], Reference(inputs, n).outputs, n));
    }
  }

  lemma TrackingStep(n: nat, inputs: seq<real>, x: real, value: real, coVariance: real, f: seq<real>, m: seq<real>,
      value': real, coVariance': real)
    requires n >= 2 && Tracking(n, inputs, value, coVariance, f, m)
    requires Stepped(n, |inputs|, x, value, coVariance, f, m, value', coVariance')
    ensures Tracking(n, inputs + [x], value', coVariance', f[|inputs| % n := value'], m[|inputs| % n := x])
  {
    var before, i := Reference(inputs, n), |inputs|;
    ReferenceStep(inputs, n, x);
    HoldsMore(n, inputs, m, x);
    HoldsMore(n, before.outputs, f, value');
    if i >= n {
      assert InSlot(n, before.outputs, f, i - 1);
      StepsAgree(n, before.outputs, f);
      NoiseAgrees(n, inputs + [x], before.outputs, m[i % n := x], f);
    }
    var run := Reference(inputs + [x], n);
    assert run.outputs == run.outputs[..i] + [run.outputs[i]];
  }

  class Kalman {
    const n: nat
    var mValue: real
    var mCoVariance: real
    var mCounter: nat
    const mFilterValues: array<real>
    const mMeasuredValues: array<real>
    /** Every value the filter has been given. */
    ghost var inputs: seq<real>

    /** How many slots of the two arrays have been written. */
    ghost function Written(): nat
      reads this`mCounter
    {
      if mCounter >= 2 * n then n else if mCounter >= n then mCounter - n else 0
    }

    ghost predicate Valid()
      reads this, mFilterValues
    {
      && n >= 2 && mFilterValues.Length == n == mMeasuredValues.Length && mFilterValues != mMeasuredValues
      && mCounter == n + |inputs|
      && mCoVariance >= 0.0
      && (inputs != [] ==> InHull(mValue, inputs))
      && forall i :: 0 <= i < Written() ==> InHull(mFilterValues[i], inputs)
    }

    /** The filter is where the reference is. */
    ghost predicate Tracks()
      requires n >= 2
      reads this, mFilterValues, mMeasuredValues
    {
      Tracking(n, inputs, mValue, mCoVariance, mFilterValues[..], mMeasuredValues[..])
    }

    constructor (n: nat)
      requires n >= 2
      ensures Valid() && Tracks() && this.n == n && inputs == [] && mValue == 0.0 && mCoVariance == 1.0
      ensures fresh(mFilterValues) && fresh(mMeasuredValues)
    {
      this.n := n;
      mValue, mCoVariance, mCounter, inputs := 0.0, 1.0, n, [];
      mFilterValues := new real[n];
      mMeasuredValues := new real[n];
    }

    /** Reading a slot requires that it has been written. */
    function Filtered(i: nat): real
      requires i < mFilterValues.Length && i < Written()
      reads this`mCounter, mFilterValues
    {
      mFilterValues[i]
    }

    function Measured(i: nat): real
      requires i < mMeasuredValues.Length && i < Written()
      reads this`mCounter, mMeasuredValues
    {
      mMeasuredValues[i]
    }

    method CalculateVVariance() returns (vVar: real)
      requires n >= 2 && mFilterValues.Length == n == mMeasuredValues.Length && Written() == n
      ensures vVar == VVariance(mMeasuredValues[..], mFilterValues[..])
    {
      var meanOfDiffs := SumOfNoise();
      meanOfDiffs := meanOfDiffs / n as real;
      vVar := SquaresOfNoise(meanOfDiffs);
      vVar := vVar / (n - 1) as real;
    }

    method SumOfNoise() returns (sum: real)
      requires mFilterValues.Length == n == mMeasuredValues.Length && Written() == n
      ensures sum == Total(VDiffs(mMeasuredValues[..], mFilterValues[..]))
    {
      ghost var ds := VDiffs(mMeasuredValues[..], mFilterValues[..]);
      sum := 0.0;
      for k := 0 to n
        invariant sum == Total(ds[..k])
      {
        TotalsOfPrefix(ds, k, 0.0);
        sum := sum + (Measured(k) - Filtered(k));
      }
      assert ds[..n] == ds;
    }

    method SquaresOfNoise(mean: real) returns (sum: real)
      requires mFilterValues.Length == n == mMeasuredValues.Length && Written() == n
      ensures sum == SquaresAround(VDiffs(mMeasuredValues[..], mFilterValues[..]), mean)
    {
      ghost var ds := VDiffs(mMeasuredValues[..], mFilterValues[..]);
      sum := 0.0;
      for i := 0 to n
        invariant sum == SquaresAround(ds[..i], mean)
      {
        TotalsOfPrefix(ds, i, mean);
        var d := Measured(i) - Filtered(i);
        sum := sum + (d - mean) * (d - mean);
      }
      assert ds[..n] == ds;
    }

    method Step(k: nat) returns (step: real)
      requires n >= 2 && mFilterValues.Length == n && mCounter > n && Written() == n && k < n
      ensures step == WDiffs(mFilterValues[..], mCounter)[k]
    {
      step := Filtered(Back(mCounter, k + 1, n)) - Filtered(Back(mCounter, k + 2, n));
    }

    method CalculateWVariance() returns (wVar: real)
      requires n >= 2 && mFilterValues.Length == n && mCounter > n && Written() == n
      ensures wVar == WVariance(mFilterValues[..], mCounter)
    {
      var meanOfDiffs := SumOfSteps();
      meanOfDiffs := meanOfDiffs / n as real;
      wVar := SquaresOfSteps(meanOfDiffs);
      wVar := wVar / (n - 1) as real;
    }

    method SumOfSteps() returns (sum: real)
      requires n >= 2 && mFilterValues.Length == n && mCounter > n && Written() == n
      ensures sum == Total(WDiffs(mFilterValues[..], mCounter))
    {
      ghost var ds := WDiffs(mFilterValues[..], mCounter);
      sum := 0.0;
      for k := 0 to n
        invariant sum == Total(ds[..k])
      {
        TotalsOfPrefix(ds, k, 0.0);
        var step := Step(k);
        sum := sum + step;
      }
      assert ds[..n] == ds;
    }

    method SquaresOfSteps(mean: real) returns (sum: real)
      requires n >= 2 && mFilterValues.Length == n && mCounter > n && Written() == n
      ensures sum == SquaresAround(WDiffs(mFilterValues[..], mCounter), mean)
    {
      ghost var ds := WDiffs(mFilterValues[..], mCounter);
      sum := 0.0;
      for i := 0 to n
        invariant sum == SquaresAround(ds[..i], mean)
      {
        TotalsOfPrefix(ds, i, mean);
        var step := Step(i);
        sum := sum + (step - mean) * (step - mean);
      }
      assert ds[..n] == ds;
    }

    /** Prediction and update once the arrays are full. */
    method Update(currentIndex: nat, value: real)
      requires n >= 2 && mFilterValues.Length == n == mMeasuredValues.Length && mFilterValues != mMeasuredValues
      requires Written() == n && mCounter > n && currentIndex < n && currentIndex != Back(mCounter, 1, n)
      requires mCoVariance >= 0.0 && InHull(value, inputs)
      requires forall i :: 0 <= i < n ==> InHull(mFilterValues[i], inputs)
      modifies `mValue, `mCoVariance, mFilterValues
      ensures mCoVariance >= 0.0 && InHull(mValue, inputs)
      ensures mFilterValues[..] == old(mFilterValues[..])[currentIndex := old(mFilterValues[Back(mCounter, 1, n)])]
      ensures Estimation(mValue, mCoVariance) ==
              Estimate(old(mFilterValues[Back(mCounter, 1, n)]), value, old(mCoVariance),
                WVariance(mFilterValues[..], mCounter), VVariance(mMeasuredValues[..], mFilterValues[..]))
    {
      var prevFilterValue := Filtered(Back(mCounter, 1, n));
      mFilterValues[currentIndex] := prevFilterValue;
      var wVariance := CalculateWVariance();
      var vVariance := CalculateVVariance();
      EstimateInHull(prevFilterValue, value, mCoVariance, wVariance, vVariance, inputs);
      Correct(prevFilterValue, value, wVariance, vVariance);
    }

    method Correct(prevFilterValue: real, value: real, wVariance: real, vVariance: real)
      requires mCoVariance >= 0.0 && wVariance >= 0.0 && vVariance >= 0.0
      modifies `mValue, `mCoVariance
      ensures Estimation(mValue, mCoVariance) ==
              Estimate(prevFilterValue, value, old(mCoVariance), wVariance, vVariance)
    {
      var coVarianceEstimation := mCoVariance + wVariance;
      var gain := Gain(coVarianceEstimation, vVariance);
      mValue := Blend(prevFilterValue, value, gain);
      mCoVariance := (1.0 - gain) * coVarianceEstimation;
    }

    /** One filter step. The value and the covariance are those of the reference for all inputs so far,
        the value lies between the smallest and the largest of them, the covariance stays non-negative,
        and no slot is read before it has been written. */
    method Iterate(value: real)
      requires Valid() && Tracks()
      modifies this, mFilterValues, mMeasuredValues
      ensures Valid() && Tracks() && inputs == old(inputs) + [value]
      ensures mValue == Last(Reference(inputs, n).outputs) && mCoVariance == Reference(inputs, n).coVariance
    {
      ghost var f, m, v, c := mFilterValues[..], mMeasuredValues[..], mValue, mCoVariance;
      AdvanceSlots(value);
      TrackingStep(n, old(inputs), value, v, c, f, m, mValue, mCoVariance);
    }

    /** The step in the arrays, with slots counted by inputs. */
    method AdvanceSlots(value: real)
      requires Valid()
      modifies this, mFilterValues, mMeasuredValues
      ensures Valid() && inputs == old(inputs) + [value]
      ensures mMeasuredValues[..] == old(mMeasuredValues[..])[|old(inputs)| % n := value]
      ensures mFilterValues[..] == old(mFilterValues[..])[|old(inputs)| % n := mValue]
      ensures Stepped(n, |old(inputs)|, value, old(mValue), old(mCoVariance), old(mFilterValues[..]),
                      old(mMeasuredValues[..]), mValue, mCoVariance)
    {
      ghost var i, f, m, v, c := |inputs|, mFilterValues[..], mMeasuredValues[..], mValue, mCoVariance;
      BackNow(i, n);
      Advance(value);
      SlotForm(n, i, value, v, c, f, m, mMeasuredValues[..], mValue, mCoVariance);
    }

    /** The step in the arrays. */
    method Advance(value: real)
      requires Valid()
      modifies this, mFilterValues, mMeasuredValues
      ensures Valid() && inputs == old(inputs) + [value]
      ensures var at := Back(old(mCounter), 0, n);
              mMeasuredValues[..] == old(mMeasuredValues[..])[at := value]
              && mFilterValues[..] == old(mFilterValues[..])[at := mValue]
      ensures old(inputs) == [] ==> mValue == value
      ensures 0 < |old(inputs)| < n ==> mValue == (old(mValue) + value) / 2.0
      ensures |old(inputs)| < n ==> mCoVariance == old(mCoVariance)
      ensures |old(inputs)| >= n ==>
                var prev := old(mFilterValues[Back(mCounter, 1, n)]);
                var held := old(mFilterValues[..])[Back(old(mCounter), 0, n) := prev];
                Estimation(mValue, mCoVariance) ==
                Estimate(prev, value, old(mCoVariance),
                  WVariance(held, old(mCounter)), VVariance(mMeasuredValues[..], held))
    {
      var currentIndex := Back(mCounter, 0, n);
      CurrentSlot();
      mMeasuredValues[currentIndex] := value;
      inputs := inputs + [value];
      assert InHull(value, inputs) by { assert inputs[|inputs| - 1] == value; }
      forall i | 0 <= i < Written()
        ensures InHull(mFilterValues[i], inputs)
      {
        HullGrows(mFilterValues[i], old(inputs), value);
      }
      if old(inputs) != [] { HullGrows(mValue, old(inputs), value); }

      if mCounter < n + n {
        if mCounter == n {
          mValue := value;
        } else {
          HullConvex((mValue + value) / 2.0, mValue, value, inputs);
          mValue := (mValue + value) / 2.0;
        }
      } else {
        DifferentSlots();
        Update(currentIndex, value);
      }
      mFilterValues[currentIndex] := mValue;
      mCounter := mCounter + 1;
    }

    lemma DifferentSlots()
      requires n >= 2 && mCounter > 0
      ensures Back(mCounter, 0, n) != Back(mCounter, 1, n)
    {
      EqualResidues(mCounter, mCounter - 1, n);
      ModUnique(1, n, 1, 0);
    }

    /** While the arrays fill up, the current slot is the first unwritten one. */
    lemma CurrentSlot()
      requires n >= 2 && mCounter >= n
      ensures mCounter < 2 * n ==> Back(mCounter, 0, n) == Written()
    {
      if mCounter < 2 * n { ModUnique(mCounter, n, mCounter - n, 1); }
    }
  }

  // ---- The filter on its first inputs ----

  function Pow2(k: nat): real {
    if k == 0 then 1.0 else 2.0 * Pow2(k - 1)
  }

  /** The inputs, the first two weighted by one and every later one by twice the weight of the one
      before it. */
  function Doubling(inputs: seq<real>): real
    requires inputs != []
  {
    var k := |inputs| - 1;
    if k == 0 then inputs[0] else Doubling(inputs[..k]) + Pow2(k - 1) * inputs[k]
  }

  /** Until n inputs have come the output is their weighted mean with doubling weights, and the
      covariance stays at 1. */
  lemma {:induction false} FirstOutputs(inputs: seq<real>, n: nat)
    requires n >= 2 && 0 < |inputs| <= n
    ensures var run := Reference(inputs, n);
            run.coVariance == 1.0 && Pow2(|inputs| - 1) * Last(run.outputs) == Doubling(inputs)
  {
    var k := |inputs| - 1;
    if k > 0 {
      FirstOutputs(inputs[..k], n);
      HalfWay(Pow2(k), Pow2(k - 1), Last(Reference(inputs[..k], n).outputs), inputs[k]);
    } else {
      assert inputs[..0] == [];
    }
  }

  lemma HalfWay(p: real, q: real, before: real, x: real)
    requires p == 2.0 * q
    ensures p * ((before + x) / 2.0) == q * before + q * x
  {
  }

  lemma FiveTotal(ds: seq<real>)
    requires |ds| == 5
    ensures Total(ds) == ds[0] + ds[1] + ds[2] + ds[3] + ds[4]
  {
    assert ds[..4][..3] == ds[..3] && ds[..3][..2] == ds[..2] && ds[..2][..1] == ds[..1] && ds[..1][..0] == [];
    assert Total(ds[..1]) == ds[0];
    assert Total(ds[..2]) == ds[0] + ds[1];
    assert Total(ds[..3]) == ds[0] + ds[1] + ds[2];
    assert Total(ds[..4]) == ds[0] + ds[1] + ds[2] + ds[3];
  }

  lemma NextSquare(ds: seq<real>, k: nat, mean: real, before: real, d: real)
    requires k < |ds| && SquaresAround(ds[..k], mean) == before && ds[k] - mean == d
    ensures SquaresAround(ds[..k + 1], mean) == before + d * d
  {
    TotalsOfPrefix(ds, k, mean);
  }

  lemma HalfWayRun(inputs: seq<real>, outputs: seq<real>, run: Run, y: real)
    requires |inputs| == |outputs| + 1 && 1 < |inputs| <= 5 && y == (Last(outputs) + Last(inputs)) / 2.0
    requires Continues(inputs, 5, Run(outputs, 1.0), run)
    ensures run == Run(outputs + [y], 1.0)
  {
    assert run.outputs == run.outputs[..|outputs|] + [run.outputs[|outputs|]];
  }

  lemma HalfWayOutput(inputs: seq<real>, outputs: seq<real>, x: real, y: real)
    requires Reference(inputs, 5) == Run(outputs, 1.0) && 0 < |inputs| < 5 && y == (Last(outputs) + x) / 2.0
    ensures Reference(inputs + [x], 5) == Run(outputs + [y], 1.0)
  {
    ReferenceStep(inputs, 5, x);
    HalfWayRun(inputs + [x], outputs, Reference(inputs + [x], 5), y);
  }

  lemma ExampleOutputs()
    ensures Reference([0.0, 0.0, 0.0, 0.0, 8.0], 5) == Run([0.0, 0.0, 0.0, 0.0, 4.0], 1.0)
  {
    assert Reference([], 5) == Run([], 1.0);
    assert [0.0][..0] == [];
    assert Reference([0.0], 5) == Run([0.0], 1.0);
    HalfWayOutput([0.0], [0.0], 0.0, 0.0);
    assert [0.0] + [0.0] == [0.0, 0.0] && [0.0, 0.0] + [0.0] == [0.0, 0.0, 0.0];
    HalfWayOutput([0.0, 0.0], [0.0, 0.0], 0.0, 0.0);
    HalfWayOutput([0.0, 0.0, 0.0], [0.0, 0.0, 0.0], 0.0, 0.0);
    assert [0.0, 0.0, 0.0] + [0.0] == [0.0, 0.0, 0.0, 0.0];
    HalfWayOutput([0.0, 0.0, 0.0, 0.0], [0.0, 0.0, 0.0, 0.0], 8.0, 4.0);
    assert [0.0, 0.0, 0.0, 0.0] + [8.0] == [0.0, 0.0, 0.0, 0.0, 8.0];
    assert [0.0, 0.0, 0.0, 0.0] + [4.0] == [0.0, 0.0, 0.0, 0.0, 4.0];
  }

  lemma FiveSteps(a: real, b: real, c: real, d: real, e: real)
    ensures Steps([a, b, c, d, e], 5) == [e - d, d - c, c - b, b - e, 0.0]
  {
    var os := [a, b, c, d, e];
    assert HeldAt(os, 5, 0) == e && HeldAt(os, 5, 1) == b && HeldAt(os, 5, 2) == c && HeldAt(os, 5, 3) == d;
    assert HeldAt(os, 5, 4) == e;
  }

  lemma ExampleSteps()
    ensures SampleVariance([4.0, 0.0, 0.0, -4.0, 0.0]) == 8.0
  {
    var ds := [4.0, 0.0, 0.0, -4.0, 0.0];
    FiveTotal(ds);
    NextSquare(ds, 0, 0.0, 0.0, 4.0);
    NextSquare(ds, 1, 0.0, 16.0, 0.0);
    NextSquare(ds, 2, 0.0, 16.0, 0.0);
    NextSquare(ds, 3, 0.0, 16.0, -4.0);
    NextSquare(ds, 4, 0.0, 32.0, 0.0);
    assert ds[..5] == ds;
  }

  lemma ExampleNoise()
    ensures SampleVariance([4.0, 0.0, 0.0, 0.0, 4.0]) == 4.8
  {
    var ds := [4.0, 0.0, 0.0, 0.0, 4.0];
    FiveTotal(ds);
    NextSquare(ds, 0, 1.6, 0.0, 2.4);
    NextSquare(ds, 1, 1.6, 5.76, -1.6);
    NextSquare(ds, 2, 1.6, 8.32, -1.6);
    NextSquare(ds, 3, 1.6, 10.88, -1.6);
    NextSquare(ds, 4, 1.6, 13.44, 2.4);
    assert ds[..5] == ds;
  }

  lemma ExampleEstimate()
    ensures Estimate(4.0, 8.0, 1.0, 8.0, 4.8).value == 152.0 / 23.0
  {
    assert Gain(9.0, 4.8) == 15.0 / 23.0;
  }

  lemma EstimatedOutput(inputs: seq<real>, outputs: seq<real>, run: Run, w: real, v: real)
    requires |inputs| == |outputs| + 1 > 5 && Continues(inputs, 5, Run(outputs, 1.0), run)
    requires w >= 0.0 && v >= 0.0
    requires SampleVariance(Steps(outputs, 5)) == w && SampleVariance(Noise(inputs, outputs, 5)) == v
    ensures Last(run.outputs) == Estimate(Last(outputs), Last(inputs), 1.0, w, v).value
  {
  }

  /** One offset is unlike the others and is then confirmed: of the remaining distance the filter
      goes 15 of 23 parts. */
  lemma WorkedExample()
    ensures Last(Reference([0.0, 0.0, 0.0, 0.0, 8.0, 8.0], 5).outputs) == 152.0 / 23.0
  {
    var inputs, os := [0.0, 0.0, 0.0, 0.0, 8.0], [0.0, 0.0, 0.0, 0.0, 4.0];
    assert [0.0, 0.0, 0.0, 0.0, 8.0, 8.0] == inputs + [8.0];
    ExampleOutputs();
    ReferenceStep(inputs, 5, 8.0);
    FiveSteps(0.0, 0.0, 0.0, 0.0, 4.0);
    assert Noise(inputs + [8.0], os, 5) == [4.0, 0.0, 0.0, 0.0, 4.0];
    ExampleSteps();
    ExampleNoise();
    EstimatedOutput(inputs + [8.0], os, Reference(inputs + [8.0], 5), 8.0, 4.8);
    ExampleEstimate();
  }

  /** A measured pair of host and ghost time. */
  datatype Sample = Sample(host: real, ghostTime: real)

  function Offsets(points: seq<Sample>): seq<real> {
    seq(|points|, i requires 0 <= i < |points| => points[i].ghostTime - points[i].host)
  }

  lemma OneOffsetMore(points: seq<Sample>, k: nat)
    requires k < |points|
    ensures Offsets(points)[..k + 1] == Offsets(points)[..k] + [points[k].ghostTime - points[k].host]
  {
  }

  /** The loop of `filter`. */
  method FilterOffsets(points: seq<Sample>) returns (value: real)
    ensures value == if points == [] then 0.0 else Last(Reference(Offsets(points), 5).outputs)
    ensures points != [] ==> InHull(value, Offsets(points))
  {
    var kalman := new Kalman(5);
    ghost var os := Offsets(points);
    for k := 0 to |points|
      invariant kalman.Valid() && fresh(kalman) && fresh(kalman.mFilterValues) && fresh(kalman.mMeasuredValues)
      invariant kalman.n == 5 && kalman.Tracks() && kalman.inputs == os[..k]
      invariant k == 0 ==> kalman.mValue == 0.0
    {
      kalman.Iterate(points[k].ghostTime - points[k].host);
      OneOffsetMore(points, k);
    }
    assert os[..|points|] == os;
    value := kalman.mValue;
  }

  /** `MeasurementService::filter`: the transform has slope 1, and its intercept is the rounded last
      output of a filter of five for the measured offsets, which lies within their rounded range. */
  method Filter(points: seq<Sample>) returns (xform: GhostXForm)
    ensures xform.slope == 1.0
    ensures xform.intercept == if points == [] then 0 else LRound(Last(Reference(Offsets(points), 5).outputs))
    ensures points != [] ==> exists i, j ::
              0 <= i < |points| && 0 <= j < |points|
              && LRound(points[i].ghostTime - points[i].host) <= xform.intercept
              && xform.intercept <= LRound(points[j].ghostTime - points[j].host)
    ensures |points| == 1 ==> xform.intercept == LRound(points[0].ghostTime - points[0].host)
  {
    var value := FilterOffsets(points);
    xform := GhostXForm(1.0, LRound(value));
    if points == [] { LRoundInt(0); } else { RoundedHull(Offsets(points), value); }
  }

  lemma RoundedHull(os: seq<real>, v: real)
    requires InHull(v, os)
    ensures exists i, j :: 0 <= i < |os| && 0 <= j < |os| && LRound(os[i]) <= LRound(v) <= LRound(os[j])
  {
    var i :| 0 <= i < |os| && os[i] <= v;
    var j :| 0 <= j < |os| && v <= os[j];
    LRoundMonotone(os[i], v);
    LRoundMonotone(v, os[j]);
  }
}
