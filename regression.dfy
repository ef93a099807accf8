/**
 * `FitDetect.linearRegression` (fit-detect.js:23-32), `FitDetect.meanSquaredError`
 * (fit-detect.js:34-37) and the linear branch of `identifyFunctionType`
 * (fit-detect.js:41-43), over exact reals.
 *
 * JavaScript reads `y[i]` past the end of `y` as `undefined`, and arithmetic on
 * `undefined` is NaN; the functions below follow that for unequal lengths.
 */
module Regression {
  import opened Numbers
  import opened Normalization

  /** The fitted line `{ slope, intercept }` when both are numbers. */
  datatype Line = Line(slope: real, intercept: real)

  /** `s.reduce((a, b) => a + b, 0) / n`: the source divides by the length of `x`, even for `y`. */
  function Mean(s: seq<real>, n: nat): real
    requires n > 0
  {
    Sum(s) / (n as real)
  }

  lemma MeanTimes(s: seq<real>, n: nat)
    requires n > 0
    ensures Mean(s, n) * (n as real) == Sum(s)
  {
  }

  /** `s[i] - k` for every element. */
  function Shift(s: seq<real>, k: real): (r: seq<real>)
    ensures |r| == |s| && forall i {:trigger r[i]} :: 0 <= i < |s| ==> r[i] == s[i] - k
  {
    seq(|s|, i requires 0 <= i < |s| => s[i] - k)
  }

  /** `k * s[i]` for every element. */
  function Scaled(s: seq<real>, k: real): (r: seq<real>)
    ensures |r| == |s| && forall i {:trigger r[i]} :: 0 <= i < |s| ==> r[i] == k * s[i]
  {
    seq(|s|, i requires 0 <= i < |s| => k * s[i])
  }

  /** `a[i] * b[i]` for every position of `a`. */
  function Products(a: seq<real>, b: seq<real>): (r: seq<real>)
    requires |a| <= |b|
    ensures |r| == |a| && forall i {:trigger r[i]} :: 0 <= i < |a| ==> r[i] == a[i] * b[i]
  {
    seq(|a|, i requires 0 <= i < |a| => a[i] * b[i])
  }

  /** The terms of the numerator on fit-detect.js:27, `(xi - meanX) * (y[i] - meanY)`. */
  function CrossTerms(x: seq<real>, y: seq<real>, mx: real, my: real): (r: seq<real>)
    requires |x| <= |y|
    ensures |r| == |x| && forall i {:trigger r[i]} :: 0 <= i < |x| ==> r[i] == (x[i] - mx) * (y[i] - my)
  {
    seq(|x|, i requires 0 <= i < |x| => (x[i] - mx) * (y[i] - my))
  }

  /** The terms of the denominator on fit-detect.js:28, `Math.pow(xi - meanX, 2)`. */
  function SquareTerms(x: seq<real>, mx: real): (r: seq<real>)
    ensures |r| == |x| && forall i {:trigger r[i]} :: 0 <= i < |x| ==> r[i] == (x[i] - mx) * (x[i] - mx)
  {
    seq(|x|, i requires 0 <= i < |x| => (x[i] - mx) * (x[i] - mx))
  }

  /** Every element of `x` equals `v`. */
  predicate AllAt(x: seq<real>, v: real) {
    forall i :: 0 <= i < |x| ==> x[i] == v
  }

  /**
   * The least-squares line through the points `(x[i], y[i])`. `None` stands
   * for the object `{ slope: NaN, intercept: NaN }` that the source returns
   * when `x` is empty (its mean is 0/0), when `y` is shorter than `x` (the
   * numerator reads `undefined`) or when `x` is constant (the slope is 0/0,
   * and a NaN slope makes the intercept NaN too).
   */
  function LinearRegression(x: seq<real>, y: seq<real>): (r: Option<Line>)
    ensures r.Some? <==> 0 < |x| <= |y| && !Constant(x)
  {
    if |x| == 0 || |y| < |x| then None
    else
      var mx, my := Mean(x, |x|), Mean(y, |x|);
      var numerator := Sum(CrossTerms(x, y, mx, my));
      var denominator := Sum(SquareTerms(x, mx));
      assert (denominator == 0.0 <==> Constant(x)) && (denominator == 0.0 ==> numerator == 0.0) by {
        Spread(x, y, mx, my);
        ConstantAtMean(x);
      }
      match Div(numerator, denominator)
      case NaN => None
      case Real(slope) => Some(Line(slope, my - slope * mx))
  }

  /** A constant factor comes out of the sum of a scaled sequence. */
  lemma SumOfScaled(s: seq<real>, k: real)
    ensures Sum(Scaled(s, k)) == k * Sum(s)
  {
    SumScale(s, Scaled(s, k), k);
  }

  /** The sum of an elementwise sum is the sum of the sums. */
  lemma SumOfPlus(a: seq<real>, b: seq<real>)
    requires |a| == |b|
    ensures Sum(Plus(a, b)) == Sum(a) + Sum(b)
  {
    SumAdd(a, b, Plus(a, b));
  }

  /**
   * About the sums of fit-detect.js:27-28 around a centre `mx`: the sum of
   * squared deviations is non-negative and zero exactly when every element
   * is `mx`, and then the cross sum is zero too.
   */
  lemma Spread(x: seq<real>, y: seq<real>, mx: real, my: real)
    requires |x| <= |y|
    ensures Sum(SquareTerms(x, mx)) >= 0.0
    ensures Sum(SquareTerms(x, mx)) == 0.0 <==> AllAt(x, mx)
    ensures Sum(SquareTerms(x, mx)) == 0.0 ==> Sum(CrossTerms(x, y, mx, my)) == 0.0
  {
    var sq := SquareTerms(x, mx);
    forall i | 0 <= i < |x| ensures sq[i] >= 0.0 && (sq[i] == 0.0 <==> x[i] == mx) {
      SquareSign(x[i] - mx, sq[i]);
    }
    SumNonNegative(sq);
    if Sum(sq) == 0.0 {
      var cross := CrossTerms(x, y, mx, my);
      forall i | 0 <= i < |x| ensures cross[i] == 0.0 {
        ZeroProduct(x[i] - mx, y[i] - my, cross[i]);
      }
      SumConst(cross, 0.0);
    }
  }

  /** A non-empty sample is constant exactly when every element equals its mean. */
  lemma ConstantAtMean(x: seq<real>)
    requires |x| > 0
    ensures AllAt(x, Mean(x, |x|)) <==> Constant(x)
  {
    var mx, n := Mean(x, |x|), |x| as real;
    if Constant(x) {
      MeanTimes(x, |x|);
      SumConst(x, x[0]);
      assert mx * n == x[0] * n;
      CancelFactor(mx, x[0], n);
    }
  }

  /** The slope the source returns solves `slope * denominator == numerator`, the denominator being positive. */
  lemma SlopeFacts(x: seq<real>, y: seq<real>, l: Line)
    requires LinearRegression(x, y) == Some(l)
    ensures 0 < |x| <= |y|
    ensures Sum(SquareTerms(x, Mean(x, |x|))) > 0.0
    ensures l.slope * Sum(SquareTerms(x, Mean(x, |x|))) == Sum(CrossTerms(x, y, Mean(x, |x|), Mean(y, |x|)))
  {
    var mx, my := Mean(x, |x|), Mean(y, |x|);
    Spread(x, y, mx, my);
    QuotientTimes(Sum(CrossTerms(x, y, mx, my)), Sum(SquareTerms(x, mx)));
  }

  /** The intercept the source returns puts the point of means on the line. */
  lemma InterceptFact(x: seq<real>, y: seq<real>, l: Line)
    requires LinearRegression(x, y) == Some(l)
    ensures 0 < |x| <= |y|
    ensures l.intercept == Mean(y, |x|) - l.slope * Mean(x, |x|)
  {
  }

  /** The sum of `s[i] - k` is the sum of `s` less `|s|` copies of `k`. */
  lemma {:induction false} ShiftSum(s: seq<real>, k: real)
    ensures Sum(Shift(s, k)) == Sum(s) - (|s| as real) * k
    decreases |s|
  {
    if |s| > 0 {
      var n := |s| - 1;
      var d := Shift(s, k);
      ShiftSum(s[..n], k);
      assert d[..n] == Shift(s[..n], k);
      assert (n as real + 1.0) * k == n as real * k + k;
    }
  }

  /** Elementwise sum of two sequences of equal length. */
  function Plus(a: seq<real>, b: seq<real>): (r: seq<real>)
    requires |a| == |b|
    ensures |r| == |a| && forall i {:trigger r[i]} :: 0 <= i < |a| ==> r[i] == a[i] + b[i]
  {
    seq(|a|, i requires 0 <= i < |a| => a[i] + b[i])
  }

  /** Every point `(x[i], y[i])` lies on the line `g`. */
  predicate OnLine(x: seq<real>, y: seq<real>, g: Line)
    requires |x| <= |y|
  {
    forall i :: 0 <= i < |x| ==> y[i] == g.slope * x[i] + g.intercept
  }

  /** For exactly linear data over a non-constant `x`, the fit recovers the line. */
  lemma ExactLineRecovered(x: seq<real>, y: seq<real>, g: Line)
    requires |x| == |y| && !Constant(x) && OnLine(x, y, g)
    ensures LinearRegression(x, y) == Some(g)
  {
    var l := LinearRegression(x, y).value;
    ExactSlope(x, y, g, l);
    ExactIntercept(x, y, g, l);
  }

  /** On exactly linear data the slope the source computes is the slope of the data. */
  lemma ExactSlope(x: seq<real>, y: seq<real>, g: Line, l: Line)
    requires |x| == |y| && LinearRegression(x, y) == Some(l) && OnLine(x, y, g)
    ensures l.slope == g.slope
  {
    SlopeFacts(x, y, l);
    CrossOnLine(x, y, g);
    SlopeCancel(x, y, g, l);
  }

  /** On exactly linear data the intercept the source computes is the intercept of the data. */
  lemma ExactIntercept(x: seq<real>, y: seq<real>, g: Line, l: Line)
    requires |x| == |y| && LinearRegression(x, y) == Some(l) && OnLine(x, y, g)
    ensures l.intercept == g.intercept
  {
    InterceptFact(x, y, l);
    MeansOnLine(x, y, g);
    ExactSlope(x, y, g, l);
  }

  /** `l.slope * den == num` and `num == g.slope * den` with `den > 0` make the slopes equal. */
  lemma SlopeCancel(x: seq<real>, y: seq<real>, g: Line, l: Line)
    requires 0 < |x| <= |y|
    requires Sum(SquareTerms(x, Mean(x, |x|))) > 0.0
    requires l.slope * Sum(SquareTerms(x, Mean(x, |x|))) == Sum(CrossTerms(x, y, Mean(x, |x|), Mean(y, |x|)))
    requires Sum(CrossTerms(x, y, Mean(x, |x|), Mean(y, |x|))) == g.slope * Sum(SquareTerms(x, Mean(x, |x|)))
    ensures l.slope == g.slope
  {
    assert (l.slope - g.slope) * Sum(SquareTerms(x, Mean(x, |x|))) == 0.0;
  }

  /** The means of data on the line `g` lie on that line. */
  lemma MeansOnLine(x: seq<real>, y: seq<real>, g: Line)
    requires |x| == |y| && |x| > 0 && OnLine(x, y, g)
    ensures Mean(y, |x|) == g.slope * Mean(x, |x|) + g.intercept
  {
    SumOnLine(x, y, g);
    MeanTimes(x, |x|);
    MeanTimes(y, |x|);
    var n := |x| as real;
    assert Mean(y, |x|) * n == (g.slope * Mean(x, |x|) + g.intercept) * n;
    CancelFactor(Mean(y, |x|), g.slope * Mean(x, |x|) + g.intercept, n);
  }

  /** The sum of data on the line `g` is the slope times the sum of `x`, plus one intercept per point. */
  lemma {:induction false} SumOnLine(x: seq<real>, y: seq<real>, g: Line)
    requires |x| == |y| && OnLine(x, y, g)
    ensures Sum(y) == g.slope * Sum(x) + (|x| as real) * g.intercept
    decreases |x|
  {
    if |x| > 0 {
      var n := |x| - 1;
      OnLinePrefix(x, y, g, n);
      SumOnLine(x[..n], y[..n], g);
    }
  }

  /** Points on a line stay on it when the samples are cut short. */
  lemma OnLinePrefix(x: seq<real>, y: seq<real>, g: Line, n: nat)
    requires |x| == |y| && OnLine(x, y, g) && n <= |x|
    ensures OnLine(x[..n], y[..n], g)
  {
  }

  /** On the line `g`, the cross sum of fit-detect.js:27 is the slope of `g` times the square sum of fit-detect.js:28. */
  lemma CrossOnLine(x: seq<real>, y: seq<real>, g: Line)
    requires |x| == |y| && |x| > 0 && OnLine(x, y, g)
    ensures Sum(CrossTerms(x, y, Mean(x, |x|), Mean(y, |x|))) == g.slope * Sum(SquareTerms(x, Mean(x, |x|)))
  {
    MeansOnLine(x, y, g);
    var sq, cross := SquareTerms(x, Mean(x, |x|)), CrossTerms(x, y, Mean(x, |x|), Mean(y, |x|));
    forall i | 0 <= i < |x| ensures cross[i] == g.slope * sq[i] {
      CrossAt(x, y, g, i);
    }
    SumBySlope(sq, cross, g);
  }

  /**
   * `SumScale` with the factor given as the slope of a line. `SumBySlope`,
   * `SumLessSlope` and `SumLinear` take the factors as a `Line` rather than as
   * real arguments: a real factor under the products of these proofs makes the
   * solver's work grow many times over.
   */
  lemma {:induction false} SumBySlope(a: seq<real>, c: seq<real>, g: Line)
    requires |a| == |c|
    requires forall i :: 0 <= i < |c| ==> c[i] == g.slope * a[i]
    ensures Sum(c) == g.slope * Sum(a)
    decreases |c|
  {
    if |c| > 0 {
      var n := |c| - 1;
      SumBySlope(a[..n], c[..n], g);
      assert Sum(c) == g.slope * Sum(a[..n]) + g.slope * a[n];
    }
  }

  /** One cross term on the line `g` is the slope of `g` times the matching square term. */
  lemma CrossAt(x: seq<real>, y: seq<real>, g: Line, i: int)
    requires |x| == |y| && 0 <= i < |x| && OnLine(x, y, g)
    requires Mean(y, |x|) == g.slope * Mean(x, |x|) + g.intercept
    ensures CrossTerms(x, y, Mean(x, |x|), Mean(y, |x|))[i] == g.slope * SquareTerms(x, Mean(x, |x|))[i]
  {
    assert y[i] - Mean(y, |x|) == g.slope * (x[i] - Mean(x, |x|));
  }

  /** `slope * x[i] + intercept` for every element, as on fit-detect.js:42. */
  function Predict(l: Line, x: seq<real>): (r: seq<real>)
    ensures |r| == |x| && forall i {:trigger r[i]} :: 0 <= i < |x| ==> r[i] == l.slope * x[i] + l.intercept
  {
    seq(|x|, i requires 0 <= i < |x| => l.slope * x[i] + l.intercept)
  }

  /** `y[i] - (slope * x[i] + intercept)` for every position of `x`. */
  function Residuals(l: Line, x: seq<real>, y: seq<real>): (r: seq<real>)
    requires |x| <= |y|
    ensures |r| == |x| && forall i {:trigger r[i]} :: 0 <= i < |x| ==> r[i] == y[i] - (l.slope * x[i] + l.intercept)
  {
    seq(|x|, i requires 0 <= i < |x| => y[i] - (l.slope * x[i] + l.intercept))
  }

  /** Deviations from the mean sum to zero. */
  lemma DeviationsSumToZero(s: seq<real>)
    requires |s| > 0
    ensures Sum(Shift(s, Mean(s, |s|))) == 0.0
  {
    ShiftSum(s, Mean(s, |s|));
    MeanTimes(s, |s|);
  }

  /** The residuals of the fitted line sum to zero. */
  lemma ResidualsSumToZero(x: seq<real>, y: seq<real>, l: Line)
    requires |x| == |y| && LinearRegression(x, y) == Some(l)
    ensures Sum(Residuals(l, x, y)) == 0.0
  {
    InterceptFact(x, y, l);
    CentredResiduals(x, y, l);
    DeviationsSumToZero(x);
    DeviationsSumToZero(y);
  }

  /** A line through the point of means leaves residuals summing to zero. */
  lemma CentredResiduals(x: seq<real>, y: seq<real>, l: Line)
    requires 0 < |x| == |y| && l.intercept == Mean(y, |x|) - l.slope * Mean(x, |x|)
    ensures Sum(Residuals(l, x, y)) == Sum(Shift(y, Mean(y, |x|))) - l.slope * Sum(Shift(x, Mean(x, |x|)))
  {
    var mx, my := Mean(x, |x|), Mean(y, |x|);
    forall i | 0 <= i < |x| {
      ResidualSplit(x, y, l, mx, my, i);
    }
    SumLessSlope(Shift(y, my), Shift(x, mx), Residuals(l, x, y), l);
  }

  /** A residual is the deviation of `y` less `slope` times the deviation of `x`. */
  lemma ResidualSplit(x: seq<real>, y: seq<real>, l: Line, mx: real, my: real, i: int)
    requires |x| == |y| && 0 <= i < |x| && l.intercept == my - l.slope * mx
    ensures Residuals(l, x, y)[i] == Shift(y, my)[i] - l.slope * Shift(x, mx)[i]
  {
  }

  /** The residuals of the fitted line are uncorrelated with `x`. */
  lemma ResidualsUncorrelated(x: seq<real>, y: seq<real>, l: Line)
    requires |x| == |y| && LinearRegression(x, y) == Some(l)
    ensures Sum(Products(Residuals(l, x, y), x)) == 0.0
  {
    SlopeFacts(x, y, l);
    InterceptFact(x, y, l);
    ResidualsSumToZero(x, y, l);
    CenteredMoment(x, y, l);
    UncenteredMoment(Residuals(l, x, y), x, Mean(x, |x|));
  }

  /** Against the centred `x`, the residuals of a line through the point of means sum to the numerator less `slope` times the denominator. */
  lemma CenteredMoment(x: seq<real>, y: seq<real>, l: Line)
    requires 0 < |x| == |y| && l.intercept == Mean(y, |x|) - l.slope * Mean(x, |x|)
    ensures Sum(Products(Residuals(l, x, y), Shift(x, Mean(x, |x|))))
         == Sum(CrossTerms(x, y, Mean(x, |x|), Mean(y, |x|))) - l.slope * Sum(SquareTerms(x, Mean(x, |x|)))
  {
    var mx, my := Mean(x, |x|), Mean(y, |x|);
    forall i | 0 <= i < |x| {
      CenteredMomentAt(x, y, l, mx, my, i);
    }
    SumLessSlope(CrossTerms(x, y, mx, my), SquareTerms(x, mx), Products(Residuals(l, x, y), Shift(x, mx)), l);
  }

  /** Weights that sum to zero give the same weighted sum against `x` and against `x` shifted by `k`. */
  lemma UncenteredMoment(r: seq<real>, x: seq<real>, k: real)
    requires |r| == |x| && Sum(r) == 0.0
    ensures Sum(Products(r, x)) == Sum(Products(r, Shift(x, k)))
  {
    forall i | 0 <= i < |x| {
      UncenteredMomentAt(r, x, k, i);
    }
    SumAdd(Products(r, Shift(x, k)), Scaled(r, k), Products(r, x));
    SumScaledZero(r, k);
  }

  /** Against the centred `x`, a residual gives a cross term less `slope` square terms. */
  lemma CenteredMomentAt(x: seq<real>, y: seq<real>, l: Line, mx: real, my: real, i: int)
    requires |x| == |y| && 0 <= i < |x| && l.intercept == my - l.slope * mx
    ensures Products(Residuals(l, x, y), Shift(x, mx))[i]
         == CrossTerms(x, y, mx, my)[i] - l.slope * SquareTerms(x, mx)[i]
  {
  }

  /** `r * x` is `r * (x - mx)` plus `mx * r`. */
  lemma UncenteredMomentAt(r: seq<real>, x: seq<real>, mx: real, i: int)
    requires |r| == |x| && 0 <= i < |r|
    ensures Products(r, x)[i] == Products(r, Shift(x, mx))[i] + Scaled(r, mx)[i]
  {
  }

  /** A sum of `a[i] - l.slope * b[i]` is `Sum(a) - l.slope * Sum(b)`. */
  lemma {:induction false} SumLessSlope(a: seq<real>, b: seq<real>, c: seq<real>, l: Line)
    requires |a| == |b| == |c|
    requires forall i :: 0 <= i < |c| ==> c[i] == a[i] - l.slope * b[i]
    ensures Sum(c) == Sum(a) - l.slope * Sum(b)
    decreases |c|
  {
    if |c| > 0 {
      var n := |c| - 1;
      SumLessSlope(a[..n], b[..n], c[..n], l);
      assert l.slope * Sum(b) == l.slope * Sum(b[..n]) + l.slope * b[n];
    }
  }

  /** Scaling a sequence that sums to zero keeps the sum zero. */
  lemma SumScaledZero(r: seq<real>, k: real)
    requires Sum(r) == 0.0
    ensures Sum(Scaled(r, k)) == 0.0
  {
    SumOfScaled(r, k);
  }

  /** `(yTrue[i] - yPred[i]) ** 2` for every position of `yTrue`, the terms on fit-detect.js:36. */
  function SquaredErrors(yTrue: seq<real>, yPred: seq<real>): (r: seq<real>)
    requires |yTrue| <= |yPred|
    ensures |r| == |yTrue|
    ensures forall i {:trigger r[i]} :: 0 <= i < |yTrue| ==> r[i] == (yTrue[i] - yPred[i]) * (yTrue[i] - yPred[i])
  {
    seq(|yTrue|, i requires 0 <= i < |yTrue| => (yTrue[i] - yPred[i]) * (yTrue[i] - yPred[i]))
  }

  /** The squared errors add up to a non-negative total that is zero exactly when the predictions are exact. */
  lemma SquaredErrorsTotal(yTrue: seq<real>, yPred: seq<real>)
    requires |yTrue| <= |yPred|
    ensures Sum(SquaredErrors(yTrue, yPred)) >= 0.0
    ensures Sum(SquaredErrors(yTrue, yPred)) == 0.0 <==> forall i :: 0 <= i < |yTrue| ==> yTrue[i] == yPred[i]
  {
    var e := SquaredErrors(yTrue, yPred);
    forall i | 0 <= i < |yTrue| ensures e[i] >= 0.0 && (e[i] == 0.0 <==> yTrue[i] == yPred[i]) {
      SquareSign(yTrue[i] - yPred[i], e[i]);
    }
    SumNonNegative(e);
  }

  /**
   * The mean of the squared errors over the length of `yTrue`. It is NaN for
   * an empty `yTrue` (0/0) and when `yPred` is shorter (`undefined` entries);
   * entries of `yPred` past the length of `yTrue` are ignored.
   */
  function MeanSquaredError(yTrue: seq<real>, yPred: seq<real>): (r: Num)
    ensures r.Real? <==> 0 < |yTrue| <= |yPred|
    ensures r.Real? ==> r.value >= 0.0
    ensures r.Real? ==> (r.value == 0.0 <==> forall i :: 0 <= i < |yTrue| ==> yTrue[i] == yPred[i])
  {
    if |yPred| < |yTrue| then NaN
    else
      var total := Sum(SquaredErrors(yTrue, yPred));
      assert |yTrue| > 0 ==> (Div(total, |yTrue| as real).Real? && Div(total, |yTrue| as real).value >= 0.0
        && (Div(total, |yTrue| as real).value == 0.0 <==> forall i :: 0 <= i < |yTrue| ==> yTrue[i] == yPred[i])) by {
        SquaredErrorsTotal(yTrue, yPred);
      }
      Div(total, |yTrue| as real)
  }

  /**
   * `linearError` of fit-detect.js:41-43: fit, predict, score. With no line to
   * predict from, every prediction is NaN and so is the error.
   */
  function LinearError(x: seq<real>, y: seq<real>): (r: Num)
    ensures r.Real? <==> 0 < |x| == |y| && !Constant(x)
    ensures r.Real? ==> r.value >= 0.0
  {
    match LinearRegression(x, y)
    case None => NaN
    case Some(l) => MeanSquaredError(y, Predict(l, x))
  }

  /** Expanding `(r - d) ** 2` and dropping `d ** 2`. */
  lemma SquareBelow(ei: real, ri: real, di: real, e2: real, r2: real, rdi: real)
    requires ei == ri - di && e2 == ei * ei && r2 == ri * ri && rdi == ri * di
    ensures e2 >= r2 + -2.0 * rdi
  {
    var d2 := di * di;
    assert e2 == r2 + -2.0 * rdi + d2;
    SquareSign(di, d2);
  }

  /** The fitted line has the least sum of squared errors of all lines over `x`. */
  lemma LeastSquares(x: seq<real>, y: seq<real>, l: Line, other: Line)
    requires |x| == |y| && LinearRegression(x, y) == Some(l)
    ensures Sum(SquaredErrors(y, Predict(l, x))) <= Sum(SquaredErrors(y, Predict(other, x)))
  {
    ResidualsSumToZero(x, y, l);
    ResidualsUncorrelated(x, y, l);
    var r := Residuals(l, x, y);
    // d[i] is how far the other line lies above the fitted one at x[i]
    var d := Line(other.slope - l.slope, other.intercept - l.intercept);
    var rd := Products(r, Predict(d, x));
    ResidualsOrthogonal(r, x, d);
    var mine, theirs := SquaredErrors(y, Predict(l, x)), SquaredErrors(y, Predict(other, x));
    var rr, w := Products(r, r), Scaled(rd, -2.0);
    var h := Plus(rr, w);
    forall i | 0 <= i < |x| ensures mine[i] == rr[i] && h[i] <= theirs[i] {
      SquareBelowAt(x, y, l, other, i);
    }
    assert mine == rr;
    SumOfPlus(rr, w);
    SumOfScaled(rd, -2.0);
    SumMonotone(h, theirs);
  }

  /** At position `i`: the fitted line's squared error is the squared residual, and `SquareBelow` bounds the other line's. */
  lemma SquareBelowAt(x: seq<real>, y: seq<real>, l: Line, other: Line, i: int)
    requires |x| == |y| && 0 <= i < |x|
    ensures SquaredErrors(y, Predict(l, x))[i] == Products(Residuals(l, x, y), Residuals(l, x, y))[i]
    ensures Plus(Products(Residuals(l, x, y), Residuals(l, x, y)),
                 Scaled(Products(Residuals(l, x, y), Predict(Line(other.slope - l.slope, other.intercept - l.intercept), x)), -2.0))[i]
         <= SquaredErrors(y, Predict(other, x))[i]
  {
    var r := Residuals(l, x, y);
    var d := Predict(Line(other.slope - l.slope, other.intercept - l.intercept), x);
    var e := y[i] - Predict(other, x)[i];
    Deviation(y[i], x[i], l, other, r[i], d[i], e);
    SameSquare(y[i] - Predict(l, x)[i], r[i], SquaredErrors(y, Predict(l, x))[i], Products(r, r)[i]);
    SquareBelow(e, r[i], d[i], SquaredErrors(y, Predict(other, x))[i], Products(r, r)[i], Products(r, d)[i]);
  }

  /** Against another line, the error is the residual less the gap between the lines. */
  lemma Deviation(yi: real, xi: real, l: Line, other: Line, ri: real, di: real, e: real)
    requires ri == yi - (l.slope * xi + l.intercept)
    requires di == (other.slope - l.slope) * xi + (other.intercept - l.intercept)
    requires e == yi - (other.slope * xi + other.intercept)
    ensures e == ri - di
  {
  }

  /** Equal numbers have equal squares. */
  lemma SameSquare(a: real, b: real, sa: real, sb: real)
    requires a == b && sa == a * a && sb == b * b
    ensures sa == sb
  {
  }

  /** Residuals that sum to zero and are uncorrelated with `x` are uncorrelated with every line over `x`. */
  lemma ResidualsOrthogonal(r: seq<real>, x: seq<real>, d: Line)
    requires |r| == |x| && Sum(r) == 0.0 && Sum(Products(r, x)) == 0.0
    ensures Sum(Products(r, Predict(d, x))) == 0.0
  {
    AgainstLineAt(r, x, d);
    SumAgainstLine(r, x, d);
  }

  /** Weighting the values of a line by `r` splits, position by position, into the slope part and the intercept part. */
  lemma AgainstLineAt(r: seq<real>, x: seq<real>, d: Line)
    requires |r| == |x|
    ensures forall i :: 0 <= i < |r| ==> Products(r, Predict(d, x))[i] == d.slope * Products(r, x)[i] + d.intercept * r[i]
  {
  }

  /** Summing the split of `AgainstLineAt`. */
  lemma SumAgainstLine(r: seq<real>, x: seq<real>, d: Line)
    requires |r| == |x|
    requires forall i :: 0 <= i < |r| ==> Products(r, Predict(d, x))[i] == d.slope * Products(r, x)[i] + d.intercept * r[i]
    ensures Sum(Products(r, Predict(d, x))) == d.slope * Sum(Products(r, x)) + d.intercept * Sum(r)
  {
    SumLinear(Products(r, x), r, Products(r, Predict(d, x)), d);
  }

  /** A sum of `k.slope * a[i] + k.intercept * b[i]` is the same combination of the sums. */
  lemma {:induction false} SumLinear(a: seq<real>, b: seq<real>, c: seq<real>, k: Line)
    requires |a| == |b| == |c|
    requires forall i :: 0 <= i < |c| ==> c[i] == k.slope * a[i] + k.intercept * b[i]
    ensures Sum(c) == k.slope * Sum(a) + k.intercept * Sum(b)
    decreases |c|
  {
    if |c| > 0 {
      var n := |c| - 1;
      SumLinear(a[..n], b[..n], c[..n], k);
      assert k.slope * Sum(a) == k.slope * Sum(a[..n]) + k.slope * a[n];
      assert k.intercept * Sum(b) == k.intercept * Sum(b[..n]) + k.intercept * b[n];
    }
  }


  /** No line over `x` has a smaller mean squared error than the one the linear branch scores. */
  lemma LinearErrorIsLeast(x: seq<real>, y: seq<real>, other: Line)
    requires LinearError(x, y).Real?
    ensures MeanSquaredError(y, Predict(other, x)).Real?
    ensures LinearError(x, y).value <= MeanSquaredError(y, Predict(other, x)).value
  {
    var l := LinearRegression(x, y).value;
    LeastSquares(x, y, l, other);
    DivideOrder(Sum(SquaredErrors(y, Predict(l, x))), Sum(SquaredErrors(y, Predict(other, x))), |y| as real);
  }

  /** On exactly linear data the linear branch predicts `y` itself and scores 0. */
  lemma ExactLineZeroError(x: seq<real>, y: seq<real>, g: Line)
    requires |x| == |y| && !Constant(x) && OnLine(x, y, g)
    ensures LinearRegression(x, y) == Some(g)
    ensures Predict(g, x) == y
    ensures LinearError(x, y) == Real(0.0)
  {
    ExactLineRecovered(x, y, g);
    PredictExact(x, y, g);
  }

  /** A line predicts data lying on it exactly. */
  lemma PredictExact(x: seq<real>, y: seq<real>, g: Line)
    requires |x| == |y| && OnLine(x, y, g)
    ensures Predict(g, x) == y
  {
    var p := Predict(g, x);
    assert forall i :: 0 <= i < |x| ==> p[i] == y[i];
  }
}
