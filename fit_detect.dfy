/**
 * `FitDetect.identifyFunctionType` (fit-detect.js:39-68): score the linear
 * fit, take the scores of the logarithmic, power and exponential fits, and
 * report the family with the least error together with all four scores,
 * except that a NaN error can be selected.
 * The three non-linear scores go through `Math.log`, `Math.exp` and
 * `Math.pow`, which are not modelled; they enter here as given numbers.
 */
module FitDetect {
  import opened Numbers
  import opened Normalization
  import opened Regression
  import opened Selection

  /** The object `{ bestFit, errors }` that `identifyFunctionType` returns. */
  datatype Report = Report(bestFit: Family, errors: Errors)

  /**
   * `identifyFunctionType(x, y)`, with the logarithmic, power and exponential
   * errors supplied by the caller in place of the computations on
   * fit-detect.js:45-61.
   */
  function IdentifyFunctionType(x: seq<real>, y: seq<real>, logError: Num, powerError: Num, expError: Num): (r: Report)
    ensures r.errors.linear == LinearError(x, y)
    ensures r.errors.linear.Real? <==> 0 < |x| == |y| && !Constant(x)
    ensures r.errors.linear.Real? ==> r.errors.linear.value >= 0.0
    ensures r.errors.logarithmic == logError && r.errors.power == powerError && r.errors.exponential == expError
    ensures ValidFrom(r.errors) < |Keys| ==> LastMinimum(r.errors, ValidFrom(r.errors), r.bestFit)
    ensures expError.NaN? ==> r.bestFit == Exponential
  {
    var errors := Errors(LinearError(x, y), logError, powerError, expError);
    assert ValidFrom(errors) < |Keys| ==> LastMinimum(errors, ValidFrom(errors), BestFit(errors)) by {
      if ValidFrom(errors) < |Keys| { BestFitIsLast(errors); }
    }
    assert expError.NaN? ==> BestFit(errors) == Exponential by {
      if expError.NaN? { ExponentialNaNWins(errors); }
    }
    Report(BestFit(errors), errors)
  }

  /** The linear error is zero on exactly linear data, and `linear` wins when every other error is a positive number. */
  lemma ExactLineIdentified(x: seq<real>, y: seq<real>, g: Line, logError: Num, powerError: Num, expError: Num)
    requires |x| == |y| && !Constant(x) && OnLine(x, y, g)
    requires Less(Real(0.0), logError) && Less(Real(0.0), powerError) && Less(Real(0.0), expError)
    ensures IdentifyFunctionType(x, y, logError, powerError, expError).errors.linear == Real(0.0)
    ensures IdentifyFunctionType(x, y, logError, powerError, expError).bestFit == Linear
  {
    ExactLineZeroError(x, y, g);
    var e := Errors(LinearError(x, y), logError, powerError, expError);
    BestFitSteps(e);
  }

  /**
   * As written, exactly linear data with a negative value in `y` (so that
   * `Math.log` makes the power and exponential errors NaN) is reported as
   * `exponential`. When the logarithmic error is a positive number, the
   * corrected selection reports `linear`.
   */
  lemma ExactLineNaNExponential(x: seq<real>, y: seq<real>, g: Line, logError: Num)
    requires |x| == |y| && !Constant(x) && OnLine(x, y, g)
    requires Less(Real(0.0), logError)
    ensures IdentifyFunctionType(x, y, logError, NaN, NaN).errors.linear == Real(0.0)
    ensures IdentifyFunctionType(x, y, logError, NaN, NaN).bestFit == Exponential
    ensures BestValidFit(IdentifyFunctionType(x, y, logError, NaN, NaN).errors) == Some(Linear)
  {
    ExactLineZeroError(x, y, g);
    var e := Errors(Real(0.0), logError, NaN, NaN);
    BestValidFitMinimal(e);
    assert IsValid(e, Linear);
    var b := BestValidFit(e).value;
    assert At(e, b).value <= 0.0;
  }

  /**
   * As written, NaN logarithmic and power errors (a negative `x` makes
   * `Math.log` NaN) leave `exponential` as the best fit whenever its error
   * is a number, whatever the linear error is.
   */
  lemma LogPowerNaNExponential(x: seq<real>, y: seq<real>, expError: Num)
    requires expError.Real?
    ensures IdentifyFunctionType(x, y, NaN, NaN, expError).bestFit == Exponential
  {
    var r := IdentifyFunctionType(x, y, NaN, NaN, expError);
    assert ValidFrom(r.errors) == 3;
  }

  /** The sample that fit-detect.js:72-73 feeds to `identifyFunctionType`. */
  const SampleX: seq<real> := [1.0, 2.0, 3.0, 4.0, 5.0]
  const SampleY: seq<real> := [2.0, 4.0, 6.0, 8.0, 10.0]

  /** On that sample the fitted line is `y = 2x` and the linear error is 0. */
  lemma SampleIsLinear()
    ensures LinearRegression(SampleX, SampleY) == Some(Line(2.0, 0.0))
    ensures LinearError(SampleX, SampleY) == Real(0.0)
  {
    assert SampleX[0] != SampleX[1];
    assert OnLine(SampleX, SampleY, Line(2.0, 0.0));
    ExactLineZeroError(SampleX, SampleY, Line(2.0, 0.0));
  }

  /**
   * The sample is also an exact power law, `y = 2 * x ** 1`, so in exact
   * arithmetic its power error is 0 as well. With positive logarithmic and
   * exponential errors the tie goes to the later key, and the source names
   * `power`.
   */
  lemma SampleTiesWithPower(logError: Num, expError: Num)
    requires Less(Real(0.0), logError) && Less(Real(0.0), expError)
    ensures IdentifyFunctionType(SampleX, SampleY, logError, Real(0.0), expError).bestFit == Power
  {
    SampleIsLinear();
    var e := Errors(Real(0.0), logError, Real(0.0), expError);
    BestFitSteps(e);
  }
}
