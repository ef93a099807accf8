# FitDetect in Dafny

A model of `FitDetect`, a small JavaScript object (`fit-detect.js`). It rescales
a sample into [0, 1] (`normalize`) and fits a least-squares line (`linearRegression`).
It scores a prediction by its mean squared error (`meanSquaredError`). Its main
operation, `identifyFunctionType`, scores four families of curves (linear,
logarithmic, power, exponential) against a sample and names the family with
the least error, except that a NaN error can be named (see Findings).

JavaScript numbers are modelled as exact reals with a NaN tag (`Numbers.Num`).
`Array.prototype.reduce` summation is a left-to-right `Numbers.Sum`.
The model keeps the array-length quirks of the source:
- `y[i]` past the end of `y` is `undefined`, and arithmetic on it gives NaN;
- both means divide by the length of `x`;
- `meanSquaredError` divides by the length of `yTrue`.

Every division the model performs is proved to be either by a non-zero number
or 0/0 (which gives NaN). Where the line is NaN anyway, the model returns NaN
without performing the source's divisions. Two of those divisions are neither
by a non-zero number nor 0/0:
- `meanY` when `x` is empty (fit-detect.js:26), which is Infinity or -Infinity, by the sign of the sum, when `y` has a non-zero sum;
- the slope when `x` is constant and `y` is shorter (fit-detect.js:29), which divides a NaN numerator (it reads `undefined`) by 0.

Modules:
- `Numbers`: `Num`, `Option`, division as JavaScript does it, `<` with NaN, summation and its algebra.
- `Normalization`: `normalize`, with `Math.min` and `Math.max`.
- `Regression`: `linearRegression`, `meanSquaredError`, and the linear branch of `identifyFunctionType`.
- `Selection`: the `errors` object and the reduction that picks `bestFit`, plus a corrected selection.
- `FitDetect`: `identifyFunctionType`, and the sample that the file runs it on.

## Model

| member | source | states |
|---|---|---|
| `Numbers.Div` | fit-detect.js:8 | `a / b` is NaN exactly when the divisor is 0, which happens only as 0/0. Over a positive divisor the quotient has the dividend's sign and compares to 1 as the dividend compares to the divisor. |
| `Numbers.DivideOrder` | fit-detect.js:8 | Dividing by a positive number keeps order, in both directions. |
| `Normalization.Min` | fit-detect.js:6 | `Math.min(...data)` is an element of the data and lies at or below every element. |
| `Normalization.Max` | fit-detect.js:7 | `Math.max(...data)` is an element of the data and lies at or above every element. |
| `Normalization.ConstantIffFlat` | fit-detect.js:6-7 | A non-empty sample is constant exactly when its minimum equals its maximum. |
| `Normalization.Normalize` | fit-detect.js:5-9 | `normalize` returns one value per input. |
| `Normalization.NormalizeAt` | fit-detect.js:5-9 | Element `i` of the result is the quotient with the sample's own minimum and maximum. |
| `Normalization.NormalizedAt` | fit-detect.js:5-9 | For a non-constant sample, each element maps into [0, 1]. It maps to 0 exactly when it is the minimum and to 1 exactly when it is the maximum. |
| `Normalization.NormalizeRange` | fit-detect.js:5-9 | The same, for every element at once. |
| `Normalization.NormalizeConstant` | fit-detect.js:5-9 | A constant sample (max == min) normalises to NaN everywhere, because every element is 0/0. |
| `Normalization.NormalizeOrder` | fit-detect.js:5-9 | For a non-constant sample, normalisation preserves the order of any two elements, in both directions. |
| `Normalization.MinUnique` | fit-detect.js:6 | A value that occurs and lies below every element is `Math.min`. |
| `Normalization.MaxUnique` | fit-detect.js:7 | A value that occurs and lies above every element is `Math.max`. |
| `Normalization.NormalizeIdempotent` | fit-detect.js:5-9 | Normalising a normalised non-constant sample gives the same sample back. |
| `Regression.MeanTimes` | fit-detect.js:25-26 | The mean times the length of `x` is the sum. |
| `Regression.LinearRegression` | fit-detect.js:23-32 | The slope and intercept are numbers exactly when `x` is non-empty, `y` is at least as long, and `x` is not constant. In every other case both are NaN. |
| `Regression.Spread` | fit-detect.js:27-28 | The denominator is non-negative. It is zero exactly when every `x[i]` equals the centre. When it is zero, so is the numerator, so the slope is 0/0 and never ±Infinity. |
| `Regression.ConstantAtMean` | fit-detect.js:25 | A non-empty sample equals its mean everywhere exactly when it is constant. |
| `Regression.SlopeFacts` | fit-detect.js:27-29 | The returned slope solves `slope * denominator == numerator`, with a positive denominator. |
| `Regression.InterceptFact` | fit-detect.js:30 | The returned intercept puts the point `(meanX, meanY)` on the line. |
| `Regression.ExactLineRecovered` | fit-detect.js:23-32 | If the points lie on a line and `x` is not constant, `linearRegression` returns exactly that line. |
| `Regression.ExactSlope` | fit-detect.js:29 | On exactly linear data the returned slope is the slope of the data. |
| `Regression.ExactIntercept` | fit-detect.js:30 | On exactly linear data the returned intercept is the intercept of the data. |
| `Regression.SlopeCancel` | fit-detect.js:29 | The slope is determined by `slope * denominator == numerator` when the denominator is positive. |
| `Regression.MeansOnLine` | fit-detect.js:25-26 | For data on a line, the two means lie on that line. |
| `Regression.SumOnLine` | fit-detect.js:26 | For data on the line `m * x + c`, the sum of `y` is `m` times the sum of `x` plus `n * c`. |
| `Regression.CrossOnLine` | fit-detect.js:27-28 | For data on a line of slope `m`, the numerator is `m` times the denominator. |
| `Regression.CrossAt` | fit-detect.js:27-28 | The same fact, term by term. |
| `Regression.DeviationsSumToZero` | fit-detect.js:25-26 | Deviations from the mean sum to zero. |
| `Regression.ResidualsSumToZero` | fit-detect.js:23-32 | The residuals of the returned line sum to zero. |
| `Regression.CentredResiduals` | fit-detect.js:30 | With the returned intercept, the residuals sum to the centred `y` less slope times the centred `x`. |
| `Regression.ResidualsUncorrelated` | fit-detect.js:23-32 | The residuals of the returned line are orthogonal to `x`, which is the normal equation of least squares. |
| `Regression.CenteredMoment` | fit-detect.js:27-29 | The residuals are orthogonal to the centred `x`, because `slope * denominator == numerator`. |
| `Regression.SquaredErrorsTotal` | fit-detect.js:36 | The error sum is non-negative, and zero exactly when every prediction is exact. |
| `Regression.MeanSquaredError` | fit-detect.js:34-37 | The result is a number exactly when `yTrue` is non-empty and `yPred` is at least as long. Otherwise it is NaN. A number result is non-negative, and zero exactly when every prediction is exact. |
| `Regression.LinearError` | fit-detect.js:41-43 | The linear error is a number exactly when `x` is non-empty, `y` has the same length, and `x` is not constant. It is then non-negative. |
| `Regression.LeastSquares` | fit-detect.js:23-32 | No line has a smaller sum of squared errors over the sample than the returned line. |
| `Regression.ResidualsOrthogonal` | fit-detect.js:42 | Residuals that sum to zero and are orthogonal to `x` are orthogonal to every line's predictions over `x`. |
| `Regression.LinearErrorIsLeast` | fit-detect.js:41-43 | No line has a smaller mean squared error than the one the linear branch reports. |
| `Regression.ExactLineZeroError` | fit-detect.js:41-43 | On exactly linear data the fit is that line, the predictions equal `y`, and the linear error is 0. |
| `Regression.PredictExact` | fit-detect.js:42 | A line predicts the data lying on it exactly. |
| `Selection.Index` | fit-detect.js:64-65 | Each family's position in `Object.keys(errors)`. |
| `Selection.Step` | fit-detect.js:65 | The reducer keeps one of its two keys. |
| `Selection.Reduce` | fit-detect.js:65 | `reduce` without an initial value ends on one of the keys. |
| `Selection.BestFitSteps` | fit-detect.js:64-65 | Over the four keys, the reduction is three nested steps, starting from `linear`. |
| `Selection.ReduceMinimal` | fit-detect.js:65 | With no NaN, the reduction ends on a key that no key of the sequence beats. |
| `Selection.BestFitMinimal` | fit-detect.js:64-65 | With no NaN error, `bestFit` has the least error of the four. |
| `Selection.ValidFrom` | fit-detect.js:64-65 | The position just after the last key whose error is NaN: every key from there on has a number error, the key before it is NaN, and it is 0 exactly when no error is NaN. |
| `Selection.BestFitIsLastMinimum` | fit-detect.js:64-65 | Unless the exponential error is NaN, `bestFit` is `f` exactly when `f` lies after the last NaN key, attains the least error among the keys after it, and every later key has a strictly greater error. A NaN error discards every key before it, and a tie goes to the later key. With no NaN this ranges over all four families. |
| `Selection.BestFitIsLast` | fit-detect.js:64-65 | Unless the exponential error is NaN, `bestFit` is the last key with the least error among the keys after the last NaN one. |
| `Selection.BestFitAfterNaN` | fit-detect.js:65 | Unless the exponential error is NaN, `bestFit` is a key after the last NaN one. |
| `Selection.BestFitLeast` | fit-detect.js:65 | No key after the last NaN one has a smaller error than `bestFit`. |
| `Selection.LaterScoresHigher` | fit-detect.js:65 | Every key after `bestFit` has a number error that is strictly greater. |
| `Selection.ReduceAfterNaN` | fit-detect.js:65 | Once the accumulated key's error is NaN, the next key takes over whatever its error. |
| `Selection.ExponentialNaNWins` | fit-detect.js:64-65 | As written, a NaN exponential error makes `exponential` the best fit, whatever the other errors are. This includes the case where every error is NaN. |
| `Selection.ReduceValid` | fit-detect.js:65 | The corrected reduction skips NaN keys. The result is `None` exactly when every error is NaN. Otherwise it is a key with a number error that is least among the number errors. |
| `Selection.BestValidFitMinimal` | fit-detect.js:64-65 | The corrected `bestFit` is `None` exactly when every error is NaN. Otherwise it is a family whose error is a number and least among the numbers. |
| `Selection.ReduceValidAgrees` | fit-detect.js:65 | With no NaN, the corrected reduction equals the source's. |
| `Selection.BestValidFitAgrees` | fit-detect.js:64-65 | With no NaN error, the corrected `bestFit` equals the source's. |
| `Selection.BestValidFitSteps` | fit-detect.js:64-65 | Over the four keys, the corrected reduction is four nested steps from `None`. |
| `Selection.BestValidFitIsLastMinimum` | fit-detect.js:64-65 | The corrected `bestFit` is `f` exactly when `f`'s error is the least number and every later family with a number error has a strictly greater one. So it keeps the source's rule that a tie goes to the later key. |
| `Selection.ValidLaterScoresHigher` | fit-detect.js:65 | Every family after the corrected `bestFit` with a number error has a strictly greater error. |
| `Selection.BestValidFitSkipsNaN` | fit-detect.js:64-65 | The corrected `bestFit` never names a NaN family while some family has a number error. |
| `Selection.CounterexampleDiffers` | fit-detect.js:64-65 | For the errors `{0, 1, NaN, NaN}` the source answers `exponential`, while the corrected selection answers `linear`. |
| `FitDetect.IdentifyFunctionType` | fit-detect.js:39-68 | The reported linear error is `LinearError(x, y)`, the score of the linear branch. It is a number exactly when `x` is non-empty and not constant and `y` has the same length. The other three errors are reported as given. Unless the exponential error is NaN, `bestFit` is the last family with the least error among the families after the last NaN one. A NaN exponential error makes `bestFit` `exponential`. |
| `FitDetect.ExactLineIdentified` | fit-detect.js:39-68 | On exactly linear data whose other three errors are positive, the linear error is 0 and `bestFit` is `linear`. |
| `FitDetect.ExactLineNaNExponential` | fit-detect.js:39-68 | On exactly linear data whose power and exponential errors are NaN, `bestFit` is `exponential` although the linear error is 0. When the logarithmic error is also a positive number, the corrected selection names `linear`. |
| `FitDetect.LogPowerNaNExponential` | fit-detect.js:39-68 | NaN logarithmic and power errors make `bestFit` `exponential` whenever its error is a number, whatever the linear error. |
| `FitDetect.SampleIsLinear` | fit-detect.js:72-74 | On `x = [1..5]` and `y = [2, 4, 6, 8, 10]` the fitted line is `y = 2x` and the linear error is 0. |
| `FitDetect.SampleTiesWithPower` | fit-detect.js:72-74 | The same sample is an exact power law, so in exact arithmetic its power error is 0 too. With positive logarithmic and exponential errors the tie goes to the later key and the source names `power`. |

## Left out

- The logarithmic, power and exponential fits (fit-detect.js:45-61) are left out because they need `Math.log`, `Math.exp` and `Math.pow` on reals. `FitDetect.IdentifyFunctionType` takes their three errors as parameters.
- `pearsonCorrelation` (fit-detect.js:11-21) is left out: `identifyFunctionType` never calls it, and it needs `Math.sqrt`.
- Floating point is left out: the model computes with exact reals, so there is no rounding, no overflow to Infinity and no signed zero. Results that agree exactly here may differ in the last bits in JavaScript.
- Inputs containing NaN, Infinity or non-numbers are left out: samples are sequences of reals.
- Engine argument limits are left out: `Math.min(...data)` and `Math.max(...data)` (fit-detect.js:6-7) pass the array as arguments, and engines throw a RangeError for very large arrays. `Normalization.Min` and `Normalization.Max` never fail.
- The console output of fit-detect.js:74 is left out. The sample data of fit-detect.js:72-73 appears in `FitDetect.SampleIsLinear`.
- Only what the code does is modelled:
  - there are four families;
  - mean squared error is the only error metric;
  - `normalize` returns NaN for a constant sample rather than raising an error, and does not replace 0 by a small epsilon;
  - a tie goes to the later family;
  - a NaN error can be selected (see Findings).
- Whether the file's own sample ends up `linear` or `power` depends on the floating-point power error, which is not modelled. In exact arithmetic it is 0, and `FitDetect.SampleTiesWithPower` shows that the tie then names `power`.
- `Selection.ReduceValid` corrects only the NaN handling of the reduction. It keeps the source's rule that a tie goes to the later key, and answers `None` when every error is NaN.

## Findings

| source | as written | input that shows it | evidently intended | confidence | as-written member | corrected member |
|---|---|---|---|---|---|---|
| fit-detect.js:64-65 | JavaScript's `<` is false whenever either side is NaN, so the reducer passes the choice to the later key. A NaN error therefore beats every number error before it, and `exponential` is named whenever its error is NaN. | `x = [1, 2, 3, 4, 5]`, `y = [-2, 0, 2, 4, 6]`. `Math.log` of a negative `y` makes the power and exponential errors NaN, while the linear error is 0, so the errors are `{0, log error, NaN, NaN}`. | The family with the least error among those whose error is a number. | not executed | `Selection.CounterexampleDiffers` | `Selection.BestValidFit` |
