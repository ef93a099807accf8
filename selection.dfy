/**
 * The choice of the best fit on fit-detect.js:64-65: the `errors` object of
 * four scores and `Object.keys(errors).reduce((a, b) => (errors[a] < errors[b] ? a : b))`.
 * The reducer keeps the accumulated key only when its score is strictly
 * below the next one: on a tie, and whenever either score is NaN, the later
 * key takes over.
 */
module Selection {
  import opened Numbers

  /** The four candidate families, named by the keys of the `errors` object. */
  datatype Family = Linear | Logarithmic | Power | Exponential

  /** The `errors` object: one score per family. */
  datatype Errors = Errors(linear: Num, logarithmic: Num, power: Num, exponential: Num)

  /** `errors[f]`. */
  function At(e: Errors, f: Family): Num {
    match f
    case Linear => e.linear
    case Logarithmic => e.logarithmic
    case Power => e.power
    case Exponential => e.exponential
  }

  /** `Object.keys(errors)`: the keys in the order the object literal lists them. */
  const Keys: seq<Family> := [Linear, Logarithmic, Power, Exponential]

  /** The position of a family in `Keys`. */
  function Index(f: Family): (k: nat)
    ensures k < |Keys| && Keys[k] == f
  {
    match f
    case Linear => 0
    case Logarithmic => 1
    case Power => 2
    case Exponential => 3
  }

  /** The reducer `(a, b) => (errors[a] < errors[b] ? a : b)`. */
  function Step(e: Errors, a: Family, b: Family): (r: Family)
    ensures r == a || r == b
  {
    if Less(At(e, a), At(e, b)) then a else b
  }

  /** `keys.reduce(step)` with no initial value: the first key seeds the accumulator. */
  function Reduce(e: Errors, keys: seq<Family>): (r: Family)
    requires |keys| > 0
    ensures r in keys
    decreases |keys|
  {
    if |keys| == 1 then keys[0] else Step(e, Reduce(e, keys[..|keys| - 1]), keys[|keys| - 1])
  }

  /** The `bestFit` that `identifyFunctionType` reports. */
  function BestFit(e: Errors): Family {
    Reduce(e, Keys)
  }

  /** The reduction over the four keys is three nested steps. */
  lemma BestFitSteps(e: Errors)
    ensures BestFit(e) == Step(e, Step(e, Step(e, Linear, Logarithmic), Power), Exponential)
  {
    var k := Keys;
    assert k[..2][..1] == k[..1] && k[..3][..2] == k[..2] && k[..|k| - 1] == k[..3];
    assert Reduce(e, k[..1]) == Linear;
    assert Reduce(e, k[..2]) == Step(e, Linear, Logarithmic);
    assert Reduce(e, k[..3]) == Step(e, Reduce(e, k[..2]), Power);
  }

  /** No score is NaN. */
  predicate AllValid(e: Errors) {
    e.linear.Real? && e.logarithmic.Real? && e.power.Real? && e.exponential.Real?
  }

  /** The score of `f` is a number, not NaN. */
  predicate IsValid(e: Errors, f: Family) {
    At(e, f).Real?
  }

  /**
   * The position just after the last key whose score is NaN: 0 when no score
   * is NaN, and `|Keys|` when the exponential score is NaN.
   */
  function ValidFrom(e: Errors): (lo: nat)
    ensures lo <= |Keys|
    ensures forall g :: lo <= Index(g) ==> IsValid(e, g)
    ensures 0 < lo ==> !IsValid(e, Keys[lo - 1])
    ensures lo == 0 <==> AllValid(e)
  {
    if !IsValid(e, Exponential) then 4
    else if !IsValid(e, Power) then 3
    else if !IsValid(e, Logarithmic) then 2
    else if !IsValid(e, Linear) then 1
    else 0
  }

  /**
   * Among the keys from position `lo` on, whose scores are all numbers, `f`
   * has the least score, and every key after `f` has a strictly greater one.
   */
  predicate LastMinimum(e: Errors, lo: nat, f: Family) {
    lo <= Index(f) && IsValid(e, f)
    && (forall g :: lo <= Index(g) ==> IsValid(e, g) && At(e, f).value <= At(e, g).value)
    && (forall g :: Index(f) < Index(g) ==> IsValid(e, g) && At(e, f).value < At(e, g).value)
  }

  /** Termwise, with no NaN: the reduction ends on a key whose score no key of the sequence beats. */
  lemma {:induction false} ReduceMinimal(e: Errors, keys: seq<Family>)
    requires |keys| > 0 && forall i :: 0 <= i < |keys| ==> At(e, keys[i]).Real?
    ensures forall i :: 0 <= i < |keys| ==> At(e, Reduce(e, keys)).value <= At(e, keys[i]).value
    decreases |keys|
  {
    if |keys| > 1 {
      var n := |keys| - 1;
      ReduceMinimal(e, keys[..n]);
      forall i | 0 <= i < |keys| ensures At(e, Reduce(e, keys)).value <= At(e, keys[i]).value {
        if i < n { assert keys[..n][i] == keys[i]; }
      }
    }
  }

  /** With no NaN, the best fit has the least error of all four families. */
  lemma BestFitMinimal(e: Errors)
    requires AllValid(e)
    ensures forall g :: At(e, BestFit(e)).value <= At(e, g).value
  {
    ReduceMinimal(e, Keys);
    forall g ensures At(e, BestFit(e)).value <= At(e, g).value {
      assert Keys[Index(g)] == g;
    }
  }

  /**
   * The best fit is exactly the last family, in key order, that attains the
   * least error among the keys after the last NaN one: a NaN score discards
   * every key before it, and a tie goes to the later key. With no NaN this
   * ranges over all four families. A NaN exponential error is the remaining
   * case, `ExponentialNaNWins`.
   */
  lemma BestFitIsLastMinimum(e: Errors, f: Family)
    requires ValidFrom(e) < |Keys|
    ensures BestFit(e) == f <==> LastMinimum(e, ValidFrom(e), f)
  {
    BestFitIsLast(e);
    if LastMinimum(e, ValidFrom(e), f) {
      LastMinimumUnique(e, ValidFrom(e), f, BestFit(e));
    }
  }

  /** The best fit is a last minimum of the keys after the last NaN one. */
  lemma BestFitIsLast(e: Errors)
    requires ValidFrom(e) < |Keys|
    ensures LastMinimum(e, ValidFrom(e), BestFit(e))
  {
    BestFitAfterNaN(e);
    forall g | ValidFrom(e) <= Index(g) ensures At(e, BestFit(e)).value <= At(e, g).value {
      BestFitLeast(e, g);
    }
    forall g | Index(BestFit(e)) < Index(g) ensures At(e, BestFit(e)).value < At(e, g).value {
      LaterScoresHigher(e, g);
    }
  }

  /** The best fit lies after the last NaN key. */
  lemma BestFitAfterNaN(e: Errors)
    requires ValidFrom(e) < |Keys|
    ensures ValidFrom(e) <= Index(BestFit(e))
  {
    BestFitSteps(e);
  }

  /** No key after the last NaN one has a smaller error than the best fit. */
  lemma BestFitLeast(e: Errors, g: Family)
    requires ValidFrom(e) < |Keys| && ValidFrom(e) <= Index(g)
    ensures IsValid(e, BestFit(e)) && At(e, BestFit(e)).value <= At(e, g).value
  {
    BestFitSteps(e);
  }

  /** A family after the best fit has a strictly greater error. */
  lemma LaterScoresHigher(e: Errors, g: Family)
    requires ValidFrom(e) < |Keys| && Index(BestFit(e)) < Index(g)
    ensures IsValid(e, BestFit(e)) && IsValid(e, g) && At(e, BestFit(e)).value < At(e, g).value
  {
    BestFitSteps(e);
  }

  /** There is at most one last minimum. */
  lemma LastMinimumUnique(e: Errors, lo: nat, f: Family, b: Family)
    requires LastMinimum(e, lo, f) && LastMinimum(e, lo, b)
    ensures f == b
  {
    assert At(e, f).value <= At(e, b).value && At(e, b).value <= At(e, f).value;
    assert Index(f) == Index(b);
  }

  /** Once the accumulated key scores NaN, the next key replaces it whatever its own score. */
  lemma ReduceAfterNaN(e: Errors, keys: seq<Family>, b: Family)
    requires |keys| > 0 && At(e, Reduce(e, keys)).NaN?
    ensures Reduce(e, keys + [b]) == b
  {
    assert (keys + [b])[..|keys|] == keys;
  }

  /** As written: a NaN exponential error makes `exponential` the best fit, whatever the other errors are. */
  lemma ExponentialNaNWins(e: Errors)
    requires e.exponential.NaN?
    ensures BestFit(e) == Exponential
  {
    BestFitSteps(e);
  }

  /**
   * One step of the evidently intended reduction: a key whose score is NaN is
   * skipped, the first key with a number seeds the accumulator, and after
   * that the source's reducer decides.
   */
  function ValidStep(e: Errors, r: Option<Family>, b: Family): (s: Option<Family>)
    ensures s.Some? <==> r.Some? || IsValid(e, b)
    ensures !IsValid(e, b) ==> s == r
  {
    if !IsValid(e, b) then r
    else if r.None? then Some(b)
    else Some(Step(e, r.value, b))
  }

  /**
   * The evidently intended selection: the same reduction over the keys whose
   * score is a number, `None` when every score is NaN.
   */
  function ReduceValid(e: Errors, keys: seq<Family>): (r: Option<Family>)
    ensures r.Some? <==> exists i :: 0 <= i < |keys| && IsValid(e, keys[i])
    ensures r.Some? ==> r.value in keys && IsValid(e, r.value)
    ensures r.Some? ==> forall i :: 0 <= i < |keys| && IsValid(e, keys[i]) ==> At(e, r.value).value <= At(e, keys[i]).value
    decreases |keys|
  {
    if |keys| == 0 then None
    else
      var n := |keys| - 1;
      assert forall i :: 0 <= i < n ==> keys[..n][i] == keys[i];
      ValidStep(e, ReduceValid(e, keys[..n]), keys[n])
  }

  /** The corrected `bestFit`: the best family among those whose error is a number. */
  function BestValidFit(e: Errors): Option<Family> {
    ReduceValid(e, Keys)
  }

  /** The corrected selection answers `None` exactly when every error is NaN, and otherwise a family whose error is a number and least among the numbers. */
  lemma BestValidFitMinimal(e: Errors)
    ensures BestValidFit(e).None? <==> forall g :: !IsValid(e, g)
    ensures BestValidFit(e).Some? ==> IsValid(e, BestValidFit(e).value)
    ensures BestValidFit(e).Some? ==> forall g :: IsValid(e, g) ==> At(e, BestValidFit(e).value).value <= At(e, g).value
  {
    if BestValidFit(e).None? {
      forall g ensures !IsValid(e, g) {
        assert Keys[Index(g)] == g;
      }
    }
    if BestValidFit(e).Some? {
      forall g | IsValid(e, g) ensures At(e, BestValidFit(e).value).value <= At(e, g).value {
        assert Keys[Index(g)] == g;
      }
    }
  }

  /** The corrected reduction over the four keys is four nested steps from `None`. */
  lemma BestValidFitSteps(e: Errors)
    ensures BestValidFit(e)
      == ValidStep(e, ValidStep(e, ValidStep(e, ValidStep(e, None, Linear), Logarithmic), Power), Exponential)
  {
    var k := Keys;
    assert k[..1][..0] == [] && k[..2][..1] == k[..1] && k[..3][..2] == k[..2] && k[..|k| - 1] == k[..3];
    assert ReduceValid(e, k[..1]) == ValidStep(e, None, Linear);
    assert ReduceValid(e, k[..2]) == ValidStep(e, ReduceValid(e, k[..1]), Logarithmic);
    assert ReduceValid(e, k[..3]) == ValidStep(e, ReduceValid(e, k[..2]), Power);
  }

  /**
   * `f`'s error is a number, least among the numbers, and every later family
   * whose error is a number has a strictly greater one.
   */
  predicate ValidLastMinimum(e: Errors, f: Family) {
    IsValid(e, f)
    && (forall g :: IsValid(e, g) ==> At(e, f).value <= At(e, g).value)
    && (forall g :: Index(f) < Index(g) && IsValid(e, g) ==> At(e, f).value < At(e, g).value)
  }

  /**
   * The corrected selection keeps the source's tie rule: it answers `f`
   * exactly when `f` is the last family, in key order, whose error is the
   * least number.
   */
  lemma BestValidFitIsLastMinimum(e: Errors, f: Family)
    ensures BestValidFit(e) == Some(f) <==> ValidLastMinimum(e, f)
  {
    BestValidFitMinimal(e);
    if BestValidFit(e).Some? {
      var b := BestValidFit(e).value;
      forall g | Index(b) < Index(g) && IsValid(e, g) ensures At(e, b).value < At(e, g).value {
        ValidLaterScoresHigher(e, g);
      }
      assert ValidLastMinimum(e, b);
      if ValidLastMinimum(e, f) {
        ValidLastMinimumUnique(e, f, b);
      }
    }
  }

  /** A family after the corrected best fit whose error is a number has a strictly greater error. */
  lemma ValidLaterScoresHigher(e: Errors, g: Family)
    requires BestValidFit(e).Some? && IsValid(e, g) && Index(BestValidFit(e).value) < Index(g)
    ensures IsValid(e, BestValidFit(e).value) && At(e, BestValidFit(e).value).value < At(e, g).value
  {
    BestValidFitSteps(e);
  }

  /** There is at most one family that `ValidLastMinimum` describes. */
  lemma ValidLastMinimumUnique(e: Errors, f: Family, b: Family)
    requires ValidLastMinimum(e, f) && ValidLastMinimum(e, b)
    ensures f == b
  {
    assert At(e, f).value <= At(e, b).value && At(e, b).value <= At(e, f).value;
    assert Index(f) == Index(b);
  }

  /** With no NaN score the corrected reduction agrees with the source's. */
  lemma {:induction false} ReduceValidAgrees(e: Errors, keys: seq<Family>)
    requires |keys| > 0 && forall i :: 0 <= i < |keys| ==> IsValid(e, keys[i])
    ensures ReduceValid(e, keys) == Some(Reduce(e, keys))
    decreases |keys|
  {
    var n := |keys| - 1;
    if n == 0 {
      assert ReduceValid(e, keys[..n]) == None;
    } else {
      forall i | 0 <= i < n ensures IsValid(e, keys[..n][i]) {
        assert keys[..n][i] == keys[i];
      }
      ReduceValidAgrees(e, keys[..n]);
      assert IsValid(e, keys[n]);
    }
  }

  /** With no NaN error the corrected selection agrees with the source. */
  lemma BestValidFitAgrees(e: Errors)
    requires AllValid(e)
    ensures BestValidFit(e) == Some(BestFit(e))
  {
    ReduceValidAgrees(e, Keys);
  }

  /** The corrected selection never picks a NaN family while another family has a number. */
  lemma BestValidFitSkipsNaN(e: Errors, f: Family)
    requires !IsValid(e, f) && exists g :: IsValid(e, g)
    ensures BestValidFit(e).Some? && BestValidFit(e).value != f
  {
    BestValidFitMinimal(e);
  }

  /** The errors that show the discrepancy: linear fits exactly, power and exponential are NaN. */
  const Counterexample: Errors := Errors(Real(0.0), Real(1.0), NaN, NaN)

  /** As written the source reports `exponential` for these errors, where `linear` is the least error. */
  lemma CounterexampleDiffers()
    ensures BestFit(Counterexample) == Exponential
    ensures BestValidFit(Counterexample) == Some(Linear)
  {
    ExponentialNaNWins(Counterexample);
    var e := Counterexample;
    BestValidFitMinimal(e);
    assert IsValid(e, Linear);
    var b := BestValidFit(e).value;
    assert At(e, b).value <= 0.0;
  }
}
