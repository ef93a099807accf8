/**
 * `FitDetect.normalize` (fit-detect.js:5-9): the min-max rescaling
 * `data.map(v => (v - min) / (max - min))`.
 */
module Normalization {
  import opened Numbers

  /** Every element of `s` is the same value (true of the empty sequence). */
  predicate Constant(s: seq<real>) {
    forall i, j :: 0 <= i < |s| && 0 <= j < |s| ==> s[i] == s[j]
  }

  /** `Math.min(...s)` on a non-empty array, compared left to right. */
  function Min(s: seq<real>): (m: real)
    requires |s| > 0
    ensures m in s
    ensures forall i :: 0 <= i < |s| ==> m <= s[i]
    decreases |s|
  {
    if |s| == 1 then s[0]
    else
      var m := Min(s[..|s| - 1]);
      if s[|s| - 1] < m then s[|s| - 1] else m
  }

  /** `Math.max(...s)` on a non-empty array, compared left to right. */
  function Max(s: seq<real>): (m: real)
    requires |s| > 0
    ensures m in s
    ensures forall i :: 0 <= i < |s| ==> s[i] <= m
    decreases |s|
  {
    if |s| == 1 then s[0]
    else
      var m := Max(s[..|s| - 1]);
      if m < s[|s| - 1] then s[|s| - 1] else m
  }

  /** A non-empty sequence is constant exactly when its minimum equals its maximum. */
  lemma ConstantIffFlat(s: seq<real>)
    requires |s| > 0
    ensures Constant(s) <==> Min(s) == Max(s)
  {
    if Min(s) == Max(s) {
      forall i, j | 0 <= i < |s| && 0 <= j < |s| ensures s[i] == s[j] {
        assert Min(s) <= s[i] <= Max(s) && Min(s) <= s[j] <= Max(s);
      }
    }
  }

  /** `(v - lo) / (hi - lo)` for every element `v` of `data`, all of which lie in [lo, hi]. */
  function Rescale(data: seq<real>, lo: real, hi: real): (r: seq<Num>)
    requires forall i :: 0 <= i < |data| ==> lo <= data[i] <= hi
    ensures |r| == |data|
  {
    seq(|data|, i requires 0 <= i < |data| => Div(data[i] - lo, hi - lo))
  }

  /**
   * The rescaled sample. An empty input gives an empty output. A constant
   * input divides 0 by 0 at every element and so gives NaN throughout.
   */
  function Normalize(data: seq<real>): (r: seq<Num>)
    ensures |r| == |data|
  {
    if |data| == 0 then [] else Rescale(data, Min(data), Max(data))
  }


  /** The element at `i` of the normalised sample is the quotient `(data[i] - lo) / (hi - lo)`. */
  lemma NormalizeAt(data: seq<real>, i: int, lo: real, hi: real)
    requires 0 <= i < |data| && lo == Min(data) && hi == Max(data)
    ensures Normalize(data)[i] == Div(data[i] - lo, hi - lo)
  {
    RescaleAt(data, lo, hi, i);
  }

  /** The element at `i` of a rescaled sample. */
  lemma RescaleAt(data: seq<real>, lo: real, hi: real, i: int)
    requires forall k :: 0 <= k < |data| ==> lo <= data[k] <= hi
    requires 0 <= i < |data|
    ensures Rescale(data, lo, hi)[i] == Div(data[i] - lo, hi - lo)
  {
  }

  /** One element of a normalised non-constant sample: in [0, 1], 0 exactly at the minimum, 1 exactly at the maximum. */
  lemma NormalizedAt(data: seq<real>, i: int)
    requires !Constant(data) && 0 <= i < |data|
    ensures Normalize(data)[i].Real? && 0.0 <= Normalize(data)[i].value <= 1.0
    ensures Normalize(data)[i] == Real(0.0) <==> data[i] == Min(data)
    ensures Normalize(data)[i] == Real(1.0) <==> data[i] == Max(data)
  {
    ConstantIffFlat(data);
    NormalizeAt(data, i, Min(data), Max(data));
    assert Max(data) - Min(data) > 0.0;
  }

  /** A constant sample normalises to NaN at every position. */
  lemma {:induction false} NormalizeConstant(data: seq<real>)
    requires Constant(data)
    ensures forall i :: 0 <= i < |data| ==> Normalize(data)[i] == NaN
  {
    if |data| > 0 {
      ConstantIffFlat(data);
    }
  }

  /** A non-constant sample normalises into [0, 1], sending its minimum to 0 and its maximum to 1. */
  lemma NormalizeRange(data: seq<real>)
    requires !Constant(data)
    ensures forall i :: 0 <= i < |data| ==> Normalize(data)[i].Real? && 0.0 <= Normalize(data)[i].value <= 1.0
    ensures forall i :: 0 <= i < |data| ==> (Normalize(data)[i] == Real(0.0) <==> data[i] == Min(data))
    ensures forall i :: 0 <= i < |data| ==> (Normalize(data)[i] == Real(1.0) <==> data[i] == Max(data))
  {
    forall i | 0 <= i < |data|
      ensures Normalize(data)[i].Real? && 0.0 <= Normalize(data)[i].value <= 1.0
      ensures Normalize(data)[i] == Real(0.0) <==> data[i] == Min(data)
      ensures Normalize(data)[i] == Real(1.0) <==> data[i] == Max(data)
    {
      NormalizedAt(data, i);
    }
  }

  /** Normalisation of a non-constant sample keeps the order of any two elements, both ways. */
  lemma NormalizeOrder(data: seq<real>, i: int, j: int)
    requires !Constant(data) && 0 <= i < |data| && 0 <= j < |data|
    ensures Normalize(data)[i].Real? && Normalize(data)[j].Real?
    ensures data[i] <= data[j] <==> Normalize(data)[i].value <= Normalize(data)[j].value
  {
    NormalizedAt(data, i);
    NormalizedAt(data, j);
    NormalizeAt(data, i, Min(data), Max(data));
    NormalizeAt(data, j, Min(data), Max(data));
    ConstantIffFlat(data);
    assert Min(data) <= data[i] && data[i] <= Max(data) && Min(data) < Max(data);
    DivideOrder(data[i] - Min(data), data[j] - Min(data), Max(data) - Min(data));
  }


  /** The real values of a sequence of numbers none of which is NaN. */
  function Values(r: seq<Num>): (v: seq<real>)
    requires forall i :: 0 <= i < |r| ==> r[i].Real?
    ensures |v| == |r| && forall i :: 0 <= i < |r| ==> r[i] == Real(v[i])
  {
    seq(|r|, i requires 0 <= i < |r| => r[i].value)
  }

  /** The minimum is the unique value that occurs and lies below every element. */
  lemma MinUnique(s: seq<real>, m: real, k: int)
    requires 0 <= k < |s| && s[k] == m && forall i :: 0 <= i < |s| ==> m <= s[i]
    ensures Min(s) == m
  {
  }

  /** The maximum is the unique value that occurs and lies above every element. */
  lemma MaxUnique(s: seq<real>, m: real, k: int)
    requires 0 <= k < |s| && s[k] == m && forall i :: 0 <= i < |s| ==> s[i] <= m
    ensures Max(s) == m
  {
  }

  /** Normalising an already normalised sample changes nothing. */
  lemma NormalizeIdempotent(data: seq<real>)
    requires !Constant(data)
    ensures forall i :: 0 <= i < |data| ==> Normalize(data)[i].Real?
    ensures Normalize(Values(Normalize(data))) == Normalize(data)
  {
    NormalizeRange(data);
    var r := Normalize(data);
    var v := Values(r);
    var i0 :| 0 <= i0 < |data| && data[i0] == Min(data);
    var i1 :| 0 <= i1 < |data| && data[i1] == Max(data);
    assert v[i0] == 0.0 && v[i1] == 1.0;
    MinUnique(v, 0.0, i0);
    MaxUnique(v, 1.0, i1);
    var r2 := Normalize(v);
    forall i | 0 <= i < |data| ensures r2[i] == r[i] {
      NormalizeAt(v, i, 0.0, 1.0);
      DivideByOne(v[i] - 0.0);
    }
  }

}
