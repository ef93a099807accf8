/**
 * JavaScript numbers idealised as exact reals, with IEEE NaN kept as a tag,
 * and the left-to-right summation that `reduce((a, b) => a + b, 0)` performs.
 * Infinity is not modelled. Every division the model performs is shown to
 * have a non-zero divisor or a zero dividend (0/0, which JavaScript makes
 * NaN). Where the line is NaN anyway the model returns NaN without performing
 * the source's divisions. Two of those are neither by a non-zero number nor
 * 0/0: `meanY` over an empty `x` (fit-detect.js:26), which is Infinity or
 * -Infinity, by the sign of the sum, when `y` has a non-zero sum, and the slope of a constant `x` with a shorter `y`
 * (fit-detect.js:29), which divides a NaN numerator by 0.
 */
module Numbers {

  /** The usual optional value. */
  datatype Option<T> = None | Some(value: T)

  /** A JavaScript number: an exact real or NaN. */
  datatype Num = Real(value: real) | NaN

  /**
   * JavaScript `a / b` on finite operands whose quotient is finite or 0/0.
   * Over a positive divisor the quotient has the sign of the dividend, and
   * it is below, at or above 1 as the dividend is below, at or above the divisor.
   */
  function Div(a: real, b: real): (r: Num)
    requires b == 0.0 ==> a == 0.0
    ensures r.NaN? <==> b == 0.0
    ensures b > 0.0 ==> (r.value >= 0.0 <==> a >= 0.0) && (r.value == 0.0 <==> a == 0.0)
    ensures b > 0.0 ==> (r.value <= 1.0 <==> a <= b) && (r.value == 1.0 <==> a == b)
  {
    if b == 0.0 then NaN
    else
      assert b > 0.0 ==> ((a / b >= 0.0 <==> a >= 0.0) && (a / b == 0.0 <==> a == 0.0)
        && (a / b <= 1.0 <==> a <= b) && (a / b == 1.0 <==> a == b)) by {
        if b > 0.0 { PositiveQuotient(a, b, a / b); }
      }
      Real(a / b)
  }

  /** The facts behind the contract of `Div`, over distinct variables. */
  lemma PositiveQuotient(a: real, b: real, q: real)
    requires b > 0.0 && q == a / b
    ensures q >= 0.0 <==> a >= 0.0
    ensures q == 0.0 <==> a == 0.0
    ensures q <= 1.0 <==> a <= b
    ensures q == 1.0 <==> a == b
  {
    assert q * b == a;
    if q > 0.0 {
      PositiveProduct(q, b, a);
    } else if q < 0.0 {
      PositiveProduct(-q, b, -a);
    }
    if q > 1.0 {
      PositiveProduct(q - 1.0, b, a - b);
    } else if q < 1.0 {
      PositiveProduct(1.0 - q, b, b - a);
    }
  }

  /** JavaScript `a < b`: false as soon as either side is NaN. */
  predicate Less(a: Num, b: Num) {
    a.Real? && b.Real? && a.value < b.value
  }

  /** Dividing by a positive number keeps order in both directions. */
  lemma DivideOrder(u: real, v: real, w: real)
    requires w > 0.0
    ensures Div(u, w).Real? && Div(v, w).Real?
    ensures u <= v <==> Div(u, w).value <= Div(v, w).value
  {
    var p, q := u / w, v / w;
    assert p * w == u && q * w == v;
    if p < q {
      PositiveProduct(q - p, w, v - u);
    } else if p > q {
      PositiveProduct(p - q, w, u - v);
    }
  }

  /** Division by one is the identity. */
  lemma DivideByOne(u: real)
    ensures Div(u, 1.0) == Real(u)
  {
  }

  /** A quotient by a positive divisor is a number that gives back the dividend. */
  lemma QuotientTimes(a: real, b: real)
    requires b > 0.0
    ensures Div(a, b).Real? && Div(a, b).value * b == a
  {
  }

  /** The product of two negative numbers is positive. */
  lemma NegativeProduct(a: real, b: real, t: real)
    requires a < 0.0 && b < 0.0 && t == a * b
    ensures t > 0.0
  {
    assert (-a) * (-b) > 0.0;
  }

  /** The product of two positive numbers is positive. */
  lemma PositiveProduct(a: real, b: real, t: real)
    requires a > 0.0 && b > 0.0 && t == a * b
    ensures t > 0.0
  {
  }

  /** A square `t = z * z` is non-negative, and zero exactly when `z` is. */
  lemma SquareSign(z: real, t: real)
    requires t == z * z
    ensures t >= 0.0
    ensures t == 0.0 <==> z == 0.0
  {
    if z < 0.0 {
      NegativeProduct(z, z, t);
    } else if z > 0.0 {
      PositiveProduct(z, z, t);
    }
  }

  /** A product with a zero factor is zero. */
  lemma ZeroProduct(a: real, b: real, t: real)
    requires a == 0.0 && t == a * b
    ensures t == 0.0
  {
  }

  /** A positive factor common to both sides cancels. */
  lemma CancelFactor(p: real, q: real, n: real)
    requires n > 0.0 && p * n == q * n
    ensures p == q
  {
    if p < q {
      PositiveProduct(q - p, n, q * n - p * n);
    } else if p > q {
      PositiveProduct(p - q, n, p * n - q * n);
    }
  }

  /** The sum accumulated from 0 left to right, as `reduce((a, b) => a + b, 0)` does. */
  function Sum(s: seq<real>): real
    decreases |s|
  {
    if |s| == 0 then 0.0 else Sum(s[..|s| - 1]) + s[|s| - 1]
  }

  /** Summation is additive term by term. */
  lemma {:induction false} SumAdd(a: seq<real>, b: seq<real>, c: seq<real>)
    requires |a| == |b| == |c|
    requires forall i :: 0 <= i < |c| ==> c[i] == a[i] + b[i]
    ensures Sum(c) == Sum(a) + Sum(b)
    decreases |c|
  {
    if |c| > 0 {
      var n := |c| - 1;
      SumAdd(a[..n], b[..n], c[..n]);
    }
  }

  /** A constant factor comes out of a sum. */
  lemma {:induction false} SumScale(a: seq<real>, c: seq<real>, k: real)
    requires |a| == |c|
    requires forall i :: 0 <= i < |c| ==> c[i] == k * a[i]
    ensures Sum(c) == k * Sum(a)
    decreases |c|
  {
    if |c| > 0 {
      var n := |c| - 1;
      SumScale(a[..n], c[..n], k);
      assert Sum(c) == k * Sum(a[..n]) + k * a[n];
    }
  }

  /** The sum of n copies of k is n * k. */
  lemma {:induction false} SumConst(a: seq<real>, k: real)
    requires forall i :: 0 <= i < |a| ==> a[i] == k
    ensures Sum(a) == |a| as real * k
    decreases |a|
  {
    if |a| > 0 {
      SumConst(a[..|a| - 1], k);
    }
  }

  /** A sum of non-negative terms is non-negative, and it is zero exactly when every term is. */
  lemma {:induction false} SumNonNegative(a: seq<real>)
    requires forall i :: 0 <= i < |a| ==> a[i] >= 0.0
    ensures Sum(a) >= 0.0
    ensures Sum(a) == 0.0 <==> forall i :: 0 <= i < |a| ==> a[i] == 0.0
    decreases |a|
  {
    if |a| > 0 {
      var n := |a| - 1;
      SumNonNegative(a[..n]);
      if Sum(a) == 0.0 {
        forall i | 0 <= i < |a| ensures a[i] == 0.0 {
          if i < n { assert a[..n][i] == a[i]; }
        }
      }
    }
  }

  /** Termwise order carries over to the sums. */
  lemma {:induction false} SumMonotone(a: seq<real>, b: seq<real>)
    requires |a| == |b|
    requires forall i :: 0 <= i < |a| ==> a[i] <= b[i]
    ensures Sum(a) <= Sum(b)
    decreases |a|
  {
    if |a| > 0 {
      var n := |a| - 1;
      SumMonotone(a[..n], b[..n]);
    }
  }
}
