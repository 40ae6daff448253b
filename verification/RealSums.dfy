/** Finite sums of reals, and the products that the nonlinear proofs take one step at a time. */
module RealSums {

  type Vector = seq<real>

  function Sum(v: Vector): real {
    if v == [] then 0.0 else Sum(v[..|v| - 1]) + v[|v| - 1]
  }

  function Mean(v: Vector): real
    requires v != []
  {
    Sum(v) / |v| as real
  }

  function Scale(c: real, v: Vector): (r: Vector)
    ensures |r| == |v|
  {
    seq(|v|, i requires 0 <= i < |v| => c * v[i])
  }

  lemma ScaleAt(c: real, v: Vector, i: nat)
    requires i < |v|
    ensures Scale(c, v)[i] == c * v[i]
  {
  }

  lemma {:induction false} SumMonotone(a: Vector, b: Vector)
    requires |a| == |b| && forall i :: 0 <= i < |a| ==> a[i] <= b[i]
    ensures Sum(a) <= Sum(b)
  {
    if a != [] {
      SumMonotone(a[..|a| - 1], b[..|b| - 1]);
    }
  }

  lemma {:induction false} SumScale(c: real, v: Vector)
    ensures Sum(Scale(c, v)) == c * Sum(v)
  {
    if v != [] {
      var init := v[..|v| - 1];
      SumScale(c, init);
      forall i | 0 <= i < |init| ensures Scale(c, v)[i] == Scale(c, init)[i] { assert init[i] == v[i]; }
      assert Scale(c, v)[..|v| - 1] == Scale(c, init);
    }
  }

  lemma {:induction false} SumAdd(a: Vector, b: Vector, c: Vector)
    requires |a| == |b| == |c| && forall i :: 0 <= i < |a| ==> c[i] == a[i] + b[i]
    ensures Sum(c) == Sum(a) + Sum(b)
  {
    if a != [] {
      SumAdd(a[..|a| - 1], b[..|b| - 1], c[..|c| - 1]);
    }
  }

  lemma {:induction false} SumConstant(c: real, v: Vector)
    requires forall i :: 0 <= i < |v| ==> v[i] == c
    ensures Sum(v) == c * |v| as real
  {
    if v != [] {
      SumConstant(c, v[..|v| - 1]);
    }
  }

  /** An element of a non-negative vector is at most its sum. */
  lemma {:induction false} ElementAtMostSum(v: Vector, i: nat)
    requires i < |v| && forall k :: 0 <= k < |v| ==> v[k] >= 0.0
    ensures 0.0 <= v[i] <= Sum(v)
  {
    var n := |v| - 1;
    if i < n {
      ElementAtMostSum(v[..n], i);
    } else {
      NonNegativeSum(v[..n]);
    }
  }

  lemma {:induction false} NonNegativeSum(v: Vector)
    requires forall k :: 0 <= k < |v| ==> v[k] >= 0.0
    ensures Sum(v) >= 0.0
  {
    if v != [] {
      NonNegativeSum(v[..|v| - 1]);
    }
  }

  lemma {:induction false} SumBump(a: Vector, b: Vector, k: nat, d: real)
    requires |a| == |b| && k < |a| && b[k] == a[k] + d
    requires forall i :: 0 <= i < |a| && i != k ==> b[i] == a[i]
    ensures Sum(b) == Sum(a) + d
  {
    var n := |a| - 1;
    if k < n {
      SumBump(a[..n], b[..n], k, d);
    } else {
      assert a[..n] == b[..n];
    }
  }

  lemma SumEmpty()
    ensures Sum([]) == 0.0
  {
  }

  lemma SumNext(v: Vector, k: nat)
    requires k < |v|
    ensures Sum(v[..k + 1]) == Sum(v[..k]) + v[k]
  {
    assert v[..k + 1][..k] == v[..k];
  }

  lemma Positive(a: real, b: real)
    requires a > 0.0 && b > 0.0
    ensures a * b > 0.0
  {
  }

  lemma NonNegativeProduct(a: real, b: real)
    requires a >= 0.0 && b >= 0.0
    ensures a * b >= 0.0
  {
  }

  lemma MulEqual(a: real, b: real, c: real)
    requires b == c
    ensures a * b == a * c
  {
  }

  lemma MulAssociates(a: real, b: real, c: real)
    ensures (a * b) * c == a * (b * c)
  {
  }

  lemma ScaleInequality(c: real, a: real, b: real)
    requires c >= 0.0 && a <= b
    ensures c * a <= c * b
  {
    NonNegativeProduct(c, b - a);
  }

  /** A product kept apart from the arithmetic of the solver. */
  function Product(a: real, b: real): real {
    a * b
  }

  lemma SquareSign(a: real)
    ensures Product(a, a) >= 0.0
    ensures a != 0.0 ==> Product(a, a) > 0.0
  {
    hide Product;
    if a > 0.0 {
      ProductSign(a, a);
    } else if a < 0.0 {
      ProductSign(-a, -a);
      ProductOfNegated(a, a);
    } else {
      ProductWithZero(a, a);
    }
  }

  lemma ProductSign(a: real, b: real)
    requires a > 0.0 && b > 0.0
    ensures Product(a, b) > 0.0
  {
  }

  lemma ProductWithZero(a: real, b: real)
    requires a == 0.0
    ensures Product(a, b) == 0.0
  {
  }

  lemma ProductOfNegated(a: real, b: real)
    ensures Product(-a, -b) == Product(a, b)
  {
  }

  function MaxOf(v: Vector): real
    requires v != []
  {
    if |v| == 1 then v[0]
    else
      var rest := MaxOf(v[..|v| - 1]);
      if v[|v| - 1] > rest then v[|v| - 1] else rest
  }

  lemma {:induction false} MaxIsMax(v: Vector)
    requires v != []
    ensures MaxOf(v) in v && forall i :: 0 <= i < |v| ==> v[i] <= MaxOf(v)
  {
    if |v| > 1 {
      var last := |v| - 1;
      MaxIsMax(v[..last]);
      assert forall i :: 0 <= i < last ==> v[i] == v[..last][i];
    }
  }

  /** All that is used of the square root. */
  ghost predicate IsSqrt(sqrt: real -> real) {
    forall a: real :: a >= 0.0 ==> sqrt(a) >= 0.0 && sqrt(a) * sqrt(a) == a
  }
}
