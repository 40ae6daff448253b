/**
  Joint distributions as matrices and their mutual information: non-negative, symmetric, and at most the
  logarithm of the smaller side.  Floats are reals; the natural logarithm is a parameter of which only two
  laws are used.
 */
module MutualInformation {
  import opened RealSums

  type Matrix = seq<seq<real>>

  predicate ProductLaw(log: real -> real, a: real, b: real) {
    a > 0.0 && b > 0.0 ==> log(a * b) == log(a) + log(b)
  }

  predicate BoundLaw(log: real -> real, x: real) {
    x > 0.0 ==> log(x) >= 1.0 - 1.0 / x
  }

  /** The two laws of the logarithm that the bounds need. */
  ghost predicate IsLog(log: real -> real) {
    (forall a: real, b: real :: ProductLaw(log, a, b)) && (forall x: real :: BoundLaw(log, x))
  }

  // ---------------------------------------------------------------- matrices

  predicate Rectangular(p: Matrix, m: nat, n: nat) {
    |p| == m && forall i :: 0 <= i < m ==> |p[i]| == n
  }

  /** The sums of the rows. */
  function RowSums(p: Matrix): (r: Vector)
    ensures |r| == |p| && forall i :: 0 <= i < |p| ==> r[i] == Sum(p[i])
  {
    seq(|p|, i requires 0 <= i < |p| => Sum(p[i]))
  }

  function Total(p: Matrix): real {
    Sum(RowSums(p))
  }

  function Transpose(p: Matrix, n: nat): (q: Matrix)
    requires Rectangular(p, |p|, n)
    ensures Rectangular(q, n, |p|) && forall i, j :: 0 <= i < |p| && 0 <= j < n ==> q[j][i] == p[i][j]
  {
    seq(n, j requires 0 <= j < n => seq(|p|, i requires 0 <= i < |p| => p[i][j]))
  }

  /** Summing by rows or by columns gives the same total. */
  lemma {:induction false} TotalTranspose(p: Matrix, n: nat)
    requires Rectangular(p, |p|, n)
    ensures Total(Transpose(p, n)) == Total(p)
    decreases |p|
  {
    var q := Transpose(p, n);
    if p == [] {
      SumConstant(0.0, RowSums(q));
    } else {
      var m := |p| - 1;
      var p' := p[..m];
      var q' := Transpose(p', n);
      TotalTranspose(p', n);
      forall j | 0 <= j < n ensures RowSums(q)[j] == RowSums(q')[j] + p[m][j] {
        assert q[j][..m] == q'[j];
      }
      SumAdd(RowSums(q'), p[m], RowSums(q));
      assert RowSums(p)[..m] == RowSums(p');
    }
  }

  // ---------------------------------------------------------------- mutual information

  predicate Distribution(p: Matrix, m: nat, n: nat) {
    && m > 0 && n > 0 && Rectangular(p, m, n)
    && (forall i, j :: 0 <= i < m && 0 <= j < n ==> p[i][j] >= 0.0)
    && Total(p) == 1.0
  }

  function Term(log: real -> real, p: real, x: real, y: real): real {
    if p > 0.0 && x > 0.0 && y > 0.0 then p * log(p / (x * y)) else 0.0
  }

  function Terms(log: real -> real, p: Matrix, n: nat): (t: Matrix)
    requires Rectangular(p, |p|, n)
    ensures Rectangular(t, |p|, n)
    ensures forall i, j :: 0 <= i < |p| && 0 <= j < n ==>
              t[i][j] == Term(log, p[i][j], RowSums(p)[i], RowSums(Transpose(p, n))[j])
  {
    seq(|p|, i requires 0 <= i < |p| =>
      seq(n, j requires 0 <= j < n => Term(log, p[i][j], RowSums(p)[i], RowSums(Transpose(p, n))[j])))
  }

  function MutualInfo(log: real -> real, p: Matrix, n: nat): real
    requires Rectangular(p, |p|, n)
  {
    Total(Terms(log, p, n))
  }

  /** `x` and `y` are non-negative and sum to one. */
  ghost predicate Marginals(m: nat, n: nat, x: Vector, y: Vector) {
    && |x| == m && |y| == n && Sum(x) == 1.0 && Sum(y) == 1.0
    && (forall i :: 0 <= i < m ==> x[i] >= 0.0) && (forall j :: 0 <= j < n ==> y[j] >= 0.0)
  }

  lemma MarginalsOfDistribution(p: Matrix, m: nat, n: nat)
    requires Distribution(p, m, n)
    ensures Marginals(m, n, RowSums(p), RowSums(Transpose(p, n)))
  {
    hide Sum;
    TotalTranspose(p, n);
    var x, y := RowSums(p), RowSums(Transpose(p, n));
    assert Sum(x) == Total(p) == 1.0 && Sum(y) == Total(Transpose(p, n)) == 1.0;
    forall i | 0 <= i < m ensures x[i] >= 0.0 { CellAtMostMarginals(p, m, n, i, 0); }
    forall j | 0 <= j < n ensures y[j] >= 0.0 { CellAtMostMarginals(p, m, n, 0, j); }
  }

  lemma CellAtMostMarginals(p: Matrix, m: nat, n: nat, i: nat, j: nat)
    requires Distribution(p, m, n) && i < m && j < n
    ensures 0.0 <= p[i][j] <= RowSums(p)[i] && p[i][j] <= RowSums(Transpose(p, n))[j]
  {
    var column := Transpose(p, n)[j];
    assert forall k :: 0 <= k < m ==> column[k] == p[k][j];
    ElementAtMostSum(p[i], j);
    ElementAtMostSum(column, i);
  }

  /** p log(p / xy) is at least p - xy. */
  lemma TermLowerBound(log: real -> real, p: real, x: real, y: real)
    requires IsLog(log) && 0.0 <= p <= x && p <= y
    ensures Term(log, p, x, y) >= p - x * y
  {
    if p > 0.0 {
      var z := x * y;
      Positive(x, y);
      Positive(p, 1.0 / z);
      assert p / z > 0.0;
      assert BoundLaw(log, p / z);
      Reciprocal(p, z);
      ScaleInequality(p, 1.0 - z / p, log(p / z));
      assert p * (z / p) == z;
    } else {
      NonNegativeProduct(x, y);
    }
  }

  lemma Reciprocal(p: real, z: real)
    requires p > 0.0 && z > 0.0
    ensures p / z > 0.0 && 1.0 / (p / z) == z / p
  {
    var q := p / z;
    assert q * z == p;
    assert q > 0.0 by {
      if q <= 0.0 { NonNegativeProduct(-q, z); }
    }
    var w := z / p;
    assert w * p == z;
    calc {
      (w * q) * z;
      { MulAssociates(w, q, z); }
      w * (q * z);
      { MulEqual(w, q * z, p); }
      w * p;
      z;
    }
    Cancel(w * q, z);
    assert 1.0 / q == w;
  }

  lemma Cancel(a: real, z: real)
    requires z > 0.0 && a * z == z
    ensures a == 1.0
  {
    assert (a - 1.0) * z == 0.0;
  }

  // ---------------------------------------------------------------- 0 <= MI

  lemma CellLowerBound(log: real -> real, p: Matrix, m: nat, n: nat, i: nat, j: nat)
    requires IsLog(log) && Distribution(p, m, n) && i < m && j < n
    ensures Terms(log, p, n)[i][j] >= p[i][j] - Scale(RowSums(p)[i], RowSums(Transpose(p, n)))[j]
  {
    hide IsLog, Scale, Term, Sum;
    CellAtMostMarginals(p, m, n, i, j);
    TermLowerBound(log, p[i][j], RowSums(p)[i], RowSums(Transpose(p, n))[j]);
    ScaleAt(RowSums(p)[i], RowSums(Transpose(p, n)), j);
  }

  lemma RowLower(row: Vector, p: Vector, outer: Vector)
    requires |row| == |p| == |outer| && Sum(outer) == Sum(p)
    requires forall j :: 0 <= j < |row| ==> row[j] >= p[j] - outer[j]
    ensures Sum(row) >= 0.0
  {
    var rest := seq(|p|, j requires 0 <= j < |p| => p[j] - outer[j]);
    SumAdd(rest, outer, p);
    SumMonotone(rest, row);
  }

  lemma RowLowerBound(log: real -> real, p: Matrix, m: nat, n: nat, i: nat)
    requires IsLog(log) && Distribution(p, m, n) && i < m
    ensures Sum(Terms(log, p, n)[i]) >= 0.0
  {
    hide Scale, Term, IsLog;
    MarginalsOfDistribution(p, m, n);
    var x, y, row := RowSums(p), RowSums(Transpose(p, n)), Terms(log, p, n)[i];
    var outer := Scale(x[i], y);
    forall j | 0 <= j < n ensures row[j] >= p[i][j] - outer[j] {
      CellLowerBound(log, p, m, n, i, j);
    }
    SumScale(x[i], y);
    RowLower(row, p[i], outer);
  }

  lemma MutualInfoNonNegative(log: real -> real, p: Matrix, m: nat, n: nat)
    requires IsLog(log) && Distribution(p, m, n)
    ensures MutualInfo(log, p, n) >= 0.0
  {
    forall i | 0 <= i < m ensures RowSums(Terms(log, p, n))[i] >= 0.0 { RowLowerBound(log, p, m, n, i); }
    NonNegativeSum(RowSums(Terms(log, p, n)));
  }

  // ---------------------------------------------------------------- MI <= log(number of rows)

  lemma LogLaws(log: real -> real, x: real)
    requires IsLog(log) && x > 0.0
    ensures log(1.0) == 0.0 && log(1.0 / x) == -log(x)
  {
    assert ProductLaw(log, 1.0, 1.0);
    var y := 1.0 / x;
    assert x * y == 1.0;
    assert ProductLaw(log, x, y);
  }

  lemma LogMonotone(log: real -> real, a: real, b: real)
    requires IsLog(log) && 0.0 < a <= b
    ensures log(a) <= log(b)
  {
    Reciprocal(b, a);
    LogOfMultiple(log, a, b / a, b);
  }

  lemma LogOfMultiple(log: real -> real, a: real, q: real, b: real)
    requires IsLog(log) && a > 0.0 && q > 0.0 && 1.0 / q <= 1.0 && a * q == b
    ensures log(a) <= log(b)
  {
    assert ProductLaw(log, a, q) && BoundLaw(log, q);
  }

  /** For p > 0 the term is at most p times (log m - 1 + 1/(m x)). */
  lemma TermUpperBound(log: real -> real, p: real, x: real, y: real, m: real, k: real)
    requires IsLog(log) && 0.0 <= p <= x && p <= y && m >= 1.0 && x > 0.0 && m * x > 0.0
    requires k == log(m) - 1.0 + 1.0 / (m * x)
    ensures Term(log, p, x, y) <= k * p
  {
    if p > 0.0 {
      Positive(x, y);
      Reciprocal(p, x * y);
      RatioAtMost(p, x, y);
      LogMonotone(log, p / (x * y), 1.0 / x);
      LogLaws(log, x);
      assert ProductLaw(log, m, x) && BoundLaw(log, m * x);
      ScaleInequality(p, log(p / (x * y)), k);
    }
  }

  lemma RatioAtMost(p: real, x: real, y: real)
    requires 0.0 < p <= y && x > 0.0 && x * y > 0.0
    ensures p / (x * y) <= 1.0 / x
  {
    var a, b, z := p / (x * y), 1.0 / x, x * y;
    assert b * x == 1.0 && a * z == p;
    MulAssociates(b, x, y);
    assert b * z == y;
    if a > b {
      Positive(a - b, z);
    }
  }

  lemma CellUpperBound(log: real -> real, p: Matrix, m: nat, n: nat, i: nat, j: nat, k: real)
    requires IsLog(log) && Distribution(p, m, n) && i < m && j < n && RowSums(p)[i] > 0.0
    requires m as real * RowSums(p)[i] > 0.0 && k == log(m as real) - 1.0 + 1.0 / (m as real * RowSums(p)[i])
    ensures Terms(log, p, n)[i][j] <= Scale(k, p[i])[j]
  {
    hide IsLog, Scale, Term, Sum;
    CellAtMostMarginals(p, m, n, i, j);
    TermUpperBound(log, p[i][j], RowSums(p)[i], RowSums(Transpose(p, n))[j], m as real, k);
    ScaleAt(k, p[i], j);
  }

  lemma RowUpperBound(log: real -> real, p: Matrix, m: nat, n: nat, i: nat)
    requires IsLog(log) && Distribution(p, m, n) && i < m
    ensures Sum(Terms(log, p, n)[i]) <= Scale(log(m as real) - 1.0, RowSums(p))[i] + 1.0 / m as real
  {
    hide Scale, IsLog, Term, Sum;
    MarginalsOfDistribution(p, m, n);
    var x, row := RowSums(p)[i], Terms(log, p, n)[i];
    var c := log(m as real) - 1.0;
    ScaleAt(c, RowSums(p), i);
    if x > 0.0 {
      InverseOfProduct(m as real, x);
      var k := c + 1.0 / (m as real * x);
      forall j | 0 <= j < n ensures row[j] <= Scale(k, p[i])[j] {
        CellUpperBound(log, p, m, n, i, j, k);
      }
      SumMonotone(row, Scale(k, p[i]));
      SumScale(k, p[i]);
      RowShare(c, m as real, x, k);
    } else {
      EmptyRow(log, p, m, n, i);
      RowShareOfZero(c, m as real, x);
    }
  }

  lemma EmptyRow(log: real -> real, p: Matrix, m: nat, n: nat, i: nat)
    requires Distribution(p, m, n) && i < m && RowSums(p)[i] <= 0.0
    ensures Sum(Terms(log, p, n)[i]) == 0.0
  {
    SumConstant(0.0, Terms(log, p, n)[i]);
  }

  lemma RowShare(c: real, m: real, x: real, k: real)
    requires m > 0.0 && x > 0.0 && m * x > 0.0 && k == c + 1.0 / (m * x)
    ensures k * x == c * x + 1.0 / m
  {
    InverseOfProduct(m, x);
  }

  lemma RowShareOfZero(c: real, m: real, x: real)
    requires m > 0.0 && x == 0.0
    ensures 0.0 <= c * x + 1.0 / m
  {
  }

  lemma InverseOfProduct(m: real, x: real)
    requires m > 0.0 && x > 0.0
    ensures m * x > 0.0 && 1.0 / (m * x) * x == 1.0 / m
  {
    Positive(m, x);
    var r := 1.0 / (m * x);
    assert r * (m * x) == 1.0;
    assert (r * x) * m == 1.0 by { MulAssociates(r, x, m); MulEqual(r, x * m, m * x); }
  }

  lemma MutualInfoAtMostLogRows(log: real -> real, p: Matrix, m: nat, n: nat)
    requires IsLog(log) && Distribution(p, m, n)
    ensures MutualInfo(log, p, n) <= log(m as real)
  {
    hide Scale, IsLog, Terms;
    var c := log(m as real) - 1.0;
    var rows := RowSums(Terms(log, p, n));
    forall i | 0 <= i < m ensures rows[i] <= Scale(c, RowSums(p))[i] + 1.0 / m as real {
      RowUpperBound(log, p, m, n, i);
    }
    SumScale(c, RowSums(p));
    AllRowsUpper(rows, Scale(c, RowSums(p)), m);
  }

  lemma AllRowsUpper(rows: Vector, scaled: Vector, m: nat)
    requires |rows| == |scaled| == m > 0
    requires forall i :: 0 <= i < m ==> rows[i] <= scaled[i] + 1.0 / m as real
    ensures Sum(rows) <= Sum(scaled) + 1.0
  {
    hide Sum;
    var each := 1.0 / m as real;
    EqualShares(m);
    EachRowUpper(rows, scaled, m, each);
  }

  lemma EqualShares(m: nat)
    requires m > 0
    ensures 1.0 / m as real * m as real == 1.0
  {
  }

  lemma EachRowUpper(rows: Vector, scaled: Vector, m: nat, each: real)
    requires |rows| == |scaled| == m
    requires forall i :: 0 <= i < m ==> rows[i] <= scaled[i] + each
    ensures Sum(rows) <= Sum(scaled) + each * m as real
  {
    hide Sum;
    var share := seq(m, i requires 0 <= i < m => each);
    var bound := seq(m, i requires 0 <= i < m => scaled[i] + each);
    SumMonotone(rows, bound);
    SumAdd(scaled, share, bound);
    SumConstant(each, share);
  }

  // ---------------------------------------------------------------- symmetry

  /** Exchanging the two series leaves the mutual information unchanged. */
  lemma MutualInfoSymmetric(log: real -> real, p: Matrix, m: nat, n: nat)
    requires m > 0 && n > 0 && Rectangular(p, m, n)
    ensures MutualInfo(log, Transpose(p, n), m) == MutualInfo(log, p, n)
  {
    var q := Transpose(p, n);
    assert Transpose(q, m) == p by {
      forall i | 0 <= i < m ensures Transpose(q, m)[i] == p[i] {}
    }
    var s, t := Terms(log, q, m), Transpose(Terms(log, p, n), n);
    forall j | 0 <= j < n ensures s[j] == t[j] {
      forall i | 0 <= i < m ensures s[j][i] == t[j][i] {
        TermSymmetric(log, p[i][j], RowSums(p)[i], RowSums(q)[j]);
      }
    }
    assert s == t;
    TotalTranspose(Terms(log, p, n), n);
  }

  lemma TermSymmetric(log: real -> real, p: real, x: real, y: real)
    ensures Term(log, p, x, y) == Term(log, p, y, x)
  {
    assert x * y == y * x;
  }

  lemma TransposeIsDistribution(p: Matrix, m: nat, n: nat)
    requires Distribution(p, m, n)
    ensures Distribution(Transpose(p, n), n, m)
  {
    TotalTranspose(p, n);
  }

  /** Mutual information lies between 0 and the logarithm of the smaller side of the grid. */
  lemma MutualInfoBounds(log: real -> real, p: Matrix, m: nat, n: nat)
    requires IsLog(log) && Distribution(p, m, n)
    ensures 0.0 <= MutualInfo(log, p, n) <= log((if m < n then m else n) as real)
  {
    MutualInfoNonNegative(log, p, m, n);
    MutualInfoAtMostLogRows(log, p, m, n);
    TransposeIsDistribution(p, m, n);
    MutualInfoAtMostLogRows(log, Transpose(p, n), n, m);
    MutualInfoSymmetric(log, p, m, n);
  }
}
