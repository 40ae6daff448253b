/**
  What the MIC search measures: mutual information as a difference of entropies, the normalised score of a
  grid, and that a series determines itself completely.
 */
module MicMeaning {
  import opened Division
  import opened MutualInformation
  import opened MicSearch
  import opened RealSums

  // ---------------------------------------------------------------- entropies

  function Plog(log: real -> real, x: real): real {
    if x > 0.0 then x * log(x) else 0.0
  }

  function Plogs(log: real -> real, v: Vector): (r: Vector)
    ensures |r| == |v| && forall i :: 0 <= i < |v| ==> r[i] == Plog(log, v[i])
  {
    seq(|v|, i requires 0 <= i < |v| => Plog(log, v[i]))
  }

  function Entropy(log: real -> real, v: Vector): real {
    -Sum(Plogs(log, v))
  }

  function CellPlogs(log: real -> real, p: Matrix): (r: Matrix)
    ensures |r| == |p| && forall i :: 0 <= i < |p| ==> r[i] == Plogs(log, p[i])
  {
    seq(|p|, i requires 0 <= i < |p| => Plogs(log, p[i]))
  }

  function JointEntropy(log: real -> real, p: Matrix): real {
    -Total(CellPlogs(log, p))
  }

  /** The logarithm, and zero where a marginal vanishes. */
  function LogOr0(log: real -> real, x: real): real {
    if x > 0.0 then log(x) else 0.0
  }

  lemma TermSplits(log: real -> real, p: real, x: real, y: real)
    requires IsLog(log) && 0.0 <= p <= x && p <= y
    ensures Term(log, p, x, y) == Plog(log, p) - LogOr0(log, x) * p - LogOr0(log, y) * p
  {
    if p > 0.0 {
      Positive(x, y);
      var z := x * y;
      MutualInformation.Reciprocal(p, z);
      LogOfQuotient(log, p, z);
      LogOfProduct(log, x, y);
      Distribute3(p, log(p), log(x), log(y));
    }
  }

  lemma LogOfProduct(log: real -> real, x: real, y: real)
    requires IsLog(log) && x > 0.0 && y > 0.0
    ensures log(x * y) == log(x) + log(y)
  {
    assert ProductLaw(log, x, y);
  }

  lemma LogOfQuotient(log: real -> real, p: real, z: real)
    requires IsLog(log) && p > 0.0 && z > 0.0 && p / z > 0.0
    ensures log(p / z) == log(p) - log(z)
  {
    var q := p / z;
    assert z * q == p;
    assert ProductLaw(log, z, q);
  }

  lemma Distribute3(p: real, a: real, b: real, c: real)
    ensures p * (a - b - c) == p * a - b * p - c * p
  {
  }

  lemma {:induction false} SumLess(t: Vector, c: Vector, s: Vector, a: Vector)
    requires |t| == |c| == |s| == |a| && forall i :: 0 <= i < |t| ==> t[i] == c[i] - s[i] - a[i]
    ensures Sum(t) == Sum(c) - Sum(s) - Sum(a)
  {
    if t != [] {
      var n := |t| - 1;
      SumLess(t[..n], c[..n], s[..n], a[..n]);
    }
  }

  /** Every cell weighted with the logarithm of its column. */
  function ColumnLogs(log: real -> real, p: Matrix, n: nat): (q: Matrix)
    requires Rectangular(p, |p|, n)
    ensures Rectangular(q, |p|, n)
    ensures forall i, j :: 0 <= i < |p| && 0 <= j < n ==>
      q[i][j] == LogOr0(log, RowSums(Transpose(p, n))[j]) * p[i][j]
  {
    seq(|p|, i requires 0 <= i < |p| =>
      seq(n, j requires 0 <= j < n => LogOr0(log, RowSums(Transpose(p, n))[j]) * p[i][j]))
  }

  lemma WeightedIsPlog(log: real -> real, x: real)
    requires x >= 0.0
    ensures LogOr0(log, x) * x == Plog(log, x)
  {
  }

  lemma RowSplits(log: real -> real, p: Matrix, m: nat, n: nat, i: nat)
    requires IsLog(log) && Distribution(p, m, n) && i < m
    ensures Sum(Terms(log, p, n)[i]) ==
      Sum(CellPlogs(log, p)[i]) - Plog(log, RowSums(p)[i]) - Sum(ColumnLogs(log, p, n)[i])
  {
    hide IsLog, Distribution, Sum, Scale;
    DistributionIsRectangular(p, m, n);
    var x := RowSums(p)[i];
    var scaled := Scale(LogOr0(log, x), p[i]);
    forall j | 0 <= j < n
      ensures Terms(log, p, n)[i][j] == CellPlogs(log, p)[i][j] - scaled[j] - ColumnLogs(log, p, n)[i][j]
    {
      CellAtMostMarginals(p, m, n, i, j);
      TermSplits(log, p[i][j], x, RowSums(Transpose(p, n))[j]);
      ScaleAt(LogOr0(log, x), p[i], j);
    }
    SumLess(Terms(log, p, n)[i], CellPlogs(log, p)[i], scaled, ColumnLogs(log, p, n)[i]);
    SumScale(LogOr0(log, x), p[i]);
    RowSumSign(p, m, n, i);
    WeightedIsPlog(log, x);
  }

  lemma DistributionIsRectangular(p: Matrix, m: nat, n: nat)
    requires Distribution(p, m, n)
    ensures Rectangular(p, m, n) && m > 0 && n > 0
  {
  }

  lemma RowSumSign(p: Matrix, m: nat, n: nat, i: nat)
    requires Distribution(p, m, n) && i < m
    ensures RowSums(p)[i] >= 0.0
  {
    CellAtMostMarginals(p, m, n, i, 0);
  }

  lemma ColumnsSplit(log: real -> real, p: Matrix, m: nat, n: nat)
    requires Distribution(p, m, n)
    ensures Total(ColumnLogs(log, p, n)) == Sum(Plogs(log, RowSums(Transpose(p, n))))
  {
    var q, columns := ColumnLogs(log, p, n), Transpose(p, n);
    var y := RowSums(columns);
    TotalTranspose(q, n);
    TransposeIsDistribution(p, m, n);
    hide Sum, Scale, Distribution;
    forall j | 0 <= j < n ensures RowSums(Transpose(q, n))[j] == Plogs(log, y)[j] {
      ScaledColumn(log, p, m, n, j);
      SumScale(LogOr0(log, y[j]), columns[j]);
      RowSumSign(columns, n, m, j);
      WeightedIsPlog(log, y[j]);
    }
    assert RowSums(Transpose(q, n)) == Plogs(log, y);
  }

  lemma ScaledColumn(log: real -> real, p: Matrix, m: nat, n: nat, j: nat)
    requires Rectangular(p, m, n) && j < n
    ensures var columns := Transpose(p, n);
      Transpose(ColumnLogs(log, p, n), n)[j] == Scale(LogOr0(log, RowSums(columns)[j]), columns[j])
  {
    hide Sum, Scale, LogOr0;
    var columns := Transpose(p, n);
    var left, c := Transpose(ColumnLogs(log, p, n), n)[j], LogOr0(log, RowSums(columns)[j]);
    forall i | 0 <= i < m ensures left[i] == Scale(c, columns[j])[i] {
      ScaleAt(c, columns[j], i);
    }
  }

  /** Mutual information is what the marginal entropies exceed the joint entropy by. */
  lemma InfoIsEntropies(log: real -> real, p: Matrix, m: nat, n: nat)
    requires IsLog(log) && Distribution(p, m, n)
    ensures MutualInfo(log, p, n) ==
      Entropy(log, RowSums(p)) + Entropy(log, RowSums(Transpose(p, n))) - JointEntropy(log, p)
  {
    hide IsLog, Sum;
    var terms, cells, q := Terms(log, p, n), CellPlogs(log, p), ColumnLogs(log, p, n);
    forall i | 0 <= i < m
      ensures RowSums(terms)[i] == RowSums(cells)[i] - Plogs(log, RowSums(p))[i] - RowSums(q)[i]
    {
      RowSplits(log, p, m, n, i);
    }
    SumLess(RowSums(terms), RowSums(cells), Plogs(log, RowSums(p)), RowSums(q));
    ColumnsSplit(log, p, m, n);
  }

  // ---------------------------------------------------------------- the score of a grid

  /** The bin of a rank is the greatest number of whole shares of the ranks below it. */
  lemma BinExactly(r: nat, bins: nat, n: nat, k: nat)
    requires r < n
    ensures BinOfRank(r, bins, n) == k <==> k * n <= r * bins < (k + 1) * n
  {
    QuotientIs(r * bins, n, k);
    assert n * k == k * n && n * (k + 1) == (k + 1) * n;
  }

  /** A score is the mutual information of the binned series in units of the logarithm of the smaller side. */
  lemma ScoreExactly(log: real -> real, xOrder: seq<nat>, yOrder: seq<nat>, nx: nat, ny: nat,
                     x: seq<nat>, y: seq<nat>, s: real)
    requires IsLog(log) && nx >= 2 && ny >= 2 && |x| == |y| > 0
    requires BinnedBy(xOrder, nx, x) && BinnedBy(yOrder, ny, y) && IsScore(log, xOrder, yOrder, nx, ny, s)
    ensures var p := Joint(x, y, nx, ny);
      s * log((if nx <= ny then nx else ny) as real) ==
      Entropy(log, RowSums(p)) + Entropy(log, RowSums(Transpose(p, ny))) - JointEntropy(log, p)
  {
    hide IsPermutation, BinOfRank, MutualInfo, Joint, IsLog, Distribution, Entropy, JointEntropy;
    var u: seq<nat>, v: seq<nat> :| ScoredBy(log, xOrder, yOrder, nx, ny, u, v, s);
    BinningUnique(xOrder, nx, x, u);
    BinningUnique(yOrder, ny, y, v);
    BinsInGrid(xOrder, nx, x);
    BinsInGrid(yOrder, ny, y);
    JointIsDistribution(x, y, nx, ny);
    InfoIsEntropies(log, Joint(x, y, nx, ny), nx, ny);
    LogPositive(log, Min(nx, ny) as real);
  }

  // ---------------------------------------------------------------- perfect dependence

  lemma {:induction false} OffDiagonal(b: seq<nat>, i: nat, j: nat)
    requires i != j
    ensures Count(b, b, i, j) == 0
  {
    if b != [] {
      OffDiagonal(b[..|b| - 1], i, j);
    }
  }

  /** A cell of the histogram counts the points that fall into both bins. */
  lemma {:induction false} CellCounts(x: seq<nat>, y: seq<nat>, i: nat, j: nat)
    requires |x| == |y|
    ensures Count(x, y, i, j) == |set k | 0 <= k < |x| && x[k] == i && y[k] == j|
    decreases |x|
  {
    var members := set k | 0 <= k < |x| && x[k] == i && y[k] == j;
    if x == [] {
      assert members == {};
    } else {
      var n := |x| - 1;
      CellCounts(x[..n], y[..n], i, j);
      var before := set k | 0 <= k < n && x[..n][k] == i && y[..n][k] == j;
      forall k | 0 <= k < n ensures k in members <==> k in before {
        assert x[..n][k] == x[k] && y[..n][k] == y[k];
      }
      assert n !in before;
      if x[n] == i && y[n] == j {
        assert members == before + {n};
      } else {
        assert members == before;
      }
    }
  }

  lemma DiagonalCounts(b: seq<nat>, i: nat)
    ensures Count(b, b, i, i) == |set k | 0 <= k < |b| && b[k] == i|
  {
    CellCounts(b, b, i, i);
    assert (set k | 0 <= k < |b| && b[k] == i && b[k] == i) == (set k | 0 <= k < |b| && b[k] == i);
  }

  lemma {:induction false} OnlyEntry(v: Vector, i: nat)
    requires i < |v| && forall j :: 0 <= j < |v| && j != i ==> v[j] == 0.0
    ensures Sum(v) == v[i]
  {
    var zeros := seq(|v|, j => 0.0);
    SumConstant(0.0, zeros);
    SumBump(zeros, v, i, v[i]);
  }

  lemma DiagonalRow(counts: Matrix, b: seq<nat>, bins: nat, i: nat)
    requires counts == Counts(b, b, bins, bins) && i < bins
    ensures RowSums(counts)[i] == Count(b, b, i, i) as real
  {
    hide Sum;
    forall j | 0 <= j < bins && j != i ensures counts[i][j] == 0.0 { OffDiagonal(b, i, j); }
    OnlyEntry(counts[i], i);
  }

  /** Numbers of at least `c` that sum to `c` times their number are all `c`. */
  lemma AllAtLeast(v: Vector, c: real, i: nat)
    requires i < |v| && (forall j :: 0 <= j < |v| ==> v[j] >= c) && Sum(v) == c * |v| as real
    ensures v[i] == c
  {
    hide Sum;
    var extra := seq(|v|, j requires 0 <= j < |v| => v[j] - c);
    var constant := seq(|v|, j => c);
    SumConstant(c, constant);
    SumAdd(extra, constant, v);
    ElementAtMostSum(extra, i);
  }

  /** As many points fall into every cell of the diagonal when the bins divide the points. */
  lemma EvenDiagonal(order: seq<nat>, bins: nat, b: seq<nat>, share: nat, i: nat)
    requires BinnedBy(order, bins, b) && i < bins && |b| == share * bins && share == |b| / bins
    ensures Count(b, b, i, i) == share
  {
    hide Sum, Count, BinnedBy, InGrid, IsPermutation;
    var counts := Counts(b, b, bins, bins);
    BinsInGrid(order, bins, b);
    SquareGrid(b, bins);
    hide Counts;
    CountsTotal(b, b, bins, bins);
    forall j | 0 <= j < bins ensures RowSums(counts)[j] == Count(b, b, j, j) as real >= share as real {
      DiagonalRow(counts, b, bins, j);
      DiagonalCounts(b, j);
      BinsAreEven(order, bins, b, j);
    }
    TotalIsSum(counts);
    var rows := RowSums(counts);
    assert |rows| == bins;
    RealProduct(share, bins);
    AllAtLeast(rows, share as real, i);
  }

  lemma RealProduct(a: nat, b: nat)
    ensures a as real * b as real == (a * b) as real
  {
  }

  lemma SquareGrid(b: seq<nat>, bins: nat)
    requires forall i :: 0 <= i < |b| ==> b[i] < bins
    ensures InGrid(b, b, bins, bins)
  {
  }

  lemma TotalIsSum(p: Matrix)
    ensures Total(p) == Sum(RowSums(p))
  {
  }

  /** A matrix with equal entries on its diagonal and nothing else. */
  predicate Diagonal(p: Matrix, k: nat, d: real) {
    Rectangular(p, k, k)
    && forall i, j :: 0 <= i < k && 0 <= j < k ==> p[i][j] == if i == j then d else 0.0
  }

  lemma DiagonalIsSymmetric(p: Matrix, k: nat, d: real)
    requires Diagonal(p, k, d)
    ensures Transpose(p, k) == p
  {
    forall i | 0 <= i < k ensures Transpose(p, k)[i] == p[i] {
      assert forall j :: 0 <= j < k ==> Transpose(p, k)[i][j] == p[i][j];
    }
  }

  lemma DiagonalRows(log: real -> real, p: Matrix, k: nat, d: real)
    requires Diagonal(p, k, d)
    ensures forall i :: 0 <= i < k ==> RowSums(p)[i] == d && RowSums(CellPlogs(log, p))[i] == Plog(log, d)
  {
    hide Sum;
    var cells := CellPlogs(log, p);
    forall i | 0 <= i < k ensures RowSums(p)[i] == d && RowSums(cells)[i] == Plog(log, d) {
      OnlyEntry(p[i], i);
      OnlyEntry(cells[i], i);
    }
  }

  lemma DiagonalInfo(log: real -> real, p: Matrix, k: nat, d: real)
    requires IsLog(log) && k > 0 && Distribution(p, k, k) && Diagonal(p, k, d) && d > 0.0 && d * k as real == 1.0
    ensures MutualInfo(log, p, k) == log(k as real)
  {
    hide *;
    InfoIsEntropies(log, p, k, k);
    DiagonalIsSymmetric(p, k, d);
    DiagonalRows(log, p, k, d);
    LogOfShare(log, d, k as real);
    DiagonalSize(p, k, d);
    var rows, cells := Plogs(log, RowSums(p)), RowSums(CellPlogs(log, p));
    SumConstant(Plog(log, d), rows);
    SumConstant(Plog(log, d), cells);
    EntropiesAre(log, p);
    PlogOfShare(log, d, k as real);
    assert Sum(rows) == -log(k as real) && Sum(cells) == -log(k as real);
  }

  lemma DiagonalSize(p: Matrix, k: nat, d: real)
    requires Diagonal(p, k, d)
    ensures |p| == k && Rectangular(p, |p|, k)
  {
  }

  lemma EntropiesAre(log: real -> real, p: Matrix)
    ensures Entropy(log, RowSums(p)) == -Sum(Plogs(log, RowSums(p)))
    ensures JointEntropy(log, p) == -Sum(RowSums(CellPlogs(log, p)))
  {
  }

  lemma LogOfShare(log: real -> real, d: real, k: real)
    requires IsLog(log) && d > 0.0 && k > 0.0 && d * k == 1.0
    ensures log(d) == -log(k)
  {
    LogLaws(log, k);
    assert ProductLaw(log, d, k);
  }

  lemma PlogOfShare(log: real -> real, d: real, k: real)
    requires d > 0.0 && d * k == 1.0 && log(d) == -log(k)
    ensures Plog(log, d) * k == -log(k)
  {
    assert d * log(d) * k == d * k * log(d);
  }

  /** A series determines itself: on every square grid whose bins divide the points, its score is one. */
  lemma SelfScore(log: real -> real, order: seq<nat>, k: nat, b: seq<nat>)
    requires IsLog(log) && k >= 2 && |order| > 0 && |order| % k == 0 && BinnedBy(order, k, b)
    ensures IsScore(log, order, order, k, k, 1.0)
  {
    hide *;
    BinnedLength(order, k, b);
    var p, d, share := Joint(b, b, k, k), 1.0 / k as real, |b| / k;
    assert share * k == |b|;
    BinsInGrid(order, k, b);
    SquareGrid(b, k);
    JointIsDistribution(b, b, k, k);
    ShareOfAll(share, k, |b|);
    JointSize(b, k);
    forall i, j | 0 <= i < k && 0 <= j < k ensures p[i][j] == if i == j then d else 0.0 {
      if i != j { OffDiagonal(b, i, j); } else { EvenDiagonal(order, k, b, share, i); }
      assert p[i][j] == Count(b, b, i, j) as real / |b| as real;
    }
    IsDiagonal(p, k, d);
    assert d > 0.0 && d * k as real == 1.0;
    DiagonalInfo(log, p, k, d);
    LogPositive(log, k as real);
    ScoreOne(log, order, k, b);
  }

  lemma BinnedLength(order: seq<nat>, bins: nat, b: seq<nat>)
    requires BinnedBy(order, bins, b)
    ensures |b| == |order|
  {
  }

  lemma JointSize(b: seq<nat>, k: nat)
    requires |b| > 0
    ensures var p := Joint(b, b, k, k); |p| == k && forall i :: 0 <= i < k ==> |p[i]| == k
  {
  }

  lemma IsDiagonal(p: Matrix, k: nat, d: real)
    requires |p| == k && forall i :: 0 <= i < k ==> |p[i]| == k
    requires forall i, j :: 0 <= i < k && 0 <= j < k ==> p[i][j] == if i == j then d else 0.0
    ensures Diagonal(p, k, d)
  {
  }

  lemma ScoreOne(log: real -> real, order: seq<nat>, k: nat, b: seq<nat>)
    requires BinnedBy(order, k, b) && k > 0 && |b| > 0 && log(k as real) > 0.0
    requires MutualInfo(log, Joint(b, b, k, k), k) == log(k as real)
    ensures IsScore(log, order, order, k, k, 1.0)
  {
    hide MutualInfo, Joint, BinnedBy;
    var l := log(k as real);
    assert Min(k, k) == k && l / l == 1.0;
    assert ScoredBy(log, order, order, k, k, b, b, 1.0);
  }

  lemma ShareOfAll(share: nat, k: nat, n: nat)
    requires k > 0 && n > 0 && share * k == n
    ensures share as real / n as real == 1.0 / k as real
  {
    assert share as real * k as real == n as real;
  }

  /** Hence the MIC of a series with itself is one, as soon as one such grid is tried. */
  lemma SelfMic(log: real -> real, order: seq<nat>, budget: real, k: nat, b: seq<nat>, mic: real)
    requires IsLog(log) && k >= 2 && |order| > 0 && |order| % k == 0 && BinnedBy(order, k, b)
    requires Tried(budget, k, k) && IsMic(log, order, order, budget, mic)
    ensures mic == 1.0
  {
    SelfScore(log, order, k, b);
    hide IsScore, IsLog, Tried;
    var scores := Scores(log, order, order);
    assert scores(k, k, 1.0);
    forall nx: nat, ny: nat, s: real | Tried(budget, nx, ny) && scores(nx, ny, s) ensures s <= 1.0 {
      TriedSides(budget, nx, ny);
      ScoreBounds(log, order, order, nx, ny, s);
    }
    BestInUnit(scores, budget, mic);
  }

  lemma TriedSides(b: real, nx: nat, ny: nat)
    requires Tried(b, nx, ny)
    ensures nx >= 2 && ny >= 2
  {
  }
}
