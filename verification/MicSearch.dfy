/**
  The MIC fallback around the mutual information: equal-frequency bins, the joint histogram of two
  binned series, and the exhaustive search over grids.
 */
module MicSearch {
  import opened Division
  import opened MutualInformation
  import opened RealSums

  // ---------------------------------------------------------------- equal-frequency bins

  /** What `argsort` returns: every position exactly once, values in ascending order. */
  ghost predicate IsPermutation(order: seq<nat>) {
    && (forall r :: 0 <= r < |order| ==> order[r] < |order|)
    && (forall r, s :: 0 <= r < s < |order| ==> order[r] != order[s])
    && (forall i :: 0 <= i < |order| ==> i in order)
  }

  ghost predicate Sorts(order: seq<nat>, values: seq<real>) {
    && |order| == |values| && IsPermutation(order)
    && forall r, s :: 0 <= r < s < |order| ==> values[order[r]] <= values[order[s]]
  }

  /** The bin of the value ranked `r`. */
  function BinOfRank(r: nat, bins: nat, n: nat): nat
    requires r < n
  {
    r * bins / n
  }

  ghost predicate BinnedBy(order: seq<nat>, bins: nat, b: seq<nat>) {
    && |b| == |order| && IsPermutation(order)
    && forall r :: 0 <= r < |order| ==> b[order[r]] == BinOfRank(r, bins, |order|)
  }

  lemma BinInRange(r: nat, bins: nat, n: nat)
    requires r < n && bins > 0
    ensures BinOfRank(r, bins, n) < bins
  {
    assert r * bins < n * bins;
    QuotientBelow(r * bins, n, bins);
  }

  lemma QuotientBelow(a: nat, n: nat, k: nat)
    requires n > 0 && a < n * k
    ensures a / n < k
  {
    FactorBelow(n, a / n, k);
  }

  function Min(a: nat, b: nat): nat {
    if a < b then a else b
  }

  /** The loop over the ranks; clipping to the last bin never acts. */
  method EqualFrequencyBins(order: seq<nat>, bins: nat) returns (b: array<nat>)
    requires IsPermutation(order) && bins > 0
    ensures fresh(b) && BinnedBy(order, bins, b[..])
    ensures forall i :: 0 <= i < |order| ==> b[i] < bins
  {
    var n := |order|;
    b := new nat[n](_ => 0);
    for rank := 0 to n
      invariant forall r :: 0 <= r < rank ==> b[order[r]] == BinOfRank(r, bins, n)
      invariant forall i :: 0 <= i < n ==> b[i] < bins
    {
      BinInRange(rank, bins, n);
      b[order[rank]] := Min(rank * bins / n, bins - 1);
    }
  }

  lemma RankOf(order: seq<nat>, i: nat) returns (r: nat)
    requires IsPermutation(order) && i < |order|
    ensures r < |order| && order[r] == i
  {
    assert i in order;
    r :| 0 <= r < |order| && order[r] == i;
  }

  /** A binning is a function of the order and the number of bins. */
  lemma BinningUnique(order: seq<nat>, bins: nat, a: seq<nat>, b: seq<nat>)
    requires BinnedBy(order, bins, a) && BinnedBy(order, bins, b)
    ensures a == b
  {
    forall i | 0 <= i < |a| ensures a[i] == b[i] {
      var r := RankOf(order, i);
    }
  }

  /** A larger value never falls into a smaller bin. */
  lemma BinsFollowValues(order: seq<nat>, values: seq<real>, bins: nat, b: seq<nat>, i: nat, j: nat)
    requires Sorts(order, values) && BinnedBy(order, bins, b)
    requires i < |b| && j < |b| && values[i] < values[j]
    ensures b[i] <= b[j]
  {
    var r := RankOf(order, i);
    var s := RankOf(order, j);
    assert r < s;
    BinMonotone(r, s, bins, |order|);
  }

  lemma BinMonotone(r: nat, s: nat, bins: nat, n: nat)
    requires r <= s < n
    ensures BinOfRank(r, bins, n) <= BinOfRank(s, bins, n)
  {
    Below(r, s, bins);
    Remainder(r * bins, n);
    Remainder(s * bins, n);
    FactorBelow(n, BinOfRank(r, bins, n), BinOfRank(s, bins, n) + 1);
  }

  /** The first rank of bin `k`: the ceiling of k n / bins. */
  function FirstRank(k: nat, bins: nat, n: nat): nat
    requires bins > 0
  {
    CeilDiv(k * n, bins)
  }

  lemma RanksOfBin(r: nat, k: nat, bins: nat, n: nat)
    requires r < n && bins > 0
    ensures BinOfRank(r, bins, n) == k <==> FirstRank(k, bins, n) <= r < FirstRank(k + 1, bins, n)
  {
    CeilingAtMost(k * n, bins, r);
    CeilingAtMost((k + 1) * n, bins, r);
    QuotientIs(r * bins, n, k);
  }

  /** Two consecutive ceilings differ by the quotient, or by one more. */
  lemma ConsecutiveRanks(k: nat, bins: nat, n: nat)
    requires bins > 0
    ensures FirstRank(k + 1, bins, n) - FirstRank(k, bins, n) in {n / bins, n / bins + 1}
  {
    var a := k * n + bins - 1;
    assert a + n == (k + 1) * n + bins - 1;
    QuotientOfSum(a, n, bins);
  }

  lemma {:induction false} ImageSize(order: seq<nat>, lo: nat, hi: nat)
    requires IsPermutation(order) && lo <= hi <= |order|
    ensures |set r | lo <= r < hi :: order[r]| == hi - lo
  {
    var image := set r | lo <= r < hi :: order[r];
    if lo < hi {
      ImageSize(order, lo, hi - 1);
      var rest := set r | lo <= r < hi - 1 :: order[r];
      assert image == rest + {order[hi - 1]};
      assert order[hi - 1] !in rest;
    } else {
      assert image == {};
    }
  }

  /** Equal frequency: every bin holds n / bins values, or one more. */
  lemma BinsAreEven(order: seq<nat>, bins: nat, b: seq<nat>, k: nat)
    requires BinnedBy(order, bins, b) && k < bins
    ensures |set i | 0 <= i < |b| && b[i] == k| in {|b| / bins, |b| / bins + 1}
  {
    hide IsPermutation, FirstRank, BinOfRank;
    var n := |order|;
    var lo, hi := FirstRank(k, bins, n), FirstRank(k + 1, bins, n);
    ConsecutiveRanks(k, bins, n);
    LastRankInRange(k, bins, n);
    var members := set i | 0 <= i < |b| && b[i] == k;
    var image := set r | lo <= r < hi :: order[r];
    forall i | i in members ensures i in image {
      var r := RankOf(order, i);
      RanksOfBin(r, k, bins, n);
    }
    forall r | lo <= r < hi ensures order[r] in members {
      RanksOfBin(r, k, bins, n);
      PermutationBound(order, r);
    }
    assert members == image;
    ImageSize(order, lo, hi);
  }

  lemma PermutationBound(order: seq<nat>, r: nat)
    requires IsPermutation(order) && r < |order|
    ensures order[r] < |order|
  {
  }

  lemma LastRankInRange(k: nat, bins: nat, n: nat)
    requires k < bins
    ensures FirstRank(k, bins, n) <= FirstRank(k + 1, bins, n) <= n
  {
    ConsecutiveRanks(k, bins, n);
    Below(k + 1, bins, n);
    CeilingAtMost((k + 1) * n, bins, n);
  }

  // ---------------------------------------------------------------- the joint histogram

  predicate InGrid(x: seq<nat>, y: seq<nat>, nx: nat, ny: nat) {
    && |x| == |y|
    && (forall k :: 0 <= k < |x| ==> x[k] < nx) && (forall k :: 0 <= k < |y| ==> y[k] < ny)
  }

  /** How many points fall into the cell (i, j). */
  function Count(x: seq<nat>, y: seq<nat>, i: nat, j: nat): nat
    requires |x| == |y|
  {
    if x == [] then 0
    else Count(x[..|x| - 1], y[..|y| - 1], i, j) + (if x[|x| - 1] == i && y[|y| - 1] == j then 1 else 0)
  }

  function Counts(x: seq<nat>, y: seq<nat>, nx: nat, ny: nat): (c: Matrix)
    requires |x| == |y|
    ensures Rectangular(c, nx, ny)
    ensures forall i, j :: 0 <= i < nx && 0 <= j < ny ==> c[i][j] == Count(x, y, i, j) as real
  {
    seq(nx, i requires 0 <= i < nx => seq(ny, j requires 0 <= j < ny => Count(x, y, i, j) as real))
  }

  /** The empirical joint distribution. */
  function Joint(x: seq<nat>, y: seq<nat>, nx: nat, ny: nat): (p: Matrix)
    requires |x| == |y| > 0
    ensures Rectangular(p, nx, ny)
    ensures forall i, j :: 0 <= i < nx && 0 <= j < ny ==> p[i][j] == Count(x, y, i, j) as real / |x| as real
  {
    seq(nx, i requires 0 <= i < nx => seq(ny, j requires 0 <= j < ny => Count(x, y, i, j) as real / |x| as real))
  }

  /** Every point is counted in exactly one cell. */
  lemma {:induction false} CountsTotal(x: seq<nat>, y: seq<nat>, nx: nat, ny: nat)
    requires InGrid(x, y, nx, ny)
    ensures Total(Counts(x, y, nx, ny)) == |x| as real
    decreases |x|
  {
    var c := Counts(x, y, nx, ny);
    if x == [] {
      forall i | 0 <= i < nx ensures RowSums(c)[i] == 0.0 { SumConstant(0.0, c[i]); }
      SumConstant(0.0, RowSums(c));
    } else {
      var n := |x| - 1;
      var d := Counts(x[..n], y[..n], nx, ny);
      CountsTotal(x[..n], y[..n], nx, ny);
      SumBump(d[x[n]], c[x[n]], y[n], 1.0);
      forall i | 0 <= i < nx && i != x[n] ensures RowSums(c)[i] == RowSums(d)[i] { assert c[i] == d[i]; }
      SumBump(RowSums(d), RowSums(c), x[n], 1.0);
    }
  }

  lemma JointIsDistribution(x: seq<nat>, y: seq<nat>, nx: nat, ny: nat)
    requires |x| > 0 && nx > 0 && ny > 0 && InGrid(x, y, nx, ny)
    ensures Distribution(Joint(x, y, nx, ny), nx, ny)
  {
    hide Sum, Scale;
    var p, c, f := Joint(x, y, nx, ny), Counts(x, y, nx, ny), 1.0 / |x| as real;
    CountsTotal(x, y, nx, ny);
    forall i | 0 <= i < nx ensures RowSums(p)[i] == Scale(f, RowSums(c))[i] {
      JointRowSum(x, y, nx, ny, i);
    }
    assert RowSums(p) == Scale(f, RowSums(c));
    JointTotal(RowSums(c), f, |x| as real);
    assert forall i, j :: 0 <= i < nx && 0 <= j < ny ==> p[i][j] >= 0.0;
  }

  lemma JointTotal(rows: Vector, f: real, n: real)
    requires n > 0.0 && f == 1.0 / n && Sum(rows) == n
    ensures Sum(Scale(f, rows)) == 1.0
  {
    SumScale(f, rows);
  }

  lemma JointRowSum(x: seq<nat>, y: seq<nat>, nx: nat, ny: nat, i: nat)
    requires |x| == |y| > 0 && i < nx
    ensures RowSums(Joint(x, y, nx, ny))[i] == Scale(1.0 / |x| as real, RowSums(Counts(x, y, nx, ny)))[i]
  {
    hide Sum, Scale;
    var c, f := Counts(x, y, nx, ny), 1.0 / |x| as real;
    JointRow(x, y, nx, ny, i);
    SumScale(f, c[i]);
    ScaleAt(f, RowSums(c), i);
  }

  lemma JointRow(x: seq<nat>, y: seq<nat>, nx: nat, ny: nat, i: nat)
    requires |x| == |y| > 0 && i < nx
    ensures Joint(x, y, nx, ny)[i] == Scale(1.0 / |x| as real, Counts(x, y, nx, ny)[i])
  {
    var p, c, f := Joint(x, y, nx, ny)[i], Counts(x, y, nx, ny)[i], 1.0 / |x| as real;
    forall j | 0 <= j < ny ensures p[j] == Scale(f, c)[j] {
      ScaleAt(f, c, j);
      Quotient(Count(x, y, i, j) as real, |x| as real);
    }
  }

  lemma Quotient(a: real, n: real)
    requires n > 0.0
    ensures a / n == 1.0 / n * a
  {
  }

  lemma {:induction false} CountSymmetric(x: seq<nat>, y: seq<nat>, i: nat, j: nat)
    requires |x| == |y|
    ensures Count(y, x, j, i) == Count(x, y, i, j)
    decreases |x|
  {
    if x != [] {
      CountSymmetric(x[..|x| - 1], y[..|y| - 1], i, j);
    }
  }

  lemma JointSymmetric(x: seq<nat>, y: seq<nat>, nx: nat, ny: nat)
    requires |x| == |y| > 0
    ensures Joint(y, x, ny, nx) == Transpose(Joint(x, y, nx, ny), ny)
  {
    var p, q := Joint(y, x, ny, nx), Transpose(Joint(x, y, nx, ny), ny);
    forall j | 0 <= j < ny ensures p[j] == q[j] {
      forall i | 0 <= i < nx ensures p[j][i] == q[j][i] { CountSymmetric(x, y, i, j); }
    }
  }

  // ---------------------------------------------------------------- the two loops over the histogram

  function Rows(a: array2<real>): (p: Matrix)
    reads a
    ensures Rectangular(p, a.Length0, a.Length1)
    ensures forall i, j :: 0 <= i < a.Length0 && 0 <= j < a.Length1 ==> p[i][j] == a[i, j]
  {
    seq(a.Length0, i requires 0 <= i < a.Length0 reads a =>
      seq(a.Length1, j requires 0 <= j < a.Length1 reads a => a[i, j]))
  }

  /** Counting the points and dividing every cell by their number fills in the joint distribution. */
  method FillJoint(x: seq<nat>, y: seq<nat>, nx: nat, ny: nat) returns (joint: array2<real>)
    requires |x| > 0 && InGrid(x, y, nx, ny)
    ensures fresh(joint) && joint.Length0 == nx && joint.Length1 == ny
    ensures Rows(joint) == Joint(x, y, nx, ny)
  {
    var n := |x|;
    joint := new real[nx, ny]((_, _) => 0.0);
    for k := 0 to n
      invariant forall i, j :: 0 <= i < nx && 0 <= j < ny ==> joint[i, j] == Count(x[..k], y[..k], i, j) as real
    {
      assert x[..k + 1][..k] == x[..k] && y[..k + 1][..k] == y[..k];
      joint[x[k], y[k]] := joint[x[k], y[k]] + 1.0;
    }
    assert x[..n] == x && y[..n] == y;
    forall i, j | 0 <= i < nx && 0 <= j < ny {
      joint[i, j] := joint[i, j] / n as real;
    }
    assert forall i :: 0 <= i < nx ==> Rows(joint)[i] == Joint(x, y, nx, ny)[i];
  }

  /** The nested loop that adds up the terms computes the mutual information of the joint. */
  method MutualInformationFromBins(log: real -> real, x: seq<nat>, y: seq<nat>, nx: nat, ny: nat) returns (mi: real)
    requires |x| > 0 && InGrid(x, y, nx, ny)
    ensures mi == MutualInfo(log, Joint(x, y, nx, ny), ny)
  {
    hide Sum, Joint, Count, Term;
    var joint := FillJoint(x, y, nx, ny);
    var p := Rows(joint);
    var xMarg, yMarg := RowSums(p), RowSums(Transpose(p, ny));
    ghost var terms := Terms(log, p, ny);
    ghost var rows := RowSums(terms);
    mi := 0.0;
    SumEmpty();
    for i := 0 to nx
      invariant mi == Sum(rows[..i])
      modifies {}
    {
      for j := 0 to ny
        invariant mi == Sum(rows[..i]) + Sum(terms[i][..j])
        modifies {}
      {
        var cell, a, b := joint[i, j], xMarg[i], yMarg[j];
        assert terms[i][j] == Term(log, cell, a, b);
        SumNext(terms[i], j);
        TermByCases(log, cell, a, b);
        ghost var before := mi;
        if cell > 0.0 && a > 0.0 && b > 0.0 {
          mi := mi + cell * log(cell / (a * b));
        }
        assert mi == before + terms[i][j];
      }
      assert terms[i][..ny] == terms[i];
      SumNext(rows, i);
    }
    assert rows[..nx] == rows;
  }

  lemma TermByCases(log: real -> real, p: real, x: real, y: real)
    ensures p > 0.0 && x > 0.0 && y > 0.0 ==> x * y > 0.0 && Term(log, p, x, y) == p * log(p / (x * y))
    ensures !(p > 0.0 && x > 0.0 && y > 0.0) ==> Term(log, p, x, y) == 0.0
  {
  }

  // ---------------------------------------------------------------- the search over grids

  /** The grids the two loops try, as one condition: at least two bins a side and at most `b` cells. */
  predicate Tried(b: real, nx: nat, ny: nat) {
    nx >= 2 && ny >= 2 && nx as real * ny as real <= b
  }

  /** The normalised score of one grid, from the bins the two orders give. */
  ghost predicate IsScore(log: real -> real, xOrder: seq<nat>, yOrder: seq<nat>, nx: nat, ny: nat, score: real) {
    exists x, y :: ScoredBy(log, xOrder, yOrder, nx, ny, x, y, score)
  }

  ghost predicate ScoredBy(log: real -> real, xOrder: seq<nat>, yOrder: seq<nat>, nx: nat, ny: nat,
                           x: seq<nat>, y: seq<nat>, score: real) {
    && BinnedBy(xOrder, nx, x) && BinnedBy(yOrder, ny, y) && |x| == |y| > 0 && log(Min(nx, ny) as real) != 0.0
    && score == MutualInfo(log, Joint(x, y, nx, ny), ny) / log(Min(nx, ny) as real)
  }

  lemma GridReach(b: real, nx: nat, ny: nat)
    requires nx >= 2 && ny >= 2
    ensures Tried(b, nx, ny) <==> ny <= Cells(b, nx)
    ensures Tried(b, nx, ny) ==> nx <= Cells(b, 2)
  {
    FloorOfQuotient(b, nx, ny);
    FloorOfQuotient(b, 2, nx);
    if Tried(b, nx, ny) {
      LargerFactor(nx as real, 2.0, ny as real);
    }
  }

  /** `b` is n to the power 0.6: not negative, and its fifth power is the third power of `n`. */
  predicate IsBudget(n: nat, b: real) {
    b >= 0.0 && b * b * b * b * b == (n * n * n) as real
  }

  function CellCount(nx: nat, ny: nat): real {
    nx as real * ny as real
  }

  /**
    Trying grids of at most `b` cells differs from trying those of fewer exactly when some grid has just
    `b` cells.  In exact arithmetic this happens with 32 points.
   */
  lemma BoundaryGridTried(b: real)
    ensures (exists nx: nat, ny: nat :: Tried(b, nx, ny) && !(CellCount(nx, ny) < b))
            <==> exists nx: nat, ny: nat :: nx >= 2 && ny >= 2 && CellCount(nx, ny) == b
    ensures IsBudget(32, 8.0) && Tried(8.0, 2, 4) && CellCount(2, 4) == 8.0
  {
    if nx: nat, ny: nat :| nx >= 2 && ny >= 2 && CellCount(nx, ny) == b {
      assert Tried(b, nx, ny) && !(CellCount(nx, ny) < b);
    }
    if nx: nat, ny: nat :| Tried(b, nx, ny) && !(CellCount(nx, ny) < b) {
      assert CellCount(nx, ny) == b;
    }
  }

  lemma LargerFactor(n: real, a: real, c: real)
    requires n >= 0.0 && a <= c
    ensures a * n <= n * c
  {
  }

  /** The floor of b / n, as both loop bounds compute it. */
  function Cells(b: real, n: nat): int
    requires n > 0
  {
    (b / n as real).Floor
  }

  lemma FloorOfQuotient(b: real, n: nat, k: nat)
    requires n > 0
    ensures k <= Cells(b, n) <==> n as real * k as real <= b
  {
    var q := b / n as real;
    assert q * n as real == b;
    assert q.Floor as real <= q < q.Floor as real + 1.0;
    ProductOrder(n as real, k as real, q);
  }

  lemma ProductOrder(n: real, k: real, q: real)
    requires n > 0.0
    ensures k <= q <==> n * k <= q * n
  {
    if k > q { Positive(n, k - q); } else { NonNegativeProduct(n, q - k); }
  }

  lemma LogPositive(log: real -> real, k: real)
    requires IsLog(log) && k >= 2.0
    ensures log(k) > 0.0
  {
    assert BoundLaw(log, k);
    assert 1.0 / k < 1.0 by { assert 1.0 / k * k == 1.0; }
  }

  lemma ScoreBounds(log: real -> real, xOrder: seq<nat>, yOrder: seq<nat>, nx: nat, ny: nat, score: real)
    requires IsLog(log) && nx >= 2 && ny >= 2
    ensures IsScore(log, xOrder, yOrder, nx, ny, score) ==> 0.0 <= score <= 1.0
  {
    hide IsLog, MutualInfo, Joint, BinOfRank, Distribution;
    if IsScore(log, xOrder, yOrder, nx, ny, score) {
      var x, y :| ScoredBy(log, xOrder, yOrder, nx, ny, x, y, score);
      BinsInGrid(xOrder, nx, x);
      BinsInGrid(yOrder, ny, y);
      JointIsDistribution(x, y, nx, ny);
      MutualInfoBounds(log, Joint(x, y, nx, ny), nx, ny);
      LogPositive(log, Min(nx, ny) as real);
      QuotientInUnit(MutualInfo(log, Joint(x, y, nx, ny), ny), log(Min(nx, ny) as real));
    }
  }

  lemma BinsInGrid(order: seq<nat>, bins: nat, b: seq<nat>)
    requires BinnedBy(order, bins, b) && bins > 0
    ensures forall i :: 0 <= i < |b| ==> b[i] < bins
  {
    forall i | 0 <= i < |b| ensures b[i] < bins {
      var r := RankOf(order, i);
      BinInRange(r, bins, |order|);
    }
  }

  lemma QuotientInUnit(a: real, d: real)
    requires d > 0.0 && 0.0 <= a <= d
    ensures 0.0 <= a / d <= 1.0
  {
    assert a / d * d == a;
  }

  lemma ScoreUnique(log: real -> real, xOrder: seq<nat>, yOrder: seq<nat>, nx: nat, ny: nat, s: real, t: real)
    requires IsScore(log, xOrder, yOrder, nx, ny, s) && IsScore(log, xOrder, yOrder, nx, ny, t)
    ensures s == t
  {
    hide IsPermutation, BinOfRank, MutualInfo, Joint;
    var x, y :| ScoredBy(log, xOrder, yOrder, nx, ny, x, y, s);
    var u, v :| ScoredBy(log, xOrder, yOrder, nx, ny, u, v, t);
    BinningUnique(xOrder, nx, x, u);
    BinningUnique(yOrder, ny, y, v);
  }

  lemma ScoreSymmetric(log: real -> real, xOrder: seq<nat>, yOrder: seq<nat>, nx: nat, ny: nat, s: real)
    requires nx > 0 && ny > 0
    ensures IsScore(log, xOrder, yOrder, nx, ny, s) ==> IsScore(log, yOrder, xOrder, ny, nx, s)
  {
    hide IsPermutation, BinOfRank, MutualInfo, Joint, BinnedBy;
    if IsScore(log, xOrder, yOrder, nx, ny, s) {
      var x, y :| ScoredBy(log, xOrder, yOrder, nx, ny, x, y, s);
      JointSymmetric(x, y, nx, ny);
      MutualInfoSymmetric(log, Joint(x, y, nx, ny), nx, ny);
      assert ScoredBy(log, yOrder, xOrder, ny, nx, y, x, s);
    }
  }

  /** Which values are the score of a grid. */
  type Scoring = (nat, nat, real) -> bool

  /** `best` is the largest score of any grid of at most `b` cells, and zero when there is none. */
  ghost predicate IsBest(scores: Scoring, b: real, best: real) {
    && (forall nx: nat, ny: nat, s: real :: Tried(b, nx, ny) && scores(nx, ny, s) ==> s <= best)
    && (best == 0.0 || exists nx: nat, ny: nat :: Tried(b, nx, ny) && scores(nx, ny, best))
    && 0.0 <= best
  }

  ghost function Scores(log: real -> real, xOrder: seq<nat>, yOrder: seq<nat>): Scoring {
    (nx: nat, ny: nat, s: real) => IsScore(log, xOrder, yOrder, nx, ny, s)
  }

  ghost predicate IsMic(log: real -> real, xOrder: seq<nat>, yOrder: seq<nat>, b: real, best: real) {
    IsBest(Scores(log, xOrder, yOrder), b, best)
  }

  /** There is only one such value. */
  lemma MicUnique(log: real -> real, xOrder: seq<nat>, yOrder: seq<nat>, b: real, v: real, w: real)
    ensures IsMic(log, xOrder, yOrder, b, v) && IsMic(log, xOrder, yOrder, b, w) ==> v == w
  {
    hide IsScore, Tried;
  }

  /** Exchanging the two series changes nothing: grids and scores are symmetric. */
  lemma MicSymmetric(log: real -> real, xOrder: seq<nat>, yOrder: seq<nat>, b: real, v: real)
    ensures IsMic(log, xOrder, yOrder, b, v) <==> IsMic(log, yOrder, xOrder, b, v)
  {
    hide IsScore;
    var p, q := Scores(log, xOrder, yOrder), Scores(log, yOrder, xOrder);
    forall nx: nat, ny: nat, s: real | nx > 0 && ny > 0 ensures p(nx, ny, s) <==> q(ny, nx, s) {
      ScoreSymmetric(log, xOrder, yOrder, nx, ny, s);
      ScoreSymmetric(log, yOrder, xOrder, ny, nx, s);
    }
    if IsMic(log, xOrder, yOrder, b, v) { BestExchanged(p, q, b, v); }
    if IsMic(log, yOrder, xOrder, b, v) { BestExchanged(q, p, b, v); }
  }

  lemma TriedSymmetric(b: real, nx: nat, ny: nat)
    ensures Tried(b, nx, ny) <==> Tried(b, ny, nx)
  {
  }

  lemma BestExchanged(scores: Scoring, exchanged: Scoring, b: real, v: real)
    requires forall nx: nat, ny: nat, s: real :: nx > 0 && ny > 0 ==> (scores(nx, ny, s) <==> exchanged(ny, nx, s))
    requires IsBest(scores, b, v)
    ensures IsBest(exchanged, b, v)
  {
    forall nx: nat, ny: nat, s: real | Tried(b, nx, ny) && exchanged(nx, ny, s) ensures s <= v {
      TriedSymmetric(b, nx, ny);
    }
    if v != 0.0 {
      var nx: nat, ny: nat :| Tried(b, nx, ny) && scores(nx, ny, v);
      TriedSymmetric(b, nx, ny);
    }
  }

  /** The score of one grid, from the bins already made. */
  method Score(log: real -> real, xOrder: seq<nat>, yOrder: seq<nat>, nx: nat, ny: nat, x: seq<nat>)
    returns (score: real)
    requires IsLog(log) && IsPermutation(yOrder) && |xOrder| == |yOrder| > 0
    requires nx >= 2 && ny >= 2 && BinnedBy(xOrder, nx, x)
    ensures IsScore(log, xOrder, yOrder, nx, ny, score)
  {
    var y := EqualFrequencyBins(yOrder, ny);
    BinsInGrid(xOrder, nx, x);
    var mi := MutualInformationFromBins(log, x, y[..], nx, ny);
    LogPositive(log, Min(nx, ny) as real);
    score := mi / log(Min(nx, ny) as real);
    assert ScoredBy(log, xOrder, yOrder, nx, ny, x, y[..], score);
  }

  predicate Before(gx: nat, gy: nat, nx: nat, ny: nat) {
    gx < nx || (gx == nx && gy < ny)
  }

  /** `best` covers the tried grids before (nx, ny), row by row, and is attained unless it is still zero. */
  ghost predicate BestBefore(scores: Scoring, b: real, nx: nat, ny: nat, best: real) {
    && (forall gx: nat, gy: nat, s: real ::
          Tried(b, gx, gy) && Before(gx, gy, nx, ny) && scores(gx, gy, s) ==> s <= best)
    && (best == 0.0 || exists gx: nat, gy: nat :: Tried(b, gx, gy) && scores(gx, gy, best))
    && 0.0 <= best
  }

  lemma NothingBefore(scores: Scoring, b: real)
    ensures BestBefore(scores, b, 2, 2, 0.0)
  {
  }

  lemma OneMoreGrid(scores: Scoring, b: real, nx: nat, ny: nat, best: real, s: real)
    requires Tried(b, nx, ny) && BestBefore(scores, b, nx, ny, best)
    requires forall t :: scores(nx, ny, t) <==> t == s
    ensures BestBefore(scores, b, nx, ny + 1, if s > best then s else best)
  {
  }

  lemma RowDone(scores: Scoring, b: real, nx: nat, ny: nat, best: real)
    requires nx >= 2 && ny >= 2 && BestBefore(scores, b, nx, ny, best) && Cells(b, nx) < ny
    ensures BestBefore(scores, b, nx + 1, 2, best)
  {
    hide Cells;
    forall gy: nat | Tried(b, nx, gy) ensures gy < ny { GridReach(b, nx, gy); }
  }

  lemma AllRowsDone(scores: Scoring, b: real, nx: nat, best: real)
    requires BestBefore(scores, b, nx, 2, best) && Cells(b, 2) < nx
    ensures IsBest(scores, b, best)
  {
    hide Cells;
    forall gx: nat, gy: nat | Tried(b, gx, gy) ensures gx < nx { GridReach(b, gx, gy); }
  }

  lemma BestInUnit(scores: Scoring, b: real, best: real)
    requires forall nx: nat, ny: nat, s: real :: Tried(b, nx, ny) && scores(nx, ny, s) ==> s <= 1.0
    requires IsBest(scores, b, best)
    ensures 0.0 <= best <= 1.0
  {
  }

  function Max(a: int, b: int): int {
    if a > b then a else b
  }

  /**
    The exhaustive search.  `b` stands for n to the power 0.6, so it lies between 0 and n.  The result
    is the largest normalised score of any grid of at most `b` cells: capping it at one changes nothing.
   */
  method MicExhaustiveSearch(log: real -> real, xOrder: seq<nat>, yOrder: seq<nat>, b: real) returns (mic: real)
    requires IsLog(log) && IsPermutation(xOrder) && IsPermutation(yOrder) && |xOrder| == |yOrder|
    requires 0.0 <= b <= |xOrder| as real
    ensures IsMic(log, xOrder, yOrder, b, mic) && mic <= 1.0
  {
    hide IsLog, IsScore, BestBefore, IsBest, Cells, IsPermutation, BinnedBy;
    ghost var scores := Scores(log, xOrder, yOrder);
    NothingBefore(scores, b);
    var n := |xOrder|;
    if n < 4 || b < 4.0 {
      FloorOfQuotient(b, 2, 2);
      AllRowsDone(scores, b, 2, 0.0);
      return 0.0;
    }
    var best := 0.0;
    var maxNx := Cells(b, 2);
    var nx := 2;
    while nx <= Max(2, maxNx)
      invariant nx >= 2 && BestBefore(scores, b, nx, 2, best)
      decreases Max(2, maxNx) - nx
    {
      var maxNy := Cells(b, nx);
      if maxNy >= 2 {
        var xBins := EqualFrequencyBins(xOrder, nx);
        var x := xBins[..];
        var ny := 2;
        while ny <= maxNy
          invariant 2 <= ny <= maxNy + 1 && BestBefore(scores, b, nx, ny, best)
          decreases maxNy - ny
          modifies {}
        {
          var normalized := Score(log, xOrder, yOrder, nx, ny, x);
          GridReach(b, nx, ny);
          forall t | IsScore(log, xOrder, yOrder, nx, ny, t) ensures t == normalized {
            ScoreUnique(log, xOrder, yOrder, nx, ny, t, normalized);
          }
          OneMoreGrid(scores, b, nx, ny, best, normalized);
          best := if normalized > best then normalized else best;
          ny := ny + 1;
        }
        RowDone(scores, b, nx, ny, best);
      } else {
        RowDone(scores, b, nx, 2, best);
      }
      nx := nx + 1;
    }
    AllRowsDone(scores, b, nx, best);
    forall gx: nat, gy: nat, s: real | Tried(b, gx, gy) && IsScore(log, xOrder, yOrder, gx, gy, s) ensures s <= 1.0 {
      ScoreBounds(log, xOrder, yOrder, gx, gy, s);
    }
    BestInUnit(scores, b, best);
    mic := if best < 1.0 then best else 1.0;
  }

  // ---------------------------------------------------------------- row normalisation

  function RowNormalize(w: Matrix): (r: Matrix)
    ensures |r| == |w|
  {
    seq(|w|, i requires 0 <= i < |w| =>
      Scale(1.0 / (if Sum(w[i]) == 0.0 then 1.0 else Sum(w[i])), w[i]))
  }

  /** Every row then sums to one, except a row summing to zero, which is left as it was. */
  lemma NormalizedRows(w: Matrix, i: nat)
    requires i < |w|
    ensures Sum(w[i]) != 0.0 ==> Sum(RowNormalize(w)[i]) == 1.0
    ensures Sum(w[i]) == 0.0 ==> RowNormalize(w)[i] == w[i]
  {
    var total := Sum(w[i]);
    if total == 0.0 {
      assert Scale(1.0, w[i]) == w[i];
    } else {
      SumScale(1.0 / total, w[i]);
    }
  }
}
