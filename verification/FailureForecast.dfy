/**
  The inverse-velocity failure forecast: smoothing, the kept inverse velocities of the last twelve
  hours, the least-squares line through them, and the rules that suppress the forecast.
  Floats are reals; the square root is a parameter.
 */
module FailureForecast {
  import opened Prelude
  import opened RealSums

  datatype Point = Point(ms: int, mm: Option<real>)

  datatype Reading = Reading(ms: int, mm: real)

  /** Hours since the start of the window, and days per millimetre. */
  datatype Inverse = Inverse(hours: real, y: real)

  datatype Forecast = Forecast(leadLow: real, leadHigh: real, lead: real, inv: seq<Inverse>,
                               slope: real, intercept: real, invMax: real)

  const WINDOW_HOURS := 12
  const HOUR_MS := 3_600_000
  const DAY_MS := 86_400_000

  // ---------------------------------------------------------------- smoothing

  function Low(i: nat, k: nat): nat {
    if i < k then 0 else i - k
  }

  function High(n: nat, i: nat, k: nat): nat {
    if i + k < n then i + k + 1 else n
  }

  /** The moving average over up to `k` neighbours on either side. */
  function Smoothed(v: Vector, k: nat): (r: Vector)
    ensures |r| == |v|
  {
    seq(|v|, i requires 0 <= i < |v| => Mean(v[Low(i, k)..High(|v|, i, k)]))
  }

  method Smooth(vals: Vector, k: nat) returns (r: Vector)
    ensures r == Smoothed(vals, k)
  {
    hide Sum;
    r := [];
    for i := 0 to |vals|
      invariant r == Smoothed(vals, k)[..i]
    {
      var lo, hi := Low(i, k), High(|vals|, i, k);
      ghost var window := vals[lo..hi];
      var s, n := 0.0, 0;
      SumEmpty();
      for j := lo to hi
        invariant n == j - lo && s == Sum(window[..n])
      {
        SumNext(window, n);
        s := s + vals[j];
        n := n + 1;
      }
      assert window[..n] == window;
      r := r + [s / n as real];
    }
  }

  ghost predicate NonIncreasing(v: Vector) {
    forall i, j :: 0 <= i < j < |v| ==> v[j] <= v[i]
  }

  lemma {:induction false} SumAtLeast(s: Vector, x: real)
    requires forall i :: 0 <= i < |s| ==> s[i] >= x
    ensures Sum(s) >= x * |s| as real
  {
    if s != [] {
      SumAtLeast(s[..|s| - 1], x);
    }
  }

  lemma {:induction false} SumAtMost(s: Vector, x: real)
    requires forall i :: 0 <= i < |s| ==> s[i] <= x
    ensures Sum(s) <= x * |s| as real
  {
    if s != [] {
      SumAtMost(s[..|s| - 1], x);
    }
  }

  lemma {:induction false} SumPrepend(x: real, s: Vector)
    ensures Sum([x] + s) == x + Sum(s)
  {
    if s == [] {
      assert [x] + s == [x];
      SumNext([x], 0);
    } else {
      SumPrepend(x, s[..|s| - 1]);
      assert ([x] + s)[..|s|] == [x] + s[..|s| - 1];
    }
  }

  /** s / n against (s + x) / (n + 1), cross-multiplied. */
  lemma CompareMeans(s: real, x: real, n: real)
    requires n > 0.0
    ensures s >= x * n ==> (s + x) / (n + 1.0) <= s / n
    ensures s <= x * n ==> s / n <= (s + x) / (n + 1.0)
  {
    var a, b := s / n, (s + x) / (n + 1.0);
    assert a * n == s && b * (n + 1.0) == s + x;
    assert (b - a) * (n + 1.0) == x - a;
    assert (x - a) * n == x * n - s;
    Sign(x - a, n);
    Sign(b - a, n + 1.0);
  }

  lemma Sign(a: real, n: real)
    requires n > 0.0
    ensures a * n > 0.0 ==> a > 0.0
    ensures a * n < 0.0 ==> a < 0.0
    ensures a * n == 0.0 ==> a == 0.0
    ensures a > 0.0 ==> a * n > 0.0
    ensures a < 0.0 ==> a * n < 0.0
  {
    if a > 0.0 { Positive(a, n); }
    if a < 0.0 { Positive(-a, n); }
  }

  lemma AppendSmaller(s: Vector, x: real)
    requires s != [] && forall i :: 0 <= i < |s| ==> s[i] >= x
    ensures Mean(s + [x]) <= Mean(s)
  {
    SumAtLeast(s, x);
    assert (s + [x])[..|s|] == s;
    CompareMeans(Sum(s), x, |s| as real);
  }

  lemma PrependLarger(x: real, s: Vector)
    requires s != [] && forall i :: 0 <= i < |s| ==> s[i] <= x
    ensures Mean(s) <= Mean([x] + s)
  {
    SumAtMost(s, x);
    SumPrepend(x, s);
    CompareMeans(Sum(s), x, |s| as real);
  }

  lemma SmoothedStep(v: Vector, k: nat, i: nat)
    requires NonIncreasing(v) && i + 1 < |v|
    ensures Smoothed(v, k)[i + 1] <= Smoothed(v, k)[i]
  {
    hide Mean;
    var lo, hi := Low(i, k), High(|v|, i, k);
    var lo', hi' := Low(i + 1, k), High(|v|, i + 1, k);
    if hi' > hi {
      assert v[lo..hi'] == v[lo..hi] + [v[hi]];
      AppendSmaller(v[lo..hi], v[hi]);
    }
    if lo' > lo {
      assert v[lo..hi'] == [v[lo]] + v[lo'..hi'];
      PrependLarger(v[lo], v[lo'..hi']);
    }
  }

  /** Smoothing keeps a non-increasing series non-increasing, edges included. */
  lemma {:induction false} SmoothingKeepsOrder(v: Vector, k: nat, i: nat, j: nat)
    requires NonIncreasing(v) && i <= j < |v|
    ensures Smoothed(v, k)[j] <= Smoothed(v, k)[i]
    decreases j - i
  {
    hide Smoothed;
    if i < j {
      SmoothingKeepsOrder(v, k, i, j - 1);
      SmoothedStep(v, k, j - 1);
    }
  }

  // ---------------------------------------------------------------- covariance and the fitted line

  /** The sum of the products of two equally long series. */
  function Inner(xs: Vector, ys: Vector): real
    requires |xs| == |ys|
  {
    if xs == [] then 0.0
    else Inner(xs[..|xs| - 1], ys[..|ys| - 1]) + Product(xs[|xs| - 1], ys[|ys| - 1])
  }

  /** n times the sum of products, less the product of the sums; with ys = xs the fit's denominator. */
  function Covariance(xs: Vector, ys: Vector): real
    requires |xs| == |ys|
  {
    Product(|xs| as real, Inner(xs, ys)) - Product(Sum(xs), Sum(ys))
  }

  /** The sum of the products of the distances from (x, y). */
  function Deviations(xs: Vector, ys: Vector, x: real, y: real): real
    requires |xs| == |ys|
  {
    if xs == [] then 0.0
    else Deviations(xs[..|xs| - 1], ys[..|ys| - 1], x, y) + Product(xs[|xs| - 1] - x, ys[|ys| - 1] - y)
  }

  lemma ExpandProduct(a: real, b: real, x: real, y: real)
    ensures Product(a - x, b - y) == Product(a, b) - Product(x, b) - Product(a, y) + Product(x, y)
    ensures Product(a + x, b + y) == Product(a, b) + Product(x, b) + Product(a, y) + Product(x, y)
  {
  }

  lemma ProductZero(x: real, y: real)
    ensures Product(x, 0.0) == 0.0 && Product(0.0, y) == 0.0
  {
  }

  lemma {:induction false} DeviationsExpanded(xs: Vector, ys: Vector, x: real, y: real)
    requires |xs| == |ys|
    ensures Deviations(xs, ys, x, y)
      == Inner(xs, ys) - Product(x, Sum(ys)) - Product(Sum(xs), y) + Product(|xs| as real, Product(x, y))
  {
    hide Product;
    if xs == [] {
      ProductZero(x, y);
      ProductZero(x, Product(x, y));
    } else {
      var n := |xs| - 1;
      DeviationsExpanded(xs[..n], ys[..n], x, y);
      ExpandProduct(xs[n], ys[n], x, y);
      ProductAdd(x, Sum(ys[..n]), ys[n]);
      ProductAddLeft(Sum(xs[..n]), xs[n], y);
      OneMore(n as real, Product(x, y));
    }
  }

  lemma ProductAdd(x: real, a: real, b: real)
    ensures Product(x, a + b) == Product(x, a) + Product(x, b)
  {
  }

  lemma ProductAddLeft(a: real, b: real, y: real)
    ensures Product(a + b, y) == Product(a, y) + Product(b, y)
  {
  }

  lemma OneMore(n: real, p: real)
    ensures Product(n + 1.0, p) == Product(n, p) + p
  {
  }

  /** One more point adds its deviations from all the points before. */
  lemma CovarianceStep(xs: Vector, ys: Vector)
    requires |xs| == |ys| > 0
    ensures var n := |xs| - 1;
      Covariance(xs, ys) == Covariance(xs[..n], ys[..n]) + Deviations(xs[..n], ys[..n], xs[n], ys[n])
  {
    hide Product;
    var n := |xs| - 1;
    var a, b, x, y := xs[..n], ys[..n], xs[n], ys[n];
    DeviationsExpanded(a, b, x, y);
    OneMore(n as real, Inner(xs, ys));
    ProductAdd(n as real, Inner(a, b), Product(x, y));
    ExpandProduct(Sum(a), Sum(b), x, y);
  }

  lemma {:induction false} DeviationsSign(xs: Vector, ys: Vector, x: real, y: real)
    requires |xs| == |ys|
    requires forall i :: 0 <= i < |xs| ==> Product(xs[i] - x, ys[i] - y) >= 0.0
    ensures Deviations(xs, ys, x, y) >= 0.0
    ensures (exists i :: 0 <= i < |xs| && Product(xs[i] - x, ys[i] - y) > 0.0) ==> Deviations(xs, ys, x, y) > 0.0
  {
    hide Product;
    if xs != [] {
      var n := |xs| - 1;
      DeviationsSign(xs[..n], ys[..n], x, y);
      if Product(xs[n] - x, ys[n] - y) == 0.0 && exists i :: 0 <= i < |xs| && Product(xs[i] - x, ys[i] - y) > 0.0 {
        var i :| 0 <= i < |xs| && Product(xs[i] - x, ys[i] - y) > 0.0;
        assert xs[..n][i] == xs[i] && ys[..n][i] == ys[i];
      }
    }
  }

  predicate AllEqual(xs: Vector) {
    forall i :: 0 <= i < |xs| ==> xs[i] == xs[0]
  }

  /** The denominator is never negative, and zero exactly when all the times are equal. */
  lemma {:induction false} DenominatorSign(xs: Vector)
    ensures Covariance(xs, xs) >= 0.0
    ensures Covariance(xs, xs) == 0.0 <==> AllEqual(xs)
  {
    hide Product;
    if xs == [] {
      ProductZero(0.0, 0.0);
    } else {
      var n := |xs| - 1;
      var rest, x := xs[..n], xs[n];
      CovarianceStep(xs, xs);
      DenominatorSign(rest);
      forall i | 0 <= i < n ensures Product(rest[i] - x, rest[i] - x) >= 0.0 { SquareSign(rest[i] - x); }
      DeviationsSign(rest, rest, x, x);
      if n > 0 {
        LastDiffers(xs);
      } else {
        assert rest == [];
      }
    }
  }

  lemma LastDiffers(xs: Vector)
    requires |xs| > 1
    ensures var n := |xs| - 1; var rest, x := xs[..n], xs[n];
      (AllEqual(xs) ==> AllEqual(rest) && Deviations(rest, rest, x, x) == 0.0)
      && (!AllEqual(xs) && AllEqual(rest) ==> Deviations(rest, rest, x, x) > 0.0)
  {
    hide Product;
    var n := |xs| - 1;
    var rest, x := xs[..n], xs[n];
    forall i | 0 <= i < n ensures Product(rest[i] - x, rest[i] - x) >= 0.0 { SquareSign(rest[i] - x); }
    DeviationsSign(rest, rest, x, x);
    if AllEqual(xs) {
      ZeroDeviations(rest, x);
    } else if AllEqual(rest) {
      assert rest[0] != x;
      SquareSign(rest[0] - x);
      assert Product(rest[0] - x, rest[0] - x) > 0.0;
    }
  }

  lemma {:induction false} ZeroDeviations(xs: Vector, x: real)
    requires forall i :: 0 <= i < |xs| ==> xs[i] == x
    ensures Deviations(xs, xs, x, x) == 0.0
  {
    if xs != [] {
      ZeroDeviations(xs[..|xs| - 1], x);
      ProductZero(0.0, 0.0);
    }
  }

  /** Chebyshev's sum inequality: two series that rise together never have a negative covariance. */
  lemma {:induction false} RisingTogether(xs: Vector, ys: Vector)
    requires |xs| == |ys|
    requires forall i, j :: 0 <= i < j < |xs| ==> xs[i] <= xs[j] && ys[i] <= ys[j]
    ensures Covariance(xs, ys) >= 0.0
  {
    hide Product;
    if xs == [] {
      ProductZero(0.0, 0.0);
    } else {
      var n := |xs| - 1;
      CovarianceStep(xs, ys);
      RisingTogether(xs[..n], ys[..n]);
      forall i | 0 <= i < n ensures Product(xs[..n][i] - xs[n], ys[..n][i] - ys[n]) >= 0.0 {
        NegativeFactors(xs[i] - xs[n], ys[i] - ys[n]);
      }
      DeviationsSign(xs[..n], ys[..n], xs[n], ys[n]);
    }
  }

  lemma NegativeFactors(a: real, b: real)
    requires a <= 0.0 && b <= 0.0
    ensures Product(a, b) >= 0.0
  {
    NonNegativeProduct(-a, -b);
  }

  // ---------------------------------------------------------------- least squares

  /** The summed squared residual of the line slope * x + intercept. */
  function SquaredResidual(xs: Vector, ys: Vector, slope: real, intercept: real): real
    requires |xs| == |ys|
  {
    if xs == [] then 0.0
    else
      var n := |xs| - 1;
      var r := ys[n] - (Product(slope, xs[n]) + intercept);
      SquaredResidual(xs[..n], ys[..n], slope, intercept) + Product(r, r)
  }

  function Slope(xs: Vector, ys: Vector): real
    requires |xs| == |ys| && Covariance(xs, xs) != 0.0
  {
    Covariance(xs, ys) / Covariance(xs, xs)
  }

  function Intercept(xs: Vector, ys: Vector): real
    requires |xs| == |ys| > 0 && Covariance(xs, xs) != 0.0
  {
    (Sum(ys) - Product(Slope(xs, ys), Sum(xs))) / |xs| as real
  }

  /** The residuals of the line (a, b) summed, and summed with the times as weights. */
  function Residuals(xs: Vector, ys: Vector, a: real, b: real): real
    requires |xs| == |ys|
  {
    Sum(ys) - Product(a, Sum(xs)) - Product(|xs| as real, b)
  }

  function WeightedResiduals(xs: Vector, ys: Vector, a: real, b: real): real
    requires |xs| == |ys|
  {
    Inner(xs, ys) - Product(a, Inner(xs, xs)) - Product(b, Sum(xs))
  }

  /** The residuals of the fitted line sum to zero, also when weighted by time. */
  lemma NormalEquations(xs: Vector, ys: Vector)
    requires |xs| == |ys| > 0 && Covariance(xs, xs) != 0.0
    ensures Residuals(xs, ys, Slope(xs, ys), Intercept(xs, ys)) == 0.0
    ensures WeightedResiduals(xs, ys, Slope(xs, ys), Intercept(xs, ys)) == 0.0
  {
    hide Inner, Sum;
    Normal(|xs| as real, Sum(xs), Sum(ys), Inner(xs, xs), Inner(xs, ys), Slope(xs, ys), Intercept(xs, ys));
  }

  lemma Normal(n: real, sx: real, sy: real, sxx: real, sxy: real, a: real, b: real)
    requires n > 0.0 && n * sxx - sx * sx != 0.0
    requires a * (n * sxx - sx * sx) == n * sxy - sx * sy && b * n == sy - a * sx
    ensures sy - a * sx - n * b == 0.0 && sxy - a * sxx - b * sx == 0.0
  {
    var z := sxy - a * sxx - b * sx;
    assert b * n * sx == sy * sx - a * sx * sx;
    assert z * n == n * sxy - a * (n * sxx) - b * n * sx;
    assert z * n == 0.0;
  }

  /** The summed squared distance between two lines whose coefficients differ by (da, db). */
  function LineGap(xs: Vector, da: real, db: real): real {
    if xs == [] then 0.0
    else
      var e := Product(da, xs[|xs| - 1]) + db;
      LineGap(xs[..|xs| - 1], da, db) + Product(e, e)
  }

  lemma {:induction false} LineGapSign(xs: Vector, da: real, db: real)
    ensures LineGap(xs, da, db) >= 0.0
  {
    if xs != [] {
      LineGapSign(xs[..|xs| - 1], da, db);
      SquareSign(Product(da, xs[|xs| - 1]) + db);
      hide Product;
    }
  }

  lemma OneResidual(x: real, y: real, a: real, b: real, da: real, db: real)
    ensures
      var r, e, t := y - (Product(a, x) + b), Product(da, x) + db, y - (Product(a + da, x) + (b + db));
      var weighted := Product(x, y) - Product(a, Product(x, x)) - Product(b, x);
      Product(t, t) == Product(r, r) - 2.0 * (Product(da, weighted) + Product(db, r)) + Product(e, e)
  {
    var r, e, t := y - (a * x + b), da * x + db, y - ((a + da) * x + (b + db));
    assert t == r - e;
    assert t * t == r * r - 2.0 * (r * e) + e * e;
    assert r * e == da * (r * x) + db * r;
    assert r * x == x * y - a * (x * x) - b * x;
  }

  lemma SumsStep(xs: Vector, ys: Vector, a: real, b: real)
    requires |xs| == |ys| > 0
    ensures var n := |xs| - 1; var x, y := xs[n], ys[n];
      Residuals(xs, ys, a, b) == Residuals(xs[..n], ys[..n], a, b) + (y - (Product(a, x) + b))
      && WeightedResiduals(xs, ys, a, b) == WeightedResiduals(xs[..n], ys[..n], a, b)
                                          + (Product(x, y) - Product(a, Product(x, x)) - Product(b, x))
  {
    hide Product;
    var n := |xs| - 1;
    ProductAdd(a, Sum(xs[..n]), xs[n]);
    ProductAdd(b, Sum(xs[..n]), xs[n]);
    ProductAdd(a, Inner(xs[..n], xs[..n]), Product(xs[n], xs[n]));
    OneMore(n as real, b);
  }

  /** The squared residuals of a second line, expanded around the first. */
  lemma {:induction false} ResidualExpansion(xs: Vector, ys: Vector, a: real, b: real, da: real, db: real)
    requires |xs| == |ys|
    ensures SquaredResidual(xs, ys, a + da, b + db) == SquaredResidual(xs, ys, a, b)
      - 2.0 * (Product(da, WeightedResiduals(xs, ys, a, b)) + Product(db, Residuals(xs, ys, a, b)))
      + LineGap(xs, da, db)
  {
    hide Product, WeightedResiduals, Residuals;
    if xs == [] {
      NothingLeft(a, b, da, db);
    } else {
      var n := |xs| - 1;
      var x, y := xs[n], ys[n];
      ResidualExpansion(xs[..n], ys[..n], a, b, da, db);
      OneResidual(x, y, a, b, da, db);
      SumsStep(xs, ys, a, b);
      ProductAdd(da, WeightedResiduals(xs[..n], ys[..n], a, b),
                 Product(x, y) - Product(a, Product(x, x)) - Product(b, x));
      ProductAdd(db, Residuals(xs[..n], ys[..n], a, b), y - (Product(a, x) + b));
    }
  }

  lemma NothingLeft(a: real, b: real, da: real, db: real)
    ensures Product(da, WeightedResiduals([], [], a, b)) == 0.0 && Product(db, Residuals([], [], a, b)) == 0.0
  {
  }

  /** No line leaves a smaller summed squared residual than the fitted one. */
  lemma LeastSquares(xs: Vector, ys: Vector, slope: real, intercept: real)
    requires |xs| == |ys| > 0 && Covariance(xs, xs) != 0.0
    ensures SquaredResidual(xs, ys, Slope(xs, ys), Intercept(xs, ys)) <= SquaredResidual(xs, ys, slope, intercept)
  {
    hide Product, Slope, Intercept, Covariance;
    var a, b := Slope(xs, ys), Intercept(xs, ys);
    var da, db := slope - a, intercept - b;
    NormalEquations(xs, ys);
    ResidualExpansion(xs, ys, a, b, da, db);
    ProductZero(da, da);
    ProductZero(db, db);
    LineGapSign(xs, da, db);
    assert a + da == slope && b + db == intercept;
  }

  // ---------------------------------------------------------------- the kept inverse velocities

  function Known(points: seq<Point>): seq<Reading> {
    if points == [] then []
    else
      var p := points[|points| - 1];
      Known(points[..|points| - 1]) + (if p.mm.Some? then [Reading(p.ms, p.mm.value)] else [])
  }

  function Since(pts: seq<Reading>, start: int): seq<Reading> {
    if pts == [] then []
    else
      var p := pts[|pts| - 1];
      Since(pts[..|pts| - 1], start) + (if p.ms >= start then [p] else [])
  }

  function Displacements(win: seq<Reading>): (v: Vector)
    ensures |v| == |win| && forall i :: 0 <= i < |win| ==> v[i] == win[i].mm
  {
    seq(|win|, i requires 0 <= i < |win| => win[i].mm)
  }

  function DaysBetween(win: seq<Reading>, i: nat): real
    requires 1 <= i < |win|
  {
    (win[i].ms - win[i - 1].ms) as real / DAY_MS as real
  }

  function Velocity(win: seq<Reading>, sm: Vector, i: nat): real
    requires |win| == |sm| && 1 <= i < |win| && DaysBetween(win, i) != 0.0
  {
    (sm[i] - sm[i - 1]) / DaysBetween(win, i)
  }

  /** Whether step `i` moves forward in time and faster than 0.05 mm a day. */
  predicate Moves(win: seq<Reading>, sm: Vector, i: nat)
    requires |win| == |sm| && 1 <= i < |win|
  {
    DaysBetween(win, i) > 0.0 && Velocity(win, sm, i) > 0.05
  }

  function HoursAt(win: seq<Reading>, start: int, i: nat): real
    requires i < |win|
  {
    (win[i].ms - start) as real / HOUR_MS as real
  }

  function InverseAt(win: seq<Reading>, sm: Vector, start: int, i: nat): Inverse
    requires |win| == |sm| && 1 <= i < |win| && Moves(win, sm, i)
  {
    Inverse(HoursAt(win, start, i), 1.0 / Velocity(win, sm, i))
  }

  /** The inverse velocities of the moving steps among the first `n` readings. */
  function Kept(win: seq<Reading>, sm: Vector, start: int, n: nat): seq<Inverse>
    requires |win| == |sm| && n <= |win|
  {
    if n <= 1 then []
    else Kept(win, sm, start, n - 1) + (if Moves(win, sm, n - 1) then [InverseAt(win, sm, start, n - 1)] else [])
  }

  function Hours(inv: seq<Inverse>): (v: Vector)
    ensures |v| == |inv| && forall i :: 0 <= i < |inv| ==> v[i] == inv[i].hours
  {
    seq(|inv|, i requires 0 <= i < |inv| => inv[i].hours)
  }

  function InverseVelocities(inv: seq<Inverse>): (v: Vector)
    ensures |v| == |inv| && forall i :: 0 <= i < |inv| ==> v[i] == inv[i].y
  {
    seq(|inv|, i requires 0 <= i < |inv| => inv[i].y)
  }

  // ---------------------------------------------------------------- the forecast

  function Abs(a: real): real {
    if a < 0.0 then -a else a
  }

  /** Half the width of the band, as a fraction of the lead. */
  function Fraction(rms: real, intercept: real): real {
    var wide := 0.15 + rms / (if intercept == 0.0 then 1.0 else Abs(intercept));
    if wide < 0.45 then wide else 0.45
  }

  function Band(lead: real, frac: real): (real, real) {
    var low := lead * (1.0 - frac);
    (if low > 1.0 then low else 1.0, lead * (1.0 + frac))
  }

  function Lead(slope: real, intercept: real): real
    requires slope != 0.0
  {
    -intercept / slope - WINDOW_HOURS as real
  }

  /** The least-squares line through the kept points, and the rules that suppress it. */
  function Fit(sqrt: real -> real, inv: seq<Inverse>): Option<Forecast> {
    if |inv| < 4 then None
    else
      var xs, ys := Hours(inv), InverseVelocities(inv);
      if Covariance(xs, xs) == 0.0 then None
      else
        var slope, intercept := Slope(xs, ys), Intercept(xs, ys);
        if slope >= 0.0 then None
        else
          var lead := Lead(slope, intercept);
          if lead <= 0.0 || lead > 240.0 then None
          else
            var rms := sqrt(SquaredResidual(xs, ys, slope, intercept) / |inv| as real);
            var band := Band(lead, Fraction(rms, intercept));
            Some(Forecast(band.0, band.1, lead, inv, slope, intercept, MaxOf(ys) * 1.12))
  }

  function WindowStart(pts: seq<Reading>): int
    requires pts != []
  {
    pts[|pts| - 1].ms - WINDOW_HOURS * HOUR_MS
  }

  /** What is forecast for a series of points. */
  function ForecastOf(sqrt: real -> real, points: seq<Point>): Option<Forecast> {
    var pts := Known(points);
    if |pts| < 6 then None
    else
      var win := Since(pts, WindowStart(pts));
      if |win| < 5 then None
      else Fit(sqrt, Kept(win, Smoothed(Displacements(win), 3), WindowStart(pts), |win|))
  }

  method EstimateFailure(sqrt: real -> real, points: seq<Point>) returns (r: Option<Forecast>)
    ensures r == ForecastOf(sqrt, points)
  {
    hide Fit, Known, Since, Smoothed;
    var pts := Known(points);
    if |pts| < 6 {
      return None;
    }
    var start := WindowStart(pts);
    var win := Since(pts, start);
    if |win| < 5 {
      return None;
    }
    var sm := Smooth(Displacements(win), 3);
    assert |sm| == |win|;
    var inv: seq<Inverse> := [];
    for i := 1 to |win|
      invariant inv == Kept(win, sm, start, i)
    {
      if Moves(win, sm, i) {
        inv := inv + [InverseAt(win, sm, start, i)];
      }
    }
    r := Fit(sqrt, inv);
  }

  // ---------------------------------------------------------------- when nothing is forecast

  lemma {:induction false} NothingKept(win: seq<Reading>, sm: Vector, start: int, n: nat)
    requires |win| == |sm| && n <= |win| && forall i :: 1 <= i < |sm| ==> sm[i] <= sm[i - 1]
    ensures Kept(win, sm, start, n) == []
  {
    if n > 1 {
      NothingKept(win, sm, start, n - 1);
      NoForwardStep(sm[n - 1] - sm[n - 2], DaysBetween(win, n - 1));
    }
  }

  lemma NoForwardStep(rise: real, days: real)
    requires rise <= 0.0
    ensures days > 0.0 ==> rise / days <= 0.05
  {
    if days > 0.0 {
      assert rise / days * days == rise;
      Sign(rise / days, days);
    }
  }

  /** A window whose displacement never increases yields no forecast. */
  lemma NoMovementNoForecast(sqrt: real -> real, points: seq<Point>)
    requires var pts := Known(points); |pts| > 0 ==> NonIncreasing(Displacements(Since(pts, WindowStart(pts))))
    ensures ForecastOf(sqrt, points) == None
  {
    hide Known, Since, Kept;
    var pts := Known(points);
    if |pts| >= 6 {
      var win := Since(pts, WindowStart(pts));
      var v := Displacements(win);
      forall i | 1 <= i < |v| ensures Smoothed(v, 3)[i] <= Smoothed(v, 3)[i - 1] {
        SmoothingKeepsOrder(v, 3, i - 1, i);
      }
      NothingKept(win, Smoothed(v, 3), WindowStart(pts), |win|);
    }
  }

  ghost predicate Ascending(win: seq<Reading>) {
    forall i, j :: 0 <= i < j < |win| ==> win[i].ms <= win[j].ms
  }

  ghost predicate StrictlyRising(xs: Vector) {
    forall i, j :: 0 <= i < j < |xs| ==> xs[i] < xs[j]
  }

  /** The kept times of ascending readings are strictly increasing. */
  lemma {:induction false} KeptTimesRise(win: seq<Reading>, sm: Vector, start: int, n: nat)
    requires |win| == |sm| && n <= |win| && Ascending(win)
    ensures StrictlyRising(Hours(Kept(win, sm, start, n)))
    ensures forall p :: p in Kept(win, sm, start, n) ==> n > 0 && p.hours <= HoursAt(win, start, n - 1)
  {
    hide Velocity;
    if n > 1 {
      KeptTimesRise(win, sm, start, n - 1);
      assert win[n - 2].ms <= win[n - 1].ms;
      if Moves(win, sm, n - 1) {
        assert win[n - 2].ms < win[n - 1].ms;
      }
    }
  }

  /** With ascending times the denominator is positive whenever the fit is reached. */
  lemma AscendingDenominator(win: seq<Reading>, sm: Vector, start: int)
    requires |win| == |sm| && Ascending(win) && |Kept(win, sm, start, |win|)| >= 4
    ensures var xs := Hours(Kept(win, sm, start, |win|)); Covariance(xs, xs) > 0.0
  {
    var xs := Hours(Kept(win, sm, start, |win|));
    KeptTimesRise(win, sm, start, |win|);
    DenominatorSign(xs);
    assert xs[0] < xs[1];
  }

  /** Steady or decelerating motion is suppressed: inverse velocities that never fall give no forecast. */
  lemma NoAccelerationNoForecast(sqrt: real -> real, inv: seq<Inverse>)
    requires StrictlyRising(Hours(inv))
    requires forall i, j :: 0 <= i < j < |inv| ==> inv[i].y <= inv[j].y
    ensures Fit(sqrt, inv) == None
  {
    hide Covariance;
    if |inv| >= 4 {
      var xs, ys := Hours(inv), InverseVelocities(inv);
      DenominatorSign(xs);
      assert xs[0] < xs[1];
      RisingTogether(xs, ys);
      NonNegativeQuotient(Covariance(xs, ys), Covariance(xs, xs));
    }
  }

  ghost predicate AscendingPoints(points: seq<Point>) {
    forall i, j :: 0 <= i < j < |points| ==> points[i].ms <= points[j].ms
  }

  lemma {:induction false} KnownAscends(points: seq<Point>)
    requires AscendingPoints(points)
    ensures Ascending(Known(points))
    ensures forall r :: r in Known(points) ==> exists i :: 0 <= i < |points| && points[i].ms == r.ms
  {
    if points != [] {
      var last := |points| - 1;
      KnownAscends(points[..last]);
      forall r | r in Known(points) ensures exists i :: 0 <= i < |points| && points[i].ms == r.ms {
        if r in Known(points[..last]) {
          var i :| 0 <= i < last && points[..last][i].ms == r.ms;
          assert points[i].ms == r.ms;
        } else {
          assert points[last].ms == r.ms;
        }
      }
    }
  }

  lemma {:induction false} SinceAscends(pts: seq<Reading>, start: int)
    requires Ascending(pts)
    ensures Ascending(Since(pts, start)) && forall r :: r in Since(pts, start) ==> r in pts
  {
    if pts != [] {
      var last := |pts| - 1;
      SinceAscends(pts[..last], start);
      forall r | r in Since(pts[..last], start) ensures r.ms <= pts[last].ms {
        var i :| 0 <= i < last && pts[..last][i] == r;
        assert pts[i] == r;
      }
    }
  }

  /**
    For ascending times: the denominator of the fit is positive whenever four velocities are kept, and
    a forecast is made only if some kept velocity is larger than an earlier one.
   */
  lemma AscendingForecast(sqrt: real -> real, points: seq<Point>)
    requires AscendingPoints(points) && ForecastOf(sqrt, points).Some?
    ensures var inv := ForecastOf(sqrt, points).value.inv;
      Covariance(Hours(inv), Hours(inv)) > 0.0 && exists i, j :: 0 <= i < j < |inv| && inv[j].y < inv[i].y
  {
    hide Known, Since, Kept, Smoothed, Covariance, Ascending;
    var pts := Known(points);
    var win := Since(pts, WindowStart(pts));
    var sm := Smoothed(Displacements(win), 3);
    KnownAscends(points);
    SinceAscends(pts, WindowStart(pts));
    AscendingDenominator(win, sm, WindowStart(pts));
    KeptTimesRise(win, sm, WindowStart(pts), |win|);
    var inv := Kept(win, sm, WindowStart(pts), |win|);
    if forall i, j :: 0 <= i < j < |inv| ==> inv[i].y <= inv[j].y {
      NoAccelerationNoForecast(sqrt, inv);
    }
  }

  lemma NonNegativeQuotient(a: real, d: real)
    requires a >= 0.0 && d > 0.0
    ensures a / d >= 0.0
  {
    assert a / d * d == a;
    Sign(a / d, d);
  }

  // ---------------------------------------------------------------- what a forecast means

  /**
    A forecast has a falling line that is still above zero now and reaches zero exactly `lead` hours from
    now, at most ten days away.  The upper end lies beyond the lead; the lower end is at most the lead
    exactly when the lead is at least one hour.
   */
  lemma ForecastMeaning(sqrt: real -> real, points: seq<Point>)
    requires IsSqrt(sqrt) && ForecastOf(sqrt, points).Some?
    ensures var f := ForecastOf(sqrt, points).value;
      && f.slope < 0.0 && f.intercept > 0.0
      && 0.0 < f.lead <= 240.0
      && Product(f.slope, 12.0 + f.lead) + f.intercept == 0.0 && Product(f.slope, 12.0) + f.intercept > 0.0
      && f.lead * 1.15 <= f.leadHigh <= f.lead * 1.45
      && (f.leadLow <= f.lead <==> f.lead >= 1.0)
  {
    hide Known, Since, Kept, Smoothed, Covariance, SquaredResidual, Fraction, Band, Lead, Slope, Intercept;
    var f := ForecastOf(sqrt, points).value;
    var xs, ys := Hours(f.inv), InverseVelocities(f.inv);
    var meanSquare := SquaredResidual(xs, ys, f.slope, f.intercept) / |f.inv| as real;
    ResidualSign(xs, ys, f.slope, f.intercept);
    NonNegativeQuotient(SquaredResidual(xs, ys, f.slope, f.intercept), |f.inv| as real);
    assert sqrt(meanSquare) >= 0.0;
    LeadMeaning(f.slope, f.intercept);
    FractionRange(sqrt(meanSquare), f.intercept);
    BandMeaning(f.lead, Fraction(sqrt(meanSquare), f.intercept));
  }

  lemma {:induction false} ResidualSign(xs: Vector, ys: Vector, a: real, b: real)
    requires |xs| == |ys|
    ensures SquaredResidual(xs, ys, a, b) >= 0.0
  {
    if xs != [] {
      var n := |xs| - 1;
      ResidualSign(xs[..n], ys[..n], a, b);
      SquareSign(ys[n] - (Product(a, xs[n]) + b));
      hide Product;
    }
  }

  lemma LeadMeaning(slope: real, intercept: real)
    requires slope < 0.0 && Lead(slope, intercept) > 0.0
    ensures intercept > 0.0
    ensures Product(slope, 12.0 + Lead(slope, intercept)) + intercept == 0.0
    ensures Product(slope, 12.0) + intercept > 0.0
  {
    var t := -intercept / slope;
    assert t * slope == -intercept;
    Positive(t, -slope);
    Positive(t - 12.0, -slope);
  }

  lemma FractionRange(rms: real, intercept: real)
    requires rms >= 0.0
    ensures 0.15 <= Fraction(rms, intercept) <= 0.45
  {
    NonNegativeQuotient(rms, if intercept == 0.0 then 1.0 else Abs(intercept));
  }

  lemma BandMeaning(lead: real, frac: real)
    requires lead > 0.0 && 0.15 <= frac <= 0.45
    ensures lead * 1.15 <= Band(lead, frac).1 <= lead * 1.45
    ensures Band(lead, frac).0 <= lead <==> lead >= 1.0
  {
    NonNegativeProduct(lead, frac - 0.15);
    NonNegativeProduct(lead, 0.45 - frac);
  }

  // ---------------------------------------------------------------- leads of less than an hour

  /** The points the fit of a series uses. */
  function Moving(points: seq<Point>): seq<Inverse> {
    var pts := Known(points);
    if pts == [] then []
    else
      var win := Since(pts, WindowStart(pts));
      Kept(win, Smoothed(Displacements(win), 3), WindowStart(pts), |win|)
  }

  /**
    Read off the moving points: the lower end is at most the lead exactly when the fitted line is still
    not below zero one hour from now, which the sums the fit uses tell before it is made.
   */
  lemma LowerEndExactly(sqrt: real -> real, points: seq<Point>)
    requires IsSqrt(sqrt) && ForecastOf(sqrt, points).Some?
    ensures
      var f := ForecastOf(sqrt, points).value;
      var xs, ys, n := Hours(Moving(points)), InverseVelocities(Moving(points)), |Moving(points)| as real;
      f.leadLow <= f.lead <==>
        Product(Covariance(xs, ys), 13.0 * n - Sum(xs)) + Product(Sum(ys), Covariance(xs, xs)) >= 0.0
  {
    hide Known, Since, Kept, Smoothed, Covariance, SquaredResidual, Fraction, Band;
    ForecastMeaning(sqrt, points);
    var f := ForecastOf(sqrt, points).value;
    assert f.inv == Moving(points);
    var xs, ys := Hours(f.inv), InverseVelocities(f.inv);
    DenominatorSign(xs);
    LeadOfAnHour(f.slope, f.intercept);
    OneHourAhead(Covariance(xs, ys), Covariance(xs, xs), Sum(xs), Sum(ys), |f.inv| as real, f.slope, f.intercept);
  }

  lemma LeadOfAnHour(slope: real, intercept: real)
    requires slope < 0.0
    ensures Lead(slope, intercept) >= 1.0 <==> Product(slope, 13.0) + intercept >= 0.0
  {
    var t := -intercept / slope;
    assert t * slope == -intercept;
    if t > 13.0 { Positive(t - 13.0, -slope); }
    if t < 13.0 { Positive(13.0 - t, -slope); }
  }

  lemma OneHourAhead(c: real, d: real, sx: real, sy: real, n: real, slope: real, intercept: real)
    requires d > 0.0 && n > 0.0 && slope == c / d && intercept == (sy - Product(slope, sx)) / n
    ensures Product(slope, 13.0) + intercept >= 0.0 <==> Product(c, 13.0 * n - sx) + Product(sy, d) >= 0.0
  {
    var ahead := slope * 13.0 + intercept;
    assert slope * d == c && intercept * n == sy - slope * sx;
    var scaled := ahead * n;
    assert scaled == slope * (13.0 * n - sx) + sy;
    assert scaled * d == (slope * d) * (13.0 * n - sx) + sy * d;
    assert scaled * d == c * (13.0 * n - sx) + sy * d;
    Sign(ahead, n);
    Sign(scaled, d);
  }

  /** Six readings two hours apart, still until the last. */
  const STEEP: seq<Reading> :=
    [Reading(2 * HOUR_MS, 0.0), Reading(4 * HOUR_MS, 0.0), Reading(6 * HOUR_MS, 3.0),
     Reading(8 * HOUR_MS, 3.0), Reading(10 * HOUR_MS, 3.0), Reading(12 * HOUR_MS, 33.0)]

  const STEEP_MM: Vector := [0.0, 0.0, 3.0, 3.0, 3.0, 33.0]

  const STEEP_SMOOTHED: Vector := [1.5, 1.8, 7.0, 7.0, 8.4, 10.5]

  const STEEP_KEPT: seq<Inverse> :=
    [Inverse(4.0, 5.0 / 18.0), Inverse(6.0, 5.0 / 312.0), Inverse(10.0, 5.0 / 84.0), Inverse(12.0, 5.0 / 126.0)]

  function AsPoints(readings: seq<Reading>): (p: seq<Point>)
    ensures |p| == |readings|
  {
    seq(|readings|, i requires 0 <= i < |readings| => Point(readings[i].ms, Some(readings[i].mm)))
  }

  lemma {:induction false} AllKnown(readings: seq<Reading>)
    ensures Known(AsPoints(readings)) == readings
  {
    if readings != [] {
      var n := |readings| - 1;
      AllKnown(readings[..n]);
      assert AsPoints(readings)[..n] == AsPoints(readings[..n]);
      assert readings == readings[..n] + [readings[n]];
    }
  }

  lemma {:induction false} AllSince(pts: seq<Reading>, start: int)
    requires forall i :: 0 <= i < |pts| ==> pts[i].ms >= start
    ensures Since(pts, start) == pts
  {
    if pts != [] {
      AllSince(pts[..|pts| - 1], start);
      assert pts == pts[..|pts| - 1] + [pts[|pts| - 1]];
    }
  }

  lemma SumOf4(v: Vector)
    requires |v| == 4
    ensures Sum(v) == v[0] + v[1] + v[2] + v[3]
  {
    hide Sum;
    SumEmpty();
    SumNext(v, 0);
    SumNext(v, 1);
    SumNext(v, 2);
    SumNext(v, 3);
    assert v[..0] == [] && v[..4] == v;
  }

  lemma SumOf5(v: Vector)
    requires |v| == 5
    ensures Sum(v) == v[0] + v[1] + v[2] + v[3] + v[4]
  {
    hide Sum;
    SumOf4(v[..4]);
    SumNext(v, 4);
    assert v[..5] == v;
  }

  lemma SumOf6(v: Vector)
    requires |v| == 6
    ensures Sum(v) == v[0] + v[1] + v[2] + v[3] + v[4] + v[5]
  {
    hide Sum;
    SumOf5(v[..5]);
    SumNext(v, 5);
    assert v[..6] == v;
  }

  lemma SteepSmoothed()
    ensures Smoothed(STEEP_MM, 3) == STEEP_SMOOTHED
  {
    hide Sum;
    var v := STEEP_MM;
    SumOf4(v[0..4]);
    SumOf5(v[0..5]);
    SumOf6(v[0..6]);
    SumOf5(v[1..6]);
    SumOf4(v[2..6]);
  }

  lemma SteepKept()
    ensures Kept(STEEP, STEEP_SMOOTHED, 0, 6) == STEEP_KEPT
  {
    var k := STEEP_KEPT;
    assert Kept(STEEP, STEEP_SMOOTHED, 0, 1) == [];
    KeptNext(1, k[0]);
    KeptNext(2, k[1]);
    StillStep();
    KeptNext(4, k[2]);
    KeptNext(5, k[3]);
    assert [] + [k[0]] + [k[1]] + [k[2]] + [k[3]] == k;
  }

  lemma KeptNext(i: nat, entry: Inverse)
    requires i in {1, 2, 4, 5} && entry == STEEP_KEPT[if i < 3 then i - 1 else i - 2]
    ensures Kept(STEEP, STEEP_SMOOTHED, 0, i + 1) == Kept(STEEP, STEEP_SMOOTHED, 0, i) + [entry]
  {
    var days := DaysBetween(STEEP, i);
    assert days == 1.0 / 12.0;
    var v := Velocity(STEEP, STEEP_SMOOTHED, i);
    assert v == (STEEP_SMOOTHED[i] - STEEP_SMOOTHED[i - 1]) * 12.0;
    assert entry == InverseAt(STEEP, STEEP_SMOOTHED, 0, i);
  }

  lemma StillStep()
    ensures Kept(STEEP, STEEP_SMOOTHED, 0, 4) == Kept(STEEP, STEEP_SMOOTHED, 0, 3)
  {
    assert DaysBetween(STEEP, 3) == 1.0 / 12.0;
    assert Velocity(STEEP, STEEP_SMOOTHED, 3) == 0.0;
  }

  lemma InnerOf4(xs: Vector, ys: Vector)
    requires |xs| == |ys| == 4
    ensures Inner(xs, ys) == xs[0] * ys[0] + xs[1] * ys[1] + xs[2] * ys[2] + xs[3] * ys[3]
  {
    assert Inner(xs[..3], ys[..3]) == Inner(xs[..2], ys[..2]) + Product(xs[2], ys[2]) by {
      assert xs[..3][..2] == xs[..2] && ys[..3][..2] == ys[..2];
    }
    assert Inner(xs[..2], ys[..2]) == Product(xs[0], ys[0]) + Product(xs[1], ys[1]) by {
      assert xs[..2][..1] == xs[..1] && ys[..2][..1] == ys[..1];
      assert xs[..1][..0] == [] && ys[..1][..0] == [];
      assert Inner(xs[..1], ys[..1]) == Inner([], []) + Product(xs[0], ys[0]);
    }
    assert Inner(xs, ys) == Inner(xs[..3], ys[..3]) + Product(xs[3], ys[3]);
  }

  /** The line through those kept points reaches zero 307/567 of an hour from now. */
  lemma SteepFit(sqrt: real -> real)
    ensures Fit(sqrt, STEEP_KEPT).Some? && Fit(sqrt, STEEP_KEPT).value.lead == 307.0 / 567.0
  {
    var xs, ys := Hours(STEEP_KEPT), InverseVelocities(STEEP_KEPT);
    SumOf4(xs);
    SumOf4(ys);
    InnerOf4(xs, xs);
    InnerOf4(xs, ys);
    assert Covariance(xs, xs) == 160.0;
    assert Covariance(xs, ys) == -45.0 / 13.0;
    assert Slope(xs, ys) == -9.0 / 416.0;
    assert Intercept(xs, ys) == 547.0 / 2016.0;
    hide Slope, Intercept, Covariance, Inner, Sum, SquaredResidual;
    assert Lead(-9.0 / 416.0, 547.0 / 2016.0) == 307.0 / 567.0;
  }

  /** For these readings a forecast is made whose lower end lies after its lead. */
  lemma ShortLeadExists(sqrt: real -> real)
    requires IsSqrt(sqrt)
    ensures var r := ForecastOf(sqrt, AsPoints(STEEP));
      r.Some? && r.value.lead < 1.0 && r.value.leadLow > r.value.lead
  {
    AllKnown(STEEP);
    AllSince(STEEP, 0);
    assert Displacements(STEEP) == STEEP_MM;
    SteepSmoothed();
    SteepKept();
    SteepFit(sqrt);
    hide Fit, Kept, Smoothed;
    assert ForecastOf(sqrt, AsPoints(STEEP)) == Fit(sqrt, STEEP_KEPT);
    ForecastMeaning(sqrt, AsPoints(STEEP));
  }
}
