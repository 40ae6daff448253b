/**
  What a failure forecast is made of, read off the points: which readings count, what is smoothed, which
  steps move, which line is fitted, when a forecast is made, and how wide its band is.
 */
module ForecastExact {
  import opened Prelude
  import opened RealSums
  import opened FailureForecast

  // ---------------------------------------------------------------- the readings that count

  lemma {:induction false} KnownExactly(points: seq<Point>, r: Reading)
    ensures r in Known(points) <==> Point(r.ms, Some(r.mm)) in points
  {
    if points != [] {
      var n := |points| - 1;
      KnownExactly(points[..n], r);
      assert points == points[..n] + [points[n]];
    }
  }

  lemma {:induction false} SinceExactly(pts: seq<Reading>, start: int, r: Reading)
    ensures r in Since(pts, start) <==> r in pts && r.ms >= start
  {
    if pts != [] {
      var n := |pts| - 1;
      SinceExactly(pts[..n], start, r);
      assert pts == pts[..n] + [pts[n]];
    }
  }

  /** The known readings of the twelve hours before the last known one. */
  function Recent(points: seq<Point>): seq<Reading> {
    var pts := Known(points);
    if pts == [] then [] else Since(pts, WindowStart(pts))
  }

  lemma RecentExactly(points: seq<Point>, r: Reading)
    ensures r in Recent(points) <==>
      Known(points) != [] && Point(r.ms, Some(r.mm)) in points
      && r.ms >= Known(points)[|Known(points)| - 1].ms - 43_200_000
  {
    hide Known, Since;
    KnownExactly(points, r);
    if Known(points) != [] {
      SinceExactly(Known(points), WindowStart(Known(points)), r);
    }
  }

  /** Each value becomes the mean of itself and of up to three neighbours on either side. */
  lemma SmoothedExactly(v: Vector, i: nat)
    requires i < |v|
    ensures var low := if i < 3 then 0 else i - 3;
      var high := if i + 4 < |v| then i + 4 else |v|;
      low < high <= |v| && Smoothed(v, 3)[i] * (high - low) as real == Sum(v[low..high])
  {
    var low, high := Low(i, 3), High(|v|, i, 3);
    MeanOf(v[low..high]);
  }

  lemma MeanOf(v: Vector)
    requires v != []
    ensures Mean(v) * |v| as real == Sum(v)
  {
  }

  // ---------------------------------------------------------------- the steps that move

  /** The step to reading `i`, later than the one before, rises by more than 0.05 mm a day, and `p` is it. */
  predicate Rises(win: seq<Reading>, sm: Vector, start: int, i: nat, p: Inverse)
    requires |win| == |sm|
  {
    && 0 < i < |win| && win[i].ms > win[i - 1].ms
    && var days := (win[i].ms - win[i - 1].ms) as real / 86_400_000.0;
      && sm[i] - sm[i - 1] > 0.05 * days
      && p.y * (sm[i] - sm[i - 1]) == days
      && p.hours * 3_600_000.0 == (win[i].ms - start) as real
  }

  lemma MovesExactly(win: seq<Reading>, sm: Vector, start: int, i: nat, p: Inverse)
    requires |win| == |sm| && 0 < i < |win|
    ensures Rises(win, sm, start, i, p) <==> Moves(win, sm, i) && p == InverseAt(win, sm, start, i)
  {
    var days, rise := DaysBetween(win, i), sm[i] - sm[i - 1];
    if days > 0.0 {
      RateAbove(rise, days);
      if Moves(win, sm, i) {
        InverseRate(rise, days, p.y);
        assert HoursAt(win, start, i) * 3_600_000.0 == (win[i].ms - start) as real;
      }
    }
  }

  lemma RateAbove(rise: real, days: real)
    requires days > 0.0
    ensures rise / days > 0.05 <==> rise > 0.05 * days
  {
    var rate := rise / days;
    assert rate * days == rise;
    if rate > 0.05 { Positive(rate - 0.05, days); }
    if rate < 0.05 { Positive(0.05 - rate, days); }
  }

  lemma InverseRate(rise: real, days: real, y: real)
    requires days > 0.0 && rise > 0.05 * days
    ensures rise / days > 0.0 && (y == 1.0 / (rise / days) <==> y * rise == days)
  {
    RateAbove(rise, days);
    var rate := rise / days;
    assert rate * days == rise;
    var inverse := 1.0 / rate;
    assert inverse * rate == 1.0;
    assert inverse * rise == days by { Regroup(inverse, rate, days); }
    if y * rise == days {
      assert (y - inverse) * rise == 0.0;
      assert y == inverse by {
        if y > inverse { Positive(y - inverse, rise); }
        if y < inverse { Positive(inverse - y, rise); }
      }
    }
  }

  lemma Regroup(inverse: real, rate: real, days: real)
    requires inverse * rate == 1.0
    ensures inverse * (rate * days) == days
  {
    assert inverse * (rate * days) == inverse * rate * days;
  }

  lemma {:induction false} KeptExactly(win: seq<Reading>, sm: Vector, start: int, n: nat, p: Inverse)
    requires |win| == |sm| && n <= |win|
    ensures p in Kept(win, sm, start, n) <==> exists i :: 0 < i < n && Rises(win, sm, start, i, p)
  {
    if n > 1 {
      KeptExactly(win, sm, start, n - 1, p);
      MovesExactly(win, sm, start, n - 1, p);
      hide Moves, Rises;
    }
  }

  /** The points that are fitted are exactly the rising steps of the smoothed recent readings. */
  lemma MovingExactly(points: seq<Point>, p: Inverse)
    requires Known(points) != []
    ensures p in Moving(points) <==>
      var win, start := Recent(points), Known(points)[|Known(points)| - 1].ms - 43_200_000;
      var sm := Smoothed(Displacements(win), 3);
      exists i :: 0 < i < |win| && Rises(win, sm, start, i, p)
  {
    hide Known, Since, Kept, Smoothed, Rises;
    var win, start := Recent(points), WindowStart(Known(points));
    var sm := Smoothed(Displacements(win), 3);
    assert start == Known(points)[|Known(points)| - 1].ms - 43_200_000;
    assert Moving(points) == Kept(win, sm, start, |win|);
    KeptExactly(win, sm, start, |win|, p);
  }

  // ---------------------------------------------------------------- the line

  /** How far each point lies above the line. */
  function Errors(xs: Vector, ys: Vector, a: real, b: real): (e: Vector)
    requires |xs| == |ys|
    ensures |e| == |xs| && forall i :: 0 <= i < |xs| ==> e[i] == ys[i] - (a * xs[i] + b)
  {
    seq(|xs|, i requires 0 <= i < |xs| => ys[i] - (a * xs[i] + b))
  }

  /** A line whose errors sum to zero, also when weighted with the hours: the least-squares line. */
  ghost predicate IsLine(inv: seq<Inverse>, a: real, b: real) {
    var xs, ys := Hours(inv), InverseVelocities(inv);
    Sum(Errors(xs, ys, a, b)) == 0.0 && Inner(xs, Errors(xs, ys, a, b)) == 0.0
  }

  lemma {:induction false} ErrorSums(xs: Vector, ys: Vector, a: real, b: real)
    requires |xs| == |ys|
    ensures Sum(Errors(xs, ys, a, b)) == Residuals(xs, ys, a, b)
    ensures Inner(xs, Errors(xs, ys, a, b)) == WeightedResiduals(xs, ys, a, b)
    ensures Inner(Errors(xs, ys, a, b), Errors(xs, ys, a, b)) == SquaredResidual(xs, ys, a, b)
  {
    if xs == [] {
      NoErrors(a, b);
    } else {
      var n := |xs| - 1;
      var e := Errors(xs, ys, a, b);
      PrefixErrors(xs, ys, a, b);
      ErrorSums(xs[..n], ys[..n], a, b);
      SumsStep(xs, ys, a, b);
      OneError(xs[n], ys[n], a, b);
      hide Product;
    }
  }

  lemma PrefixErrors(xs: Vector, ys: Vector, a: real, b: real)
    requires |xs| == |ys| > 0
    ensures var n := |xs| - 1; Errors(xs, ys, a, b)[..n] == Errors(xs[..n], ys[..n], a, b)
  {
    var n := |xs| - 1;
    var e, f := Errors(xs, ys, a, b), Errors(xs[..n], ys[..n], a, b);
    forall i | 0 <= i < n ensures e[..n][i] == f[i] {
      assert xs[..n][i] == xs[i] && ys[..n][i] == ys[i];
    }
  }

  lemma NoErrors(a: real, b: real)
    ensures Residuals([], [], a, b) == 0.0 && WeightedResiduals([], [], a, b) == 0.0
  {
    ProductZero(a, b);
    ProductZero(b, a);
  }

  lemma OneError(x: real, y: real, a: real, b: real)
    ensures Product(x, y - (a * x + b)) == Product(x, y) - Product(a, Product(x, x)) - Product(b, x)
    ensures y - (a * x + b) == y - (Product(a, x) + b)
  {
    assert x * (y - (a * x + b)) == x * y - x * (a * x) - x * b;
    assert x * (a * x) == a * (x * x);
  }

  /** There is only one such line unless all hours are equal, and it is the fitted one. */
  lemma LineIsFitted(inv: seq<Inverse>, a: real, b: real)
    requires inv != [] && IsLine(inv, a, b) && !AllEqual(Hours(inv))
    ensures var xs, ys := Hours(inv), InverseVelocities(inv);
      Covariance(xs, xs) > 0.0 && Slope(xs, ys) == a && Intercept(xs, ys) == b
  {
    var xs, ys := Hours(inv), InverseVelocities(inv);
    ErrorSums(xs, ys, a, b);
    DenominatorSign(xs);
    hide Sum, Inner, Errors, Product;
    OneSolution(|xs| as real, Sum(xs), Sum(ys), Inner(xs, xs), Inner(xs, ys), a, b);
    Divides(Covariance(xs, ys), Covariance(xs, xs), a);
    Divides(Sum(ys) - Product(a, Sum(xs)), |xs| as real, b);
  }

  lemma OneSolution(n: real, sx: real, sy: real, sxx: real, sxy: real, a: real, b: real)
    requires sy - Product(a, sx) - Product(n, b) == 0.0 && sxy - Product(a, sxx) - Product(b, sx) == 0.0
    ensures Product(n, sxy) - Product(sx, sy) == Product(a, Product(n, sxx) - Product(sx, sx))
    ensures sy - Product(a, sx) == Product(b, n)
  {
    assert n * sxy == n * (a * sxx) + n * (b * sx);
    assert sx * sy == sx * (a * sx) + sx * (n * b);
    assert n * (a * sxx) == a * (n * sxx) && sx * (a * sx) == a * (sx * sx) && n * (b * sx) == sx * (n * b);
  }

  lemma Divides(p: real, d: real, q: real)
    requires d > 0.0 && p == Product(q, d)
    ensures p / d == q
  {
  }

  // ---------------------------------------------------------------- when there is a forecast, and its band

  /** The root of the mean squared error of the line. */
  ghost predicate IsRms(inv: seq<Inverse>, a: real, b: real, rms: real) {
    var e := Errors(Hours(inv), InverseVelocities(inv), a, b);
    rms >= 0.0 && rms * rms * |inv| as real == Inner(e, e)
  }

  /** Half the width of the band: fifteen percent and the error in units of the intercept, at most forty-five. */
  ghost predicate IsWidth(inv: seq<Inverse>, a: real, b: real, q: real) {
    b != 0.0
    && exists rms: real :: IsRms(inv, a, b, rms) && q == if 0.15 + rms / b < 0.45 then 0.15 + rms / b else 0.45
  }

  /** What a forecast says, given its line. */
  ghost predicate Says(f: Forecast, inv: seq<Inverse>, a: real, b: real) {
    && f.inv == inv && f.slope == a && f.intercept == b
    && a * (f.lead + 12.0) + b == 0.0
    && (exists q :: IsWidth(inv, a, b, q) && f.leadHigh == f.lead * (1.0 + q)
          && f.leadLow == if f.lead * (1.0 - q) > 1.0 then f.lead * (1.0 - q) else 1.0)
    && (forall p :: p in inv ==> p.y * 1.12 <= f.invMax) && (exists p :: p in inv && p.y * 1.12 == f.invMax)
  }

  /**
    A forecast is made exactly from six known readings on, with five of them recent and four steps rising, if
    the line through those falls and reaches zero after, and at most ten days after, the last reading.
   */
  lemma ForecastExactly(sqrt: real -> real, points: seq<Point>, a: real, b: real)
    requires IsSqrt(sqrt) && Moving(points) != [] && IsLine(Moving(points), a, b)
    requires !AllEqual(Hours(Moving(points)))
    ensures ForecastOf(sqrt, points).Some? <==>
      |Known(points)| >= 6 && |Recent(points)| >= 5 && |Moving(points)| >= 4
      && a < 0.0 && a * 12.0 + b > 0.0 && a * 252.0 + b <= 0.0
    ensures ForecastOf(sqrt, points).Some? ==> Says(ForecastOf(sqrt, points).value, Moving(points), a, b)
  {
    var inv := Moving(points);
    LineIsFitted(inv, a, b);
    assert ForecastOf(sqrt, points) ==
           if |Known(points)| < 6 || |Recent(points)| < 5 then None else Fit(sqrt, inv);
    hide ForecastOf, Moving, Known, Recent;
    FitExactly(sqrt, inv, a, b);
  }

  lemma FitExactly(sqrt: real -> real, inv: seq<Inverse>, a: real, b: real)
    requires IsSqrt(sqrt) && inv != []
    requires var xs, ys := Hours(inv), InverseVelocities(inv);
      Covariance(xs, xs) > 0.0 && Slope(xs, ys) == a && Intercept(xs, ys) == b
    ensures Fit(sqrt, inv).Some? <==> |inv| >= 4 && a < 0.0 && a * 12.0 + b > 0.0 && a * 252.0 + b <= 0.0
    ensures Fit(sqrt, inv).Some? ==> Says(Fit(sqrt, inv).value, inv, a, b)
  {
    hide Slope, Intercept, Covariance, IsSqrt, MaxOf, Fraction;
    if a < 0.0 {
      LeadIs(a, b);
      if Fit(sqrt, inv).Some? {
        FitSays(sqrt, inv, a, b);
      }
    }
  }

  lemma LeadIs(a: real, b: real)
    requires a < 0.0
    ensures a * (Lead(a, b) + 12.0) + b == 0.0
    ensures Lead(a, b) > 0.0 <==> a * 12.0 + b > 0.0
    ensures Lead(a, b) <= 240.0 <==> a * 252.0 + b <= 0.0
  {
    var zero := -b / a;
    assert zero * a == -b;
    assert Lead(a, b) + 12.0 == zero;
    BelowZero(a, b, zero, 12.0);
    BelowZero(a, b, zero, 252.0);
  }

  /** A falling line is above zero exactly before it reaches zero. */
  lemma BelowZero(a: real, b: real, zero: real, x: real)
    requires a < 0.0 && zero * a == -b
    ensures x < zero <==> a * x + b > 0.0
    ensures x == zero <==> a * x + b == 0.0
  {
    assert a * x + b == (zero - x) * -a;
    Sign(zero - x, -a);
  }

  lemma FitSays(sqrt: real -> real, inv: seq<Inverse>, a: real, b: real)
    requires IsSqrt(sqrt) && inv != [] && a < 0.0
    requires var xs, ys := Hours(inv), InverseVelocities(inv);
      Covariance(xs, xs) > 0.0 && Slope(xs, ys) == a && Intercept(xs, ys) == b
    requires Fit(sqrt, inv).Some?
    ensures Says(Fit(sqrt, inv).value, inv, a, b)
  {
    hide IsSqrt, MaxOf, IsWidth, Fraction, Band, Lead, SquaredResidual, Slope, Intercept, Covariance;
    var f := Fit(sqrt, inv).value;
    var xs, ys := Hours(inv), InverseVelocities(inv);
    LeadIs(a, b);
    InterceptPositive(a, f.lead, b);
    var rms := sqrt(SquaredResidual(xs, ys, a, b) / |inv| as real);
    RootMeanSquare(sqrt, inv, a, b);
    WidthIs(inv, a, b, rms);
    MaxIsMax(ys);
    LargestInverse(inv, MaxOf(ys));
    BandIs(f.lead, Fraction(rms, b));
  }

  lemma InterceptPositive(a: real, lead: real, b: real)
    requires a < 0.0 && lead > 0.0 && a * (lead + 12.0) + b == 0.0
    ensures b > 0.0
  {
    Positive(lead + 12.0, -a);
  }

  lemma RootMeanSquare(sqrt: real -> real, inv: seq<Inverse>, a: real, b: real)
    requires IsSqrt(sqrt) && inv != []
    ensures IsRms(inv, a, b, sqrt(SquaredResidual(Hours(inv), InverseVelocities(inv), a, b) / |inv| as real))
  {
    hide IsSqrt, SquaredResidual, Inner;
    var xs, ys, n := Hours(inv), InverseVelocities(inv), |inv| as real;
    var square := SquaredResidual(xs, ys, a, b);
    ResidualSign(xs, ys, a, b);
    ErrorSums(xs, ys, a, b);
    RootOfMean(sqrt, square, n);
  }

  lemma RootOfMean(sqrt: real -> real, square: real, n: real)
    requires IsSqrt(sqrt) && square >= 0.0 && n > 0.0
    ensures sqrt(square / n) >= 0.0 && sqrt(square / n) * sqrt(square / n) * n == square
  {
    NonNegativeQuotient(square, n);
    var mean := square / n;
    var root := sqrt(mean);
    assert root >= 0.0 && root * root == mean;
    hide IsSqrt;
    assert mean * n == square;
    Substitute(root, mean, n);
  }

  lemma Substitute(root: real, mean: real, n: real)
    requires root * root == mean
    ensures root * root * n == mean * n
  {
  }

  lemma WidthIs(inv: seq<Inverse>, a: real, b: real, rms: real)
    requires b > 0.0 && IsRms(inv, a, b, rms)
    ensures IsWidth(inv, a, b, Fraction(rms, b))
  {
    hide IsRms;
  }

  lemma BandIs(lead: real, q: real)
    ensures Band(lead, q).1 == lead * (1.0 + q)
    ensures Band(lead, q).0 == if lead * (1.0 - q) > 1.0 then lead * (1.0 - q) else 1.0
  {
  }

  lemma LargestInverse(inv: seq<Inverse>, top: real)
    requires top in InverseVelocities(inv)
    requires forall i :: 0 <= i < |inv| ==> InverseVelocities(inv)[i] <= top
    ensures (forall p :: p in inv ==> p.y * 1.12 <= top * 1.12) && exists p :: p in inv && p.y * 1.12 == top * 1.12
  {
    var k :| 0 <= k < |inv| && InverseVelocities(inv)[k] == top;
    assert inv[k] in inv && inv[k].y == top;
  }

  /** Without four rising steps, or with all of them at one time, there is none. */
  lemma NoLineNoForecast(sqrt: real -> real, points: seq<Point>)
    requires |Moving(points)| < 4 || AllEqual(Hours(Moving(points)))
    ensures ForecastOf(sqrt, points) == None
  {
    DenominatorSign(Hours(Moving(points)));
    hide Covariance;
  }
}
