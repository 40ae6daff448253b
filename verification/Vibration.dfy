/**
  Vibration metrics of one accelerometer window: the quality gate, detrending, peak acceleration, and
  peak velocity by the trapezoid rule.  Floats are reals; the square root and the median are parameters.
 */
module Vibration {
  import opened Prelude
  import opened RealSums

  datatype Vec3 = Vec3(x: real, y: real, z: real)

  datatype Sample = Sample(index: int, micros: int, adxl355: Vec3, mpu9250: Vec3)

  datatype Reason =
    | EmptyWindow
    | DuplicateSampleIndex
    | SampleIndexNotStrictlyIncreasing
    | TimestampNotStrictlyIncreasing
    | TooFewSamples
    | SampleRateOutsideNominalTolerance
    | LargeSamplingGap

  datatype Status = Accepted | Degraded | Rejected

  datatype Quality = Quality(
    sampleCount: nat,
    durationMs: real,
    observedRateHz: Option<real>,
    medianGapMs: Option<real>,
    maxGapMs: Option<real>,
    status: Status,
    reasons: seq<Reason>)

  datatype Gate = Gate(expectedRateHz: real, rateTolerance: real, maxGapFactor: real, minSamples: nat)

  datatype Metrics = Metrics(ppaG: real, ppvMmS: real, sampleCount: nat)

  const GRAVITY := 9.80665

  function Seconds(micros: int): real {
    micros as real / 1000000.0
  }

  // ---------------------------------------------------------------- the quality gate

  ghost predicate StrictlyOrdered(samples: seq<Sample>) {
    forall i, j :: 0 <= i < j < |samples| ==>
      samples[i].index < samples[j].index && samples[i].micros < samples[j].micros
  }

  predicate IndexDrops(samples: seq<Sample>) {
    exists i :: 1 <= i < |samples| && samples[i].index <= samples[i - 1].index
  }

  predicate TimeDrops(samples: seq<Sample>) {
    exists i :: 1 <= i < |samples| && samples[i].micros <= samples[i - 1].micros
  }

  /** The positive steps between consecutive times, in seconds. */
  function PositiveSteps(samples: seq<Sample>): seq<real> {
    if |samples| < 2 then []
    else
      var last := |samples| - 1;
      var dt := Seconds(samples[last].micros) - Seconds(samples[last - 1].micros);
      PositiveSteps(samples[..last]) + (if dt > 0.0 then [dt] else [])
  }

  function DurationMs(samples: seq<Sample>): real {
    if |samples| < 2 then 0.0
    else
      var span := Seconds(samples[|samples| - 1].micros) - Seconds(samples[0].micros);
      (if span > 0.0 then span else 0.0) * 1000.0
  }

  lemma {:induction false} NeighboursOrder(samples: seq<Sample>, i: nat, j: nat)
    requires !IndexDrops(samples) && !TimeDrops(samples) && i < j < |samples|
    ensures samples[i].index < samples[j].index && samples[i].micros < samples[j].micros
    decreases j - i
  {
    assert samples[j].index > samples[j - 1].index && samples[j].micros > samples[j - 1].micros;
    if i < j - 1 {
      NeighboursOrder(samples, i, j - 1);
    }
  }

  lemma OrderedIffNoDrop(samples: seq<Sample>)
    ensures StrictlyOrdered(samples) <==> !IndexDrops(samples) && !TimeDrops(samples)
    ensures StrictlyOrdered(samples) ==> DistinctIndices(samples)
  {
    if !IndexDrops(samples) && !TimeDrops(samples) {
      forall i, j | 0 <= i < j < |samples|
        ensures samples[i].index < samples[j].index && samples[i].micros < samples[j].micros
      {
        NeighboursOrder(samples, i, j);
      }
    }
  }

  function Indices(samples: seq<Sample>): set<int> {
    set s | s in samples :: s.index
  }

  ghost predicate DistinctIndices(samples: seq<Sample>) {
    forall i, j :: 0 <= i < j < |samples| ==> samples[i].index != samples[j].index
  }

  lemma IndexRepeats(samples: seq<Sample>, x: int)
    ensures x in Indices(samples) <==> exists i :: 0 <= i < |samples| && samples[i].index == x
  {
    if x in Indices(samples) {
      var s :| s in samples && s.index == x;
      var i :| 0 <= i < |samples| && samples[i] == s;
    }
  }

  /** As many indices as samples exactly when no index repeats. */
  lemma {:induction false} IndexCount(samples: seq<Sample>)
    ensures |Indices(samples)| <= |samples|
    ensures |Indices(samples)| == |samples| <==> DistinctIndices(samples)
  {
    if samples == [] {
      assert Indices(samples) == {};
    } else {
      var last := |samples| - 1;
      var rest, x := samples[..last], samples[last].index;
      IndexCount(rest);
      IndexRepeats(rest, x);
      assert samples == rest + [samples[last]];
      assert Indices(samples) == Indices(rest) + {x};
      DistinctStep(samples, rest, x);
    }
  }

  lemma DistinctStep(samples: seq<Sample>, rest: seq<Sample>, x: int)
    requires samples != [] && rest == samples[..|samples| - 1] && x == samples[|samples| - 1].index
    ensures DistinctIndices(samples) <==> DistinctIndices(rest) && forall i :: 0 <= i < |rest| ==> rest[i].index != x
  {
  }

  predicate RateOutside(median: seq<real> -> real, gate: Gate, steps: seq<real>) {
    steps != [] && median(steps) > 0.0
    && !(gate.expectedRateHz * (1.0 - gate.rateTolerance) <= 1.0 / median(steps)
         <= gate.expectedRateHz * (1.0 + gate.rateTolerance))
  }

  predicate GapTooLarge(median: seq<real> -> real, gate: Gate, steps: seq<real>) {
    steps != [] && median(steps) != 0.0 && MaxOf(steps) != 0.0
    && MaxOf(steps) > median(steps) * gate.maxGapFactor
  }

  /**
    What the gate reports of the gaps: nothing unless some step is positive, else the median, a gap that
    occurs and that no other exceeds, and the rate whose period is the median.
   */
  ghost predicate GapsReported(median: seq<real> -> real, steps: seq<real>, q: Quality) {
    && (q.medianGapMs.Some? <==> steps != []) && (q.maxGapMs.Some? <==> steps != [])
    && (q.observedRateHz.Some? <==> steps != [] && median(steps) > 0.0)
    && (q.medianGapMs.Some? ==> q.medianGapMs.value == median(steps) * 1000.0)
    && (q.observedRateHz.Some? ==> q.observedRateHz.value * median(steps) == 1.0)
    && (q.maxGapMs.Some? ==> q.maxGapMs.value / 1000.0 in steps
                             && forall x <- steps :: x <= q.maxGapMs.value / 1000.0)
  }

  /** Which reasons a non-empty window collects. */
  ghost predicate Applies(median: seq<real> -> real, gate: Gate, samples: seq<Sample>, reason: Reason) {
    var steps := PositiveSteps(samples);
    match reason
    case EmptyWindow => false
    case DuplicateSampleIndex => !DistinctIndices(samples)
    case SampleIndexNotStrictlyIncreasing => IndexDrops(samples)
    case TimestampNotStrictlyIncreasing => TimeDrops(samples)
    case TooFewSamples => |samples| < gate.minSamples
    case SampleRateOutsideNominalTolerance => RateOutside(median, gate, steps)
    case LargeSamplingGap => GapTooLarge(median, gate, steps)
  }

  function AppendIf(reasons: seq<Reason>, applies: bool, reason: Reason): seq<Reason> {
    if applies then reasons + [reason] else reasons
  }

  lemma AppendIfMember(reasons: seq<Reason>, applies: bool, reason: Reason, x: Reason)
    ensures x in AppendIf(reasons, applies, reason) <==> x in reasons || (applies && x == reason)
  {
  }

  /** The reasons of a non-empty window, in the order they are appended. */
  ghost function Reasons(median: seq<real> -> real, gate: Gate, samples: seq<Sample>): seq<Reason> {
    var steps := PositiveSteps(samples);
    var r1 := AppendIf([], !DistinctIndices(samples), DuplicateSampleIndex);
    var r2 := AppendIf(r1, IndexDrops(samples), SampleIndexNotStrictlyIncreasing);
    var r3 := AppendIf(r2, TimeDrops(samples), TimestampNotStrictlyIncreasing);
    var r4 := AppendIf(r3, |samples| < gate.minSamples, TooFewSamples);
    var r5 := AppendIf(r4, RateOutside(median, gate, steps), SampleRateOutsideNominalTolerance);
    AppendIf(r5, GapTooLarge(median, gate, steps), LargeSamplingGap)
  }

  lemma ReasonsExactly(median: seq<real> -> real, gate: Gate, samples: seq<Sample>, x: Reason)
    ensures x in Reasons(median, gate, samples) <==> Applies(median, gate, samples, x)
  {
    hide AppendIf, IndexDrops, TimeDrops, DistinctIndices, RateOutside, GapTooLarge, PositiveSteps;
    var steps := PositiveSteps(samples);
    var r1 := AppendIf([], !DistinctIndices(samples), DuplicateSampleIndex);
    var r2 := AppendIf(r1, IndexDrops(samples), SampleIndexNotStrictlyIncreasing);
    var r3 := AppendIf(r2, TimeDrops(samples), TimestampNotStrictlyIncreasing);
    var r4 := AppendIf(r3, |samples| < gate.minSamples, TooFewSamples);
    var r5 := AppendIf(r4, RateOutside(median, gate, steps), SampleRateOutsideNominalTolerance);
    AppendIfMember([], !DistinctIndices(samples), DuplicateSampleIndex, x);
    AppendIfMember(r1, IndexDrops(samples), SampleIndexNotStrictlyIncreasing, x);
    AppendIfMember(r2, TimeDrops(samples), TimestampNotStrictlyIncreasing, x);
    AppendIfMember(r3, |samples| < gate.minSamples, TooFewSamples, x);
    AppendIfMember(r4, RateOutside(median, gate, steps), SampleRateOutsideNominalTolerance, x);
    AppendIfMember(r5, GapTooLarge(median, gate, steps), LargeSamplingGap, x);
  }

  function StatusOf(reasons: seq<Reason>): Status {
    if EmptyWindow in reasons || DuplicateSampleIndex in reasons || SampleIndexNotStrictlyIncreasing in reasons
       || TimestampNotStrictlyIncreasing in reasons then Rejected
    else if reasons != [] then Degraded
    else Accepted
  }

  /**
    The gate.  A window is rejected exactly when it is empty or its indices or times are not strictly
    increasing, and accepted exactly when no reason applies.
   */
  method AnalyzeAccelWindow(median: seq<real> -> real, gate: Gate, samples: seq<Sample>) returns (q: Quality)
    ensures q.status == Rejected <==> samples == [] || !StrictlyOrdered(samples)
    ensures samples != [] ==> forall r :: r in q.reasons <==> Applies(median, gate, samples, r)
    ensures q.status == Accepted <==> q.reasons == []
    ensures samples == [] ==> q.reasons == [EmptyWindow]
    ensures q.durationMs == DurationMs(samples) && q.sampleCount == |samples|
    ensures GapsReported(median, PositiveSteps(samples), q)
  {
    if samples == [] {
      q := Quality(0, 0.0, None, None, None, Rejected, [EmptyWindow]);
      ReportsGaps(median, [], q);
      return;
    }
    hide IndexDrops, TimeDrops, DistinctIndices, StrictlyOrdered, Indices, DurationMs, PositiveSteps, MaxOf;
    hide RateOutside, GapTooLarge, GapsReported;
    var reasons: seq<Reason> := [];
    IndexCount(samples);
    if |Indices(samples)| != |samples| {
      reasons := reasons + [DuplicateSampleIndex];
    }
    if IndexDrops(samples) {
      reasons := reasons + [SampleIndexNotStrictlyIncreasing];
    }
    if TimeDrops(samples) {
      reasons := reasons + [TimestampNotStrictlyIncreasing];
    }
    var steps := PositiveSteps(samples);
    if |samples| < gate.minSamples {
      reasons := reasons + [TooFewSamples];
    }
    if RateOutside(median, gate, steps) {
      reasons := reasons + [SampleRateOutsideNominalTolerance];
    }
    if GapTooLarge(median, gate, steps) {
      reasons := reasons + [LargeSamplingGap];
    }
    assert reasons == Reasons(median, gate, samples);
    hide Reasons;
    StatusByReasons(median, gate, samples, reasons);
    var rate := if steps != [] && median(steps) > 0.0 then Some(1.0 / median(steps)) else None;
    var medianMs := if steps != [] then Some(median(steps) * 1000.0) else None;
    var maxMs := if steps != [] then Some(MaxOf(steps) * 1000.0) else None;
    q := Quality(|samples|, DurationMs(samples), rate, medianMs, maxMs, StatusOf(reasons), reasons);
    ReportsGaps(median, steps, q);
  }

  lemma ReportsGaps(median: seq<real> -> real, steps: seq<real>, q: Quality)
    requires q.observedRateHz == if steps != [] && median(steps) > 0.0 then Some(1.0 / median(steps)) else None
    requires q.medianGapMs == if steps != [] then Some(median(steps) * 1000.0) else None
    requires q.maxGapMs == if steps != [] then Some(MaxOf(steps) * 1000.0) else None
    ensures GapsReported(median, steps, q)
  {
    if steps != [] {
      MaxIsMax(steps);
      assert MaxOf(steps) * 1000.0 / 1000.0 == MaxOf(steps);
      assert median(steps) > 0.0 ==> 1.0 / median(steps) * median(steps) == 1.0;
    }
  }

  lemma StatusByReasons(median: seq<real> -> real, gate: Gate, samples: seq<Sample>, reasons: seq<Reason>)
    requires reasons == Reasons(median, gate, samples)
    ensures forall r :: r in reasons <==> Applies(median, gate, samples, r)
    ensures StatusOf(reasons) == Rejected <==> !StrictlyOrdered(samples)
    ensures StatusOf(reasons) == Accepted <==> reasons == []
  {
    forall r ensures r in reasons <==> Applies(median, gate, samples, r) {
      ReasonsExactly(median, gate, samples, r);
    }
    OrderedIffNoDrop(samples);
    RejectedExactly(median, gate, samples, reasons);
  }

  lemma RejectedExactly(median: seq<real> -> real, gate: Gate, samples: seq<Sample>, reasons: seq<Reason>)
    requires reasons == Reasons(median, gate, samples)
    ensures StatusOf(reasons) == Rejected <==> !DistinctIndices(samples) || IndexDrops(samples) || TimeDrops(samples)
    ensures StatusOf(reasons) == Accepted <==> reasons == []
  {
    hide Reasons, IndexDrops, TimeDrops, DistinctIndices;
    ReasonsExactly(median, gate, samples, EmptyWindow);
    ReasonsExactly(median, gate, samples, DuplicateSampleIndex);
    ReasonsExactly(median, gate, samples, SampleIndexNotStrictlyIncreasing);
    ReasonsExactly(median, gate, samples, TimestampNotStrictlyIncreasing);
  }

  // ---------------------------------------------------------------- detrending and integration

  function Detrend(v: seq<real>): (r: seq<real>)
    requires v != []
    ensures |r| == |v|
  {
    var mean := Mean(v);
    seq(|v|, i requires 0 <= i < |v| => v[i] - mean)
  }

  function Trapezoid(a: real, b: real, dt: real): real {
    0.5 * (a + b) * dt
  }

  /** The integral up to sample `i` by the trapezoid rule. */
  function Area(v: seq<real>, t: seq<real>, i: nat): real
    requires |v| == |t| && i < |v|
  {
    if i == 0 then 0.0 else Area(v, t, i - 1) + Trapezoid(v[i], v[i - 1], t[i] - t[i - 1])
  }

  method CumulativeTrapezoid(v: seq<real>, t: seq<real>) returns (out: seq<real>)
    requires |v| == |t| > 0
    ensures |out| == |v| && forall i :: 0 <= i < |v| ==> out[i] == Area(v, t, i)
  {
    hide Trapezoid;
    out := [0.0];
    for i := 1 to |v|
      invariant |out| == i && forall k :: 0 <= k < i ==> out[k] == Area(v, t, k)
    {
      var dt := t[i] - t[i - 1];
      out := out + [out[|out| - 1] + Trapezoid(v[i], v[i - 1], dt)];
    }
  }

  lemma {:induction false} SumShift(v: seq<real>, w: seq<real>, c: real)
    requires |v| == |w| && forall i :: 0 <= i < |v| ==> w[i] == v[i] + c
    ensures Sum(w) == Sum(v) + c * |v| as real
  {
    if v != [] {
      SumShift(v[..|v| - 1], w[..|w| - 1], c);
    }
  }

  lemma QuotientShift(s: real, c: real, n: real)
    requires n > 0.0
    ensures (s + c * n) / n == s / n + c
  {
    assert (s / n + c) * n == s / n * n + c * n;
  }

  lemma MeanShift(v: seq<real>, w: seq<real>, c: real)
    requires |v| == |w| > 0 && forall i :: 0 <= i < |v| ==> w[i] == v[i] + c
    ensures Mean(w) == Mean(v) + c
  {
    SumShift(v, w, c);
    QuotientShift(Sum(v), c, |v| as real);
  }

  /** A constant added to every value is removed again with the mean. */
  lemma DetrendForgetsConstant(v: seq<real>, w: seq<real>, c: real)
    requires |v| == |w| > 0 && forall i :: 0 <= i < |v| ==> w[i] == v[i] + c
    ensures Detrend(w) == Detrend(v)
  {
    hide Mean;
    MeanShift(v, w, c);
  }

  // ---------------------------------------------------------------- vectors

  function Add(u: Vec3, w: Vec3): Vec3 {
    Vec3(u.x + w.x, u.y + w.y, u.z + w.z)
  }

  function Times(c: real, u: Vec3): Vec3 {
    Vec3(c * u.x, c * u.y, c * u.z)
  }

  function Dot(u: Vec3, w: Vec3): real {
    u.x * w.x + u.y * w.y + u.z * w.z
  }

  function Norm(sqrt: real -> real, u: Vec3): real {
    sqrt(Dot(u, u))
  }

  ghost predicate InBall(u: Vec3, r: real) {
    r >= 0.0 && Dot(u, u) <= r * r
  }

  lemma Square(a: real)
    ensures a * a >= 0.0
  {
  }

  lemma DotNonNegative(u: Vec3)
    ensures Dot(u, u) >= 0.0
  {
    Square(u.x);
    Square(u.y);
    Square(u.z);
  }

  lemma SquareOrder(a: real, b: real)
    requires b >= 0.0 && a * a <= b * b
    ensures a <= b
  {
    if a > b {
      Positive(a - b, a + b);
    }
  }

  lemma SquareMonotone(a: real, b: real)
    requires 0.0 <= a <= b
    ensures a * a <= b * b
  {
    NonNegativeProduct(b - a, b + a);
  }

  /** A vector lies in the ball of radius r exactly when its norm is at most r. */
  lemma BallIsNorm(sqrt: real -> real, u: Vec3, r: real)
    requires IsSqrt(sqrt) && r >= 0.0
    ensures InBall(u, r) <==> Norm(sqrt, u) <= r
  {
    DotNonNegative(u);
    var q := Norm(sqrt, u);
    if q <= r { SquareMonotone(q, r); }
    if InBall(u, r) { SquareOrder(q, r); }
  }

  lemma DotScaled(u: Vec3, w: Vec3, c: real)
    ensures Dot(Times(c, u), w) == c * Dot(u, w)
    ensures Dot(w, Times(c, u)) == c * Dot(w, u)
    ensures Dot(Times(c, u), Times(c, u)) == c * c * Dot(u, u)
  {
  }

  lemma DotOfSum(u: Vec3, w: Vec3)
    ensures Dot(Add(u, w), Add(u, w)) == Dot(u, u) + 2.0 * Dot(u, w) + Dot(w, w)
  {
  }

  /** The Cauchy-Schwarz inequality, for vectors in two balls. */
  lemma DotAtMost(u: Vec3, w: Vec3, r: real, s: real)
    requires InBall(u, r) && InBall(w, s)
    ensures Dot(u, w) <= r * s
  {
    if r == 0.0 || s == 0.0 {
      DotWithZero(u, w, r, s);
    } else {
      var v := Add(Times(s, u), Times(-r, w));
      DotNonNegative(v);
      DotOfSum(Times(s, u), Times(-r, w));
      DotScaled(u, u, s);
      DotScaled(w, w, -r);
      DotScaled(u, Times(-r, w), s);
      DotScaled(w, u, -r);
      Positive(r, s);
      CauchyScalars(Dot(u, u), Dot(w, w), Dot(u, w), r, s);
    }
  }

  lemma DotWithZero(u: Vec3, w: Vec3, r: real, s: real)
    requires InBall(u, r) && InBall(w, s) && (r == 0.0 || s == 0.0)
    ensures Dot(u, w) <= r * s
  {
    if r == 0.0 { ZeroVector(u); } else { ZeroVector(w); }
  }

  lemma ZeroVector(u: Vec3)
    requires Dot(u, u) <= 0.0
    ensures u == Vec3(0.0, 0.0, 0.0)
  {
    NoSquares(u.x, u.y, u.z);
    NoSquares(u.y, u.z, u.x);
    NoSquares(u.z, u.x, u.y);
  }

  lemma NoSquares(a: real, b: real, c: real)
    requires a * a + b * b + c * c <= 0.0
    ensures a == 0.0
  {
    assert Product(a, a) + Product(b, b) + Product(c, c) <= 0.0;
    SquareSign(a);
    SquareSign(b);
    SquareSign(c);
    hide Product;
  }

  lemma CauchyScalars(uu: real, ww: real, uw: real, r: real, s: real)
    requires r * s > 0.0 && uu <= r * r && ww <= s * s
    requires s * s * uu + 2.0 * (s * (-r * uw)) + -r * -r * ww >= 0.0
    ensures uw <= r * s
  {
    var k := r * s;
    Square(s);
    Square(r);
    NonNegativeProduct(s * s, r * r - uu);
    NonNegativeProduct(r * r, s * s - ww);
    assert s * s * (r * r) == k * k && r * r * (s * s) == k * k;
    assert s * (-r * uw) == -(k * uw);
    assert k * uw <= k * k;
    if uw > k { Positive(k, uw - k); }
  }

  /** The triangle inequality. */
  lemma BallSum(u: Vec3, w: Vec3, r: real, s: real)
    requires InBall(u, r) && InBall(w, s)
    ensures InBall(Add(u, w), r + s)
  {
    DotOfSum(u, w);
    DotAtMost(u, w, r, s);
    SquareOfSum(r, s);
  }

  lemma SquareOfSum(r: real, s: real)
    ensures (r + s) * (r + s) == r * r + 2.0 * (r * s) + s * s
  {
  }

  lemma BallScaled(u: Vec3, r: real, c: real, scaled: real)
    requires InBall(u, r) && c >= 0.0 && scaled == c * r
    ensures InBall(Times(c, u), scaled)
  {
    DotScaled(u, u, c);
    Square(c);
    NonNegativeProduct(c * c, r * r - Dot(u, u));
    NonNegativeProduct(c, r);
    SquareOfProduct(c, r);
    BallFromParts(Dot(Times(c, u), Times(c, u)), c * c, Dot(u, u), r * r, scaled * scaled);
    hide Dot, Times;
  }

  lemma SquareOfProduct(c: real, r: real)
    ensures (c * r) * (c * r) == (c * c) * (r * r)
  {
    var d := c * r;
    assert d * d == c * (r * d);
    assert r * d == c * (r * r);
  }

  lemma BallFromParts(scaled: real, factor: real, square: real, bound: real, total: real)
    requires scaled == factor * square && factor * (bound - square) >= 0.0 && total == factor * bound
    ensures scaled <= total
  {
  }

  // ---------------------------------------------------------------- peak velocity against peak acceleration

  function Xs(vs: seq<Vec3>): (r: seq<real>)
    ensures |r| == |vs|
  {
    seq(|vs|, i requires 0 <= i < |vs| => vs[i].x)
  }

  function Ys(vs: seq<Vec3>): (r: seq<real>)
    ensures |r| == |vs|
  {
    seq(|vs|, i requires 0 <= i < |vs| => vs[i].y)
  }

  function Zs(vs: seq<Vec3>): (r: seq<real>)
    ensures |r| == |vs|
  {
    seq(|vs|, i requires 0 <= i < |vs| => vs[i].z)
  }

  function Velocity(vs: seq<Vec3>, t: seq<real>, i: nat): Vec3
    requires |vs| == |t| && i < |vs|
  {
    Vec3(Area(Xs(vs), t, i), Area(Ys(vs), t, i), Area(Zs(vs), t, i))
  }

  lemma VelocityStep(vs: seq<Vec3>, t: seq<real>, i: nat, dt: real)
    requires |vs| == |t| && 0 < i < |vs| && dt == t[i] - t[i - 1]
    ensures Velocity(vs, t, i) == Add(Velocity(vs, t, i - 1), Times(0.5 * dt, Add(vs[i], vs[i - 1])))
  {
    TrapezoidIsScaled(vs[i].x, vs[i - 1].x, dt);
    TrapezoidIsScaled(vs[i].y, vs[i - 1].y, dt);
    TrapezoidIsScaled(vs[i].z, vs[i - 1].z, dt);
    hide Trapezoid;
  }

  lemma TrapezoidIsScaled(a: real, b: real, dt: real)
    ensures Trapezoid(a, b, dt) == 0.5 * dt * (a + b)
  {
  }

  function Reach(a: real, dt: real): real {
    a * dt
  }

  /** Speed grows by at most the acceleration bound times the time passed. */
  lemma {:induction false} VelocityBound(vs: seq<Vec3>, t: seq<real>, a: real, i: nat)
    requires |vs| == |t| && i < |vs| && a >= 0.0
    requires forall k :: 0 <= k < |vs| ==> InBall(vs[k], a)
    requires forall k :: 1 <= k < |t| ==> t[k - 1] < t[k]
    ensures t[i] >= t[0] && InBall(Velocity(vs, t, i), Reach(a, t[i] - t[0]))
  {
    hide InBall, Velocity, Add, Times, Reach;
    if i == 0 {
      StartsAtRest(vs, t, a);
    } else {
      VelocityBound(vs, t, a, i - 1);
      var dt, before, after := t[i] - t[i - 1], t[i - 1] - t[0], t[i] - t[0];
      VelocityStep(vs, t, i, dt);
      BallSum(vs[i], vs[i - 1], a, a);
      OneStep(Velocity(vs, t, i - 1), Add(vs[i], vs[i - 1]), Reach(a, before), a, dt);
      Stretch(a, before, dt, after);
    }
  }

  lemma StartsAtRest(vs: seq<Vec3>, t: seq<real>, a: real)
    requires |vs| == |t| > 0
    ensures InBall(Velocity(vs, t, 0), Reach(a, t[0] - t[0]))
  {
  }

  lemma OneStep(v: Vec3, u: Vec3, r: real, a: real, dt: real)
    requires InBall(v, r) && InBall(u, a + a) && dt >= 0.0
    ensures InBall(Add(v, Times(0.5 * dt, u)), r + Reach(a, dt))
  {
    hide InBall, Add, Times, Reach;
    var c := 0.5 * dt;
    Doubled(a, dt, c);
    BallScaled(u, a + a, c, Reach(a, dt));
    BallSum(v, Times(c, u), r, Reach(a, dt));
  }

  lemma Doubled(a: real, dt: real, c: real)
    requires c == 0.5 * dt
    ensures Reach(a, dt) == c * (a + a)
  {
  }

  lemma Stretch(a: real, before: real, dt: real, after: real)
    requires after == before + dt
    ensures Reach(a, before) + Reach(a, dt) == Reach(a, after)
  {
  }

  // ---------------------------------------------------------------- the metrics of a window

  function Channel(samples: seq<Sample>, sensor: string): (r: Option<seq<Vec3>>)
    ensures r.Some? ==> |r.value| == |samples|
  {
    if sensor == "adxl355" then Some(seq(|samples|, i requires 0 <= i < |samples| => samples[i].adxl355))
    else if sensor == "mpu9250" then Some(seq(|samples|, i requires 0 <= i < |samples| => samples[i].mpu9250))
    else None
  }

  function TimesOf(samples: seq<Sample>): (t: seq<real>)
    ensures |t| == |samples|
  {
    seq(|samples|, i requires 0 <= i < |samples| => Seconds(samples[i].micros))
  }

  /** The vectors with the mean of each axis removed. */
  function Centred(vs: seq<Vec3>): (r: seq<Vec3>)
    requires vs != []
    ensures |r| == |vs|
    ensures Xs(r) == Detrend(Xs(vs)) && Ys(r) == Detrend(Ys(vs)) && Zs(r) == Detrend(Zs(vs))
  {
    var xs, ys, zs := Detrend(Xs(vs)), Detrend(Ys(vs)), Detrend(Zs(vs));
    var r := seq(|vs|, i requires 0 <= i < |vs| => Vec3(xs[i], ys[i], zs[i]));
    assert Xs(r) == xs && Ys(r) == ys && Zs(r) == zs;
    r
  }

  function Norms(sqrt: real -> real, vs: seq<Vec3>): (r: seq<real>)
    ensures |r| == |vs|
  {
    seq(|vs|, i requires 0 <= i < |vs| => Norm(sqrt, vs[i]))
  }

  function Velocities(vs: seq<Vec3>, t: seq<real>): (r: seq<Vec3>)
    requires |vs| == |t|
    ensures |r| == |vs|
  {
    seq(|vs|, i requires 0 <= i < |vs| => Velocity(vs, t, i))
  }

  /** Peak acceleration in g and peak velocity in millimetres a second, of centred vectors. */
  function Peaks(sqrt: real -> real, vs: seq<Vec3>, t: seq<real>): Metrics
    requires |vs| == |t| > 0
  {
    Metrics(MaxOf(Norms(sqrt, vs)) / GRAVITY, MaxOf(Norms(sqrt, Velocities(vs, t))) * 1000.0, |vs|)
  }

  datatype VibrationError = NoSamples | NotStrictlyOrdered | UnknownSensor

  /** What the metrics of a window are, errors included. */
  ghost function MetricsOf(sqrt: real -> real, samples: seq<Sample>, sensor: string): Result<Metrics, VibrationError> {
    if samples == [] then Err(NoSamples)
    else if !StrictlyOrdered(samples) then Err(NotStrictlyOrdered)
    else
      match Channel(samples, sensor)
      case None => Err(UnknownSensor)
      case Some(vs) => Ok(Peaks(sqrt, Centred(vs), TimesOf(samples)))
  }

  /** The three axes, integrated one after the other. */
  method IntegrateAxes(vs: seq<Vec3>, t: seq<real>) returns (velocities: seq<Vec3>)
    requires |vs| == |t| > 0
    ensures velocities == Velocities(vs, t)
  {
    var vx := CumulativeTrapezoid(Xs(vs), t);
    var vy := CumulativeTrapezoid(Ys(vs), t);
    var vz := CumulativeTrapezoid(Zs(vs), t);
    hide Area;
    velocities := seq(|vs|, i requires 0 <= i < |vs| => Vec3(vx[i], vy[i], vz[i]));
  }

  method ComputeVibrationMetrics(sqrt: real -> real, median: seq<real> -> real, samples: seq<Sample>, sensor: string)
    returns (r: Result<Metrics, VibrationError>)
    ensures r == MetricsOf(sqrt, samples, sensor)
  {
    if samples == [] {
      return Err(NoSamples);
    }
    hide StrictlyOrdered, Applies, GapsReported, DurationMs, PositiveSteps, MaxOf, Detrend, Velocities;
    var quality := AnalyzeAccelWindow(median, Gate(1000.0, 0.20, 5.0, 2), samples);
    if quality.status == Rejected {
      return Err(NotStrictlyOrdered);
    }
    var channel := Channel(samples, sensor);
    if channel.None? {
      return Err(UnknownSensor);
    }
    var vs, t := Centred(channel.value), TimesOf(samples);
    var velocities := IntegrateAxes(vs, t);
    r := Ok(Metrics(MaxOf(Norms(sqrt, vs)) / GRAVITY, MaxOf(Norms(sqrt, velocities)) * 1000.0, |samples|));
  }

  /** In a strictly ordered window, PPV is at most 9.80665 PPA times the duration in milliseconds. */
  lemma PeakVelocityBound(sqrt: real -> real, samples: seq<Sample>, sensor: string)
    requires IsSqrt(sqrt) && samples != [] && StrictlyOrdered(samples) && sensor in {"adxl355", "mpu9250"}
    ensures var r := MetricsOf(sqrt, samples, sensor);
      r.Ok? && r.value.ppvMmS <= GRAVITY * r.value.ppaG * DurationMs(samples)
  {
    hide IsSqrt, MaxOf, Norm, Reach, Detrend, Velocity, InBall;
    var vs, t := Centred(Channel(samples, sensor).value), TimesOf(samples);
    var last := |vs| - 1;
    var accel, speed := Norms(sqrt, vs), Norms(sqrt, Velocities(vs, t));
    MaxIsMax(accel);
    MaxIsMax(speed);
    var a, top := MaxOf(accel), MaxOf(speed);
    PeakInBalls(sqrt, vs, a);
    forall i | 0 <= i < |vs| ensures speed[i] <= Reach(a, t[last] - t[0]) {
      SpeedAtMost(sqrt, samples, vs, t, a, i);
    }
    DurationIsSpan(samples);
    PeakUnits(a, t[last] - t[0], top, DurationMs(samples));
  }

  lemma PeakInBalls(sqrt: real -> real, vs: seq<Vec3>, a: real)
    requires IsSqrt(sqrt) && vs != [] && forall i :: 0 <= i < |vs| ==> Norms(sqrt, vs)[i] <= a
    ensures a >= 0.0 && forall i :: 0 <= i < |vs| ==> InBall(vs[i], a)
  {
    hide InBall;
    DotNonNegative(vs[0]);
    assert Norm(sqrt, vs[0]) == Norms(sqrt, vs)[0] >= 0.0;
    forall i | 0 <= i < |vs| ensures InBall(vs[i], a) {
      assert Norms(sqrt, vs)[i] == Norm(sqrt, vs[i]);
      BallIsNorm(sqrt, vs[i], a);
    }
  }

  lemma SpeedAtMost(sqrt: real -> real, samples: seq<Sample>, vs: seq<Vec3>, t: seq<real>, a: real, i: nat)
    requires IsSqrt(sqrt) && a >= 0.0 && i < |vs| == |samples| && t == TimesOf(samples) && StrictlyOrdered(samples)
    requires forall k :: 0 <= k < |vs| ==> InBall(vs[k], a)
    ensures Norm(sqrt, Velocity(vs, t, i)) <= Reach(a, t[|vs| - 1] - t[0])
  {
    hide IsSqrt, InBall, Velocity, Reach, Norm, TimesOf;
    TimesAscend(samples, i);
    VelocityBound(vs, t, a, i);
    ReachMonotone(a, t[i] - t[0], t[|vs| - 1] - t[0]);
    BallIsNorm(sqrt, Velocity(vs, t, i), Reach(a, t[i] - t[0]));
  }

  lemma TimesAscend(samples: seq<Sample>, i: nat)
    requires StrictlyOrdered(samples) && i < |samples|
    ensures var t := TimesOf(samples); t[i] <= t[|t| - 1] && forall k :: 1 <= k < |t| ==> t[k - 1] < t[k]
  {
  }

  lemma ReachMonotone(a: real, d: real, e: real)
    requires a >= 0.0 && 0.0 <= d <= e
    ensures 0.0 <= Reach(a, d) <= Reach(a, e)
  {
    NonNegativeProduct(a, d);
    NonNegativeProduct(a, e - d);
  }

  lemma DurationIsSpan(samples: seq<Sample>)
    requires StrictlyOrdered(samples) && samples != []
    ensures DurationMs(samples) == (TimesOf(samples)[|samples| - 1] - TimesOf(samples)[0]) * 1000.0
  {
  }

  lemma PeakUnits(a: real, span: real, speed: real, durationMs: real)
    requires speed <= Reach(a, span) && durationMs == span * 1000.0
    ensures speed * 1000.0 <= GRAVITY * (a / GRAVITY) * durationMs
  {
    assert GRAVITY * (a / GRAVITY) == a;
    assert a * (span * 1000.0) == a * span * 1000.0;
  }

  // ---------------------------------------------------------------- a constant offset changes nothing

  function Shifted(samples: seq<Sample>, c: Vec3, d: Vec3): (r: seq<Sample>)
    ensures |r| == |samples|
    ensures forall i :: 0 <= i < |samples| ==> r[i] == samples[i].(adxl355 := Add(samples[i].adxl355, c),
                                                                  mpu9250 := Add(samples[i].mpu9250, d))
  {
    seq(|samples|, i requires 0 <= i < |samples| =>
      samples[i].(adxl355 := Add(samples[i].adxl355, c), mpu9250 := Add(samples[i].mpu9250, d)))
  }

  lemma CentredForgetsConstant(vs: seq<Vec3>, ws: seq<Vec3>, c: Vec3)
    requires |vs| == |ws| > 0 && forall i :: 0 <= i < |vs| ==> ws[i] == Add(vs[i], c)
    ensures Centred(ws) == Centred(vs)
  {
    DetrendForgetsConstant(Xs(vs), Xs(ws), c.x);
    DetrendForgetsConstant(Ys(vs), Ys(ws), c.y);
    DetrendForgetsConstant(Zs(vs), Zs(ws), c.z);
  }

  /** Adding a constant vector to every sample of a sensor changes neither PPA nor PPV, nor any error. */
  lemma ConstantOffsetIgnored(sqrt: real -> real, samples: seq<Sample>, c: Vec3, d: Vec3, sensor: string)
    ensures MetricsOf(sqrt, Shifted(samples, c, d), sensor) == MetricsOf(sqrt, samples, sensor)
  {
    hide Peaks, Detrend;
    var shifted := Shifted(samples, c, d);
    assert StrictlyOrdered(shifted) <==> StrictlyOrdered(samples);
    assert TimesOf(shifted) == TimesOf(samples);
    if samples != [] && Channel(samples, sensor).Some? {
      var vs, ws := Channel(samples, sensor).value, Channel(shifted, sensor).value;
      CentredForgetsConstant(vs, ws, if sensor == "adxl355" then c else d);
    }
  }
}
