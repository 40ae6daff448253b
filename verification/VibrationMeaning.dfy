/**
  What the vibration metrics of a window mean, from its samples alone: the mean of each axis removed, the
  trapezoid rule between neighbouring samples, and the largest length of each.
 */
module VibrationMeaning {
  import opened Prelude
  import opened RealSums
  import opened Vibration

  function Length(sqrt: real -> real, u: Vec3): real {
    sqrt(u.x * u.x + u.y * u.y + u.z * u.z)
  }

  /** What a sensor measured at a sample. */
  function Measured(sample: Sample, sensor: string): Vec3 {
    if sensor == "adxl355" then sample.adxl355 else sample.mpu9250
  }

  /** `a` is what was measured, less one vector that makes each axis sum to zero. */
  ghost predicate Centres(samples: seq<Sample>, sensor: string, a: seq<Vec3>, mean: Vec3) {
    && |a| == |samples|
    && (forall i :: 0 <= i < |a| ==>
          Measured(samples[i], sensor) == Vec3(a[i].x + mean.x, a[i].y + mean.y, a[i].z + mean.z))
    && Sum(Xs(a)) == 0.0 && Sum(Ys(a)) == 0.0 && Sum(Zs(a)) == 0.0
  }

  function Gap(samples: seq<Sample>, i: nat): real
    requires 0 < i < |samples|
  {
    (samples[i].micros - samples[i - 1].micros) as real / 1000000.0
  }

  /** From velocity `v` to `w` by the mean of two accelerations over `dt` seconds. */
  predicate Follows(v: Vec3, w: Vec3, a: Vec3, b: Vec3, dt: real) {
    w == Vec3(v.x + (b.x + a.x) / 2.0 * dt, v.y + (b.y + a.y) / 2.0 * dt, v.z + (b.z + a.z) / 2.0 * dt)
  }

  /** `v` starts at rest and grows by the mean of neighbouring accelerations times the time between them. */
  ghost predicate Integrates(samples: seq<Sample>, a: seq<Vec3>, v: seq<Vec3>) {
    && |a| == |v| == |samples| > 0 && v[0] == Vec3(0.0, 0.0, 0.0)
    && forall i :: 0 < i < |v| ==> Follows(v[i - 1], v[i], a[i - 1], a[i], Gap(samples, i))
  }

  /** `top` is the greatest length of any of the vectors. */
  ghost predicate IsPeak(sqrt: real -> real, vs: seq<Vec3>, top: real) {
    && (forall i :: 0 <= i < |vs| ==> Length(sqrt, vs[i]) <= top)
    && (exists i :: 0 <= i < |vs| && Length(sqrt, vs[i]) == top)
  }

  /** Metrics of a strictly ordered window: PPA in units of 9.80665 m/s2, PPV in millimetres a second. */
  lemma MetricsMean(sqrt: real -> real, samples: seq<Sample>, sensor: string)
    requires samples != [] && StrictlyOrdered(samples) && sensor in {"adxl355", "mpu9250"}
    ensures var r := MetricsOf(sqrt, samples, sensor);
      && r.Ok? && r.value.sampleCount == |samples|
      && exists a, v, mean :: Centres(samples, sensor, a, mean) && Integrates(samples, a, v)
           && IsPeak(sqrt, a, r.value.ppaG * 9.80665) && IsPeak(sqrt, v, r.value.ppvMmS / 1000.0)
  {
    hide MaxOf, StrictlyOrdered, Velocity, Centres, Integrates, IsPeak, Detrend;
    var channel := Channel(samples, sensor).value;
    var a, t := Centred(channel), TimesOf(samples);
    var v := Velocities(a, t);
    var mean := Vec3(Mean(Xs(channel)), Mean(Ys(channel)), Mean(Zs(channel)));
    CentredCentres(samples, sensor, channel);
    VelocitiesIntegrate(samples, a);
    PeakOfNorms(sqrt, a);
    PeakOfNorms(sqrt, v);
    var m := MetricsOf(sqrt, samples, sensor).value;
    assert m.ppaG * 9.80665 == MaxOf(Norms(sqrt, a)) && m.ppvMmS / 1000.0 == MaxOf(Norms(sqrt, v));
    assert Centres(samples, sensor, a, mean) && Integrates(samples, a, v);
  }

  lemma {:induction false} DetrendSums(v: seq<real>, w: seq<real>, c: real)
    requires |v| == |w| && forall i :: 0 <= i < |v| ==> w[i] == v[i] - c
    ensures Sum(w) == Sum(v) - c * |v| as real
  {
    SumShift(v, w, -c);
  }

  lemma DetrendIs(v: seq<real>)
    requires v != []
    ensures Sum(Detrend(v)) == 0.0 && forall i :: 0 <= i < |v| ==> Detrend(v)[i] + Mean(v) == v[i]
  {
    DetrendSums(v, Detrend(v), Mean(v));
    assert Mean(v) * |v| as real == Sum(v);
  }

  lemma CentredCentres(samples: seq<Sample>, sensor: string, channel: seq<Vec3>)
    requires samples != [] && Channel(samples, sensor) == Some(channel)
    ensures Centres(samples, sensor, Centred(channel),
                    Vec3(Mean(Xs(channel)), Mean(Ys(channel)), Mean(Zs(channel))))
  {
    hide Detrend, Mean, Sum;
    var a := Centred(channel);
    DetrendIs(Xs(channel));
    DetrendIs(Ys(channel));
    DetrendIs(Zs(channel));
    forall i | 0 <= i < |a|
      ensures Measured(samples[i], sensor) == Vec3(a[i].x + Mean(Xs(channel)), a[i].y + Mean(Ys(channel)),
                                                   a[i].z + Mean(Zs(channel)))
    {
      assert channel[i] == Measured(samples[i], sensor);
      assert a[i].x == Xs(a)[i] && a[i].y == Ys(a)[i] && a[i].z == Zs(a)[i];
    }
  }

  lemma VelocitiesIntegrate(samples: seq<Sample>, a: seq<Vec3>)
    requires |a| == |samples| > 0
    ensures Integrates(samples, a, Velocities(a, TimesOf(samples)))
  {
    hide Velocity;
    var t := TimesOf(samples);
    var v := Velocities(a, t);
    RestOrStep(a, t, 0);
    forall i | 0 < i < |v| ensures Follows(v[i - 1], v[i], a[i - 1], a[i], Gap(samples, i)) {
      RestOrStep(a, t, i);
      TimeGap(samples, i);
      StepFollows(v[i - 1], v[i], a[i - 1], a[i], t[i] - t[i - 1]);
    }
  }

  lemma TimeGap(samples: seq<Sample>, i: nat)
    requires 0 < i < |samples|
    ensures TimesOf(samples)[i] - TimesOf(samples)[i - 1] == Gap(samples, i)
  {
  }

  lemma StepFollows(v: Vec3, w: Vec3, a: Vec3, b: Vec3, dt: real)
    requires w == Vec3(v.x + 0.5 * (b.x + a.x) * dt, v.y + 0.5 * (b.y + a.y) * dt, v.z + 0.5 * (b.z + a.z) * dt)
    ensures Follows(v, w, a, b, dt)
  {
    Halved(b.x + a.x, dt);
    Halved(b.y + a.y, dt);
    Halved(b.z + a.z, dt);
  }

  lemma RestOrStep(a: seq<Vec3>, t: seq<real>, i: nat)
    requires |a| == |t| && i < |a|
    ensures i == 0 ==> Velocity(a, t, i) == Vec3(0.0, 0.0, 0.0)
    ensures i > 0 ==>
      var before, dt := Velocity(a, t, i - 1), t[i] - t[i - 1];
      Velocity(a, t, i) == Vec3(before.x + 0.5 * (a[i].x + a[i - 1].x) * dt,
                                before.y + 0.5 * (a[i].y + a[i - 1].y) * dt,
                                before.z + 0.5 * (a[i].z + a[i - 1].z) * dt)
  {
    if i > 0 {
      var dt := t[i] - t[i - 1];
      AreaStep(Xs(a), t, i, a[i].x, a[i - 1].x, dt);
      AreaStep(Ys(a), t, i, a[i].y, a[i - 1].y, dt);
      AreaStep(Zs(a), t, i, a[i].z, a[i - 1].z, dt);
      hide Area;
    }
  }

  lemma AreaStep(v: seq<real>, t: seq<real>, i: nat, now: real, before: real, dt: real)
    requires |v| == |t| && 0 < i < |v| && v[i] == now && v[i - 1] == before && t[i] - t[i - 1] == dt
    ensures Area(v, t, i) == Area(v, t, i - 1) + 0.5 * (now + before) * dt
  {
    assert Area(v, t, i) == Area(v, t, i - 1) + Trapezoid(now, before, dt);
  }

  lemma Halved(x: real, dt: real)
    ensures 0.5 * x * dt == x / 2.0 * dt
  {
  }

  lemma PeakOfNorms(sqrt: real -> real, vs: seq<Vec3>)
    requires vs != []
    ensures IsPeak(sqrt, vs, MaxOf(Norms(sqrt, vs)))
  {
    var norms := Norms(sqrt, vs);
    MaxIsMax(norms);
    hide MaxOf;
    forall i | 0 <= i < |vs| ensures norms[i] == Length(sqrt, vs[i]) {
      assert norms[i] == Norm(sqrt, vs[i]);
    }
    var k :| 0 <= k < |norms| && norms[k] == MaxOf(norms);
  }

  /** Which windows have no metrics, and why. */
  lemma NoMetricsExactly(sqrt: real -> real, samples: seq<Sample>, sensor: string)
    ensures var r, ordered := MetricsOf(sqrt, samples, sensor),
                              forall i :: 0 < i < |samples| ==> samples[i - 1].index < samples[i].index
                                                                && samples[i - 1].micros < samples[i].micros;
      && (r == Err(NoSamples) <==> samples == [])
      && (r == Err(NotStrictlyOrdered) <==> samples != [] && !ordered)
      && (r == Err(UnknownSensor) <==> samples != [] && ordered && sensor != "adxl355" && sensor != "mpu9250")
  {
    OrderedIffNoDrop(samples);
    hide StrictlyOrdered, Peaks, Centred;
  }

  const SLOWING: seq<Vec3> := [Vec3(1.0, 0.0, 0.0), Vec3(0.0, 0.0, 0.0), Vec3(-1.0, 0.0, 0.0)]
  const SPEEDS: seq<Vec3> := [Vec3(0.0, 0.0, 0.0), Vec3(0.5, 0.0, 0.0), Vec3(0.0, 0.0, 0.0)]

  /** Samples a second apart that measured one, zero and minus one metre a square second. */
  ghost predicate Slowing(samples: seq<Sample>) {
    |samples| == 3 && StrictlyOrdered(samples)
    && forall i :: 0 <= i < 3 ==> samples[i].micros == 1_000_000 * i && samples[i].adxl355 == SLOWING[i]
  }

  /** They reach half a metre a second. */
  lemma HalfMetreASecond(sqrt: real -> real, samples: seq<Sample>)
    requires IsSqrt(sqrt) && Slowing(samples)
    ensures MetricsOf(sqrt, samples, "adxl355").Ok?
    ensures MetricsOf(sqrt, samples, "adxl355").value.ppvMmS == 500.0
  {
    hide *;
    assert samples != [] && StrictlyOrdered(samples) by { SlowingIsOrdered(samples); }
    MetricsMean(sqrt, samples, "adxl355");
    var m := MetricsOf(sqrt, samples, "adxl355").value;
    var a: seq<Vec3>, v: seq<Vec3>, mean: Vec3 :|
      Centres(samples, "adxl355", a, mean) && Integrates(samples, a, v)
      && IsPeak(sqrt, a, m.ppaG * 9.80665) && IsPeak(sqrt, v, m.ppvMmS / 1000.0);
    SlowingCentred(samples, a, mean);
    SlowingIntegrated(samples, v);
    PeakSpeed(sqrt, m.ppvMmS / 1000.0);
  }

  lemma SlowingIsOrdered(samples: seq<Sample>)
    requires Slowing(samples)
    ensures samples != [] && StrictlyOrdered(samples)
  {
  }

  lemma SlowingCentred(samples: seq<Sample>, a: seq<Vec3>, mean: Vec3)
    requires Slowing(samples) && Centres(samples, "adxl355", a, mean)
    ensures a == SLOWING
  {
    hide Sum, StrictlyOrdered;
    SumOfThree(Xs(a));
    SumOfThree(Ys(a));
    SumOfThree(Zs(a));
    forall i | 0 <= i < 3
      ensures SLOWING[i] == Vec3(a[i].x + mean.x, a[i].y + mean.y, a[i].z + mean.z)
    {
      assert Measured(samples[i], "adxl355") == SLOWING[i];
    }
  }

  lemma SlowingIntegrated(samples: seq<Sample>, v: seq<Vec3>)
    requires Slowing(samples) && Integrates(samples, SLOWING, v)
    ensures v == SPEEDS
  {
    hide StrictlyOrdered, Follows;
    assert Gap(samples, 1) == 1.0 && Gap(samples, 2) == 1.0;
    OneSecond(v[0], v[1], SLOWING[0], SLOWING[1]);
    OneSecond(v[1], v[2], SLOWING[1], SLOWING[2]);
  }

  lemma OneSecond(v: Vec3, w: Vec3, a: Vec3, b: Vec3)
    requires Follows(v, w, a, b, 1.0)
    ensures w == Vec3(v.x + (b.x + a.x) / 2.0, v.y + (b.y + a.y) / 2.0, v.z + (b.z + a.z) / 2.0)
  {
  }

  lemma PeakSpeed(sqrt: real -> real, top: real)
    requires IsSqrt(sqrt) && IsPeak(sqrt, SPEEDS, top)
    ensures top == 0.5
  {
    RootIs(sqrt, 0.0);
    RootIs(sqrt, 0.5);
    hide IsSqrt;
    assert Length(sqrt, SPEEDS[0]) == 0.0 && Length(sqrt, SPEEDS[1]) == 0.5 && Length(sqrt, SPEEDS[2]) == 0.0;
  }

  lemma SumOfThree(v: Vector)
    requires |v| == 3
    ensures Sum(v) == v[0] + v[1] + v[2]
  {
    assert v[..2][..1] == v[..1] && v[..1][..0] == [];
    assert Sum(v[..1]) == v[0];
  }

  lemma RootIs(sqrt: real -> real, x: real)
    requires IsSqrt(sqrt) && x >= 0.0
    ensures sqrt(x * x) == x
  {
    var y := sqrt(x * x);
    Square(x);
    SquareOrder(x, y);
    SquareOrder(y, x);
  }

  // ---------------------------------------------------------------- why a window is not accepted

  /** The steps that count are the positive ones, in seconds. */
  lemma {:induction false} StepsExactly(samples: seq<Sample>, x: real)
    ensures x in PositiveSteps(samples) <==>
      exists i :: 0 < i < |samples| && Gap(samples, i) > 0.0 && x == Gap(samples, i)
  {
    if |samples| >= 2 {
      var n := |samples| - 1;
      StepsExactly(samples[..n], x);
      assert forall i :: 0 < i < n ==> Gap(samples, i) == Gap(samples[..n], i);
      assert Seconds(samples[n].micros) - Seconds(samples[n - 1].micros) == Gap(samples, n);
    }
  }

  /** Order and length, from the samples alone. */
  lemma OrderReasonsMean(median: seq<real> -> real, gate: Gate, samples: seq<Sample>)
    ensures Applies(median, gate, samples, DuplicateSampleIndex) <==>
      exists i, j :: 0 <= i < j < |samples| && samples[i].index == samples[j].index
    ensures Applies(median, gate, samples, SampleIndexNotStrictlyIncreasing) <==>
      exists i :: 0 < i < |samples| && samples[i].index <= samples[i - 1].index
    ensures Applies(median, gate, samples, TimestampNotStrictlyIncreasing) <==>
      exists i :: 0 < i < |samples| && samples[i].micros <= samples[i - 1].micros
    ensures Applies(median, gate, samples, TooFewSamples) <==> |samples| < gate.minSamples
  {
    hide PositiveSteps;
  }

  /** A gap is large exactly when some step exceeds a median that is not zero by the factor. */
  lemma LargeGapMeans(median: seq<real> -> real, gate: Gate, samples: seq<Sample>, bound: real)
    requires bound == median(PositiveSteps(samples)) * gate.maxGapFactor
    ensures Applies(median, gate, samples, LargeSamplingGap) <==>
      median(PositiveSteps(samples)) != 0.0 && exists x :: x in PositiveSteps(samples) && x > bound
  {
    hide PositiveSteps, MaxOf;
    var steps := PositiveSteps(samples);
    StepsPositive(samples);
    MaxBeyond(steps, bound);
    MaxBeyond(steps, 0.0);
    if steps != [] {
      assert steps[0] in steps;
    }
  }

  lemma MaxBeyond(steps: seq<real>, bound: real)
    ensures (exists x :: x in steps && x > bound) <==> steps != [] && MaxOf(steps) > bound
  {
    if steps != [] {
      MaxIsMax(steps);
      hide MaxOf;
      assert MaxOf(steps) in steps;
    }
  }

  lemma StepsPositive(samples: seq<Sample>)
    ensures forall x :: x in PositiveSteps(samples) ==> x > 0.0
  {
    forall x | x in PositiveSteps(samples) ensures x > 0.0 {
      StepsExactly(samples, x);
    }
  }

  /** The rate is outside exactly when the period is a positive median whose rate leaves the tolerance. */
  lemma RateMeans(median: seq<real> -> real, gate: Gate, samples: seq<Sample>, rate: real)
    requires rate * median(PositiveSteps(samples)) == 1.0
    ensures Applies(median, gate, samples, SampleRateOutsideNominalTolerance) <==>
      PositiveSteps(samples) != [] && rate > 0.0
      && (rate < gate.expectedRateHz * (1.0 - gate.rateTolerance)
          || rate > gate.expectedRateHz * (1.0 + gate.rateTolerance))
  {
    var m := median(PositiveSteps(samples));
    assert m != 0.0;
    Reciprocal(rate, m);
  }

  lemma Reciprocal(rate: real, m: real)
    requires rate * m == 1.0
    ensures m != 0.0 && 1.0 / m == rate && (rate > 0.0 <==> m > 0.0)
  {
    if m > 0.0 {
      assert rate > 0.0 by { if rate <= 0.0 { NonNegativeProduct(-rate, m); } }
    } else {
      assert rate < 0.0 by { if rate >= 0.0 { NonNegativeProduct(rate, -m); } }
    }
    assert 1.0 / m * m == rate * m;
  }

  /** The duration in milliseconds, and zero for windows that go back in time. */
  lemma DurationMeans(samples: seq<Sample>)
    ensures DurationMs(samples) ==
      if |samples| < 2 || samples[|samples| - 1].micros < samples[0].micros then 0.0
      else (samples[|samples| - 1].micros - samples[0].micros) as real / 1000.0
  {
  }
}
