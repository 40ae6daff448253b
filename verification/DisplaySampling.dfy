/** Display downsampling: the two strides and the rows they select out of an ordered result. */
module DisplaySampling {
  import opened Division

  const HARD_MAX_POINTS := 5000

  function Bounded(maxPoints: int): (b: nat)
    ensures 2 <= b <= 5000
    ensures 2 <= maxPoints <= 5000 ==> b == maxPoints
    ensures maxPoints < 2 ==> b == 2
    ensures maxPoints > 5000 ==> b == 5000
  {
    var capped := if maxPoints < HARD_MAX_POINTS then maxPoints else HARD_MAX_POINTS;
    if capped > 2 then capped else 2
  }

  /** The stride of an accelerometer waveform. */
  function BoundedStride(total: int, maxPoints: int): (s: nat)
    ensures s >= 1
  {
    if total <= 0 then 1
    else
      var s := CeilDiv(total, Bounded(maxPoints));
      if s > 1 then s else 1
  }

  /** The stride of a historical window. */
  function BoundedWindowStride(total: int, maxPoints: int): (s: nat)
    ensures s >= 1
  {
    var bounded := Bounded(maxPoints);
    if total <= 0 || total <= bounded then 1
    else
      var s := CeilDiv(total - 1, bounded - 1);
      if s > 1 then s else 1
  }

  /** The filter of both queries, for the row at position `i` of `n`. */
  predicate Kept(n: nat, stride: nat, i: nat)
    requires stride > 0
  {
    i == 0 || i + 1 == n || i % stride == 0
  }

  /** The positions kept among the first `m` of `n` rows. */
  function Positions(n: nat, stride: nat, m: nat): (p: seq<nat>)
    requires stride > 0
  {
    if m == 0 then []
    else Positions(n, stride, m - 1) + (if Kept(n, stride, m - 1) then [m - 1] else [])
  }

  lemma {:induction false} PositionsAre(n: nat, stride: nat, m: nat, i: nat)
    requires stride > 0
    ensures i in Positions(n, stride, m) <==> i < m && Kept(n, stride, i)
  {
    if m > 0 {
      PositionsAre(n, stride, m - 1, i);
      hide Kept;
    }
  }

  lemma {:induction false} PositionsAscend(n: nat, stride: nat, m: nat)
    requires stride > 0
    ensures forall i :: i in Positions(n, stride, m) ==> i < m
    ensures forall a, b :: 0 <= a < b < |Positions(n, stride, m)| ==>
      Positions(n, stride, m)[a] < Positions(n, stride, m)[b]
  {
    hide Kept;
    if m > 0 {
      PositionsAscend(n, stride, m - 1);
      var rest, p := Positions(n, stride, m - 1), Positions(n, stride, m);
      forall a | 0 <= a < |rest| ensures rest[a] < m - 1 { assert rest[a] in rest; }
      forall a, b | 0 <= a < b < |p| ensures p[a] < p[b] {
        assert p[a] == rest[a];
      }
    }
  }

  /** First and last rows are kept. */
  lemma KeepsFirstAndLast(n: nat, stride: nat)
    requires stride > 0 && n > 0
    ensures var p := Positions(n, stride, n); p != [] && p[0] == 0 && p[|p| - 1] == n - 1
  {
    var p := Positions(n, stride, n);
    PositionsAscend(n, stride, n);
    PositionsAre(n, stride, n, 0);
    PositionsAre(n, stride, n, n - 1);
    var a :| 0 <= a < |p| && p[a] == 0;
    var b :| 0 <= b < |p| && p[b] == n - 1;
    assert forall k :: 0 < k < |p| ==> p[0] < p[k];
    assert a == 0;
    assert p[|p| - 1] in p;
    assert forall k :: 0 <= k < |p| - 1 ==> p[k] < p[|p| - 1];
    assert b == |p| - 1;
  }

  lemma NextMultiple(i: nat, stride: nat) returns (x: nat)
    requires stride > 0
    ensures i < x <= i + stride && x % stride == 0
  {
    x := i - i % stride + stride;
    Remainder(i, stride);
    Distribute(i / stride, 1, stride);
    MultipleOf(i / stride + 1, stride, x);
  }

  lemma MultipleOf(q: nat, d: nat, x: nat)
    requires d > 0 && x == q * d
    ensures x % d == 0
  {
    QuotientIs(x, d, q);
    Remainder(x, d);
  }

  /** Two neighbouring kept rows are at most the stride apart. */
  lemma GapAtMostStride(n: nat, stride: nat, k: nat)
    requires stride > 0 && k + 1 < |Positions(n, stride, n)|
    ensures var p := Positions(n, stride, n); p[k] < p[k + 1] <= p[k] + stride
  {
    var p := Positions(n, stride, n);
    PositionsAscend(n, stride, n);
    assert p[k + 1] in p;
    var x := NextMultiple(p[k], stride);
    if x < n {
      PositionsAre(n, stride, n, x);
      var j :| 0 <= j < |p| && p[j] == x;
      assert k + 1 <= j;
    }
  }

  /** How many rows are kept, in closed form. */
  function KeptCount(n: nat, stride: nat): nat
    requires stride > 0 && n > 0
  {
    (n - 1) / stride + 1 + (if (n - 1) % stride == 0 then 0 else 1)
  }

  lemma {:induction false} CountBeforeLast(n: nat, stride: nat, m: nat)
    requires stride > 0 && m < n
    ensures |Positions(n, stride, m)| == CeilDiv(m, stride)
  {
    if m == 0 {
      CeilingAtMost(0, stride, 0);
    } else {
      CountBeforeLast(n, stride, m - 1);
      CeilStep(m - 1, stride);
    }
  }

  lemma CeilStep(a: nat, d: nat)
    requires d > 0
    ensures CeilDiv(a + 1, d) == CeilDiv(a, d) + (if a % d == 0 then 1 else 0)
    ensures CeilDiv(a + 1, d) == a / d + 1
  {
    var q, r := a / d, a % d;
    Remainder(a, d);
    Distribute(q, 1, d);
    Distribute(q + 1, 1, d);
    QuotientIs(a + d, d, q + 1);
    QuotientIs(a + d - 1, d, if r == 0 then q else q + 1);
  }

  lemma CountKept(n: nat, stride: nat)
    requires stride > 0 && n > 0
    ensures |Positions(n, stride, n)| == KeptCount(n, stride)
  {
    CountBeforeLast(n, stride, n - 1);
    CeilStep(n - 1, stride);
  }

  // ---------------------------------------------------------------- the two bounds

  /** A stride keeps at most `b` rows exactly when `b - 1` strides reach the last row. */
  lemma CountWithin(n: nat, stride: nat, b: nat)
    requires n > 0 && stride > 0 && b > 0
    ensures KeptCount(n, stride) <= b <==> n - 1 <= stride * (b - 1)
  {
    var q := (n - 1) / stride;
    Remainder(n - 1, stride);
    if n - 1 <= stride * (b - 1) {
      FactorBelow(stride, q, b);
    } else {
      FactorBelow(stride, b - 1, q + 1);
    }
  }

  /** A historical window takes the finest stride that stays within its limit. */
  lemma WindowStrideIsFinest(n: nat, maxPoints: int, stride: nat)
    requires n > 0 && stride > 0
    ensures KeptCount(n, stride) <= Bounded(maxPoints) <==> stride >= BoundedWindowStride(n, maxPoints)
  {
    var b := Bounded(maxPoints);
    CountWithin(n, stride, b);
    CeilingAtMost(n - 1, b - 1, stride);
    CeilingAtMost(n - 1, b - 1, 1);
    if n <= b { Below(1, stride, b - 1); }
  }

  /** So it never returns more rows than asked for, within the hard limit. */
  lemma WindowWithinLimit(n: nat, maxPoints: int)
    requires n > 0
    ensures KeptCount(n, BoundedWindowStride(n, maxPoints)) <= Bounded(maxPoints)
  {
    WindowStrideIsFinest(n, maxPoints, BoundedWindowStride(n, maxPoints));
  }

  /** A waveform takes the least stride that leaves no more steps than its limit. */
  lemma WaveformStrideIsFinest(n: nat, maxPoints: int, stride: nat)
    requires n > 0 && stride > 0
    ensures stride >= BoundedStride(n, maxPoints) <==> n <= Bounded(maxPoints) * stride
  {
    CeilingAtMost(n, Bounded(maxPoints), stride);
  }

  /**
    A waveform may return one row more than asked for, never two; it does so exactly when the rows
    reach beyond the last full stride.
   */
  lemma WaveformBound(n: nat, maxPoints: int)
    requires n > 0
    ensures var b, s := Bounded(maxPoints), BoundedStride(n, maxPoints);
      KeptCount(n, s) <= b + 1 && (KeptCount(n, s) == b + 1 <==> n - 1 > (b - 1) * s)
  {
    var b, s := Bounded(maxPoints), BoundedStride(n, maxPoints);
    CeilingAtMost(n, b, s);
    LastStride(n - 1, s, b);
  }

  lemma LastStride(a: nat, s: nat, b: nat)
    requires s > 0 && b > 0 && a < s * b
    ensures a / s <= b - 1
    ensures a / s == b - 1 && a % s != 0 <==> a > (b - 1) * s
  {
    Remainder(a, s);
    Distribute(b - 1, 1, s);
    FactorBelow(s, a / s, b);
    QuotientIs(a, s, b - 1);
  }

  /** For every limit the extra row is attained: twice as many rows as the limit. */
  lemma WaveformExceeds(maxPoints: int)
    ensures var b := Bounded(maxPoints); KeptCount(2 * b, BoundedStride(2 * b, maxPoints)) == b + 1
  {
    var b := Bounded(maxPoints);
    Distribute(2, 1, b);
    QuotientIs(2 * b + b - 1, b, 2);
    WaveformBound(2 * b, maxPoints);
  }

  /** The rows a query returns. */
  function Returned<T>(rows: seq<T>, stride: nat): (r: seq<T>)
    requires stride > 0
  {
    PositionsAscend(|rows|, stride, |rows|);
    var p := Positions(|rows|, stride, |rows|);
    seq(|p|, k requires 0 <= k < |p| => assert p[k] in p; rows[p[k]])
  }

  /** A window display: both ends, every step at most the stride, and no more rows than asked for. */
  lemma WindowDisplay<T>(rows: seq<T>, maxPoints: int)
    requires rows != []
    ensures var shown := Returned(rows, BoundedWindowStride(|rows|, maxPoints));
      0 < |shown| <= Bounded(maxPoints) && shown[0] == rows[0] && shown[|shown| - 1] == rows[|rows| - 1]
    ensures var s := BoundedWindowStride(|rows|, maxPoints);
      var shown, p := Returned(rows, s), Positions(|rows|, s, |rows|);
      && |p| == |shown|
      && (forall k :: 0 <= k < |p| ==> p[k] < |rows| && shown[k] == rows[p[k]])
      && (forall k :: 0 < k < |p| ==> p[k - 1] < p[k] <= p[k - 1] + s)
  {
    var s := BoundedWindowStride(|rows|, maxPoints);
    var p := Positions(|rows|, s, |rows|);
    PositionsAscend(|rows|, s, |rows|);
    forall k | 0 < k < |p| ensures p[k - 1] < p[k] <= p[k - 1] + s {
      GapAtMostStride(|rows|, s, k - 1);
    }
    forall k | 0 <= k < |p| ensures p[k] < |rows| {
      assert p[k] in p;
    }
    KeepsFirstAndLast(|rows|, s);
    CountKept(|rows|, s);
    WindowWithinLimit(|rows|, maxPoints);
  }
}
