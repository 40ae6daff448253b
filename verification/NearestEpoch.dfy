/**
  Matching rover epochs to base epochs: the two neighbours that bisection finds against all base epochs.
  Times are integer microseconds.
 */
module NearestEpoch {
  import opened Prelude

  ghost predicate StrictlyAscending(s: seq<int>) {
    forall i, j :: 0 <= i < j < |s| ==> s[i] < s[j]
  }

  function Distance(a: int, b: int): nat {
    if a < b then b - a else a - b
  }

  /** The first position whose element is not below `x`. */
  function BisectLeft(base: seq<int>, x: int): (i: nat)
    ensures i <= |base|
    ensures StrictlyAscending(base) ==> forall k :: 0 <= k < |base| ==> (base[k] < x <==> k < i)
  {
    if base == [] || base[|base| - 1] < x then |base| else BisectLeft(base[..|base| - 1], x)
  }

  /** The distance to the nearest of the two neighbours, if there is any base epoch. */
  function NeighbourDistance(base: seq<int>, x: int): Option<nat> {
    var i := BisectLeft(base, x);
    if base == [] then None
    else if i == 0 then Some(Distance(base[0], x))
    else if i == |base| then Some(Distance(base[i - 1], x))
    else
      var before, after := Distance(base[i - 1], x), Distance(base[i], x);
      Some(if before < after then before else after)
  }

  /** `d` is the smallest distance from `x` to any base epoch. */
  ghost predicate IsNearest(base: seq<int>, x: int, d: nat) {
    (exists b :: b in base && Distance(b, x) == d) && forall b :: b in base ==> d <= Distance(b, x)
  }

  /** The two neighbours decide: no base epoch is nearer. */
  lemma NeighboursSuffice(base: seq<int>, x: int)
    requires StrictlyAscending(base)
    ensures NeighbourDistance(base, x).Some? <==> base != []
    ensures base != [] ==> IsNearest(base, x, NeighbourDistance(base, x).value)
  {
    if base != [] {
      var i, d := BisectLeft(base, x), NeighbourDistance(base, x).value;
      forall b | b in base ensures d <= Distance(b, x) {
        var k :| 0 <= k < |base| && base[k] == b;
        if k < i {
          assert base[k] <= base[i - 1] < x;
        } else {
          assert x <= base[i] <= base[k];
        }
      }
      var at := if i == 0 then 0
                else if i == |base| || Distance(base[i - 1], x) < Distance(base[i], x) then i - 1
                else i;
      assert base[at] in base && Distance(base[at], x) == d;
    }
  }

  /** Whether any base epoch lies within the tolerance. */
  predicate AnyWithin(base: seq<int>, x: int, tolerance: real) {
    exists b :: b in base && Distance(b, x) as real <= tolerance
  }

  /** The quadratic count of the worker: rover epochs with any base epoch within the tolerance. */
  function OverlapCount(rover: seq<int>, base: seq<int>, tolerance: real): (n: nat)
    ensures n <= |rover|
  {
    if rover == [] then 0
    else
      var last := |rover| - 1;
      OverlapCount(rover[..last], base, tolerance) + (if AnyWithin(base, rover[last], tolerance) then 1 else 0)
  }

  /** A rover epoch matches when some base epoch is at most the tolerance earlier or later. */
  lemma WithinExactly(base: seq<int>, x: int, tolerance: real)
    ensures AnyWithin(base, x, tolerance) <==>
      exists b :: b in base && (b - x) as real <= tolerance && (x - b) as real <= tolerance
  {
    if b :| b in base && (b - x) as real <= tolerance && (x - b) as real <= tolerance {
      assert Distance(b, x) as real <= tolerance;
    }
  }

  lemma WithinIffNearest(base: seq<int>, x: int, tolerance: real)
    requires StrictlyAscending(base)
    ensures AnyWithin(base, x, tolerance)
      <==> base != [] && NeighbourDistance(base, x).value as real <= tolerance
  {
    NeighboursSuffice(base, x);
  }

  /** `nearest` is the smallest distance between any of the rover epochs and any base epoch. */
  ghost predicate IsNearestPair(rover: seq<int>, base: seq<int>, nearest: Option<nat>) {
    match nearest
    case None => rover == [] || base == []
    case Some(d) =>
      (exists r, b :: r in rover && b in base && Distance(b, r) == d)
      && forall r, b :: r in rover && b in base ==> d <= Distance(b, r)
  }

  lemma NoPairs(rover: seq<int>, base: seq<int>)
    ensures rover == [] || base == [] ==> IsNearestPair(rover, base, None)
  {
  }

  lemma OneMoreRover(rover: seq<int>, base: seq<int>, x: int, nearest: Option<nat>, d: nat)
    requires base != [] && IsNearestPair(rover, base, nearest) && IsNearest(base, x, d)
    ensures IsNearestPair(rover + [x], base,
                          match nearest case None => Some(d) case Some(m) => Some(if m < d then m else d))
  {
    var best := match nearest case None => d case Some(m) => if m < d then m else d;
    var b :| b in base && Distance(b, x) == d;
    assert x in rover + [x];
    forall r, c | r in rover + [x] && c in base ensures best <= Distance(c, r) {
      if r in rover {
        assert nearest.Some? && nearest.value <= Distance(c, r);
      } else {
        assert r == x;
      }
    }
    if nearest.Some? && nearest.value < d {
      var r, c :| r in rover && c in base && Distance(c, r) == nearest.value;
      assert r in rover + [x];
    }
  }

  /**
    The loop of the endpoint.  Although it looks at two base epochs a rover epoch, it counts the rover
    epochs with any base epoch within the tolerance and finds the nearest of all pairs.
   */
  method MatchRover(base: seq<int>, epochs: seq<int>, tolerance: real) returns (matched: nat, nearest: Option<nat>)
    requires StrictlyAscending(base)
    ensures matched == OverlapCount(epochs, base, tolerance)
    ensures IsNearestPair(epochs, base, nearest)
  {
    hide AnyWithin, NeighbourDistance, IsNearestPair, IsNearest, StrictlyAscending;
    matched, nearest := 0, None;
    NoPairs([], base);
    for k := 0 to |epochs|
      invariant matched == OverlapCount(epochs[..k], base, tolerance)
      invariant IsNearestPair(epochs[..k], base, nearest) && (base == [] ==> nearest.None?)
    {
      var observed := epochs[k];
      assert epochs[..k + 1] == epochs[..k] + [observed] && epochs[..k + 1][..k] == epochs[..k];
      NeighboursSuffice(base, observed);
      WithinIffNearest(base, observed, tolerance);
      var distance := NeighbourDistance(base, observed);
      if distance.Some? {
        OneMoreRover(epochs[..k], base, observed, nearest, distance.value);
        nearest := match nearest
          case None => distance
          case Some(m) => Some(if m < distance.value then m else distance.value);
        if distance.value as real <= tolerance {
          matched := matched + 1;
        }
      } else {
        NoPairs(epochs[..k + 1], base);
      }
    }
    assert epochs[..|epochs|] == epochs;
  }

  ghost function Matching(rover: seq<int>, base: seq<int>, tolerance: real): set<int> {
    set r | r in rover && AnyWithin(base, r, tolerance)
  }

  /** On distinct epochs the count is that of a set: neither order nor the sorted copy matters. */
  lemma {:induction false} CountIsSetSize(rover: seq<int>, base: seq<int>, tolerance: real)
    requires forall i, j :: 0 <= i < j < |rover| ==> rover[i] != rover[j]
    ensures OverlapCount(rover, base, tolerance) == |Matching(rover, base, tolerance)|
  {
    hide AnyWithin;
    if rover == [] {
      assert Matching(rover, base, tolerance) == {};
    } else {
      var last := |rover| - 1;
      var rest := rover[..last];
      CountIsSetSize(rest, base, tolerance);
      assert rover == rest + [rover[last]];
      assert rover[last] !in rest;
      if AnyWithin(base, rover[last], tolerance) {
        assert Matching(rover, base, tolerance) == Matching(rest, base, tolerance) + {rover[last]};
      } else {
        assert Matching(rover, base, tolerance) == Matching(rest, base, tolerance);
      }
    }
  }

  /** The endpoint on sorted copies and the worker on its own lists report the same number. */
  lemma EndpointAgreesWithWorker(rover: seq<int>, sortedRover: seq<int>, base: seq<int>, sortedBase: seq<int>,
                                 tolerance: real)
    requires StrictlyAscending(sortedRover)
    requires forall i, j :: 0 <= i < j < |rover| ==> rover[i] != rover[j]
    requires (forall r :: r in rover <==> r in sortedRover) && (forall b :: b in base <==> b in sortedBase)
    ensures OverlapCount(sortedRover, sortedBase, tolerance) == OverlapCount(rover, base, tolerance)
  {
    CountIsSetSize(rover, base, tolerance);
    CountIsSetSize(sortedRover, sortedBase, tolerance);
    assert Matching(sortedRover, sortedBase, tolerance) == Matching(rover, base, tolerance);
  }
}
