/**
  Purged, embargoed, time-ordered cross-validation over event windows.  Times are integer microseconds.
 */
module PurgedSplit {
  import opened Prelude

  datatype Event = Event(id: string, start: int, end: int)

  datatype Fold = Fold(train: seq<string>, test: seq<string>)

  datatype SplitError = TooFewSplits | TooFewEvents

  // ---------------------------------------------------------------- sorting by start

  /** Puts `e` behind every event that does not start later. */
  function Insert(s: seq<Event>, e: Event): (r: seq<Event>)
    ensures |r| == |s| + 1 && forall x :: x in r <==> x in s || x == e
  {
    if s == [] || s[|s| - 1].start <= e.start then s + [e]
    else Insert(s[..|s| - 1], e) + [s[|s| - 1]]
  }

  /** The stable sort by start. */
  function SortedByStart(events: seq<Event>): seq<Event> {
    if events == [] then [] else Insert(SortedByStart(events[..|events| - 1]), events[|events| - 1])
  }

  ghost predicate Ordered(s: seq<Event>) {
    forall i, j :: 0 <= i < j < |s| ==> s[i].start <= s[j].start
  }

  lemma {:induction false} InsertOrders(s: seq<Event>, e: Event)
    requires Ordered(s)
    ensures Ordered(Insert(s, e))
  {
    if s != [] && s[|s| - 1].start > e.start {
      var init, last := s[..|s| - 1], s[|s| - 1];
      InsertOrders(init, e);
      assert forall x :: x in Insert(init, e) ==> x.start <= last.start;
    }
  }

  lemma {:induction false} InsertKeeps(s: seq<Event>, e: Event)
    ensures multiset(Insert(s, e)) == multiset(s) + multiset{e}
  {
    if s != [] && s[|s| - 1].start > e.start {
      InsertKeeps(s[..|s| - 1], e);
      assert s == s[..|s| - 1] + [s[|s| - 1]];
    }
  }

  /** Sorting keeps every event and orders them by start, whatever the input order. */
  lemma {:induction false} SortSorts(events: seq<Event>)
    ensures Ordered(SortedByStart(events)) && multiset(SortedByStart(events)) == multiset(events)
    ensures |SortedByStart(events)| == |events|
  {
    if events != [] {
      var init, last := events[..|events| - 1], events[|events| - 1];
      SortSorts(init);
      InsertOrders(SortedByStart(init), last);
      InsertKeeps(SortedByStart(init), last);
      assert events == init + [last];
    }
  }

  /** The events starting at `t`, in the order they stand. */
  function At(s: seq<Event>, t: int): seq<Event> {
    if s == [] then []
    else At(s[..|s| - 1], t) + (if s[|s| - 1].start == t then [s[|s| - 1]] else [])
  }

  lemma {:induction false} InsertStable(s: seq<Event>, e: Event, t: int)
    requires Ordered(s)
    ensures At(Insert(s, e), t) == At(s, t) + (if e.start == t then [e] else [])
  {
    var r := Insert(s, e);
    if s == [] || s[|s| - 1].start <= e.start {
      assert r[..|r| - 1] == s;
    } else {
      var init, last := s[..|s| - 1], s[|s| - 1];
      InsertStable(init, e, t);
      assert r[..|r| - 1] == Insert(init, e);
      if e.start == t {
        assert last.start != t;
      }
    }
  }

  /** Events that start together keep the order of the input. */
  lemma {:induction false} SortIsStable(events: seq<Event>, t: int)
    ensures At(SortedByStart(events), t) == At(events, t)
  {
    if events != [] {
      var init := events[..|events| - 1];
      SortIsStable(init, t);
      SortSorts(init);
      InsertStable(SortedByStart(init), events[|events| - 1], t);
    }
  }

  // ---------------------------------------------------------------- one fold

  function FoldSize(n: nat, splits: nat): nat {
    n / (splits + 1)
  }

  lemma FoldsFit(n: nat, splits: nat, k: nat)
    requires n >= splits + 1 && 1 <= k <= splits
    ensures FoldSize(n, splits) >= 1
    ensures FoldSize(n, splits) * k + FoldSize(n, splits) <= n
  {
    var size := FoldSize(n, splits);
    assert size * (splits + 1) <= n;
    Scaled(size, k + 1, splits + 1);
  }

  lemma Scaled(size: nat, a: nat, b: nat)
    requires a <= b
    ensures size * a <= size * b
  {
  }

  /** The events ending by `cutoff`, in order. */
  function EndingBy(s: seq<Event>, cutoff: int): seq<Event> {
    if s == [] then []
    else EndingBy(s[..|s| - 1], cutoff) + (if s[|s| - 1].end <= cutoff then [s[|s| - 1]] else [])
  }

  lemma {:induction false} EndingByMember(s: seq<Event>, cutoff: int, e: Event)
    ensures e in EndingBy(s, cutoff) <==> e in s && e.end <= cutoff
  {
    if s != [] {
      EndingByMember(s[..|s| - 1], cutoff, e);
      assert s == s[..|s| - 1] + [s[|s| - 1]];
    }
  }

  function Ids(s: seq<Event>): seq<string> {
    seq(|s|, i requires 0 <= i < |s| => s[i].id)
  }

  predicate Admitted(n: nat, splits: nat) {
    splits >= 2 && n >= splits + 1
  }

  /** The test events of fold `k`, counting from one. */
  function Test(ordered: seq<Event>, splits: nat, k: nat): (t: seq<Event>)
    requires Admitted(|ordered|, splits) && 1 <= k <= splits
    ensures |t| == FoldSize(|ordered|, splits) >= 1
  {
    var size := FoldSize(|ordered|, splits);
    FoldsFit(|ordered|, splits, k);
    ordered[size * k..size * k + size]
  }

  /** Its candidates for training: everything before the test events. */
  function Candidates(ordered: seq<Event>, splits: nat, k: nat): seq<Event>
    requires Admitted(|ordered|, splits) && 1 <= k <= splits
  {
    FoldsFit(|ordered|, splits, k);
    ordered[..FoldSize(|ordered|, splits) * k]
  }

  function Train(ordered: seq<Event>, splits: nat, embargo: int, k: nat): seq<Event>
    requires Admitted(|ordered|, splits) && 1 <= k <= splits
  {
    EndingBy(Candidates(ordered, splits, k), Test(ordered, splits, k)[0].start - embargo)
  }

  /** Fold `k` as the ids it returns. */
  function FoldAt(ordered: seq<Event>, splits: nat, embargo: int, k: nat): Fold
    requires Admitted(|ordered|, splits) && 1 <= k <= splits
  {
    Fold(Ids(Train(ordered, splits, embargo, k)), Ids(Test(ordered, splits, k)))
  }

  /** The first `k` folds. */
  function Folds(ordered: seq<Event>, splits: nat, embargo: int, k: nat): (r: seq<Fold>)
    requires Admitted(|ordered|, splits) && k <= splits
    ensures |r| == k
  {
    if k == 0 then [] else Folds(ordered, splits, embargo, k - 1) + [FoldAt(ordered, splits, embargo, k)]
  }

  lemma {:induction false} FoldsIndex(ordered: seq<Event>, splits: nat, embargo: int, k: nat, i: nat)
    requires Admitted(|ordered|, splits) && 1 <= i <= k <= splits
    ensures Folds(ordered, splits, embargo, k)[i - 1] == FoldAt(ordered, splits, embargo, i)
  {
    if i < k {
      FoldsIndex(ordered, splits, embargo, k - 1, i);
    }
  }

  function SplitPoint(size: nat, k: nat): nat {
    size * k
  }

  lemma FoldAtIs(ordered: seq<Event>, splits: nat, embargo: int, k: nat, size: nat, point: nat)
    requires Admitted(|ordered|, splits) && 1 <= k <= splits && size == FoldSize(|ordered|, splits)
    requires point == SplitPoint(size, k)
    ensures point < point + size <= |ordered|
    ensures FoldAt(ordered, splits, embargo, k)
      == Fold(Ids(EndingBy(ordered[..point], ordered[point].start - embargo)), Ids(ordered[point..point + size]))
  {
    FoldsFit(|ordered|, splits, k);
  }

  lemma SortLength(events: seq<Event>)
    ensures |SortedByStart(events)| == |events|
  {
    SortSorts(events);
  }

  /** The loop over the folds: exactly `splits` of them, because none has an empty test set. */
  method Split(splits: nat, embargo: int, events: seq<Event>) returns (r: Result<seq<Fold>, SplitError>)
    ensures r.Ok? <==> Admitted(|events|, splits)
    ensures r == Err(TooFewSplits) <==> splits < 2
    ensures r == Err(TooFewEvents) <==> splits >= 2 && |events| <= splits
    ensures r.Ok? ==> |SortedByStart(events)| == |events|
    ensures r.Ok? ==> r.value == Folds(SortedByStart(events), splits, embargo, splits) && |r.value| == splits
  {
    if splits < 2 {
      return Err(TooFewSplits);
    }
    var ordered := SortedByStart(events);
    SortLength(events);
    var n := |ordered|;
    if n < splits + 1 {
      return Err(TooFewEvents);
    }
    hide SortedByStart, EndingBy, Ids, FoldSize, FoldAt, SplitPoint, Train, Test, Candidates;
    var size := FoldSize(n, splits);
    var folds: seq<Fold> := [];
    for k := 1 to splits + 1
      invariant folds == Folds(ordered, splits, embargo, k - 1)
    {
      var splitPoint := SplitPoint(size, k);
      FoldAtIs(ordered, splits, embargo, k, size, splitPoint);
      var candidates, test := ordered[..splitPoint], ordered[splitPoint..splitPoint + size];
      if test != [] {
        var purgeBefore := test[0].start - embargo;
        folds := folds + [Fold(Ids(EndingBy(candidates, purgeBefore)), Ids(test))];
      }
    }
    r := Ok(folds);
  }

  // ---------------------------------------------------------------- properties of the folds

  /** A fold tests the k-th of the equal blocks behind the first one and draws on everything before it. */
  lemma FoldIsBlock(ordered: seq<Event>, splits: nat, embargo: int, k: nat, size: nat)
    requires Admitted(|ordered|, splits) && 1 <= k <= splits && size == |ordered| / (splits + 1)
    ensures 0 < size && size * k + size <= |ordered|
    ensures Candidates(ordered, splits, k) == ordered[..size * k]
    ensures Test(ordered, splits, k) == ordered[size * k..size * k + size]
    ensures var fold := FoldAt(ordered, splits, embargo, k);
      && |fold.test| == size && (forall i :: 0 <= i < size ==> fold.test[i] == ordered[size * k + i].id)
      && |fold.train| == |Train(ordered, splits, embargo, k)|
      && forall i :: 0 <= i < |fold.train| ==> fold.train[i] == Train(ordered, splits, embargo, k)[i].id
  {
    FoldsFit(|ordered|, splits, k);
    hide Train;
  }

  /**
    A candidate is kept exactly when it ends at least the embargo before every test event of its fold
    starts: no leak into the embargo zone, and nothing purged without need.
   */
  lemma KeptExactly(ordered: seq<Event>, splits: nat, embargo: int, k: nat, e: Event)
    requires Admitted(|ordered|, splits) && 1 <= k <= splits && Ordered(ordered)
    ensures e in Train(ordered, splits, embargo, k) <==>
      e in Candidates(ordered, splits, k)
      && forall t :: t in Test(ordered, splits, k) ==> e.end + embargo <= t.start
  {
    var test := Test(ordered, splits, k);
    FoldsFit(|ordered|, splits, k);
    EndingByMember(Candidates(ordered, splits, k), test[0].start - embargo, e);
    forall t | t in test ensures test[0].start <= t.start {
      var i :| 0 <= i < |test| && test[i] == t;
    }
    assert test[0] in test;
  }

  /** Every candidate stands before, and starts no later than, every test event. */
  lemma CandidatesStartEarlier(ordered: seq<Event>, splits: nat, k: nat, e: Event, t: Event)
    requires Admitted(|ordered|, splits) && 1 <= k <= splits && Ordered(ordered)
    requires e in Candidates(ordered, splits, k) && t in Test(ordered, splits, k)
    ensures e.start <= t.start
  {
    FoldsFit(|ordered|, splits, k);
    var size := FoldSize(|ordered|, splits);
    var i :| 0 <= i < size * k && ordered[i] == e;
    var j :| 0 <= j < size && Test(ordered, splits, k)[j] == t;
    assert ordered[size * k + j] == t;
  }

  function AllTests(ordered: seq<Event>, splits: nat, k: nat): seq<Event>
    requires Admitted(|ordered|, splits) && k <= splits
  {
    if k == 0 then [] else AllTests(ordered, splits, k - 1) + Test(ordered, splits, k)
  }

  /**
    The test sets are consecutive blocks of equal size starting after the first block: together they are
    one stretch of the ordered events, so no position is tested twice and only the remainder of the
    division is never tested.
   */
  lemma {:induction false} TestsAreConsecutive(ordered: seq<Event>, splits: nat, k: nat)
    requires Admitted(|ordered|, splits) && k <= splits
    ensures var size := FoldSize(|ordered|, splits);
      size * k + size <= |ordered| && AllTests(ordered, splits, k) == ordered[size..size * k + size]
  {
    var size := FoldSize(|ordered|, splits);
    if k == 0 {
      FoldsFit(|ordered|, splits, 1);
    } else {
      TestsAreConsecutive(ordered, splits, k - 1);
      FoldsFit(|ordered|, splits, k);
      assert size * (k - 1) + size == size * k;
      assert size <= size * k;
      assert ordered[size..size * k] + ordered[size * k..size * k + size] == ordered[size..size * k + size];
    }
  }

  lemma UntestedTail(n: nat, splits: nat)
    ensures n - (FoldSize(n, splits) * splits + FoldSize(n, splits)) == n % (splits + 1)
  {
    var size := FoldSize(n, splits);
    assert size * splits + size == size * (splits + 1);
  }

  /** Later folds train on at least what earlier folds trained on. */
  lemma TrainingGrows(ordered: seq<Event>, splits: nat, embargo: int, k: nat, e: Event)
    requires Admitted(|ordered|, splits) && 1 <= k < splits && Ordered(ordered)
    ensures e in Train(ordered, splits, embargo, k) ==> e in Train(ordered, splits, embargo, k + 1)
  {
    var size := FoldSize(|ordered|, splits);
    var a, b := SplitPoint(size, k), SplitPoint(size, k + 1);
    FoldParts(ordered, splits, k, a);
    FoldParts(ordered, splits, k + 1, b);
    Scaled(size, k, k + 1);
    hide SplitPoint, FoldSize, Candidates, Test, EndingBy;
    if e in Train(ordered, splits, embargo, k) {
      MoreEndEarly(ordered, a, b, embargo, e);
    }
  }

  lemma MoreEndEarly(ordered: seq<Event>, a: nat, b: nat, embargo: int, e: Event)
    requires Ordered(ordered) && a <= b < |ordered|
    requires e in EndingBy(ordered[..a], ordered[a].start - embargo)
    ensures e in EndingBy(ordered[..b], ordered[b].start - embargo)
  {
    hide EndingBy;
    EndingByMember(ordered[..a], ordered[a].start - embargo, e);
    EndingByMember(ordered[..b], ordered[b].start - embargo, e);
    var i :| 0 <= i < a && ordered[..a][i] == e;
    assert ordered[..b][i] == e;
  }

  lemma FoldParts(ordered: seq<Event>, splits: nat, k: nat, point: nat)
    requires Admitted(|ordered|, splits) && 1 <= k <= splits
    requires point == SplitPoint(FoldSize(|ordered|, splits), k)
    ensures point < |ordered| && Candidates(ordered, splits, k) == ordered[..point]
    ensures Test(ordered, splits, k)[0] == ordered[point]
  {
    FoldsFit(|ordered|, splits, k);
  }
}
