/**
  The reconciler's sweep: pages through the active triggers in (updated_at, device_id) order
  with a keyset cursor while the visits themselves turn expired triggers off.
 */
module TimeoutSweep {
  import opened Prelude
  import opened BlastExpiry
  import opened BlastTrigger

  /** The keyset position of a config row. */
  datatype Position = Position(updatedAt: Time, device: DeviceId)

  predicate Less(a: Position, b: Position) {
    a.updatedAt < b.updatedAt || (a.updatedAt == b.updatedAt && a.device < b.device)
  }

  predicate Ascending(ps: seq<Position>) {
    forall i, j :: 0 <= i < j < |ps| ==> Less(ps[i], ps[j])
  }

  predicate Beyond(cursor: Option<Position>, p: Position) {
    cursor.None? || Less(cursor.value, p)
  }

  function ActivePositions(settings: map<DeviceId, Setting>): set<Position> {
    set d | d in settings && settings[d].value == 1 :: Position(settings[d].updatedAt, d)
  }

  /** The rows the page query selects. */
  function Candidates(settings: map<DeviceId, Setting>, cursor: Option<Position>): set<Position> {
    set p | p in ActivePositions(settings) && Beyond(cursor, p)
  }

  function Unvisited(s: State, visited: seq<Position>): set<Position> {
    set p | p in ActivePositions(s.settings) && p !in visited
  }

  /** `page` is what ORDER BY ... LIMIT returns for the candidates beyond the cursor. */
  ghost predicate IsPage(page: seq<Position>, candidates: set<Position>, limit: nat) {
    && Ascending(page) && |page| <= limit
    && (forall p :: p in page ==> p in candidates)
    && (forall p :: p in candidates && p !in page ==> |page| == limit && forall q :: q in page ==> Less(q, p))
  }

  method Smallest(candidates: set<Position>) returns (least: Position)
    requires candidates != {}
    ensures least in candidates
    ensures forall p :: p in candidates ==> p == least || Less(least, p)
  {
    least :| least in candidates;
    var rest := candidates - {least};
    while rest != {}
      invariant least in candidates && rest <= candidates
      invariant forall p :: p in candidates && p !in rest ==> p == least || Less(least, p)
      decreases |rest|
    {
      var p :| p in rest;
      if Less(p, least) {
        least := p;
      }
      rest := rest - {p};
    }
  }

  method FetchPage(settings: map<DeviceId, Setting>, cursor: Option<Position>, limit: nat) returns (page: seq<Position>)
    requires limit >= 1
    ensures IsPage(page, Candidates(settings, cursor), limit)
  {
    var all := Candidates(settings, cursor);
    var rest := all;
    page := [];
    while rest != {} && |page| < limit
      invariant rest <= all && |page| <= limit && Ascending(page)
      invariant forall p :: p in all <==> p in rest || p in page
      invariant forall p, q :: p in page && q in rest ==> Less(p, q)
      decreases |rest|
    {
      var p := Smallest(rest);
      page := page + [p];
      rest := rest - {p};
    }
  }

  // ---------------------------------------------------------------- the sweep

  /** Start time and wall clock of the k-th visit's transaction. */
  datatype Readings = Readings(begin: nat -> Time, clock: nat -> Time)

  function Visit(visited: seq<Position>, k: nat, r: Readings): Event
    requires k < |visited|
  {
    Expire(visited[k].device, r.begin(k), r.clock(k))
  }

  function Visits(visited: seq<Position>, r: Readings): seq<Event> {
    seq(|visited|, k requires 0 <= k < |visited| => Visit(visited, k, r))
  }

  /** The expiry check fires at the k-th visit. */
  predicate Fires(s: State, visited: seq<Position>, k: nat, r: Readings)
    requires k < |visited|
  {
    RunOut(s, visited[k].device, visited[k].updatedAt, r.clock(k))
  }

  function FiredCount(s: State, visited: seq<Position>, n: nat, r: Readings): nat
    requires n <= |visited|
  {
    if n == 0 then 0 else FiredCount(s, visited, n - 1, r) + if Fires(s, visited, n - 1, r) then 1 else 0
  }

  /** What visiting the first `n` positions of `visited` has done to the settings of `s`. */
  ghost predicate Swept(s: State, settings: map<DeviceId, Setting>, visited: seq<Position>, n: nat, r: Readings)
    requires n <= |visited|
  {
    && settings.Keys == s.settings.Keys
    && (forall d :: d in settings && (forall k :: 0 <= k < n ==> visited[k].device != d) ==>
          settings[d] == s.settings[d])
    && (forall k :: 0 <= k < n ==> visited[k].device in settings)
    && (forall k :: 0 <= k < n ==>
          var c := settings[visited[k].device];
          if Fires(s, visited, k, r) then c.value == 0 && c.updatedAt == r.begin(k)
          else c == s.settings[visited[k].device])
  }

  /** Visited so far, in order, without gaps among the triggers that were active at the start. */
  ghost predicate Progress(s: State, visited: seq<Position>) {
    && Ascending(visited)
    && (forall p :: p in visited ==> p in ActivePositions(s.settings))
    && (forall p :: p in ActivePositions(s.settings) && p !in visited ==> forall q :: q in visited ==> Less(q, p))
  }

  lemma {:induction false} RunSnoc(s: State, es: seq<Event>, e: Event)
    ensures Run(s, es + [e]) == Next(Run(s, es), e)
    decreases |es|
  {
    if es == [] {
      assert ([] + [e])[1..] == [];
    } else {
      assert (es + [e])[1..] == es[1..] + [e];
      RunSnoc(Next(s, es[0]), es[1..], e);
    }
  }

  predicate MatchesSetting(s: State, p: Position) {
    p.device in s.settings && s.settings[p.device].value == 1 && s.settings[p.device].updatedAt == p.updatedAt
  }

  lemma DistinctDevices(s: State, visited: seq<Position>)
    requires Progress(s, visited)
    ensures forall i, j :: 0 <= i < j < |visited| ==> visited[i].device != visited[j].device
    ensures forall i | 0 <= i < |visited| :: MatchesSetting(s, visited[i])
  {
    forall i | 0 <= i < |visited|
      ensures MatchesSetting(s, visited[i])
    {
      assert visited[i] in visited;
    }
  }

  /** One more visit, of the next position. */
  lemma VisitExtendsSwept(s: State, t: State, visited: seq<Position>, n: nat, r: Readings)
    requires n < |visited| && Progress(s, visited)
    requires Swept(s, t.settings, visited, n, r) && t.limits == s.limits && t.registry == s.registry
    requires forall d :: d in s.settings ==> d in s.registry
    ensures var u := Next(t, Visit(visited, n, r));
      && Swept(s, u.settings, visited, n + 1, r) && u.limits == s.limits && u.registry == s.registry
      && TimesOut(t, visited[n].device, r.clock(n)) == Fires(s, visited, n, r)
  {
    DistinctDevices(s, visited);
    var d := visited[n].device;
    assert t.settings[d] == s.settings[d];
    assert LimitOf(t, d) == LimitOf(s, d);
    var u := Next(t, Visit(visited, n, r));
    forall k | 0 <= k < n + 1
      ensures visited[k].device in u.settings
        && (if Fires(s, visited, k, r)
            then u.settings[visited[k].device].value == 0 && u.settings[visited[k].device].updatedAt == r.begin(k)
            else u.settings[visited[k].device] == s.settings[visited[k].device])
    {
      if k < n { assert visited[k].device != d; }
    }
  }

  /** After the first `n` visits, what a page query beyond the last visited position can still see. */
  lemma RemainingCandidates(s: State, settings: map<DeviceId, Setting>, visited: seq<Position>,
                            cursor: Option<Position>, r: Readings)
    requires Progress(s, visited) && Swept(s, settings, visited, |visited|, r)
    requires if visited == [] then cursor.None? else cursor == Some(visited[|visited| - 1])
    ensures Candidates(settings, cursor) == Unvisited(s, visited)
  {
    DistinctDevices(s, visited);
    forall p
      ensures p in Candidates(settings, cursor) <==> p in Unvisited(s, visited)
    {
      if p in ActivePositions(s.settings) && p !in visited {
        forall k | 0 <= k < |visited| ensures visited[k].device != p.device {
          assert visited[k] in visited;
        }
        assert settings[p.device] == s.settings[p.device];
      }
      if p in ActivePositions(settings) && Beyond(cursor, p) {
        forall k | 0 <= k < |visited| ensures visited[k].device != p.device {
          assert k == |visited| - 1 || Less(visited[k], visited[|visited| - 1]);
          var v := visited[k];
          assert !Fires(s, visited, k, r) && v.device == p.device ==> p == v;
        }
      }
    }
  }

  lemma ProgressExtends(s: State, visited: seq<Position>, page: seq<Position>, limit: nat)
    requires Progress(s, visited)
    requires IsPage(page, Unvisited(s, visited), limit)
    ensures Progress(s, visited + page)
    ensures |page| < limit ==> forall p :: p in ActivePositions(s.settings) ==> p in visited + page
  {
    var all := visited + page;
    forall i, j | 0 <= i < j < |all| ensures Less(all[i], all[j]) {
      if i < |visited| <= j {
        assert all[i] in visited && all[j] in page;
      }
    }
  }

  /** What holds after the first `n` visits of a sweep that began in state `s`. */
  ghost predicate AfterVisits(s: State, t: State, visited: seq<Position>, n: nat, total: nat, r: Readings)
    requires n <= |visited|
  {
    && Swept(s, t.settings, visited, n, r) && t.limits == s.limits && t.registry == s.registry
    && total == FiredCount(s, visited, n, r)
    && t == Run(s, Visits(visited[..n], r))
  }

  lemma VisitAdvances(s: State, t: State, visited: seq<Position>, n: nat, total: nat, r: Readings)
    requires n < |visited| && Progress(s, visited) && AfterVisits(s, t, visited, n, total, r)
    requires forall d :: d in s.settings ==> d in s.registry
    ensures AfterVisits(s, Next(t, Visit(visited, n, r)), visited, n + 1,
                        total + if TimesOut(t, visited[n].device, r.clock(n)) then 1 else 0, r)
  {
    VisitExtendsSwept(s, t, visited, n, r);
    VisitsSnoc(visited, n, r);
    RunSnoc(s, Visits(visited[..n], r), Visit(visited, n, r));
  }

  lemma SweptIsRegistered(s: State, t: State, visited: seq<Position>, n: nat, total: nat, r: Readings)
    requires n <= |visited| && AfterVisits(s, t, visited, n, total, r)
    requires forall d :: d in s.settings ==> d in s.registry
    ensures forall d :: d in t.settings ==> d in t.registry
  {
  }

  /** The inner loop: one transaction per candidate of the page. */
  method VisitPage(store: TriggerStore, page: seq<Position>, count: nat, total: nat, r: Readings,
                   ghost s: State, ghost visited: seq<Position>)
    returns (total': nat)
    requires |visited| == count + |page| && visited[count..] == page && Progress(s, visited)
    requires AfterVisits(s, store.Current(), visited, count, total, r)
    requires forall d :: d in s.settings ==> d in s.registry
    modifies store
    ensures AfterVisits(s, store.Current(), visited, |visited|, total', r)
  {
    hide AfterVisits, Progress, Next;
    total' := total;
    var k := 0;
    while k < |page|
      invariant 0 <= k <= |page|
      invariant AfterVisits(s, store.Current(), visited, count + k, total', r)
    {
      assert visited[count + k] == visited[count..][k];
      VisitAdvances(s, store.Current(), visited, count + k, total', r);
      SweptIsRegistered(s, store.Current(), visited, count + k, total', r);
      var fired := store.ExpireOne(page[k].device, r.begin(count + k), r.clock(count + k));
      total' := total' + if fired then 1 else 0;
      k := k + 1;
    }
  }

  /** The sweep visits every trigger active at its start exactly once, oldest first, whatever the
      page size, although it switches rows off while paging; it turns off exactly those whose check
      fires at their visit, counts them, and is a run of TIMEOUT events of the trigger protocol. */
  method ReconcileOnce(store: TriggerStore, limit: int, r: Readings)
    returns (result: Result<nat, string>, ghost visited: seq<Position>)
    requires forall d :: d in store.settings ==> d in store.registry
    modifies store
    ensures result.Ok? <==> 1 <= limit <= 1000
    ensures result.Err? ==> store.Current() == old(store.Current())
    ensures result.Ok? ==>
      && Ascending(visited) && (forall p :: p in visited <==> p in ActivePositions(old(store.settings)))
      && AfterVisits(old(store.Current()), store.Current(), visited, |visited|, result.value, r)
  {
    visited := [];
    if !(1 <= limit <= 1000) {
      return Err("limit must be 1..1000"), visited;
    }
    hide IsPage, Candidates, Progress, Swept, FiredCount, Run, Visits;
    ghost var s := store.Current();
    SweepBegins(s, r);
    var total := 0;
    var cursor: Option<Position> := None;
    var done := false;
    var count := 0;
    while !done
      invariant count == |visited| && SweepInv(s, store.Current(), visited, cursor, total, r)
      invariant done ==> Unvisited(s, visited) == {}
      decreases !done, |ActivePositions(s.settings)| - |visited|
    {
      var page := FetchPage(store.settings, cursor, limit);
      PageStep(s, store.Current(), visited, cursor, total, page, limit, r);
      if page == [] {
        done := true;
      } else {
        cursor := Some(page[|page| - 1]);
        visited := visited + page;
        total := VisitPage(store, page, count, total, r, s, visited);
        count := count + |page|;
        done := |page| < limit;
      }
    }
    NothingUnvisited(s, visited);
    return Ok(total), visited;
  }

  lemma VisitedFits(s: State, visited: seq<Position>)
    requires Progress(s, visited)
    ensures |visited| <= |ActivePositions(s.settings)|
  {
    AscendingIsSmall(visited, ActivePositions(s.settings));
  }

  lemma {:induction false} AscendingIsSmall(ps: seq<Position>, all: set<Position>)
    requires Ascending(ps) && forall p :: p in ps ==> p in all
    ensures |ps| <= |all|
  {
    if ps != [] {
      var n := |ps| - 1;
      AscendingIsSmall(ps[..n], all - {ps[n]});
    }
  }

  lemma {:induction false} FiredCountPrefix(s: State, before: seq<Position>, page: seq<Position>, n: nat, r: Readings)
    requires n <= |before|
    ensures FiredCount(s, before + page, n, r) == FiredCount(s, before, n, r)
  {
    if n > 0 {
      FiredCountPrefix(s, before, page, n - 1, r);
    }
  }

  lemma SweptPrefix(s: State, settings: map<DeviceId, Setting>, before: seq<Position>, page: seq<Position>, r: Readings)
    requires Swept(s, settings, before, |before|, r)
    ensures Swept(s, settings, before + page, |before|, r)
    ensures FiredCount(s, before + page, |before|, r) == FiredCount(s, before, |before|, r)
    ensures (before + page)[..|before|] == before
  {
    FiredCountPrefix(s, before, page, |before|, r);
    var all := before + page;
    assert forall k :: 0 <= k < |before| ==> all[k] == before[k] && Fires(s, all, k, r) == Fires(s, before, k, r);
  }

  lemma AfterVisitsPrefix(s: State, t: State, before: seq<Position>, page: seq<Position>, total: nat, r: Readings)
    requires AfterVisits(s, t, before, |before|, total, r)
    ensures AfterVisits(s, t, before + page, |before|, total, r) && (before + page)[|before|..] == page
  {
    SweptPrefix(s, t.settings, before, page, r);
    assert before[..|before|] == before;
  }

  /** Between pages: everything up to the cursor has been visited. */
  ghost predicate SweepInv(s: State, t: State, visited: seq<Position>, cursor: Option<Position>, total: nat,
                           r: Readings) {
    && (if visited == [] then cursor.None? else cursor == Some(visited[|visited| - 1]))
    && Progress(s, visited)
    && AfterVisits(s, t, visited, |visited|, total, r)
  }

  lemma SweepBegins(s: State, r: Readings)
    ensures SweepInv(s, s, [], None, 0, r)
  {
    assert Visits([], r) == [];
  }

  lemma NothingUnvisited(s: State, visited: seq<Position>)
    requires Progress(s, visited) && Unvisited(s, visited) == {}
    ensures Ascending(visited) && forall p :: p in visited <==> p in ActivePositions(s.settings)
  {
    assert forall p :: p in ActivePositions(s.settings) && p !in visited ==> p in Unvisited(s, visited);
  }

  /** What a fetched page means for the sweep: the next positions in order, or all that are left. */
  lemma PageStep(s: State, t: State, visited: seq<Position>, cursor: Option<Position>, total: nat,
                 page: seq<Position>, limit: nat, r: Readings)
    requires limit >= 1 && SweepInv(s, t, visited, cursor, total, r)
    requires IsPage(page, Candidates(t.settings, cursor), limit)
    ensures Progress(s, visited + page) && |visited + page| <= |ActivePositions(s.settings)|
    ensures AfterVisits(s, t, visited + page, |visited|, total, r) && (visited + page)[|visited|..] == page
    ensures |page| < limit ==> Unvisited(s, visited + page) == {}
    ensures page == [] ==> visited + page == visited
  {
    RemainingCandidates(s, t.settings, visited, cursor, r);
    ProgressExtends(s, visited, page, limit);
    VisitedFits(s, visited + page);
    AfterVisitsPrefix(s, t, visited, page, total, r);
  }

  lemma VisitsSnoc(visited: seq<Position>, n: nat, r: Readings)
    requires n < |visited|
    ensures Visits(visited[..n + 1], r) == Visits(visited[..n], r) + [Visit(visited, n, r)]
  {
    assert visited[..n + 1][..n] == visited[..n];
  }

  /** A trigger that had already expired when the sweep began is off when it ends. */
  lemma ExpiredAtStartIsReset(s: State, settings: map<DeviceId, Setting>, visited: seq<Position>, r: Readings,
                              t0: Time, d: DeviceId)
    requires forall p :: p in visited <==> p in ActivePositions(s.settings)
    requires Swept(s, settings, visited, |visited|, r) && (forall k: nat :: r.clock(k) >= t0)
    requires d in s.settings && s.settings[d].value == 1 && RunOut(s, d, s.settings[d].updatedAt, t0)
    ensures d in settings && settings[d].value == 0
  {
    var p := Position(s.settings[d].updatedAt, d);
    assert p in ActivePositions(s.settings);
    var k :| 0 <= k < |visited| && visited[k] == p;
    assert r.clock(k) >= t0;
    assert Fires(s, visited, k, r);
  }
}
