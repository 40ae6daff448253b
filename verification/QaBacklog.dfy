/** Which (rover, hour) windows the backlog selector hands to the worker. */
module QaBacklog {
  import opened Prelude
  import opened GpsTime
  import Ledger = QaLedger

  type DeviceId = Ledger.DeviceId

  datatype Slot = Slot(rover: DeviceId, start: Time)

  datatype Window = Window(slot: Slot, matched: nat)

  datatype JobStatus = Running | Completed | Failed

  datatype JobRecord = JobRecord(slot: Slot, status: JobStatus, attempts: Option<nat>)

  /** A cool-down entry as read from the state file. */
  datatype Cooldown = Blank | Until(instant: Time) | Malformed

  datatype Inputs = Inputs(
    jobs: seq<JobRecord>,
    solutions: set<Slot>,
    cooldowns: map<Slot, Cooldown>,
    now: Time,
    maxFailedAttempts: int)

  // ---------------------------------------------------------------- eligibility

  predicate Blocked(inp: Inputs, slot: Slot) {
    slot in inp.solutions ||
    exists k :: 0 <= k < |inp.jobs| && inp.jobs[k].slot == slot && !inp.jobs[k].status.Failed?
  }

  function AttemptsOf(j: JobRecord): nat {
    if j.attempts.Some? then j.attempts.value else 0
  }

  /** The largest attempt count among the slot's failed jobs; 0 if there is none. */
  function FailedAttempts(jobs: seq<JobRecord>, slot: Slot): nat {
    if jobs == [] then 0 else
      var n := |jobs| - 1;
      var before := FailedAttempts(jobs[..n], slot);
      if jobs[n].slot == slot && jobs[n].status.Failed? && AttemptsOf(jobs[n]) > before then AttemptsOf(jobs[n])
      else before
  }

  /** Only a readable instant that has passed, or no entry, permits a retry. */
  predicate Cooled(inp: Inputs, slot: Slot) {
    slot in inp.cooldowns ==>
      match inp.cooldowns[slot]
      case Blank => true
      case Until(t) => t <= inp.now
      case Malformed => false
  }

  predicate Eligible(inp: Inputs, w: Window) {
    !Blocked(inp, w.slot) && FailedAttempts(inp.jobs, w.slot) < inp.maxFailedAttempts && Cooled(inp, w.slot)
  }

  lemma {:induction false} FailedAttemptsBelow(jobs: seq<JobRecord>, slot: Slot, bound: int)
    ensures FailedAttempts(jobs, slot) < bound <==>
      0 < bound && forall k :: 0 <= k < |jobs| && jobs[k].slot == slot && jobs[k].status == Failed ==>
        AttemptsOf(jobs[k]) < bound
  {
    if jobs != [] {
      var n := |jobs| - 1;
      FailedAttemptsBelow(jobs[..n], slot, bound);
      assert (forall k :: 0 <= k < |jobs| && jobs[k].slot == slot && jobs[k].status == Failed ==>
                AttemptsOf(jobs[k]) < bound) <==>
             (jobs[n].slot == slot && jobs[n].status == Failed ==> AttemptsOf(jobs[n]) < bound)
             && forall k :: 0 <= k < n && jobs[..n][k].slot == slot && jobs[..n][k].status == Failed ==>
                  AttemptsOf(jobs[..n][k]) < bound;
    }
  }

  /** A window is taken up only if it is not solved, every job of it failed and often enough is not too often,
      and it is not cooling down; a missing count of attempts is none. */
  lemma EligibleExactly(inp: Inputs, w: Window)
    ensures Eligible(inp, w) <==>
      && w.slot !in inp.solutions && inp.maxFailedAttempts > 0
      && (forall k :: 0 <= k < |inp.jobs| && inp.jobs[k].slot == w.slot ==>
            inp.jobs[k].status == Failed
            && (inp.jobs[k].attempts.None? || inp.jobs[k].attempts.value < inp.maxFailedAttempts))
      && (w.slot !in inp.cooldowns || inp.cooldowns[w.slot] == Blank
          || (inp.cooldowns[w.slot].Until? && inp.cooldowns[w.slot].instant <= inp.now))
  {
    FailedAttemptsBelow(inp.jobs, w.slot, inp.maxFailedAttempts);
  }

  function EligibleOf(inp: Inputs, ws: seq<Window>): seq<Window> {
    if ws == [] then []
    else EligibleOf(inp, ws[..|ws| - 1]) + if Eligible(inp, ws[|ws| - 1]) then [ws[|ws| - 1]] else []
  }

  // ---------------------------------------------------------------- order

  /** `a` is listed strictly before `b`. */
  predicate Precedes(a: Slot, b: Slot, newestFirst: bool) {
    if newestFirst then b.start < a.start || (b.start == a.start && b.rover < a.rover)
    else a.start < b.start || (a.start == b.start && a.rover < b.rover)
  }

  /** Newest first means the later hour first, and otherwise the earlier one; the rover id decides within it. */
  lemma PrecedesExactly(a: Slot, b: Slot)
    ensures a.start < b.start ==> Precedes(a, b, false) && Precedes(b, a, true) && !Precedes(a, b, true)
    ensures a.start == b.start && a.rover < b.rover ==> Precedes(a, b, false) && Precedes(b, a, true)
    ensures forall newest :: Precedes(a, b, newest) ==> a != b && !Precedes(b, a, newest)
  {
  }

  predicate Ordered(ws: seq<Window>, newestFirst: bool) {
    forall i, j :: 0 <= i < j < |ws| ==> !Precedes(ws[j].slot, ws[i].slot, newestFirst)
  }

  /** Stable insertion: `w` goes before the first element it does not follow. */
  function Insert(w: Window, ws: seq<Window>, newestFirst: bool): (r: seq<Window>)
    ensures multiset(r) == multiset(ws) + multiset{w}
  {
    if ws == [] || !Precedes(ws[0].slot, w.slot, newestFirst) then [w] + ws
    else
      assert ws == [ws[0]] + ws[1..];
      [ws[0]] + Insert(w, ws[1..], newestFirst)
  }

  function Sort(ws: seq<Window>, newestFirst: bool): (r: seq<Window>)
    ensures multiset(r) == multiset(ws)
  {
    if ws == [] then [] else
      assert ws == [ws[0]] + ws[1..];
      Insert(ws[0], Sort(ws[1..], newestFirst), newestFirst)
  }

  lemma {:induction false} InsertKeepsOrder(w: Window, ws: seq<Window>, newestFirst: bool)
    requires Ordered(ws, newestFirst)
    ensures Ordered(Insert(w, ws, newestFirst), newestFirst)
  {
    var r := Insert(w, ws, newestFirst);
    if ws != [] && Precedes(ws[0].slot, w.slot, newestFirst) {
      var rest := Insert(w, ws[1..], newestFirst);
      InsertKeepsOrder(w, ws[1..], newestFirst);
      forall i, j | 0 <= i < j < |r| ensures !Precedes(r[j].slot, r[i].slot, newestFirst) {
        if i == 0 {
          assert r[j] in multiset(rest);
          assert r[j] == w || r[j] in ws[1..];
        } else {
          assert r[i] == rest[i - 1] && r[j] == rest[j - 1];
        }
      }
    }
  }

  lemma {:induction false} SortOrders(ws: seq<Window>, newestFirst: bool)
    ensures Ordered(Sort(ws, newestFirst), newestFirst)
  {
    if ws != [] {
      SortOrders(ws[1..], newestFirst);
      InsertKeepsOrder(ws[0], Sort(ws[1..], newestFirst), newestFirst);
    }
  }

  lemma {:induction false} EligibleMembers(inp: Inputs, ws: seq<Window>)
    ensures forall w :: w in EligibleOf(inp, ws) <==> w in ws && Eligible(inp, w)
  {
    if ws != [] {
      EligibleMembers(inp, ws[..|ws| - 1]);
      assert ws == ws[..|ws| - 1] + [ws[|ws| - 1]];
    }
  }

  function Take(ws: seq<Window>, limit: nat): seq<Window> {
    if |ws| <= limit then ws else ws[..limit]
  }

  function Selection(inp: Inputs, candidates: seq<Window>, limit: nat, newestFirst: bool): seq<Window> {
    Take(Sort(EligibleOf(inp, candidates), newestFirst), limit)
  }

  lemma TakeOfSorted(eligible: seq<Window>, sorted: seq<Window>, limit: nat, newestFirst: bool)
    requires Ordered(sorted, newestFirst) && multiset(sorted) == multiset(eligible)
    ensures var r := Take(sorted, limit);
      && Ordered(r, newestFirst) && |r| <= limit && multiset(r) <= multiset(eligible)
      && (forall w :: w in r ==> w in eligible)
      && (forall w, x :: w in eligible && w !in r && x in r ==> |r| == limit && !Precedes(w.slot, x.slot, newestFirst))
      && (forall w :: w in eligible && w !in r ==> |r| == limit)
  {
    var r := Take(sorted, limit);
    assert sorted == r + sorted[|r|..];
    forall w | w in eligible && w !in r
      ensures |r| == limit && exists j :: |r| <= j < |sorted| && sorted[j] == w
    {
      assert w in multiset(sorted);
    }
    forall w | w in r ensures w in eligible {
      assert w in multiset(eligible);
    }
  }

  /** The selection is the first `limit` of the eligible candidates, in order: it is ordered, contains
      only eligible candidates, and whatever eligible candidate it leaves out it leaves out because it
      is full, and lists nothing after it. */
  lemma SelectionIsFirstEligible(inp: Inputs, candidates: seq<Window>, limit: nat, newestFirst: bool)
    ensures var r := Selection(inp, candidates, limit, newestFirst);
      && Ordered(r, newestFirst) && |r| <= limit && multiset(r) <= multiset(EligibleOf(inp, candidates))
      && (forall w :: w in r ==> w in candidates && Eligible(inp, w))
      && (forall w :: w in candidates && Eligible(inp, w) && w !in r ==>
            |r| == limit && forall x :: x in r ==> !Precedes(w.slot, x.slot, newestFirst))
  {
    EligibleMembers(inp, candidates);
    SortOrders(EligibleOf(inp, candidates), newestFirst);
    TakeOfSorted(EligibleOf(inp, candidates), Sort(EligibleOf(inp, candidates), newestFirst), limit, newestFirst);
  }

  // ---------------------------------------------------------------- the selector

  method SelectWindows(candidates: seq<Window>, inp: Inputs, limit: int, newestFirst: bool)
    returns (result: Result<seq<Window>, string>)
    ensures result.Ok? <==> 1 <= limit <= 3
    ensures result.Ok? ==> result.value == Selection(inp, candidates, limit, newestFirst)
  {
    if !(1 <= limit <= 3) {
      return Err("max 3 rover-window combinations per run");
    }
    var blocked := inp.solutions;
    var failed: map<Slot, nat> := map[];
    var k := 0;
    while k < |inp.jobs|
      invariant 0 <= k <= |inp.jobs|
      invariant forall s :: s in blocked <==> Blocked(inp.(jobs := inp.jobs[..k]), s)
      invariant forall s :: (if s in failed then failed[s] else 0) == FailedAttempts(inp.jobs[..k], s)
    {
      var j := inp.jobs[k];
      assert inp.jobs[..k + 1][..k] == inp.jobs[..k];
      if j.status == Completed || j.status == Running {
        blocked := blocked + {j.slot};
      } else {
        var known := if j.slot in failed then failed[j.slot] else 0;
        var attempts := if j.attempts.Some? then j.attempts.value else 0;
        failed := failed[j.slot := if attempts > known then attempts else known];
      }
      BlockedSnoc(inp, k);
      k := k + 1;
    }
    assert inp.jobs[..k] == inp.jobs;
    var eligible: seq<Window> := [];
    k := 0;
    while k < |candidates|
      invariant 0 <= k <= |candidates|
      invariant eligible == EligibleOf(inp, candidates[..k])
    {
      var item := candidates[k];
      assert candidates[..k + 1][..k] == candidates[..k];
      var attempts := if item.slot in failed then failed[item.slot] else 0;
      var skip := item.slot in blocked || attempts >= inp.maxFailedAttempts;
      if !skip && item.slot in inp.cooldowns {
        match inp.cooldowns[item.slot]
        case Blank =>
        case Until(stamp) => skip := stamp > inp.now;
        case Malformed => skip := true;
      }
      if !skip {
        eligible := eligible + [item];
      }
      k := k + 1;
    }
    assert candidates[..k] == candidates;
    return Ok(Take(Sort(eligible, newestFirst), limit));
  }

  lemma BlockedSnoc(inp: Inputs, k: nat)
    requires k < |inp.jobs|
    ensures forall s :: Blocked(inp.(jobs := inp.jobs[..k + 1]), s) <==>
      Blocked(inp.(jobs := inp.jobs[..k]), s) || (inp.jobs[k].slot == s && !inp.jobs[k].status.Failed?)
  {
    var a, b := inp.jobs[..k], inp.jobs[..k + 1];
    forall s | inp.jobs[k].slot == s && !inp.jobs[k].status.Failed?
      ensures Blocked(inp.(jobs := b), s)
    {
      assert b[k] == inp.jobs[k];
    }
    forall s | Blocked(inp.(jobs := a), s) ensures Blocked(inp.(jobs := b), s) {
      if s !in inp.solutions {
        var i :| 0 <= i < |a| && a[i].slot == s && !a[i].status.Failed?;
        assert b[i] == a[i];
      }
    }
  }

  // ---------------------------------------------------------------- stored hours stay protected

  /** The hours that have a stored solution, decoded from week and time of week. */
  function SolvedSlots(site: Ledger.SiteId, rows: seq<Ledger.Row>): set<Slot> {
    set r | r in rows && r.key.site == site :: Slot(r.key.rover, HourOf(Decode(r.key.stamp)))
  }

  /** Once a worker has stored an epoch observed at `utc`, the hour around `utc` is never selected for
      that rover again, in any continuation of any run and whatever else the selector is given. */
  lemma StoredHourIsNeverSelected(s0: Ledger.Ledger, moves: seq<Ledger.Move>, later: seq<Ledger.Move>, v: Ledger.Row,
                                  utc: Time, hour: Time, inp: Inputs, candidates: seq<Window>,
                                  limit: nat, newestFirst: bool)
    requires Ledger.Initial(s0) && v in Ledger.Run(s0, moves).solutions
    requires Encode(true, utc) == Ok(v.key.stamp) && hour % HOUR == 0 && hour <= utc < hour + HOUR
    requires inp.solutions == SolvedSlots(v.key.site, Ledger.Run(Ledger.Run(s0, moves), later).solutions)
    ensures forall w :: w in Selection(inp, candidates, limit, newestFirst) ==> w.slot != Slot(v.key.rover, hour)
  {
    Ledger.SolutionsOnlyGrow(s0, moves, later);
    var s := Ledger.Run(s0, moves);
    var k :| 0 <= k < |s.solutions| && s.solutions[k] == v;
    assert Ledger.Run(s, later).solutions[k] == v;
    DecodeUndoesEncode(utc);
    HourContains(hour, utc);
    assert Slot(v.key.rover, hour) in inp.solutions;
    SelectionIsFirstEligible(inp, candidates, limit, newestFirst);
  }
}
