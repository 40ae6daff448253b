/**
  What one worker makes of one window: when a job may be claimed, which solver results can be stored, and
  what a window that nobody disturbs leaves in the ledger.
 */
module QaWindow {
  import opened Prelude
  import opened GpsTime
  import opened QaLedger

  // ---------------------------------------------------------------- when a job may be claimed

  /** New, failed, or running with a lease of at least thirty minutes; a lease from the future is not stale. */
  predicate Claimable(jobs: map<JobKey, Job>, key: JobKey, now: Time) {
    key in jobs ==>
      jobs[key].status == Failed || (jobs[key].status == Running && now >= jobs[key].updatedAt + 1_800_000_000)
  }

  /** A worker that has read the ledger row goes on to claim exactly then; a live lease ends its session. */
  lemma CheckExactly(s: Ledger, w: WorkerId, now: Time)
    requires w in s.workers && s.workers[w].Checking?
    ensures var task, t := s.workers[w].task, Next(s, Check(w, now));
      && w in t.workers
      && (t.workers[w] == Claiming(task) <==> Claimable(s.jobs, task.job, now))
      && (t.workers[w] == Unlocking <==> task.job in s.jobs && s.jobs[task.job].status == Completed)
      && (t.workers[w] == Between <==>
            task.job in s.jobs && s.jobs[task.job].status == Running
            && now < s.jobs[task.job].updatedAt + 1_800_000_000)
      && t.jobs == s.jobs && t.solutions == s.solutions
      && (t.workers[w] != Between ==> t.lock == s.lock)
      && (t.workers[w] == Between && s.lock == Some(w) ==> t.lock.None?)
  {
  }

  /** The claim writes the row of its job: running, one attempt more, lease renewed, count kept. */
  lemma ClaimWrites(s: Ledger, w: WorkerId, dbNow: Time)
    requires w in s.workers && s.workers[w].Claiming?
    ensures var task, t := s.workers[w].task, Next(s, Claim(w, dbNow));
      && t.workers == s.workers[w := Solving(task)] && t.lock == s.lock && t.solutions == s.solutions
      && t.jobs == s.jobs[task.job := if task.job in s.jobs
                                      then Job(Running, s.jobs[task.job].attempts + 1,
                                               s.jobs[task.job].solutionCount, dbNow)
                                      else Job(Running, 1, 0, dbNow)]
  {
  }

  /** A running job whose worker died is claimed again by the next one, once thirty minutes have passed. */
  lemma StaleLeaseRecovered(s0: Ledger, s: Ledger, dead: WorkerId, w: WorkerId, now: Time, dbNow: Time)
    requires Inv(s0, s) && PhaseOf(s, dead).Solving? && w != dead && PhaseOf(s, w).Between?
    requires PhaseOf(s, dead).task.job in s.jobs
    requires now >= s.jobs[PhaseOf(s, dead).task.job].updatedAt + 1_800_000_000
    ensures var task, key := PhaseOf(s, dead).task, PhaseOf(s, dead).task.job;
      var t := Next(Next(Next(Next(s, Stop(dead)), TryLock(w, task)), Check(w, now)), Claim(w, dbNow));
      && PhaseOf(t, w) == Solving(task) && t.lock == Some(w)
      && t.jobs == s.jobs[key := Job(Running, s.jobs[key].attempts + 1, s.jobs[key].solutionCount, dbNow)]
  {
    assert Fits(s, dead) && Fits(s, w);
    var task := PhaseOf(s, dead).task;
    var s1 := Next(s, Stop(dead));
    var s2 := Next(s1, TryLock(w, task));
    assert s1.jobs == s.jobs && s1.lock.None? && s2.workers[w] == Checking(task);
    CheckExactly(s2, w, now);
    ClaimWrites(Next(s2, Check(w, now)), w, dbNow);
  }

  // ---------------------------------------------------------------- which results can be stored

  predicate Inside(task: Task, sol: Solution) {
    task.job.window <= sol.utc && sol.utc < task.stop
  }

  /** A time stamp the encoding accepts: with time zone, and in 2026. */
  predicate Datable(sol: Solution) {
    sol.aware && 1_767_225_600_000_000 <= sol.utc < 1_798_761_600_000_000
  }

  function InsideOf(task: Task, sols: seq<Solution>): seq<Solution> {
    if sols == [] then []
    else InsideOf(task, sols[..|sols| - 1]) + if Inside(task, sols[|sols| - 1]) then [sols[|sols| - 1]] else []
  }

  lemma {:induction false} InsidePrepend(task: Task, sol: Solution, sols: seq<Solution>)
    ensures InsideOf(task, [sol] + sols) == (if Inside(task, sol) then [sol] else []) + InsideOf(task, sols)
  {
    var all := [sol] + sols;
    if sols == [] {
      assert all == [sol] && all[..0] == [];
    } else {
      InsidePrepend(task, sol, sols[..|sols| - 1]);
      assert all[..|all| - 1] == [sol] + sols[..|sols| - 1];
    }
  }

  /** A row carries its solution: site, rover and base of the task, the time of the solution, and its fix. */
  predicate Carries(task: Task, source: Digest, sol: Solution, r: Row) {
    && r.key.site == task.job.site && r.key.rover == task.job.rover && r.base == task.base && r.source == source
    && r.fix == sol.fix && Decode(r.key.stamp) == sol.utc && 0 <= r.key.stamp.tow < 604_800_000_000
  }

  predicate AllDatable(sols: seq<Solution>) {
    forall k :: 0 <= k < |sols| ==> Datable(sols[k])
  }

  /** One row for each solution, in order. */
  predicate AllCarried(task: Task, source: Digest, sols: seq<Solution>, rows: seq<Row>) {
    |rows| == |sols| && forall k :: 0 <= k < |sols| ==> Carries(task, source, sols[k], rows[k])
  }

  lemma ConsDatable(sol: Solution, sols: seq<Solution>)
    ensures AllDatable([sol] + sols) <==> Datable(sol) && AllDatable(sols)
  {
    var all := [sol] + sols;
    assert all[0] == sol && forall k :: 0 <= k < |sols| ==> sols[k] == all[k + 1];
  }

  lemma ConsCarried(task: Task, source: Digest, sol: Solution, sols: seq<Solution>, r: Row, rows: seq<Row>)
    requires Carries(task, source, sol, r) && AllCarried(task, source, sols, rows)
    ensures AllCarried(task, source, [sol] + sols, [r] + rows)
  {
  }

  lemma {:induction false} StampedIs(task: Task, source: Digest, sols: seq<Solution>)
    ensures var inside, r := InsideOf(task, sols), Stamped(task, source, sols);
      && (r.Ok? <==> AllDatable(inside))
      && (r.Err? ==> r.error == BadTimestamp)
      && (r.Ok? ==> AllCarried(task, source, inside, r.value))
  {
    if sols != [] {
      var sol, rest := sols[0], sols[1..];
      assert sols == [sol] + rest;
      InsidePrepend(task, sol, rest);
      StampedIs(task, source, rest);
      var others := InsideOf(task, rest);
      hide InsideOf, AllDatable, AllCarried;
      if Inside(task, sol) {
        ConsDatable(sol, others);
        assert Datable(sol) <==> Encode(sol.aware, sol.utc).Ok?;
        if Datable(sol) && AllDatable(others) {
          DecodeUndoesEncode(sol.utc);
          var stamp := Encode(sol.aware, sol.utc).value;
          var row := RowOf(task, source, stamp, sol.fix);
          ConsCarried(task, source, sol, others, row, Stamped(task, source, rest).value);
        }
      } else {
        assert [] + others == others;
      }
    }
  }

  /** No two solutions of the same time. */
  predicate DistinctTimes(sols: seq<Solution>) {
    forall i, j :: 0 <= i < j < |sols| ==> sols[i].utc != sols[j].utc
  }

  lemma DistinctKeysExactly(task: Task, source: Digest, inside: seq<Solution>, rows: seq<Row>)
    requires AllCarried(task, source, inside, rows)
    ensures DistinctKeys(rows) <==> DistinctTimes(inside)
  {
    forall i, j | 0 <= i < j < |rows| ensures rows[i].key == rows[j].key <==> inside[i].utc == inside[j].utc {
      var g, h := rows[i].key.stamp, rows[j].key.stamp;
      assert Carries(task, source, inside[i], rows[i]) && Carries(task, source, inside[j], rows[j]);
      if inside[i].utc == inside[j].utc {
        SameStamp(g, h);
      }
    }
  }

  lemma SameStamp(g: Stamp, h: Stamp)
    requires Decode(g) == Decode(h) && 0 <= g.tow < WEEK && 0 <= h.tow < WEEK
    ensures g == h
  {
  }

  /**
    A solver result becomes rows, one for each solution inside the window and in their order, exactly when
    there is one, all of them are datable and of different times, and their source is known.
   */
  lemma BuiltExactly(task: Task, result: SolverResult)
    ensures var inside, r := InsideOf(task, result.solutions), BuildRows(task, result);
      && (r.Ok? <==>
            inside != [] && AllDatable(inside) && DistinctTimes(inside) && result.source.Some?)
      && (r.Ok? ==> AllCarried(task, result.source.value, inside, r.value))
  {
    var source := if result.source.Some? then result.source.value else Sha256([]);
    var inside := InsideOf(task, result.solutions);
    StampedIs(task, source, result.solutions);
    var stamped := Stamped(task, source, result.solutions);
    if stamped.Ok? {
      DistinctKeysExactly(task, source, inside, stamped.value);
    }
  }

  /** Which error a result that cannot be stored meets first. */
  lemma BuildErrors(task: Task, result: SolverResult)
    ensures var inside, r := InsideOf(task, result.solutions), BuildRows(task, result);
      var datable := AllDatable(inside);
      && (r == Err(ZeroSolutions) <==> result.solutions == [])
      && (r == Err(BadTimestamp) <==> !datable)
      && (r == Err(OutsideWindow) <==> result.solutions != [] && inside == [])
      && (r == Err(DuplicateEpochs) <==> datable && !DistinctTimes(inside))
      && (r == Err(NoProvenance) <==> inside != [] && datable && DistinctTimes(inside) && result.source.None?)
  {
    var source := if result.source.Some? then result.source.value else Sha256([]);
    var inside := InsideOf(task, result.solutions);
    StampedIs(task, source, result.solutions);
    var stamped := Stamped(task, source, result.solutions);
    if stamped.Ok? {
      DistinctKeysExactly(task, source, inside, stamped.value);
    }
  }

  // ---------------------------------------------------------------- what the table keeps

  /** Every row of the table with the epoch of `v` has its content. */
  predicate Agrees(table: seq<Row>, v: Row) {
    forall r :: r in table && r.key == v.key ==> r == v
  }

  lemma {:induction false} AgreesIffCompatible(table: seq<Row>, v: Row)
    requires |Matching(table, v.key)| <= 1
    ensures Agrees(table, v) <==> Compatible(table, v)
  {
    MatchingMembers(table, v.key);
    var m := Matching(table, v.key);
    if m != [] {
      assert m == [m[0]] && m[0] in m;
    }
    if Agrees(table, v) && m != [] {
      assert m[0] == v;
    }
  }

  /** Rows of distinct epochs are stored exactly when the table agrees with each of them. */
  lemma StoredExactly(table: seq<Row>, values: seq<Row>)
    requires UniqueEpochs(table) && DistinctKeys(values)
    ensures StoreAll(table, values).Ok? <==> forall v :: v in values ==> Agrees(table, v)
    ensures StoreAll(table, values).Ok? ==>
      var t := StoreAll(table, values).value;
      && table <= t && UniqueEpochs(t)
      && (forall r :: r in t <==> r in table || r in values)
      && |t| == |table| + |Missing(table, values)|
  {
    StoreAllExactly(table, values);
    forall v | v in values ensures Agrees(table, v) <==> Compatible(table, v) {
      AgreesIffCompatible(table, v);
    }
    if StoreAll(table, values).Ok? {
      StoredBatchIsThere(table, values);
      var t := StoreAll(table, values).value;
      forall r ensures r in t <==> r in table || r in values {
        MissingMembers(table, values, r.key);
        if r in values {
          MatchingMembers(t, r.key);
          assert r in Matching(t, r.key);
        }
      }
    }
  }

  // ---------------------------------------------------------------- one window, undisturbed

  /** The moves of a worker that nothing goes wrong for. */
  function Window1(w: WorkerId, task: Task, now: Time, claimed: Time, result: SolverResult, stored: Time): seq<Move> {
    [TryLock(w, task), Check(w, now), Claim(w, claimed), Solve(w, result), Store(w, stored), Report(w, false),
     Unlock(w)]
  }

  /** A free lock, a claimable job, a storable result, and a report that returns. */
  lemma WindowCompleted(s0: Ledger, s: Ledger, w: WorkerId, task: Task, now: Time, claimed: Time,
                        result: SolverResult, stored: Time)
    requires Inv(s0, s) && s.lock.None? && PhaseOf(s, w).Between? && Claimable(s.jobs, task.job, now)
    requires BuildRows(task, result).Ok?
    requires forall v :: v in BuildRows(task, result).value ==> Agrees(s.solutions, v)
    ensures var rows, key := BuildRows(task, result).value, task.job;
      var attempts := if key in s.jobs then s.jobs[key].attempts + 1 else 1;
      var t := Run(s, Window1(w, task, now, claimed, result, stored));
      && t.jobs == s.jobs[key := Job(Completed, attempts, |rows|, stored)]
      && t.lock.None? && PhaseOf(t, w).Between?
      && s.solutions <= t.solutions && forall r :: r in t.solutions <==> r in s.solutions || r in rows
  {
    var rows := BuildRows(task, result).value;
    BuiltRowsBelong(task, result);
    StoredExactly(s.solutions, rows);
    hide *;
    WindowRuns(s, w, task, now, claimed, result, stored);
  }

  lemma WindowRuns(s: Ledger, w: WorkerId, task: Task, now: Time, claimed: Time, result: SolverResult, stored: Time)
    requires s.lock.None? && PhaseOf(s, w).Between? && Claimable(s.jobs, task.job, now)
    requires BuildRows(task, result).Ok? && StoreAll(s.solutions, BuildRows(task, result).value).Ok?
    ensures var rows, key := BuildRows(task, result).value, task.job;
      var attempts := if key in s.jobs then s.jobs[key].attempts + 1 else 1;
      var t := Run(s, Window1(w, task, now, claimed, result, stored));
      && t.jobs == s.jobs[key := Job(Completed, attempts, |rows|, stored)]
      && t.lock.None? && PhaseOf(t, w).Between? && t.solutions == StoreAll(s.solutions, rows).value
  {
    hide BuildRows, StoreAll, Claimable, Run, Next;
    var ms := Window1(w, task, now, claimed, result, stored);
    ClaimedIs(s, w, task, now, claimed);
    var s3 := Next(Next(Next(s, ms[0]), ms[1]), ms[2]);
    SolvedIs(s3, w, task, result, stored);
    var s5 := Next(Next(s3, ms[3]), ms[4]);
    ReportedIs(s5, w, task);
    RunFive(s, ms);
    RunFrom(s5, ms, 5);
    RunFrom(Next(s5, ms[5]), ms, 6);
    assert ms[7..] == [];
    RunNothing(Next(Next(s5, ms[5]), ms[6]));
  }

  lemma RunNothing(s: Ledger)
    ensures Run(s, []) == s
  {
  }

  lemma ClaimedIs(s: Ledger, w: WorkerId, task: Task, now: Time, claimed: Time)
    requires s.lock.None? && PhaseOf(s, w).Between? && Claimable(s.jobs, task.job, now)
    ensures var t := Next(Next(Next(s, TryLock(w, task)), Check(w, now)), Claim(w, claimed));
      var attempts := if task.job in s.jobs then s.jobs[task.job].attempts + 1 else 1;
      var count := if task.job in s.jobs then s.jobs[task.job].solutionCount else 0;
      && t.workers == s.workers[w := Solving(task)] && t.lock == Some(w) && t.solutions == s.solutions
      && t.jobs == s.jobs[task.job := Job(Running, attempts, count, claimed)]
  {
    var s1 := Next(s, TryLock(w, task));
    assert s1 == s.(lock := Some(w), workers := s.workers[w := Checking(task)]);
    CheckExactly(s1, w, now);
    var s2 := Next(s1, Check(w, now));
    assert s2.workers == s.workers[w := Claiming(task)];
    ClaimWrites(s2, w, claimed);
  }

  lemma SolvedIs(s: Ledger, w: WorkerId, task: Task, result: SolverResult, stored: Time)
    requires w in s.workers && s.workers[w] == Solving(task) && task.job in s.jobs && BuildRows(task, result).Ok?
    requires StoreAll(s.solutions, BuildRows(task, result).value).Ok?
    ensures var rows, t := BuildRows(task, result).value, Next(Next(s, Solve(w, result)), Store(w, stored));
      && t.workers == s.workers[w := Reporting(task)] && t.lock == s.lock
      && t.solutions == StoreAll(s.solutions, rows).value
      && t.jobs == s.jobs[task.job := Job(Completed, s.jobs[task.job].attempts, |rows|, stored)]
  {
    hide BuildRows, StoreAll;
    var s1 := Next(s, Solve(w, result));
    assert s1 == s.(workers := s.workers[w := Storing(task, BuildRows(task, result).value)]);
  }

  lemma ReportedIs(s: Ledger, w: WorkerId, task: Task)
    requires w in s.workers && s.workers[w] == Reporting(task) && s.lock == Some(w)
    ensures var t := Next(Next(s, Report(w, false)), Unlock(w));
      t == s.(lock := None, workers := s.workers[w := Between])
  {
  }

  /** A solver that raises, a transaction rolled back, and a report that raises lead to the FAILED update, and
      that to the release of the lock; a worker that stops releases it at once and leaves the ledger alone. */
  lemma FailureMoves(s: Ledger, w: WorkerId, task: Task, rows: seq<Row>, failed: Time)
    requires w in s.workers && s.lock == Some(w) && task.job in s.jobs
    ensures s.workers[w] == Solving(task) ==> Next(s, SolverFails(w)) == s.(workers := s.workers[w := Failing(task)])
    ensures s.workers[w] == Storing(task, rows) ==>
      Next(s, StoreFails(w)) == s.(workers := s.workers[w := Failing(task)])
    ensures s.workers[w] == Reporting(task) ==>
      Next(s, Report(w, true)) == s.(workers := s.workers[w := Failing(task)])
    ensures s.workers[w] == Failing(task) ==>
      Next(Next(s, MarkFailed(w, failed)), Unlock(w)) ==
      s.(lock := None, workers := s.workers[w := Between],
         jobs := s.jobs[task.job := Job(Failed, s.jobs[task.job].attempts, s.jobs[task.job].solutionCount, failed)])
    ensures s.workers[w] != Between ==> Next(s, Stop(w)) == s.(lock := None, workers := s.workers[w := Between])
  {
  }

  /** Any solver result that cannot be stored, or that the table contradicts, fails the job and stores nothing. */
  lemma WindowFailed(s0: Ledger, s: Ledger, w: WorkerId, task: Task, result: SolverResult, stored: Time, failed: Time)
    requires Inv(s0, s) && PhaseOf(s, w) == Solving(task)
    requires BuildRows(task, result).Ok? ==>
      exists v :: v in BuildRows(task, result).value && !Agrees(s.solutions, v)
    ensures var key := task.job;
      var t := Next(Next(Next(Next(s, Solve(w, result)), Store(w, stored)), MarkFailed(w, failed)), Unlock(w));
      && key in s.jobs && t.solutions == s.solutions && t.lock.None? && PhaseOf(t, w).Between?
      && t.jobs == s.jobs[key := Job(Failed, s.jobs[key].attempts, s.jobs[key].solutionCount, failed)]
  {
    assert Fits(s, w);
    if BuildRows(task, result).Ok? {
      BuiltRowsBelong(task, result);
      StoredExactly(s.solutions, BuildRows(task, result).value);
    }
    hide BuildRows, StoreAll, Agrees;
    var s2 := Next(Next(s, Solve(w, result)), Store(w, stored));
    assert s2 == s.(workers := s.workers[w := Failing(task)]);
  }
}
