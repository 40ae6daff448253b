/**
  The PPK QA worker's job ledger and its solution table.  Any number of workers interleave,
  statement by statement; a worker may stop at any point, which ends its database session and
  so releases the advisory lock.
 */
module QaLedger {
  import opened Prelude
  import opened GpsTime

  type SiteId = nat
  type DeviceId = nat
  type WorkerId = nat

  const LEASE: int := 1_800 * SECOND

  datatype JobKey = JobKey(site: SiteId, rover: DeviceId, window: Time, fingerprint: Digest)

  datatype Status = Running | Completed | Failed

  /** A row of `ppk_qa_jobs`. */
  datatype Job = Job(status: Status, attempts: nat, solutionCount: nat, updatedAt: Time)

  datatype EpochKey = EpochKey(site: SiteId, rover: DeviceId, stamp: Stamp)

  /** The solved position: coordinates, quality, deviations, age and ratio. */
  datatype Fix = Fix(latitude: real, longitude: real, height: real, quality: int, satellites: int,
                     deviations: seq<Option<real>>, age: Option<real>, ratio: Option<real>)

  /** A row of `ppk_qa_experimental_solutions`. */
  datatype Row = Row(key: EpochKey, base: DeviceId, source: Digest, fix: Fix)

  // ---------------------------------------------------------------- insert-or-compare

  function Matching(rows: seq<Row>, key: EpochKey): seq<Row> {
    if rows == [] then []
    else if rows[0].key == key then [rows[0]] + Matching(rows[1..], key)
    else Matching(rows[1..], key)
  }

  datatype StoreError = DuplicateHistory | Collision

  function StoreOne(rows: seq<Row>, v: Row): Result<seq<Row>, StoreError> {
    var existing := Matching(rows, v.key);
    if |existing| > 1 then Err(DuplicateHistory)
    else if |existing| == 1 && existing[0] != v then Err(Collision)
    else if |existing| == 1 then Ok(rows)
    else Ok(rows + [v])
  }

  function StoreAll(rows: seq<Row>, values: seq<Row>): Result<seq<Row>, StoreError>
    decreases |values|
  {
    if values == [] then Ok(rows) else
      match StoreOne(rows, values[0])
      case Err(e) => Err(e)
      case Ok(next) => StoreAll(next, values[1..])
  }

  predicate DistinctKeys(values: seq<Row>) {
    forall i, j :: 0 <= i < j < |values| ==> values[i].key != values[j].key
  }

  /** The rows of `values` whose epoch the table does not have yet, in order. */
  function Missing(rows: seq<Row>, values: seq<Row>): seq<Row> {
    if values == [] then []
    else if Matching(rows, values[0].key) == [] then [values[0]] + Missing(rows, values[1..])
    else Missing(rows, values[1..])
  }

  predicate Compatible(rows: seq<Row>, v: Row) {
    Matching(rows, v.key) == [] || Matching(rows, v.key) == [v]
  }

  lemma {:induction false} MatchingAppend(a: seq<Row>, b: seq<Row>, key: EpochKey)
    ensures Matching(a + b, key) == Matching(a, key) + Matching(b, key)
    decreases |a|
  {
    if a == [] {
      assert a + b == b;
    } else {
      assert (a + b)[1..] == a[1..] + b;
      MatchingAppend(a[1..], b, key);
    }
  }

  lemma {:induction false} MatchingMembers(rows: seq<Row>, key: EpochKey)
    ensures forall r :: r in Matching(rows, key) <==> r in rows && r.key == key
    ensures (forall r :: r in rows ==> r.key != key) ==> Matching(rows, key) == []
  {
    if rows != [] {
      MatchingMembers(rows[1..], key);
      assert rows == [rows[0]] + rows[1..];
    }
  }

  lemma MatchingSingle(v: Row, key: EpochKey)
    ensures Matching([v], key) == if v.key == key then [v] else []
  {
    assert [v][1..] == [];
  }

  lemma {:induction false} MissingAfterAppend(rows: seq<Row>, v: Row, values: seq<Row>)
    requires forall w :: w in values ==> w.key != v.key
    ensures Missing(rows + [v], values) == Missing(rows, values)
    ensures forall w :: w in values ==> Compatible(rows + [v], w) == Compatible(rows, w)
    decreases |values|
  {
    forall w | w in values ensures Matching(rows + [v], w.key) == Matching(rows, w.key) {
      MatchingAppend(rows, [v], w.key);
      MatchingSingle(v, w.key);
    }
    if values != [] {
      assert values[0] in values;
      assert forall w :: w in values[1..] ==> w in values;
      MissingAfterAppend(rows, v, values[1..]);
    }
  }

  /** A batch with distinct epochs is stored exactly when no epoch collides with other content; the
      result is the old table followed by the missing rows, and a failed batch stores nothing. */
  lemma {:induction false} StoreAllExactly(rows: seq<Row>, values: seq<Row>)
    requires DistinctKeys(values)
    ensures StoreAll(rows, values).Ok? <==> forall v :: v in values ==> Compatible(rows, v)
    ensures StoreAll(rows, values).Ok? ==> StoreAll(rows, values).value == rows + Missing(rows, values)
    decreases |values|
  {
    if values == [] {
      assert rows + Missing(rows, values) == rows;
    } else {
      var v := values[0];
      var rest := values[1..];
      assert values == [v] + rest;
      assert StoreOne(rows, v).Ok? <==> Compatible(rows, v);
      if Compatible(rows, v) {
        var next := StoreOne(rows, v).value;
        StoreAllExactly(next, rest);
        if Matching(rows, v.key) == [] {
          assert forall w :: w in rest ==> w.key != v.key;
          MissingAfterAppend(rows, v, rest);
          assert next + Missing(next, rest) == rows + Missing(rows, values);
        } else {
          assert next == rows;
        }
      }
    }
  }

  /** At most one row per epoch. */
  ghost predicate UniqueEpochs(rows: seq<Row>) {
    forall key: EpochKey :: |Matching(rows, key)| <= 1
  }

  lemma {:induction false} MissingMembers(rows: seq<Row>, values: seq<Row>, key: EpochKey)
    requires DistinctKeys(values)
    ensures |Matching(rows, key) + Matching(Missing(rows, values), key)| <= 1 || |Matching(rows, key)| > 1
    ensures forall v :: v in Missing(rows, values) <==> v in values && Matching(rows, v.key) == []
    decreases |values|
  {
    if values != [] {
      var v, rest := values[0], values[1..];
      assert values == [v] + rest;
      MissingMembers(rows, rest, key);
      if Matching(rows, v.key) == [] {
        MatchingAppend([v], Missing(rows, rest), key);
        MatchingSingle(v, key);
        if v.key == key {
          MatchingMembers(Missing(rows, rest), key);
          assert forall w :: w in rest ==> w.key != v.key;
          assert Matching(Missing(rows, rest), key) == [];
        }
      }
    }
  }

  /** A stored batch is in the table afterwards with exactly its values, and epochs stay unique. */
  lemma StoredBatchIsThere(rows: seq<Row>, values: seq<Row>)
    requires DistinctKeys(values) && UniqueEpochs(rows) && StoreAll(rows, values).Ok?
    ensures var t := StoreAll(rows, values).value;
      && rows <= t && UniqueEpochs(t)
      && forall v :: v in values ==> Matching(t, v.key) == [v]
  {
    StoreAllExactly(rows, values);
    var t := StoreAll(rows, values).value;
    forall key: EpochKey ensures |Matching(t, key)| <= 1 {
      MatchingAppend(rows, Missing(rows, values), key);
      MissingMembers(rows, values, key);
    }
    forall v | v in values ensures Matching(t, v.key) == [v] {
      assert Compatible(rows, v);
      MissingMembers(rows, values, v.key);
      MatchingMembers(t, v.key);
      MatchingMembers(rows, v.key);
      assert v in Matching(t, v.key) by {
        if Matching(rows, v.key) == [v] { assert v in Matching(rows, v.key); }
      }
    }
  }

  // ---------------------------------------------------------------- from solver output to rows

  datatype Solution = Solution(aware: bool, utc: Time, fix: Fix)

  /** What RTKLIB returned: its solutions and, if present, the digest of its position file. */
  datatype SolverResult = SolverResult(solutions: seq<Solution>, source: Option<Digest>)

  /** One window of one job. */
  datatype Task = Task(job: JobKey, base: DeviceId, stop: Time)

  datatype BuildError = ZeroSolutions | BadTimestamp | OutsideWindow | DuplicateEpochs | NoProvenance

  function RowOf(task: Task, source: Digest, stamp: Stamp, fix: Fix): Row {
    Row(EpochKey(task.job.site, task.job.rover, stamp), task.base, source, fix)
  }

  predicate InWindow(task: Task, sol: Solution) {
    task.job.window <= sol.utc < task.stop
  }

  /** The solutions inside the window, stamped; an unusable timestamp inside it fails the batch. */
  function Stamped(task: Task, source: Digest, sols: seq<Solution>): Result<seq<Row>, BuildError> {
    if sols == [] then Ok([])
    else if !InWindow(task, sols[0]) then Stamped(task, source, sols[1..])
    else
      match Encode(sols[0].aware, sols[0].utc)
      case Err(_) => Err(BadTimestamp)
      case Ok(stamp) =>
        match Stamped(task, source, sols[1..])
        case Err(e) => Err(e)
        case Ok(rows) => Ok([RowOf(task, source, stamp, sols[0].fix)] + rows)
  }

  function BuildRows(task: Task, result: SolverResult): Result<seq<Row>, BuildError> {
    if result.solutions == [] then Err(ZeroSolutions)
    else
      var source := if result.source.Some? then result.source.value else Sha256([]);
      match Stamped(task, source, result.solutions)
      case Err(e) => Err(e)
      case Ok(rows) =>
        if rows == [] then Err(OutsideWindow)
        else if !DistinctKeys(rows) then Err(DuplicateEpochs)
        else if result.source.None? then Err(NoProvenance)
        else Ok(rows)
  }

  /** A row belongs to its task: same site, rover and base, and its epoch decodes into the window. */
  predicate BelongsTo(task: Task, r: Row) {
    && r.key.site == task.job.site && r.key.rover == task.job.rover && r.base == task.base
    && task.job.window <= Decode(r.key.stamp) < task.stop
  }

  lemma {:induction false} StampedBelong(task: Task, source: Digest, sols: seq<Solution>)
    requires Stamped(task, source, sols).Ok?
    ensures forall r :: r in Stamped(task, source, sols).value ==> BelongsTo(task, r) && r.source == source
  {
    if sols != [] {
      if InWindow(task, sols[0]) {
        DecodeUndoesEncode(sols[0].utc);
      }
      StampedBelong(task, source, sols[1..]);
    }
  }

  lemma BuiltRowsBelong(task: Task, result: SolverResult)
    requires BuildRows(task, result).Ok?
    ensures var rows := BuildRows(task, result).value;
      rows != [] && DistinctKeys(rows) && forall r :: r in rows ==> BelongsTo(task, r)
  {
    StampedBelong(task, result.source.value, result.solutions);
  }

  // ---------------------------------------------------------------- workers

  /** Where a worker is inside one window. */
  datatype Phase =
    | Between                             // no lock held
    | Checking(task: Task)                // lock taken, ledger row not read yet
    | Claiming(task: Task)                // row read, may be claimed
    | Solving(task: Task)                 // row RUNNING
    | Storing(task: Task, rows: seq<Row>) // solved, transaction not begun
    | Reporting(task: Task)               // transaction committed
    | Failing(task: Task)                 // about to write FAILED
    | Unlocking

  /** History: a committed window and the rows it stored. */
  datatype Completion = Completion(job: JobKey, rows: seq<Row>)

  datatype Ledger = Ledger(
    jobs: map<JobKey, Job>,
    solutions: seq<Row>,
    lock: Option<WorkerId>,
    workers: map<WorkerId, Phase>,
    completions: seq<Completion>,
    claims: seq<JobKey>)

  datatype Move =
    | TryLock(w: WorkerId, task: Task)
    | Check(w: WorkerId, now: Time)        // reads the ledger row, with the worker's own clock
    | Claim(w: WorkerId, dbNow: Time)
    | Solve(w: WorkerId, result: SolverResult)
    | SolverFails(w: WorkerId)
    | Store(w: WorkerId, dbNow: Time)      // one transaction
    | StoreFails(w: WorkerId)              // the transaction is rolled back for another reason
    | Report(w: WorkerId, raises: bool)    // raises: also a commit whose acknowledgement is lost
    | MarkFailed(w: WorkerId, dbNow: Time)
    | Unlock(w: WorkerId)
    | Stop(w: WorkerId)                    // exception out of the run, or the process dies

  function PhaseOf(s: Ledger, w: WorkerId): Phase {
    if w in s.workers then s.workers[w] else Between
  }

  predicate Holds(p: Phase) {
    !p.Between?
  }

  function Enter(s: Ledger, w: WorkerId, p: Phase): Ledger {
    s.(workers := s.workers[w := p])
  }

  /** The session ends: PostgreSQL releases its advisory lock. */
  function EndSession(s: Ledger, w: WorkerId): Ledger {
    Enter(s.(lock := if s.lock == Some(w) then None else s.lock), w, Between)
  }

  datatype Lease = Free | Done | Active

  /** May a job in this state be claimed at `now`?  A lease from the future is never stale. */
  function LeaseOf(jobs: map<JobKey, Job>, key: JobKey, now: Time): Lease {
    if key !in jobs then Free
    else if jobs[key].status.Completed? then Done
    else if jobs[key].status.Running? && now - jobs[key].updatedAt < LEASE then Active
    else Free
  }

  /** The row a claim leaves: running, one attempt more, with a fresh lease. */
  function Claimed(jobs: map<JobKey, Job>, key: JobKey, dbNow: Time): Job {
    if key in jobs then jobs[key].(status := Running, attempts := jobs[key].attempts + 1, updatedAt := dbNow)
    else Job(Running, 1, 0, dbNow)
  }

  function Next(s: Ledger, m: Move): Ledger {
    var p := PhaseOf(s, m.w);
    match m
    case TryLock(w, task) =>
      if p.Between? && s.lock.None? then Enter(s.(lock := Some(w)), w, Checking(task)) else s
    case Check(w, now) =>
      if !p.Checking? then s else
        (match LeaseOf(s.jobs, p.task.job, now)
         case Done => Enter(s, w, Unlocking)
         case Active => EndSession(s, w)
         case Free => Enter(s, w, Claiming(p.task)))
    case Claim(w, dbNow) =>
      if !p.Claiming? then s else
        var key := p.task.job;
        Enter(s.(jobs := s.jobs[key := Claimed(s.jobs, key, dbNow)], claims := s.claims + [key]), w, Solving(p.task))
    case Solve(w, result) =>
      if !p.Solving? then s else
        (match BuildRows(p.task, result)
         case Ok(rows) => Enter(s, w, Storing(p.task, rows))
         case Err(_) => Enter(s, w, Failing(p.task)))
    case SolverFails(w) => if p.Solving? then Enter(s, w, Failing(p.task)) else s
    case Store(w, dbNow) =>
      if !p.Storing? then s else
        (match StoreAll(s.solutions, p.rows)
         case Err(_) => Enter(s, w, Failing(p.task))
         case Ok(rows) => Enter(Complete(s, p.task.job, rows, p.rows, dbNow), w, Reporting(p.task)))
    case StoreFails(w) => if p.Storing? then Enter(s, w, Failing(p.task)) else s
    case Report(w, raises) =>
      if p.Reporting? then Enter(s, w, if raises then Failing(p.task) else Unlocking) else s
    case MarkFailed(w, dbNow) =>
      if p.Failing? then Enter(SetJob(s, p.task.job, Failed, dbNow), w, Unlocking) else s
    case Unlock(w) => if p.Unlocking? then EndSession(s, w) else s
    case Stop(w) => if p.Between? then s else EndSession(s, w)
  }

  function SetJob(s: Ledger, key: JobKey, status: Status, dbNow: Time): Ledger {
    if key in s.jobs then s.(jobs := s.jobs[key := s.jobs[key].(status := status, updatedAt := dbNow)]) else s
  }

  function Complete(s: Ledger, key: JobKey, table: seq<Row>, rows: seq<Row>, dbNow: Time): Ledger {
    var t := s.(solutions := table, completions := s.completions + [Completion(key, rows)]);
    if key in s.jobs
    then t.(jobs := s.jobs[key := s.jobs[key].(status := Completed, solutionCount := |rows|, updatedAt := dbNow)])
    else t
  }

  function Run(s: Ledger, moves: seq<Move>): Ledger
    decreases |moves|
  {
    if moves == [] then s else Run(Next(s, moves[0]), moves[1..])
  }

  /** Any ledger and any solution table with unique epochs, with nobody at work. */
  ghost predicate Initial(s: Ledger) {
    && s.lock.None? && s.workers == map[] && s.completions == [] && s.claims == []
    && UniqueEpochs(s.solutions)
  }

  // ---------------------------------------------------------------- invariant

  function StoredAttempts(s0: Ledger, key: JobKey): nat {
    if key in s0.jobs then s0.jobs[key].attempts else 0
  }

  /** What a worker may rely on in its phase: it alone holds the lock. */
  ghost predicate Fits(s: Ledger, w: WorkerId) {
    var p := PhaseOf(s, w);
    && (Holds(p) ==> s.lock == Some(w))
    && (p.Claiming? && p.task.job in s.jobs ==> !s.jobs[p.task.job].status.Completed?)
    && (p.Solving? || p.Storing? || p.Failing? || p.Reporting? ==> p.task.job in s.jobs)
    && (p.Solving? || p.Storing? ==> s.jobs[p.task.job].status.Running?)
    && (p.Reporting? ==> s.jobs[p.task.job].status.Completed?)
    && (p.Storing? ==> p.rows != [] && DistinctKeys(p.rows) && forall r :: r in p.rows ==> BelongsTo(p.task, r))
  }

  ghost predicate HasCompletion(s: Ledger, key: JobKey, count: nat) {
    exists k :: 0 <= k < |s.completions| && s.completions[k].job == key && |s.completions[k].rows| == count
  }

  ghost predicate JobOk(s0: Ledger, s: Ledger, key: JobKey) {
    && (key in s0.jobs ==> key in s.jobs)
    && (key !in s.jobs ==> multiset(s.claims)[key] == 0)
    && (key in s.jobs ==>
          && s.jobs[key].attempts == StoredAttempts(s0, key) + multiset(s.claims)[key]
          && (s.jobs[key].status.Completed? ==>
                (key in s0.jobs && s0.jobs[key].status.Completed?) || HasCompletion(s, key, s.jobs[key].solutionCount)))
  }

  /** Everything a completion stored is still there, once, unchanged. */
  ghost predicate CompletionOk(s: Ledger, c: Completion) {
    c.rows != [] && forall v :: v in c.rows ==>
      Matching(s.solutions, v.key) == [v] && v.key.site == c.job.site && v.key.rover == c.job.rover
  }

  ghost predicate TableOk(s0: Ledger, s: Ledger) {
    && s0.solutions <= s.solutions && UniqueEpochs(s.solutions)
    && forall k :: 0 <= k < |s.completions| ==> CompletionOk(s, s.completions[k])
  }

  ghost predicate Inv(s0: Ledger, s: Ledger) {
    && (forall w: WorkerId :: Fits(s, w))
    && (forall key: JobKey :: JobOk(s0, s, key))
    && TableOk(s0, s)
  }

  /** The lock makes every phase exclusive. */
  lemma OneWorkerAtATime(s0: Ledger, s: Ledger, v: WorkerId, w: WorkerId)
    requires Inv(s0, s) && Holds(PhaseOf(s, v)) && Holds(PhaseOf(s, w))
    ensures v == w
  {
    assert Fits(s, v) && Fits(s, w);
  }

  lemma NextFitsSelf(s: Ledger, m: Move)
    requires Fits(s, m.w)
    ensures Fits(Next(s, m), m.w)
  {
    var p := PhaseOf(s, m.w);
    match m {
      case Solve(_, result) => if p.Solving? && BuildRows(p.task, result).Ok? { BuiltRowsBelong(p.task, result); }
      case _ =>
    }
  }

  /** Whoever does not hold the lock is unaffected by the one who moves. */
  lemma NextFitsOther(s: Ledger, m: Move, w: WorkerId)
    requires Fits(s, m.w) && Fits(s, w) && w != m.w
    ensures Fits(Next(s, m), w)
  {
    match m {
      case TryLock(_, _) =>
      case Check(_, _) =>
      case Claim(_, _) =>
      case Solve(_, _) =>
      case SolverFails(_) =>
      case Store(_, _) =>
      case StoreFails(_) =>
      case Report(_, _) =>
      case MarkFailed(_, _) =>
      case Unlock(_) =>
      case Stop(_) =>
    }
  }

  lemma NextJobOk(s0: Ledger, s: Ledger, m: Move, key: JobKey)
    requires JobOk(s0, s, key) && Fits(s, m.w)
    ensures JobOk(s0, Next(s, m), key)
  {
    match m {
      case Claim(w, dbNow) => ClaimKeepsJob(s0, s, w, dbNow, key);
      case Store(w, dbNow) => StoreKeepsJob(s0, s, w, dbNow, key);
      case MarkFailed(w, dbNow) => FailureKeepsJob(s0, s, w, dbNow, key);
      case _ =>
    }
  }

  lemma ClaimKeepsJob(s0: Ledger, s: Ledger, w: WorkerId, dbNow: Time, key: JobKey)
    requires JobOk(s0, s, key) && Fits(s, w)
    ensures JobOk(s0, Next(s, Claim(w, dbNow)), key)
  {
    var t, p := Next(s, Claim(w, dbNow)), PhaseOf(s, w);
    if p.Claiming? {
      assert multiset(t.claims) == multiset(s.claims) + multiset{p.task.job};
    }
  }

  lemma StoreKeepsJob(s0: Ledger, s: Ledger, w: WorkerId, dbNow: Time, key: JobKey)
    requires JobOk(s0, s, key) && Fits(s, w)
    ensures JobOk(s0, Next(s, Store(w, dbNow)), key)
  {
    var t, p := Next(s, Store(w, dbNow)), PhaseOf(s, w);
    if p.Storing? && StoreAll(s.solutions, p.rows).Ok? {
      assert t.completions[|s.completions|] == Completion(p.task.job, p.rows);
      if key in s.jobs && HasCompletion(s, key, s.jobs[key].solutionCount) {
        var k :| 0 <= k < |s.completions| && s.completions[k].job == key
                 && |s.completions[k].rows| == s.jobs[key].solutionCount;
        assert t.completions[k] == s.completions[k];
      }
    }
  }

  lemma FailureKeepsJob(s0: Ledger, s: Ledger, w: WorkerId, dbNow: Time, key: JobKey)
    requires JobOk(s0, s, key) && Fits(s, w)
    ensures JobOk(s0, Next(s, MarkFailed(w, dbNow)), key)
  {
  }

  lemma {:induction false} PrefixKeepsMatching(rows: seq<Row>, t: seq<Row>, v: Row)
    requires rows <= t && UniqueEpochs(t) && Matching(rows, v.key) == [v]
    ensures Matching(t, v.key) == [v]
  {
    assert t == rows + t[|rows|..];
    MatchingAppend(rows, t[|rows|..], v.key);
    assert |Matching(t, v.key)| <= 1;
  }

  lemma NextTableOk(s0: Ledger, s: Ledger, m: Move)
    requires TableOk(s0, s) && Fits(s, m.w)
    ensures TableOk(s0, Next(s, m)) && s.solutions <= Next(s, m).solutions
  {
    var t := Next(s, m);
    var p := PhaseOf(s, m.w);
    if m.Store? && p.Storing? && StoreAll(s.solutions, p.rows).Ok? {
      StoredBatchIsThere(s.solutions, p.rows);
      forall k | 0 <= k < |t.completions| ensures CompletionOk(t, t.completions[k]) {
        if k < |s.completions| {
          assert CompletionOk(s, s.completions[k]);
          forall v | v in s.completions[k].rows ensures Matching(t.solutions, v.key) == [v] {
            PrefixKeepsMatching(s.solutions, t.solutions, v);
          }
        } else {
          assert t.completions[k] == Completion(p.task.job, p.rows);
        }
      }
    } else {
      assert t.solutions == s.solutions && t.completions == s.completions;
      forall k | 0 <= k < |t.completions| ensures CompletionOk(t, t.completions[k]) {
        assert CompletionOk(s, s.completions[k]);
      }
    }
  }

  lemma NextKeepsInv(s0: Ledger, s: Ledger, m: Move)
    requires Inv(s0, s)
    ensures Inv(s0, Next(s, m)) && s.solutions <= Next(s, m).solutions
  {
    hide Next, Fits, JobOk, TableOk;
    forall w: WorkerId ensures Fits(Next(s, m), w) {
      if w == m.w { NextFitsSelf(s, m); } else { NextFitsOther(s, m, w); }
    }
    forall key: JobKey ensures JobOk(s0, Next(s, m), key) { NextJobOk(s0, s, m, key); }
    NextTableOk(s0, s, m);
  }

  // ---------------------------------------------------------------- every run

  lemma {:induction false} RunKeepsInv(s0: Ledger, s: Ledger, moves: seq<Move>)
    requires Inv(s0, s)
    ensures Inv(s0, Run(s, moves)) && s.solutions <= Run(s, moves).solutions
    decreases |moves|
  {
    if moves != [] {
      NextKeepsInv(s0, s, moves[0]);
      RunKeepsInv(s0, Next(s, moves[0]), moves[1..]);
    }
  }

  lemma InitialRun(s0: Ledger, moves: seq<Move>)
    requires Initial(s0)
    ensures Inv(s0, Run(s0, moves))
  {
    assert Inv(s0, s0);
    RunKeepsInv(s0, s0, moves);
  }

  /** Rows of the solution table are never changed or removed, and no epoch is ever stored twice. */
  lemma SolutionsOnlyGrow(s0: Ledger, moves: seq<Move>, later: seq<Move>)
    requires Initial(s0)
    ensures var s := Run(s0, moves);
      s0.solutions <= s.solutions && s.solutions <= Run(s, later).solutions && UniqueEpochs(Run(s, later).solutions)
  {
    InitialRun(s0, moves);
    RunKeepsInv(s0, Run(s0, moves), later);
  }

  /** However the run goes on, every epoch a completed window stored stays there once, with its values. */
  lemma CompletedWindowsStayStored(s0: Ledger, moves: seq<Move>, later: seq<Move>, key: JobKey)
    requires Initial(s0) && key in Run(s0, moves).jobs && Run(s0, moves).jobs[key].status.Completed?
    requires key in s0.jobs ==> !s0.jobs[key].status.Completed?
    ensures var s := Run(s0, moves);
      exists k :: 0 <= k < |s.completions| && s.completions[k].job == key
        && |s.completions[k].rows| == s.jobs[key].solutionCount > 0
        && forall v :: v in s.completions[k].rows ==> Matching(Run(s, later).solutions, v.key) == [v]
  {
    InitialRun(s0, moves);
    var s := Run(s0, moves);
    assert JobOk(s0, s, key);
    var k :| 0 <= k < |s.completions| && s.completions[k].job == key
             && |s.completions[k].rows| == s.jobs[key].solutionCount;
    assert CompletionOk(s, s.completions[k]);
    RunKeepsInv(s0, s, later);
    forall v | v in s.completions[k].rows ensures Matching(Run(s, later).solutions, v.key) == [v] {
      PrefixKeepsMatching(s.solutions, Run(s, later).solutions, v);
    }
  }

  lemma AttemptsCountClaims(s0: Ledger, moves: seq<Move>, key: JobKey)
    requires Initial(s0)
    ensures var s := Run(s0, moves);
      (key in s.jobs ==> s.jobs[key].attempts == StoredAttempts(s0, key) + multiset(s.claims)[key])
      && (key in s0.jobs || key in s.claims ==> key in s.jobs)
  {
    InitialRun(s0, moves);
    assert JobOk(s0, Run(s0, moves), key);
  }

  /** A window is stored exactly when none of its epochs collides with other content; otherwise the
      table is left as it was and the job goes on to be marked failed. */
  lemma StoredUnlessColliding(s0: Ledger, moves: seq<Move>, w: WorkerId, dbNow: Time)
    requires Initial(s0) && PhaseOf(Run(s0, moves), w).Storing?
    ensures var s := Run(s0, moves); var p := PhaseOf(s, w); var t := Next(s, Store(w, dbNow));
      if forall v :: v in p.rows ==> Compatible(s.solutions, v)
      then t.solutions == s.solutions + Missing(s.solutions, p.rows) && PhaseOf(t, w) == Reporting(p.task)
           && p.task.job in t.jobs && t.jobs[p.task.job].status.Completed?
      else t == Enter(s, w, Failing(p.task))
  {
    InitialRun(s0, moves);
    var s := Run(s0, moves);
    assert Fits(s, w);
    StoreAllExactly(s.solutions, PhaseOf(s, w).rows);
  }

  // ---------------------------------------------------------------- is COMPLETED final?

  /** A completed job changes in a step exactly when a worker still failing it writes FAILED. */
  lemma CompletedLeftOnlyByItsWorker(s0: Ledger, s: Ledger, m: Move, key: JobKey)
    requires Inv(s0, s) && key in s.jobs && s.jobs[key].status.Completed?
    ensures var p := PhaseOf(s, m.w);
      key in Next(s, m).jobs
      && (Next(s, m).jobs[key].status.Completed? <==> !(m.MarkFailed? && p.Failing? && p.task.job == key))
  {
    assert Fits(s, m.w);
    match m {
      case Claim(_, _) =>
      case Store(_, _) =>
      case MarkFailed(_, _) =>
      case _ =>
    }
  }

  ghost predicate NothingLost(s: Ledger) {
    forall w: WorkerId :: PhaseOf(s, w).Failing? ==>
      PhaseOf(s, w).task.job in s.jobs && s.jobs[PhaseOf(s, w).task.job].status.Running?
  }

  predicate ReportsReturn(moves: seq<Move>) {
    forall k :: 0 <= k < |moves| && moves[k].Report? ==> !moves[k].raises
  }

  lemma NextKeepsNothingLost(s0: Ledger, s: Ledger, m: Move)
    requires Inv(s0, s) && NothingLost(s) && ReportsReturn([m])
    ensures NothingLost(Next(s, m))
  {
    var t := Next(s, m);
    assert [m][0] == m;
    forall w: WorkerId | PhaseOf(t, w).Failing?
      ensures PhaseOf(t, w).task.job in t.jobs && t.jobs[PhaseOf(t, w).task.job].status.Running?
    {
      assert Fits(s, w) && Fits(s, m.w);
      match m {
        case Claim(_, _) =>
        case Store(_, _) =>
        case MarkFailed(_, _) =>
        case _ =>
      }
    }
  }

  /** As long as reporting a committed window does not raise, COMPLETED is final for its fingerprint. */
  lemma {:induction false} CompletedIsFinal(s0: Ledger, s: Ledger, moves: seq<Move>, key: JobKey)
    requires Inv(s0, s) && NothingLost(s) && ReportsReturn(moves)
    ensures NothingLost(Run(s, moves))
    ensures key in s.jobs && s.jobs[key].status.Completed? ==>
              key in Run(s, moves).jobs && Run(s, moves).jobs[key].status.Completed?
    decreases |moves|
  {
    if moves != [] {
      var m := moves[0];
      NextKeepsInv(s0, s, m);
      NextKeepsNothingLost(s0, s, m);
      if key in s.jobs && s.jobs[key].status.Completed? {
        CompletedLeftOnlyByItsWorker(s0, s, m, key);
      }
      CompletedIsFinal(s0, Next(s, m), moves[1..], key);
    }
  }

  /** From any committed window: if its report raises, the completed job ends up FAILED. */
  lemma RaisingReportUndoesCompleted(s0: Ledger, s: Ledger, w: WorkerId, dbNow: Time)
    requires Inv(s0, s) && PhaseOf(s, w).Reporting?
    ensures var key := PhaseOf(s, w).task.job;
      var t := Next(Next(s, Report(w, true)), MarkFailed(w, dbNow));
      key in t.jobs && t.jobs[key].status.Failed? && t.solutions == s.solutions
  {
    assert Fits(s, w);
  }

  // ---------------------------------------------------------------- exactly when it is undone

  predicate CompletedIn(s: Ledger, key: JobKey) {
    key in s.jobs && s.jobs[key].status.Completed?
  }

  /** Worker `w` is about to write FAILED for `key`. */
  predicate Fails(s: Ledger, w: WorkerId, key: JobKey) {
    PhaseOf(s, w).Failing? && PhaseOf(s, w).task.job == key
  }

  /** Worker `w` has committed the window of `key` and not yet reported it. */
  predicate Reports(s: Ledger, w: WorkerId, key: JobKey) {
    PhaseOf(s, w).Reporting? && PhaseOf(s, w).task.job == key
  }

  predicate LosesReport(s: Ledger, m: Move, w: WorkerId, key: JobKey) {
    m.Report? && m.raises && m.w == w && Reports(s, w, key)
  }

  /** A worker comes to fail a completed job only by a raising report of its own. */
  lemma OnlyReportsFail(s0: Ledger, s: Ledger, m: Move, w: WorkerId, key: JobKey)
    requires Inv(s0, s) && CompletedIn(Next(s, m), key) && Fails(Next(s, m), w, key)
    ensures (CompletedIn(s, key) && Fails(s, w, key)) || LosesReport(s, m, w, key)
  {
    assert Fits(s, w) && Fits(s, m.w);
    match m {
      case Claim(_, _) =>
      case Store(_, _) =>
      case MarkFailed(_, _) =>
      case _ =>
    }
  }

  /** A worker comes to report a job only by completing it. */
  lemma OnlyStoresReport(s0: Ledger, s: Ledger, m: Move, w: WorkerId, key: JobKey)
    requires Inv(s0, s) && CompletedIn(s, key) && Reports(Next(s, m), w, key)
    ensures Reports(s, w, key)
  {
    assert Fits(s, m.w);
  }

  lemma {:induction false} UnthreatenedStays(s0: Ledger, s: Ledger, moves: seq<Move>, key: JobKey)
    requires Inv(s0, s) && CompletedIn(s, key)
    requires forall w :: !Fails(s, w, key) && !Reports(s, w, key)
    ensures CompletedIn(Run(s, moves), key)
    decreases |moves|
  {
    hide Next, Inv, Fails, Reports;
    if moves != [] {
      var m := moves[0];
      var t := Next(s, m);
      NextKeepsInv(s0, s, m);
      StaysCompleted(s0, s, m, key);
      forall w ensures !Fails(t, w, key) && !Reports(t, w, key) {
        if Fails(t, w, key) { OnlyReportsFail(s0, s, m, w, key); }
        if Reports(t, w, key) { OnlyStoresReport(s0, s, m, w, key); }
      }
      UnthreatenedStays(s0, t, moves[1..], key);
    }
  }

  lemma StaysCompleted(s0: Ledger, s: Ledger, m: Move, key: JobKey)
    requires Inv(s0, s) && CompletedIn(s, key)
    ensures CompletedIn(Next(s, m), key) <==> !(m.MarkFailed? && Fails(s, m.w, key))
  {
    CompletedLeftOnlyByItsWorker(s0, s, m, key);
  }

  ghost predicate Undoable(s: Ledger, key: JobKey) {
    exists moves: seq<Move> :: !CompletedIn(Run(s, moves), key)
  }

  /** A completed job can still be undone if and only if its worker is reporting it or already failing it. */
  lemma CompletedFinalExactly(s0: Ledger, s: Ledger, key: JobKey)
    requires Inv(s0, s) && CompletedIn(s, key)
    ensures Undoable(s, key) <==> exists w :: Fails(s, w, key) || Reports(s, w, key)
  {
    if w :| Fails(s, w, key) || Reports(s, w, key) {
      if Fails(s, w, key) {
        FailureUndoes(s0, s, w, key);
      } else {
        ReportUndoes(s0, s, w, key);
      }
    } else {
      forall moves: seq<Move> ensures CompletedIn(Run(s, moves), key) {
        UnthreatenedStays(s0, s, moves, key);
      }
    }
  }

  lemma FailureUndoes(s0: Ledger, s: Ledger, w: WorkerId, key: JobKey)
    requires Inv(s0, s) && CompletedIn(s, key) && Fails(s, w, key)
    ensures Undoable(s, key)
  {
    var moves := [MarkFailed(w, 0)];
    RunFrom(s, moves, 0);
    assert moves[0..] == moves && moves[1..] == [];
    assert !CompletedIn(Run(s, moves), key);
  }

  lemma ReportUndoes(s0: Ledger, s: Ledger, w: WorkerId, key: JobKey)
    requires Inv(s0, s) && CompletedIn(s, key) && Reports(s, w, key)
    ensures Undoable(s, key)
  {
    var moves := [Report(w, true), MarkFailed(w, 0)];
    RunFrom(s, moves, 0);
    RunFrom(Next(s, moves[0]), moves, 1);
    RaisingReportUndoesCompleted(s0, s, w, 0);
    assert moves[0..] == moves && moves[2..] == [];
    assert !CompletedIn(Run(s, moves), key);
  }

  lemma {:induction false} RunSplit(s: Ledger, a: seq<Move>, b: seq<Move>)
    ensures Run(s, a + b) == Run(Run(s, a), b)
    decreases |a|
  {
    if a == [] {
      assert a + b == b;
    } else {
      assert (a + b)[0] == a[0] && (a + b)[1..] == a[1..] + b;
      RunSplit(Next(s, a[0]), a[1..], b);
    }
  }

  lemma RunLast(s: Ledger, moves: seq<Move>, k: nat)
    requires k < |moves|
    ensures Run(s, moves[..k + 1]) == Next(Run(s, moves[..k]), moves[k])
  {
    assert moves[..k + 1] == moves[..k] + [moves[k]];
    RunSplit(s, moves[..k], [moves[k]]);
    assert [moves[k]][1..] == [];
  }

  lemma {:induction false} FailureHasOrigin(s0: Ledger, moves: seq<Move>, k: nat, w: WorkerId, key: JobKey)
    requires Initial(s0) && k <= |moves|
    requires CompletedIn(Run(s0, moves[..k]), key) && Fails(Run(s0, moves[..k]), w, key)
    ensures exists i: nat :: i < k && LosesReport(Run(s0, moves[..i]), moves[i], w, key)
  {
    hide Next;
    if k > 0 {
      var s := Run(s0, moves[..k - 1]);
      InitialRun(s0, moves[..k - 1]);
      RunLast(s0, moves, k - 1);
      OnlyReportsFail(s0, s, moves[k - 1], w, key);
      if CompletedIn(s, key) && Fails(s, w, key) {
        FailureHasOrigin(s0, moves, k - 1, w, key);
      }
    }
  }

  /** After some prefix the job is completed, and after a longer one it is not. */
  ghost predicate Undone(s0: Ledger, moves: seq<Move>, key: JobKey) {
    exists i: nat, j: nat :: i < j <= |moves|
      && CompletedIn(Run(s0, moves[..i]), key) && !CompletedIn(Run(s0, moves[..j]), key)
  }

  /** A worker's report of the committed window raises, and later that worker writes FAILED for it. */
  ghost predicate RaisedThenFailed(s0: Ledger, moves: seq<Move>, key: JobKey) {
    exists i: nat, j: nat, w: WorkerId :: i < j < |moves|
      && LosesReport(Run(s0, moves[..i]), moves[i], w, key)
      && moves[j].MarkFailed? && moves[j].w == w && Fails(Run(s0, moves[..j]), w, key)
  }

  lemma {:induction false} LeavingStep(s0: Ledger, moves: seq<Move>, key: JobKey, i: nat, j: nat) returns (k: nat)
    requires i < j <= |moves| && CompletedIn(Run(s0, moves[..i]), key) && !CompletedIn(Run(s0, moves[..j]), key)
    ensures i <= k < j && CompletedIn(Run(s0, moves[..k]), key) && !CompletedIn(Run(s0, moves[..k + 1]), key)
    decreases j
  {
    k := j - 1;
    if !CompletedIn(Run(s0, moves[..k]), key) {
      k := LeavingStep(s0, moves, key, i, j - 1);
    }
  }

  /**
    Over any run, a completed job is undone if and only if the report of a worker that committed it raised
    and that worker's FAILED update ran later.
   */
  lemma {:induction false} CompletedUndoneExactly(s0: Ledger, moves: seq<Move>, key: JobKey)
    requires Initial(s0)
    ensures Undone(s0, moves, key) <==> RaisedThenFailed(s0, moves, key)
  {
    hide Run, CompletedIn, Fails;
    if Undone(s0, moves, key) {
      var i: nat, j: nat :| i < j <= |moves|
        && CompletedIn(Run(s0, moves[..i]), key) && !CompletedIn(Run(s0, moves[..j]), key);
      var k := LeavingStep(s0, moves, key, i, j);
      UndoneIsRaised(s0, moves, key, k);
    }
    if RaisedThenFailed(s0, moves, key) {
      var i: nat, j: nat, w: WorkerId :| i < j < |moves|
        && LosesReport(Run(s0, moves[..i]), moves[i], w, key)
        && moves[j].MarkFailed? && moves[j].w == w && Fails(Run(s0, moves[..j]), w, key);
      RaisedIsUndone(s0, moves, key, i, j);
    }
  }

  lemma UndoneIsRaised(s0: Ledger, moves: seq<Move>, key: JobKey, k: nat)
    requires Initial(s0) && k < |moves|
    requires CompletedIn(Run(s0, moves[..k]), key) && !CompletedIn(Run(s0, moves[..k + 1]), key)
    ensures RaisedThenFailed(s0, moves, key)
  {
    hide Next, Run;
    InitialRun(s0, moves[..k]);
    RunLast(s0, moves, k);
    StaysCompleted(s0, Run(s0, moves[..k]), moves[k], key);
    FailureHasOrigin(s0, moves, k, moves[k].w, key);
  }

  lemma RaisedIsUndone(s0: Ledger, moves: seq<Move>, key: JobKey, i: nat, j: nat)
    requires Initial(s0) && i < j < |moves| && LosesReport(Run(s0, moves[..i]), moves[i], moves[i].w, key)
    requires moves[j].MarkFailed? && Fails(Run(s0, moves[..j]), moves[j].w, key)
    ensures Undone(s0, moves, key)
  {
    hide Run;
    var s, t := Run(s0, moves[..i]), Run(s0, moves[..j]);
    InitialRun(s0, moves[..i]);
    InitialRun(s0, moves[..j]);
    assert Fits(s, moves[i].w) && Fits(t, moves[j].w);
    RunLast(s0, moves, j);
    assert CompletedIn(s, key) && !CompletedIn(Run(s0, moves[..j + 1]), key);
  }

  // ---------------------------------------------------------------- such a run

  const EMPTY: Ledger := Ledger(map[], [], None, map[], [], [])

  const KEY: JobKey := JobKey(0, 1, YEAR_2026, Sha256([]))
  const TASK: Task := Task(KEY, 0, YEAR_2026 + HOUR)
  const SOLVED: Solution := Solution(true, YEAR_2026, Fix(0.0, 0.0, 0.0, 1, 9, [], None, None))
  const SOLVER_RESULT: SolverResult := SolverResult([SOLVED], Some(Sha256([])))

  /** The one row that result becomes. */
  function SolvedRow(): Row {
    RowOf(TASK, Sha256([]), Encode(true, YEAR_2026).value, SOLVED.fix)
  }

  /** One worker solves and stores one window, and then fails to report it. */
  const LOST_REPORT: seq<Move> :=
    [TryLock(0, TASK), Check(0, 1), Claim(0, 2), Solve(0, SOLVER_RESULT), Store(0, 3), Report(0, true),
     MarkFailed(0, 4)]

  lemma SolverResultBuilds()
    ensures BuildRows(TASK, SOLVER_RESULT) == Ok([SolvedRow()])
  {
    var source := Sha256([]);
    assert [SOLVED][1..] == [];
    assert Stamped(TASK, source, []) == Ok([]);
    assert Encode(true, YEAR_2026).Ok?;
    assert Stamped(TASK, source, [SOLVED]) == Ok([SolvedRow()] + []);
    assert [SolvedRow()] + [] == [SolvedRow()];
  }

  lemma EmptyTableStores(v: Row)
    ensures StoreAll([], [v]) == Ok([v])
  {
    assert StoreOne([], v) == Ok([] + [v]);
    assert [] + [v] == [v] && [v][1..] == [];
    assert StoreAll([v], []) == Ok([v]);
  }

  const RUNNING: map<JobKey, Job> := map[KEY := Job(Running, 1, 0, 2)]
  const DONE: map<JobKey, Job> := map[KEY := Job(Completed, 1, 1, 3)]

  /** The states of that run between its moves: before the claim, before the store, and after it. */
  function Early(phase: Phase): Ledger {
    Ledger(map[], [], Some(0), map[0 := phase], [], [])
  }

  function Claimed1(phase: Phase): Ledger {
    Ledger(RUNNING, [], Some(0), map[0 := phase], [], [KEY])
  }

  function Stored1(phase: Phase, row: Row): Ledger {
    Ledger(DONE, [row], Some(0), map[0 := phase], [Completion(KEY, [row])], [KEY])
  }

  lemma StatesToClaim()
    ensures Next(EMPTY, LOST_REPORT[0]) == Early(Checking(TASK))
    ensures Next(Early(Checking(TASK)), LOST_REPORT[1]) == Early(Claiming(TASK))
    ensures Next(Early(Claiming(TASK)), LOST_REPORT[2]) == Claimed1(Solving(TASK))
  {
  }

  lemma StateAfterSolve()
    ensures Next(Claimed1(Solving(TASK)), LOST_REPORT[3]) == Claimed1(Storing(TASK, [SolvedRow()]))
  {
    SolverResultBuilds();
    hide BuildRows, SolvedRow;
  }

  lemma StateAfterStore(row: Row)
    ensures Next(Claimed1(Storing(TASK, [row])), LOST_REPORT[4]) == Stored1(Reporting(TASK), row)
    ensures Next(Stored1(Reporting(TASK), row), LOST_REPORT[5]) == Stored1(Failing(TASK), row)
  {
    EmptyTableStores(row);
    hide StoreAll;
  }

  lemma RunFrom(s: Ledger, ms: seq<Move>, k: nat)
    requires k < |ms|
    ensures Run(s, ms[k..]) == Run(Next(s, ms[k]), ms[k + 1..])
  {
    assert ms[k..][0] == ms[k] && ms[k..][1..] == ms[k + 1..];
  }

  lemma RunFive(s: Ledger, ms: seq<Move>)
    requires |ms| >= 5
    ensures Run(s, ms) == Run(Next(Next(Next(Next(Next(s, ms[0]), ms[1]), ms[2]), ms[3]), ms[4]), ms[5..])
  {
    hide Next, Run;
    assert ms[0..] == ms;
    var s1 := Next(s, ms[0]);
    var s2 := Next(s1, ms[1]);
    var s3 := Next(s2, ms[2]);
    RunFrom(s, ms, 0);
    RunFrom(s1, ms, 1);
    RunFrom(s2, ms, 2);
    RunFrom(s3, ms, 3);
    RunFrom(Next(s3, ms[3]), ms, 4);
  }

  lemma LostReportCompletes(ms: seq<Move>)
    requires |ms| >= 5 && ms[..5] == LOST_REPORT[..5]
    ensures Run(EMPTY, ms) == Run(Stored1(Reporting(TASK), SolvedRow()), ms[5..])
  {
    hide SolvedRow, Next, Run;
    StatesToClaim();
    StateAfterSolve();
    StateAfterStore(SolvedRow());
    RunFive(EMPTY, ms);
    assert forall k :: 0 <= k < 5 ==> ms[k] == ms[..5][k] == LOST_REPORT[k];
  }

  /** From an empty ledger: the job is completed after five moves and failed after seven, its row still stored. */
  lemma LostReportRun()
    ensures Initial(EMPTY)
    ensures var s := Run(EMPTY, LOST_REPORT[..5]); KEY in s.jobs && s.jobs[KEY].status.Completed?
    ensures var t := Run(EMPTY, LOST_REPORT);
      KEY in t.jobs && t.jobs[KEY].status.Failed? && t.solutions == [SolvedRow()]
  {
    hide SolvedRow;
    var row := SolvedRow();
    LostReportCompletes(LOST_REPORT[..5]);
    LostReportCompletes(LOST_REPORT);
    StateAfterStore(row);
    RunFrom(Stored1(Reporting(TASK), row), LOST_REPORT, 5);
    RunFrom(Stored1(Failing(TASK), row), LOST_REPORT, 6);
    assert LOST_REPORT[..5][5..] == [] && LOST_REPORT[7..] == [];
  }

  /** The loop that turns solver output into rows. */
  method CollectRows(task: Task, result: SolverResult) returns (r: Result<seq<Row>, BuildError>)
    ensures r == BuildRows(task, result)
    ensures r.Ok? ==> r.value != [] && DistinctKeys(r.value) && forall v :: v in r.value ==> BelongsTo(task, v)
  {
    if result.solutions == [] {
      return Err(ZeroSolutions);
    }
    var source := if result.source.Some? then result.source.value else Sha256([]);
    var sols := result.solutions;
    var values: seq<Row> := [];
    var k := 0;
    assert sols[0..] == sols;
    PrependNothing(Stamped(task, source, sols));
    while k < |sols|
      invariant 0 <= k <= |sols|
      invariant Stamped(task, source, sols) == Prepend(values, Stamped(task, source, sols[k..]))
    {
      assert sols[k..][0] == sols[k] && sols[k..][1..] == sols[k + 1..];
      if InWindow(task, sols[k]) {
        var stamp := Encode(sols[k].aware, sols[k].utc);
        if stamp.Err? {
          return Err(BadTimestamp);
        }
        var row := RowOf(task, source, stamp.value, sols[k].fix);
        PrependOne(values, row, Stamped(task, source, sols[k + 1..]));
        values := values + [row];
      }
      k := k + 1;
    }
    assert sols[k..] == [];
    assert values + [] == values;
    if values == [] {
      return Err(OutsideWindow);
    }
    if !DistinctKeys(values) {
      return Err(DuplicateEpochs);
    }
    if result.source.None? {
      return Err(NoProvenance);
    }
    BuiltRowsBelong(task, result);
    return Ok(values);
  }

  lemma PrependNothing(rest: Result<seq<Row>, BuildError>)
    ensures Prepend([], rest) == rest
  {
    if rest.Ok? { assert [] + rest.value == rest.value; }
  }

  lemma PrependOne(values: seq<Row>, row: Row, rest: Result<seq<Row>, BuildError>)
    ensures Prepend(values + [row], rest) == Prepend(values, Prepend([row], rest))
  {
    if rest.Ok? { assert values + [row] + rest.value == values + ([row] + rest.value); }
  }

  function Prepend(values: seq<Row>, rest: Result<seq<Row>, BuildError>): Result<seq<Row>, BuildError> {
    match rest
    case Ok(rows) => Ok(values + rows)
    case Err(e) => Err(e)
  }

  // ---------------------------------------------------------------- the database

  /** The QA database and the workers at it; each statement and transaction of a worker is one method. */
  class QaDatabase {
    var jobs: map<JobKey, Job>
    var solutions: seq<Row>
    var lock: Option<WorkerId>
    var workers: map<WorkerId, Phase>
    ghost var completions: seq<Completion>
    ghost var claims: seq<JobKey>

    ghost function State(): Ledger
      reads this
    {
      Ledger(jobs, solutions, lock, workers, completions, claims)
    }

    constructor ()
      ensures Initial(State())
    {
      jobs, solutions, lock, workers := map[], [], None, map[];
      completions, claims := [], [];
    }

    function At(w: WorkerId): (p: Phase)
      reads this
      ensures p == PhaseOf(State(), w)
    {
      if w in workers then workers[w] else Between
    }

    method FetchExisting(key: EpochKey) returns (existing: seq<Row>)
      ensures existing == Matching(solutions, key)
    {
      existing := [];
      var k := |solutions|;
      assert solutions[k..] == [];
      while k > 0
        invariant 0 <= k <= |solutions|
        invariant existing == Matching(solutions[k..], key)
      {
        k := k - 1;
        assert solutions[k..][1..] == solutions[k + 1..];
        if solutions[k].key == key {
          existing := [solutions[k]] + existing;
        }
      }
      assert solutions[0..] == solutions;
    }

    /** The insert-or-compare of all values; at the first error everything is rolled back. */
    method StoreWindow(values: seq<Row>) returns (error: Option<StoreError>)
      modifies this`solutions
      ensures match StoreAll(old(solutions), values)
        case Ok(rows) => error.None? && solutions == rows
        case Err(e) => error == Some(e) && solutions == old(solutions)
      ensures DistinctKeys(values) ==> (error.None? <==> forall v :: v in values ==> Compatible(old(solutions), v))
      ensures DistinctKeys(values) && error.None? ==> solutions == old(solutions) + Missing(old(solutions), values)
    {
      var snapshot := solutions;
      if DistinctKeys(values) { StoreAllExactly(snapshot, values); }
      var k := 0;
      while k < |values|
        invariant 0 <= k <= |values|
        invariant StoreAll(solutions, values[k..]) == StoreAll(snapshot, values)
      {
        var v := values[k];
        assert values[k..][0] == v && values[k..][1..] == values[k + 1..];
        var existing := FetchExisting(v.key);
        if |existing| > 1 {
          solutions := snapshot;
          return Some(DuplicateHistory);
        }
        if existing != [] && existing[0] != v {
          solutions := snapshot;
          return Some(Collision);
        }
        if existing == [] {
          solutions := solutions + [v];
        }
        k := k + 1;
      }
      assert values[k..] == [];
      return None;
    }

    method Lock(w: WorkerId, task: Task)
      modifies this`lock, this`workers
      ensures State() == Next(old(State()), TryLock(w, task))
    {
      if At(w).Between? && lock.None? {
        lock := Some(w);
        workers := workers[w := Checking(task)];
      }
    }

    method EndSessionOf(w: WorkerId)
      modifies this`lock, this`workers
      ensures State() == EndSession(old(State()), w)
    {
      if lock == Some(w) {
        lock := None;
      }
      workers := workers[w := Between];
    }

    /** Reads the ledger row and judges its lease. */
    method ReadLease(key: JobKey, now: Time) returns (lease: Lease)
      ensures lease == LeaseOf(jobs, key, now)
    {
      if key !in jobs {
        return Free;
      }
      var previous := jobs[key];
      if previous.status == Completed {
        return Done;
      }
      if previous.status == Running {
        var age := now - previous.updatedAt;
        if age < 0 || age < LEASE {
          return Active;
        }
      }
      return Free;
    }

    method CheckLease(w: WorkerId, now: Time)
      modifies this`lock, this`workers
      ensures State() == Next(old(State()), Check(w, now))
    {
      var p := At(w);
      if p.Checking? {
        var lease := ReadLease(p.task.job, now);
        match lease
        case Done => workers := workers[w := Unlocking];
        case Active => EndSessionOf(w);
        case Free => workers := workers[w := Claiming(p.task)];
      }
    }

    /** The upsert of the job row. */
    method UpsertRunning(w: WorkerId, dbNow: Time)
      modifies this`jobs, this`workers, this`claims
      ensures State() == Next(old(State()), Claim(w, dbNow))
    {
      var p := At(w);
      if p.Claiming? {
        var key := p.task.job;
        if key in jobs {
          var job := jobs[key];
          jobs := jobs[key := Job(Running, job.attempts + 1, job.solutionCount, dbNow)];
        } else {
          jobs := jobs[key := Job(Running, 1, 0, dbNow)];
        }
        claims := claims + [key];
        workers := workers[w := Solving(p.task)];
      }
    }

    /**
      Check and claim without another worker in between: the job is taken exactly when it is new, failed,
      or running with a lease that has run out; then only its row changes, by one attempt and a new lease.
     */
    method ClaimWindow(w: WorkerId, now: Time, dbNow: Time) returns (lease: Lease)
      requires PhaseOf(State(), w).Checking?
      modifies this
      ensures State() == Next(Next(old(State()), Check(w, now)), Claim(w, dbNow))
      ensures lease == LeaseOf(old(jobs), PhaseOf(old(State()), w).task.job, now)
      ensures lease == Free <==> var key := PhaseOf(old(State()), w).task.job;
        key in old(jobs) ==>
          || old(jobs)[key].status == Failed
          || (old(jobs)[key].status == Running && now >= old(jobs)[key].updatedAt + 1_800_000_000)
      ensures lease != Free ==> jobs == old(jobs)
      ensures lease == Free ==> var key := PhaseOf(old(State()), w).task.job;
        jobs == old(jobs)[key := Claimed(old(jobs), key, dbNow)] && jobs[key].updatedAt == dbNow
        && (key in old(jobs) && old(jobs)[key].status.Running? ==> now >= old(jobs)[key].updatedAt + LEASE)
        && (key in old(jobs) ==>
              !old(jobs)[key].status.Completed? && jobs[key].solutionCount == old(jobs)[key].solutionCount)
    {
      var key := At(w).task.job;
      lease := ReadLease(key, now);
      CheckLease(w, now);
      UpsertRunning(w, dbNow);
    }

    method SolveWindow(w: WorkerId, result: SolverResult)
      modifies this`workers
      ensures State() == Next(old(State()), Solve(w, result))
    {
      var p := At(w);
      if p.Solving? {
        var rows := CollectRows(p.task, result);
        workers := workers[w := if rows.Ok? then Storing(p.task, rows.value) else Failing(p.task)];
      }
    }

    /** One transaction: insert-or-compare every value, then complete the job; any error rolls back. */
    method StoreAndComplete(w: WorkerId, dbNow: Time)
      modifies this`jobs, this`solutions, this`workers, this`completions
      ensures State() == Next(old(State()), Store(w, dbNow))
    {
      var p := At(w);
      if p.Storing? {
        var error := StoreWindow(p.rows);
        if error.Some? {
          workers := workers[w := Failing(p.task)];
          return;
        }
        var key := p.task.job;
        completions := completions + [Completion(key, p.rows)];
        if key in jobs {
          jobs := jobs[key := Job(Completed, jobs[key].attempts, |p.rows|, dbNow)];
        }
        workers := workers[w := Reporting(p.task)];
      }
    }

    method UpdateFailed(w: WorkerId, dbNow: Time)
      modifies this`jobs, this`workers
      ensures State() == Next(old(State()), MarkFailed(w, dbNow))
    {
      var p := At(w);
      if p.Failing? {
        var key := p.task.job;
        if key in jobs {
          jobs := jobs[key := Job(Failed, jobs[key].attempts, jobs[key].solutionCount, dbNow)];
        }
        workers := workers[w := Unlocking];
      }
    }

    /** Any one statement, transaction or failure is one move of the machine. */
    method Step(m: Move)
      modifies this
      ensures State() == Next(old(State()), m)
    {
      var p := At(m.w);
      match m {
        case TryLock(w, task) => Lock(w, task);
        case Check(w, now) => CheckLease(w, now);
        case Claim(w, dbNow) => UpsertRunning(w, dbNow);
        case Solve(w, result) => SolveWindow(w, result);
        case SolverFails(w) => if p.Solving? { workers := workers[w := Failing(p.task)]; }
        case Store(w, dbNow) => StoreAndComplete(w, dbNow);
        case StoreFails(w) => if p.Storing? { workers := workers[w := Failing(p.task)]; }
        case Report(w, raises) =>
          if p.Reporting? { workers := workers[w := if raises then Failing(p.task) else Unlocking]; }
        case MarkFailed(w, dbNow) => UpdateFailed(w, dbNow);
        case Unlock(w) => if p.Unlocking? { EndSessionOf(w); }
        case Stop(w) => if !p.Between? { EndSessionOf(w); }
      }
    }

    /** Any schedule of moves ends in the state the machine reaches. */
    method Serve(moves: seq<Move>)
      modifies this
      ensures State() == Run(old(State()), moves)
    {
      var k := 0;
      while k < |moves|
        invariant 0 <= k <= |moves|
        invariant Run(State(), moves[k..]) == Run(old(State()), moves)
      {
        assert moves[k..][0] == moves[k] && moves[k..][1..] == moves[k + 1..];
        Step(moves[k]);
        k := k + 1;
      }
      assert moves[k..] == [];
    }
  }
}
