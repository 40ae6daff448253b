/**
  What holds over every run of the upload ledger: who owns a file name, what was answered, when a
  processed row stays processed, and which rows are abandoned.
 */
module UploadRuns {
  import opened Prelude
  import opened UploadLedger

  // ---------------------------------------------------------------- every run

  lemma {:induction false} RunKeepsInv(s0: Ledger, s: Ledger, moves: seq<Move>)
    requires Inv(s0, s)
    ensures Inv(s0, Run(s, moves))
    decreases |moves|
  {
    if moves != [] {
      NextKeepsInv(s0, s, moves[0]);
      RunKeepsInv(s0, Next(s, moves[0]), moves[1..]);
    }
  }

  lemma InitialRun(s0: Ledger, moves: seq<Move>)
    requires Initial(s0)
    ensures Inv(s0, Run(s0, moves))
  {
    assert Inv(s0, s0);
    RunKeepsInv(s0, s0, moves);
  }

  /** At most one request per file name is between its claim and its mark, and the row says so. */
  lemma ExclusiveProcessing(s0: Ledger, moves: seq<Move>, i: RequestId, j: RequestId)
    requires Initial(s0)
    requires var t := Run(s0, moves);
      i in t.requests && j in t.requests && t.requests[i].name == t.requests[j].name
      && Owns(t.requests[i].stage) && Owns(t.requests[j].stage)
    ensures i == j
    ensures var t := Run(s0, moves); var r := t.requests[i];
      r.name in t.uploads && (!r.stage.MarkFailed? ==> t.uploads[r.name].status.Processing?)
  {
    InitialRun(s0, moves);
    assert Fits(Run(s0, moves), Run(s0, moves).requests[i]);
  }

  /** Attempt counters count claims; rows and retained payloads are never lost or replaced. */
  lemma AttemptsCountClaims(s0: Ledger, moves: seq<Move>, n: FileName)
    requires Initial(s0)
    ensures var t := Run(s0, moves);
      && (n in t.uploads ==> t.uploads[n].attempts == StoredAttempts(s0, n) + multiset(t.claimLog)[n])
      && (n in t.claimLog || n in s0.uploads ==> n in t.uploads)
      && (n in s0.payloads ==> n in t.payloads && t.payloads[n] == s0.payloads[n])
  {
    InitialRun(s0, moves);
    assert NameOk(s0, Run(s0, moves), n);
  }

  /** Everybody ever answered 200 for a file name sent the bytes that are retained for it. */
  lemma AnswersAgree(s0: Ledger, moves: seq<Move>, i: RequestId, j: RequestId)
    requires Initial(s0)
    requires var t := Run(s0, moves);
      i in t.requests && j in t.requests && t.requests[i].name == t.requests[j].name
      && t.requests[i].stage.Done? && t.requests[i].stage.answer.Ok200?
      && t.requests[j].stage.Done? && t.requests[j].stage.answer.Ok200?
    ensures var t := Run(s0, moves);
      t.requests[i].payload == t.requests[j].payload
      && t.requests[i].name in t.payloads && t.payloads[t.requests[i].name].bytes == t.requests[i].payload
  {
    InitialRun(s0, moves);
    var t := Run(s0, moves);
    assert Fits(t, t.requests[i]) && Fits(t, t.requests[j]);
    assert t.requests[i].stage == Done(Ok200(t.requests[i].stage.answer.duplicate));
    assert t.requests[j].stage == Done(Ok200(t.requests[j].stage.answer.duplicate));
  }

  /** A row that became `processed` during the run has its original bytes retained. */
  lemma ProcessedIsRetained(s0: Ledger, moves: seq<Move>, n: FileName)
    requires Initial(s0) && n in Run(s0, moves).uploads && Run(s0, moves).uploads[n].status.Processed?
    requires n in s0.uploads ==> !s0.uploads[n].status.Processed?
    ensures n in Run(s0, moves).payloads
  {
    InitialRun(s0, moves);
    assert NameOk(s0, Run(s0, moves), n);
  }

  // ---------------------------------------------------------------- is `processed` final?

  /** The mark was committed but its caller saw an exception. */
  predicate LosesMark(s: Ledger, m: Move) {
    m.ProceedThenRaise? && Enabled(s, m) && s.requests[m.id].stage.MarkProcessed?
  }

  predicate MarksFailed(s: Ledger, m: Move, n: FileName) {
    (m.Proceed? || m.ProceedThenRaise?) && Enabled(s, m)
    && s.requests[m.id].stage.MarkFailed? && s.requests[m.id].name == n
  }

  /** A processed row changes in a step exactly when its owner goes on to mark it failed. */
  lemma ProcessedLeftOnlyByItsOwner(s0: Ledger, s: Ledger, m: Move, n: FileName)
    requires Inv(s0, s) && n in s.uploads && s.uploads[n].status.Processed?
    ensures n in Next(s, m).uploads
    ensures Next(s, m).uploads[n] != s.uploads[n] <==> MarksFailed(s, m, n)
    ensures Next(s, m).uploads[n].status.Processed? <==> !MarksFailed(s, m, n)
  {
    if Enabled(s, m) && !m.Arrive? {
      var r := s.requests[m.id];
      assert Fits(s, r);
      match r.stage {
        case InsertUpload =>
        case RetryFailed =>
        case MarkProcessed =>
        case MarkFailed(_) =>
        case _ =>
      }
    }
  }

  predicate ProcessedIn(s: Ledger, n: FileName) {
    n in s.uploads && s.uploads[n].status.Processed?
  }

  /** Request `id` is about to mark a processed row failed. */
  predicate Threatens(s: Ledger, id: RequestId, n: FileName) {
    id in s.requests && s.requests[id].name == n && s.requests[id].stage.MarkFailed? && ProcessedIn(s, n)
  }

  predicate LosesMarkOf(s: Ledger, m: Move, id: RequestId, n: FileName) {
    LosesMark(s, m) && m.id == id && s.requests[id].name == n
  }

  /** A request comes to threaten a processed row only by losing the acknowledgement of its own mark. */
  lemma OnlyLostMarksThreaten(s0: Ledger, s: Ledger, m: Move, id: RequestId, n: FileName)
    requires Inv(s0, s) && Threatens(Next(s, m), id, n)
    ensures Threatens(s, id, n) || LosesMarkOf(s, m, id, n)
  {
    if Enabled(s, m) && !m.Arrive? {
      assert id in s.requests && s.requests[id].name == n;
      var r := s.requests[m.id];
      assert Fits(s, r) && Fits(s, s.requests[id]);
      match r.stage {
        case InsertUpload =>
        case RetryFailed =>
        case MarkProcessed =>
        case MarkFailed(_) =>
        case _ =>
      }
    }
  }

  /** No request is about to mark a processed row failed. */
  ghost predicate NoLostMark(s: Ledger) {
    forall id :: id in s.requests && s.requests[id].stage.MarkFailed? ==>
      s.requests[id].name in s.uploads && s.uploads[s.requests[id].name].status.Processing?
  }

  predicate MarksArrive(s: Ledger, moves: seq<Move>)
    decreases |moves|
  {
    moves == [] || (!LosesMark(s, moves[0]) && MarksArrive(Next(s, moves[0]), moves[1..]))
  }

  lemma NextKeepsNoLostMark(s0: Ledger, s: Ledger, m: Move)
    requires Inv(s0, s) && NoLostMark(s) && !LosesMark(s, m)
    ensures NoLostMark(Next(s, m))
  {
    var t := Next(s, m);
    NextKeepsInv(s0, s, m);
    forall id | id in t.requests && t.requests[id].stage.MarkFailed?
      ensures t.requests[id].name in t.uploads && t.uploads[t.requests[id].name].status.Processing?
    {
      assert Fits(t, t.requests[id]);
      if Threatens(t, id, t.requests[id].name) {
        OnlyLostMarksThreaten(s0, s, m, id, t.requests[id].name);
      }
    }
  }

  /** As long as no acknowledgement of a mark is lost, `processed` is final. */
  lemma {:induction false} ProcessedIsFinal(s0: Ledger, s: Ledger, moves: seq<Move>, n: FileName)
    requires Inv(s0, s) && NoLostMark(s) && MarksArrive(s, moves)
    ensures NoLostMark(Run(s, moves))
    ensures n in s.uploads && s.uploads[n].status.Processed? ==>
              n in Run(s, moves).uploads && Run(s, moves).uploads[n] == s.uploads[n]
    decreases |moves|
  {
    if moves != [] {
      NextKeepsInv(s0, s, moves[0]);
      NextKeepsNoLostMark(s0, s, moves[0]);
      if n in s.uploads && s.uploads[n].status.Processed? {
        ProcessedLeftOnlyByItsOwner(s0, s, moves[0], n);
      }
      ProcessedIsFinal(s0, Next(s, moves[0]), moves[1..], n);
    }
  }

  const EMPTY := Ledger(map[], map[], map[], [])

  function OneRequest(f: FileName, status: Status, stage: Stage): Ledger {
    Ledger(map[f := Upload(status, 1)], map[f := Retain([])], map[0 := Request(f, [], stage)], [f])
  }

  /** One request uploads an empty body and loses the acknowledgement of its mark. */
  function LostMarkRun(f: FileName): seq<Move> {
    [Arrive(0, f, []), Proceed(0), Proceed(0), Proceed(0), ProceedThenRaise(0)]
  }

  lemma LostMarkRunClaims(f: FileName)
    ensures Next(Next(Next(EMPTY, Arrive(0, f, [])), Proceed(0)), Proceed(0)) == OneRequest(f, Processing, ProcessRows)
  {
    var s1 := Ledger(map[], map[], map[0 := Request(f, [], InsertUpload)], []);
    var s2 := Ledger(map[f := Upload(Processing, 1)], map[], map[0 := Request(f, [], RetainInsert)], [f]);
    assert Next(EMPTY, Arrive(0, f, [])) == s1;
    assert Next(s1, Proceed(0)) == s2;
    assert Next(s2, Proceed(0)) == OneRequest(f, Processing, ProcessRows);
  }

  lemma LostMarkRunReaches(f: FileName)
    ensures Run(EMPTY, LostMarkRun(f)) == OneRequest(f, Processed, MarkFailed(false))
  {
    LostMarkRunClaims(f);
    var s3 := OneRequest(f, Processing, ProcessRows);
    var s4 := OneRequest(f, Processing, MarkProcessed);
    assert Next(s3, Proceed(0)) == s4;
    assert Next(s4, ProceedThenRaise(0)) == OneRequest(f, Processed, MarkFailed(false));
    RunFive(EMPTY, LostMarkRun(f));
  }

  lemma RunFive(s: Ledger, ms: seq<Move>)
    requires |ms| == 5
    ensures Run(s, ms) == Next(Next(Next(Next(Next(s, ms[0]), ms[1]), ms[2]), ms[3]), ms[4])
  {
    RunTwo(s, ms[0], ms[1], ms[2..]);
    assert ms == [ms[0], ms[1]] + ms[2..];
    RunTwo(Next(Next(s, ms[0]), ms[1]), ms[2], ms[3], ms[4..]);
    assert ms[2..] == [ms[2], ms[3]] + ms[4..];
    assert ms[4..][1..] == [];
  }

  lemma RunTwo(s: Ledger, a: Move, b: Move, rest: seq<Move>)
    ensures Run(s, [a, b] + rest) == Run(Next(Next(s, a), b), rest)
  {
    assert ([a, b] + rest)[1..] == [b] + rest;
    assert ([b] + rest)[1..] == rest;
  }

  /** One lost acknowledgement is enough: the row is processed, and then failed. */
  lemma LostMarkUndoesProcessed(f: FileName)
    ensures Initial(EMPTY)
    ensures var t := Run(EMPTY, LostMarkRun(f));
      && f in t.uploads && t.uploads[f].status.Processed?
      && f in Next(t, Proceed(0)).uploads && Next(t, Proceed(0)).uploads[f].status.Failed?
  {
    LostMarkRunReaches(f);
  }

  // ---------------------------------------------------------------- abandoned rows

  /** The row says `processing` but nobody is left to mark it. */
  ghost predicate Abandoned(s: Ledger, n: FileName) {
    && n in s.uploads && s.uploads[n].status.Processing?
    && forall id :: id in s.requests && s.requests[id].name == n ==> !Owns(s.requests[id].stage)
  }

  lemma NextKeepsAbandoned(s: Ledger, m: Move, n: FileName)
    requires Abandoned(s, n)
    ensures Abandoned(Next(s, m), n) && Next(s, m).uploads[n] == s.uploads[n]
  {
    if Enabled(s, m) && !m.Arrive? {
      var r := s.requests[m.id];
      match r.stage {
        case InsertUpload =>
        case RetryFailed =>
        case MarkProcessed =>
        case MarkFailed(_) =>
        case _ =>
      }
    }
  }

  /** Such a row is never claimed again: no later run changes it, whatever arrives. */
  lemma {:induction false} AbandonedIsStuck(s: Ledger, moves: seq<Move>, n: FileName)
    requires Abandoned(s, n)
    ensures Abandoned(Run(s, moves), n) && Run(s, moves).uploads[n] == s.uploads[n]
    decreases |moves|
  {
    if moves != [] {
      NextKeepsAbandoned(s, moves[0], n);
      AbandonedIsStuck(Next(s, moves[0]), moves[1..], n);
    }
  }

  /** One request claims a new name, and the process serving it dies. */
  function AbandoningRun(f: FileName): seq<Move> {
    [Arrive(0, f, []), Proceed(0), Stop(0)]
  }

  /** Such a row arises from empty tables, for every file name. */
  lemma StopAbandons(f: FileName)
    ensures Initial(EMPTY) && Abandoned(Run(EMPTY, AbandoningRun(f)), f)
  {
    var moves := AbandoningRun(f);
    var s1 := Ledger(map[], map[], map[0 := Request(f, [], InsertUpload)], []);
    var s2 := Ledger(map[f := Upload(Processing, 1)], map[], map[0 := Request(f, [], RetainInsert)], [f]);
    assert Next(EMPTY, Arrive(0, f, [])) == s1;
    assert Next(s1, Proceed(0)) == s2;
    RunTwo(EMPTY, moves[0], moves[1], [Stop(0)]);
    assert moves == [moves[0], moves[1]] + [Stop(0)];
    assert [Stop(0)][1..] == [];
    assert Run(s2, [Stop(0)]) == Next(s2, Stop(0));
  }
}
