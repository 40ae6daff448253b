/**
  What one upload that nobody disturbs is answered, and what it leaves in the tables: by the status of the
  file name when it arrives, by the bytes retained for it, and by where a statement raises.
 */
module UploadAlone {
  import opened Prelude
  import opened UploadLedger
  import opened UploadRuns

  /** A request arrives and runs to its answer; after the answer nothing is left to proceed with. */
  function Upload1(id: RequestId, n: FileName, b: Bytes): seq<Move> {
    [Arrive(id, n, b), Proceed(id), Proceed(id), Proceed(id), Proceed(id), Proceed(id), Proceed(id), Proceed(id)]
  }

  lemma RunUpload1(s: Ledger, id: RequestId, n: FileName, b: Bytes)
    ensures var p := Proceed(id);
      Run(s, Upload1(id, n, b)) ==
      Next(Next(Next(Next(Next(Next(Next(Next(s, Arrive(id, n, b)), p), p), p), p), p), p), p)
  {
    hide Next;
    var ms, p := Upload1(id, n, b), Proceed(id);
    var t := Next(Next(s, ms[0]), p);
    RunTwo(s, ms[0], p, [p, p, p, p, p, p]);
    RunTwo(t, p, p, [p, p, p, p]);
    RunTwo(Next(Next(t, p), p), p, p, [p, p]);
    RunTwo(Next(Next(Next(Next(t, p), p), p), p), p, p, []);
    assert ms == [ms[0], p] + [p, p, p, p, p, p];
    assert [p, p, p, p, p, p] == [p, p] + [p, p, p, p] && [p, p, p, p] == [p, p] + [p, p] && [p, p] == [p, p] + [];
  }

  /** The payload table holds, for stored names only, bytes with their own digest and length. */
  predicate RetainedOk(s: Ledger, n: FileName) {
    n in s.payloads ==>
      n in s.uploads && s.payloads[n].sha256 == Sha256(s.payloads[n].bytes)
      && s.payloads[n].byteLength == |s.payloads[n].bytes|
  }

  predicate Holds(s: Ledger, n: FileName, b: Bytes) {
    n in s.payloads && s.payloads[n].bytes == b
  }

  /** What the request leaves: its answer, the row of its name, and a payload where there was none. */
  predicate Leaves(s: Ledger, t: Ledger, id: RequestId, n: FileName, b: Bytes, answer: Answer, status: Status,
                   attempts: nat)
  {
    && t.requests == s.requests[id := Request(n, b, Done(answer))]
    && t.uploads == s.uploads[n := Upload(status, attempts)]
    && (if n in s.payloads then t.payloads == s.payloads
        else t.payloads == s.payloads[n := Retained(b, Sha256(b), |b|)])
  }

  predicate OnlyAnswers(s: Ledger, t: Ledger, id: RequestId, n: FileName, b: Bytes, answer: Answer) {
    t == s.(requests := s.requests[id := Request(n, b, Done(answer))])
  }

  /** The tables as they are, with the request of `id` at the given stage. */
  function At(s: Ledger, id: RequestId, n: FileName, b: Bytes, stage: Stage): Ledger {
    s.(requests := s.requests[id := Request(n, b, stage)])
  }

  function WithRow(s: Ledger, n: FileName, row: Upload): Ledger {
    s.(uploads := s.uploads[n := row])
  }

  function WithClaim(s: Ledger, n: FileName, attempts: nat): Ledger {
    WithRow(s, n, Upload(Processing, attempts)).(claimLog := s.claimLog + [n])
  }

  function WithPayload(s: Ledger, n: FileName, b: Bytes): Ledger {
    if n in s.payloads then s else s.(payloads := s.payloads[n := Retained(b, Sha256(b), |b|)])
  }

  /** The four statements that decide who owns a name. */
  lemma ClaimSteps(s: Ledger, id: RequestId, n: FileName, b: Bytes)
    requires id !in s.requests
    ensures Next(s, Arrive(id, n, b)) == At(s, id, n, b, InsertUpload)
    ensures Next(At(s, id, n, b, InsertUpload), Proceed(id)) ==
      if n in s.uploads then At(s, id, n, b, RetryFailed) else At(WithClaim(s, n, 1), id, n, b, RetainInsert)
    ensures n in s.uploads ==>
      Next(At(s, id, n, b, RetryFailed), Proceed(id)) ==
      if s.uploads[n].status == Failed then At(WithClaim(s, n, s.uploads[n].attempts + 1), id, n, b, RetainInsert)
      else At(s, id, n, b, SelectStatus)
    ensures n in s.uploads ==>
      Next(At(s, id, n, b, SelectStatus), Proceed(id)) ==
      At(s, id, n, b, if s.uploads[n].status == Processed then CheckDuplicate else Done(Conflict409))
  {
  }

  /** The statements of an owner: retaining the bytes, processing, and the marks. */
  lemma RetainSteps(s: Ledger, id: RequestId, n: FileName, b: Bytes)
    requires RetainedOk(s, n)
    ensures Next(At(s, id, n, b, RetainInsert), Proceed(id)) ==
      At(WithPayload(s, n, b), id, n, b, if n in s.payloads then RetainSelect else ProcessRows)
    ensures n in s.payloads ==>
      Next(At(s, id, n, b, RetainSelect), Proceed(id)) ==
      At(s, id, n, b, if Holds(s, n, b) then ProcessRows else MarkFailed(true))
    ensures Next(At(s, id, n, b, ProcessRows), Proceed(id)) == At(s, id, n, b, MarkProcessed)
  {
  }

  lemma MarkSteps(s: Ledger, id: RequestId, n: FileName, b: Bytes, mismatch: bool)
    requires n in s.uploads
    ensures Next(At(s, id, n, b, MarkProcessed), Proceed(id)) ==
      At(WithRow(s, n, Upload(Processed, s.uploads[n].attempts)), id, n, b, Done(Ok200(false)))
    ensures Next(At(s, id, n, b, MarkFailed(mismatch)), Proceed(id)) ==
      At(WithRow(s, n, Upload(Failed, s.uploads[n].attempts)), id, n, b,
         Done(if mismatch then Conflict409 else Error500))
  {
  }

  lemma Answered(s: Ledger, id: RequestId, n: FileName, b: Bytes, answer: Answer)
    ensures Next(At(s, id, n, b, Done(answer)), Proceed(id)) == At(s, id, n, b, Done(answer))
  {
  }

  /** From the claim on: the payload decides between success and a mismatch. */
  lemma OwnerRuns(s: Ledger, id: RequestId, n: FileName, b: Bytes)
    requires n in s.uploads && RetainedOk(s, n)
    ensures var p, a := Proceed(id), s.uploads[n].attempts;
      var t := Next(Next(Next(Next(At(s, id, n, b, RetainInsert), p), p), p), p);
      t == if n !in s.payloads || Holds(s, n, b)
           then At(WithRow(WithPayload(s, n, b), n, Upload(Processed, a)), id, n, b, Done(Ok200(false)))
           else At(WithRow(s, n, Upload(Failed, a)), id, n, b, Done(Conflict409))
  {
    hide Next;
    var kept := WithPayload(s, n, b);
    RetainSteps(s, id, n, b);
    RetainSteps(kept, id, n, b);
    MarkSteps(s, id, n, b, true);
    MarkSteps(kept, id, n, b, true);
    Answered(WithRow(kept, n, Upload(Processed, s.uploads[n].attempts)), id, n, b, Ok200(false));
    Answered(WithRow(s, n, Upload(Failed, s.uploads[n].attempts)), id, n, b, Conflict409);
  }

  lemma LeavesRow(s: Ledger, id: RequestId, n: FileName, b: Bytes, answer: Answer, row: Upload, kept: bool)
    requires kept || n in s.payloads
    ensures var claimed := WithClaim(s, n, row.attempts);
      var done := WithRow(if kept then WithPayload(claimed, n, b) else claimed, n, row);
      Leaves(s, At(done, id, n, b, Done(answer)), id, n, b, answer, row.status, row.attempts)
  {
    assert WithRow(WithClaim(s, n, row.attempts), n, row).uploads == s.uploads[n := row];
  }

  /** A new name is claimed, its bytes retained, and it ends processed. */
  lemma NewUpload(s: Ledger, id: RequestId, n: FileName, b: Bytes)
    requires id !in s.requests && RetainedOk(s, n) && n !in s.uploads
    ensures Leaves(s, Run(s, Upload1(id, n, b)), id, n, b, Ok200(false), Processed, 1)
  {
    hide Next;
    RunUpload1(s, id, n, b);
    ClaimSteps(s, id, n, b);
    var claimed := WithClaim(s, n, 1);
    OwnerRuns(claimed, id, n, b);
    var done := WithRow(WithPayload(claimed, n, b), n, Upload(Processed, 1));
    Answered(done, id, n, b, Ok200(false));
    hide Run;
    assert done.uploads == s.uploads[n := Upload(Processed, 1)];
  }

  /** The bytes decide a retry of a failed name: retained or absent ones succeed, others fail it again. */
  lemma RetriedUpload(s: Ledger, id: RequestId, n: FileName, b: Bytes)
    requires id !in s.requests && RetainedOk(s, n) && n in s.uploads && s.uploads[n].status == Failed
    ensures var t := Run(s, Upload1(id, n, b));
      if n !in s.payloads || Holds(s, n, b)
      then Leaves(s, t, id, n, b, Ok200(false), Processed, s.uploads[n].attempts + 1)
      else Leaves(s, t, id, n, b, Conflict409, Failed, s.uploads[n].attempts + 1)
  {
    hide Next;
    RunUpload1(s, id, n, b);
    ClaimSteps(s, id, n, b);
    var a := s.uploads[n].attempts + 1;
    var claimed := WithClaim(s, n, a);
    var success := n !in s.payloads || Holds(s, n, b);
    var row := Upload(if success then Processed else Failed, a);
    var done := WithRow(if success then WithPayload(claimed, n, b) else claimed, n, row);
    var answer := if success then Ok200(false) else Conflict409;
    OwnerRuns(claimed, id, n, b);
    Answered(done, id, n, b, answer);
    hide Run, At, WithRow, WithClaim, WithPayload, Leaves, Holds, RetainedOk;
    assert Run(s, Upload1(id, n, b)) == At(done, id, n, b, Done(answer));
    LeavesRow(s, id, n, b, answer, row, success);
  }

  /** A processed name is answered 200 as a duplicate exactly for its retained bytes, and never changed. */
  lemma RepeatedUpload(s: Ledger, id: RequestId, n: FileName, b: Bytes)
    requires id !in s.requests && RetainedOk(s, n) && n in s.uploads && s.uploads[n].status == Processed
    ensures OnlyAnswers(s, Run(s, Upload1(id, n, b)), id, n, b, if Holds(s, n, b) then Ok200(true) else Conflict409)
  {
    hide Next;
    RunUpload1(s, id, n, b);
    ClaimSteps(s, id, n, b);
    var answer := if Holds(s, n, b) then Ok200(true) else Conflict409;
    DuplicateExactly(At(s, id, n, b, CheckDuplicate), id);
    assert Next(At(s, id, n, b, CheckDuplicate), Proceed(id)) == At(s, id, n, b, Done(answer));
    Answered(s, id, n, b, answer);
    hide Run;
  }

  /** While a name is being processed, or only received, an upload of it is refused. */
  lemma BusyUpload(s: Ledger, id: RequestId, n: FileName, b: Bytes)
    requires id !in s.requests && n in s.uploads && s.uploads[n].status in {Processing, Received}
    ensures OnlyAnswers(s, Run(s, Upload1(id, n, b)), id, n, b, Conflict409)
  {
    hide Next;
    RunUpload1(s, id, n, b);
    ClaimSteps(s, id, n, b);
    Answered(s, id, n, b, Conflict409);
    hide Run;
  }

  /** The statement that compares: 200 with duplicate true if and only if the retained bytes were sent. */
  lemma DuplicateExactly(s: Ledger, id: RequestId)
    requires id in s.requests && s.requests[id].stage == CheckDuplicate && RetainedOk(s, s.requests[id].name)
    ensures var r, t := s.requests[id], Next(s, Proceed(id));
      && (t.requests[id].stage == Done(Ok200(true)) <==> Holds(s, r.name, r.payload))
      && (t.requests[id].stage == Done(Conflict409) <==> !Holds(s, r.name, r.payload))
      && OnlyAnswers(s, t, id, r.name, r.payload, if Holds(s, r.name, r.payload) then Ok200(true) else Conflict409)
  {
  }

  /** All four cases, from any state a run reaches. */
  lemma UndisturbedUpload(s0: Ledger, moves: seq<Move>, id: RequestId, n: FileName, b: Bytes)
    requires Initial(s0) && id !in Run(s0, moves).requests
    ensures var s := Run(s0, moves);
      var t := Run(s, Upload1(id, n, b));
      if n !in s.uploads then Leaves(s, t, id, n, b, Ok200(false), Processed, 1)
      else
        match s.uploads[n].status
        case Failed =>
          if n !in s.payloads || Holds(s, n, b)
          then Leaves(s, t, id, n, b, Ok200(false), Processed, s.uploads[n].attempts + 1)
          else Leaves(s, t, id, n, b, Conflict409, Failed, s.uploads[n].attempts + 1)
        case Processed => OnlyAnswers(s, t, id, n, b, if Holds(s, n, b) then Ok200(true) else Conflict409)
        case _ => OnlyAnswers(s, t, id, n, b, Conflict409)
  {
    hide Run, Leaves, OnlyAnswers;
    var s := Run(s0, moves);
    InitialRun(s0, moves);
    assert NameOk(s0, s, n);
    if n !in s.uploads {
      NewUpload(s, id, n, b);
    } else {
      match s.uploads[n].status
      case Failed => RetriedUpload(s, id, n, b);
      case Processed => RepeatedUpload(s, id, n, b);
      case _ => BusyUpload(s, id, n, b);
    }
  }

  /** Whoever raises before its claim answers 500 and leaves the tables alone; behind it, the row is failed. */
  lemma RaisingAnswers500(s: Ledger, id: RequestId)
    requires id in s.requests && !s.requests[id].stage.Done? && !s.requests[id].stage.MarkFailed?
    requires s.requests[id].name in s.uploads
    ensures var r, t := s.requests[id], Next(s, Raise(id));
      var early := r.stage in {InsertUpload, RetryFailed, SelectStatus, CheckDuplicate};
      && (early ==> OnlyAnswers(s, t, id, r.name, r.payload, Error500))
      && (!early ==> Next(t, Proceed(id)) ==
                       At(WithRow(s, r.name, Upload(Failed, s.uploads[r.name].attempts)), id, r.name, r.payload,
                          Done(Error500)))
  {
  }

  /** A statement that took effect but whose caller sees an exception writes what it writes when it returns, and
      the handler goes on as if it had not; a process that dies answers nothing and writes nothing. */
  lemma LostAcknowledgement(s: Ledger, id: RequestId)
    requires id in s.requests && !s.requests[id].stage.Done?
    ensures var t := Next(s, ProceedThenRaise(id));
      && t.uploads == Next(s, Proceed(id)).uploads && t.payloads == Next(s, Proceed(id)).payloads
      && t.requests == Next(s, Raise(id)).requests
    ensures var r := s.requests[id]; OnlyAnswers(s, Next(s, Stop(id)), id, r.name, r.payload, NoAnswer)
  {
  }

  /** The first request of a new name whose processing raises. */
  function FailedUpload(s: Ledger, id: RequestId, n: FileName, b: Bytes): Ledger {
    var p := Proceed(id);
    Next(Next(Next(Next(Next(s, Arrive(id, n, b)), p), p), Raise(id)), p)
  }

  /** It leaves a failed row with its bytes retained; only those bytes make the next upload succeed. */
  lemma FailedThenRepeated(s: Ledger, first: RequestId, second: RequestId, n: FileName, b: Bytes, c: Bytes)
    requires first != second && first !in s.requests && second !in s.requests && n !in s.uploads && RetainedOk(s, n)
    ensures var failed := FailedUpload(s, first, n, b);
      && Leaves(s, failed, first, n, b, Error500, Failed, 1)
      && (var t := Run(failed, Upload1(second, n, c));
          if b == c then Leaves(failed, t, second, n, c, Ok200(false), Processed, 2)
          else Leaves(failed, t, second, n, c, Conflict409, Failed, 2))
  {
    hide Next, Run;
    ClaimSteps(s, first, n, b);
    var claimed := WithClaim(s, n, 1);
    RetainSteps(claimed, first, n, b);
    var kept := At(WithPayload(claimed, n, b), first, n, b, ProcessRows);
    RaisingAnswers500(kept, first);
    assert FailedUpload(s, first, n, b) ==
           At(WithRow(WithPayload(claimed, n, b), n, Upload(Failed, 1)), first, n, b, Done(Error500));
    assert WithRow(claimed, n, Upload(Failed, 1)).uploads == s.uploads[n := Upload(Failed, 1)];
    RetriedUpload(FailedUpload(s, first, n, b), second, n, c);
  }
}
