/**
  The upload ledger: every SQL statement of the file-upload repository is one atomic step,
  and any number of HTTP requests interleave their steps.  A step may also raise before or
  after its statement took effect, and the process serving a request may stop at any point.
 */
module UploadLedger {
  import opened Prelude

  type FileName = string
  type RequestId = nat

  datatype Status = Received | Processing | Processed | Failed

  /** A row of `file_uploads`. */
  datatype Upload = Upload(status: Status, attempts: nat)

  /** A row of `file_upload_payloads`. */
  datatype Retained = Retained(bytes: Bytes, sha256: Digest, byteLength: nat)

  datatype Answer = Ok200(duplicate: bool) | Conflict409 | Error500 | NoAnswer

  /** The next statement a request is going to send. */
  datatype Stage =
    | InsertUpload | RetryFailed | SelectStatus | CheckDuplicate
    | RetainInsert | RetainSelect | ProcessRows | MarkProcessed | MarkFailed(mismatch: bool)
    | Done(answer: Answer)

  datatype Request = Request(name: FileName, payload: Bytes, stage: Stage)

  /** `claimLog` records, in order, the file name of every successful claim. */
  datatype Ledger = Ledger(
    uploads: map<FileName, Upload>,
    payloads: map<FileName, Retained>,
    requests: map<RequestId, Request>,
    claimLog: seq<FileName>)

  /** What happens next in an interleaving. */
  datatype Move =
    | Arrive(id: RequestId, name: FileName, payload: Bytes)
    | Proceed(id: RequestId)        // the pending statement runs and returns
    | Raise(id: RequestId)          // it raises without having taken effect
    | ProceedThenRaise(id: RequestId) // it takes effect, but the caller sees an exception
    | Stop(id: RequestId)           // the serving process dies

  function Retain(payload: Bytes): Retained {
    Retained(payload, Sha256(payload), |payload|)
  }

  predicate Matches(row: Retained, payload: Bytes) {
    row.sha256 == Sha256(payload) && row.byteLength == |payload|
  }

  /** Between a successful claim and the statement that marks the row. */
  predicate Owns(stage: Stage) {
    stage.RetainInsert? || stage.RetainSelect? || stage.ProcessRows? || stage.MarkProcessed? || stage.MarkFailed?
  }

  /** Where the handler continues when the statement of `stage` raises. */
  function AfterException(stage: Stage): Stage {
    if Owns(stage) && !stage.MarkFailed? then MarkFailed(false) else Done(Error500)
  }

  function SetStage(s: Ledger, id: RequestId, stage: Stage): Ledger
    requires id in s.requests
  {
    s.(requests := s.requests[id := s.requests[id].(stage := stage)])
  }

  function SetStatus(s: Ledger, name: FileName, status: Status): Ledger {
    if name in s.uploads then s.(uploads := s.uploads[name := s.uploads[name].(status := status)]) else s
  }

  function Claim(s: Ledger, name: FileName, attempts: nat): Ledger {
    s.(uploads := s.uploads[name := Upload(Processing, attempts)], claimLog := s.claimLog + [name])
  }

  /** What the pending statement of `r` does to the tables. */
  function Effect(s: Ledger, r: Request): Ledger {
    match r.stage
    case InsertUpload => if r.name !in s.uploads then Claim(s, r.name, 1) else s
    case RetryFailed =>
      if r.name in s.uploads && s.uploads[r.name].status.Failed?
      then Claim(s, r.name, s.uploads[r.name].attempts + 1) else s
    case RetainInsert =>
      if r.name !in s.payloads then s.(payloads := s.payloads[r.name := Retain(r.payload)]) else s
    case MarkProcessed => SetStatus(s, r.name, Processed)
    case MarkFailed(_) => SetStatus(s, r.name, Failed)
    case _ => s
  }

  /** Where the handler goes once that statement has returned; `s` is the state it ran in. */
  function Continue(s: Ledger, r: Request): Stage {
    match r.stage
    case InsertUpload => if r.name !in s.uploads then RetainInsert else RetryFailed
    case RetryFailed =>
      if r.name in s.uploads && s.uploads[r.name].status.Failed? then RetainInsert else SelectStatus
    case SelectStatus =>
      if r.name !in s.uploads then Done(Error500)
      else if s.uploads[r.name].status.Processed? then CheckDuplicate
      else Done(Conflict409)
    case CheckDuplicate =>
      if r.name in s.payloads && Matches(s.payloads[r.name], r.payload) then Done(Ok200(true)) else Done(Conflict409)
    case RetainInsert => if r.name !in s.payloads then ProcessRows else RetainSelect
    case RetainSelect =>
      if r.name !in s.payloads then MarkFailed(false)
      else if Matches(s.payloads[r.name], r.payload) then ProcessRows
      else MarkFailed(true)
    case ProcessRows => MarkProcessed
    case MarkProcessed => Done(Ok200(false))
    case MarkFailed(mismatch) => Done(if mismatch then Conflict409 else Error500)
    case Done(_) => r.stage
  }

  predicate Enabled(s: Ledger, m: Move) {
    if m.Arrive? then m.id !in s.requests
    else m.id in s.requests && !s.requests[m.id].stage.Done?
  }

  /** One step of the interleaving; a move that is not enabled changes nothing. */
  function Next(s: Ledger, m: Move): Ledger {
    if !Enabled(s, m) then s
    else if m.Arrive? then s.(requests := s.requests[m.id := Request(m.name, m.payload, InsertUpload)])
    else
      var r := s.requests[m.id];
      match m
      case Proceed(id) => SetStage(Effect(s, r), id, Continue(s, r))
      case Raise(id) => SetStage(s, id, AfterException(r.stage))
      case ProceedThenRaise(id) => SetStage(Effect(s, r), id, AfterException(r.stage))
      case Stop(id) => SetStage(s, id, Done(NoAnswer))
  }

  function Run(s: Ledger, moves: seq<Move>): Ledger
    decreases |moves|
  {
    if moves == [] then s else Run(Next(s, moves[0]), moves[1..])
  }

  /** Any stored tables, with no request in flight. */
  predicate Initial(s: Ledger) {
    && s.requests == map[] && s.claimLog == []
    && s.payloads.Keys <= s.uploads.Keys
    && forall n :: n in s.payloads ==> s.payloads[n] == Retain(s.payloads[n].bytes)
  }

  // ---------------------------------------------------------------- invariant

  function StoredAttempts(s0: Ledger, name: FileName): nat {
    if name in s0.uploads then s0.uploads[name].attempts else 0
  }

  /** One file name: its row, its attempt counter and its retained payload. */
  ghost predicate NameOk(s0: Ledger, s: Ledger, n: FileName) {
    && (n in s0.uploads ==> n in s.uploads)
    && (n in s0.payloads ==> n in s.payloads && s.payloads[n] == s0.payloads[n])
    && (n in s.payloads ==> n in s.uploads && s.payloads[n] == Retain(s.payloads[n].bytes))
    && (n !in s.uploads ==> multiset(s.claimLog)[n] == 0)
    && (n in s.uploads ==>
          && s.uploads[n].attempts == StoredAttempts(s0, n) + multiset(s.claimLog)[n]
          && (s.uploads[n].status.Processed? ==>
                n in s.payloads || (n in s0.uploads && s0.uploads[n].status.Processed?)))
  }

  ghost predicate TablesOk(s0: Ledger, s: Ledger) {
    forall n: FileName :: NameOk(s0, s, n)
  }

  /** What a request may rely on at its stage. */
  ghost predicate Fits(s: Ledger, r: Request) {
    && (!r.stage.InsertUpload? && !r.stage.Done? ==> r.name in s.uploads)
    && (Owns(r.stage) ==>
          || s.uploads[r.name].status.Processing?
          || (s.uploads[r.name].status.Processed? && r.stage == MarkFailed(false)))
    && (r.stage.RetainSelect? ==> r.name in s.payloads)
    && (r.stage.ProcessRows? || r.stage.MarkProcessed?
        || r.stage == Done(Ok200(false)) || r.stage == Done(Ok200(true)) ==>
          r.name in s.payloads && s.payloads[r.name].bytes == r.payload)
  }

  ghost predicate Exclusive(requests: map<RequestId, Request>) {
    forall i, j | i in requests && j in requests && i != j && Owns(requests[i].stage) && Owns(requests[j].stage) ::
      requests[i].name != requests[j].name
  }

  ghost predicate Inv(s0: Ledger, s: Ledger) {
    && TablesOk(s0, s)
    && (forall id :: id in s.requests ==> Fits(s, s.requests[id]))
    && Exclusive(s.requests)
  }

  lemma EffectKeepsName(s0: Ledger, s: Ledger, r: Request, n: FileName)
    requires NameOk(s0, s, n) && Fits(s, r)
    ensures NameOk(s0, Effect(s, r), n)
  {
    match r.stage {
      case InsertUpload => ClaimKeepsName(s0, s, r.name, n);
      case RetryFailed => ClaimKeepsName(s0, s, r.name, n);
      case RetainInsert => RetainKeepsName(s0, s, r, n);
      case MarkProcessed => MarkKeepsName(s0, s, r, n);
      case MarkFailed(_) => MarkKeepsName(s0, s, r, n);
      case _ =>
    }
    hide NameOk, Fits;
  }

  lemma RetainKeepsName(s0: Ledger, s: Ledger, r: Request, n: FileName)
    requires NameOk(s0, s, n) && Fits(s, r) && r.stage.RetainInsert?
    ensures NameOk(s0, Effect(s, r), n)
  {
  }

  lemma MarkKeepsName(s0: Ledger, s: Ledger, r: Request, n: FileName)
    requires NameOk(s0, s, n) && Fits(s, r) && (r.stage.MarkProcessed? || r.stage.MarkFailed?)
    ensures NameOk(s0, Effect(s, r), n)
  {
  }

  /** A claim adds one to the attempt counter and one entry to the log. */
  lemma ClaimKeepsName(s0: Ledger, s: Ledger, name: FileName, n: FileName)
    requires NameOk(s0, s, n)
    ensures NameOk(s0, Claim(s, name, if name in s.uploads then s.uploads[name].attempts + 1 else 1), n)
  {
    assert multiset(s.claimLog + [name]) == multiset(s.claimLog) + multiset{name};
  }

  /** A statement of one request leaves every other request's view intact. */
  lemma EffectKeepsOthers(s: Ledger, r: Request, other: Request)
    requires Fits(s, r) && Fits(s, other)
    requires Owns(r.stage) && Owns(other.stage) ==> r.name != other.name
    ensures Fits(Effect(s, r), other)
  {
  }

  /** After its statement a request fits its next stage, whether it returned or raised. */
  lemma EffectFitsNext(s0: Ledger, s: Ledger, r: Request)
    requires Fits(s, r) && !r.stage.Done? && NameOk(s0, s, r.name)
    ensures Fits(Effect(s, r), r.(stage := Continue(s, r)))
    ensures Fits(Effect(s, r), r.(stage := AfterException(r.stage)))
    ensures Fits(s, r.(stage := AfterException(r.stage)))
  {
  }

  /** A request that begins to own a file name finds no other owner. */
  lemma NewOwnerIsAlone(s: Ledger, r: Request, other: Request)
    requires Fits(s, r) && Fits(s, other) && !Owns(r.stage) && Owns(Continue(s, r)) && Owns(other.stage)
    ensures r.name != other.name
  {
  }

  /** Putting request `id` at a new stage, over tables `u` that everyone fits. */
  lemma PlaceKeepsInv(s0: Ledger, s: Ledger, u: Ledger, id: RequestId, stage: Stage)
    requires id in s.requests && u.requests == s.requests && Exclusive(s.requests)
    requires TablesOk(s0, u) && Fits(u, s.requests[id].(stage := stage))
    requires forall j :: j in s.requests && j != id ==> Fits(u, s.requests[j])
    requires Owns(stage) && !Owns(s.requests[id].stage) ==>
      forall j :: j in s.requests && j != id && Owns(s.requests[j].stage) ==> s.requests[j].name != s.requests[id].name
    ensures Inv(s0, SetStage(u, id, stage))
  {
    var t := SetStage(u, id, stage);
    forall n: FileName ensures NameOk(s0, t, n) { assert NameOk(s0, u, n); }
    forall j | j in t.requests ensures Fits(t, t.requests[j]) {
      if j != id { assert Fits(u, s.requests[j]); }
    }
  }

  /** Every move of every request keeps the invariant. */
  lemma NextKeepsInv(s0: Ledger, s: Ledger, m: Move)
    requires Inv(s0, s)
    ensures Inv(s0, Next(s, m))
  {
    if Enabled(s, m) {
      if m.Arrive? {
        ArriveKeepsInv(s0, s, m);
      } else {
        var r := s.requests[m.id];
        var u := Effect(s, r);
        forall n: FileName ensures NameOk(s0, u, n) { EffectKeepsName(s0, s, r, n); }
        EffectFitsNext(s0, s, r);
        forall j | j in s.requests && j != m.id
          ensures Fits(u, s.requests[j])
          ensures !Owns(r.stage) && Owns(Continue(s, r)) && Owns(s.requests[j].stage) ==> s.requests[j].name != r.name
        {
          EffectKeepsOthers(s, r, s.requests[j]);
          if !Owns(r.stage) && Owns(Continue(s, r)) && Owns(s.requests[j].stage) {
            NewOwnerIsAlone(s, r, s.requests[j]);
          }
        }
        match m
        case Proceed(id) => PlaceKeepsInv(s0, s, u, id, Continue(s, r));
        case Raise(id) => PlaceKeepsInv(s0, s, s, id, AfterException(r.stage));
        case ProceedThenRaise(id) => PlaceKeepsInv(s0, s, u, id, AfterException(r.stage));
        case Stop(id) => PlaceKeepsInv(s0, s, s, id, Done(NoAnswer));
      }
    }
  }

  lemma ArriveKeepsInv(s0: Ledger, s: Ledger, m: Move)
    requires Inv(s0, s) && Enabled(s, m) && m.Arrive?
    ensures Inv(s0, Next(s, m))
  {
    var t := Next(s, m);
    forall n: FileName ensures NameOk(s0, t, n) { assert NameOk(s0, s, n); }
    forall j | j in t.requests ensures Fits(t, t.requests[j]) {
      if j != m.id { assert Fits(s, s.requests[j]); }
    }
  }

  // ---------------------------------------------------------------- the service

  /** The tables and the handlers in flight; one method per SQL statement of the repository. */
  class UploadService {
    var uploads: map<FileName, Upload>
    var payloads: map<FileName, Retained>
    var requests: map<RequestId, Request>
    ghost var claimLog: seq<FileName>

    ghost function State(): Ledger
      reads this
    {
      Ledger(uploads, payloads, requests, claimLog)
    }

    constructor ()
      ensures Initial(State())
    {
      uploads, payloads, requests, claimLog := map[], map[], map[], [];
    }

    method InsertOnConflictDoNothing(name: FileName) returns (inserted: bool)
      modifies this`uploads, this`claimLog
      ensures inserted == (name !in old(uploads))
      ensures State() == if inserted then Claim(old(State()), name, 1) else old(State())
    {
      inserted := name !in uploads;
      if inserted {
        uploads := uploads[name := Upload(Processing, 1)];
        claimLog := claimLog + [name];
      }
    }

    method RetryIfFailed(name: FileName) returns (retried: bool)
      modifies this`uploads, this`claimLog
      ensures retried == (name in old(uploads) && old(uploads)[name].status.Failed?)
      ensures State() == if retried then Claim(old(State()), name, old(uploads)[name].attempts + 1) else old(State())
    {
      retried := name in uploads && uploads[name].status.Failed?;
      if retried {
        uploads := uploads[name := Upload(Processing, uploads[name].attempts + 1)];
        claimLog := claimLog + [name];
      }
    }

    method InsertPayload(name: FileName, payload: Bytes) returns (inserted: bool)
      modifies this`payloads
      ensures inserted == (name !in old(payloads))
      ensures payloads == if inserted then old(payloads)[name := Retain(payload)] else old(payloads)
    {
      inserted := name !in payloads;
      if inserted {
        payloads := payloads[name := Retained(payload, Sha256(payload), |payload|)];
      }
    }

    method Mark(name: FileName, status: Status)
      modifies this`uploads
      ensures State() == SetStatus(old(State()), name, status)
    {
      if name in uploads {
        uploads := uploads[name := uploads[name].(status := status)];
      }
    }

    /** The pending statement of `id` runs; `raised` says whether its caller sees an exception. */
    method Statement(id: RequestId, raised: bool)
      requires id in requests && !requests[id].stage.Done?
      modifies this
      ensures State() == Next(old(State()), if raised then ProceedThenRaise(id) else Proceed(id))
    {
      var r := requests[id];
      var next: Stage;
      match r.stage {
        case InsertUpload =>
          var inserted := InsertOnConflictDoNothing(r.name);
          next := if inserted then RetainInsert else RetryFailed;
        case RetryFailed =>
          var retried := RetryIfFailed(r.name);
          next := if retried then RetainInsert else SelectStatus;
        case SelectStatus =>
          if r.name !in uploads {
            next := Done(Error500);
          } else if uploads[r.name].status == Processed {
            next := CheckDuplicate;
          } else {
            next := Done(Conflict409);
          }
        case CheckDuplicate =>
          if r.name in payloads && Matches(payloads[r.name], r.payload) {
            next := Done(Ok200(true));
          } else {
            next := Done(Conflict409);
          }
        case RetainInsert =>
          var inserted := InsertPayload(r.name, r.payload);
          next := if inserted then ProcessRows else RetainSelect;
        case RetainSelect =>
          if r.name !in payloads {
            next := MarkFailed(false);
          } else if Matches(payloads[r.name], r.payload) {
            next := ProcessRows;
          } else {
            next := MarkFailed(true);
          }
        case ProcessRows =>
          next := MarkProcessed;
        case MarkProcessed =>
          Mark(r.name, Processed);
          next := Done(Ok200(false));
        case MarkFailed(mismatch) =>
          Mark(r.name, Failed);
          next := Done(if mismatch then Conflict409 else Error500);
      }
      if raised {
        next := AfterException(r.stage);
      }
      requests := requests[id := r.(stage := next)];
    }

    /** Serves any schedule of moves and ends in the state the model predicts. */
    method Serve(moves: seq<Move>)
      modifies this
      ensures State() == Run(old(State()), moves)
    {
      var k := 0;
      while k < |moves|
        invariant 0 <= k <= |moves|
        invariant Run(State(), moves[k..]) == Run(old(State()), moves)
      {
        var m := moves[k];
        ghost var before := State();
        assert moves[k..][0] == m && moves[k..][1..] == moves[k + 1..];
        if Enabled(Ledger(uploads, payloads, requests, []), m) {
          match m
          case Arrive(id, name, payload) => requests := requests[id := Request(name, payload, InsertUpload)];
          case Proceed(id) => Statement(id, false);
          case ProceedThenRaise(id) => Statement(id, true);
          case Raise(id) => requests := requests[id := requests[id].(stage := AfterException(requests[id].stage))];
          case Stop(id) => requests := requests[id := requests[id].(stage := Done(NoAnswer))];
        }
        assert State() == Next(before, m);
        k := k + 1;
      }
      assert moves[k..] == [];
    }
  }
}
