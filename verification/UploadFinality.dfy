/**
  Which upload rows are settled for good: exact conditions, over every run, for a processed row to be
  undone and for a processing row to stay as it is.
 */
module UploadFinality {
  import opened Prelude
  import opened UploadLedger
  import opened UploadRuns

  /** Whether some run changes the row of `n`. */
  ghost predicate Changeable(s: Ledger, n: FileName)
    requires n in s.uploads
  {
    exists moves: seq<Move> :: n !in Run(s, moves).uploads || Run(s, moves).uploads[n] != s.uploads[n]
  }

  /** An owner can always go on to mark its row failed. */
  lemma OwnerCanFail(s: Ledger, id: RequestId)
    requires id in s.requests && Owns(s.requests[id].stage) && s.requests[id].name in s.uploads
    ensures var n := s.requests[id].name;
      exists moves: seq<Move> :: n in Run(s, moves).uploads && Run(s, moves).uploads[n].status.Failed?
  {
    var r := s.requests[id];
    if r.stage.MarkFailed? {
      var moves := [Proceed(id)];
      RunOne(s, Proceed(id));
      assert Run(s, moves).uploads[r.name].status.Failed?;
    } else {
      var t := Next(s, Raise(id));
      assert t.requests[id].stage == MarkFailed(false) && t.uploads == s.uploads;
      var moves := [Raise(id), Proceed(id)] + [];
      RunTwo(s, Raise(id), Proceed(id), []);
      assert Run(s, moves).uploads[r.name].status.Failed?;
    }
  }

  lemma RunOne(s: Ledger, m: Move)
    ensures Run(s, [m]) == Next(s, m)
  {
    assert [m][1..] == [];
  }

  // ---------------------------------------------------------------- processed rows

  lemma {:induction false} UnthreatenedStays(s0: Ledger, s: Ledger, moves: seq<Move>, n: FileName)
    requires Inv(s0, s) && ProcessedIn(s, n) && forall id :: !Threatens(s, id, n)
    ensures n in Run(s, moves).uploads && Run(s, moves).uploads[n] == s.uploads[n]
    decreases |moves|
  {
    if moves != [] {
      var m := moves[0];
      var t := Next(s, m);
      NextKeepsInv(s0, s, m);
      assert MarksFailed(s, m, n) ==> Threatens(s, m.id, n);
      assert LosesMark(s, m) ==> Fits(s, s.requests[m.id]);
      ProcessedLeftOnlyByItsOwner(s0, s, m, n);
      forall id ensures !Threatens(t, id, n) {
        if Threatens(t, id, n) {
          OnlyLostMarksThreaten(s0, s, m, id, n);
        }
      }
      UnthreatenedStays(s0, t, moves[1..], n);
    }
  }

  /** A processed row is final, whatever happens later, if and only if no request is about to fail it. */
  lemma {:induction false} ProcessedFinalExactly(s0: Ledger, s: Ledger, n: FileName)
    requires Inv(s0, s) && ProcessedIn(s, n)
    ensures Changeable(s, n) <==> exists id :: Threatens(s, id, n)
  {
    if id :| Threatens(s, id, n) {
      OwnerCanFail(s, id);
    } else {
      forall moves: seq<Move> ensures n in Run(s, moves).uploads && Run(s, moves).uploads[n] == s.uploads[n] {
        UnthreatenedStays(s0, s, moves, n);
      }
    }
  }

  lemma RunLast(s: Ledger, moves: seq<Move>, k: nat)
    requires k < |moves|
    ensures Run(s, moves[..k + 1]) == Next(Run(s, moves[..k]), moves[k])
  {
    assert moves[..k + 1] == moves[..k] + [moves[k]];
    RunSplit(s, moves[..k], [moves[k]]);
    RunOne(Run(s, moves[..k]), moves[k]);
  }

  lemma {:induction false} RunSplit(s: Ledger, a: seq<Move>, b: seq<Move>)
    ensures Run(s, a + b) == Run(Run(s, a), b)
    decreases |a|
  {
    if a == [] {
      assert a + b == b;
    } else {
      assert (a + b)[0] == a[0] && (a + b)[1..] == a[1..] + b;
      RunSplit(Next(s, a[0]), a[1..], b);
    }
  }

  lemma {:induction false} ThreatHasOrigin(s0: Ledger, moves: seq<Move>, k: nat, id: RequestId, n: FileName)
    requires Initial(s0) && k <= |moves| && Threatens(Run(s0, moves[..k]), id, n)
    ensures exists i: nat :: i < k && LosesMarkOf(Run(s0, moves[..i]), moves[i], id, n)
  {
    if k > 0 {
      var s := Run(s0, moves[..k - 1]);
      InitialRun(s0, moves[..k - 1]);
      RunLast(s0, moves, k - 1);
      OnlyLostMarksThreaten(s0, s, moves[k - 1], id, n);
      if Threatens(s, id, n) {
        ThreatHasOrigin(s0, moves, k - 1, id, n);
      }
    }
  }

  /** After some prefix the row is processed, and after a longer one it is not. */
  ghost predicate Undone(s0: Ledger, moves: seq<Move>, n: FileName) {
    exists i: nat, j: nat :: i < j <= |moves|
      && ProcessedIn(Run(s0, moves[..i]), n) && !ProcessedIn(Run(s0, moves[..j]), n)
  }

  /** A request loses the acknowledgement of its mark, and later its own failure mark takes effect. */
  ghost predicate LostThenFailed(s0: Ledger, moves: seq<Move>, n: FileName) {
    exists i: nat, j: nat, id: RequestId :: i < j < |moves|
      && LosesMarkOf(Run(s0, moves[..i]), moves[i], id, n)
      && MarksFailed(Run(s0, moves[..j]), moves[j], n) && moves[j].id == id
  }

  lemma {:induction false} LeavingStep(s0: Ledger, moves: seq<Move>, n: FileName, i: nat, j: nat) returns (k: nat)
    requires i < j <= |moves| && ProcessedIn(Run(s0, moves[..i]), n) && !ProcessedIn(Run(s0, moves[..j]), n)
    ensures i <= k < j && ProcessedIn(Run(s0, moves[..k]), n) && !ProcessedIn(Run(s0, moves[..k + 1]), n)
    decreases j
  {
    k := j - 1;
    if !ProcessedIn(Run(s0, moves[..k]), n) {
      k := LeavingStep(s0, moves, n, i, j - 1);
    }
  }

  /**
    Over any run, a processed row is undone if and only if a request lost the acknowledgement of its mark
    and its own failure mark took effect later.
   */
  lemma {:induction false} ProcessedUndoneExactly(s0: Ledger, moves: seq<Move>, n: FileName)
    requires Initial(s0)
    ensures Undone(s0, moves, n) <==> LostThenFailed(s0, moves, n)
  {
    if Undone(s0, moves, n) {
      var i: nat, j: nat :| i < j <= |moves|
        && ProcessedIn(Run(s0, moves[..i]), n) && !ProcessedIn(Run(s0, moves[..j]), n);
      var k := LeavingStep(s0, moves, n, i, j);
      UndoneIsLost(s0, moves, n, k);
    }
    if LostThenFailed(s0, moves, n) {
      var i: nat, j: nat, id: RequestId :| i < j < |moves|
        && LosesMarkOf(Run(s0, moves[..i]), moves[i], id, n)
        && MarksFailed(Run(s0, moves[..j]), moves[j], n) && moves[j].id == id;
      LostIsUndone(s0, moves, n, i, j);
    }
  }

  lemma {:induction false} UndoneIsLost(s0: Ledger, moves: seq<Move>, n: FileName, k: nat)
    requires Initial(s0) && k < |moves|
    requires ProcessedIn(Run(s0, moves[..k]), n) && !ProcessedIn(Run(s0, moves[..k + 1]), n)
    ensures LostThenFailed(s0, moves, n)
  {
    var s, m := Run(s0, moves[..k]), moves[k];
    InitialRun(s0, moves[..k]);
    RunLast(s0, moves, k);
    ProcessedLeftOnlyByItsOwner(s0, s, m, n);
    ThreatHasOrigin(s0, moves, k, m.id, n);
  }

  lemma {:induction false} LostIsUndone(s0: Ledger, moves: seq<Move>, n: FileName, i: nat, j: nat)
    requires Initial(s0) && i < j < |moves|
    requires LosesMarkOf(Run(s0, moves[..i]), moves[i], moves[i].id, n)
    requires MarksFailed(Run(s0, moves[..j]), moves[j], n)
    ensures Undone(s0, moves, n)
  {
    var s, t := Run(s0, moves[..i]), Run(s0, moves[..j]);
    InitialRun(s0, moves[..i]);
    InitialRun(s0, moves[..j]);
    assert Fits(s, s.requests[moves[i].id]) && Fits(t, t.requests[moves[j].id]);
    RunLast(s0, moves, i);
    RunLast(s0, moves, j);
    assert ProcessedIn(Run(s0, moves[..i + 1]), n) && !ProcessedIn(Run(s0, moves[..j + 1]), n);
  }

  // ---------------------------------------------------------------- processing rows

  /** A processing row is stuck, whatever happens later, if and only if it has no owner. */
  lemma {:induction false} AbandonedExactly(s: Ledger, n: FileName)
    requires n in s.uploads && s.uploads[n].status.Processing?
    ensures Abandoned(s, n) <==> !Changeable(s, n)
  {
    if Abandoned(s, n) {
      forall moves: seq<Move> ensures n in Run(s, moves).uploads && Run(s, moves).uploads[n] == s.uploads[n] {
        AbandonedIsStuck(s, moves, n);
      }
    } else {
      var id :| id in s.requests && s.requests[id].name == n && Owns(s.requests[id].stage);
      OwnerCanFail(s, id);
    }
  }
}
