/** The promises of the validation protocol, over every reachable state and every run. */
module ValidationTheorems {
  import opened Prelude
  import opened ValidationProtocol
  import opened ValidationInvariants
  import opened ValidationRows

  lemma ReachableInv(s: State)
    requires Reachable(s)
    ensures Inv(s)
  {
    var actions :| Runs(Initial, actions, s);
    RunKeeps(Initial, actions, s);
  }

  // Conservation: a counter plus what cleanup archived is the sum over committed approvals.
  lemma UsageIsConserved(s: State, k: CounterKey)
    requires Reachable(s)
    ensures Usage(s.counters, k) + Archived(s, k) == Approved(s.ledger, k)
  {
    ReachableInv(s);
  }

  // Exactly once: no request id contributes through two commits.
  lemma ExactlyOnce(s: State, i: nat, j: nat)
    requires Reachable(s) && i < j < |s.ledger|
    ensures s.ledger[i].requestId != s.ledger[j].requestId && s.ledger[i].call != s.ledger[j].call
  {
    ReachableInv(s);
    assert EntryOk(s, s.ledger[i]) && EntryOk(s, s.ledger[j]);
  }

  predicate Approves(s: State, c: CallId) {
    c in s.calls && s.calls[c].phase.Replied? && s.calls[c].phase.outcome.Fresh?
    && s.calls[c].phase.outcome.response.result.decision == Allow
  }

  predicate Committed(s: State, c: CallId) {
    exists i :: 0 <= i < |s.ledger| && s.ledger[i].call == c
  }

  // The record and the audit event of an approval.
  predicate Recorded(s: State, c: CallId)
    requires Approves(s, c)
  {
    var rid, e := s.calls[c].requestId, s.calls[c].phase.outcome.response.result;
    rid in s.records && s.records[rid] == Validation(c, rid, e) && c in s.audits && s.audits[c] == e
  }

  lemma ApprovalsCommit(s: State, c: CallId)
    requires CallsOk(s) && Approves(s, c)
    ensures Committed(s, c)
  {
    assert CallOk(s.counters, s.records, s.ledger, c, s.calls[c]);
  }

  lemma CommitsApprove(s: State, i: nat)
    requires i < |s.ledger| && EntryOk(s, s.ledger[i])
    ensures Approves(s, s.ledger[i].call) && Recorded(s, s.ledger[i].call)
  {
  }

  // An approval is exactly a commit: the record, the audit event and the increments are all in.
  lemma ApprovalIsCommit(s: State, c: CallId)
    requires Reachable(s)
    ensures Approves(s, c) <==> Committed(s, c)
    ensures Approves(s, c) ==> Recorded(s, c)
  {
    ReachableInv(s);
    if Approves(s, c) { ApprovalsCommit(s, c); }
    if i :| 0 <= i < |s.ledger| && s.ledger[i].call == c { CommitsApprove(s, i); }
  }

  // At most one approval per request id.
  lemma OneApprovalPerRequest(s: State, c: CallId, d: CallId)
    requires Reachable(s) && Approves(s, c) && Approves(s, d) && s.calls[c].requestId == s.calls[d].requestId
    ensures c == d
  {
    ApprovalIsCommit(s, c);
    ApprovalIsCommit(s, d);
  }

  // A duplicate gets the stored decision, reason and rule ids; so all duplicates of one request agree.
  lemma DuplicateGetsStored(s: State, c: CallId)
    requires Reachable(s) && c in s.calls && s.calls[c].phase.Replied? && s.calls[c].phase.outcome.Duplicate?
    ensures var rid := s.calls[c].requestId;
            && rid in s.records && IsStored(s.records, rid, s.calls[c].phase.outcome.response)
            && s.calls[c].phase.outcome.response == Response(s.records[rid].id, rid, s.records[rid].result)
  {
    ReachableInv(s);
    assert CallOk(s.counters, s.records, s.ledger, c, s.calls[c]);
    assert RecordOk(s.calls, s.calls[c].requestId, s.records[s.calls[c].requestId]);
  }

  /* ---- what the callers of one request id are told ---- */

  predicate Answered(s: State, c: CallId) {
    c in s.calls && s.calls[c].phase.Replied? && !s.calls[c].phase.outcome.Failed?
  }

  function AnswerOf(s: State, c: CallId): Evaluation
    requires Answered(s, c)
  {
    s.calls[c].phase.outcome.response.result
  }

  // A fresh DENY or REVIEW of a call that did not write the record of its request.
  predicate Unrecorded(s: State, c: CallId) {
    Answered(s, c) && s.calls[c].phase.outcome.Fresh? && AnswerOf(s, c).decision != Allow
    && !(s.calls[c].requestId in s.records && s.records[s.calls[c].requestId].id == c)
  }

  // DENY and REVIEW replies are sent even when their insert lost the race: such a reply is the
  // stored one exactly when this call wrote the record.
  lemma FreshIsStoredIff(s: State, c: CallId)
    requires Reachable(s) && c in s.calls && s.calls[c].phase.Replied? && s.calls[c].phase.outcome.Fresh?
    ensures var rid, r := s.calls[c].requestId, s.calls[c].phase.outcome.response;
            IsStored(s.records, rid, r) <==> rid in s.records && s.records[rid].id == c
  {
    ReachableInv(s);
    var rid := s.calls[c].requestId;
    assert CallOk(s.counters, s.records, s.ledger, c, s.calls[c]);
    if rid in s.records { assert RecordOk(s.calls, rid, s.records[rid]); }
  }

  lemma RecordedAnswer(s: State, c: CallId)
    requires Reachable(s) && Answered(s, c) && !Unrecorded(s, c)
    ensures s.calls[c].requestId in s.records && AnswerOf(s, c) == s.records[s.calls[c].requestId].result
  {
    if s.calls[c].phase.outcome.Duplicate? {
      DuplicateGetsStored(s, c);
    } else if AnswerOf(s, c).decision == Allow {
      ApprovalIsCommit(s, c);
    } else {
      FreshIsStoredIff(s, c);
    }
  }

  // Two answers to one request id differ, in decision, reason or rule ids, only if one of them is a
  // DENY or REVIEW that was never written.
  lemma DifferingAnswers(s: State, c: CallId, d: CallId)
    requires Reachable(s) && Answered(s, c) && Answered(s, d) && s.calls[c].requestId == s.calls[d].requestId
    requires AnswerOf(s, c) != AnswerOf(s, d)
    ensures Unrecorded(s, c) || Unrecorded(s, d)
  {
    if !Unrecorded(s, c) && !Unrecorded(s, d) {
      RecordedAnswer(s, c);
      RecordedAnswer(s, d);
    }
  }

  // Where a call with a DENY or REVIEW stands once it has tried to write its record.
  predicate PastInsert(p: Phase, c: CallId, rid: RequestId, e: Evaluation) {
    p in {AuditingOutside(e), Replied(Fresh(Response(c, rid, e))), Replied(Failed)}
  }

  // A call that answers e, or has answered it, or has failed.
  predicate Answers(s: State, c: CallId, rid: RequestId, e: Evaluation) {
    c in s.calls && s.calls[c].requestId == rid && PastInsert(s.calls[c].phase, c, rid, e)
  }

  predicate Stored(s: State, rid: RequestId, v: Validation) {
    rid in s.records && s.records[rid] == v
  }

  // A step that inserts a record; the record of a call carries its evaluation.
  predicate Inserts(s: State, a: Action, rid: RequestId, v: Validation) {
    rid !in s.records && (a.CommitTx? || a.RecordOutside?) && !a.fault && a.c in s.calls && s.calls[a.c].requestId == rid
    && (if a.CommitTx? then s.calls[a.c].phase.Committing? else s.calls[a.c].phase.RecordingOutside?)
    && v == Validation(a.c, rid, s.calls[a.c].phase.eval)
  }

  // What a step does to the tables: a move of one call, or one of the four steps that write.
  predicate Writes(a: Action) {
    a.Arrive? || a.Cleanup? || a.CommitTx? || a.RecordOutside? || a.AuditOutside?
  }

  lemma OtherMoves(s: State, a: Action) returns (p: Phase)
    requires Enabled(s, a) && !Writes(a)
    ensures Apply(s, a) == Move(s, a.c, p)
    ensures s.calls[a.c].phase.AuditingOutside? || s.calls[a.c].phase.Replied? ==> p == Replied(Failed)
  {
    if Early(a) {
      p := EarlyMoves(s, a);
    } else if Late(a) {
      p := LateMoves(s, a);
    } else if a.Abort? {
      p := Replied(Failed);
    } else {
      p := UpsertPhase(s.counters, s.calls[a.c].phase, a.key, a.amount, a.max, a.expiresAt);
    }
  }

  /* what a call answers does not change */

  lemma MoveStillAnswers(s: State, d: CallId, p: Phase, c: CallId, rid: RequestId, e: Evaluation)
    requires Answers(s, c, rid, e) && d in s.calls && (d == c ==> PastInsert(p, c, rid, e))
    ensures Answers(Move(s, d, p), c, rid, e)
  {
  }

  lemma CommitStillAnswers(s: State, d: CallId, fault: bool, c: CallId, rid: RequestId, e: Evaluation)
    requires Answers(s, c, rid, e) && d in s.calls && s.calls[d].phase.Committing?
    ensures Answers(DoCommit(s, d, fault), c, rid, e)
  {
  }

  lemma OutsideStillAnswers(s: State, d: CallId, fault: bool, c: CallId, rid: RequestId, e: Evaluation)
    requires Answers(s, c, rid, e) && d in s.calls
    ensures s.calls[d].phase.RecordingOutside? ==> Answers(DoRecordOutside(s, d, fault), c, rid, e)
    ensures s.calls[d].phase.AuditingOutside? ==> Answers(DoAuditOutside(s, d, fault), c, rid, e)
  {
  }

  lemma StepStillAnswers(s: State, a: Action, c: CallId, rid: RequestId, e: Evaluation)
    requires Enabled(s, a) && Answers(s, c, rid, e)
    ensures Answers(Apply(s, a), c, rid, e)
  {
    if a.CommitTx? {
      CommitStillAnswers(s, a.c, a.fault, c, rid, e);
    } else if a.RecordOutside? || a.AuditOutside? {
      OutsideStillAnswers(s, a.c, a.fault, c, rid, e);
    } else if !Writes(a) {
      var p := OtherMoves(s, a);
      MoveStillAnswers(s, a.c, p, c, rid, e);
    }
  }

  lemma {:induction false} RunStillAnswers(s: State, actions: seq<Action>, t: State, c: CallId, rid: RequestId, e: Evaluation)
    requires Runs(s, actions, t) && Answers(s, c, rid, e)
    ensures Answers(t, c, rid, e)
    decreases |actions|
  {
    if actions != [] {
      StepStillAnswers(s, actions[0], c, rid, e);
      RunStillAnswers(Apply(s, actions[0]), actions[1..], t, c, rid, e);
    }
  }

  /* a record is inserted once and stays */

  lemma CommitsOk(s: State, a: Action)
    requires Inv(s) && Enabled(s, a)
    ensures a.CommitTx? ==> CallOk(s.counters, s.records, s.ledger, a.c, s.calls[a.c])
  {
  }

  lemma CommitInserts(s: State, d: CallId, fault: bool, rid: RequestId, v: Validation)
    requires d in s.calls && CallOk(s.counters, s.records, s.ledger, d, s.calls[d]) && s.calls[d].phase.Committing?
    ensures Stored(DoCommit(s, d, fault), rid, v) <==> Stored(s, rid, v) || Inserts(s, CommitTx(d, fault), rid, v)
  {
    assert Pending(s.calls[d].phase, s.calls[d].requestId);
  }

  lemma RecordInserts(s: State, d: CallId, fault: bool, rid: RequestId, v: Validation)
    requires d in s.calls && s.calls[d].phase.RecordingOutside?
    ensures Stored(DoRecordOutside(s, d, fault), rid, v) <==> Stored(s, rid, v) || Inserts(s, RecordOutside(d, fault), rid, v)
  {
  }

  lemma OthersInsertNothing(s: State, a: Action)
    requires Enabled(s, a) && Writes(a) && !a.CommitTx? && !a.RecordOutside?
    ensures Apply(s, a).records == s.records
  {
  }

  lemma StepInserts(s: State, a: Action, rid: RequestId, v: Validation)
    requires Enabled(s, a) && (a.CommitTx? ==> CallOk(s.counters, s.records, s.ledger, a.c, s.calls[a.c]))
    ensures Stored(Apply(s, a), rid, v) <==> Stored(s, rid, v) || Inserts(s, a, rid, v)
  {
    if a.CommitTx? {
      CommitInserts(s, a.c, a.fault, rid, v);
    } else if a.RecordOutside? {
      RecordInserts(s, a.c, a.fault, rid, v);
    } else if Writes(a) {
      OthersInsertNothing(s, a);
    } else {
      var p := OtherMoves(s, a);
    }
  }

  // Somewhere in the run a call inserts this record.
  predicate Inserted(s: State, actions: seq<Action>, rid: RequestId, v: Validation)
    decreases |actions|
  {
    actions != [] && Enabled(s, actions[0])
    && (Inserts(s, actions[0], rid, v) || Inserted(Apply(s, actions[0]), actions[1..], rid, v))
  }

  lemma {:induction false} StoredIff(s: State, actions: seq<Action>, t: State, rid: RequestId, v: Validation)
    requires Inv(s) && Runs(s, actions, t)
    ensures Stored(t, rid, v) <==> Stored(s, rid, v) || Inserted(s, actions, rid, v)
    decreases |actions|
  {
    if actions != [] {
      StepKeeps(s, actions[0]);
      CommitsOk(s, actions[0]);
      StepInserts(s, actions[0], rid, v);
      StoredIff(Apply(s, actions[0]), actions[1..], t, rid, v);
    }
  }

  lemma InsertLeaves(s: State, c: CallId)
    requires c in s.calls && s.calls[c].phase.RecordingOutside?
    ensures var rid, e, t := s.calls[c].requestId, s.calls[c].phase.eval, DoRecordOutside(s, c, false);
            Answers(t, c, rid, e) && Stored(t, rid, if rid in s.records then s.records[rid] else Validation(c, rid, e))
  {
  }

  // A DENY or REVIEW whose insert is carried out differs from what is stored, then and for ever, exactly
  // when the insert finds a record of the request that says something else. It is answered all the same.
  lemma AnswerDiffersIff(s: State, c: CallId, actions: seq<Action>, t: State)
    requires Reachable(s) && Enabled(s, RecordOutside(c, false))
    requires Runs(DoRecordOutside(s, c, false), actions, t) && Answered(t, c)
    ensures var rid, e := s.calls[c].requestId, s.calls[c].phase.eval;
            AnswerOf(t, c) == e && rid in t.records
            && (AnswerOf(t, c) != t.records[rid].result <==> rid in s.records && s.records[rid].result != e)
  {
    var rid, e, s1 := s.calls[c].requestId, s.calls[c].phase.eval, DoRecordOutside(s, c, false);
    assert Inv(s1) by {
      ReachableInv(s);
      RecordOutsideKeeps(s, c, false);
    }
    InsertLeaves(s, c);
    RunStillAnswers(s1, actions, t, c, rid, e);
    StoredIff(s1, actions, t, rid, s1.records[rid]);
  }

  // One whose insert fails differs from what is stored later exactly when there was a record of the request
  // that says something else, or, if there was none, when another call goes on to insert another evaluation.
  lemma FaultedAnswerDiffersIff(s: State, c: CallId, actions: seq<Action>, t: State)
    requires Reachable(s) && Enabled(s, RecordOutside(c, true))
    requires Runs(DoRecordOutside(s, c, true), actions, t) && Answered(t, c)
    ensures var rid, e, s1 := s.calls[c].requestId, s.calls[c].phase.eval, DoRecordOutside(s, c, true);
            AnswerOf(t, c) == e
            && (rid in t.records && AnswerOf(t, c) != t.records[rid].result
                <==> if rid in s.records then s.records[rid].result != e
                     else exists v: Validation :: v.id != c && v.result != e && Inserted(s1, actions, rid, v))
  {
    var rid, e, s1 := s.calls[c].requestId, s.calls[c].phase.eval, DoRecordOutside(s, c, true);
    assert Inv(s1) by {
      ReachableInv(s);
      RecordOutsideKeeps(s, c, true);
    }
    RunStillAnswers(s1, actions, t, c, rid, e);
    if rid in s.records { StoredIff(s1, actions, t, rid, s.records[rid]); }
    if rid in t.records {
      var v := t.records[rid];
      StoredIff(s1, actions, t, rid, v);
      if Inserted(s1, actions, rid, v) { InsertedByAnother(s1, actions, t, c, rid, e, v); }
    }
    forall v | Inserted(s1, actions, rid, v) ensures Stored(t, rid, v) { StoredIff(s1, actions, t, rid, v); }
  }

  // A call past its insert inserts nothing.
  lemma {:induction false} InsertedByAnother(s: State, actions: seq<Action>, t: State, c: CallId, rid: RequestId, e: Evaluation, v: Validation)
    requires Runs(s, actions, t) && Answers(s, c, rid, e) && Inserted(s, actions, rid, v)
    ensures v.id != c
    decreases |actions|
  {
    if !Inserts(s, actions[0], rid, v) {
      StepStillAnswers(s, actions[0], c, rid, e);
      InsertedByAnother(Apply(s, actions[0]), actions[1..], t, c, rid, e, v);
    }
  }

  lemma StepReaches(s: State, a: Action)
    requires Reachable(s) && Enabled(s, a)
    ensures Reachable(Apply(s, a))
  {
    var actions :| Runs(Initial, actions, s);
    RunsExtend(Initial, actions, s, a);
  }

  function TwoCalls(rid: RequestId, p: Phase, q: Phase): State {
    State(map[], map[], map[], map[1 := Call(rid, p), 2 := Call(rid, q)], map[], [])
  }

  lemma RacersReceived(rid: RequestId)
    ensures Reachable(TwoCalls(rid, Received, Received))
  {
    assert Runs(Initial, [], Initial);
    StepReaches(Initial, Arrive(1, rid));
    var s1 := State(map[], map[], map[], map[1 := Call(rid, Received)], map[], []);
    assert Apply(Initial, Arrive(1, rid)) == s1;
    StepReaches(s1, Arrive(2, rid));
    assert Apply(s1, Arrive(2, rid)) == TwoCalls(rid, Received, Received);
  }

  lemma RacersScreened(rid: RequestId)
    ensures Reachable(TwoCalls(rid, Screened, Screened))
  {
    RacersReceived(rid);
    StepReaches(TwoCalls(rid, Received, Received), Screen(1, false));
    assert DoScreen(TwoCalls(rid, Received, Received), 1, false) == TwoCalls(rid, Screened, Received);
    StepReaches(TwoCalls(rid, Screened, Received), Screen(2, false));
    assert DoScreen(TwoCalls(rid, Screened, Received), 2, false) == TwoCalls(rid, Screened, Screened);
  }

  lemma RacerEvaluated(rid: RequestId, yes: Evaluation)
    requires yes.decision == Allow
    ensures Reachable(TwoCalls(rid, Evaluated(yes), Screened))
  {
    RacersScreened(rid);
    StepReaches(TwoCalls(rid, Screened, Screened), Evaluate(1, Some(yes)));
    assert DoEvaluate(TwoCalls(rid, Screened, Screened), 1, Some(yes)) == TwoCalls(rid, Evaluated(yes), Screened);
  }

  lemma RacerChecking(rid: RequestId, yes: Evaluation)
    requires yes.decision == Allow
    ensures Reachable(TwoCalls(rid, Checking(yes, EmptyTx, false), Screened))
  {
    RacerEvaluated(rid, yes);
    var s := TwoCalls(rid, Evaluated(yes), Screened);
    StepReaches(s, Begin(1, false));
    assert Move(s, 1, Checking(yes, EmptyTx, false)) == TwoCalls(rid, Checking(yes, EmptyTx, false), Screened);
  }

  lemma RacerReady(rid: RequestId, yes: Evaluation)
    requires yes.decision == Allow
    ensures Reachable(TwoCalls(rid, Storing(yes, EmptyTx), Screened))
  {
    RacerChecking(rid, yes);
    var s := TwoCalls(rid, Checking(yes, EmptyTx, false), Screened);
    StepReaches(s, FinishLimits(1));
    assert DoFinishLimits(s, 1) == TwoCalls(rid, Storing(yes, EmptyTx), Screened);
  }

  function ApprovedTx(rid: RequestId, yes: Evaluation): Tx {
    EmptyTx.(record := Some(Validation(1, rid, yes)))
  }

  lemma RacerStored(rid: RequestId, yes: Evaluation)
    requires yes.decision == Allow
    ensures Reachable(TwoCalls(rid, Auditing(yes, ApprovedTx(rid, yes)), Screened))
  {
    RacerReady(rid, yes);
    var s := TwoCalls(rid, Storing(yes, EmptyTx), Screened);
    StepReaches(s, StoreRecord(1, false));
    assert DoStoreRecord(s, 1, false) == TwoCalls(rid, Auditing(yes, ApprovedTx(rid, yes)), Screened);
  }

  lemma RacerAudited(rid: RequestId, yes: Evaluation)
    requires yes.decision == Allow
    ensures Reachable(TwoCalls(rid, Committing(yes, ApprovedTx(rid, yes).(audit := Some(yes))), Screened))
  {
    RacerStored(rid, yes);
    var s := TwoCalls(rid, Auditing(yes, ApprovedTx(rid, yes)), Screened);
    StepReaches(s, StoreAudit(1, false));
    assert DoStoreAudit(s, 1, false) == TwoCalls(rid, Committing(yes, ApprovedTx(rid, yes).(audit := Some(yes))), Screened);
  }

  // The first racer is told ALLOW, the second has not looked at the rules yet.
  lemma RacerCommits(rid: RequestId, yes: Evaluation) returns (s: State)
    requires yes.decision == Allow
    ensures OneAllowed(s, rid, yes, Screened)
  {
    RacerAudited(rid, yes);
    var s0 := TwoCalls(rid, Committing(yes, ApprovedTx(rid, yes).(audit := Some(yes))), Screened);
    StepReaches(s0, CommitTx(1, false));
    s := DoCommit(s0, 1, false);
  }

  // One racer has been told ALLOW, the other has reached phase q.
  ghost predicate OneAllowed(s: State, rid: RequestId, yes: Evaluation, q: Phase) {
    Reachable(s) && s.calls == map[1 := Call(rid, Replied(Fresh(Response(1, rid, yes)))), 2 := Call(rid, q)]
    && s.records == map[rid := Validation(1, rid, yes)] && s.audits.Keys == {1}
  }

  lemma RacerDenied(s: State, rid: RequestId, yes: Evaluation, no: Evaluation)
    requires OneAllowed(s, rid, yes, Screened) && no.decision == Deny
    ensures OneAllowed(DoEvaluate(s, 2, Some(no)), rid, yes, RecordingOutside(no))
  {
    StepReaches(s, Evaluate(2, Some(no)));
  }

  // The second insert is a duplicate, which is swallowed.
  lemma RacerInserts(s: State, rid: RequestId, yes: Evaluation, no: Evaluation)
    requires OneAllowed(s, rid, yes, RecordingOutside(no))
    ensures OneAllowed(DoRecordOutside(s, 2, false), rid, yes, AuditingOutside(no))
  {
    StepReaches(s, RecordOutside(2, false));
  }

  // Two racing callers of one request id can be told different things, and no fault is needed for it: the
  // rules say ALLOW to one, DENY to the other, and the second insert is a duplicate.
  lemma RacersMayDisagree(rid: RequestId, yes: Evaluation, no: Evaluation) returns (s: State)
    requires yes.decision == Allow && no.decision == Deny
    ensures Reachable(s) && s.calls.Keys == {1, 2} && s.calls[1].requestId == s.calls[2].requestId == rid
    ensures s.calls[1].phase == Replied(Fresh(Response(1, rid, yes)))
    ensures s.calls[2].phase == Replied(Fresh(Response(2, rid, no)))
    ensures s.records == map[rid := Validation(1, rid, yes)] && Unrecorded(s, 2)
  {
    var s1 := RacerCommits(rid, yes);
    RacerDenied(s1, rid, yes, no);
    var s2 := DoEvaluate(s1, 2, Some(no));
    RacerInserts(s2, rid, yes, no);
    var s3 := DoRecordOutside(s2, 2, false);
    StepReaches(s3, AuditOutside(2, false));
    s := DoAuditOutside(s3, 2, false);
  }

  /* ---- the spending bound ---- */

  predicate AsksWithin(a: Action, k: CounterKey, limit: real) {
    a.Upsert? && a.key == k ==> a.max <= limit
  }

  ghost function CapWithin(k: CounterKey, limit: real): Fit {
    (key, cap, expiresAt) => key == k ==> cap <= limit
  }

  lemma RunWithin(actions: seq<Action>, s: State, k: CounterKey, limit: real)
    requires Runs(Initial, actions, s)
    requires forall i :: 0 <= i < |actions| ==> AsksWithin(actions[i], k, limit)
    ensures RowsFit(s, CapWithin(k, limit))
  {
    forall i | 0 <= i < |actions| ensures AsksFor(actions[i], CapWithin(k, limit)) { assert AsksWithin(actions[i], k, limit); }
    RunFits(Initial, actions, s, CapWithin(k, limit));
  }

  // If no check of counter k ever asked for more than `limit`, then in every state of every
  // interleaving the committed value and every pending value stay within it; and so does the
  // total of approved amounts, as long as cleanup has archived nothing of k.
  lemma NeverOverspent(actions: seq<Action>, s: State, k: CounterKey, limit: real)
    requires Runs(Initial, actions, s) && 0.0 <= limit
    requires forall i :: 0 <= i < |actions| ==> AsksWithin(actions[i], k, limit)
    ensures 0.0 <= Usage(s.counters, k) <= limit
    ensures forall c :: c in s.calls && TxOf(s.calls[c].phase).Some? ==> 0.0 <= Usage(TxOf(s.calls[c].phase).value.counters, k) <= limit
    ensures Archived(s, k) == 0.0 ==> Approved(s.ledger, k) <= limit
  {
    RunKeeps(Initial, actions, s);
    RunWithin(actions, s, k, limit);
    forall c | c in s.calls && TxOf(s.calls[c].phase).Some?
      ensures 0.0 <= Usage(TxOf(s.calls[c].phase).value.counters, k) <= limit
    {
      assert CallOk(s.counters, s.records, s.ledger, c, s.calls[c]);
      assert RowsOf(Written(s.calls[c].phase), CapWithin(k, limit));
    }
    assert Usage(s.counters, k) + Archived(s, k) == Approved(s.ledger, k);
  }
}
