/** What every row of a counter, committed or pending, has in common with the checks that wrote it. */
module ValidationRows {
  import opened Prelude
  import opened ValidationProtocol

  // A property of the maximum and the expiry that a counter's last increment brought along.
  type Fit = (CounterKey, real, Option<int>) -> bool

  ghost predicate RowsOf(counters: map<CounterKey, Counter>, fit: Fit) {
    forall k :: k in counters ==> fit(k, counters[k].cap, counters[k].expiresAt)
  }

  // The rows that an open transaction has written.
  function Written(p: Phase): map<CounterKey, Counter> {
    match TxOf(p) case Some(tx) => tx.counters case None => map[]
  }

  ghost predicate RowsFit(s: State, fit: Fit) {
    RowsOf(s.counters, fit) && forall c :: c in s.calls ==> RowsOf(Written(s.calls[c].phase), fit)
  }

  ghost predicate AsksFor(a: Action, fit: Fit) {
    a.Upsert? ==> fit(a.key, a.max, a.expiresAt)
  }

  // A phase that has written what the phase before it had, or nothing.
  predicate WritesNoMore(p: Phase, q: Phase) {
    Written(q) == Written(p) || Written(q) == map[]
  }

  lemma MoveFits(s: State, c: CallId, p: Phase, fit: Fit)
    requires RowsFit(s, fit) && c in s.calls && RowsOf(Written(p), fit)
    ensures RowsFit(Move(s, c, p), fit)
  {
  }

  // A step that goes on with what the call had written, or with nothing.
  lemma QuietFits(s: State, c: CallId, p: Phase, fit: Fit)
    requires RowsFit(s, fit) && c in s.calls && WritesNoMore(s.calls[c].phase, p)
    ensures RowsFit(Move(s, c, p), fit)
  {
    MoveFits(s, c, p, fit);
  }

  // The steps of a call before its transaction, and on its limits.
  predicate Early(a: Action) {
    a.Screen? || a.Evaluate? || a.Begin? || a.Exceed? || a.CheckFails? || a.FinishLimits?
  }

  // Where such a step takes its call.
  lemma EarlyMoves(s: State, a: Action) returns (p: Phase)
    requires Enabled(s, a) && Early(a)
    ensures Apply(s, a) == Move(s, a.c, p) && WritesNoMore(s.calls[a.c].phase, p)
  {
    var q := s.calls[a.c].phase;
    match a
    case Screen(c, fault) => p := ScreenPhase(s.records, s.calls[c].requestId, fault);
    case Evaluate(_, result) => p := EvaluatePhase(result);
    case Begin(_, fault) => p := if fault then Replied(Failed) else Checking(q.eval, EmptyTx, false);
    case Exceed(_) => p := q.(exceeded := true);
    case CheckFails(_) => p := Unwinding(q.tx, Failed);
    case FinishLimits(_) => p := FinishPhase(q.eval, q.tx, q.exceeded);
  }

  // The other steps that touch nothing but the call's own transaction, upsert and abort aside.
  predicate Late(a: Action) {
    a.StoreRecord? || a.LookUp? || a.StoreAudit? || a.Rollback?
  }

  lemma LateMoves(s: State, a: Action) returns (p: Phase)
    requires Enabled(s, a) && Late(a)
    ensures Apply(s, a) == Move(s, a.c, p) && WritesNoMore(s.calls[a.c].phase, p)
  {
    var q := s.calls[a.c].phase;
    match a
    case StoreRecord(c, fault) => p := StorePhase(s.records, c, s.calls[c].requestId, q.eval, q.tx, fault);
    case LookUp(c, fault) => p := LookUpPhase(s.records, s.calls[c].requestId, q.tx, fault);
    case StoreAudit(c, fault) => p := AuditPhase(s.audits, c, q.eval, q.tx, fault);
    case Rollback(_) => p := Replied(q.pending);
  }

  lemma RecordOutsideFits(s: State, c: CallId, fault: bool, fit: Fit)
    requires RowsFit(s, fit) && c in s.calls && s.calls[c].phase.RecordingOutside?
    ensures RowsFit(DoRecordOutside(s, c, fault), fit)
  {
    QuietFits(s, c, AuditingOutside(s.calls[c].phase.eval), fit);
  }

  lemma AuditOutsideFits(s: State, c: CallId, fault: bool, fit: Fit)
    requires RowsFit(s, fit) && c in s.calls && s.calls[c].phase.AuditingOutside?
    ensures RowsFit(DoAuditOutside(s, c, fault), fit)
  {
    QuietFits(s, c, Replied(Fresh(Response(c, s.calls[c].requestId, s.calls[c].phase.eval))), fit);
  }

  lemma UpsertFits(s: State, c: CallId, key: CounterKey, amount: real, max: real, x: Option<int>, fit: Fit)
    requires RowsFit(s, fit) && c in s.calls && s.calls[c].phase.Checking? && fit(key, max, x)
    ensures RowsFit(DoUpsert(s, c, key, amount, max, x), fit)
  {
    var p := s.calls[c].phase;
    assert Written(p) == p.tx.counters;
    MoveFits(s, c, UpsertPhase(s.counters, p, key, amount, max, x), fit);
  }

  lemma CommitFits(s: State, c: CallId, fault: bool, fit: Fit)
    requires RowsFit(s, fit) && c in s.calls && s.calls[c].phase.Committing?
    ensures RowsFit(DoCommit(s, c, fault), fit)
  {
    var p := s.calls[c].phase;
    assert Written(p) == p.tx.counters;
    MoveFits(s, c, DoCommit(s, c, fault).calls[c].phase, fit);
  }

  lemma StepFits(s: State, a: Action, fit: Fit)
    requires RowsFit(s, fit) && Enabled(s, a) && AsksFor(a, fit)
    ensures RowsFit(Apply(s, a), fit)
  {
    if Early(a) {
      var p := EarlyMoves(s, a);
      QuietFits(s, a.c, p, fit);
    } else if Late(a) {
      var p := LateMoves(s, a);
      QuietFits(s, a.c, p, fit);
    } else if a.Abort? {
      QuietFits(s, a.c, Replied(Failed), fit);
    } else if a.RecordOutside? {
      RecordOutsideFits(s, a.c, a.fault, fit);
    } else if a.AuditOutside? {
      AuditOutsideFits(s, a.c, a.fault, fit);
    } else if a.Upsert? {
      UpsertFits(s, a.c, a.key, a.amount, a.max, a.expiresAt, fit);
    } else if a.CommitTx? {
      CommitFits(s, a.c, a.fault, fit);
    }
  }

  // If every increment asked for has a property, every row that is ever written has it.
  lemma {:induction false} RunFits(s: State, actions: seq<Action>, s': State, fit: Fit)
    requires RowsFit(s, fit) && Runs(s, actions, s')
    requires forall i :: 0 <= i < |actions| ==> AsksFor(actions[i], fit)
    ensures RowsFit(s', fit)
    decreases |actions|
  {
    if actions != [] {
      assert AsksFor(actions[0], fit);
      StepFits(s, actions[0], fit);
      RunFits(Apply(s, actions[0]), actions[1..], s', fit);
    }
  }
}
