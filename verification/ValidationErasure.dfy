/**
 * A call that does not end in an approval leaves no trace in the counters: its upserts can be
 * erased from any run, and the erased run reaches the very same state.
 */
module ValidationErasure {
  import opened Prelude
  import opened ValidationProtocol
  import opened ValidationInvariants
  import opened ValidationTheorems

  function BlankTx(tx: Tx): Tx {
    tx.(counters := map[], locks := {}, increments := [])
  }

  function Blank(p: Phase): Phase {
    match p
    case Checking(e, tx, x) => Checking(e, BlankTx(tx), x)
    case Storing(e, tx) => Storing(e, BlankTx(tx))
    case Conflicting(e, tx) => Conflicting(e, BlankTx(tx))
    case Auditing(e, tx) => Auditing(e, BlankTx(tx))
    case Committing(e, tx) => Committing(e, BlankTx(tx))
    case Unwinding(tx, o) => Unwinding(BlankTx(tx), o)
    case _ => p
  }

  // The state as if call c had upserted nothing so far.
  function Erase(s: State, c: CallId): State {
    if c in s.calls then Move(s, c, Blank(s.calls[c].phase)) else s
  }

  // What is left of a step: the call only notices a failed or a refused upsert.
  function Erased(s: State, c: CallId, a: Action): Option<Action>
    requires Enabled(s, a)
  {
    if a.Upsert? && a.c == c then Noticed(c, UpsertPhase(s.counters, s.calls[c].phase, a.key, a.amount, a.max, a.expiresAt)) else Some(a)
  }

  function Noticed(c: CallId, q: Phase): Option<Action> {
    if q.Unwinding? then Some(CheckFails(c)) else if q.Checking? && q.exceeded then Some(Exceed(c)) else None
  }

  lemma MoveTwice(s: State, c: CallId, p: Phase, q: Phase)
    requires c in s.calls
    ensures Move(Move(s, c, p), c, q) == Move(s, c, q)
  {
    assert Move(Move(s, c, p), c, q).calls == Move(s, c, q).calls;
  }

  lemma MovesSwap(s: State, c: CallId, p: Phase, d: CallId, q: Phase)
    requires c in s.calls && d in s.calls && c != d
    ensures Move(Move(s, c, p), d, q) == Move(Move(s, d, q), c, p)
  {
    assert Move(Move(s, c, p), d, q).calls == Move(Move(s, d, q), c, p).calls;
  }

  // Erasing commutes with moving the same call, and with moving any other.
  lemma EraseMoveSame(s: State, c: CallId, p: Phase)
    requires c in s.calls
    ensures Move(Erase(s, c), c, Blank(p)) == Erase(Move(s, c, p), c)
  {
    MoveTwice(s, c, Blank(s.calls[c].phase), Blank(p));
    MoveTwice(s, c, p, Blank(p));
  }

  lemma EraseMoveOther(s: State, c: CallId, d: CallId, p: Phase)
    requires d in s.calls && d != c
    ensures Move(Erase(s, c), d, p) == Erase(Move(s, d, p), c)
  {
    if c in s.calls { MovesSwap(s, c, Blank(s.calls[c].phase), d, p); }
  }

  lemma BlankHolds(p: Phase, rid: RequestId)
    ensures Locks(Blank(p)) <= Locks(p) && (Pending(Blank(p), rid) ==> Pending(p, rid))
  {
  }

  lemma ErasingFreesOnly(s: State, c: CallId, d: CallId, k: CounterKey, rid: RequestId)
    ensures LockedAgainst(Erase(s, c), d, k) ==> LockedAgainst(s, d, k)
    ensures InsertBlocked(Erase(s, c), d, rid) ==> InsertBlocked(s, d, rid)
  {
    if c in s.calls {
      var p := s.calls[c].phase;
      BlankHolds(p, rid);
      BlankingFreesOnly(s, c, Blank(p), d, k, rid);
    }
  }

  lemma BlankingFreesOnly(s: State, c: CallId, p: Phase, d: CallId, k: CounterKey, rid: RequestId)
    requires c in s.calls && Locks(p) <= Locks(s.calls[c].phase) && (Pending(p, rid) ==> Pending(s.calls[c].phase, rid))
    ensures LockedAgainst(Move(s, c, p), d, k) ==> LockedAgainst(s, d, k)
    ensures InsertBlocked(Move(s, c, p), d, rid) ==> InsertBlocked(s, d, rid)
  {
    var t := Move(s, c, p);
    if e :| e in t.calls && e != d && k in Locks(t.calls[e].phase) { assert k in Locks(s.calls[e].phase); }
    if e :| e in t.calls && e != d && Pending(t.calls[e].phase, rid) { assert Pending(s.calls[e].phase, rid); }
  }

  predicate Commits(a: Action, c: CallId) {
    a == CommitTx(c, false)
  }

  lemma EraseUpsert(s: State, c: CallId, q: Phase)
    requires c in s.calls && s.calls[c].phase.Checking?
    requires q == Unwinding(s.calls[c].phase.tx, Failed) || (q.Checking? && q.eval == s.calls[c].phase.eval
                                                             && (s.calls[c].phase.exceeded ==> q.exceeded))
    requires q.Checking? ==> q.tx.(counters := map[], locks := {}, increments := []) == BlankTx(s.calls[c].phase.tx)
    ensures q.Unwinding? ==> Apply(Erase(s, c), CheckFails(c)) == Erase(Move(s, c, q), c)
    ensures q.Checking? && q.exceeded ==> Apply(Erase(s, c), Exceed(c)) == Erase(Move(s, c, q), c)
    ensures q.Checking? && !q.exceeded ==> Erase(s, c) == Erase(Move(s, c, q), c)
  {
    var p := s.calls[c].phase;
    EraseMoveSame(s, c, q);
    if q.Checking? && !q.exceeded {
      assert Blank(q) == Blank(p);
      MoveTwice(s, c, Blank(p), Blank(p));
    }
  }

  // The call's other steps, with the blank transaction in place of the full one.
  lemma EraseOwnChecking(s: State, c: CallId)
    requires c in s.calls && s.calls[c].phase.Checking?
    ensures Apply(Erase(s, c), Exceed(c)) == Erase(Apply(s, Exceed(c)), c)
    ensures Apply(Erase(s, c), CheckFails(c)) == Erase(Apply(s, CheckFails(c)), c)
  {
    EraseMoveSame(s, c, s.calls[c].phase.(exceeded := true));
    EraseMoveSame(s, c, Unwinding(s.calls[c].phase.tx, Failed));
  }

  lemma EraseOwnFinish(s: State, c: CallId)
    requires c in s.calls && s.calls[c].phase.Checking?
    ensures DoFinishLimits(Erase(s, c), c) == Erase(DoFinishLimits(s, c), c)
  {
    var p := s.calls[c].phase;
    EraseMoveSame(s, c, FinishPhase(p.eval, p.tx, p.exceeded));
    assert Blank(FinishPhase(p.eval, p.tx, p.exceeded)) == FinishPhase(p.eval, BlankTx(p.tx), p.exceeded);
  }

  lemma EraseOwnStore(s: State, c: CallId, fault: bool)
    requires c in s.calls && s.calls[c].phase.Storing?
    ensures DoStoreRecord(Erase(s, c), c, fault) == Erase(DoStoreRecord(s, c, fault), c)
  {
    var p, rid := s.calls[c].phase, s.calls[c].requestId;
    EraseMoveSame(s, c, StorePhase(s.records, c, rid, p.eval, p.tx, fault));
    assert Blank(StorePhase(s.records, c, rid, p.eval, p.tx, fault)) == StorePhase(s.records, c, rid, p.eval, BlankTx(p.tx), fault);
  }

  lemma EraseOwnLookUp(s: State, c: CallId, fault: bool)
    requires c in s.calls && s.calls[c].phase.Conflicting?
    ensures DoLookUp(Erase(s, c), c, fault) == Erase(DoLookUp(s, c, fault), c)
  {
    EraseMoveSame(s, c, LookUpPhase(s.records, s.calls[c].requestId, s.calls[c].phase.tx, fault));
  }

  lemma EraseOwnAudit(s: State, c: CallId, fault: bool)
    requires c in s.calls && s.calls[c].phase.Auditing?
    ensures DoStoreAudit(Erase(s, c), c, fault) == Erase(DoStoreAudit(s, c, fault), c)
  {
    var p := s.calls[c].phase;
    EraseMoveSame(s, c, AuditPhase(s.audits, c, p.eval, p.tx, fault));
    assert Blank(AuditPhase(s.audits, c, p.eval, p.tx, fault)) == AuditPhase(s.audits, c, p.eval, BlankTx(p.tx), fault);
  }

  lemma EraseOwnScreen(s: State, c: CallId, fault: bool)
    requires c in s.calls
    ensures DoScreen(Erase(s, c), c, fault) == Erase(DoScreen(s, c, fault), c)
  {
    EraseMoveSame(s, c, ScreenPhase(s.records, s.calls[c].requestId, fault));
  }

  lemma EraseOwnEvaluate(s: State, c: CallId, result: Option<Evaluation>)
    requires c in s.calls
    ensures DoEvaluate(Erase(s, c), c, result) == Erase(DoEvaluate(s, c, result), c)
  {
    EraseMoveSame(s, c, EvaluatePhase(result));
  }

  lemma EraseOwnRecord(s: State, c: CallId, fault: bool)
    requires c in s.calls && s.calls[c].phase.RecordingOutside?
    ensures DoRecordOutside(Erase(s, c), c, fault) == Erase(DoRecordOutside(s, c, fault), c)
  {
    EraseMoveSame(s, c, AuditingOutside(s.calls[c].phase.eval));
  }

  lemma EraseOwnAuditOutside(s: State, c: CallId, fault: bool)
    requires c in s.calls && s.calls[c].phase.AuditingOutside?
    ensures DoAuditOutside(Erase(s, c), c, fault) == Erase(DoAuditOutside(s, c, fault), c)
  {
    EraseMoveSame(s, c, Replied(Fresh(Response(c, s.calls[c].requestId, s.calls[c].phase.eval))));
  }

  // The steps before the transaction, and on its limits.
  predicate BeforeChecking(a: Action) {
    a.Screen? || a.Evaluate? || a.Begin?
  }

  predicate OnLimits(a: Action) {
    a.Exceed? || a.CheckFails? || a.FinishLimits?
  }

  predicate BeforeStoring(a: Action) {
    BeforeChecking(a) || OnLimits(a)
  }

  lemma EraseOwnBegin(s: State, c: CallId, a: Action)
    requires Enabled(s, a) && BeforeChecking(a) && a.c == c
    ensures Enabled(Erase(s, c), a) && Apply(Erase(s, c), a) == Erase(Apply(s, a), c)
  {
    match a
    case Screen(_, fault) => EraseOwnScreen(s, c, fault);
    case Evaluate(_, result) => EraseOwnEvaluate(s, c, result);
    case Begin(_, fault) =>
      EraseMoveSame(s, c, if fault then Replied(Failed) else Checking(s.calls[c].phase.eval, EmptyTx, false));
  }

  lemma EraseOwnLimits(s: State, c: CallId, a: Action)
    requires Enabled(s, a) && OnLimits(a) && a.c == c
    ensures Enabled(Erase(s, c), a) && Apply(Erase(s, c), a) == Erase(Apply(s, a), c)
  {
    match a
    case Exceed(_) => EraseOwnChecking(s, c);
    case CheckFails(_) => EraseOwnChecking(s, c);
    case FinishLimits(_) => EraseOwnFinish(s, c);
  }

  predicate InTransaction(a: Action) {
    a.StoreRecord? || a.LookUp? || a.StoreAudit?
  }

  lemma EraseOwnStoring(s: State, c: CallId, a: Action)
    requires Enabled(s, a) && InTransaction(a) && a.c == c
    ensures Enabled(Erase(s, c), a) && Apply(Erase(s, c), a) == Erase(Apply(s, a), c)
  {
    match a
    case StoreRecord(_, fault) =>
      EraseOwnStore(s, c, fault);
      ErasingFreesOnly(s, c, c, CounterKey(0, "", ""), s.calls[c].requestId);
    case LookUp(_, fault) => EraseOwnLookUp(s, c, fault);
    case StoreAudit(_, fault) => EraseOwnAudit(s, c, fault);
  }

  lemma EraseOwnOutside(s: State, c: CallId, a: Action)
    requires Enabled(s, a) && (a.RecordOutside? || a.AuditOutside?) && a.c == c
    ensures Enabled(Erase(s, c), a) && Apply(Erase(s, c), a) == Erase(Apply(s, a), c)
  {
    match a
    case RecordOutside(_, fault) =>
      EraseOwnRecord(s, c, fault);
      ErasingFreesOnly(s, c, c, CounterKey(0, "", ""), s.calls[c].requestId);
    case AuditOutside(_, fault) => EraseOwnAuditOutside(s, c, fault);
  }

  // The steps that end a call.
  predicate Ending(a: Action) {
    a.Rollback? || a.Abort? || (a.CommitTx? && a.fault)
  }

  lemma EraseOwnEnd(s: State, c: CallId, a: Action)
    requires Enabled(s, a) && Ending(a) && a.c == c
    ensures Enabled(Erase(s, c), a) && Apply(Erase(s, c), a) == Erase(Apply(s, a), c)
  {
    match a
    case CommitTx(_, _) => EraseMoveSame(s, c, Replied(Failed));
    case Rollback(_) => EraseMoveSame(s, c, Replied(s.calls[c].phase.pending));
    case Abort(_) => EraseMoveSame(s, c, Replied(Failed));
  }

  lemma EraseOwn(s: State, c: CallId, a: Action)
    requires Enabled(s, a) && !a.Cleanup? && !a.Upsert? && !a.Arrive? && a.c == c && !Commits(a, c)
    ensures Enabled(Erase(s, c), a) && Apply(Erase(s, c), a) == Erase(Apply(s, a), c)
  {
    if BeforeChecking(a) {
      EraseOwnBegin(s, c, a);
    } else if OnLimits(a) {
      EraseOwnLimits(s, c, a);
    } else if InTransaction(a) {
      EraseOwnStoring(s, c, a);
    } else if Ending(a) {
      EraseOwnEnd(s, c, a);
    } else {
      EraseOwnOutside(s, c, a);
    }
  }

  lemma EraseOwnArrival(s: State, c: CallId, rid: RequestId)
    requires c !in s.calls
    ensures Enabled(Erase(s, c), Arrive(c, rid)) && Apply(Erase(s, c), Arrive(c, rid)) == Erase(Apply(s, Arrive(c, rid)), c)
  {
  }

  lemma EraseOtherEnabled(s: State, c: CallId, a: Action)
    requires Enabled(s, a) && !a.Cleanup? && a.c != c
    ensures Enabled(Erase(s, c), a)
  {
    if a.Upsert? { ErasingFreesOnly(s, c, a.c, a.key, 0); }
    if a.StoreRecord? || a.RecordOutside? { ErasingFreesOnly(s, c, a.c, CounterKey(0, "", ""), s.calls[a.c].requestId); }
  }

  lemma EraseOtherUpsert(s: State, c: CallId, d: CallId, k: CounterKey, amount: real, max: real, x: Option<int>)
    requires d in s.calls && d != c && s.calls[d].phase.Checking?
    ensures DoUpsert(Erase(s, c), d, k, amount, max, x) == Erase(DoUpsert(s, d, k, amount, max, x), c)
  {
    EraseMoveOther(s, c, d, UpsertPhase(s.counters, s.calls[d].phase, k, amount, max, x));
  }

  lemma EraseOtherCommit(s: State, c: CallId, d: CallId, fault: bool)
    requires d in s.calls && d != c && s.calls[d].phase.Committing?
    ensures DoCommit(Erase(s, c), d, fault) == Erase(DoCommit(s, d, fault), c)
  {
    EraseMoveOther(s, c, d, DoCommit(s, d, fault).calls[d].phase);
  }

  lemma EraseOtherRecord(s: State, c: CallId, d: CallId, fault: bool)
    requires d in s.calls && d != c && s.calls[d].phase.RecordingOutside?
    ensures DoRecordOutside(Erase(s, c), d, fault) == Erase(DoRecordOutside(s, d, fault), c)
  {
    EraseMoveOther(s, c, d, AuditingOutside(s.calls[d].phase.eval));
  }

  lemma EraseOtherAudit(s: State, c: CallId, d: CallId, fault: bool)
    requires d in s.calls && d != c && s.calls[d].phase.AuditingOutside?
    ensures DoAuditOutside(Erase(s, c), d, fault) == Erase(DoAuditOutside(s, d, fault), c)
  {
    EraseMoveOther(s, c, d, Replied(Fresh(Response(d, s.calls[d].requestId, s.calls[d].phase.eval))));
  }

  lemma EraseOtherArrives(s: State, c: CallId, d: CallId, rid: RequestId)
    requires d !in s.calls && d != c
    ensures Apply(Erase(s, c), Arrive(d, rid)) == Erase(Apply(s, Arrive(d, rid)), c)
  {
    assert Apply(Erase(s, c), Arrive(d, rid)).calls == Erase(Apply(s, Arrive(d, rid)), c).calls;
  }

  // A step of another call: its next phase is the same in both states.
  lemma EraseOtherBegin(s: State, c: CallId, a: Action)
    requires Enabled(s, a) && BeforeChecking(a) && a.c != c
    ensures Apply(Erase(s, c), a) == Erase(Apply(s, a), c)
  {
    match a
    case Screen(d, fault) => EraseMoveOther(s, c, d, ScreenPhase(s.records, s.calls[d].requestId, fault));
    case Evaluate(d, result) => EraseMoveOther(s, c, d, EvaluatePhase(result));
    case Begin(d, fault) => EraseMoveOther(s, c, d, if fault then Replied(Failed) else Checking(s.calls[d].phase.eval, EmptyTx, false));
  }

  lemma EraseOtherLimits(s: State, c: CallId, a: Action)
    requires Enabled(s, a) && OnLimits(a) && a.c != c
    ensures Apply(Erase(s, c), a) == Erase(Apply(s, a), c)
  {
    var p := s.calls[a.c].phase;
    match a
    case Exceed(d) => EraseMoveOther(s, c, d, p.(exceeded := true));
    case CheckFails(d) => EraseMoveOther(s, c, d, Unwinding(p.tx, Failed));
    case FinishLimits(d) => EraseMoveOther(s, c, d, FinishPhase(p.eval, p.tx, p.exceeded));
  }

  lemma EraseOtherStoring(s: State, c: CallId, a: Action)
    requires Enabled(s, a) && Enabled(Erase(s, c), a) && InTransaction(a) && a.c != c
    ensures Apply(Erase(s, c), a) == Erase(Apply(s, a), c)
  {
    var p, rid := s.calls[a.c].phase, s.calls[a.c].requestId;
    match a
    case StoreRecord(d, fault) => EraseMoveOther(s, c, d, StorePhase(s.records, d, rid, p.eval, p.tx, fault));
    case LookUp(d, fault) => EraseMoveOther(s, c, d, LookUpPhase(s.records, rid, p.tx, fault));
    case StoreAudit(d, fault) => EraseMoveOther(s, c, d, AuditPhase(s.audits, d, p.eval, p.tx, fault));
  }

  lemma EraseOtherEnd(s: State, c: CallId, a: Action)
    requires Enabled(s, a) && (a.Rollback? || a.Abort?) && a.c != c
    ensures Apply(Erase(s, c), a) == Erase(Apply(s, a), c)
  {
    match a
    case Rollback(d) => EraseMoveOther(s, c, d, Replied(s.calls[d].phase.pending));
    case Abort(d) => EraseMoveOther(s, c, d, Replied(Failed));
  }

  lemma EraseOther(s: State, c: CallId, a: Action)
    requires Enabled(s, a) && Enabled(Erase(s, c), a) && !a.Cleanup? && a.c != c
    ensures Apply(Erase(s, c), a) == Erase(Apply(s, a), c)
  {
    if BeforeChecking(a) {
      EraseOtherBegin(s, c, a);
    } else if OnLimits(a) {
      EraseOtherLimits(s, c, a);
    } else if InTransaction(a) {
      EraseOtherStoring(s, c, a);
    } else if a.Rollback? || a.Abort? {
      EraseOtherEnd(s, c, a);
    } else {
      EraseOtherTables(s, c, a);
    }
  }

  lemma EraseOtherTables(s: State, c: CallId, a: Action)
    requires a.Arrive? || a.Upsert? || a.CommitTx? || a.RecordOutside? || a.AuditOutside?
    requires Enabled(s, a) && Enabled(Erase(s, c), a) && a.c != c
    ensures Apply(Erase(s, c), a) == Erase(Apply(s, a), c)
  {
    match a
    case Arrive(d, rid) => EraseOtherArrives(s, c, d, rid);
    case Upsert(d, k, amount, max, x) => EraseOtherUpsert(s, c, d, k, amount, max, x);
    case CommitTx(d, fault) => EraseOtherCommit(s, c, d, fault);
    case RecordOutside(d, fault) => EraseOtherRecord(s, c, d, fault);
    case AuditOutside(d, fault) => EraseOtherAudit(s, c, d, fault);
  }

  lemma EraseCleanup(s: State, c: CallId, now: int, victims: set<CounterKey>)
    requires MayClean(s, now, victims)
    ensures MayClean(Erase(s, c), now, victims)
  {
    var t := Erase(s, c);
    forall d, k | d in t.calls && k in victims ensures k !in Locks(t.calls[d].phase) {
      assert k !in Locks(s.calls[d].phase);
    }
  }

  lemma EraseCleaned(s: State, c: CallId, victims: set<CounterKey>)
    ensures DoCleanup(Erase(s, c), victims) == Erase(DoCleanup(s, victims), c)
  {
    forall k ensures Archived(Erase(s, c), k) == Archived(s, k) {}
    assert DoCleanup(Erase(s, c), victims).archived == DoCleanup(s, victims).archived;
  }

  lemma EraseOwnUpsert(s: State, c: CallId, a: Action)
    requires Enabled(s, a) && a.Upsert? && a.c == c
    ensures match Erased(s, c, a)
            case None => Erase(Apply(s, a), c) == Erase(s, c)
            case Some(b) => Enabled(Erase(s, c), b) && Apply(Erase(s, c), b) == Erase(Apply(s, a), c)
  {
    EraseUpsert(s, c, UpsertPhase(s.counters, s.calls[c].phase, a.key, a.amount, a.max, a.expiresAt));
  }

  lemma EraseStep(s: State, c: CallId, a: Action)
    requires Enabled(s, a) && !Commits(a, c)
    ensures match Erased(s, c, a)
            case None => Erase(Apply(s, a), c) == Erase(s, c)
            case Some(b) => Enabled(Erase(s, c), b) && Apply(Erase(s, c), b) == Erase(Apply(s, a), c)
  {
    if a.Cleanup? {
      EraseCleanup(s, c, a.now, a.victims);
      EraseCleaned(s, c, a.victims);
    } else if a.c != c {
      EraseOtherEnabled(s, c, a);
      EraseOther(s, c, a);
    } else if a.Upsert? {
      EraseOwnUpsert(s, c, a);
    } else if a.Arrive? {
      EraseOwnArrival(s, c, a.requestId);
    } else {
      EraseOwn(s, c, a);
    }
  }

  lemma {:induction false} EraseRun(s: State, actions: seq<Action>, s': State, c: CallId) returns (others: seq<Action>)
    requires Runs(s, actions, s')
    requires forall i :: 0 <= i < |actions| ==> !Commits(actions[i], c)
    ensures Runs(Erase(s, c), others, Erase(s', c))
    ensures forall i :: 0 <= i < |others| ==> !(others[i].Upsert? && others[i].c == c)
    decreases |actions|
  {
    others := [];
    if actions != [] {
      assert !Commits(actions[0], c);
      EraseStep(s, c, actions[0]);
      var rest := EraseRun(Apply(s, actions[0]), actions[1..], s', c);
      match Erased(s, c, actions[0])
      case None => others := rest;
      case Some(b) => others := [b] + rest; assert others[1..] == rest;
    }
  }

  // A successful commit stays in the ledger for good.
  lemma {:induction false} CommitsShow(s: State, actions: seq<Action>, s': State, c: CallId)
    requires Runs(s, actions, s')
    ensures s.ledger <= s'.ledger
    ensures (exists i :: 0 <= i < |actions| && Commits(actions[i], c)) ==> exists j :: 0 <= j < |s'.ledger| && s'.ledger[j].call == c
    decreases |actions|
  {
    if actions != [] {
      var s1 := Apply(s, actions[0]);
      CommitsShow(s1, actions[1..], s', c);
      LedgerGrows(s, actions[0]);
      if Commits(actions[0], c) {
        assert s1.ledger[|s.ledger|].call == c;
        assert s'.ledger[|s.ledger|].call == c;
      } else if i :| 0 <= i < |actions| && Commits(actions[i], c) {
        assert actions[1..][i - 1] == actions[i];
      }
    }
  }

  lemma EarlyLedger(s: State, a: Action)
    requires Enabled(s, a) && (BeforeStoring(a) || a.Upsert? || a.Arrive?)
    ensures Apply(s, a).ledger == s.ledger
  {
  }

  lemma LateLedger(s: State, a: Action)
    requires Enabled(s, a) && !BeforeStoring(a) && !a.Upsert? && !a.Arrive? && !a.CommitTx?
    ensures Apply(s, a).ledger == s.ledger
  {
  }

  lemma LedgerGrows(s: State, a: Action)
    requires Enabled(s, a)
    ensures s.ledger <= Apply(s, a).ledger
  {
    if BeforeStoring(a) || a.Upsert? || a.Arrive? { EarlyLedger(s, a); }
    else if !a.CommitTx? { LateLedger(s, a); }
  }

  // The theorem: a DENY, REVIEW, duplicate, failed or unfinished call is as if it had upserted nothing.
  lemma NoTrace(actions: seq<Action>, s: State, c: CallId) returns (others: seq<Action>)
    requires Runs(Initial, actions, s) && !Approves(s, c)
    ensures forall i :: 0 <= i < |others| ==> !(others[i].Upsert? && others[i].c == c)
    ensures Runs(Initial, others, Erase(s, c))
    ensures Erase(s, c).counters == s.counters && Erase(s, c).ledger == s.ledger && Erase(s, c).records == s.records
    ensures c in s.calls && s.calls[c].phase.Replied? ==> Erase(s, c) == s
  {
    ApprovalIsCommit(s, c);
    CommitsShow(Initial, actions, s, c);
    others := EraseRun(Initial, actions, s, c);
  }
}
