/**
 * The validation transaction protocol as a step machine: any number of concurrent
 * `Validate` calls over one shared database. Every step is one database statement
 * or one local decision of one call; between any two steps any other call may move.
 */
module ValidationProtocol {
  import opened Prelude

  type CallId = nat
  type RequestId = nat

  datatype CounterKey = CounterKey(limitId: nat, scopeKey: string, periodKey: string)

  // `cap` is a history variable: the maxAmount of the latest successful increment.
  datatype Counter = Counter(usage: real, cap: real, expiresAt: Option<int>)

  datatype Decision = Allow | Deny | Review

  datatype Evaluation = Evaluation(decision: Decision, reason: string, matched: seq<nat>, evaluated: seq<nat>)

  // A row of transaction_validations. The validation id is fresh per call, so the call id stands for it.
  datatype Validation = Validation(id: CallId, requestId: RequestId, result: Evaluation)

  datatype Response = Response(validationId: CallId, requestId: RequestId, result: Evaluation)

  datatype Outcome = Fresh(response: Response) | Duplicate(response: Response) | Failed

  datatype Increment = Increment(key: CounterKey, amount: real)

  // What a transaction has written and locked but not committed.
  datatype Tx = Tx(counters: map<CounterKey, Counter>, locks: set<CounterKey>, increments: seq<Increment>,
                   record: Option<Validation>, audit: Option<Evaluation>)

  const EmptyTx := Tx(map[], {}, [], None, None)

  datatype Phase =
    | Received
    | Screened
    | Evaluated(eval: Evaluation)
    | Checking(eval: Evaluation, tx: Tx, exceeded: bool)
    | Storing(eval: Evaluation, tx: Tx)
    | Conflicting(eval: Evaluation, tx: Tx)
    | Auditing(eval: Evaluation, tx: Tx)
    | Committing(eval: Evaluation, tx: Tx)
    | Unwinding(tx: Tx, pending: Outcome)
    | RecordingOutside(eval: Evaluation)
    | AuditingOutside(eval: Evaluation)
    | Replied(outcome: Outcome)

  datatype Call = Call(requestId: RequestId, phase: Phase)

  // One entry per committed transaction, in commit order (a history variable).
  datatype Commit = Commit(call: CallId, requestId: RequestId, eval: Evaluation, increments: seq<Increment>)

  datatype State = State(
    counters: map<CounterKey, Counter>,
    records: map<RequestId, Validation>,
    audits: map<CallId, Evaluation>,
    calls: map<CallId, Call>,
    archived: map<CounterKey, real>,
    ledger: seq<Commit>)

  datatype Action =
    | Arrive(c: CallId, requestId: RequestId)
    | Screen(c: CallId, fault: bool)
    | Evaluate(c: CallId, result: Option<Evaluation>)
    | Begin(c: CallId, fault: bool)
    | Upsert(c: CallId, key: CounterKey, amount: real, max: real, expiresAt: Option<int>)
    | Exceed(c: CallId)
    | CheckFails(c: CallId)
    | FinishLimits(c: CallId)
    | StoreRecord(c: CallId, fault: bool)
    | LookUp(c: CallId, fault: bool)
    | StoreAudit(c: CallId, fault: bool)
    | CommitTx(c: CallId, fault: bool)
    | Rollback(c: CallId)
    | RecordOutside(c: CallId, fault: bool)
    | AuditOutside(c: CallId, fault: bool)
    | Abort(c: CallId)
    | Cleanup(now: int, victims: set<CounterKey>)

  /* ---- reading the state ---- */

  function TxOf(p: Phase): Option<Tx> {
    match p
    case Checking(_, tx, _) => Some(tx)
    case Storing(_, tx) => Some(tx)
    case Conflicting(_, tx) => Some(tx)
    case Auditing(_, tx) => Some(tx)
    case Committing(_, tx) => Some(tx)
    case Unwinding(tx, _) => Some(tx)
    case _ => None
  }

  function Locks(p: Phase): set<CounterKey> {
    match TxOf(p) case Some(tx) => tx.locks case None => {}
  }

  predicate Pending(p: Phase, rid: RequestId) {
    TxOf(p).Some? && TxOf(p).value.record.Some? && TxOf(p).value.record.value.requestId == rid
  }

  // A row lock held by another open transaction: the statement has to wait.
  predicate LockedAgainst(s: State, c: CallId, k: CounterKey) {
    exists d :: d in s.calls && d != c && k in Locks(s.calls[d].phase)
  }

  // Another open transaction has inserted this request id: a second insert has to wait.
  predicate InsertBlocked(s: State, c: CallId, rid: RequestId) {
    exists d :: d in s.calls && d != c && Pending(s.calls[d].phase, rid)
  }

  function Usage(counters: map<CounterKey, Counter>, k: CounterKey): real {
    if k in counters then counters[k].usage else 0.0
  }

  function Archived(s: State, k: CounterKey): real {
    if k in s.archived then s.archived[k] else 0.0
  }

  function ToResponse(v: Validation): Response {
    Response(v.id, v.requestId, v.result)
  }

  /* ---- writing the state ---- */

  function Move(s: State, c: CallId, p: Phase): State
    requires c in s.calls
  {
    s.(calls := s.calls[c := s.calls[c].(phase := p)])
  }

  function Reply(s: State, c: CallId, o: Outcome): State
    requires c in s.calls
  {
    Move(s, c, Replied(o))
  }

  // INSERT ... ON CONFLICT DO UPDATE ... WHERE usage + amount <= max, seen from inside the transaction.
  function UpsertTx(committed: map<CounterKey, Counter>, tx: Tx, k: CounterKey, amount: real, max: real, expiresAt: Option<int>): (r: (Tx, bool)) {
    var visible := committed + tx.counters;
    var locked := tx.(locks := tx.locks + {k});
    if k !in visible then
      (locked.(counters := tx.counters[k := Counter(amount, max, expiresAt)],
               increments := tx.increments + [Increment(k, amount)]), true)
    else if visible[k].usage + amount <= max then
      (locked.(counters := tx.counters[k := Counter(visible[k].usage + amount, max, expiresAt)],
               increments := tx.increments + [Increment(k, amount)]), true)
    else
      (locked, false)
  }

  // FindByRequestID: a request seen before gets the stored answer.
  function ScreenPhase(records: map<RequestId, Validation>, rid: RequestId, fault: bool): Phase {
    if fault then Replied(Failed)
    else if rid in records then Replied(Duplicate(ToResponse(records[rid])))
    else Screened
  }

  function DoScreen(s: State, c: CallId, fault: bool): State
    requires c in s.calls
  {
    Move(s, c, ScreenPhase(s.records, s.calls[c].requestId, fault))
  }

  function EvaluatePhase(result: Option<Evaluation>): Phase {
    match result
    case None => Replied(Failed)
    case Some(e) => if e.decision == Deny then RecordingOutside(e) else Evaluated(e)
  }

  function DoEvaluate(s: State, c: CallId, result: Option<Evaluation>): State
    requires c in s.calls
  {
    Move(s, c, EvaluatePhase(result))
  }

  // One upsert call: zero is a no-op, negative an error, more than the limit is refused before any SQL.
  function UpsertPhase(counters: map<CounterKey, Counter>, p: Phase, k: CounterKey, amount: real, max: real, expiresAt: Option<int>): (q: Phase)
    requires p.Checking?
    ensures q == Unwinding(p.tx, Failed) || (q.Checking? && q.eval == p.eval && (p.exceeded ==> q.exceeded))
  {
    if amount == 0.0 then p
    else if amount < 0.0 then Unwinding(p.tx, Failed)
    else if amount > max then p.(exceeded := true)
    else var (tx, ok) := UpsertTx(counters, p.tx, k, amount, max, expiresAt); Checking(p.eval, tx, p.exceeded || !ok)
  }

  function DoUpsert(s: State, c: CallId, k: CounterKey, amount: real, max: real, expiresAt: Option<int>): State
    requires c in s.calls && s.calls[c].phase.Checking?
  {
    Move(s, c, UpsertPhase(s.counters, s.calls[c].phase, k, amount, max, expiresAt))
  }

  // Over a limit: DENY. REVIEW: keep it. Both roll back first. ALLOW goes on inside the transaction.
  function FinishPhase(e: Evaluation, tx: Tx, exceeded: bool): Phase {
    if exceeded then RecordingOutside(e.(decision := Deny, reason := "limit_exceeded"))
    else if e.decision == Review then RecordingOutside(e)
    else Storing(e, tx)
  }

  function DoFinishLimits(s: State, c: CallId): State
    requires c in s.calls && s.calls[c].phase.Checking?
  {
    var p := s.calls[c].phase;
    Move(s, c, FinishPhase(p.eval, p.tx, p.exceeded))
  }

  function StorePhase(records: map<RequestId, Validation>, c: CallId, rid: RequestId, e: Evaluation, tx: Tx, fault: bool): Phase {
    if fault then Unwinding(tx, Failed)
    else if rid in records then Conflicting(e, tx)
    else Auditing(e, tx.(record := Some(Validation(c, rid, e))))
  }

  function DoStoreRecord(s: State, c: CallId, fault: bool): State
    requires c in s.calls && s.calls[c].phase.Storing?
  {
    var p := s.calls[c].phase;
    Move(s, c, StorePhase(s.records, c, s.calls[c].requestId, p.eval, p.tx, fault))
  }

  function LookUpPhase(records: map<RequestId, Validation>, rid: RequestId, tx: Tx, fault: bool): Phase {
    Unwinding(tx, if fault || rid !in records then Failed else Duplicate(ToResponse(records[rid])))
  }

  function DoLookUp(s: State, c: CallId, fault: bool): State
    requires c in s.calls && s.calls[c].phase.Conflicting?
  {
    Move(s, c, LookUpPhase(s.records, s.calls[c].requestId, s.calls[c].phase.tx, fault))
  }

  function AuditPhase(audits: map<CallId, Evaluation>, c: CallId, e: Evaluation, tx: Tx, fault: bool): Phase {
    if fault then Unwinding(tx, Failed)
    else if c in audits then Committing(e, tx)
    else Committing(e, tx.(audit := Some(e)))
  }

  function DoStoreAudit(s: State, c: CallId, fault: bool): State
    requires c in s.calls && s.calls[c].phase.Auditing?
  {
    Move(s, c, AuditPhase(s.audits, c, s.calls[c].phase.eval, s.calls[c].phase.tx, fault))
  }

  function DoCommit(s: State, c: CallId, fault: bool): State
    requires c in s.calls && s.calls[c].phase.Committing?
  {
    var p, rid := s.calls[c].phase, s.calls[c].requestId;
    if fault then Reply(s, c, Failed)
    else
      var s1 := Reply(s, c, Fresh(Response(c, rid, p.eval)));
      s1.(counters := s.counters + p.tx.counters,
          records := if p.tx.record.Some? then s.records[p.tx.record.value.requestId := p.tx.record.value] else s.records,
          audits := if p.tx.audit.Some? then s.audits[c := p.tx.audit.value] else s.audits,
          ledger := s.ledger + [Commit(c, rid, p.eval, p.tx.increments)])
  }

  // Best effort: a duplicate or a fault is swallowed and the reply is unchanged.
  function DoRecordOutside(s: State, c: CallId, fault: bool): State
    requires c in s.calls && s.calls[c].phase.RecordingOutside?
  {
    var p, rid := s.calls[c].phase, s.calls[c].requestId;
    var s1 := Move(s, c, AuditingOutside(p.eval));
    if fault || rid in s.records then s1 else s1.(records := s.records[rid := Validation(c, rid, p.eval)])
  }

  function DoAuditOutside(s: State, c: CallId, fault: bool): State
    requires c in s.calls && s.calls[c].phase.AuditingOutside?
  {
    var p, rid := s.calls[c].phase, s.calls[c].requestId;
    var s1 := Reply(s, c, Fresh(Response(c, rid, p.eval)));
    if fault || c in s.audits then s1 else s1.(audits := s.audits[c := p.eval])
  }

  predicate Expired(row: Counter, now: int) {
    row.expiresAt.Some? && row.expiresAt.value < now
  }

  predicate MayClean(s: State, now: int, victims: set<CounterKey>) {
    && victims <= s.counters.Keys
    && (forall k :: k in victims ==> Expired(s.counters[k], now))
    && (forall c, k :: c in s.calls && k in victims ==> k !in Locks(s.calls[c].phase))
  }

  function DoCleanup(s: State, victims: set<CounterKey>): State {
    s.(counters := s.counters - victims,
       archived := s.archived + map k | k in victims :: Archived(s, k) + Usage(s.counters, k))
  }

  /* ---- the step machine ---- */


  predicate Enabled(s: State, a: Action) {
    match a
    case Arrive(c, _) => c !in s.calls
    case Screen(c, _) => c in s.calls && s.calls[c].phase.Received?
    case Evaluate(c, _) => c in s.calls && s.calls[c].phase.Screened?
    case Begin(c, _) => c in s.calls && s.calls[c].phase.Evaluated?
    case Upsert(c, k, _, _, _) => c in s.calls && s.calls[c].phase.Checking? && !LockedAgainst(s, c, k)
    case Exceed(c) => c in s.calls && s.calls[c].phase.Checking?
    case CheckFails(c) => c in s.calls && s.calls[c].phase.Checking?
    case FinishLimits(c) => c in s.calls && s.calls[c].phase.Checking?
    case StoreRecord(c, fault) => c in s.calls && s.calls[c].phase.Storing? && (fault || !InsertBlocked(s, c, s.calls[c].requestId))
    case LookUp(c, _) => c in s.calls && s.calls[c].phase.Conflicting?
    case StoreAudit(c, _) => c in s.calls && s.calls[c].phase.Auditing?
    case CommitTx(c, _) => c in s.calls && s.calls[c].phase.Committing?
    case Rollback(c) => c in s.calls && s.calls[c].phase.Unwinding?
    case RecordOutside(c, fault) => c in s.calls && s.calls[c].phase.RecordingOutside? && (fault || !InsertBlocked(s, c, s.calls[c].requestId))
    case AuditOutside(c, _) => c in s.calls && s.calls[c].phase.AuditingOutside?
    case Abort(c) => c in s.calls && !s.calls[c].phase.Replied?
    case Cleanup(now, victims) => MayClean(s, now, victims)
  }

  function Apply(s: State, a: Action): State
    requires Enabled(s, a)
  {
    match a
    case Arrive(c, rid) => s.(calls := s.calls[c := Call(rid, Received)])
    case Screen(c, fault) => DoScreen(s, c, fault)
    case Evaluate(c, result) => DoEvaluate(s, c, result)
    case Begin(c, fault) => if fault then Reply(s, c, Failed) else Move(s, c, Checking(s.calls[c].phase.eval, EmptyTx, false))
    case Upsert(c, k, amount, max, expiresAt) => DoUpsert(s, c, k, amount, max, expiresAt)
    case Exceed(c) => Move(s, c, s.calls[c].phase.(exceeded := true))
    case CheckFails(c) => Move(s, c, Unwinding(s.calls[c].phase.tx, Failed))
    case FinishLimits(c) => DoFinishLimits(s, c)
    case StoreRecord(c, fault) => DoStoreRecord(s, c, fault)
    case LookUp(c, fault) => DoLookUp(s, c, fault)
    case StoreAudit(c, fault) => DoStoreAudit(s, c, fault)
    case CommitTx(c, fault) => DoCommit(s, c, fault)
    case Rollback(c) => Reply(s, c, s.calls[c].phase.pending)
    case RecordOutside(c, fault) => DoRecordOutside(s, c, fault)
    case AuditOutside(c, fault) => DoAuditOutside(s, c, fault)
    case Abort(c) => Reply(s, c, Failed)
    case Cleanup(_, victims) => DoCleanup(s, victims)
  }

  const Initial := State(map[], map[], map[], map[], map[], [])

  // The run of a list of actions, if every one is enabled when its turn comes.
  predicate Runs(s: State, actions: seq<Action>, s': State)
    decreases |actions|
  {
    if actions == [] then s == s'
    else Enabled(s, actions[0]) && Runs(Apply(s, actions[0]), actions[1..], s')
  }

  ghost predicate Reachable(s: State) {
    exists actions :: Runs(Initial, actions, s)
  }

  lemma {:induction false} RunsExtend(s: State, actions: seq<Action>, s1: State, a: Action)
    requires Runs(s, actions, s1) && Enabled(s1, a)
    ensures Runs(s, actions + [a], Apply(s1, a))
    decreases |actions|
  {
    if actions == [] {
      assert ([] + [a])[1..] == [];
    } else {
      RunsExtend(Apply(s, actions[0]), actions[1..], s1, a);
      assert (actions + [a])[1..] == actions[1..] + [a];
    }
  }
}
