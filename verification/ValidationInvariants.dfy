/**
 * What every interleaving keeps: conservation of usage, the counter bound, at most one
 * committed approval per request id, and all-or-nothing approvals.
 */
module ValidationInvariants {
  import opened Prelude
  import opened ValidationProtocol

  /* ---- sums over history ---- */

  function SumFor(incs: seq<Increment>, k: CounterKey): real {
    if incs == [] then 0.0
    else SumFor(incs[..|incs| - 1], k) + (if incs[|incs| - 1].key == k then incs[|incs| - 1].amount else 0.0)
  }

  // Everything committed approvals have added to counter k.
  function Approved(ledger: seq<Commit>, k: CounterKey): real {
    if ledger == [] then 0.0
    else Approved(ledger[..|ledger| - 1], k) + SumFor(ledger[|ledger| - 1].increments, k)
  }

  lemma SumForSnoc(incs: seq<Increment>, i: Increment, k: CounterKey)
    ensures SumFor(incs + [i], k) == SumFor(incs, k) + (if i.key == k then i.amount else 0.0)
  {
    assert (incs + [i])[..|incs|] == incs;
  }

  lemma ApprovedSnoc(ledger: seq<Commit>, e: Commit, k: CounterKey)
    ensures Approved(ledger + [e], k) == Approved(ledger, k) + SumFor(e.increments, k)
  {
    assert (ledger + [e])[..|ledger|] == ledger;
  }

  /* ---- the invariant ---- */

  ghost predicate Bounded(counters: map<CounterKey, Counter>) {
    forall k :: k in counters ==> 0.0 <= counters[k].usage <= counters[k].cap
  }

  // The transaction's view of a counter is the committed value plus its own increments.
  ghost predicate TxConsistent(counters: map<CounterKey, Counter>, tx: Tx) {
    && tx.counters.Keys <= tx.locks
    && Bounded(tx.counters)
    && (forall k :: k in tx.counters ==> tx.counters[k].usage == Usage(counters, k) + SumFor(tx.increments, k))
    && (forall k :: k !in tx.counters ==> SumFor(tx.increments, k) == 0.0)
  }

  ghost predicate IsStored(records: map<RequestId, Validation>, rid: RequestId, r: Response) {
    rid in records && r == ToResponse(records[rid])
  }

  ghost predicate InLedger(ledger: seq<Commit>, c: CallId, r: Response) {
    exists i :: 0 <= i < |ledger| && ledger[i].call == c && ledger[i].eval == r.result
  }

  ghost predicate OutcomeOk(records: map<RequestId, Validation>, ledger: seq<Commit>, c: CallId, rid: RequestId, o: Outcome) {
    match o
    case Fresh(r) => r.validationId == c && r.requestId == rid && (r.result.decision == Allow ==> InLedger(ledger, c, r))
    case Duplicate(r) => IsStored(records, rid, r)
    case Failed => true
  }

  ghost predicate PhaseOk(records: map<RequestId, Validation>, ledger: seq<Commit>, c: CallId, rid: RequestId, p: Phase) {
    match p
    case Received => true
    case Screened => true
    case Evaluated(e) => e.decision != Deny
    case Checking(e, tx, _) => e.decision != Deny && tx.record.None? && tx.audit.None?
    case Storing(e, tx) => e.decision == Allow && tx.record.None? && tx.audit.None?
    case Conflicting(e, tx) => tx.record.None? && tx.audit.None? && rid in records
    case Auditing(e, tx) => e.decision == Allow && tx.record == Some(Validation(c, rid, e)) && tx.audit.None?
    case Committing(e, tx) => e.decision == Allow && tx.record == Some(Validation(c, rid, e)) && tx.audit == Some(e)
    case Unwinding(tx, o) => !o.Fresh? && OutcomeOk(records, ledger, c, rid, o)
    case RecordingOutside(e) => e.decision != Allow
    case AuditingOutside(e) => e.decision != Allow
    case Replied(o) => OutcomeOk(records, ledger, c, rid, o)
  }

  ghost predicate CallOk(counters: map<CounterKey, Counter>, records: map<RequestId, Validation>, ledger: seq<Commit>,
                         c: CallId, call: Call)
  {
    && PhaseOk(records, ledger, c, call.requestId, call.phase)
    && (TxOf(call.phase).Some? ==> TxConsistent(counters, TxOf(call.phase).value))
    && (forall r :: Pending(call.phase, r) ==> r == call.requestId && r !in records)
  }

  ghost predicate CallsOk(s: State) {
    forall c :: c in s.calls ==> CallOk(s.counters, s.records, s.ledger, c, s.calls[c])
  }

  // Two open transactions never hold the same row lock, nor both an uncommitted insert of one request id.
  ghost predicate Apart(p: Phase, q: Phase) {
    && Locks(p) !! Locks(q)
    && (forall r :: !(Pending(p, r) && Pending(q, r)))
  }

  ghost predicate Exclusive(calls: map<CallId, Call>) {
    forall c, d :: c in calls && d in calls && c != d ==> Apart(calls[c].phase, calls[d].phase)
  }

  ghost predicate Conserved(s: State) {
    forall k :: Usage(s.counters, k) + Archived(s, k) == Approved(s.ledger, k)
  }

  // A stored record belongs to the call that wrote it, and says what that call replies.
  ghost predicate RecordOk(calls: map<CallId, Call>, rid: RequestId, v: Validation) {
    && v.requestId == rid
    && v.id in calls && calls[v.id].requestId == rid
    && var p := calls[v.id].phase;
       (p == AuditingOutside(v.result) || p == Replied(Fresh(ToResponse(v))) || p == Replied(Failed))
  }

  ghost predicate RecordsOk(records: map<RequestId, Validation>, calls: map<CallId, Call>) {
    forall rid :: rid in records ==> RecordOk(calls, rid, records[rid])
  }

  ghost predicate AuditsOk(audits: map<CallId, Evaluation>, calls: map<CallId, Call>) {
    forall c :: c in audits ==> c in calls && calls[c].phase == Replied(Fresh(Response(c, calls[c].requestId, audits[c])))
  }

  // A committed approval has its record, its audit event and its reply.
  ghost predicate EntryOk(s: State, e: Commit) {
    && e.eval.decision == Allow
    && e.call in s.calls && s.calls[e.call] == Call(e.requestId, Replied(Fresh(Response(e.call, e.requestId, e.eval))))
    && e.requestId in s.records && s.records[e.requestId] == Validation(e.call, e.requestId, e.eval)
    && e.call in s.audits && s.audits[e.call] == e.eval
  }

  ghost predicate LedgerOk(s: State) {
    && (forall i :: 0 <= i < |s.ledger| ==> EntryOk(s, s.ledger[i]))
    && (forall i, j :: 0 <= i < j < |s.ledger| ==> s.ledger[i].call != s.ledger[j].call)
  }

  ghost predicate Inv(s: State) {
    && Bounded(s.counters) && Conserved(s)
    && RecordsOk(s.records, s.calls) && AuditsOk(s.audits, s.calls) && LedgerOk(s)
    && CallsOk(s) && Exclusive(s.calls)
  }

  /* ---- every step keeps it ---- */

  // Finished calls stay as they are; tables and history only grow.
  ghost predicate Extends(s: State, t: State) {
    && (forall c :: c in s.calls ==> c in t.calls && t.calls[c].requestId == s.calls[c].requestId)
    && (forall c :: c in s.calls && s.calls[c].phase.Replied? ==> t.calls[c] == s.calls[c])
    && (forall r :: r in s.records ==> r in t.records && t.records[r] == s.records[r])
    && (forall c :: c in s.audits ==> c in t.audits && t.audits[c] == s.audits[c])
  }

  lemma LedgerStays(s: State, t: State)
    requires LedgerOk(s) && Extends(s, t) && t.ledger == s.ledger
    ensures LedgerOk(t)
  {
    forall i | 0 <= i < |t.ledger| ensures EntryOk(t, t.ledger[i]) { assert EntryOk(s, s.ledger[i]); }
  }

  lemma ExclusiveMove(s: State, c: CallId, p: Phase)
    requires Exclusive(s.calls) && c in s.calls
    requires forall k :: k in Locks(p) && k !in Locks(s.calls[c].phase) ==> !LockedAgainst(s, c, k)
    requires forall r :: Pending(p, r) && !Pending(s.calls[c].phase, r) ==> !InsertBlocked(s, c, r)
    ensures Exclusive(Move(s, c, p).calls)
  {
    forall d | d in s.calls && d != c ensures Apart(p, s.calls[d].phase) && Apart(s.calls[d].phase, p) {
      assert Apart(s.calls[c].phase, s.calls[d].phase);
    }
  }

  lemma RecordsMove(s: State, c: CallId, p: Phase)
    requires RecordsOk(s.records, s.calls) && AuditsOk(s.audits, s.calls) && c in s.calls && !s.calls[c].phase.Replied?
    requires s.calls[c].phase.AuditingOutside? ==> p == Replied(Failed)
    ensures RecordsOk(s.records, Move(s, c, p).calls) && AuditsOk(s.audits, Move(s, c, p).calls)
  {
    forall r | r in s.records ensures RecordOk(Move(s, c, p).calls, r, s.records[r]) {
      assert RecordOk(s.calls, r, s.records[r]);
    }
  }

  lemma SameSums(s: State, t: State)
    requires Conserved(s) && t.counters == s.counters && t.archived == s.archived && t.ledger == s.ledger
    ensures Conserved(t)
  {
    forall k ensures Usage(t.counters, k) + Archived(t, k) == Approved(t.ledger, k) {
      assert Usage(s.counters, k) + Archived(s, k) == Approved(s.ledger, k);
    }
  }

  lemma CallsMove(s: State, c: CallId, p: Phase)
    requires CallsOk(s) && c in s.calls && CallOk(s.counters, s.records, s.ledger, c, Call(s.calls[c].requestId, p))
    ensures CallsOk(Move(s, c, p))
  {
  }

  lemma LedgerMove(s: State, c: CallId, p: Phase)
    requires LedgerOk(s) && c in s.calls && !s.calls[c].phase.Replied?
    ensures LedgerOk(Move(s, c, p))
  {
    LedgerStays(s, Move(s, c, p));
  }

  // A step that only moves one unfinished call, taking no lock and no request id that others hold.
  lemma MoveKeeps(s: State, c: CallId, p: Phase)
    requires Inv(s) && c in s.calls && !s.calls[c].phase.Replied?
    requires s.calls[c].phase.AuditingOutside? ==> p == Replied(Failed)
    requires CallOk(s.counters, s.records, s.ledger, c, Call(s.calls[c].requestId, p))
    requires forall k :: k in Locks(p) && k !in Locks(s.calls[c].phase) ==> !LockedAgainst(s, c, k)
    requires forall r :: Pending(p, r) && !Pending(s.calls[c].phase, r) ==> !InsertBlocked(s, c, r)
    ensures Inv(Move(s, c, p))
  {
    var t := Move(s, c, p);
    assert Exclusive(t.calls) by { ExclusiveMove(s, c, p); }
    assert RecordsOk(t.records, t.calls) && AuditsOk(t.audits, t.calls) by { RecordsMove(s, c, p); }
    assert LedgerOk(t) by { LedgerMove(s, c, p); }
    assert CallsOk(t) by { CallsMove(s, c, p); }
    assert Conserved(t) by { SameSums(s, t); }
  }

  // A step inside one call that writes no shared table and takes no lock or request id.
  lemma QuietKeeps(s: State, c: CallId, p: Phase)
    requires Inv(s) && c in s.calls && !s.calls[c].phase.Replied?
    requires s.calls[c].phase.AuditingOutside? ==> p == Replied(Failed)
    requires PhaseOk(s.records, s.ledger, c, s.calls[c].requestId, p)
    requires TxOf(p) == None || TxOf(p) == Some(EmptyTx) || TxOf(p) == TxOf(s.calls[c].phase)
    ensures Inv(Move(s, c, p))
  {
    assert CallOk(s.counters, s.records, s.ledger, c, s.calls[c]);
    forall r | Pending(p, r) ensures Pending(s.calls[c].phase, r) {}
    MoveKeeps(s, c, p);
  }

  lemma SumsWith(incs: seq<Increment>, k: CounterKey, amount: real)
    ensures forall j :: SumFor(incs + [Increment(k, amount)], j) == SumFor(incs, j) + (if k == j then amount else 0.0)
  {
    forall j ensures SumFor(incs + [Increment(k, amount)], j) == SumFor(incs, j) + (if k == j then amount else 0.0) {
      SumForSnoc(incs, Increment(k, amount), j);
    }
  }

  // A written row carries exactly what the transaction has added to it.
  lemma WrittenConsistent(counters: map<CounterKey, Counter>, tx: Tx, k: CounterKey, row: Counter, amount: real)
    requires TxConsistent(counters, tx) && 0.0 <= row.usage <= row.cap
    requires row.usage == Usage(counters, k) + SumFor(tx.increments, k) + amount
    ensures TxConsistent(counters, tx.(locks := tx.locks + {k}, counters := tx.counters[k := row],
                                       increments := tx.increments + [Increment(k, amount)]))
  {
    SumsWith(tx.increments, k, amount);
    var rows := tx.counters[k := row];
    assert Bounded(rows);
    var sums := tx.increments + [Increment(k, amount)];
    assert forall j :: j in rows ==> rows[j].usage == Usage(counters, j) + SumFor(sums, j);
    assert forall j :: j !in rows ==> SumFor(sums, j) == 0.0;
  }

  // The row that the statement sees holds the committed value plus the transaction's own increments.
  lemma VisibleUsage(counters: map<CounterKey, Counter>, tx: Tx, k: CounterKey)
    requires Bounded(counters) && TxConsistent(counters, tx)
    ensures Usage(counters + tx.counters, k) == Usage(counters, k) + SumFor(tx.increments, k)
    ensures 0.0 <= Usage(counters + tx.counters, k)
  {
  }

  lemma LockedConsistent(counters: map<CounterKey, Counter>, tx: Tx, k: CounterKey)
    requires TxConsistent(counters, tx)
    ensures TxConsistent(counters, tx.(locks := tx.locks + {k}))
  {
  }

  // Either the row is written, or it is only locked; a missing row counts as empty.
  lemma UpsertWrites(counters: map<CounterKey, Counter>, tx: Tx, k: CounterKey, amount: real, max: real, expiresAt: Option<int>)
    requires 0.0 < amount <= max
    ensures var usage, locked := Usage(counters + tx.counters, k), tx.(locks := tx.locks + {k});
            UpsertTx(counters, tx, k, amount, max, expiresAt).0 ==
            if usage + amount <= max then locked.(counters := tx.counters[k := Counter(usage + amount, max, expiresAt)],
                                                  increments := tx.increments + [Increment(k, amount)])
            else locked
  {
  }

  lemma UpsertConsistent(counters: map<CounterKey, Counter>, tx: Tx, k: CounterKey, amount: real, max: real, expiresAt: Option<int>)
    requires Bounded(counters) && TxConsistent(counters, tx) && 0.0 < amount <= max
    ensures TxConsistent(counters, UpsertTx(counters, tx, k, amount, max, expiresAt).0)
  {
    VisibleUsage(counters, tx, k);
    var usage := Usage(counters + tx.counters, k);
    if usage + amount <= max { WrittenConsistent(counters, tx, k, Counter(usage + amount, max, expiresAt), amount); }
    else { LockedConsistent(counters, tx, k); }
    UpsertWrites(counters, tx, k, amount, max, expiresAt);
  }

  lemma UpsertPhaseOk(s: State, c: CallId, call: Call, k: CounterKey, amount: real, max: real, expiresAt: Option<int>)
    requires Bounded(s.counters) && call.phase.Checking? && CallOk(s.counters, s.records, s.ledger, c, call)
    ensures var q := UpsertPhase(s.counters, call.phase, k, amount, max, expiresAt);
            && CallOk(s.counters, s.records, s.ledger, c, Call(call.requestId, q))
            && Locks(q) <= Locks(call.phase) + {k}
            && (forall r :: !Pending(q, r))
  {
    if 0.0 < amount <= max { UpsertConsistent(s.counters, call.phase.tx, k, amount, max, expiresAt); }
  }

  lemma UpsertKeeps(s: State, c: CallId, k: CounterKey, amount: real, max: real, expiresAt: Option<int>)
    requires Inv(s) && Enabled(s, Upsert(c, k, amount, max, expiresAt))
    ensures Inv(DoUpsert(s, c, k, amount, max, expiresAt))
  {
    UpsertPhaseOk(s, c, s.calls[c], k, amount, max, expiresAt);
    MoveKeeps(s, c, UpsertPhase(s.counters, s.calls[c].phase, k, amount, max, expiresAt));
  }

  // Committing transfers the overlay to the table and writes one ledger entry.
  lemma CommitConserves(s: State, c: CallId)
    requires Bounded(s.counters) && Conserved(s) && c in s.calls && s.calls[c].phase.Committing?
    requires TxConsistent(s.counters, s.calls[c].phase.tx)
    ensures Conserved(DoCommit(s, c, false)) && Bounded(DoCommit(s, c, false).counters)
  {
    var tx, t := s.calls[c].phase.tx, DoCommit(s, c, false);
    forall k ensures Usage(t.counters, k) + Archived(t, k) == Approved(t.ledger, k) {
      ApprovedSnoc(s.ledger, t.ledger[|s.ledger|], k);
      assert Usage(s.counters, k) + Archived(s, k) == Approved(s.ledger, k);
    }
  }

  // What a call holds locked, no other commit and no cleanup touches.
  lemma TxUndisturbed(counters: map<CounterKey, Counter>, counters': map<CounterKey, Counter>, tx: Tx)
    requires TxConsistent(counters, tx)
    requires forall k :: k in tx.locks ==> Usage(counters', k) == Usage(counters, k)
    ensures TxConsistent(counters', tx)
  {
  }

  lemma OutcomeStays(s: State, t: State, c: CallId, rid: RequestId, o: Outcome)
    requires OutcomeOk(s.records, s.ledger, c, rid, o)
    requires Extends(s, t) && s.ledger <= t.ledger
    ensures OutcomeOk(t.records, t.ledger, c, rid, o)
  {
    if o.Fresh? && o.response.result.decision == Allow {
      var i :| 0 <= i < |s.ledger| && s.ledger[i].call == c && s.ledger[i].eval == o.response.result;
      assert t.ledger[i] == s.ledger[i];
    }
  }

  lemma CallStays(s: State, t: State, c: CallId, call: Call)
    requires CallOk(s.counters, s.records, s.ledger, c, call)
    requires Extends(s, t) && s.ledger <= t.ledger
    requires forall k :: k in Locks(call.phase) ==> Usage(t.counters, k) == Usage(s.counters, k)
    requires forall r :: r in t.records && r !in s.records ==> !Pending(call.phase, r)
    ensures CallOk(t.counters, t.records, t.ledger, c, call)
  {
    if TxOf(call.phase).Some? { TxUndisturbed(s.counters, t.counters, TxOf(call.phase).value); }
    if call.phase.Unwinding? { OutcomeStays(s, t, c, call.requestId, call.phase.pending); }
    if call.phase.Replied? { OutcomeStays(s, t, c, call.requestId, call.phase.outcome); }
  }

  lemma CommitKeepsOther(s: State, c: CallId, d: CallId)
    requires CallsOk(s) && Exclusive(s.calls) && c in s.calls && s.calls[c].phase.Committing?
    requires Extends(s, DoCommit(s, c, false)) && d in s.calls && d != c
    ensures var t := DoCommit(s, c, false); CallOk(t.counters, t.records, t.ledger, d, s.calls[d])
  {
    assert CallOk(s.counters, s.records, s.ledger, c, s.calls[c]);
    assert Pending(s.calls[c].phase, s.calls[c].requestId);
    assert Apart(s.calls[c].phase, s.calls[d].phase);
    CallStays(s, DoCommit(s, c, false), d, s.calls[d]);
  }

  lemma CommitReplies(s: State, c: CallId)
    requires c in s.calls && s.calls[c].phase.Committing?
    ensures var t := DoCommit(s, c, false); CallOk(t.counters, t.records, t.ledger, c, t.calls[c])
  {
    var t := DoCommit(s, c, false);
    assert t.ledger[|s.ledger|].call == c;
  }

  lemma CommitKeepsCalls(s: State, c: CallId)
    requires CallsOk(s) && Exclusive(s.calls) && c in s.calls && s.calls[c].phase.Committing?
    requires Extends(s, DoCommit(s, c, false))
    ensures CallsOk(DoCommit(s, c, false))
  {
    var t := DoCommit(s, c, false);
    CommitReplies(s, c);
    forall d | d in t.calls && d != c ensures CallOk(t.counters, t.records, t.ledger, d, t.calls[d]) {
      CommitKeepsOther(s, c, d);
    }
  }

  // Earlier records stand while their writers only go on to reply.
  lemma RecordsStay(s: State, t: State)
    requires RecordsOk(s.records, s.calls) && Extends(s, t)
    requires forall c :: c in s.calls && s.calls[c].phase.AuditingOutside? ==>
               t.calls[c].phase in {s.calls[c].phase, Replied(Failed), Replied(Fresh(Response(c, s.calls[c].requestId, s.calls[c].phase.eval)))}
    ensures RecordsOk(s.records, t.calls)
  {
    forall r | r in s.records ensures RecordOk(t.calls, r, s.records[r]) {
      assert RecordOk(s.calls, r, s.records[r]);
    }
  }

  lemma CommitExtends(s: State, c: CallId)
    requires RecordsOk(s.records, s.calls) && AuditsOk(s.audits, s.calls) && CallsOk(s)
    requires c in s.calls && s.calls[c].phase.Committing?
    ensures Extends(s, DoCommit(s, c, false))
  {
    assert CallOk(s.counters, s.records, s.ledger, c, s.calls[c]);
    NoAuditYet(s, c);
    NewRecord(s, c);
    CommitAdds(s, c);
  }

  lemma CommitAdds(s: State, c: CallId)
    requires c in s.calls && s.calls[c].phase.Committing? && s.calls[c].requestId !in s.records && c !in s.audits
    requires s.calls[c].phase.tx.record == Some(Validation(c, s.calls[c].requestId, s.calls[c].phase.eval))
    ensures Extends(s, DoCommit(s, c, false))
  {
  }

  // The request id of a call about to commit is not in the table yet.
  lemma NewRecord(s: State, c: CallId)
    requires c in s.calls && s.calls[c].phase.Committing? && CallOk(s.counters, s.records, s.ledger, c, s.calls[c])
    ensures s.calls[c].requestId !in s.records
  {
    assert Pending(s.calls[c].phase, s.calls[c].requestId);
  }

  lemma CommitKeepsLedger(s: State, c: CallId)
    requires LedgerOk(s) && c in s.calls && s.calls[c].phase.Committing?
    requires PhaseOk(s.records, s.ledger, c, s.calls[c].requestId, s.calls[c].phase)
    requires Extends(s, DoCommit(s, c, false))
    ensures LedgerOk(DoCommit(s, c, false))
  {
    var t := DoCommit(s, c, false);
    forall i | 0 <= i < |s.ledger| ensures EntryOk(t, s.ledger[i]) && s.ledger[i].call != c {
      assert EntryOk(s, s.ledger[i]);
    }
  }

  // One more record, written by a call that has just moved on with it.
  lemma RecordsGrow(records: map<RequestId, Validation>, calls: map<CallId, Call>, rid: RequestId, v: Validation)
    requires RecordsOk(records, calls) && RecordOk(calls, rid, v)
    ensures RecordsOk(records[rid := v], calls)
  {
  }

  lemma AuditsGrow(s: State, c: CallId, e: Evaluation, p: Phase)
    requires AuditsOk(s.audits, s.calls) && c in s.calls && c !in s.audits
    requires p == Replied(Fresh(Response(c, s.calls[c].requestId, e)))
    ensures AuditsOk(s.audits[c := e], Move(s, c, p).calls)
  {
  }

  lemma CommitKeepsTables(s: State, c: CallId)
    requires RecordsOk(s.records, s.calls) && AuditsOk(s.audits, s.calls) && c in s.calls && s.calls[c].phase.Committing?
    requires PhaseOk(s.records, s.ledger, c, s.calls[c].requestId, s.calls[c].phase)
    requires Extends(s, DoCommit(s, c, false))
    ensures var t := DoCommit(s, c, false); RecordsOk(t.records, t.calls) && AuditsOk(t.audits, t.calls)
  {
    var t, p, rid := DoCommit(s, c, false), s.calls[c].phase, s.calls[c].requestId;
    assert t.records == s.records[rid := Validation(c, rid, p.eval)] && t.audits == s.audits[c := p.eval];
    assert RecordsOk(s.records, t.calls) by { RecordsStay(s, t); }
    assert RecordsOk(t.records, t.calls) by { RecordsGrow(s.records, t.calls, rid, Validation(c, rid, p.eval)); }
    assert AuditsOk(t.audits, t.calls) by { AuditsGrow(s, c, p.eval, t.calls[c].phase); }
  }

  lemma CommitKeeps(s: State, c: CallId)
    requires Inv(s) && c in s.calls && s.calls[c].phase.Committing?
    ensures Inv(DoCommit(s, c, false))
  {
    var t := DoCommit(s, c, false);
    assert CallOk(s.counters, s.records, s.ledger, c, s.calls[c]);
    CommitExtends(s, c);
    assert Conserved(t) && Bounded(t.counters) by { CommitConserves(s, c); }
    assert LedgerOk(t) by { CommitKeepsLedger(s, c); }
    assert RecordsOk(t.records, t.calls) && AuditsOk(t.audits, t.calls) by { CommitKeepsTables(s, c); }
    assert CallsOk(t) by { CommitKeepsCalls(s, c); }
    assert Exclusive(t.calls) by { ExclusiveMove(s, c, t.calls[c].phase); }
  }

  lemma InsertOutsideKeepsCalls(s: State, c: CallId, v: Validation)
    requires CallsOk(s) && c in s.calls && s.calls[c].phase.AuditingOutside?
    requires v.requestId !in s.records && !InsertBlocked(s, c, v.requestId)
    ensures CallsOk(s.(records := s.records[v.requestId := v]))
  {
    var t := s.(records := s.records[v.requestId := v]);
    forall d | d in t.calls ensures CallOk(t.counters, t.records, t.ledger, d, t.calls[d]) {
      CallStays(s, t, d, s.calls[d]);
    }
  }

  lemma InsertOutsideKeeps(s: State, c: CallId, v: Validation)
    requires Inv(s) && c in s.calls && s.calls[c] == Call(v.requestId, AuditingOutside(v.result)) && v.id == c
    requires v.requestId !in s.records && !InsertBlocked(s, c, v.requestId)
    ensures Inv(s.(records := s.records[v.requestId := v]))
  {
    var t := s.(records := s.records[v.requestId := v]);
    InsertOutsideKeepsCalls(s, c, v);
    LedgerStays(s, t);
    RecordsGrow(s.records, s.calls, v.requestId, v);
  }

  lemma RecordOutsideKeeps(s: State, c: CallId, fault: bool)
    requires Inv(s) && Enabled(s, RecordOutside(c, fault))
    ensures Inv(DoRecordOutside(s, c, fault))
  {
    var p, rid := s.calls[c].phase, s.calls[c].requestId;
    var s1 := Move(s, c, AuditingOutside(p.eval));
    assert Inv(s1) by {
      assert CallOk(s.counters, s.records, s.ledger, c, s.calls[c]);
      QuietKeeps(s, c, AuditingOutside(p.eval));
    }
    if !fault && rid !in s.records { InsertAfterMove(s, c); }
  }

  lemma InsertAfterMove(s: State, c: CallId)
    requires c in s.calls && s.calls[c].phase.RecordingOutside? && s.calls[c].requestId !in s.records
    requires !InsertBlocked(s, c, s.calls[c].requestId)
    requires Inv(Move(s, c, AuditingOutside(s.calls[c].phase.eval)))
    ensures Inv(DoRecordOutside(s, c, false))
  {
    var p, rid := s.calls[c].phase, s.calls[c].requestId;
    var s1 := Move(s, c, AuditingOutside(p.eval));
    assert !InsertBlocked(s1, c, rid);
    InsertOutsideKeeps(s1, c, Validation(c, rid, p.eval));
  }

  lemma AuditOutsideKeepsTables(s: State, c: CallId, fault: bool)
    requires RecordsOk(s.records, s.calls) && AuditsOk(s.audits, s.calls) && LedgerOk(s)
    requires Enabled(s, AuditOutside(c, fault))
    ensures var t := DoAuditOutside(s, c, fault); LedgerOk(t) && RecordsOk(t.records, t.calls) && AuditsOk(t.audits, t.calls)
  {
    var t, p := DoAuditOutside(s, c, fault), s.calls[c].phase;
    LedgerStays(s, t);
    RecordsStay(s, t);
    AuditsGrow(s, c, p.eval, t.calls[c].phase);
  }

  lemma AuditOutsideKeeps(s: State, c: CallId, fault: bool)
    requires Inv(s) && Enabled(s, AuditOutside(c, fault))
    ensures Inv(DoAuditOutside(s, c, fault))
  {
    var t := DoAuditOutside(s, c, fault);
    assert Bounded(t.counters) && LedgerOk(t) && RecordsOk(t.records, t.calls) && AuditsOk(t.audits, t.calls) by { AuditOutsideKeepsTables(s, c, fault); }
    assert CallsOk(t) by { AuditOutsideKeepsCalls(s, c, fault); }
    assert Exclusive(t.calls) by { ExclusiveMove(s, c, t.calls[c].phase); }
    assert Conserved(t) by { SameSums(s, t); }
  }

  lemma AuditOutsideKeepsCalls(s: State, c: CallId, fault: bool)
    requires CallsOk(s) && Enabled(s, AuditOutside(c, fault))
    ensures CallsOk(DoAuditOutside(s, c, fault))
  {
    assert CallOk(s.counters, s.records, s.ledger, c, s.calls[c]);
    var t := Move(s, c, Replied(Fresh(Response(c, s.calls[c].requestId, s.calls[c].phase.eval))));
    CallsMove(s, c, t.calls[c].phase);
    SameCalls(t, DoAuditOutside(s, c, fault));
  }

  lemma SameCalls(s: State, t: State)
    requires CallsOk(s) && t.calls == s.calls && t.counters == s.counters && t.records == s.records && t.ledger == s.ledger
    ensures CallsOk(t)
  {
  }

  lemma ArriveExclusive(s: State, c: CallId, rid: RequestId)
    requires Exclusive(s.calls) && c !in s.calls
    ensures Exclusive(Apply(s, Arrive(c, rid)).calls)
  {
    var calls := Apply(s, Arrive(c, rid)).calls;
    forall d, e | d in calls && e in calls && d != e ensures Apart(calls[d].phase, calls[e].phase) {
      if d != c && e != c { assert Apart(s.calls[d].phase, s.calls[e].phase); }
    }
  }

  lemma ArriveKeepsTables(s: State, c: CallId, rid: RequestId)
    requires RecordsOk(s.records, s.calls) && AuditsOk(s.audits, s.calls) && LedgerOk(s) && c !in s.calls
    ensures var t := Apply(s, Arrive(c, rid)); RecordsOk(t.records, t.calls) && AuditsOk(t.audits, t.calls) && LedgerOk(t)
  {
    LedgerStays(s, Apply(s, Arrive(c, rid)));
    RecordsStay(s, Apply(s, Arrive(c, rid)));
  }

  lemma ArriveKeeps(s: State, c: CallId, rid: RequestId)
    requires Inv(s) && c !in s.calls
    ensures Inv(Apply(s, Arrive(c, rid)))
  {
    ArriveKeepsTables(s, c, rid);
    ArriveExclusive(s, c, rid);
    assert CallOk(s.counters, s.records, s.ledger, c, Call(rid, Received));
  }

  lemma CleanupConserves(s: State, victims: set<CounterKey>)
    requires Conserved(s) && Bounded(s.counters) && victims <= s.counters.Keys
    ensures Conserved(DoCleanup(s, victims)) && Bounded(DoCleanup(s, victims).counters)
  {
    var t := DoCleanup(s, victims);
    forall k ensures Usage(t.counters, k) + Archived(t, k) == Approved(t.ledger, k) {
      assert Usage(s.counters, k) + Archived(s, k) == Approved(s.ledger, k);
    }
  }

  lemma CleanupKeepsCalls(s: State, now: int, victims: set<CounterKey>)
    requires CallsOk(s) && MayClean(s, now, victims)
    ensures CallsOk(DoCleanup(s, victims))
  {
    var t := DoCleanup(s, victims);
    forall d | d in t.calls ensures CallOk(t.counters, t.records, t.ledger, d, t.calls[d]) { CallStays(s, t, d, s.calls[d]); }
  }

  lemma CleanupKeeps(s: State, now: int, victims: set<CounterKey>)
    requires Inv(s) && MayClean(s, now, victims)
    ensures Inv(DoCleanup(s, victims))
  {
    CleanupConserves(s, victims);
    CleanupKeepsCalls(s, now, victims);
    LedgerStays(s, DoCleanup(s, victims));
  }

  lemma ScreenKeeps(s: State, c: CallId, fault: bool)
    requires Inv(s) && Enabled(s, Screen(c, fault))
    ensures Inv(DoScreen(s, c, fault))
  {
    var rid := s.calls[c].requestId;
    if fault { QuietKeeps(s, c, Replied(Failed)); }
    else if rid in s.records { QuietKeeps(s, c, Replied(Duplicate(ToResponse(s.records[rid])))); }
    else { QuietKeeps(s, c, Screened); }
  }

  lemma EvaluateKeeps(s: State, c: CallId, result: Option<Evaluation>)
    requires Inv(s) && Enabled(s, Evaluate(c, result))
    ensures Inv(DoEvaluate(s, c, result))
  {
    match result
    case None => QuietKeeps(s, c, Replied(Failed));
    case Some(e) => QuietKeeps(s, c, if e.decision == Deny then RecordingOutside(e) else Evaluated(e));
  }

  lemma BeginKeeps(s: State, c: CallId, fault: bool)
    requires Inv(s) && Enabled(s, Begin(c, fault))
    ensures Inv(Apply(s, Begin(c, fault)))
  {
    assert CallOk(s.counters, s.records, s.ledger, c, s.calls[c]);
    QuietKeeps(s, c, if fault then Replied(Failed) else Checking(s.calls[c].phase.eval, EmptyTx, false));
  }

  lemma CheckingKeeps(s: State, c: CallId)
    requires Inv(s) && c in s.calls && s.calls[c].phase.Checking?
    ensures Inv(Apply(s, Exceed(c))) && Inv(Apply(s, CheckFails(c)))
  {
    var p := s.calls[c].phase;
    assert CallOk(s.counters, s.records, s.ledger, c, s.calls[c]);
    QuietKeeps(s, c, p.(exceeded := true));
    QuietKeeps(s, c, Unwinding(p.tx, Failed));
  }

  lemma FinishLimitsKeeps(s: State, c: CallId)
    requires Inv(s) && c in s.calls && s.calls[c].phase.Checking?
    ensures Inv(DoFinishLimits(s, c))
  {
    var p := s.calls[c].phase;
    assert CallOk(s.counters, s.records, s.ledger, c, s.calls[c]);
    if p.exceeded { QuietKeeps(s, c, RecordingOutside(p.eval.(decision := Deny, reason := "limit_exceeded"))); }
    else if p.eval.decision == Review { QuietKeeps(s, c, RecordingOutside(p.eval)); }
    else { QuietKeeps(s, c, Storing(p.eval, p.tx)); }
  }

  // The insert takes the request id: no other open transaction may hold it.
  lemma StoreRecordKeeps(s: State, c: CallId, fault: bool)
    requires Inv(s) && Enabled(s, StoreRecord(c, fault))
    ensures Inv(DoStoreRecord(s, c, fault))
  {
    var p, rid := s.calls[c].phase, s.calls[c].requestId;
    assert CallOk(s.counters, s.records, s.ledger, c, s.calls[c]);
    if fault { QuietKeeps(s, c, Unwinding(p.tx, Failed)); }
    else if rid in s.records { QuietKeeps(s, c, Conflicting(p.eval, p.tx)); }
    else {
      StoredCallOk(s, c);
      MoveKeeps(s, c, Auditing(p.eval, p.tx.(record := Some(Validation(c, rid, p.eval)))));
    }
  }

  lemma StoredCallOk(s: State, c: CallId)
    requires c in s.calls && s.calls[c].phase.Storing? && CallOk(s.counters, s.records, s.ledger, c, s.calls[c])
    requires s.calls[c].requestId !in s.records
    ensures var p, rid := s.calls[c].phase, s.calls[c].requestId;
            CallOk(s.counters, s.records, s.ledger, c, Call(rid, Auditing(p.eval, p.tx.(record := Some(Validation(c, rid, p.eval))))))
  {
    var p, rid := s.calls[c].phase, s.calls[c].requestId;
    assert TxConsistent(s.counters, p.tx.(record := Some(Validation(c, rid, p.eval))));
  }

  lemma LookUpKeeps(s: State, c: CallId, fault: bool)
    requires Inv(s) && Enabled(s, LookUp(c, fault))
    ensures Inv(DoLookUp(s, c, fault))
  {
    var p, rid := s.calls[c].phase, s.calls[c].requestId;
    assert CallOk(s.counters, s.records, s.ledger, c, s.calls[c]);
    QuietKeeps(s, c, Unwinding(p.tx, if fault || rid !in s.records then Failed else Duplicate(ToResponse(s.records[rid]))));
  }

  // An unfinished call has no audit event yet.
  lemma NoAuditYet(s: State, c: CallId)
    requires AuditsOk(s.audits, s.calls) && c in s.calls && !s.calls[c].phase.Replied?
    ensures c !in s.audits
  {
  }

  lemma StoreAuditKeeps(s: State, c: CallId, fault: bool)
    requires Inv(s) && Enabled(s, StoreAudit(c, fault))
    ensures Inv(DoStoreAudit(s, c, fault))
  {
    var p := s.calls[c].phase;
    assert CallOk(s.counters, s.records, s.ledger, c, s.calls[c]);
    if fault { QuietKeeps(s, c, Unwinding(p.tx, Failed)); }
    else {
      NoAuditYet(s, c);
      AuditedCallOk(s, c);
      MoveKeeps(s, c, Committing(p.eval, p.tx.(audit := Some(p.eval))));
    }
  }

  lemma AuditedCallOk(s: State, c: CallId)
    requires c in s.calls && s.calls[c].phase.Auditing? && CallOk(s.counters, s.records, s.ledger, c, s.calls[c])
    ensures var p := s.calls[c].phase;
            CallOk(s.counters, s.records, s.ledger, c, Call(s.calls[c].requestId, Committing(p.eval, p.tx.(audit := Some(p.eval)))))
  {
    var p := s.calls[c].phase;
    assert TxConsistent(s.counters, p.tx.(audit := Some(p.eval)));
  }

  lemma RollbackKeeps(s: State, c: CallId)
    requires Inv(s) && Enabled(s, Rollback(c))
    ensures Inv(Apply(s, Rollback(c)))
  {
    assert CallOk(s.counters, s.records, s.ledger, c, s.calls[c]);
    QuietKeeps(s, c, Replied(s.calls[c].phase.pending));
  }

  // The steps before the transaction, and on its limits.
  predicate BeforeStoring(a: Action) {
    a.Arrive? || a.Screen? || a.Evaluate? || a.Begin? || a.Upsert? || a.Exceed? || a.CheckFails? || a.FinishLimits?
  }

  lemma EarlyStepKeeps(s: State, a: Action)
    requires Inv(s) && Enabled(s, a) && BeforeStoring(a)
    ensures Inv(Apply(s, a))
  {
    match a
    case Arrive(c, rid) => ArriveKeeps(s, c, rid);
    case Screen(c, fault) => ScreenKeeps(s, c, fault);
    case Evaluate(c, result) => EvaluateKeeps(s, c, result);
    case Begin(c, fault) => BeginKeeps(s, c, fault);
    case Upsert(c, k, amount, max, x) => UpsertKeeps(s, c, k, amount, max, x);
    case Exceed(c) => CheckingKeeps(s, c);
    case CheckFails(c) => CheckingKeeps(s, c);
    case FinishLimits(c) => FinishLimitsKeeps(s, c);
  }

  lemma LateStepKeeps(s: State, a: Action)
    requires Inv(s) && Enabled(s, a) && !BeforeStoring(a)
    ensures Inv(Apply(s, a))
  {
    match a
    case StoreRecord(c, fault) => StoreRecordKeeps(s, c, fault);
    case LookUp(c, fault) => LookUpKeeps(s, c, fault);
    case StoreAudit(c, fault) => StoreAuditKeeps(s, c, fault);
    case CommitTx(c, fault) => if fault { QuietKeeps(s, c, Replied(Failed)); } else { CommitKeeps(s, c); }
    case Rollback(c) => RollbackKeeps(s, c);
    case RecordOutside(c, fault) => RecordOutsideKeeps(s, c, fault);
    case AuditOutside(c, fault) => AuditOutsideKeeps(s, c, fault);
    case Abort(c) => QuietKeeps(s, c, Replied(Failed));
    case Cleanup(now, victims) => CleanupKeeps(s, now, victims);
  }

  lemma StepKeeps(s: State, a: Action)
    requires Inv(s) && Enabled(s, a)
    ensures Inv(Apply(s, a))
  {
    if BeforeStoring(a) { EarlyStepKeeps(s, a); } else { LateStepKeeps(s, a); }
  }

  lemma {:induction false} RunKeeps(s: State, actions: seq<Action>, s': State)
    requires Inv(s) && Runs(s, actions, s')
    ensures Inv(s')
    decreases |actions|
  {
    if actions != [] {
      StepKeeps(s, actions[0]);
      RunKeeps(Apply(s, actions[0]), actions[1..], s');
    }
  }
}
