/**
 * `Validate` itself, as code over the shared server: every database call is one step of the
 * machine, and before each of them the other callers may take any number of steps.
 * Faults, rule decisions and the interference are arbitrary.
 */
module ValidationService {
  import opened Prelude
  import opened ValidationProtocol
  import opened ValidationInvariants
  import opened ValidationTheorems
  import opened ValidationTraces

  // What the limit checker has to do for one applicable limit.
  datatype LimitCheck =
    | Skipped
    | PerTransaction(limit: real)
    | Counted(key: CounterKey, limit: real, expiresAt: Option<int>)

  // The increments an approval owes: one per counted limit, in order, of the full amount.
  function Owed(checks: seq<LimitCheck>, amount: real): seq<Increment> {
    if checks == [] then []
    else
      var last := checks[|checks| - 1];
      Owed(checks[..|checks| - 1], amount) + (if last.Counted? then [Increment(last.key, amount)] else [])
  }

  // No check refuses the amount by itself.
  predicate Affordable(checks: seq<LimitCheck>, amount: real) {
    forall i :: 0 <= i < |checks| && !checks[i].Skipped? ==> amount <= checks[i].limit
  }

  // The answer to an exceeded limit.
  function Denial(rules: Evaluation): Evaluation {
    rules.(decision := Deny, reason := "limit_exceeded")
  }

  datatype StatementResult = Done | Exceeds | Broken

  // The counter statement of a check.
  function Ask(c: CallId, check: LimitCheck, amount: real): Action
    requires check.Counted?
  {
    Upsert(c, check.key, amount, check.limit, check.expiresAt)
  }

  // Since a position of the run: the amount is over the limit by itself, or the counter statement of the call ran
  // where the counter had no room for it.
  ghost predicate Refuses(h: seq<Action>, from: nat, c: CallId, check: LimitCheck, amount: real) {
    match check
    case Skipped => false
    case PerTransaction(limit) => amount > limit
    case Counted(key, limit, _) =>
      amount > limit || exists s: State :: RanIn(h, from, Ask(c, check, amount), s) && Full(s, c, key, amount, limit)
  }

  // The amount is within the limit by itself, and the counter statement ran where the counter had room for it.
  ghost predicate Grants(h: seq<Action>, from: nat, c: CallId, check: LimitCheck, amount: real) {
    match check
    case Skipped => true
    case PerTransaction(limit) => amount <= limit
    case Counted(key, limit, _) =>
      amount <= limit && exists s: State :: RanIn(h, from, Ask(c, check, amount), s) && HasRoom(s, c, key, amount, limit)
  }

  ghost predicate SomeRefuses(h: seq<Action>, from: nat, c: CallId, checks: seq<LimitCheck>, amount: real) {
    exists i :: 0 <= i < |checks| && Refuses(h, from, c, checks[i], amount)
  }

  ghost predicate AllGrant(h: seq<Action>, from: nat, c: CallId, checks: seq<LimitCheck>, amount: real) {
    forall i :: 0 <= i < |checks| ==> Grants(h, from, c, checks[i], amount)
  }

  lemma RefusalStays(h: seq<Action>, from: nat, h': seq<Action>, from': nat, c: CallId, check: LimitCheck, amount: real)
    requires h <= h' && from' <= from
    ensures Refuses(h, from, c, check, amount) ==> Refuses(h', from', c, check, amount)
    ensures Grants(h, from, c, check, amount) ==> Grants(h', from', c, check, amount)
  {
    if check.Counted? && amount <= check.limit {
      forall s | RanIn(h, from, Ask(c, check, amount), s) ensures RanIn(h', from', Ask(c, check, amount), s) {
        RanStays(h, from, h', from', Ask(c, check, amount), s);
      }
    }
  }

  lemma RefusedStays(h: seq<Action>, from: nat, h': seq<Action>, from': nat, c: CallId, checks: seq<LimitCheck>, amount: real)
    requires h <= h' && from' <= from
    ensures SomeRefuses(h, from, c, checks, amount) ==> SomeRefuses(h', from', c, checks, amount)
    ensures AllGrant(h, from, c, checks, amount) ==> AllGrant(h', from', c, checks, amount)
  {
    forall i | 0 <= i < |checks|
      ensures Refuses(h, from, c, checks[i], amount) ==> Refuses(h', from', c, checks[i], amount)
      ensures Grants(h, from, c, checks[i], amount) ==> Grants(h', from', c, checks[i], amount)
    {
      RefusalStays(h, from, h', from', c, checks[i], amount);
    }
  }

  // A call that finished its limits without noting an excess was refused by none of them.
  lemma NoneRefused(h: seq<Action>, s: State, h': seq<Action>, t: State, from: nat, c: CallId, checks: seq<LimitCheck>, amount: real)
    requires Runs(Initial, h, s) && Enabled(s, FinishLimits(c)) && !s.calls[c].phase.exceeded
    requires h + [FinishLimits(c)] <= h' && Runs(Initial, h', t)
    requires 0.0 < amount && Affordable(checks, amount)
    ensures !SomeRefuses(h', from, c, checks, amount)
  {
    RunsExtend(Initial, h, s, FinishLimits(c));
    if i :| 0 <= i < |checks| && Refuses(h', from, c, checks[i], amount) {
      var check := checks[i];
      var seen: State :| RanIn(h', from, Ask(c, check, amount), seen) && Full(seen, c, check.key, amount, check.limit);
      SawBefore(h + [FinishLimits(c)], Apply(s, FinishLimits(c)), h', t, from, Ask(c, check, amount), seen);
      NotTheLast(h, FinishLimits(c), from, Ask(c, check, amount), seen);
      UnspoiledMetNoneFull(h, s, c, check.key, amount, check.limit, check.expiresAt, seen);
    }
  }

  lemma NotTheLast(h: seq<Action>, last: Action, from: nat, a: Action, s: State)
    requires RanIn(h + [last], from, a, s) && a != last
    ensures RanIn(h, 0, a, s)
  {
    var n: nat :| from <= n < |h + [last]| && (h + [last])[n] == a && Runs(Initial, (h + [last])[..n], s);
    assert (h + [last])[..n] == h[..n];
  }

  lemma OneMoreChecked(h: seq<Action>, h': seq<Action>, from: nat, c: CallId, checks: seq<LimitCheck>, i: nat, amount: real)
    requires h <= h' && from <= |h| && i < |checks|
    ensures AllGrant(h, from, c, checks[..i], amount) && Grants(h', |h|, c, checks[i], amount) ==> AllGrant(h', from, c, checks[..i + 1], amount)
    ensures SomeRefuses(h, from, c, checks, amount) || Refuses(h', |h|, c, checks[i], amount) ==> SomeRefuses(h', from, c, checks, amount)
    ensures Owed(checks[..i + 1], amount)
            == Owed(checks[..i], amount) + (if checks[i].Counted? then [Increment(checks[i].key, amount)] else [])
  {
    assert checks[..i + 1][..i] == checks[..i] && checks[..i + 1][i] == checks[i];
    RefusedStays(h, from, h', from, c, checks[..i], amount);
    RefusedStays(h, from, h', from, c, checks, amount);
    RefusalStays(h', |h|, h', from, c, checks[i], amount);
  }

  lemma GrantedAfford(h: seq<Action>, from: nat, c: CallId, checks: seq<LimitCheck>, amount: real)
    requires AllGrant(h, from, c, checks, amount)
    ensures Affordable(checks, amount)
  {
    forall i | 0 <= i < |checks| && !checks[i].Skipped? ensures amount <= checks[i].limit {
      assert Grants(h, from, c, checks[i], amount);
    }
  }

  // From the end of the limit checks on, what was seen of them does not change.
  lemma StillDecided(h: seq<Action>, s: State, h': seq<Action>, t: State, from: nat, c: CallId, checks: seq<LimitCheck>, amount: real,
                     allowed: bool)
    requires Runs(Initial, h, s) && Enabled(s, FinishLimits(c)) && allowed == !s.calls[c].phase.exceeded
    requires h + [FinishLimits(c)] <= h' && Runs(Initial, h', t) && 0.0 < amount
    requires if allowed then AllGrant(h, from, c, checks, amount) else SomeRefuses(h, from, c, checks, amount)
    ensures if allowed then AllGrant(h', from, c, checks, amount) && !SomeRefuses(h', from, c, checks, amount)
            else SomeRefuses(h', from, c, checks, amount)
  {
    RefusedStays(h, from, h', from, c, checks, amount);
    if allowed {
      GrantedAfford(h, from, c, checks, amount);
      NoneRefused(h, s, h', t, from, c, checks, amount);
    }
  }

  // The counters that a list of checks asks for.
  function Keys(checks: seq<LimitCheck>): set<CounterKey> {
    set i | 0 <= i < |checks| && checks[i].Counted? :: checks[i].key
  }

  // A statement of the call would have to wait for another transaction: for its insert or for a row lock.
  predicate MustWait(s: State, c: CallId, rid: RequestId, keys: set<CounterKey>) {
    InsertBlocked(s, c, rid) || exists key :: key in keys && LockedAgainst(s, c, key)
  }

  // Since a position of the run there was such a state.
  ghost predicate HeldUp(h: seq<Action>, from: nat, c: CallId, rid: RequestId, keys: set<CounterKey>) {
    exists n: nat, s: State :: from <= n <= |h| && Runs(Initial, h[..n], s) && MustWait(s, c, rid, keys)
  }

  lemma HeldUpStays(h: seq<Action>, from: nat, h': seq<Action>, from': nat, c: CallId, rid: RequestId,
                    keys: set<CounterKey>, keys': set<CounterKey>)
    requires h <= h' && from' <= from && keys <= keys'
    ensures HeldUp(h, from, c, rid, keys) ==> HeldUp(h', from', c, rid, keys')
  {
    if HeldUp(h, from, c, rid, keys) {
      var n: nat, s: State :| from <= n <= |h| && Runs(Initial, h[..n], s) && MustWait(s, c, rid, keys);
      assert h'[..n] == h[..n] && MustWait(s, c, rid, keys');
    }
  }

  lemma HeldUpNow(h: seq<Action>, s: State, h': seq<Action>, from: nat, c: CallId, rid: RequestId, keys: set<CounterKey>)
    requires Runs(Initial, h, s) && h <= h' && from <= |h| && MustWait(s, c, rid, keys)
    ensures HeldUp(h', from, c, rid, keys)
  {
    assert h'[..|h|] == h;
  }

  class Server {
    var counters: map<CounterKey, Counter>
    var records: map<RequestId, Validation>
    var audits: map<CallId, Evaluation>
    var calls: map<CallId, Call>
    var archived: map<CounterKey, real>
    var ledger: seq<Commit>
    var schedule: seq<seq<Action>>   // what the other callers will do, one script per pause; arbitrary
    var faults: seq<bool>            // which of the own statements will fail, one after another; arbitrary
    ghost var history: seq<Action>

    function Snapshot(): State
      reads this
    {
      State(counters, records, audits, calls, archived, ledger)
    }

    // The server only ever does what the machine allows.
    ghost predicate Valid()
      reads this
    {
      Runs(Initial, history, Snapshot())
    }

    predicate AtPhase(c: CallId, p: Phase)
      reads this
    {
      c in calls && calls[c].phase == p
    }

    // No own statement will fail by itself.
    ghost predicate Faultless()
      reads this`faults
    {
      forall i :: 0 <= i < |faults| ==> !faults[i]
    }

    // What holds between any two statements of a call.
    ghost predicate GoesOn(h: seq<Action>, faultless: bool)
      reads this
    {
      Valid() && h <= history && (faultless ==> Faultless())
    }

    constructor (schedule: seq<seq<Action>>, faults: seq<bool>)
      ensures Valid() && Snapshot() == Initial && this.faults == faults
    {
      this.schedule, this.faults := schedule, faults;
      counters, records, audits, calls, archived, ledger := map[], map[], map[], map[], map[], [];
      history := [];
    }

    // One atomic step: the tables become those of the machine's next state.
    method Step(a: Action)
      requires Valid() && Enabled(Snapshot(), a)
      modifies this
      ensures Valid() && Snapshot() == Apply(old(Snapshot()), a) && history == old(history) + [a] && faults == old(faults)
    {
      RunsExtend(Initial, history, Snapshot(), a);
      var t := Apply(Snapshot(), a);
      counters, records, audits, calls, archived, ledger := t.counters, t.records, t.audits, t.calls, t.archived, t.ledger;
      history := history + [a];
    }

    // Whether the next own statement fails.
    method NextFault() returns (fault: bool)
      modifies this`faults
      ensures old(Faultless()) ==> !fault && Faultless()
    {
      fault := faults != [] && faults[0];
      if faults != [] { faults := faults[1..]; }
    }

    // Any number of steps of other callers, and of cleanup, as the schedule has them.
    method Interfere(c: CallId)
      requires Valid()
      modifies this
      ensures Valid() && old(history) <= history && faults == old(faults)
      ensures c in old(calls) ==> c in calls && calls[c] == old(calls[c])
      ensures c !in old(calls) ==> c !in calls
    {
      var script := if schedule == [] then [] else schedule[0];
      schedule := if schedule == [] then [] else schedule[1..];
      for i := 0 to |script|
        invariant Valid() && old(history) <= history && faults == old(faults)
        invariant c in old(calls) ==> c in calls && calls[c] == old(calls[c])
        invariant c !in old(calls) ==> c !in calls
      {
        var a := script[i];
        if Enabled(Snapshot(), a) && (a.Cleanup? || a.c != c) {
          OthersLeaveAlone(Snapshot(), a, c);
          Step(a);
        }
      }
    }

    // FindByRequestID, before any processing.
    method Screen(c: CallId) returns (found: Option<Validation>, err: bool)
      requires Valid() && AtPhase(c, Received)
      modifies this
      ensures GoesOn(old(history), old(Faultless())) && c in calls && calls[c].requestId == old(calls[c].requestId)
      ensures err ==> AtPhase(c, Replied(Failed)) && !old(Faultless())
      ensures !err && found.Some? ==> AtPhase(c, Replied(Duplicate(ToResponse(found.value))))
      ensures !err && found.None? ==> AtPhase(c, Screened)
      ensures !err && calls[c].requestId in old(records) ==> found == Some(old(records)[calls[c].requestId])
    {
      ghost var h, s := history, Snapshot();
      Interfere(c);
      var rid := calls[c].requestId;
      if rid in s.records { RecordStays(h, s, history, Snapshot(), rid); }
      err := NextFault();
      found := if rid in records then Some(records[rid]) else None;
      Step(Action.Screen(c, err));
    }

    // The statement of UpsertAndIncrementAtomic; a wait for a row lock that is cut short is an error.
    // `seen` is the state in which it ran.
    method UpsertRow(c: CallId, key: CounterKey, amount: real, limit: real, expiresAt: Option<int>)
      returns (r: StatementResult, ghost seen: State)
      requires Valid() && c in calls && calls[c].phase.Checking? && 0.0 < amount <= limit
      modifies this
      ensures GoesOn(old(history), old(Faultless())) && c in calls && calls[c].requestId == old(calls[c].requestId)
      ensures r == Broken ==> calls[c].phase.Unwinding? && calls[c].phase.pending == Failed
      ensures r == Broken && old(Faultless()) ==> HeldUp(history, |old(history)|, c, calls[c].requestId, {key})
      ensures r != Broken ==> StillChecking(c, old(calls[c].phase))
      ensures r != Broken ==> c in seen.calls && seen.calls[c] == old(calls[c]) && (r == Exceeds <==> Full(seen, c, key, amount, limit))
      ensures r != Broken ==> RanIn(history, |old(history)|, Upsert(c, key, amount, limit, expiresAt), seen)
      ensures r == Done ==> calls[c].phase.exceeded == old(calls[c].phase.exceeded)
      ensures r == Done ==> calls[c].phase.tx.increments == old(calls[c].phase.tx.increments) + [Increment(key, amount)]
      ensures r == Exceeds ==> calls[c].phase.exceeded && calls[c].phase.tx.increments == old(calls[c].phase.tx.increments)
    {
      Interfere(c);
      var fault := NextFault();
      seen := Snapshot();
      ghost var before := history;
      if fault || LockedAgainst(Snapshot(), c, key) {
        Step(CheckFails(c));
        if !fault { HeldUpNow(before, seen, history, |old(history)|, c, calls[c].requestId, {key}); }
        return Broken, seen;
      }
      var p := calls[c].phase;
      var (tx, ok) := UpsertTx(counters, p.tx, key, amount, limit, expiresAt);
      Step(Upsert(c, key, amount, limit, expiresAt));
      assert calls[c].phase == Checking(p.eval, tx, p.exceeded || !ok);
      assert history[..|before|] == before && history[|before|] == Upsert(c, key, amount, limit, expiresAt);
      r := if ok then Done else Exceeds;
    }

    ghost predicate StillChecking(c: CallId, was: Phase)
      requires was.Checking?
      reads this
    {
      c in calls && calls[c].phase.Checking? && calls[c].phase.eval == was.eval && (was.exceeded ==> calls[c].phase.exceeded)
    }

    // One call of UpsertAndIncrementAtomic: zero is a no-op, a negative amount an error, and an amount over the
    // limit is refused, all of it before any SQL.
    method UpsertAndIncrement(c: CallId, key: CounterKey, amount: real, limit: real, expiresAt: Option<int>) returns (r: StatementResult)
      requires Valid() && c in calls && calls[c].phase.Checking?
      modifies this
      ensures GoesOn(old(history), old(Faultless())) && c in calls && calls[c].requestId == old(calls[c].requestId)
      ensures amount == 0.0 ==> r == Done && Snapshot() == old(Snapshot())
      ensures amount < 0.0 ==> r == Broken
      ensures r == Broken ==> calls[c].phase.Unwinding? && calls[c].phase.pending == Failed
      ensures r == Broken && old(Faultless()) ==>
                amount < 0.0 || (amount <= limit && HeldUp(history, |old(history)|, c, calls[c].requestId, {key}))
      ensures r != Broken ==> StillChecking(c, old(calls[c].phase))
      ensures r == Done ==> calls[c].phase.exceeded == old(calls[c].phase.exceeded)
      ensures r == Done && amount != 0.0 ==>
                calls[c].phase.tx.increments == old(calls[c].phase.tx.increments) + [Increment(key, amount)]
                && 0.0 < amount && Grants(history, |old(history)|, c, Counted(key, limit, expiresAt), amount)
      ensures r == Exceeds ==> calls[c].phase.exceeded && calls[c].phase.tx.increments == old(calls[c].phase.tx.increments)
                               && Refuses(history, |old(history)|, c, Counted(key, limit, expiresAt), amount)
      ensures amount > limit && amount > 0.0 ==> r == Exceeds
    {
      if amount == 0.0 { return Done; }
      if amount < 0.0 {
        Step(CheckFails(c));
        return Broken;
      }
      if amount > limit {
        Step(Exceed(c));
        return Exceeds;
      }
      ghost var seen;
      r, seen := UpsertRow(c, key, amount, limit, expiresAt);
      assert r == Done ==> HasRoom(seen, c, key, amount, limit);
      assert Ask(c, Counted(key, limit, expiresAt), amount) == Upsert(c, key, amount, limit, expiresAt);
    }

    // processLimitAtomic on one limit: its own maximum first, then the counter. An amount over the maximum of
    // a counted limit still has the usage read for the answer, and that read can fail.
    method ProcessLimit(c: CallId, check: LimitCheck, amount: real) returns (r: StatementResult)
      requires Valid() && c in calls && calls[c].phase.Checking? && 0.0 < amount
      modifies this
      ensures GoesOn(old(history), old(Faultless())) && c in calls && calls[c].requestId == old(calls[c].requestId)
      ensures r == Broken ==> calls[c].phase.Unwinding? && calls[c].phase.pending == Failed
      ensures r == Broken && old(Faultless()) ==>
                check.Counted? && HeldUp(history, |old(history)|, c, calls[c].requestId, {check.key})
      ensures r != Broken ==> StillChecking(c, old(calls[c].phase))
      ensures r == Done ==> calls[c].phase.exceeded == old(calls[c].phase.exceeded)
                            && Grants(history, |old(history)|, c, check, amount)
      ensures r == Done ==> calls[c].phase.tx.increments
                            == old(calls[c].phase.tx.increments) + (if check.Counted? then [Increment(check.key, amount)] else [])
      ensures r == Exceeds ==> calls[c].phase.exceeded && Refuses(history, |old(history)|, c, check, amount)
    {
      if check.Skipped? { return Done; }
      if amount > check.limit {
        if check.Counted? {
          Interfere(c);
          var fault := NextFault();
          if fault {
            Step(CheckFails(c));
            return Broken;
          }
        }
        Step(Exceed(c));
        return Exceeds;
      }
      if check.PerTransaction? { return Done; }
      r := UpsertAndIncrement(c, check.key, amount, check.limit, check.expiresAt);
    }

    // Halfway through the limits of a call that began its checks at position `from`.
    ghost predicate Halfway(c: CallId, was: Call, from: nat, checks: seq<LimitCheck>, i: nat, amount: real, allowed: bool)
      requires i <= |checks|
      reads this
    {
      c in calls && calls[c].requestId == was.requestId
      && calls[c].phase.Checking? && was.phase.Checking? && calls[c].phase.eval == was.phase.eval
      && allowed == !calls[c].phase.exceeded
      && (if allowed then AllGrant(history, from, c, checks[..i], amount) && calls[c].phase.tx.increments == Owed(checks[..i], amount)
          else SomeRefuses(history, from, c, checks, amount))
    }

    // checkLimitsInternal: go through the applicable limits, noting but not stopping at an excess.
    method CheckLimits(c: CallId, ghost from: nat, checks: seq<LimitCheck>, amount: real) returns (allowed: bool, err: bool)
      requires Valid() && from <= |history| && c in calls && calls[c].phase.Checking?
      requires calls[c].phase.tx == EmptyTx && !calls[c].phase.exceeded
      modifies this
      ensures GoesOn(old(history), old(Faultless())) && c in calls && calls[c].requestId == old(calls[c].requestId)
      ensures amount <= 0.0 ==> err
      ensures err ==> calls[c].phase.Unwinding? && calls[c].phase.pending == Failed
      ensures err && old(Faultless()) ==> amount <= 0.0 || HeldUp(history, from, c, calls[c].requestId, Keys(checks))
      ensures !err ==> Halfway(c, old(calls[c]), from, checks, |checks|, amount, allowed)
    {
      allowed := true;
      err := NextFault();
      if err || amount <= 0.0 {
        Step(CheckFails(c));
        return false, true;
      }
      for i := 0 to |checks|
        invariant GoesOn(old(history), old(Faultless())) && Halfway(c, old(calls[c]), from, checks, i, amount, allowed)
      {
        ghost var before := history;
        var r := ProcessLimit(c, checks[i], amount);
        if r == Broken {
          if checks[i].Counted? {
            assert checks[i].key in Keys(checks);
            HeldUpStays(history, |before|, history, from, c, calls[c].requestId, {checks[i].key}, Keys(checks));
          }
          return false, true;
        }
        OneMoreChecked(before, history, from, c, checks, i, amount);
        if r == Exceeds { allowed := false; }
      }
      assert checks[..|checks|] == checks;
    }

    // rollbackAndPersist and the DENY-by-rule path: both inserts are best effort.
    method PersistOutside(c: CallId) returns (out: Outcome)
      requires Valid() && c in calls && calls[c].phase.RecordingOutside?
      modifies this
      ensures GoesOn(old(history), old(Faultless()))
      ensures c in calls && calls[c] == Call(old(calls[c].requestId), Replied(out))
      ensures out == Fresh(Response(c, old(calls[c].requestId), old(calls[c].phase.eval)))
      ensures old(Faultless()) ==> Kept(c, |old(history)|, old(calls[c].requestId), old(calls[c].phase.eval), {})
    {
      RecordOnly(c);
      ghost var h, s := history, Snapshot();
      out := AuditOnly(c);
      if old(calls[c].requestId) in s.records { RecordStays(h, s, history, Snapshot(), old(calls[c].requestId)); }
      HeldUpStays(h, |old(history)|, history, |old(history)|, c, old(calls[c].requestId), {}, {});
    }

    // The audit event of the answer is stored, and a record of the request, unless its insert was held up.
    ghost predicate Kept(c: CallId, from: nat, rid: RequestId, answer: Evaluation, keys: set<CounterKey>)
      reads this
    {
      c in audits && audits[c] == answer && (rid in records || HeldUp(history, from, c, rid, keys))
    }

    method RecordOnly(c: CallId)
      requires Valid() && c in calls && calls[c].phase.RecordingOutside?
      modifies this
      ensures GoesOn(old(history), old(Faultless()))
      ensures c in calls && calls[c] == Call(old(calls[c].requestId), AuditingOutside(old(calls[c].phase.eval)))
      ensures old(Faultless()) ==> calls[c].requestId in records || HeldUp(history, |old(history)|, c, calls[c].requestId, {})
    {
      Interfere(c);
      var fault := NextFault();
      ghost var before, s := history, Snapshot();
      var rid := calls[c].requestId;
      var blocked := InsertBlocked(Snapshot(), c, rid);
      Step(RecordOutside(c, fault || blocked));
      if blocked { HeldUpNow(before, s, history, |old(history)|, c, rid, {}); }
    }

    method AuditOnly(c: CallId) returns (out: Outcome)
      requires Valid() && c in calls && calls[c].phase.AuditingOutside?
      modifies this
      ensures GoesOn(old(history), old(Faultless()))
      ensures c in calls && calls[c] == Call(old(calls[c].requestId), Replied(out))
      ensures out == Fresh(Response(c, old(calls[c].requestId), old(calls[c].phase.eval)))
      ensures old(Faultless()) ==> c in audits && audits[c] == old(calls[c].phase.eval)
    {
      Interfere(c);
      var fault := NextFault();
      out := Fresh(Response(c, calls[c].requestId, calls[c].phase.eval));
      NotAuditedYet(Snapshot(), c);
      Step(AuditOutside(c, fault));
    }

    // The deferred rollback of every early return.
    method Unwind(c: CallId) returns (out: Outcome)
      requires Valid() && c in calls && calls[c].phase.Unwinding?
      modifies this
      ensures GoesOn(old(history), old(Faultless()))
      ensures out == old(calls[c].phase.pending) && c in calls && calls[c] == Call(old(calls[c].requestId), Replied(out))
    {
      Interfere(c);
      out := calls[c].phase.pending;
      Step(Rollback(c));
    }

    // Insert the record inside the transaction; a unique violation turns into a lookup of the winner.
    method PersistRecord(c: CallId) returns (stored: bool)
      requires Valid() && c in calls && calls[c].phase.Storing?
      modifies this
      ensures GoesOn(old(history), old(Faultless())) && c in calls && calls[c].requestId == old(calls[c].requestId)
      ensures !stored ==> calls[c].phase.Unwinding?
      ensures !stored && calls[c].phase.pending.Failed? && old(Faultless()) ==> HeldUp(history, |old(history)|, c, calls[c].requestId, {})
      ensures stored ==> calls[c].phase.Auditing? && calls[c].phase.eval == old(calls[c].phase.eval)
      ensures stored ==> calls[c].phase.tx.increments == old(calls[c].phase.tx.increments)
    {
      Interfere(c);
      var fault := NextFault();
      ghost var before, s := history, Snapshot();
      var rid := calls[c].requestId;
      var blocked := InsertBlocked(Snapshot(), c, rid);
      Step(StoreRecord(c, fault || blocked));
      if blocked { HeldUpNow(before, s, history, |old(history)|, c, rid, {}); }
      stored := calls[c].phase.Auditing?;
      if calls[c].phase.Conflicting? { LookUpWinner(c); }
    }

    // The record that was in the way is still there.
    method LookUpWinner(c: CallId)
      requires Valid() && c in calls && calls[c].phase.Conflicting? && calls[c].requestId in records
      modifies this
      ensures GoesOn(old(history), old(Faultless())) && c in calls && calls[c].requestId == old(calls[c].requestId)
      ensures calls[c].phase.Unwinding? && (old(Faultless()) ==> calls[c].phase.pending.Duplicate?)
    {
      ghost var h, s := history, Snapshot();
      Interfere(c);
      RecordStays(h, s, history, Snapshot(), calls[c].requestId);
      var fault := NextFault();
      Step(LookUp(c, fault));
    }

    method PersistAudit(c: CallId) returns (stored: bool)
      requires Valid() && c in calls && calls[c].phase.Auditing?
      modifies this
      ensures GoesOn(old(history), old(Faultless())) && c in calls && calls[c].requestId == old(calls[c].requestId)
      ensures !stored ==> calls[c].phase.Unwinding? && !old(Faultless())
      ensures stored ==> calls[c].phase.Committing? && calls[c].phase.eval == old(calls[c].phase.eval)
      ensures stored ==> calls[c].phase.tx.increments == old(calls[c].phase.tx.increments)
    {
      Interfere(c);
      var fault := NextFault();
      Step(StoreAudit(c, fault));
      stored := !fault;
    }

    method Commit(c: CallId) returns (out: Outcome)
      requires Valid() && c in calls && calls[c].phase.Committing?
      modifies this
      ensures GoesOn(old(history), old(Faultless()))
      ensures c in calls && calls[c] == Call(old(calls[c].requestId), Replied(out)) && !out.Duplicate?
      ensures out.Failed? ==> !old(Faultless())
      ensures out.Fresh? ==> out == Fresh(Response(c, old(calls[c].requestId), old(calls[c].phase.eval)))
      ensures out.Fresh? ==> JustCommitted(c, old(calls[c].requestId), old(calls[c].phase.eval), old(calls[c].phase.tx.increments))
    {
      Interfere(c);
      var fault := NextFault();
      out := if fault then Failed else Fresh(Response(c, calls[c].requestId, calls[c].phase.eval));
      Step(CommitTx(c, fault));
    }

    ghost predicate JustCommitted(c: CallId, rid: RequestId, eval: Evaluation, increments: seq<Increment>)
      reads this
    {
      |ledger| > 0 && ledger[|ledger| - 1] == ValidationProtocol.Commit(c, rid, eval, increments)
    }

    // Record, audit event and COMMIT; every early return is followed by the deferred rollback.
    method PersistAndCommit(c: CallId) returns (out: Outcome)
      requires Valid() && c in calls && calls[c].phase.Storing?
      modifies this
      ensures GoesOn(old(history), old(Faultless()))
      ensures c in calls && calls[c] == Call(old(calls[c].requestId), Replied(out))
      ensures out.Failed? && old(Faultless()) ==> HeldUp(history, |old(history)|, c, calls[c].requestId, {})
      ensures out.Fresh? ==> out == Fresh(Response(c, old(calls[c].requestId), old(calls[c].phase.eval)))
      ensures out.Fresh? ==> JustCommitted(c, old(calls[c].requestId), old(calls[c].phase.eval), old(calls[c].phase.tx.increments))
    {
      var stored := PersistRecord(c);
      if stored {
        stored := PersistAudit(c);
        if stored {
          out := Commit(c);
          return;
        }
      }
      DuplicateOrFailed(Snapshot(), c);
      ghost var h := history;
      out := Unwind(c);
      HeldUpStays(h, |old(history)|, history, |old(history)|, c, calls[c].requestId, {}, {});
    }

    // What a call whose rules did not say DENY answers, by what it saw since a position of the run: its limits
    // decide between the rules' answer and the denial, and an approval has committed exactly one increment of
    // the full amount per counted limit.
    ghost predicate Decided(c: CallId, from: nat, rid: RequestId, rules: Evaluation, checks: seq<LimitCheck>, amount: real, answer: Evaluation)
      reads this
    {
      0.0 < amount
      && (answer == Denial(rules) || answer == rules)
      && (answer == rules <==> !SomeRefuses(history, from, c, checks, amount))
      && (answer == rules ==> AllGrant(history, from, c, checks, amount))
      && (answer.decision == Allow ==>
            exists i :: 0 <= i < |ledger| && ledger[i] == ValidationProtocol.Commit(c, rid, rules, Owed(checks, amount)))
    }

    // How a call ends whose rules did not say DENY.
    ghost predicate Ends(c: CallId, from: nat, rid: RequestId, rules: Evaluation, checks: seq<LimitCheck>, amount: real,
                         out: Outcome, faultless: bool)
      reads this
    {
      c in calls && calls[c] == Call(rid, Replied(out))
      && (out.Fresh? ==> out.response.validationId == c && out.response.requestId == rid)
      && (out.Fresh? ==> Decided(c, from, rid, rules, checks, amount, out.response.result))
      && (out.Fresh? && faultless ==> Kept(c, from, rid, out.response.result, Keys(checks)))
      && (out.Failed? && faultless ==> amount <= 0.0 || HeldUp(history, from, c, rid, Keys(checks)))
    }

    // The whole call. `rules` is what the evaluator answers (None: an error or a nil result).
    method Validate(c: CallId, rid: RequestId, rules: Option<Evaluation>, checks: seq<LimitCheck>, amount: real) returns (out: Outcome)
      requires Valid() && c !in calls
      modifies this
      ensures GoesOn(old(history), old(Faultless()))
      ensures c in calls && calls[c] == Call(rid, Replied(out))
      // A request that was stored before is answered from the store, unless a statement fails.
      ensures rid in old(records) ==> if out.Failed? then !old(Faultless()) else out == Duplicate(ToResponse(old(records)[rid]))
      ensures out.Duplicate? ==> IsStored(records, rid, out.response)
      // A fresh answer: the rules' DENY, or what rules and limits decide.
      ensures out.Fresh? ==> rules.Some? && out.response.validationId == c && out.response.requestId == rid
      ensures out.Fresh? && rules.value.decision == Deny ==> out.response.result == rules.value
      ensures out.Fresh? && rules.value.decision != Deny ==>
                Decided(c, |old(history)|, rid, rules.value, checks, amount, out.response.result)
      ensures (exists i :: 0 <= i < |ledger| && ledger[i].call == c) ==> out.Fresh? && out.response.result.decision == Allow
      // Unless a statement fails, the answer is stored, and the only errors are the rules', the amount's and cut waits.
      ensures out.Fresh? && old(Faultless()) ==> Kept(c, |old(history)|, rid, out.response.result, Keys(checks))
      ensures out.Failed? && old(Faultless()) ==>
                rules.None? || (rules.value.decision != Deny && (amount <= 0.0 || HeldUp(history, |old(history)|, c, rid, Keys(checks))))
    {
      ghost var h, s, from := history, Snapshot(), |history|;
      Interfere(c);
      if rid in s.records { RecordStays(h, s, history, Snapshot(), rid); }
      Step(Arrive(c, rid));
      out := ValidateArrived(c, from, rid, rules, checks, amount);
      ApprovalIsCommit(Snapshot(), c);
      if out.Duplicate? { DuplicateGetsStored(Snapshot(), c); }
    }

    method ValidateArrived(c: CallId, ghost from: nat, rid: RequestId, rules: Option<Evaluation>, checks: seq<LimitCheck>, amount: real)
      returns (out: Outcome)
      requires Valid() && from <= |history| && c in calls && calls[c] == Call(rid, Received)
      modifies this
      ensures GoesOn(old(history), old(Faultless()))
      ensures c in calls && calls[c] == Call(rid, Replied(out))
      ensures rid in old(records) ==> if out.Failed? then !old(Faultless()) else out == Duplicate(ToResponse(old(records)[rid]))
      ensures out.Fresh? ==> rules.Some? && out.response.validationId == c && out.response.requestId == rid
      ensures out.Fresh? && rules.value.decision == Deny ==> out.response.result == rules.value
      ensures out.Fresh? && rules.value.decision != Deny ==> Decided(c, from, rid, rules.value, checks, amount, out.response.result)
      ensures out.Fresh? && old(Faultless()) ==> Kept(c, from, rid, out.response.result, Keys(checks))
      ensures out.Failed? && old(Faultless()) ==>
                rules.None? || (rules.value.decision != Deny && (amount <= 0.0 || HeldUp(history, from, c, rid, Keys(checks))))
    {
      // Step 0: a request seen before gets the stored answer.
      var existing, err := Screen(c);
      if err { return Failed; }
      if existing.Some? { return Duplicate(ToResponse(existing.value)); }
      // Step 1: rules, outside any transaction.
      Interfere(c);
      Step(Evaluate(c, rules));
      if rules.None? { return Failed; }
      if rules.value.decision == Deny {
        ghost var h := history;
        out := PersistOutside(c);
        HeldUpStays(history, |h|, history, from, c, rid, {}, Keys(checks));
      } else {
        // Steps 2 to 5, in the transaction.
        out := ValidateEvaluated(c, from, checks, amount);
      }
    }

    method ValidateEvaluated(c: CallId, ghost from: nat, checks: seq<LimitCheck>, amount: real) returns (out: Outcome)
      requires Valid() && from <= |history| && c in calls && calls[c].phase.Evaluated? && calls[c].phase.eval.decision != Deny
      modifies this
      ensures GoesOn(old(history), old(Faultless()))
      ensures Ends(c, from, old(calls[c].requestId), old(calls[c].phase.eval), checks, amount, out, old(Faultless()))
    {
      // Step 2: the transaction.
      Interfere(c);
      var fault := NextFault();
      Step(Begin(c, fault));
      if fault { return Failed; }
      out := CheckAndConclude(c, from, checks, amount);
    }

    // Step 3: limits, inside it.
    method CheckAndConclude(c: CallId, ghost from: nat, checks: seq<LimitCheck>, amount: real) returns (out: Outcome)
      requires Valid() && from <= |history| && c in calls && calls[c].phase.Checking? && calls[c].phase.eval.decision != Deny
      requires calls[c].phase.tx == EmptyTx && !calls[c].phase.exceeded
      modifies this
      ensures GoesOn(old(history), old(Faultless()))
      ensures Ends(c, from, old(calls[c].requestId), old(calls[c].phase.eval), checks, amount, out, old(Faultless()))
    {
      var allowed, checkErr := CheckLimits(c, from, checks, amount);
      if checkErr {
        ghost var h := history;
        out := Unwind(c);
        HeldUpStays(h, from, history, from, c, calls[c].requestId, Keys(checks), Keys(checks));
      } else {
        out := Conclude(c, from, checks, amount, allowed);
      }
    }

    // Step 4 and 5: an excess or a REVIEW rolls back; an ALLOW goes on to commit.
    method Conclude(c: CallId, ghost from: nat, checks: seq<LimitCheck>, amount: real, allowed: bool) returns (out: Outcome)
      requires Valid() && from <= |history| && c in calls && calls[c].phase.Checking? && calls[c].phase.eval.decision != Deny
      requires 0.0 < amount && Halfway(c, calls[c], from, checks, |checks|, amount, allowed)
      modifies this
      ensures GoesOn(old(history), old(Faultless()))
      ensures Ends(c, from, old(calls[c].requestId), old(calls[c].phase.eval), checks, amount, out, old(Faultless()))
    {
      ghost var h, s := history, Snapshot();
      assert checks[..|checks|] == checks;
      Step(FinishLimits(c));
      ghost var h1 := history;
      if calls[c].phase.RecordingOutside? {
        out := PersistOutside(c);
      } else {
        out := PersistAndCommit(c);
        ApprovalIsCommit(Snapshot(), c);
        assert out.Fresh? ==> ledger[|ledger| - 1] == ValidationProtocol.Commit(c, calls[c].requestId, s.calls[c].phase.eval, Owed(checks, amount));
      }
      HeldUpStays(history, |h1|, history, from, c, calls[c].requestId, {}, Keys(checks));
      StillDecided(h, s, history, Snapshot(), from, c, checks, amount, allowed);
    }
  }

  // What an unwinding call is about to reply is never an approval.
  lemma DuplicateOrFailed(s: State, c: CallId)
    requires Reachable(s) && c in s.calls && s.calls[c].phase.Unwinding?
    ensures !s.calls[c].phase.pending.Fresh?
  {
    ReachableInv(s);
    assert CallOk(s.counters, s.records, s.ledger, c, s.calls[c]);
  }
}
