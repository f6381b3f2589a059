/**
 * One call seen in a run: what its own statements saw, why they were held up, and what stays true of it
 * whatever the others do.
 */
module ValidationTraces {
  import opened Prelude
  import opened ValidationProtocol
  import opened ValidationInvariants
  import opened ValidationTheorems

  /* ---- runs, cut in two ---- */

  lemma {:induction false} RunSplits(s: State, actions: seq<Action>, t: State, n: nat) returns (m: State)
    requires Runs(s, actions, t) && n <= |actions|
    ensures Runs(s, actions[..n], m) && Runs(m, actions[n..], t)
    decreases n
  {
    if n == 0 {
      m := s;
      assert actions[..0] == [] && actions[0..] == actions;
    } else {
      m := RunSplits(Apply(s, actions[0]), actions[1..], t, n - 1);
      assert actions[..n][1..] == actions[1..][..n - 1];
      assert actions[1..][n - 1..] == actions[n..];
    }
  }

  lemma {:induction false} RunsOnce(s: State, actions: seq<Action>, t: State, u: State)
    requires Runs(s, actions, t) && Runs(s, actions, u)
    ensures t == u
    decreases |actions|
  {
    if actions != [] { RunsOnce(Apply(s, actions[0]), actions[1..], t, u); }
  }

  // The rest of a run, from a state on its way.
  lemma RunRest(h: seq<Action>, s: State, h': seq<Action>, t: State)
    requires Runs(Initial, h, s) && h <= h' && Runs(Initial, h', t)
    ensures Runs(s, h'[|h|..], t)
  {
    var m := RunSplits(Initial, h', t, |h|);
    assert h'[..|h|] == h;
    RunsOnce(Initial, h, s, m);
  }

  /* ---- others leave a call alone ---- */

  predicate LeavesAlone(s: State, t: State, c: CallId) {
    (c in s.calls <==> c in t.calls) && (c in s.calls ==> t.calls[c] == s.calls[c])
  }

  predicate Early(a: Action) {
    a.Arrive? || a.Screen? || a.Evaluate? || a.Begin? || a.Upsert?
  }

  predicate Storing(a: Action) {
    a.StoreRecord? || a.LookUp? || a.StoreAudit?
  }

  predicate Checking(a: Action) {
    a.Exceed? || a.CheckFails? || a.FinishLimits?
  }

  // A step of anyone else leaves a call where it is.
  lemma OthersLeaveAlone(s: State, a: Action, c: CallId)
    requires Enabled(s, a) && (a.Cleanup? || a.c != c)
    ensures LeavesAlone(s, Apply(s, a), c)
  {
    if Early(a) { EarlyLeavesAlone(s, a, c); }
    else if Checking(a) { CheckingLeavesAlone(s, a, c); }
    else if Storing(a) { StoringLeavesAlone(s, a.c, c); }
    else { LastLeavesAlone(s, a, c); }
  }

  lemma EarlyLeavesAlone(s: State, a: Action, c: CallId)
    requires Enabled(s, a) && Early(a) && a.c != c
    ensures LeavesAlone(s, Apply(s, a), c)
  {
  }

  lemma CheckingLeavesAlone(s: State, a: Action, c: CallId)
    requires Enabled(s, a) && Checking(a) && a.c != c
    ensures LeavesAlone(s, Apply(s, a), c)
  {
  }

  lemma StoringLeavesAlone(s: State, d: CallId, c: CallId)
    requires d in s.calls && d != c
    ensures s.calls[d].phase.Storing? ==> forall fault :: LeavesAlone(s, DoStoreRecord(s, d, fault), c)
    ensures s.calls[d].phase.Conflicting? ==> forall fault :: LeavesAlone(s, DoLookUp(s, d, fault), c)
    ensures s.calls[d].phase.Auditing? ==> forall fault :: LeavesAlone(s, DoStoreAudit(s, d, fault), c)
  {
  }

  lemma LastLeavesAlone(s: State, a: Action, c: CallId)
    requires Enabled(s, a) && (a.Cleanup? || a.c != c) && !Early(a) && !Checking(a) && !Storing(a)
    ensures LeavesAlone(s, Apply(s, a), c)
  {
  }

  /* ---- limits are checked once ---- */

  // A call that is past its limits.
  predicate Beyond(p: Phase) {
    !p.Received? && !p.Screened? && !p.Evaluated? && !p.Checking?
  }

  // A call that will not be approved: it has noted an excess, or it is past its limits.
  predicate Spoiled(p: Phase) {
    Beyond(p) || (p.Checking? && p.exceeded)
  }

  lemma OwnCheckingStep(s: State, a: Action)
    requires Enabled(s, a) && !a.Cleanup? && a.c in s.calls && s.calls[a.c].phase.Checking? && s.calls[a.c].phase.exceeded
    ensures a.c in Apply(s, a).calls && Spoiled(Apply(s, a).calls[a.c].phase)
  {
  }

  lemma OwnStoringStep(s: State, a: Action)
    requires Enabled(s, a) && Storing(a)
    ensures a.c in Apply(s, a).calls && Beyond(Apply(s, a).calls[a.c].phase)
  {
  }

  lemma OwnLastStep(s: State, a: Action)
    requires Enabled(s, a) && !a.Cleanup? && !Early(a) && !Checking(a) && !Storing(a)
    ensures a.c in Apply(s, a).calls && Beyond(Apply(s, a).calls[a.c].phase)
  {
  }

  // Nobody comes back from there.
  lemma StaysPast(s: State, a: Action, c: CallId)
    requires Enabled(s, a) && c in s.calls
    ensures c in Apply(s, a).calls
    ensures Beyond(s.calls[c].phase) ==> Beyond(Apply(s, a).calls[c].phase)
    ensures Spoiled(s.calls[c].phase) ==> Spoiled(Apply(s, a).calls[c].phase)
  {
    if a.Cleanup? || a.c != c {
      OthersLeaveAlone(s, a, c);
    } else if s.calls[c].phase.Checking? {
      StaysKnown(s, a);
      if s.calls[c].phase.exceeded { OwnCheckingStep(s, a); }
    } else if Storing(a) {
      OwnStoringStep(s, a);
    } else if !Early(a) && !Checking(a) {
      OwnLastStep(s, a);
    } else {
      StaysKnown(s, a);
    }
  }

  lemma StaysKnown(s: State, a: Action)
    requires Enabled(s, a) && !a.Cleanup? && !Storing(a)
    ensures a.c in Apply(s, a).calls
  {
  }

  lemma {:induction false} RunStaysPast(s: State, actions: seq<Action>, t: State, c: CallId)
    requires Runs(s, actions, t) && c in s.calls
    ensures c in t.calls
    ensures Beyond(s.calls[c].phase) ==> Beyond(t.calls[c].phase)
    ensures Spoiled(s.calls[c].phase) ==> Spoiled(t.calls[c].phase)
    decreases |actions|
  {
    if actions != [] {
      StaysPast(s, actions[0], c);
      RunStaysPast(Apply(s, actions[0]), actions[1..], t, c);
    }
  }

  /* ---- what the statements of a call saw ---- */

  // An action that was taken at or after a position of the run, in state s.
  ghost predicate RanIn(h: seq<Action>, from: nat, a: Action, s: State) {
    exists n: nat :: from <= n < |h| && h[n] == a && Runs(Initial, h[..n], s)
  }

  lemma RanStays(h: seq<Action>, from: nat, h': seq<Action>, from': nat, a: Action, s: State)
    requires h <= h' && from' <= from && RanIn(h, from, a, s)
    ensures RanIn(h', from', a, s)
  {
    var n: nat :| from <= n < |h| && h[n] == a && Runs(Initial, h[..n], s);
    assert h'[..n] == h[..n];
  }

  // A counter, as the open transaction of a call sees it, that has no room for an amount.
  predicate Full(s: State, c: CallId, key: CounterKey, amount: real, limit: real) {
    c in s.calls && s.calls[c].phase.Checking? && Usage(s.counters + s.calls[c].phase.tx.counters, key) + amount > limit
  }

  predicate HasRoom(s: State, c: CallId, key: CounterKey, amount: real, limit: real) {
    c in s.calls && s.calls[c].phase.Checking? && Usage(s.counters + s.calls[c].phase.tx.counters, key) + amount <= limit
  }

  lemma FullSpoils(s: State, c: CallId, key: CounterKey, amount: real, limit: real, expiresAt: Option<int>)
    requires Enabled(s, Upsert(c, key, amount, limit, expiresAt)) && 0.0 < amount <= limit && Full(s, c, key, amount, limit)
    ensures var t := Apply(s, Upsert(c, key, amount, limit, expiresAt)); c in t.calls && Spoiled(t.calls[c].phase)
  {
  }

  // A call that has noted no excess has met no full counter.
  lemma UnspoiledMetNoneFull(h: seq<Action>, t: State, c: CallId, key: CounterKey, amount: real, limit: real, expiresAt: Option<int>, s: State)
    requires Runs(Initial, h, t) && c in t.calls && !Spoiled(t.calls[c].phase)
    requires RanIn(h, 0, Upsert(c, key, amount, limit, expiresAt), s) && 0.0 < amount <= limit
    ensures !Full(s, c, key, amount, limit)
  {
    var a := Upsert(c, key, amount, limit, expiresAt);
    var n: nat :| 0 <= n < |h| && h[n] == a && Runs(Initial, h[..n], s);
    RunRest(h[..n], s, h, t);
    assert h[n..][0] == a;
    if Full(s, c, key, amount, limit) {
      FullSpoils(s, c, key, amount, limit, expiresAt);
      RunStaysPast(Apply(s, a), h[n..][1..], t, c);
    }
  }

  // A call past its limits runs no counter statement any more: what it saw of the counters, it saw before.
  lemma SawBefore(h: seq<Action>, s: State, h': seq<Action>, t: State, from: nat, a: Action, seen: State)
    requires Runs(Initial, h, s) && h <= h' && Runs(Initial, h', t)
    requires a.Upsert? && a.c in s.calls && Beyond(s.calls[a.c].phase) && RanIn(h', from, a, seen)
    ensures RanIn(h, from, a, seen)
  {
    var n: nat :| from <= n < |h'| && h'[n] == a && Runs(Initial, h'[..n], seen);
    if n < |h| {
      assert h[..n] == h'[..n];
    } else {
      RunRest(h'[..n], seen, h', t);
      assert h'[n..][0] == a;
      assert h <= h'[..n];
      RunRest(h, s, h'[..n], seen);
      RunStaysPast(s, h'[..n][|h|..], seen, a.c);
      assert false;
    }
  }

  /* ---- what stays ---- */

  // A stored record is there for good.
  lemma RecordStays(h: seq<Action>, s: State, h': seq<Action>, t: State, rid: RequestId)
    requires Runs(Initial, h, s) && h <= h' && Runs(Initial, h', t) && rid in s.records
    ensures rid in t.records && t.records[rid] == s.records[rid]
  {
    RunRest(h, s, h', t);
    ReachableInv(s);
    StoredIff(s, h'[|h|..], t, rid, s.records[rid]);
  }

  // The audit event of a call, if there is one.
  function AuditOf(s: State, c: CallId): Option<Evaluation> {
    if c in s.audits then Some(s.audits[c]) else None
  }

  lemma OutsideLeavesAudit(s: State, d: CallId, fault: bool, c: CallId)
    requires d in s.calls && d != c
    ensures s.calls[d].phase.RecordingOutside? ==> AuditOf(DoRecordOutside(s, d, fault), c) == AuditOf(s, c)
    ensures s.calls[d].phase.AuditingOutside? ==> AuditOf(DoAuditOutside(s, d, fault), c) == AuditOf(s, c)
    ensures s.calls[d].phase.Committing? ==> AuditOf(DoCommit(s, d, fault), c) == AuditOf(s, c)
  {
  }

  // Only a call itself writes its audit event, and only before it has replied.
  lemma RepliedAuditStays(s: State, a: Action, c: CallId)
    requires Enabled(s, a) && c in s.calls && s.calls[c].phase.Replied?
    ensures c in Apply(s, a).calls && Apply(s, a).calls[c] == s.calls[c] && AuditOf(Apply(s, a), c) == AuditOf(s, c)
  {
    if a.CommitTx? || a.RecordOutside? || a.AuditOutside? {
      OthersLeaveAlone(s, a, c);
      OutsideLeavesAudit(s, a.c, a.fault, c);
    } else {
      OthersLeaveAlone(s, a, c);
      if !Writes(a) { var p := OtherMoves(s, a); }
    }
  }

  lemma {:induction false} RepliedAuditStaysInRun(s: State, actions: seq<Action>, t: State, c: CallId)
    requires Runs(s, actions, t) && c in s.calls && s.calls[c].phase.Replied?
    ensures c in t.calls && t.calls[c] == s.calls[c] && AuditOf(t, c) == AuditOf(s, c)
    decreases |actions|
  {
    if actions != [] {
      RepliedAuditStays(s, actions[0], c);
      RepliedAuditStaysInRun(Apply(s, actions[0]), actions[1..], t, c);
    }
  }

  lemma NotAuditedYet(s: State, c: CallId)
    requires Reachable(s) && c in s.calls && !s.calls[c].phase.Replied?
    ensures c !in s.audits
  {
    ReachableInv(s);
  }

  // Every DENY and REVIEW that is answered leaves its audit event, with what was answered and for good, exactly
  // when the insert was carried out.
  lemma AuditedIff(s: State, c: CallId, fault: bool, actions: seq<Action>, t: State)
    requires Reachable(s) && Enabled(s, AuditOutside(c, fault)) && Runs(DoAuditOutside(s, c, fault), actions, t)
    ensures var e := s.calls[c].phase.eval;
            c in t.calls && t.calls[c].phase == Replied(Fresh(Response(c, s.calls[c].requestId, e)))
            && AuditOf(t, c) == if fault then None else Some(e)
  {
    NotAuditedYet(s, c);
    RepliedAuditStaysInRun(DoAuditOutside(s, c, fault), actions, t, c);
  }
}
