/**
 * How long a usage counter is kept: what the limit checker asks of the counter table for one limit
 * at one instant, the expiry it writes, and the proof that cleanup never takes a live counter.
 */
module Retention {
  import opened Prelude
  import opened Calendar
  import opened Periods
  import opened LimitRules
  import V = ValidationProtocol
  import R = ValidationRows
  import S = ValidationService

  const COUNTER_RETENTION_DAYS := 90
  const RETENTION := COUNTER_RETENTION_DAYS * DAY
  const MAX_TIMESTAMP_AGE := DAY
  const CLOCK_SKEW_TOLERANCE := MINUTE

  datatype Terms = Terms(id: nat, limitType: LimitType, maxAmount: real,
                         timeStart: Option<TimeOfDay>, timeEnd: Option<TimeOfDay>,
                         customStart: Option<Instant>, customEnd: Option<Instant>)

  function CounterExpiresAt(lt: LimitType, resetAt: Option<Instant>, customEnd: Option<Instant>): Option<Instant> {
    if Periodic(lt) then (if resetAt.Some? then Some(resetAt.value + RETENTION) else None)
    else if lt.Custom? then (if customEnd.Some? then Some(customEnd.value + RETENTION) else None)
    else None
  }

  // What the checker does for one limit at server time now; None is the unknown-type error.
  function CheckFor(limit: Terms, scopeKey: string, now: Instant): Option<S.LimitCheck> {
    if !WithinTimeWindow(limit.timeStart, limit.timeEnd, now) then Some(S.Skipped)
    else if !WithinCustomPeriod(limit.limitType, limit.customStart, limit.customEnd, now) then Some(S.Skipped)
    else if limit.limitType.PerTransaction? then Some(S.PerTransaction(limit.maxAmount))
    else
      var key := CalculatePeriodKey(limit.limitType, now);
      if key.None? then None
      else
        var expiresAt := CounterExpiresAt(limit.limitType, CalculateResetAt(limit.limitType, now), limit.customEnd);
        Some(S.Counted(V.CounterKey(limit.id, scopeKey, key.value), limit.maxAmount, expiresAt))
  }

  predicate Applies(limit: Terms, now: Instant) {
    WithinTimeWindow(limit.timeStart, limit.timeEnd, now) && WithinCustomPeriod(limit.limitType, limit.customStart, limit.customEnd, now)
  }

  // The counter row that the checker touches at one instant, if any.
  predicate Touches(limit: Terms, scopeKey: string, at: Instant, key: V.CounterKey) {
    var check := CheckFor(limit, scopeKey, at);
    check.Some? && check.value.Counted? && check.value.key == key
  }

  // The checker's answer for one limit, by what it does to an amount: a limit of unknown type that applies is an
  // error, a limit that does not apply is skipped, and one that applies refuses by itself exactly the amounts over
  // its maximum, PER_TRANSACTION included; an amount let through is counted once, in full, unless the type has no
  // counter.
  lemma CheckDecides(limit: Terms, scopeKey: string, now: Instant, amount: real)
    ensures var check := CheckFor(limit, scopeKey, now);
            (check.None? <==> Applies(limit, now) && limit.limitType.Other?)
            && (check == Some(S.Skipped) <==> !Applies(limit, now))
            && (check.Some? ==>
                  (S.Affordable([check.value], amount) <==> (Applies(limit, now) ==> amount <= limit.maxAmount))
                  && S.Owed([check.value], amount)
                     == if Applies(limit, now) && HasCounter(limit.limitType)
                        then [V.Increment(V.CounterKey(limit.id, scopeKey, CalculatePeriodKey(limit.limitType, now).value), amount)]
                        else [])
  {
    var check := CheckFor(limit, scopeKey, now);
    if check.Some? {
      assert [check.value][..0] == [] && S.Owed([], amount) == [];
      assert [check.value][0] == check.value;
    }
  }

  predicate HasCounter(lt: LimitType) {
    Periodic(lt) || lt.Custom?
  }

  lemma TouchesIff(limit: Terms, scopeKey: string, at: Instant, key: V.CounterKey)
    ensures Touches(limit, scopeKey, at, key)
            <==> Applies(limit, at) && HasCounter(limit.limitType)
                 && key == V.CounterKey(limit.id, scopeKey, CalculatePeriodKey(limit.limitType, at).value)
  {
  }

  predicate SamePeriodOf(lt: LimitType, s: Instant, t: Instant) {
    lt.Custom? || (Periodic(lt) && CalculateResetAt(lt, s) == CalculateResetAt(lt, t))
  }

  lemma SameKeyIff(lt: LimitType, s: Instant, t: Instant)
    ensures HasCounter(lt) && CalculatePeriodKey(lt, s) == CalculatePeriodKey(lt, t) <==> SamePeriodOf(lt, s, t)
  {
    if Periodic(lt) { SameKeyIffSameReset(lt, s, t); }
  }

  lemma MeetIff(a: Terms, b: Terms, scopeA: string, scopeB: string, s: Instant, t: Instant, key: V.CounterKey)
    requires a.id == b.id ==> a == b
    ensures Touches(a, scopeA, s, key) && Touches(b, scopeB, t, key)
            <==> a == b && scopeA == scopeB && Applies(a, s) && Applies(a, t) && SamePeriodOf(a.limitType, s, t)
                 && key == V.CounterKey(a.id, scopeA, CalculatePeriodKey(a.limitType, s).value)
  {
    TouchesIff(a, scopeA, s, key);
    TouchesIff(b, scopeB, t, key);
    SameKeyIff(a.limitType, s, t);
  }

  // Two checks, of one limit or of two, meet on one counter exactly when they are of the same limit with the
  // same scope key, both while it applies, and in the same period; a CUSTOM limit has one period only.
  lemma SameCounterIff(a: Terms, b: Terms, scopeA: string, scopeB: string, s: Instant, t: Instant)
    requires a.id == b.id ==> a == b
    ensures (exists key :: Touches(a, scopeA, s, key) && Touches(b, scopeB, t, key))
            <==> a == b && scopeA == scopeB && Applies(a, s) && Applies(a, t) && SamePeriodOf(a.limitType, s, t)
  {
    if key :| Touches(a, scopeA, s, key) && Touches(b, scopeB, t, key) { MeetIff(a, b, scopeA, scopeB, s, t, key); }
    if HasCounter(a.limitType) {
      MeetIff(a, b, scopeA, scopeB, s, t, V.CounterKey(a.id, scopeA, CalculatePeriodKey(a.limitType, s).value));
    }
  }

  // The timestamps that request validation lets through at server time now.
  predicate Accepted(timestamp: Instant, now: Instant) {
    now - MAX_TIMESTAMP_AGE < timestamp <= now + CLOCK_SKEW_TOLERANCE
  }

  predicate Deletable(expiresAt: Option<Instant>, now: Instant) {
    expiresAt.Some? && expiresAt.value < now
  }

  // A counted check of a well-formed limit writes an expiry, so that no such counter is kept for ever: ninety days
  // after the first instant with another key or after the end of the custom period.
  lemma CountersExpire(limit: Terms, scopeKey: string, at: Instant)
    requires CheckFor(limit, scopeKey, at).Some? && CheckFor(limit, scopeKey, at).value.Counted?
    requires ValidateCustomPeriod(limit.limitType, limit.customStart, limit.customEnd, at).None?
    ensures var e := CheckFor(limit, scopeKey, at).value.expiresAt;
            e.Some? && at + 90 * DAY < e.value
            && if limit.limitType.Custom? then e.value - 90 * DAY == limit.customEnd.value
               else forall u: Instant :: at <= u ==>
                      (CalculatePeriodKey(limit.limitType, u) == CalculatePeriodKey(limit.limitType, at) <==> u < e.value - 90 * DAY)
  {
    if Periodic(limit.limitType) {
      forall u: Instant | at <= u
        ensures CalculatePeriodKey(limit.limitType, u) == CalculatePeriodKey(limit.limitType, at)
                <==> u < CalculateResetAt(limit.limitType, at).value
      {
        KeyHoldsUntilReset(limit.limitType, at, u);
      }
      KeyHoldsUntilReset(limit.limitType, at, at);
    }
  }

  // Once a counter of a periodic limit may be deleted, no instant of the last ninety days or later uses its key.
  lemma ExpiredKeyIsDead(lt: LimitType, written: Instant, now: Instant, later: Instant)
    requires Periodic(lt)
    requires Deletable(CounterExpiresAt(lt, CalculateResetAt(lt, written), None), now)
    requires now - RETENTION <= later
    ensures CalculatePeriodKey(lt, later) != CalculatePeriodKey(lt, written)
  {
    KeyHoldsUntilReset(lt, written, written);
    KeyHoldsUntilReset(lt, written, later);
  }

  lemma CountedIs(limit: Terms, scopeKey: string, at: Instant)
    requires CheckFor(limit, scopeKey, at).Some? && CheckFor(limit, scopeKey, at).value.Counted?
    ensures HasCounter(limit.limitType)
    ensures CheckFor(limit, scopeKey, at).value
            == S.Counted(V.CounterKey(limit.id, scopeKey, CalculatePeriodKey(limit.limitType, at).value), limit.maxAmount,
                         CounterExpiresAt(limit.limitType, CalculateResetAt(limit.limitType, at), limit.customEnd))
  {
  }

  // What no edit may change if counters are to be safe: the custom dates. Windows and amounts may change.
  predicate SameDates(before: Terms, after: Terms) {
    before.id == after.id && before.limitType == after.limitType
    && (after.limitType.Custom? ==> before.customStart == after.customStart && before.customEnd == after.customEnd)
  }

  // Cleanup at `now` never takes a counter that the limit, its custom dates unedited, can touch at any
  // instant of the last ninety days or later.
  lemma CleanupSparesLiveCounters(before: Terms, after: Terms, scopeKey: string, written: Instant, now: Instant,
                                  scope: string, later: Instant)
    requires CheckFor(before, scopeKey, written).Some? && CheckFor(before, scopeKey, written).value.Counted?
    requires Deletable(CheckFor(before, scopeKey, written).value.expiresAt, now)
    requires SameDates(before, after) && after.customStart.Some? == after.customEnd.Some?
    requires now - RETENTION <= later
    ensures !Touches(after, scope, later, CheckFor(before, scopeKey, written).value.key)
  {
    var key := CheckFor(before, scopeKey, written).value.key;
    CountedIs(before, scopeKey, written);
    if Touches(after, scope, later, key) {
      TouchesIff(after, scope, later, key);
      if Periodic(after.limitType) { ExpiredKeyIsDead(after.limitType, written, now, later); }
    }
  }

  // The timestamps that request validation accepts are among them.
  lemma AcceptedIsRecent(timestamp: Instant, now: Instant)
    requires Accepted(timestamp, now)
    ensures now - RETENTION <= timestamp
  {
  }

  /* ---- cleanup in the midst of running validations ---- */

  // An expiry that the checker writes for one of these limits, as it is or as it was before its window or amount was edited.
  ghost predicate WrittenFor(limits: map<nat, Terms>, key: V.CounterKey, max: real, expiresAt: Option<int>) {
    key.limitId in limits
    && exists before: Terms, written: Instant ::
         SameDates(before, limits[key.limitId]) && CheckFor(before, key.scopeKey, written) == Some(S.Counted(key, max, expiresAt))
  }

  ghost function WrittenByChecks(limits: map<nat, Terms>): R.Fit {
    (key, max, expiresAt) => WrittenFor(limits, key, max, expiresAt)
  }

  predicate LimitsOk(limits: map<nat, Terms>) {
    forall id :: id in limits ==> limits[id].id == id && limits[id].customStart.Some? == limits[id].customEnd.Some?
  }

  lemma ExpiredRowIsDead(limits: map<nat, Terms>, key: V.CounterKey, max: real, expiresAt: Option<int>, now: Instant,
                         id: nat, scope: string, later: Instant)
    requires LimitsOk(limits) && WrittenFor(limits, key, max, expiresAt) && Deletable(expiresAt, now)
    requires id in limits && now - RETENTION <= later
    ensures !Touches(limits[id], scope, later, key)
  {
    TouchesIff(limits[id], scope, later, key);
    if id == key.limitId {
      var before: Terms, written: Instant :|
        SameDates(before, limits[id]) && CheckFor(before, key.scopeKey, written) == Some(S.Counted(key, max, expiresAt));
      CleanupSparesLiveCounters(before, limits[id], key.scopeKey, written, now, scope, later);
    }
  }

  // In every interleaving of validations and cleanups in which increments are asked for by checks of these
  // limits, their custom dates unedited: no row that a cleanup may take can be touched by any of the limits
  // at any instant of the last ninety days or later, whether it belongs to the row or not.
  lemma CleanupInRuns(limits: map<nat, Terms>, actions: seq<V.Action>, s: V.State, now: Instant, victims: set<V.CounterKey>)
    requires LimitsOk(limits) && V.Runs(V.Initial, actions, s) && V.Enabled(s, V.Cleanup(now, victims))
    requires forall i :: 0 <= i < |actions| ==> R.AsksFor(actions[i], WrittenByChecks(limits))
    ensures forall key, id, scope, later: Instant :: key in victims && id in limits && now - RETENTION <= later
              ==> !Touches(limits[id], scope, later, key)
  {
    R.RunFits(V.Initial, actions, s, WrittenByChecks(limits));
    forall key, id, scope, later: Instant | key in victims && id in limits && now - RETENTION <= later
      ensures !Touches(limits[id], scope, later, key)
    {
      var row := s.counters[key];
      assert WrittenByChecks(limits)(key, row.cap, row.expiresAt);
      ExpiredRowIsDead(limits, key, row.cap, row.expiresAt, now, id, scope, later);
    }
  }

  // In particular no counter that the checker can ask for at the server's time of the cleanup, nor at any
  // timestamp that request validation accepts then.
  lemma CleanupSparesAccepted(limits: map<nat, Terms>, actions: seq<V.Action>, s: V.State, now: Instant, victims: set<V.CounterKey>,
                              key: V.CounterKey, id: nat, scope: string, at: Instant)
    requires LimitsOk(limits) && V.Runs(V.Initial, actions, s) && V.Enabled(s, V.Cleanup(now, victims))
    requires forall i :: 0 <= i < |actions| ==> R.AsksFor(actions[i], WrittenByChecks(limits))
    requires key in victims && id in limits && (at == now || Accepted(at, now))
    ensures !Touches(limits[id], scope, at, key)
  {
    if at != now { AcceptedIsRecent(at, now); }
    CleanupInRuns(limits, actions, s, now, victims);
  }

  /* ---- CUSTOM limits whose dates are edited ---- */

  function Max(a: int, b: int): int { if a <= b then b else a }

  // The first instant from lo on at which a time window is open.
  function FirstOpen(start: Option<TimeOfDay>, end: Option<TimeOfDay>, lo: Instant): (first: Instant)
    ensures lo <= first && WithinTimeWindow(start, end, first)
    ensures forall t: Instant :: lo <= t < first ==> !WithinTimeWindow(start, end, t)
  {
    if WithinTimeWindow(start, end, lo) then lo
    else
      FirstOpenLater(start.value, end.value, lo);
      Opening(start.value, lo)
  }

  // The next time the clock shows a given time of day.
  function Opening(start: TimeOfDay, lo: Instant): Instant {
    var today := Midnight(DayOf(lo)) + start * MINUTE;
    if lo <= today then today else today + DAY
  }

  lemma FirstOpenLater(start: TimeOfDay, end: TimeOfDay, lo: Instant)
    requires !WithinTimeWindow(Some(start), Some(end), lo)
    ensures lo <= Opening(start, lo) && WithinTimeWindow(Some(start), Some(end), Opening(start, lo))
    ensures forall t: Instant :: lo <= t < Opening(start, lo) ==> !WithinTimeWindow(Some(start), Some(end), t)
  {
    MinuteBack(DayOf(lo), start);
    MinuteBack(DayOf(lo) + 1, start);
    forall t: Instant | lo <= t < Opening(start, lo) ensures !WithinTimeWindow(Some(start), Some(end), t) {
      ClosedUntilOpening(start, end, lo, t);
    }
  }

  lemma ClosedUntilOpening(start: TimeOfDay, end: TimeOfDay, lo: Instant, t: Instant)
    requires !WithinTimeWindow(Some(start), Some(end), lo) && lo <= t < Opening(start, lo)
    ensures !WithinTimeWindow(Some(start), Some(end), t)
  {
    assert lo == Midnight(DayOf(lo)) + lo % DAY && t == Midnight(DayOf(t)) + t % DAY;
    assert DayOf(t) == DayOf(lo) || DayOf(t) == DayOf(lo) + 1;
    if DayOf(t) == DayOf(lo) {
      assert MinuteOf(lo) <= MinuteOf(t);
    } else {
      assert t % DAY < start * MINUTE;
    }
  }

  // The same CUSTOM limit with its dates, and perhaps its window, edited since.
  predicate SameLimitEdited(before: Terms, after: Terms) {
    before.id == after.id && before.limitType == after.limitType == Custom
    && before.customStart.Some? && before.customEnd.Some? && after.customStart.Some? && after.customEnd.Some?
  }

  // A CUSTOM counter is found by a key that never changes. If the end date is moved after the last
  // increment, the row can be deletable while the limit is live: exactly when, in the new period and
  // after the old expiry, the new window opens before the new end.
  lemma EditedCustomCounter(before: Terms, after: Terms, scopeKey: string, written: Instant)
    requires SameLimitEdited(before, after) && Applies(before, written)
    ensures var row := CheckFor(before, scopeKey, written).value;
            row.Counted?
            && ((exists now: Instant :: Deletable(row.expiresAt, now) && Touches(after, scopeKey, now, row.key))
                <==> FirstOpen(after.timeStart, after.timeEnd, Max(before.customEnd.value + RETENTION + 1, after.customStart.value))
                     < after.customEnd.value)
  {
    var row := CheckFor(before, scopeKey, written).value;
    var first := FirstOpen(after.timeStart, after.timeEnd, Max(before.customEnd.value + RETENTION + 1, after.customStart.value));
    if first < after.customEnd.value {
      assert Deletable(row.expiresAt, first) && Touches(after, scopeKey, first, row.key);
    }
  }

  // Without a window: exactly when the new period reaches past the old end plus ninety days.
  lemma EditedWithoutWindow(before: Terms, after: Terms, scopeKey: string, written: Instant)
    requires SameLimitEdited(before, after) && Applies(before, written) && after.timeStart == after.timeEnd == None
    ensures var row := CheckFor(before, scopeKey, written).value;
            (exists now: Instant :: Deletable(row.expiresAt, now) && Touches(after, scopeKey, now, row.key))
            <==> Max(before.customEnd.value + RETENTION + 1, after.customStart.value) < after.customEnd.value
  {
    EditedCustomCounter(before, after, scopeKey, written);
  }

  // The witness: a one-day campaign, prolonged to 100 days after its first day.
  lemma ProlongedCampaignLosesItsCount(id: nat, scopeKey: string, max: real)
    ensures var before := Terms(id, Custom, max, None, None, Some(0), Some(DAY));
            var after := before.(customEnd := Some(100 * DAY));
            CheckFor(before, scopeKey, 0).Some? && CheckFor(before, scopeKey, 0).value.Counted?
            && exists now: Instant ::
                 Deletable(CheckFor(before, scopeKey, 0).value.expiresAt, now)
                 && Touches(after, scopeKey, now, CheckFor(before, scopeKey, 0).value.key)
  {
    var before := Terms(id, Custom, max, None, None, Some(0), Some(DAY));
    EditedCustomCounter(before, before.(customEnd := Some(100 * DAY)), scopeKey, 0);
  }
}
