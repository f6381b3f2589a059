# Tracer: a verified model

Tracer answers a validation request with ALLOW, DENY or REVIEW: it evaluates the active rules, counts the
amount against the spending limits, stores the decision and an audit event, and must do all of that once per
request id while any number of callers race on one PostgreSQL database. This project models the parts of it that
carry the hard promises and proves those promises, for all inputs, all runs or all interleavings.

| files | what they model |
|---|---|
| `ValidationProtocol`, `ValidationInvariants`, `ValidationRows`, `ValidationTheorems`, `ValidationErasure`, `ValidationTraces` | the validation transaction as a step machine over the shared database: one step per statement, any number of calls interleaved, a fault or an abort possible at every step, cleanup running in between |
| `ValidationService` | `Validate` itself, as imperative code over a server whose every database call is one step of that machine and is preceded by arbitrary steps of everybody else |
| `Calendar`, `Periods`, `LimitRules`, `Retention`, `CounterCleanup` | civil dates and ISO weeks, period keys and reset instants, time windows and custom periods, counter expiry and the batched cleanup |
| `LimitEntity` | the limit object: constructors, edits, status |
| `Uuid`, `Scopes`, `ScopeKey` | scope matching in memory and compiled to a filter with positional arguments, and the counter key of a scope |
| `Rules`, `RuleAgreement`, `RuleSync`, `RuleCommands` | the rule table, the rule cache, the lifecycle commands, warm-up and the sync worker |
| `RuleHeap`, `RuleCache` | the same cache on the heap: pointers, slices, deep copies |
| `Lifecycle` | read and write steps of lifecycle commands, interleaved in any way |
| `ArrayLiteral`, `ArrayReader`, `UuidArray` | PostgreSQL array literals, printed and parsed, and how the database reads them |
| `Pagination` | keyset pages read from a changing table |
| `Sanitizer`, `SanitizerCauses`, `SanitizerTrees`, `SanitizerTwice`, `SanitizerLayout` | masking of metadata graphs with sharing and cycles: the code, why it puts out descriptors, when it is the plain recursive masking, and what a second pass does |
| `FunctionMigrations` | loading and applying function migrations |

Instants are whole nanoseconds since the year 1, amounts are reals, timestamps have no upper bound. The result of
evaluating the rules, the compilation of an expression, the sensitive-key patterns and the text checks are
parameters. Faults are given as scripts: which statement fails, and how; a clock is a parameter.

What the proofs brought to light, all of it about the code as it is:

- A DENY or REVIEW answer is sent even when its insert lost the race, so two callers of one request id can be told
  different things, without any fault (`RacersMayDisagree`). Two answers differ only if one of them is a DENY or REVIEW
  that was never written (`DifferingAnswers`); one whose insert was carried out differs from the stored record exactly
  when the insert found a record that says something else (`AnswerDiffersIff`), and one whose insert failed also when
  another call inserts another evaluation later (`FaultedAnswerDiffersIff`).
- A CUSTOM counter is found by the constant key `custom`. If the end date is moved after the last increment, cleanup
  can delete the row while the limit is live, and the count starts again: exactly when, past the old end plus ninety
  days, the new time window opens before the new end (`EditedCustomCounter`). As long as custom dates are not edited, no
  interleaving of validations and cleanups loses a counter in use (`CleanupInRuns`).
- The limit checker's transaction scope has no merchant. It passes over exactly those limits that match the whole
  transaction only through scopes that name a merchant (`MerchantLimitsNeverApply`, `MerchantLimitIsMissed`); a
  transaction is held against every limit that matches it exactly when it has no merchant (`CheckedInFullIff`).
- The database's scope filter lets through rules that in-memory matching refuses, exactly where a rule scope sets a
  field that the transaction leaves open (`MatchIsCompatibleAndCovered`, `AgreeIffComplete`).
- `UpdateRuleCommand` does not tell the cache: it is stale exactly after a write to an ACTIVE rule that gives anything
  new (`RuleSystem.Update`, `RenamedRuleGoesStale`), until the next successful sync cycle, which always repairs it
  (`RuleSystem.Run`).
- `StringArray.Scan` unquotes twice. It loses the text `NULL` even when quoted, which its comment says it
  keeps, and texts that begin and end with a double quote (`RoundTripIff`, `QuotesAreIgnored`).
- `StringArray.Value` quotes neither the text `NULL`, in whatever case, nor vertical tabs and form feeds. The database
  reads such an element as SQL NULL, or without them at its ends; every other array is read as it was meant
  (`LiteralIsUnderstoodIff`, `NullTextIsLost`).
- The sanitiser tells references apart by address and calls every second meeting a cycle. Its output is the plain
  recursive masking exactly when no address is met twice outside sensitive keys (`SanitizeExact`), and a descriptor
  always has such a cause (`DescriptorsAreCaused`). All empty slices it makes share one address, so sanitising its
  own output changes nothing exactly when at most one of them is in it (`SecondPassIff`, `SecondPassCounted`,
  `FirstPassExists`, `SecondEmptySliceIsCut`).
- Overlapping lifecycle commands can take a status along an arrow that is not in the transition table: INACTIVE
  over DRAFT, and DRAFT or DELETED over ACTIVE, in these cases only and only when the row was moved after the command
  had read it (`StoreBreaksIff`); all three happen (`OverlapBreaksTable`). Deletion stays final all the same.

Where comments disagree with code, the code is modelled: the transition table decides, not the comments at
`delete_limit.go:140-142` and `deactivate_rule.go:29`.

## Model

| member | source | states |
|---|---|---|
| ValidationTheorems.UsageIsConserved | internal/services/validation_service.go:242-348 | In every reachable state each counter plus what cleanup archived of it is the sum of the increments of committed approvals |
| ValidationTheorems.ExactlyOnce | internal/adapters/postgres/transaction_validation_repository.go:244-250 | No request id and no call contributes through two commits |
| ValidationTheorems.ApprovalIsCommit | internal/services/validation_service.go:287-348 | A call has answered with a fresh ALLOW exactly when its transaction committed, and then its own record and audit event are stored |
| ValidationTheorems.OneApprovalPerRequest | internal/services/validation_service.go:287-348 | At most one fresh ALLOW per request id |
| ValidationTheorems.DuplicateGetsStored | pkg/model/transaction_validation.go:79-116 | A duplicate gets the decision, reason and rule ids that are stored under its request id |
| ValidationTheorems.FreshIsStoredIff | internal/services/validation_service.go:354-406 | A fresh answer is the stored one exactly when this call wrote the record |
| ValidationTheorems.DifferingAnswers | internal/services/validation_service.go:354-473 | In every reachable state, two answers to one request id differ in decision, reason or rule ids only if one of them is a fresh DENY or REVIEW whose call did not write the record |
| ValidationTheorems.AnswerDiffersIff | internal/services/validation_service.go:354-406 | In every run, a DENY or REVIEW whose insert is carried out answers with its own evaluation, and that differs from what is stored, then and for ever, exactly when the insert found a record of the request that says something else |
| ValidationTheorems.FaultedAnswerDiffersIff | internal/services/validation_service.go:354-473 | In every run, one whose best-effort insert fails differs from what is stored later exactly when there was a record of the request that says something else, or there was none and another call goes on to insert another evaluation |
| ValidationTheorems.RacersMayDisagree | internal/services/validation_service.go:431-473 | The swallowed duplicate insert: for any request id and any two evaluations ALLOW and DENY, a reachable state without a fault in which two racers were told one each and the ALLOW is stored |
| ValidationTraces.AuditedIff | internal/services/validation_service.go:354-375 | In every run, a DENY or REVIEW that is answered leaves its audit event, with what was answered and for good, exactly when the insert is carried out |
| ValidationRows.RunFits | internal/adapters/postgres/usage_counter_repository.go:50-73 | Whatever holds of the maximum and expiry of every increment asked for, holds in every interleaving of every counter row, committed or pending |
| ValidationTheorems.NeverOverspent | internal/adapters/postgres/usage_counter_repository.go:50-73 | If no check of a counter ever asked for more than a limit, then in every interleaving its committed and every pending value stay within it, and so do all approvals together while cleanup has archived nothing |
| ValidationErasure.NoTrace | internal/services/validation_service.go:258-308 | A call that does not end in a fresh ALLOW leaves no trace in the counters: the run without its upserts is a run too and reaches the same state |
| ValidationInvariants.StepKeeps | internal/services/validation_service.go:142-348 | Every step of every call, and cleanup, keeps conservation, the counter bound, exclusive locks and all-or-nothing approvals |
| ValidationInvariants.CommitConserves | internal/services/validation_service.go:331-336 | Committing moves a transaction's overlay into the table and nothing else: usage and history stay equal |
| ValidationInvariants.UpsertConsistent | internal/adapters/postgres/usage_counter_repository.go:50-73 | After the guarded upsert, seen from inside the transaction, each row is the committed value plus the transaction's own increments, between zero and its limit |
| ValidationInvariants.UpsertWrites | internal/adapters/postgres/usage_counter_repository.go:50-73 | The statement adds the amount to the visible usage and replaces maximum and expiry, if the sum is within the maximum; otherwise it only locks the row |
| ValidationInvariants.CallStays | internal/services/validation_service.go:377-406 | What other calls commit disturbs no open transaction, because rows it has locked and the request id it has inserted are out of their reach |
| ValidationService.Server.Validate | internal/services/validation_service.go:142-348 | With arbitrary interference before each database call: a request that was stored before gets the stored answer; a DENY of the rules stands; otherwise, REVIEW included, the rules' answer stands exactly when no limit refuses by itself and each counter statement of the call found room, and it is the limit denial exactly when one refuses; an ALLOW has committed exactly one increment of the full amount per counted limit. Unless a statement fails, the answer and its audit event are stored, and the only errors are those of the rules, of an amount that is not positive and of waits cut short |
| ValidationService.Server.CheckLimits | internal/services/query/limit_checker.go:147-247 | Allowed means that every limit grants the amount by what its statement saw, and that the transaction holds exactly the increments owed, in order; not allowed, that some limit refuses; an error means an amount that is not positive, a fault or a wait cut short |
| ValidationService.Server.UpsertAndIncrement | internal/adapters/postgres/usage_counter_repository.go:352-448 | Any amount: zero changes nothing, a negative amount is an error, one over the limit is refused before any SQL; otherwise exactly one increment, or a refusal because the row as seen from the transaction had no room, or a failure that dooms the transaction |
| ValidationService.Server.UpsertRow | internal/adapters/postgres/usage_counter_repository.go:50-73 | The statement is refused exactly when, in the state it ran in, the visible usage plus the amount exceeds the limit |
| ValidationService.Server.PersistAndCommit | internal/services/validation_service.go:303-348 | Record, audit event and COMMIT: a fresh answer means the commit just made carries the transaction's increments; without a fault the only error is an insert that had to wait |
| ValidationService.Server.PersistOutside | internal/services/validation_service.go:354-375 | The best-effort inserts after a rollback never change the answer; without a fault the audit event is stored, and a record of the request unless its insert had to wait |
| Calendar.DateRoundTrip | pkg/model/limit.go:146-150 | Day numbers and civil dates are inverse to each other |
| Calendar.CalendarRepeats | pkg/model/limit.go:146-150 | Every date comes again 400 years and 146097 days later, on the same weekday |
| Calendar.UnixEpoch | pkg/model/limit.go:146-150 | The anchor of the day numbers: January 1st 1970, a Thursday |
| Calendar.IsoWeekIsInjective | pkg/model/check_limits.go:194-197 | ISO year and week together name one week, Monday to Sunday |
| Calendar.IsoWeekAdvances | pkg/model/check_limits.go:194-197 | A week later it is the next week number, or week 1 of the next ISO year |
| Calendar.IsoWeekIff | pkg/model/check_limits.go:194-197 | For every day: it is in week w of ISO year y exactly when it lies w - 1 weeks after the week of January 4th of y and before that of January 4th of the next year |
| Calendar.YearEnds | pkg/model/check_limits.go:194-197 | January 4th is in week 1 of its year and December 28th in a week of its year, for every year |
| Periods.KeyHoldsUntilReset | pkg/model/limit.go:140-171 | From any instant on, the period key is constant up to the reset instant and different from then on |
| Periods.ResetOpensNextPeriod | pkg/model/limit.go:140-171 | The reset instant is the first one with another key |
| Periods.SameKeyIffSameReset | pkg/model/check_limits.go:186-207 | Two instants share a period key exactly when they share a reset instant |
| Periods.KeyNamesPeriod | pkg/model/check_limits.go:186-207 | The printed DAILY, WEEKLY and MONTHLY keys are equal exactly within one day, ISO week and calendar month |
| Periods.DateKeyReadsBack | pkg/model/check_limits.go:190-191 | A DAILY key is YYYY-MM-DD: year, month and day are read back from their places |
| Periods.MonthKeyReadsBack | pkg/model/check_limits.go:192-193 | A MONTHLY key is YYYY-MM |
| Periods.DailyKeyReadsBack | pkg/model/check_limits.go:190-191 | At every instant up to the year 9999 the date read from the DAILY key is the day of the instant |
| Periods.MonthlyKeyReadsBack | pkg/model/check_limits.go:192-193 | The day of the instant lies in the month read from its MONTHLY key |
| Periods.WeekKeyReadsBack | pkg/model/check_limits.go:194-197 | A WEEKLY key is the ISO year, -W and the week in two digits |
| Periods.WeeklyKeyReadsBack | pkg/model/check_limits.go:194-197 | At every instant the WEEKLY key reads back as a year and a week from 01 to 53, and the instant lies in that week, counted from the week of January 4th of that year |
| LimitRules.WindowIsAnArc | pkg/model/limit.go:675-698 | A time window, overnight or not, is the arc of the clock from start up to but excluding end, to the nanosecond |
| LimitRules.WindowOpensAndCloses | pkg/model/limit.go:455-472 | A window that validates contains its start and not its end, on every day |
| LimitRules.YearsLaterOnTheSameDate | pkg/model/limit.go:495 | Years later it is the same time on the same day of the same month, but March 1st for a February 29th that does not exist |
| Retention.CheckDecides | internal/services/query/limit_checker.go:341-397 | A limit is skipped exactly when it does not apply, an unknown type that applies is an error, an amount is refused by itself exactly when the limit applies and the amount is over its maximum, PER_TRANSACTION included, and what is let through owes one increment in full exactly when the type has a counter |
| Retention.SameCounterIff | internal/services/query/limit_checker.go:341-397 | Two checks, of any two limits at any two instants, meet on one counter exactly when limit and scope key are the same, the limit applies at both and they share a reset instant, or the limit is CUSTOM |
| Retention.CountersExpire | internal/services/query/limit_checker.go:34-61 | Every counter written by a limit with valid dates expires ninety days after the first instant with another key, or after the end of the CUSTOM period, and so more than ninety days after the write |
| Retention.ExpiredKeyIsDead | pkg/constant/limits.go:7-14 | Once a periodic counter may be deleted, no instant of the last ninety days or later has its key |
| Retention.CleanupSparesLiveCounters | internal/adapters/postgres/usage_counter_repository.go:671-747 | Cleanup takes no counter that the limit, its custom dates unedited, can touch at any instant of the last ninety days or later |
| Retention.CleanupInRuns | internal/adapters/postgres/usage_counter_repository.go:671-747 | The same over every interleaving of validations and cleanups: no row that an enabled cleanup may take can be touched by any limit at such an instant |
| Retention.CleanupSparesAccepted | pkg/model/validation.go:349-357 | In every interleaving, no counter that a cleanup may take can be asked for at the server's time or at a timestamp that request validation accepts then |
| Retention.FirstOpen | pkg/model/limit.go:675-698 | The first instant from a given one on at which a time window is open |
| Retention.EditedCustomCounter | internal/services/query/limit_checker.go:389-397 | With edited dates or window a CUSTOM counter can be deletable and in use at once exactly when the new window first opens, from the old end plus ninety days and from the new start on, before the new end |
| Retention.EditedWithoutWindow | internal/services/query/limit_checker.go:389-397 | Without a window: exactly when the new period reaches past the old end plus ninety days |
| Retention.ProlongedCampaignLosesItsCount | pkg/model/limit.go:584-600 | A concrete prolonged campaign: the counter that the checker wrote before the edit is deletable while the edited limit touches it |
| CounterCleanup.CounterTable.DeleteExpired | internal/adapters/postgres/usage_counter_repository.go:671-747 | Fails exactly if a batch that is begun fails; without an error exactly the rows with an expiry before now are gone and counted; with one, the full batches before it are gone and counted, and the rows of a batch of unknown count are gone as well |
| LimitEntity.Limit.Update | pkg/model/limit.go:522-607 | Keeps the limit well formed even when it fails half way; succeeds exactly for good edits, and then every field that is given reads back and every other is as it was; says which fields are written before which error; status, type and currency stay |
| LimitEntity.Limit.SetStatus | pkg/model/limit.go:626-664 | Succeeds exactly along the transition table; deleted_at is set exactly with DELETED; refusals and repeats change nothing |
| LimitEntity.Limit.ValidatesIffWellFormed | pkg/model/limit.go:718-784 | Well-formedness is exactly that Validate succeeds and the reset instant is the one the type prescribes |
| LimitEntity.Limit.NewLimit | pkg/model/limit.go:257-276 | Succeeds exactly when the normalised terms are valid and the type is not CUSTOM; the result is a well-formed draft of exactly these terms |
| LimitEntity.Limit.NewLimitWithTimeWindow | pkg/model/limit.go:281-320 | Succeeds exactly when moreover both times parse and differ; the result has exactly this window |
| LimitEntity.Limit.NewLimitWithCustomPeriod | pkg/model/limit.go:324-351 | Succeeds exactly for valid terms and a CUSTOM period in order, of at most five years, not over before today; the result has exactly these dates |
| LimitEntity.Limit.NewLimitWithCustomPeriodAndTimeWindow | pkg/model/limit.go:356-400 | Succeeds exactly when both would; the result has exactly these dates and this window |
| LimitEntity.Run | pkg/model/limit.go:522-664 | Any sequence of edits and status changes, errors included, keeps the limit well formed, every step does what it says, and a deleted limit stays deleted |
| LimitEntity.CustomResetIsAfterPeriod | pkg/model/limit.go:175-179 | A CUSTOM limit resets at the first midnight after its end date, later than every timestamp within its period |
| Uuid.ParseText | internal/adapters/postgres/transaction_validation_postgresql_model.go:291-296 | Parsing the canonical text of a UUID gives it back |
| Scopes.RuleScopesMatch | pkg/model/scope_matcher.go:11-27 | The loop with early return decides exactly that there are no scopes or one of them matches |
| Scopes.BuildSingleScopeCondition | internal/adapters/postgres/rule_repository.go:831-877 | The conjuncts, filled with the arguments in order, hold of a rule scope exactly when it agrees with every field that the filter scope sets |
| Scopes.BuildScopeFilter | internal/adapters/postgres/rule_repository.go:793-824 | The whole clause, each placeholder taking the next argument, selects exactly the global rules and those with a compatible scope |
| Scopes.MatchIsCompatibleAndCovered | pkg/model/scope.go:13-58 | In-memory matching is the compiled condition plus: the transaction sets every field the rule scope sets |
| Scopes.CacheWithinRepository | internal/adapters/postgres/rule_repository.go:298-307 | Every rule the cache returns the repository returns too |
| Scopes.AgreeWhenCovered | internal/adapters/postgres/rule_repository.go:793-877 | They agree on rules whose scopes set no field that the transaction leaves open |
| Scopes.AgreeIffComplete | internal/adapters/postgres/rule_repository.go:793-877 | They agree on all rules whatever exactly when the transaction sets every field |
| Scopes.CheckerMatchesIff | internal/services/query/limit_checker.go:567-601 | The checker applies a limit exactly when it is global or one of its matching scopes names no merchant |
| Scopes.MerchantLimitsNeverApply | internal/services/query/limit_checker.go:567-601 | Checker and full matching differ exactly on the limits that match only through scopes that name a merchant; limits whose scopes all name one never apply |
| Scopes.MerchantLimitIsMissed | internal/services/query/limit_checker.go:567-601 | The limit for one merchant and any transaction with that merchant: it matches in full and is missed |
| Scopes.CheckedInFullIff | internal/services/query/limit_checker.go:567-601 | The two agree on every limit exactly for transactions without a merchant |
| ScopeKey.CalculateScopeKey | pkg/model/check_limits.go:213-240 | Appending and sorting gives account, merchant, portfolio, segment, whichever are set |
| ScopeKey.KeyNamesIds | pkg/model/check_limits.go:213-240 | Two non-empty scopes share a key exactly when their four optional ids are equal |
| ScopeKey.CalculateScopeKeyFromScopes | internal/services/query/limit_checker.go:607-626 | The counter of an applicable limit is keyed by the first of its own scopes that matches, not by the transaction |
| ScopeKey.GlobalKeyIsReserved | pkg/model/check_limits.go:213-217 | Only the empty scope gets the key of the global counter |
| ScopeKey.JoinInjective | pkg/model/check_limits.go:239-240 | A joined key falls apart into its parts in one way only |
| Rules.StatusRunsFit | pkg/model/rule.go:276-313 | Over any sequence of status changes the activation, deactivation and deletion timestamps fit the status, and a deleted rule stays as it is |
| Rules.StatusChanges | pkg/model/rule.go:276-313 | Which changes of status go through, are repeats or are refused, and the timestamp that each carries |
| RuleAgreement.SyncRestoresIff | internal/services/workers/rule_sync_change_set.go:40-69 | A sync cycle restores agreement exactly when nothing stale is unfetched or cached with a timestamp that is not older |
| RuleAgreement.SyncCatchesUp | internal/adapters/postgres/rule_sync_repository.go:75-101 | A cache that matched a past table matches the present one after a cycle, if every changed row is recent and newer |
| RuleAgreement.ReplayIsHarmless | internal/services/workers/rule_sync_worker.go:169-245 | Replaying any overlapping delta of a table that the cache agrees with changes no entry |
| RuleAgreement.PlainDeltaCatchesUp | internal/services/cache/rule_cache.go:89-106 | ACTIVE rows as upserts and all other fetched ids as removals restore agreement without the timestamp filter |
| RuleSync.ClassifyChanges | internal/services/workers/rule_sync_change_set.go:40-69 | The three lists are exactly the new, the newer and the gone, each row once |
| RuleSync.DeltaAt | internal/services/workers/rule_sync_worker.go:234-276 | Applying the compiled delta leaves at every id what the classification says |
| RuleSync.Sync | internal/services/workers/rule_sync_worker.go:157-280 | One cycle computes exactly the synced cache |
| RuleCommands.RuleSystem.WarmUp | internal/services/cache/warmup.go:50-89 | Success means agreement and readiness; any failure changes nothing; without faults it fails exactly when some live rule does not compile |
| RuleCommands.RuleSystem.SyncCycle | internal/services/workers/rule_sync_worker.go:157-280 | A successful cycle after a warm-up always ends in agreement, whatever was stale; the next horizon is the newest timestamp in the table, or the present if none is newer than the last one |
| RuleCommands.UpdateLastSync | internal/services/workers/rule_sync_worker.go:376-402 | The next horizon is the newest timestamp fetched, be it ahead of this clock or not, or the present when nothing fetched was newer |
| RuleCommands.RuleSystem.Create | internal/services/command/create_rule.go:98-147 | Adds the draft or nothing; agreement is kept |
| RuleCommands.RuleSystem.Activate | internal/services/command/activate_rule.go:85-220 | Exactly when it fails, the table and the cache it leaves, as functions of the row, the read and the write; agreement is lost exactly when a write that took effect loses its answer |
| RuleCommands.RuleSystem.Deactivate | internal/services/command/deactivate_rule.go:78-184 | The same for deactivation |
| RuleCommands.RuleSystem.Redraft | internal/services/command/draft_rule.go:72-136 | The same for going back to draft: only from INACTIVE, so agreement is kept without telling the cache |
| RuleCommands.RuleSystem.Delete | internal/services/command/delete_rule.go:68-127 | The same for deletion: only from DRAFT or INACTIVE, so agreement is kept without telling the cache |
| RuleCommands.RuleSystem.Update | internal/services/command/update_rule.go:54-152 | Fails exactly when the read fails, the row or the normalised texts do not allow the edit or the write does not answer; in the row that is written every field that is given reads back, texts normalised, every other field is as it was, and the timestamp is the present exactly when the edit gives a change; the cache goes stale exactly when the rule is ACTIVE, written, and the edit gives a change; an expression is edited only in DRAFT |
| RuleCommands.EditFitsIff | pkg/model/rule.go:155-262 | An edit of a row that fits is accepted exactly if the row still fits with it |
| RuleCommands.RuleSystem.Execute | internal/services/command/create_rule.go:71-147 | Each whole command: which row it writes and what it leaves in it, when it writes nothing, what it tells the cache, and when it reports an error |
| RuleCommands.RenamedRuleGoesStale | internal/services/command/update_rule.go:54-152 | Warm up, create, activate, rename, nothing failing: the cache goes on showing the old name |
| RuleCommands.RuleSystem.Run | internal/services/command/activate_rule.go:118-220 | Over any sequence of whole commands and cycles with any failures, every event does its work, every stale id stays in sight of the next cycle, tidy runs stay in step, and each step follows the transition table |
| RuleHeap.DeepCopy | internal/services/cache/rule_cache.go:167-241 | The copy holds the same value and shares no mutable object with its source |
| RuleCache.RuleCache.GetActiveRules | internal/services/cache/rule_cache.go:45-68 | Returns exactly the matching entries, each once, as objects that are fresh and disjoint from each other |
| RuleCache.RuleCache.SetRules | internal/services/cache/rule_cache.go:71-86 | The contents become exactly the entries given |
| RuleCache.RuleCache.ApplyChanges | internal/services/cache/rule_cache.go:89-106 | Upserts in order, then removals, on the contents |
| RuleCache.RuleCache.UpsertRule | internal/services/cache/rule_cache.go:110-112 | One entry is replaced, all others stay |
| RuleCache.RuleCache.RemoveRule | internal/services/cache/rule_cache.go:116-118 | One entry is gone, all others stay |
| RuleCache.ScribbleOnResults | internal/services/cache/rule_cache.go:45-68 | Arbitrary writes to everything reachable from a result leave the cache's contents as they were |
| RuleCache.ServeRules | internal/services/cache/adapter.go:33-54 | Not ready is an error; otherwise each returned copy carries its program, and passing it on does not touch the cache |
| Lifecycle.DeletionIsFinal | internal/adapters/postgres/limit_repository.go:382-439 | Under any interleaving of reads and writes no row disappears and a deleted row never changes again |
| Lifecycle.DeletedIffMarked | internal/adapters/postgres/rule_repository.go:381-434 | In every reachable state deleted_at is set exactly on the DELETED rows |
| Lifecycle.WholeCommandFollows | pkg/model/limit.go:615-664 | A command goes on to its write from exactly the statuses that the table names; run whole, it leaves the row that was asked for, contents and deleted_at included, and no other |
| Lifecycle.UnmovedStoreFollows | internal/adapters/postgres/rule_repository.go:330-341 | In every interleaving a command whose row still has the status it read follows the table |
| Lifecycle.StoreBreaksIff | internal/adapters/postgres/rule_repository.go:330-341 | In every reachable state a write breaks the table exactly when it puts INACTIVE over DRAFT, or DRAFT or DELETED over ACTIVE; then the row was moved after the command had read it |
| Lifecycle.OverlapBreaksTable | internal/services/command/update_rule.go:67-125 | Reachable states, on rules and on limits, in which the next write does each of the three |
| ArrayLiteral.Scan | internal/adapters/postgres/types.go:32-78 | The method with its error cases computes the specified parse |
| ArrayLiteral.Value | internal/adapters/postgres/types.go:81-105 | The builder loop prints the elements, quoted where needed, joined by commas |
| ArrayLiteral.ParseArrayElements | internal/adapters/postgres/types.go:110-164 | The flag-driven loop is the character machine, with the unclosed quote as its only error |
| ArrayLiteral.ParsedElement | internal/adapters/postgres/types.go:224-237 | However an element was printed, the parser collects exactly its text |
| ArrayLiteral.RoundTripIff | internal/adapters/postgres/types.go:32-105 | Scan undoes Value exactly on the arrays, nil included, without the text NULL and without texts that begin and end with a double quote |
| ArrayLiteral.QuotesAreIgnored | internal/adapters/postgres/types.go:204-221 | Quotes around a plain element make no difference, so the quoted text NULL is read as SQL NULL |
| ArrayReader.LiteralIsUnderstoodIff | internal/adapters/postgres/types.go:81-105 | PostgreSQL reads the printed literal as the array that was meant exactly when no element that is printed without quotes spells NULL, in any case, or has a vertical tab or form feed at either end |
| ArrayReader.NullTextIsLost | internal/adapters/postgres/types.go:224-237 | An element that spells NULL is read as SQL NULL |
| UuidArray.SplitUuidArray | internal/adapters/postgres/transaction_validation_postgresql_model.go:304-326 | The scanning loop returns exactly the non-empty stretches between commas |
| UuidArray.ParseUuidArray | internal/adapters/postgres/transaction_validation_postgresql_model.go:272-301 | The specified parse, failing at the first part that the UUID library's parser, a parameter, does not accept |
| UuidArray.FormatUuidArray | internal/adapters/postgres/transaction_validation_postgresql_model.go:330-337 | The canonical texts in braces, joined by commas |
| UuidArray.UuidRoundTrip | internal/adapters/postgres/transaction_validation_postgresql_model.go:272-337 | Parsing undoes printing for every list of UUIDs, with any parser that reads canonical texts |
| UuidArray.CanonicalParser | internal/adapters/postgres/transaction_validation_postgresql_model.go:291-296 | A parser of the canonical spelling alone is one of those |
| Pagination.List | internal/adapters/postgres/rule_repository.go:489-564 | Fetching one row more than asked for yields the page, whether there is more, and the cursor, for every limit from zero on |
| Pagination.PageFacts | internal/adapters/postgres/audit_event_repository.go:426-478 | A page is ordered, past its cursor, real, and leaves out nothing up to its own cursor |
| Pagination.PageIsExact | internal/adapters/postgres/rule_repository.go:489-564 | A page runs in the direction asked for, ids among equal sort values, holds at most as many rows as asked for, and says that there is more exactly when a row past the cursor is not on it |
| Pagination.CollectPage | internal/adapters/postgres/limit_repository.go:504-544 | One more page extends a complete and duplicate-free prefix of the rows that stayed |
| Pagination.FollowCursors | internal/services/query/limit_checker.go:499-536 | On a table that changes between pages: no row twice, every row real, in order, and every row that was there throughout is returned |
| Pagination.FollowOnFixedTable | internal/adapters/postgres/audit_event_repository.go:269-323 | On a fixed table the pages end in time and concatenate to the sorted list |
| Pagination.SortedListIsUnique | internal/adapters/postgres/audit_event_repository.go:267-268 | The sort value with the id as tiebreaker gives one order only |
| Pagination.DistinctIds | internal/adapters/postgres/transaction_validation_repository.go:885-917 | With unchanging sort values no id is returned twice |
| Sanitizer.MetadataSanitizer.Sanitize | pkg/sanitize/metadata.go:171-183 | Terminates on every finite heap, cycles included; nil stays nil; the output is one that the sanitising relation allows for some order of the keys, and every sensitive key is masked at every map level |
| Sanitizer.MetadataSanitizer.SanitizeMap | pkg/sanitize/metadata.go:187-219 | One map: exactly its keys, put out in some order, each against what was marked by then |
| Sanitizer.MetadataSanitizer.SanitizeSlice | pkg/sanitize/metadata.go:234-258 | The same for slices, in order |
| Sanitizer.Describe | pkg/sanitize/metadata.go:332-478 | The search below pointers and struct fields with its set of visited addresses |
| Sanitizer.RunIsMasked | pkg/sanitize/metadata.go:187-219 | Whatever is put out, in whatever order and with whatever marked before, has a masked value under every sensitive key, at every level |
| SanitizerCauses.DescriptorsAreCaused | pkg/sanitize/metadata.go:332-478 | For every heap: where the output differs from the input it is a descriptor, and either content of the kind it names lies at or below that place, or it says cyclic and an address met at or below the place is met at another place of the graph too |
| SanitizerTrees.ProbeExact | pkg/sanitize/metadata.go:399-478 | On a value that unfolds: the search answers with the first non-serializable content and marks exactly what it met if nothing is met twice, and otherwise it answers cyclic |
| SanitizerTrees.SanitizeExact | pkg/sanitize/metadata.go:171-258 | For every input that unfolds outside its sensitive keys the output is the plain recursive masking exactly when no address is met twice there |
| SanitizerTwice.SecondPassIff | pkg/sanitize/metadata.go:234-258 | The second pass over the output as it lies in the heap changes nothing exactly when the address shared by all empty slices is met at most once in it |
| SanitizerTwice.SecondPassCounted | pkg/sanitize/metadata.go:234-258 | If no copied value reaches that address: exactly when the output holds at most one empty slice outside sensitive keys |
| SanitizerTwice.PlainTwice | pkg/sanitize/metadata.go:171-258 | The plain masking of an output is that output |
| SanitizerLayout.FirstPassExists | pkg/sanitize/metadata.go:187-258 | Every output of a first call can lie in a heap as Go lays it out: new maps and non-empty slices at addresses of their own, empty slices at the one given; so the results on the second pass apply to every output |
| SanitizerLayout.SecondEmptySliceIsCut | pkg/sanitize/metadata.go:464-478 | Two empty slices with arrays of their own come out unchanged, and the second call changes what came out; the heaps of the two calls are those of a first pass and its output |
| FunctionMigrations.LoadMigrations | pkg/migration/functions.go:182-260 | Fails exactly on a directory that is missing or unreadable, on duplicate versions and on a valid file that cannot be read; otherwise the valid files in strictly increasing version order |
| FunctionMigrations.Database.ApplyMigration | pkg/migration/functions.go:305-332 | All or nothing for every failing statement; a lost COMMIT answer counts as an error that took effect |
| FunctionMigrations.Database.Up | pkg/migration/functions.go:51-99 | Nothing to do without a directory; an error that changes nothing if setting up or loading fails or the table is dirty; otherwise an error exactly if the transaction of a pending migration fails: all pending ones before the first such one were added, in order, and that one too if only its COMMIT answer was lost; without one all pending migrations were added, in order |
| FunctionMigrations.UpRepeatedly | pkg/migration/functions.go:74-96 | Over any sequence of calls with any failures the committed migrations stay in strictly increasing version order |

## Left out

- A COMMIT of the validation transaction that takes effect although its answer is lost: it is modelled as a rollback; for rules and migrations lost answers are modelled.
- PostgreSQL itself: a statement is what it promises (unique key, guarded upsert, row lock until the transaction ends, `deleted_at IS NULL`); a DELETE that waits for a row lock and then goes on is modelled as one that leaves locked rows alone. The real one does not evaluate its subquery again, so it may still take a row whose expiry was moved while it waited; that is not modelled. Conservation does not turn on it.
- `GetOrCreateForUpdate` and `IncrementAtomic`: unguarded paths; the counter bound is not claimed for them.
- ValidationService.Server.Validate: a statement that has to wait is carried out if the others let go while it pauses, and fails otherwise; how long a wait lasts is not modelled.
- Rule evaluation and CEL compilation: an arbitrary answer and an uninterpreted, deterministic function.
- The tables of rules and limits read by `Validate`: the limit checks of a call are a parameter; `Retention.CheckFor` says what one limit contributes.
- HTTP, logging, tracing, metrics, the circuit breaker, client addresses, configuration.
- The audit hash chain, computed inside the database, and audit events of lifecycle commands, which are best effort.
- JSON and cursor encoding: cursors are modelled as the pair they carry; mismatching or malformed cursors and negative limits, which validation refuses before, are not modelled.
- Timestamp precision: the database keeps microseconds, the model keeps what it is given.
- Several servers with clocks of their own: the commands of `RuleSystem` and its cycles read one clock, which moves between commands; what rows stamped by other clocks do to a cycle is what `RuleAgreement.SyncRestoresIff` says, which assumes no clock.
- Overlapping commands on one rule and the cache: agreement is about whole commands one after another; `Lifecycle` treats overlap for the tables only.
- Rule texts: how names, expressions and descriptions are normalised and how long they may be are parameters of `RuleSystem`; `Create` is given a rule whose texts are normalised already.
- RuleCache.RuleCache.UpsertRule: the cache keeps the caller's object, as the code does; a caller that goes on writing to it is not covered by the isolation results.
- RuleHeap.DeepCopy: the pointees of a scope are copied first and the new slice is filled from the copies, where the code fills the slice in place.
- RuleCache.RuleCache.GetActiveRules: nil entries and entries without a rule, which the code skips, do not exist in the model's types; matching and copying are two passes where the code has one, with the same result under the lock.
- ArrayReader.LiteralIsUnderstoodIff: the reader knows one-dimensional literals only; nested braces and dimension prefixes are errors in it.
- Uuid.ParseText: it is about the canonical spelling; the UUID library's parser with its other spellings is a parameter of `UuidArray`.
- Sanitizer.MetadataSanitizer.Sanitize: the heap is an explicit map from addresses to nodes, so that the input cannot change by construction; outputs are trees, and `SanitizerTwice.LaidOut` says how they lie in the heap. One address has one node: a pointer to the first element of a slice that is in the same metadata is not modelled.
- Sanitizer.MetadataSanitizer.Sanitize: the patterns for sensitive keys are one arbitrary predicate.
- FunctionMigrations.LoadMigrations: parsing of file names; a file is what its name parses to, and whether it can be read.
- FunctionMigrations.Database.Up: the advisory lock itself; calls run one after another.
- LimitEntity.Limit.NewLimitWithTimeWindow: the parsing of the two time texts is the caller's option value.
- Utilisation percentages, near-limit flags, enum checks and name patterns.
