/**
 * Whole commands on one rule system, one after another: create, update, activate, deactivate,
 * draft, delete, warm-up and sync cycles, with a repository that may refuse a call or lose its answer.
 */
module RuleCommands {
  import opened Prelude
  import opened Calendar
  import opened Scopes
  import opened Rules
  import opened RuleAgreement
  import opened RuleSync
  import V = ValidationProtocol

  // How a repository write goes: it answers, it fails without effect, or it takes effect and reports an error.
  datatype Write = Answers | Refuses | LosesAnswer

  datatype Edit = Edit(name: Option<string>, expression: Option<string>, description: Option<string>,
                       scopes: Option<seq<Scope>>, action: Option<V.Decision>)

  datatype Command =
    | Create(rule: Rule, write: Write)
    | Update(id: nat, edit: Edit, readFails: bool, write: Write)
    | Activate(id: nat, readFails: bool, write: Write)
    | Deactivate(id: nat, readFails: bool, write: Write)
    | Redraft(id: nat, readFails: bool, write: Write)
    | Delete(id: nat, readFails: bool, write: Write)

  // One thing that happens to the system, and the time that passes before it.
  datatype Event = Do(command: Command, pause: nat) | SyncNow(fails: bool, pause: nat)

  // The two tables at one time.
  datatype Moment = Moment(table: Table, cache: Contents, clock: Instant)

  // Commands that tell the cache everything they do.
  predicate Tidy(e: Event) {
    e.Do? ==> !e.command.Update? && !e.command.write.LosesAnswer?
  }

  function NewRule(r: Rule, now: Instant): Rule {
    r.(status := Draft, createdAt := now, updatedAt := now, activatedAt := None, deactivatedAt := None, deletedAt := None)
  }

  // A row as it is created: a draft of the given content, stamped with the present, never activated.
  predicate IsNewDraft(given: Rule, row: Rule, now: Instant) {
    row.id == given.id && row.name == given.name && row.description == given.description && row.expression == given.expression
    && row.action == given.action && row.scopes == given.scopes
    && row.status == Draft && row.createdAt == row.updatedAt == now
    && row.activatedAt.None? && row.deactivatedAt.None? && row.deletedAt.None?
  }

  // What is done to texts before they are stored, and which are short enough: lower case, trimming and single
  // spaces for a name, trimming for the others.
  datatype RuleTexts = RuleTexts(name: string -> string, trim: string -> string,
                                 nameFits: string -> bool, expressionFits: string -> bool, descriptionFits: string -> bool)

  function NormalName(texts: RuleTexts, name: string): string {
    texts.name(name)
  }

  function Trimmed(texts: RuleTexts, text: string): string {
    texts.trim(text)
  }

  // What Rule.Update asks of the texts and scopes it is given.
  predicate EditFits(texts: RuleTexts, edit: Edit) {
    (edit.name.Some? ==> NormalName(texts, edit.name.value) != "" && texts.nameFits(NormalName(texts, edit.name.value)))
    && (edit.expression.Some? ==> Trimmed(texts, edit.expression.value) != "" && texts.expressionFits(Trimmed(texts, edit.expression.value)))
    && (edit.description.Some? ==> texts.descriptionFits(Trimmed(texts, edit.description.value)))
    && (edit.scopes.Some? ==> forall s :: s in edit.scopes.value ==> !IsEmpty(s))
  }

  // A row with texts and scopes as a new rule has to have them.
  predicate RowFits(texts: RuleTexts, row: Rule) {
    row.name != "" && texts.nameFits(row.name) && row.expression != "" && texts.expressionFits(row.expression)
    && (row.description.Some? ==> texts.descriptionFits(row.description.value))
    && EmptyScope !in row.scopes
  }

  // An edit of a row that fits is accepted exactly if the row still fits with it.
  lemma EditFitsIff(texts: RuleTexts, row: Rule, edit: Edit, now: Instant)
    requires RowFits(texts, row)
    ensures EditFits(texts, edit) <==> RowFits(texts, Edited(texts, row, edit, now))
  {
  }

  // SetAction, then Rule.Update: the timestamp moves when anything is given, except for an action that is the same.
  function Edited(texts: RuleTexts, r: Rule, edit: Edit, now: Instant): Rule {
    var acted := if edit.action.Some? && edit.action.value != r.action then r.(action := edit.action.value, updatedAt := now) else r;
    if edit.name.None? && edit.expression.None? && edit.description.None? && edit.scopes.None? then acted
    else
      acted.(name := if edit.name.Some? then NormalName(texts, edit.name.value) else r.name,
             expression := if edit.expression.Some? then Trimmed(texts, edit.expression.value) else r.expression,
             description := if edit.description.Some? then Some(Trimmed(texts, edit.description.value)) else r.description,
             scopes := if edit.scopes.Some? then edit.scopes.value else r.scopes,
             updatedAt := now)
  }

  // Whether an edit moves the row: any text or scopes given at all, or an action that is not the same.
  predicate GivesChange(r: Rule, edit: Edit) {
    edit.name.Some? || edit.expression.Some? || edit.description.Some? || edit.scopes.Some?
    || (edit.action.Some? && edit.action.value != r.action)
  }

  // A row before and after an edit, field by field: what the edit gives is there, texts normalised, what it does
  // not give is as it was, and the timestamp is the present exactly when the edit gives a change.
  predicate EditShows(texts: RuleTexts, before: Rule, after: Rule, edit: Edit, now: Instant) {
    (match edit.name case Some(name) => after.name == NormalName(texts, name) case None => after.name == before.name)
    && (match edit.expression
        case Some(expression) => after.expression == Trimmed(texts, expression)
        case None => after.expression == before.expression)
    && (match edit.description
        case Some(description) => after.description == Some(Trimmed(texts, description))
        case None => after.description == before.description)
    && (match edit.scopes case Some(scopes) => after.scopes == scopes case None => after.scopes == before.scopes)
    && (match edit.action case Some(action) => after.action == action case None => after.action == before.action)
    && after.updatedAt == (if GivesChange(before, edit) then now else before.updatedAt)
    && after.id == before.id && after.status == before.status && after.createdAt == before.createdAt
    && after.activatedAt == before.activatedAt && after.deactivatedAt == before.deactivatedAt && after.deletedAt == before.deletedAt
  }

  lemma EditedShows(texts: RuleTexts, r: Rule, edit: Edit, now: Instant)
    ensures EditShows(texts, r, Edited(texts, r, edit, now), edit, now)
  {
  }

  predicate HasStatus(table: Table, id: nat, status: Status) {
    Visible(table, id) && table[id].status == status
  }

  // A stale id is one that the next cycle will see.
  predicate SightAt(table: Table, cache: Contents, horizon: int, compile: string -> Option<Program>, id: nat) {
    AgreesAt(table, cache, compile, id) || !OutOfSight(table, cache, if horizon < 0 then 0 else horizon, id)
  }

  ghost predicate InSight(table: Table, cache: Contents, horizon: int, compile: string -> Option<Program>) {
    forall id :: SightAt(table, cache, horizon, compile, id)
  }

  predicate TimesOk(table: Table, cache: Contents, clock: Instant) {
    (forall id :: id in table ==> table[id].updatedAt <= clock)
    && (forall id :: id in cache ==> cache[id].rule.id == id && cache[id].rule.updatedAt <= clock)
  }

  // Status changes follow the transition table, and a deleted row never changes again.
  predicate RowFollows(before: Rule, after: Rule) {
    (before.status == after.status || CanTransition(before.status, after.status))
    && (before.deletedAt.Some? ==> after == before)
  }

  predicate Follows(before: Table, after: Table) {
    forall id :: id in before ==> id in after && RowFollows(before[id], after[id])
  }

  ghost predicate SameBut<T>(before: map<nat, T>, after: map<nat, T>, id: nat) {
    forall k :: k != id ==> (k in before <==> k in after) && (k in before ==> before[k] == after[k])
  }

  lemma ElsewhereUntouched(table: Table, cache: Contents, table': Table, cache': Contents, horizon: int,
                           compile: string -> Option<Program>, id: nat)
    requires SameBut(table, table', id) && SameBut(cache, cache', id)
    ensures InSight(table, cache, horizon, compile) && SightAt(table', cache', horizon, compile, id) ==> InSight(table', cache', horizon, compile)
    ensures Agrees(table, cache, compile) ==> (Agrees(table', cache', compile) <==> AgreesAt(table', cache', compile, id))
  {
    forall k | k != id
      ensures AgreesAt(table', cache', compile, k) == AgreesAt(table, cache, compile, k)
      ensures SightAt(table', cache', horizon, compile, k) == SightAt(table, cache, horizon, compile, k)
    {
    }
  }

  // A full load shows every live row, and nothing else.
  lemma LoadedAgreesAt(table: Table, rules: seq<Rule>, entries: seq<Entry>, compile: string -> Option<Program>, id: nat)
    requires DistinctRows(rules) && forall r :: r in rules <==> r.id in table && table[r.id] == r && Live(r)
    requires TableOk(table) && |entries| == |rules|
    requires forall k :: 0 <= k < |rules| ==> entries[k] == Entry(rules[k], compile(rules[k].expression))
    ensures AgreesAt(table, Loaded(entries), compile, id)
    ensures id in Loaded(entries) ==> id in table && Loaded(entries)[id].rule == table[id]
  {
    LoadedIds(entries);
    if id in Loaded(entries) {
      var k :| 0 <= k < |entries| && entries[k].rule.id == id;
      LoadedAt(entries, k);
      assert rules[k] in rules;
    }
  }

  lemma LoadedAgrees(table: Table, rules: seq<Rule>, entries: seq<Entry>, compile: string -> Option<Program>)
    requires DistinctRows(rules) && forall r :: r in rules <==> r.id in table && table[r.id] == r && Live(r)
    requires TableOk(table) && |entries| == |rules|
    requires forall k :: 0 <= k < |rules| ==> entries[k] == Entry(rules[k], compile(rules[k].expression))
    ensures Agrees(table, Loaded(entries), compile)
    ensures forall id :: id in Loaded(entries) ==> id in table && Loaded(entries)[id].rule == table[id]
  {
    forall id
      ensures AgreesAt(table, Loaded(entries), compile, id)
      ensures id in Loaded(entries) ==> id in table && Loaded(entries)[id].rule == table[id]
    {
      LoadedAgreesAt(table, rules, entries, compile, id);
    }
  }

  lemma CycleRestores(table: Table, cache: Contents, horizon: int, since: Instant, compile: string -> Option<Program>, result: Contents)
    requires TableOk(table) && IsSynced(table, cache, since, compile, result)
    requires since == (if horizon < 0 then 0 else horizon) && InSight(table, cache, horizon, compile)
    ensures Agrees(table, result, compile)
  {
    forall id ensures AgreesAt(table, result, compile, id) {
      assert SightAt(table, cache, horizon, compile, id);
      SyncRestoresAt(table, cache, since, compile, result, id);
    }
  }

  lemma CycleKeepsTimes(table: Table, cache: Contents, since: Instant, compile: string -> Option<Program>, result: Contents, clock: Instant)
    requires TableOk(table) && TimesOk(table, cache, clock) && IsSynced(table, cache, since, compile, result)
    ensures TimesOk(table, result, clock)
  {
    forall id | id in result ensures result[id].rule.id == id && result[id].rule.updatedAt <= clock {
      assert At(result, id) == SyncedAt(table, cache, since, compile, id);
      if id in table { assert RowOk(id, table[id]); }
    }
  }

  lemma CycleEnds(table: Table, cache: Contents, horizon: int, since: Instant, compile: string -> Option<Program>, result: Contents, clock: Instant)
    requires TableOk(table) && TimesOk(table, cache, clock) && IsSynced(table, cache, since, compile, result)
    requires since == (if horizon < 0 then 0 else horizon)
    ensures TimesOk(table, result, clock)
    ensures InSight(table, cache, horizon, compile) ==> Agrees(table, result, compile)
    ensures Agrees(table, cache, compile) ==> result == cache && Agrees(table, result, compile)
  {
    CycleKeepsTimes(table, cache, since, compile, result, clock);
    if InSight(table, cache, horizon, compile) { CycleRestores(table, cache, horizon, since, compile, result); }
    if Agrees(table, cache, compile) { ReplayIsHarmless(table, cache, since, compile, result); }
  }

  lemma AgreeingIsInSight(table: Table, cache: Contents, horizon: int, compile: string -> Option<Program>)
    ensures Agrees(table, cache, compile) ==> InSight(table, cache, horizon, compile)
  {
    if Agrees(table, cache, compile) {
      forall id ensures SightAt(table, cache, horizon, compile, id) { assert AgreesAt(table, cache, compile, id); }
    }
  }

  predicate NewerThan(r: Rule, t: Instant) {
    t < r.updatedAt
  }

  // The newest timestamp fetched, or the present if nothing fetched is newer than the last one. Rows may be
  // stamped by clocks ahead of this one.
  method UpdateLastSync(fetched: seq<Rule>, lastSync: Instant, now: Instant) returns (next: Instant)
    ensures (exists r :: r in fetched && NewerThan(r, lastSync)) ==>
              (exists r :: r in fetched && r.updatedAt == next) && forall r :: r in fetched ==> !NewerThan(r, next)
    ensures (forall r :: r in fetched ==> !NewerThan(r, lastSync)) ==> next == now
    ensures lastSync <= now ==> lastSync <= next
    ensures lastSync <= now && (forall r :: r in fetched ==> !NewerThan(r, now)) ==> next <= now
  {
    if |fetched| == 0 { return now; }
    var maxTime := lastSync;
    for i := 0 to |fetched|
      invariant lastSync <= maxTime
      invariant maxTime == lastSync || exists r :: r in fetched && r.updatedAt == maxTime
      invariant forall k :: 0 <= k < i ==> !NewerThan(fetched[k], maxTime)
    {
      assert fetched[i] in fetched;
      if fetched[i].updatedAt > maxTime { maxTime := fetched[i].updatedAt; }
    }
    next := if maxTime == lastSync then now else maxTime;
  }

  // The horizon after a successful cycle: the newest timestamp in the table if it is newer than the last one,
  // and otherwise the present.
  ghost predicate IsNextHorizon(table: Table, lastSync: Instant, now: Instant, next: Instant) {
    if exists id :: id in table && NewerThan(table[id], lastSync) then
      (exists id :: id in table && table[id].updatedAt == next) && forall id :: id in table ==> !NewerThan(table[id], next)
    else
      next == now
  }

  lemma FetchedHorizon(table: Table, since: Instant, fetched: seq<Rule>, lastSync: Instant, now: Instant, next: Instant)
    requires TableOk(table) && IsFetch(fetched, table, since) && since <= lastSync
    requires (exists r :: r in fetched && NewerThan(r, lastSync)) ==>
               lastSync <= next && (exists r :: r in fetched && r.updatedAt == next) && forall r :: r in fetched ==> !NewerThan(r, next)
    requires (forall r :: r in fetched ==> !NewerThan(r, lastSync)) ==> next == now
    ensures IsNextHorizon(table, lastSync, now, next)
  {
    forall id | id in table && NewerThan(table[id], lastSync) ensures table[id] in fetched {
      assert RowOk(id, table[id]) && Fetches(table, since, table[id]);
    }
    if r :| r in fetched && NewerThan(r, lastSync) {
      assert Fetches(table, since, r);
      var newest :| newest in fetched && newest.updatedAt == next;
      assert Fetches(table, since, newest);
    }
  }

  class RuleSystem {
    var table: Table
    var cache: Contents
    var ready: bool
    var clock: Instant
    var lastSync: Instant
    const overlap: nat
    const compile: string -> Option<Program>
    const texts: RuleTexts

    // The instant from which the next cycle fetches changes.
    function Horizon(): int
      reads this
    {
      lastSync - overlap
    }

    ghost predicate Sound()
      reads this
    {
      TableOk(table) && TimesOk(table, cache, clock) && lastSync <= clock
      && (ready ==> InSight(table, cache, Horizon(), compile))
    }

    ghost predicate InStep()
      reads this
    {
      Agrees(table, cache, compile)
    }

    constructor (compile: string -> Option<Program>, texts: RuleTexts, overlap: nat)
      ensures Sound() && InStep() && !ready && table == map[] && clock == 0
      ensures this.compile == compile && this.texts == texts && this.overlap == overlap
    {
      table, cache, ready, clock, lastSync := map[], map[], false, 0, 0;
      this.compile, this.texts := compile, texts;
      this.overlap := overlap;
    }

    // Any write of one row: `written` is the table it would leave, None when no row matches.
    method Store(written: Option<Table>, id: nat, now: Instant, write: Write) returns (err: bool)
      requires Sound() && clock < now
      requires written.Some? ==> SameBut(table, written.value, id) && id in written.value && RowOk(id, written.value[id])
      requires written.Some? ==> Follows(table, written.value)
      requires written.Some? ==> written.value == table || written.value[id].updatedAt == now
      modifies this`table, this`clock
      ensures Sound() && clock == now && Follows(old(table), table) && SameBut(old(table), table, id)
      ensures table == (if written.None? || write.Refuses? then old(table) else written.value)
      ensures err == (written.None? || !write.Answers?)
    {
      if written.Some? && !write.Refuses? {
        ElsewhereUntouched(table, cache, written.value, cache, Horizon(), compile, id);
        table := written.value;
      }
      clock := now;
      err := written.None? || !write.Answers?;
    }

    // A live rule as it is in the table.
    method CacheUpsert(entry: Entry)
      requires Sound() && entry.rule.updatedAt <= clock
      requires AgreesAt(table, cache[entry.rule.id := entry], compile, entry.rule.id)
      modifies this`cache
      ensures Sound() && cache == old(cache)[entry.rule.id := entry]
    {
      ghost var id := entry.rule.id;
      UpsertOne(cache, entry);
      ElsewhereUntouched(table, cache, table, cache[id := entry], Horizon(), compile, id);
      cache := Applied(cache, [entry], []);
    }

    // A rule that is not live.
    method CacheRemove(id: nat)
      requires Sound() && !(id in table && Live(table[id]))
      modifies this`cache
      ensures Sound() && cache == old(cache) - {id}
    {
      RemoveOne(cache, id);
      ElsewhereUntouched(table, cache, table, cache - {id}, Horizon(), compile, id);
      cache := Applied(cache, [], [id]);
    }

    method GetById(id: nat, fails: bool) returns (rule: Option<Rule>)
      ensures rule == if fails || !Visible(table, id) then None else Some(table[id])
    {
      return if fails || !Visible(table, id) then None else Some(table[id]);
    }

    method Create(rule: Rule, now: Instant, write: Write) returns (err: bool)
      requires Sound() && clock < now
      requires rule.id !in table && rule.status == Draft && rule.deletedAt.None? && rule.updatedAt == now
      modifies this`table, this`clock
      ensures Sound() && clock == now && Follows(old(table), table)
      ensures table == (if compile(rule.expression).None? || write.Refuses? then old(table) else old(table)[rule.id := rule])
      ensures err == (compile(rule.expression).None? || !write.Answers?)
      ensures old(InStep()) ==> InStep()
    {
      if compile(rule.expression).None? {
        clock := now;
        return true;
      }
      assert InStep() ==> AgreesAt(table, cache, compile, rule.id);
      ElsewhereUntouched(table, cache, table[rule.id := rule], cache, Horizon(), compile, rule.id);
      err := Store(Some(table[rule.id := rule]), rule.id, now, write);
    }

    method Activate(id: nat, now: Instant, readFails: bool, write: Write) returns (err: bool)
      requires Sound() && clock < now
      modifies this`table, this`clock, this`cache
      ensures Sound() && clock == now && Follows(old(table), table)
      ensures err <==> readFails || !MayActivate(old(table), id) || (old(table)[id].status != Active && !write.Answers?)
      ensures table == if !readFails && MayActivate(old(table), id) && old(table)[id].status != Active && !write.Refuses?
                       then old(table)[id := old(table)[id].(status := Active, updatedAt := now)] else old(table)
      ensures cache == if !readFails && MayActivate(old(table), id) && old(table)[id].status != Active && write.Answers?
                       then old(cache)[id := ActiveEntry(old(table)[id], now)] else old(cache)
      // In step as before, unless the answer to a write that took effect was lost.
      ensures old(InStep()) ==>
                (InStep() <==> readFails || !MayActivate(old(table), id) || old(table)[id].status == Active || !write.LosesAnswer?)
    {
      var found := GetById(id, readFails);
      if found.None? || found.value.expression == "" || found.value.status == Active {
        clock := now;
        return found.None? || found.value.expression == "";
      }
      var rule := found.value;
      assert RowOk(id, rule);
      var program := compile(rule.expression);
      var next := SetStatus(rule, Active, now);
      if program.None? || next.Invalid? {
        clock := now;
        return true;
      }
      err := Publish(next.rule, program, now, write);
    }

    // Store the activated rule, then tell the cache.
    method Publish(rule: Rule, program: Option<Program>, now: Instant, write: Write) returns (err: bool)
      requires Sound() && clock < now && Visible(table, rule.id)
      requires SetStatus(table[rule.id], Active, now) == Changed(rule) && program == compile(rule.expression)
      modifies this`table, this`clock, this`cache
      ensures Sound() && clock == now && Follows(old(table), table) && err == !write.Answers?
      ensures table == if write.Refuses? then old(table) else old(table)[rule.id := old(table)[rule.id].(status := Active, updatedAt := now)]
      ensures cache == if err then old(cache) else old(cache)[rule.id := Entry(rule, program)]
      ensures old(InStep()) ==> (InStep() <==> !write.LosesAnswer?)
    {
      var id := rule.id;
      assert RowOk(id, table[id]);
      ghost var table0, cache0 := table, cache;
      assert InStep() ==> AgreesAt(table, cache, compile, id);
      err := Store(Written(table, rule), id, now, write);
      if !err { CacheUpsert(Entry(rule, program)); }
      ElsewhereUntouched(table0, cache0, table, cache, Horizon(), compile, id);
    }

    // What Activate asks of the row.
    predicate MayActivate(t: Table, id: nat) {
      Visible(t, id) && t[id].expression != ""
      && (t[id].status == Active || (compile(t[id].expression).Some? && (t[id].status == Draft || t[id].status == Inactive)))
    }

    // What it puts into the cache.
    function ActiveEntry(row: Rule, now: Instant): Entry {
      Entry(row.(status := Active, updatedAt := now, activatedAt := Some(now), deactivatedAt := None, deletedAt := None), compile(row.expression))
    }

    method Deactivate(id: nat, now: Instant, readFails: bool, write: Write) returns (err: bool)
      requires Sound() && clock < now
      modifies this`table, this`clock, this`cache
      ensures Sound() && clock == now && Follows(old(table), table)
      ensures err <==> readFails || !(HasStatus(old(table), id, Inactive) || (HasStatus(old(table), id, Active) && write.Answers?))
      ensures table == if !readFails && HasStatus(old(table), id, Active) && !write.Refuses?
                       then old(table)[id := old(table)[id].(status := Inactive, updatedAt := now)] else old(table)
      ensures cache == if !readFails && HasStatus(old(table), id, Active) && write.Answers? then old(cache) - {id} else old(cache)
      ensures old(InStep()) ==> (InStep() <==> readFails || !HasStatus(old(table), id, Active) || !write.LosesAnswer?)
    {
      var found := GetById(id, readFails);
      if found.None? || found.value.status == Inactive {
        clock := now;
        return found.None?;
      }
      var rule := found.value;
      assert RowOk(id, rule);
      var next := SetStatus(rule, Inactive, now);
      if next.Invalid? {
        clock := now;
        return true;
      }
      err := Withdraw(next.rule, now, write);
    }

    // Store the deactivated rule, then tell the cache.
    method Withdraw(rule: Rule, now: Instant, write: Write) returns (err: bool)
      requires Sound() && clock < now && Visible(table, rule.id)
      requires SetStatus(table[rule.id], Inactive, now) == Changed(rule)
      modifies this`table, this`clock, this`cache
      ensures Sound() && clock == now && Follows(old(table), table) && err == !write.Answers?
      ensures table == if write.Refuses? then old(table) else old(table)[rule.id := old(table)[rule.id].(status := Inactive, updatedAt := now)]
      ensures cache == if err then old(cache) else old(cache) - {rule.id}
      ensures old(InStep()) ==> (InStep() <==> !write.LosesAnswer?)
    {
      var id := rule.id;
      assert RowOk(id, table[id]);
      ghost var table0, cache0 := table, cache;
      assert InStep() ==> AgreesAt(table, cache, compile, id);
      err := Store(Written(table, rule), id, now, write);
      if !err { CacheRemove(id); }
      ElsewhereUntouched(table0, cache0, table, cache, Horizon(), compile, id);
    }

    // Back to draft: only from INACTIVE, which is not cached, so the cache is not told.
    method Redraft(id: nat, now: Instant, readFails: bool, write: Write) returns (err: bool)
      requires Sound() && clock < now
      modifies this`table, this`clock
      ensures Sound() && clock == now && Follows(old(table), table)
      ensures err <==> readFails || !(HasStatus(old(table), id, Draft) || (HasStatus(old(table), id, Inactive) && write.Answers?))
      ensures table == if !readFails && HasStatus(old(table), id, Inactive) && !write.Refuses?
                       then old(table)[id := old(table)[id].(status := Draft, updatedAt := now)] else old(table)
      ensures old(InStep()) ==> InStep()
    {
      var found := GetById(id, readFails);
      if found.None? || found.value.status == Draft {
        clock := now;
        return found.None?;
      }
      var rule := found.value;
      assert RowOk(id, rule);
      var next := SetStatus(rule, Draft, now);
      if next.Invalid? {
        clock := now;
        return true;
      }
      rule := next.rule;
      ghost var table0 := table;
      assert InStep() ==> AgreesAt(table, cache, compile, id);
      err := Store(Written(table, rule), id, now, write);
      ElsewhereUntouched(table0, cache, table, cache, Horizon(), compile, id);
    }

    method Delete(id: nat, now: Instant, readFails: bool, write: Write) returns (err: bool)
      requires Sound() && clock < now
      modifies this`table, this`clock
      ensures Sound() && clock == now && Follows(old(table), table)
      ensures err <==> readFails || !(HasStatus(old(table), id, Draft) || HasStatus(old(table), id, Inactive)) || !write.Answers?
      ensures table == if !readFails && (HasStatus(old(table), id, Draft) || HasStatus(old(table), id, Inactive)) && !write.Refuses?
                       then old(table)[id := old(table)[id].(status := Deleted, deletedAt := Some(now), updatedAt := now)] else old(table)
      ensures old(InStep()) ==> InStep()
    {
      var found := GetById(id, readFails);
      if found.None? || !CanTransition(found.value.status, Deleted) {
        clock := now;
        assert id in table ==> RowOk(id, table[id]);
        return true;
      }
      assert RowOk(id, found.value);
      ghost var table0 := table;
      assert InStep() ==> AgreesAt(table, cache, compile, id);
      err := Store(Removed(table, id, now), id, now, write);
      ElsewhereUntouched(table0, cache, table, cache, Horizon(), compile, id);
    }

    // Edits of a live rule are not told to the cache: it is stale until the next sync cycle.
    method Update(id: nat, edit: Edit, now: Instant, readFails: bool, write: Write) returns (err: bool)
      requires Sound() && clock < now
      modifies this`table, this`clock
      ensures Sound() && clock == now && Follows(old(table), table)
      ensures err <==> readFails || !MayEdit(old(table), id, edit) || !write.Answers?
      ensures SameBut(old(table), table, id)
      ensures if readFails || !MayEdit(old(table), id, edit) || write.Refuses? then table == old(table)
              else id in table && EditShows(texts, old(table)[id], table[id], edit, now)
      // The cache goes stale exactly when an ACTIVE rule is written and the edit gives anything new.
      ensures old(InStep()) ==>
                (InStep() <==> readFails || !MayEdit(old(table), id, edit) || write.Refuses?
                               || !HasStatus(old(table), id, Active) || !GivesChange(old(table)[id], edit))
    {
      var found := GetById(id, readFails);
      if found.None? || !EditAllowed(found.value, edit) {
        clock := now;
        return true;
      }
      assert RowOk(id, found.value);
      EditedShows(texts, found.value, edit, now);
      err := Rewrite(Edited(texts, found.value, edit, now), now, write);
    }

    // Store the edited rule and leave the cache as it is.
    method Rewrite(rule: Rule, now: Instant, write: Write) returns (err: bool)
      requires Sound() && clock < now && Visible(table, rule.id) && (rule == table[rule.id] || rule.updatedAt == now)
      requires rule == table[rule.id].(name := rule.name, expression := rule.expression, description := rule.description,
                                       action := rule.action, scopes := rule.scopes, updatedAt := rule.updatedAt)
      requires Live(table[rule.id]) ==> rule.expression == table[rule.id].expression
      modifies this`table, this`clock
      ensures Sound() && clock == now && Follows(old(table), table) && err == !write.Answers?
      ensures table == if write.Refuses? then old(table) else old(table)[rule.id := rule]
      ensures old(InStep()) ==> (InStep() <==> write.Refuses? || !Live(old(table)[rule.id]) || rule == old(table)[rule.id])
    {
      var id := rule.id;
      assert RowOk(id, table[id]);
      ghost var table0 := table;
      assert InStep() ==> AgreesAt(table, cache, compile, id);
      err := Store(Written(table, rule), id, now, write);
      ElsewhereUntouched(table0, cache, table, cache, Horizon(), compile, id);
    }

    predicate MayEdit(t: Table, id: nat, edit: Edit) {
      Visible(t, id) && EditAllowed(t[id], edit)
    }

    // An expression is edited in DRAFT only, and must compile as it was given.
    predicate EditAllowed(row: Rule, edit: Edit) {
      (edit.expression.Some? ==> row.status == Draft && compile(edit.expression.value).Some?) && EditFits(texts, edit)
    }

    // Replace the whole cache, or leave it as it is: one rule that does not compile aborts.
    method WarmUp(now: Instant, queryFails: bool, cancelled: bool) returns (err: bool)
      requires Sound() && clock <= now
      modifies this`cache, this`ready, this`clock, this`lastSync
      ensures Sound() && clock == now
      ensures !err ==> ready && InStep() && lastSync == now
      ensures err ==> cache == old(cache) && ready == old(ready) && lastSync == old(lastSync)
      ensures queryFails ==> err
      ensures !queryFails && !cancelled ==> (err <==> exists id :: id in table && Live(table[id]) && compile(table[id].expression).None?)
    {
      clock := now;
      if queryFails { return true; }
      var rules := GetAllActiveRules(table);
      var entries: seq<Entry> := [];
      for i := 0 to |rules|
        invariant |entries| == i
        invariant forall k :: 0 <= k < i ==> entries[k] == Entry(rules[k], compile(rules[k].expression)) && entries[k].program.Some?
      {
        if cancelled { return true; }
        var program := compile(rules[i].expression);
        if program.None? {
          assert rules[i] in rules;
          return true;
        }
        entries := entries + [Entry(rules[i], program)];
      }
      LoadedAgrees(table, rules, entries, compile);
      cache, lastSync, ready := Loaded(entries), now, true;
      err := false;
    }

    method SyncCycle(now: Instant, queryFails: bool) returns (err: bool)
      requires Sound() && clock <= now
      modifies this`cache, this`clock, this`lastSync
      ensures Sound() && clock == now && err == queryFails
      ensures err ==> cache == old(cache) && lastSync == old(lastSync)
      // Whatever was stale before, nothing is now.
      ensures !err && ready ==> InStep()
      ensures old(InStep()) ==> InStep() && cache == old(cache)
      ensures !err ==> IsNextHorizon(table, old(lastSync), now, lastSync)
      ensures !err ==> IsSynced(table, old(cache), if old(Horizon()) < 0 then 0 else old(Horizon()), compile, cache)
    {
      clock := now;
      if queryFails { return true; }
      var since: Instant := if Horizon() < 0 then 0 else Horizon();
      var result, fetched := Sync(table, cache, since, compile);
      CycleEnds(table, cache, Horizon(), since, compile, result, clock);
      var next := UpdateLastSync(fetched, lastSync, now);
      FetchedHorizon(table, since, fetched, lastSync, now, next);
      AgreeingIsInSight(table, result, next - overlap, compile);
      cache, lastSync := result, next;
      err := false;
    }

    // The id that a command is about.
    function Target(command: Command): nat {
      if command.Create? then command.rule.id else command.id
    }

    // Whether a command gets as far as writing the row; repeats of the present status do not.
    predicate Writes(t: Table, command: Command) {
      match command
      case Create(rule, _) => rule.id !in t && compile(rule.expression).Some?
      case Update(id, edit, readFails, _) => !readFails && MayEdit(t, id, edit)
      case Activate(id, readFails, _) => !readFails && MayActivate(t, id) && t[id].status != Active
      case Deactivate(id, readFails, _) => !readFails && HasStatus(t, id, Active)
      case Redraft(id, readFails, _) => !readFails && HasStatus(t, id, Inactive)
      case Delete(id, readFails, _) => !readFails && (HasStatus(t, id, Draft) || HasStatus(t, id, Inactive))
    }

    // A status command that finds its status already there does nothing and succeeds.
    predicate Repeats(t: Table, command: Command) {
      match command
      case Activate(id, readFails, _) => !readFails && MayActivate(t, id) && t[id].status == Active
      case Deactivate(id, readFails, _) => !readFails && HasStatus(t, id, Inactive)
      case Redraft(id, readFails, _) => !readFails && HasStatus(t, id, Draft)
      case _ => false
    }

    // The row that a command leaves when its write takes effect.
    ghost predicate Leaves(t: Table, row: Rule, command: Command, now: Instant) {
      match command
      case Create(rule, _) => IsNewDraft(rule, row, now)
      case Update(id, edit, _, _) => id in t && EditShows(texts, t[id], row, edit, now)
      case Activate(id, _, _) => id in t && row == t[id].(status := Active, updatedAt := now)
      case Deactivate(id, _, _) => id in t && row == t[id].(status := Inactive, updatedAt := now)
      case Redraft(id, _, _) => id in t && row == t[id].(status := Draft, updatedAt := now)
      case Delete(id, _, _) => id in t && row == t[id].(status := Deleted, updatedAt := now, deletedAt := Some(now))
    }

    // The cache after a write that answered.
    function Told(t: Table, c: Contents, command: Command, now: Instant): Contents {
      if command.Activate? && command.id in t then c[command.id := ActiveEntry(t[command.id], now)]
      else if command.Deactivate? then c - {command.id}
      else c
    }

    // Whether a whole command reports an error.
    predicate Reports(t: Table, command: Command) {
      !Repeats(t, command) && !(Writes(t, command) && command.write.Answers?)
    }

    // A whole command: what it leaves of the two tables it found.
    ghost predicate Executed(t: Table, c: Contents, command: Command, now: Instant, t': Table, c': Contents) {
      SameBut(t, t', Target(command))
      && (if Writes(t, command) && !command.write.Refuses?
          then Target(command) in t' && Leaves(t, t'[Target(command)], command, now)
          else t' == t)
      && c' == (if Writes(t, command) && command.write.Answers? then Told(t, c, command, now) else c)
    }

    method Execute(command: Command, now: Instant) returns (err: bool)
      requires Sound() && clock < now
      modifies this`table, this`clock, this`cache
      ensures Sound() && clock == now && Follows(old(table), table)
      ensures Executed(old(table), old(cache), command, now, table, cache) && err == Reports(old(table), command)
      ensures old(InStep()) && !command.Update? && !command.write.LosesAnswer? ==> InStep()
    {
      if command.Create? {
        err := ExecuteCreate(command, now);
      } else if command.Update? {
        err := Update(command.id, command.edit, now, command.readFails, command.write);
      } else if command.Activate? || command.Deactivate? {
        err := ExecuteSwitch(command, now);
      } else {
        err := ExecuteRetire(command, now);
      }
    }

    method ExecuteCreate(command: Command, now: Instant) returns (err: bool)
      requires Sound() && clock < now && command.Create?
      modifies this`table, this`clock
      ensures Sound() && clock == now && Follows(old(table), table)
      ensures Executed(old(table), cache, command, now, table, cache) && err == Reports(old(table), command)
      ensures old(InStep()) ==> InStep()
    {
      if command.rule.id in table {
        clock := now;
        return true;
      }
      err := Create(NewRule(command.rule, now), now, command.write);
    }

    method ExecuteSwitch(command: Command, now: Instant) returns (err: bool)
      requires Sound() && clock < now && (command.Activate? || command.Deactivate?)
      modifies this`table, this`clock, this`cache
      ensures Sound() && clock == now && Follows(old(table), table)
      ensures Executed(old(table), old(cache), command, now, table, cache) && err == Reports(old(table), command)
      ensures old(InStep()) && !command.write.LosesAnswer? ==> InStep()
    {
      if command.Activate? {
        err := Activate(command.id, now, command.readFails, command.write);
      } else {
        err := Deactivate(command.id, now, command.readFails, command.write);
      }
    }

    method ExecuteRetire(command: Command, now: Instant) returns (err: bool)
      requires Sound() && clock < now && (command.Redraft? || command.Delete?)
      modifies this`table, this`clock
      ensures Sound() && clock == now && Follows(old(table), table)
      ensures Executed(old(table), cache, command, now, table, cache) && err == Reports(old(table), command)
      ensures old(InStep()) ==> InStep()
    {
      if command.Redraft? {
        err := Redraft(command.id, now, command.readFails, command.write);
      } else {
        err := Delete(command.id, now, command.readFails, command.write);
      }
    }

    // One event: a command does what its contract says, a cycle touches no row and, unless it fails, ends in agreement.
    ghost predicate Happened(before: Moment, e: Event, after: Moment) {
      Follows(before.table, after.table)
      && match e
         case Do(command, pause) =>
           Executed(before.table, before.cache, command, before.clock + pause + 1, after.table, after.cache)
         case SyncNow(fails, _) =>
           after.table == before.table && (if fails then after.cache == before.cache else Agrees(after.table, after.cache, compile))
    }

    method Handle(e: Event) returns (ghost after: Moment)
      requires Sound() && ready
      modifies this`table, this`cache, this`clock, this`lastSync
      ensures Sound() && after == Moment(table, cache, clock)
      ensures Happened(old(Moment(table, cache, clock)), e, after)
      ensures old(InStep()) && Tidy(e) ==> InStep()
      ensures e.SyncNow? && !e.fails ==> InStep()
    {
      var now := clock + e.pause + 1;
      if e.Do? {
        var _ := Execute(e.command, now);
      } else {
        var _ := SyncCycle(now, e.fails);
      }
      after := Moment(table, cache, clock);
    }

    // One moment before each event so far and one after the last.
    ghost predicate Journal(history: seq<Moment>, script: seq<Event>) {
      0 < |history| <= |script| + 1
      && forall k :: 0 <= k < |history| - 1 ==> Happened(history[k], script[k], history[k + 1])
    }

    lemma OneMoreEvent(history: seq<Moment>, script: seq<Event>, after: Moment)
      requires Journal(history, script) && |history| <= |script|
      requires Happened(history[|history| - 1], script[|history| - 1], after)
      ensures Journal(history + [after], script)
    {
    }

    // Any sequence of whole commands and sync cycles, whatever fails in it. A cache that was once
    // warmed up is never further from the table than the next successful cycle; right after one, and
    // after any run of tidy commands, it is in step.
    method Run(script: seq<Event>) returns (ghost history: seq<Moment>)
      requires Sound() && ready
      modifies this`table, this`cache, this`clock, this`lastSync
      ensures Sound()
      // Every event does its work and follows the transition table.
      ensures |history| == |script| + 1 && history[0] == old(Moment(table, cache, clock)) && history[|script|] == Moment(table, cache, clock)
      ensures forall i :: 0 <= i < |script| ==> Happened(history[i], script[i], history[i + 1])
      ensures old(InStep()) && (forall i :: 0 <= i < |script| ==> Tidy(script[i])) ==> InStep()
      ensures script != [] && script[|script| - 1].SyncNow? && !script[|script| - 1].fails ==> InStep()
    {
      history := [Moment(table, cache, clock)];
      for i := 0 to |script|
        invariant Sound() && ready && |history| == i + 1 && Journal(history, script)
        invariant history[0] == old(Moment(table, cache, clock)) && history[i] == Moment(table, cache, clock)
        invariant old(InStep()) && (forall k :: 0 <= k < i ==> Tidy(script[k])) ==> InStep()
        invariant i > 0 && script[i - 1].SyncNow? && !script[i - 1].fails ==> InStep()
      {
        ghost var after := Handle(script[i]);
        OneMoreEvent(history, script, after);
        history := history + [after];
      }
    }
  }

  // A stale cache is four calls away: warm up, create a rule, activate it, rename it. Nothing fails, and
  // the cache goes on serving the rule under its old name.
  method RenamedRuleGoesStale(compile: string -> Option<Program>, texts: RuleTexts, overlap: nat, rule: Rule, name: string)
    returns (system: RuleSystem)
    requires rule.expression != "" && compile(rule.expression).Some?
    requires EditFits(texts, Edit(Some(name), None, None, None, None)) && NormalName(texts, name) != rule.name
    ensures fresh(system) && system.Sound() && system.ready && !system.InStep()
    ensures HasStatus(system.table, rule.id, Active) && system.table[rule.id].name == NormalName(texts, name)
    ensures rule.id in system.cache && system.cache[rule.id].rule.name == rule.name
  {
    system := new RuleSystem(compile, texts, overlap);
    var _ := system.WarmUp(0, false, false);
    assert system.table == map[] && system.InStep() && system.ready;
    var _ := system.Create(NewRule(rule, 1), 1, Answers);
    assert system.table == map[][rule.id := NewRule(rule, 1)];
    var _ := system.Activate(rule.id, 2, false, Answers);
    assert system.table[rule.id] == NewRule(rule, 1).(status := Active, updatedAt := 2);
    var _ := system.Update(rule.id, Edit(Some(name), None, None, None, None), 3, false, Answers);
  }
}
