/** One cycle of the sync worker: fetch the changed rows, classify them, compile, apply. */
module RuleSync {
  import opened Prelude
  import opened Calendar
  import opened Rules
  import opened RuleAgreement

  predicate DistinctRows(rows: seq<Rule>) {
    forall i, j :: 0 <= i < j < |rows| ==> rows[i].id != rows[j].id
  }

  // The rows a query selects, each once, in any order.
  ghost predicate IsSelection(rows: seq<Rule>, table: Table, ids: set<nat>) {
    DistinctRows(rows) && forall r :: r in rows <==> r.id in ids && r.id in table && table[r.id] == r
  }

  method Select(table: Table, ids: set<nat>) returns (rows: seq<Rule>)
    requires TableOk(table) && ids <= table.Keys
    ensures IsSelection(rows, table, ids)
  {
    rows := [];
    var rest := ids;
    while rest != {}
      invariant rest <= ids && IsSelection(rows, table, ids - rest)
      decreases |rest|
    {
      var id :| id in rest;
      assert RowOk(id, table[id]);
      assert forall k :: 0 <= k < |rows| ==> rows[k] in rows;
      rest := rest - {id};
      rows := rows + [table[id]];
    }
    assert ids - rest == ids;
  }

  predicate Fetches(table: Table, since: Instant, r: Rule) {
    r.id in table && table[r.id] == r && since <= r.updatedAt
  }

  ghost predicate IsFetch(rows: seq<Rule>, table: Table, since: Instant) {
    DistinctRows(rows) && forall r :: r in rows <==> Fetches(table, since, r)
  }

  method GetRulesUpdatedSince(table: Table, since: Instant) returns (rows: seq<Rule>)
    requires TableOk(table)
    ensures IsFetch(rows, table, since)
  {
    var ids := set id | id in table && since <= table[id].updatedAt;
    rows := Select(table, ids);
    forall r ensures r in rows <==> Fetches(table, since, r) {
    }
  }

  method GetAllActiveRules(table: Table) returns (rows: seq<Rule>)
    requires TableOk(table)
    ensures DistinctRows(rows) && forall r :: r in rows <==> r.id in table && table[r.id] == r && Live(r)
  {
    var ids := set id | id in table && Live(table[id]);
    rows := Select(table, ids);
    forall r ensures r in rows <==> r.id in table && table[r.id] == r && Live(r) {
    }
  }

  predicate IsNew(cached: Contents, r: Rule) {
    r.status == Active && r.id !in cached
  }

  predicate IsUpdated(cached: Contents, r: Rule) {
    r.status == Active && r.id in cached && cached[r.id].rule.updatedAt < r.updatedAt
  }

  predicate IsGone(cached: Contents, r: Rule) {
    r.status != Active && r.id in cached
  }

  method ClassifyChanges(cached: Contents, fetched: seq<Rule>) returns (added: seq<Rule>, updated: seq<Rule>, deleted: seq<nat>)
    ensures forall r :: r in added <==> r in fetched && IsNew(cached, r)
    ensures forall r :: r in updated <==> r in fetched && IsUpdated(cached, r)
    ensures forall id :: id in deleted <==> exists r :: r in fetched && IsGone(cached, r) && r.id == id
    ensures DistinctRows(fetched) ==> DistinctRows(added) && DistinctRows(updated)
  {
    added, updated, deleted := [], [], [];
    for i := 0 to |fetched|
      invariant forall r :: r in added <==> r in fetched[..i] && IsNew(cached, r)
      invariant forall r :: r in updated <==> r in fetched[..i] && IsUpdated(cached, r)
      invariant forall id :: id in deleted <==> exists r :: r in fetched[..i] && IsGone(cached, r) && r.id == id
      invariant DistinctRows(fetched) ==> DistinctRows(added) && DistinctRows(updated)
    {
      var rule := fetched[i];
      assert fetched[..i + 1] == fetched[..i] + [rule];
      assert forall k :: 0 <= k < |added| ==> added[k] in added;
      assert forall k :: 0 <= k < |updated| ==> updated[k] in updated;
      if rule.status != Active {
        if rule.id in cached { deleted := deleted + [rule.id]; }
      } else if rule.id !in cached {
        added := added + [rule];
      } else if cached[rule.id].rule.updatedAt < rule.updatedAt {
        updated := updated + [rule];
      }
    }
    assert fetched[..|fetched|] == fetched;
  }

  // Compile what is new or updated; an expression that does not compile is cached without a program.
  method CompileAll(rows: seq<Rule>, compile: string -> Option<Program>) returns (entries: seq<Entry>)
    ensures |entries| == |rows|
    ensures forall k :: 0 <= k < |rows| ==> entries[k] == Entry(rows[k], compile(rows[k].expression))
  {
    entries := [];
    for i := 0 to |rows|
      invariant |entries| == i
      invariant forall k :: 0 <= k < i ==> entries[k] == Entry(rows[k], compile(rows[k].expression))
    {
      entries := entries + [Entry(rows[i], compile(rows[i].expression))];
    }
  }

  // The delta of one cycle leaves at every id what the classification says.
  lemma DeltaAt(table: Table, cache: Contents, since: Instant, compile: string -> Option<Program>,
                fetched: seq<Rule>, rows: seq<Rule>, deleted: seq<nat>, entries: seq<Entry>, id: nat)
    requires TableOk(table) && IsFetch(fetched, table, since)
    requires DistinctRows(rows) && forall r :: r in rows <==> r in fetched && IsNewOrNewer(cache, r)
    requires forall i :: i in deleted <==> exists r :: r in fetched && IsGone(cache, r) && r.id == i
    requires |entries| == |rows| && forall k :: 0 <= k < |rows| ==> entries[k] == Entry(rows[k], compile(rows[k].expression))
    ensures At(Applied(cache, entries, deleted), id) == SyncedAt(table, cache, since, compile, id)
  {
    LoadedIds(entries);
    if id in table { assert RowOk(id, table[id]); }
    if id in Loaded(entries) {
      var k :| 0 <= k < |entries| && entries[k].rule.id == id;
      LoadedAt(entries, k);
      assert rows[k] in rows;
    }
    if id in table && Fetches(table, since, table[id]) && IsGone(cache, table[id]) {
      assert id in deleted;
    }
  }

  method Sync(table: Table, cache: Contents, since: Instant, compile: string -> Option<Program>)
    returns (result: Contents, fetched: seq<Rule>)
    requires TableOk(table)
    ensures IsSynced(table, cache, since, compile, result)
    ensures IsFetch(fetched, table, since)
  {
    fetched := GetRulesUpdatedSince(table, since);
    var added, updated, deleted := ClassifyChanges(cache, fetched);
    var rows := added + updated;
    assert DistinctRows(rows) by {
      forall i, j | 0 <= i < |added| && 0 <= j < |updated| ensures added[i].id != updated[j].id {
        assert added[i] in added && updated[j] in updated;
      }
    }
    var entries := CompileAll(rows, compile);
    result := Applied(cache, entries, deleted);
    forall id ensures At(result, id) == SyncedAt(table, cache, since, compile, id) {
      DeltaAt(table, cache, since, compile, fetched, rows, deleted, entries, id);
    }
  }
}
