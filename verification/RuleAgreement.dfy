/**
 * The rule cache against the rule table: warm-up, the lifecycle commands and the sync worker, run
 * one after another while any repository call may fail. The cache is seen here as its contents,
 * a map from rule id to entry; the class RuleCache implements exactly these operations on the heap.
 */
module RuleAgreement {
  import opened Prelude
  import opened Calendar
  import opened Scopes
  import opened Rules
  import V = ValidationProtocol

  type Program = nat

  // What a cached entry holds; no program means that the expression did not compile.
  datatype Entry = Entry(rule: Rule, program: Option<Program>)

  type Contents = map<nat, Entry>

  /* ---- the two cache operations, on contents ---- */

  function Loaded(rules: seq<Entry>): Contents {
    if rules == [] then map[] else Loaded(rules[..|rules| - 1])[rules[|rules| - 1].rule.id := rules[|rules| - 1]]
  }

  function Upserted(c: Contents, upserts: seq<Entry>): Contents {
    c + Loaded(upserts)
  }

  // A delta: upserts first, then removals.
  function Applied(c: Contents, upserts: seq<Entry>, removeIds: seq<nat>): Contents {
    Upserted(c, upserts) - (set id | id in removeIds)
  }

  lemma UpsertOne(c: Contents, e: Entry)
    ensures Applied(c, [e], []) == c[e.rule.id := e]
  {
    assert [e][..0] == [];
    assert Loaded([e]) == map[][e.rule.id := e];
  }

  lemma RemoveOne(c: Contents, id: nat)
    ensures Applied(c, [], [id]) == c - {id}
  {
    assert (set k | k in [id]) == {id};
  }

  /* ---- agreement ---- */

  predicate Live(row: Rule) {
    row.status == Active && row.deletedAt.None?
  }

  // The entry shows the row, apart from the activation timestamps, which the table does not follow.
  predicate Shows(e: Entry, row: Rule, compile: string -> Option<Program>) {
    e.rule.id == row.id && e.rule.name == row.name && e.rule.description == row.description
    && e.rule.expression == row.expression && e.rule.action == row.action && e.rule.scopes == row.scopes
    && e.rule.status == row.status && e.rule.updatedAt == row.updatedAt
    && e.program == compile(row.expression)
  }

  predicate AgreesAt(table: Table, cache: Contents, compile: string -> Option<Program>, id: nat) {
    if id in table && Live(table[id]) then id in cache && Shows(cache[id], table[id], compile) else id !in cache
  }

  ghost predicate Agrees(table: Table, cache: Contents, compile: string -> Option<Program>) {
    forall id :: AgreesAt(table, cache, compile, id)
  }

  lemma {:induction false} LoadedIds(rules: seq<Entry>)
    ensures forall id :: id in Loaded(rules) <==> exists k :: 0 <= k < |rules| && rules[k].rule.id == id
  {
    if rules != [] {
      var n := |rules| - 1;
      LoadedIds(rules[..n]);
      forall id ensures id in Loaded(rules) <==> exists k :: 0 <= k < |rules| && rules[k].rule.id == id {
        if id in Loaded(rules) && id != rules[n].rule.id {
          assert id in Loaded(rules[..n]);
          var k :| 0 <= k < |rules[..n]| && rules[..n][k].rule.id == id;
          assert rules[k].rule.id == id;
        }
        if k :| 0 <= k < |rules| && rules[k].rule.id == id {
          if k < n { assert rules[..n][k].rule.id == id; }
        }
      }
    }
  }

  predicate DistinctIds(rules: seq<Entry>) {
    forall i, j :: 0 <= i < j < |rules| ==> rules[i].rule.id != rules[j].rule.id
  }

  lemma {:induction false} LoadedAt(rules: seq<Entry>, k: nat)
    requires k < |rules| && DistinctIds(rules)
    ensures rules[k].rule.id in Loaded(rules) && Loaded(rules)[rules[k].rule.id] == rules[k]
  {
    var n := |rules| - 1;
    if k < n {
      LoadedAt(rules[..n], k);
      assert rules[..n][k] == rules[k];
    }
  }

  /* ---- the worker's classification ---- */

  predicate IsNewOrNewer(cache: Contents, row: Rule) {
    row.status == Active && (row.id !in cache || cache[row.id].rule.updatedAt < row.updatedAt)
  }

  // What one sync cycle leaves at one id, given the rows fetched since an instant.
  function SyncedAt(table: Table, cache: Contents, since: Instant, compile: string -> Option<Program>, id: nat): Option<Entry> {
    if id in table && since <= table[id].updatedAt && IsNewOrNewer(cache, table[id]) then
      Some(Entry(table[id], compile(table[id].expression)))
    else if id in table && since <= table[id].updatedAt && table[id].status != Active then None
    else if id in cache then Some(cache[id])
    else None
  }

  function At(cache: Contents, id: nat): Option<Entry> {
    if id in cache then Some(cache[id]) else None
  }

  ghost predicate IsSynced(table: Table, cache: Contents, since: Instant, compile: string -> Option<Program>, result: Contents) {
    forall id :: At(result, id) == SyncedAt(table, cache, since, compile, id)
  }

  // A stale id that the cycle cannot see: not fetched, or cached with a timestamp that is not older.
  predicate OutOfSight(table: Table, cache: Contents, since: Instant, id: nat) {
    id !in table || table[id].updatedAt < since
    || (Live(table[id]) && id in cache && table[id].updatedAt <= cache[id].rule.updatedAt)
  }

  // One cycle restores agreement exactly when nothing stale is out of its sight.
  lemma SyncRestoresIff(table: Table, cache: Contents, since: Instant, compile: string -> Option<Program>, result: Contents)
    requires TableOk(table) && IsSynced(table, cache, since, compile, result)
    requires forall id :: id in cache ==> cache[id].rule.id == id
    ensures Agrees(table, result, compile)
            <==> forall id :: OutOfSight(table, cache, since, id) ==> AgreesAt(table, cache, compile, id)
  {
    forall id ensures AgreesAt(table, result, compile, id)
                      <==> (OutOfSight(table, cache, since, id) ==> AgreesAt(table, cache, compile, id)) {
      SyncRestoresAt(table, cache, since, compile, result, id);
    }
    if Agrees(table, result, compile) {
      forall id | OutOfSight(table, cache, since, id) ensures AgreesAt(table, cache, compile, id) {
        assert AgreesAt(table, result, compile, id);
      }
    }
  }

  lemma SyncRestoresAt(table: Table, cache: Contents, since: Instant, compile: string -> Option<Program>, result: Contents, id: nat)
    requires TableOk(table) && At(result, id) == SyncedAt(table, cache, since, compile, id)
    ensures AgreesAt(table, result, compile, id)
            <==> (OutOfSight(table, cache, since, id) ==> AgreesAt(table, cache, compile, id))
  {
    if id in table { assert RowOk(id, table[id]); }
  }

  // Every row that differs between two moments was written in between: it is recent, and newer than it was.
  predicate WrittenSince(before: Table, after: Table, since: Instant) {
    (forall id :: id in before ==> id in after)
    && (forall id :: id in after && (id !in before || before[id] != after[id]) ==>
        since <= after[id].updatedAt && (id in before ==> before[id].updatedAt < after[id].updatedAt))
  }

  // A cache that matched the table at a past moment matches it again after one cycle.
  lemma SyncCatchesUp(before: Table, after: Table, cache: Contents, since: Instant, compile: string -> Option<Program>, result: Contents)
    requires TableOk(before) && TableOk(after) && Agrees(before, cache, compile) && WrittenSince(before, after, since)
    requires IsSynced(after, cache, since, compile, result)
    ensures Agrees(after, result, compile)
  {
    forall id ensures AgreesAt(after, result, compile, id) {
      assert AgreesAt(before, cache, compile, id);
      SyncRestoresAt(after, cache, since, compile, result, id);
    }
  }

  // Replaying any delta of a table the cache already agrees with changes no entry.
  lemma ReplayIsHarmless(table: Table, cache: Contents, since: Instant, compile: string -> Option<Program>, result: Contents)
    requires TableOk(table) && Agrees(table, cache, compile) && IsSynced(table, cache, since, compile, result)
    ensures result == cache
  {
    forall id ensures At(result, id) == At(cache, id) {
      assert AgreesAt(table, cache, compile, id);
      if id in table { assert RowOk(id, table[id]); }
    }
    assert forall id :: id in result <==> id in cache by {
      forall id ensures id in result <==> id in cache { assert At(result, id) == At(cache, id); }
    }
    forall id | id in result ensures result[id] == cache[id] { assert At(result, id) == At(cache, id); }
  }

  // Without the timestamp filter: all ACTIVE rows of the delta as upserts, all other ids as removals.
  lemma PlainDeltaCatchesUp(before: Table, after: Table, cache: Contents, since: Instant, compile: string -> Option<Program>,
                            upserts: seq<Entry>, removals: seq<nat>)
    requires TableOk(before) && TableOk(after) && Agrees(before, cache, compile)
    requires forall id :: id in before ==> id in after
    requires forall id :: id in after && (id !in before || before[id] != after[id]) ==> since <= after[id].updatedAt
    requires DistinctIds(upserts)
    requires forall e :: e in upserts <==> (e.rule.id in after && e == Entry(after[e.rule.id], compile(after[e.rule.id].expression))
                                            && since <= e.rule.updatedAt && e.rule.status == Active)
    requires forall id :: id in removals <==> id in after && since <= after[id].updatedAt && after[id].status != Active
    ensures Agrees(after, Applied(cache, upserts, removals), compile)
  {
    LoadedIds(upserts);
    forall id ensures AgreesAt(after, Applied(cache, upserts, removals), compile, id) {
      assert AgreesAt(before, cache, compile, id);
      if id in after {
        assert RowOk(id, after[id]);
        var e := Entry(after[id], compile(after[id].expression));
        if e in upserts {
          var k :| 0 <= k < |upserts| && upserts[k] == e;
          LoadedAt(upserts, k);
        }
      }
      if id in Loaded(upserts) {
        var k :| 0 <= k < |upserts| && upserts[k].rule.id == id;
        assert upserts[k] in upserts;
      }
    }
  }
}
