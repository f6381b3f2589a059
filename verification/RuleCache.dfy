/** The in-memory rule cache over heap objects, and the adapter that serves the evaluator from it. */
module RuleCache {
  import opened Prelude
  import opened Calendar
  import opened Uuid
  import opened Scopes
  import opened Rules
  import opened RuleAgreement
  import opened RuleHeap

  function Pointee<T>(c: Cell?<T>): Option<T>
    reads c
  {
    if c == null then None else Some(c.value)
  }

  method ReadScopes(a: array?<ScopeRef>, ghost v: seq<Scope>, ghost own: set<object>) returns (s: seq<Scope>)
    requires SliceHolds(a, v, own)
    ensures s == v
  {
    s := [];
    if a != null {
      for i := 0 to a.Length
        invariant |s| == i && forall j :: 0 <= j < i ==> s[j] == v[j]
      {
        s := s + [Scope(Pointee(a[i].segmentId), Pointee(a[i].portfolioId), Pointee(a[i].accountId),
                        Pointee(a[i].merchantId), Pointee(a[i].transactionType), Pointee(a[i].subType))];
      }
    }
  }

  // The ids of the entries that match, each once.
  ghost predicate Matching(ids: seq<nat>, contents: Contents, among: set<nat>, tx: Option<Scope>) {
    (forall i, j :: 0 <= i < j < |ids| ==> ids[i] != ids[j])
    && forall id :: id in ids <==> id in among && id in contents && CacheReturns(tx, contents[id].rule.scopes)
  }

  lemma MatchingStep(ids: seq<nat>, contents: Contents, seen: set<nat>, tx: Option<Scope>, id: nat)
    requires Matching(ids, contents, seen, tx) && id !in seen && id in contents
    ensures Matching(if CacheReturns(tx, contents[id].rule.scopes) then ids + [id] else ids, contents, seen + {id}, tx)
  {
    assert forall k :: 0 <= k < |ids| ==> ids[k] in ids;
    forall x ensures x in ids + [id] <==> x in ids || x == id { }
  }

  lemma SliceHoldsMore(a: array?<ScopeRef>, v: seq<Scope>, own: set<object>, more: set<object>)
    requires SliceHolds(a, v, own)
    ensures SliceHolds(a, v, own + more)
  {
  }

  lemma HoldsMore(c: CachedRule, e: Entry, own: set<object>, more: set<object>)
    requires c.Holds(e, own)
    ensures c.Holds(e, own + more)
  {
    SliceHoldsMore(c.rule.scopes, e.rule.scopes, own, more);
  }

  // Rules handed to the cache, with what they hold.
  ghost predicate AllHold(rs: seq<CachedRule>, entries: seq<Entry>, own: set<object>)
    reads own
  {
    |rs| == |entries| && forall k :: 0 <= k < |rs| ==> rs[k].Holds(entries[k], own)
  }

  lemma OneHolds(rs: seq<CachedRule>, entries: seq<Entry>, own: set<object>, k: nat)
    requires AllHold(rs, entries, own) && k < |rs|
    ensures rs[k] in own && rs[k].rule in own && rs[k].rule.id == entries[k].rule.id && rs[k].Holds(entries[k], own)
  {
  }

  lemma Wrapped(r: CachedRule, e: Entry, own: set<object>)
    requires r.rule.Holds(e.rule, own) && r.program == e.program
    ensures AllHold([r], [e], own + {r})
  {
    SliceHoldsMore(r.rule.scopes, e.rule.scopes, own, {r});
  }

  lemma UpsertedStep(c: Contents, entries: seq<Entry>, i: nat)
    requires i < |entries|
    ensures Upserted(c, entries[..i + 1]) == Upserted(c, entries[..i])[entries[i].rule.id := entries[i]]
  {
    assert entries[..i + 1][..i] == entries[..i];
  }

  lemma AppliedIs(c: Contents, entries: seq<Entry>, removeIds: seq<nat>)
    ensures Applied(c, entries, removeIds) == Upserted(c, entries) - Ids(removeIds)
  {
  }

  lemma FromNothing(entries: seq<Entry>)
    ensures Upserted(map[], entries) == Loaded(entries)
  {
  }

  ghost predicate Apart(owns: seq<set<object>>) {
    forall j, k :: 0 <= j < k < |owns| ==> owns[j] !! owns[k]
  }

  lemma ApartMore(owns: seq<set<object>>, mine: set<object>)
    requires Apart(owns) && forall k :: 0 <= k < |owns| ==> owns[k] !! mine
    ensures Apart(owns + [mine])
  {
  }

  // Each cached rule holds the entry of its id, using no object outside repr.
  ghost predicate AllIn(rules: map<nat, CachedRule>, contents: Contents, repr: set<object>)
    reads repr
  {
    rules.Keys == contents.Keys
    && forall id :: id in rules ==> rules[id].Holds(contents[id], repr) && contents[id].rule.id == id
  }

  lemma PutIn(rules: map<nat, CachedRule>, contents: Contents, repr: set<object>, id: nat, r: CachedRule, e: Entry, own: set<object>)
    requires AllIn(rules, contents, repr) && r.Holds(e, own) && e.rule.id == id
    ensures AllIn(rules[id := r], contents[id := e], repr + own)
  {
    forall k | k in rules ensures rules[k].Holds(contents[k], repr + own) { HoldsMore(rules[k], contents[k], repr, own); }
    HoldsMore(r, e, own, repr);
    assert own + repr == repr + own;
  }

  function Ids(s: seq<nat>): set<nat> {
    set id | id in s
  }

  lemma RemovedStep(c: Contents, ids: seq<nat>, i: nat)
    requires i < |ids|
    ensures c - Ids(ids[..i + 1]) == c - Ids(ids[..i]) - {ids[i]}
  {
    assert Ids(ids[..i + 1]) == Ids(ids[..i]) + {ids[i]};
  }

  ghost predicate Splits(all: set<nat>, seen: set<nat>, rest: set<nat>) {
    seen !! rest && seen + rest == all
  }

  lemma SplitsOff(all: set<nat>, seen: set<nat>, rest: set<nat>, id: nat)
    requires Splits(all, seen, rest) && id in rest
    ensures id in all && id !in seen && Splits(all, seen + {id}, rest - {id})
  {
  }

  // A search that has seen some entries and has others left.
  ghost predicate Searching(ids: seq<nat>, contents: Contents, seen: set<nat>, rest: set<nat>, tx: Option<Scope>) {
    Splits(contents.Keys, seen, rest) && Matching(ids, contents, seen, tx)
  }

  lemma SearchDone(ids: seq<nat>, contents: Contents, seen: set<nat>, tx: Option<Scope>)
    requires Searching(ids, contents, seen, {}, tx)
    ensures Matching(ids, contents, contents.Keys, tx)
  {
    assert seen == contents.Keys;
  }

  class RuleCache {
    var rules: map<nat, CachedRule>
    var ready: bool
    var lastSync: Instant
    ghost var contents: Contents
    ghost var repr: set<object>

    ghost predicate Valid()
      reads this, repr
    {
      this !in repr && AllIn(rules, contents, repr)
    }

    constructor ()
      ensures Valid() && contents == map[] && !ready && fresh(repr)
    {
      rules, ready, lastSync := map[], false, 0;
      contents, repr := map[], {};
    }

    method Matches(id: nat, txScope: Option<Scope>) returns (r: bool)
      requires Valid() && id in rules
      ensures r == CacheReturns(txScope, contents[id].rule.scopes)
    {
      if txScope.None? { return true; }
      var scopes := ReadScopes(rules[id].rule.scopes, contents[id].rule.scopes, repr);
      r := RuleScopesMatch(scopes, txScope);
    }

    method MatchNext(id: nat, txScope: Option<Scope>, before: seq<nat>, ghost seen: set<nat>, ghost rest: set<nat>) returns (ids: seq<nat>)
      requires Valid() && id in rest && Searching(before, contents, seen, rest, txScope)
      ensures Searching(ids, contents, seen + {id}, rest - {id}, txScope)
    {
      SplitsOff(contents.Keys, seen, rest, id);
      var matches := Matches(id, txScope);
      MatchingStep(before, contents, seen, txScope, id);
      ids := if matches then before + [id] else before;
    }

    method CopyOf(id: nat) returns (copy: CachedRule, ghost mine: set<object>)
      requires Valid() && id in rules
      ensures copy.Holds(contents[id], mine) && fresh(mine)
    {
      copy, mine := DeepCopy(rules[id], contents[id], repr);
    }

    lemma NothingSeen(tx: Option<Scope>)
      requires Valid()
      ensures Searching([], contents, {}, rules.Keys, tx)
    {
    }

    // The range over the map, in any order, keeping the rules whose scopes match.
    method Match(txScope: Option<Scope>) returns (ids: seq<nat>)
      requires Valid()
      ensures Matching(ids, contents, contents.Keys, txScope)
    {
      ids := [];
      var rest := rules.Keys;
      ghost var seen: set<nat> := {};
      NothingSeen(txScope);
      while rest != {}
        invariant Searching(ids, contents, seen, rest, txScope)
        decreases |rest|
      {
        var id :| id in rest;
        ids := MatchNext(id, txScope, ids, seen, rest);
        seen, rest := seen + {id}, rest - {id};
      }
      SearchDone(ids, contents, seen, txScope);
    }

    // A copy of each of these entries, fresh from end to end.
    method Copies(ids: seq<nat>) returns (result: seq<CachedRule>, ghost owns: seq<set<object>>)
      requires Valid() && forall id :: id in ids ==> id in rules
      ensures |result| == |owns| == |ids|
      ensures forall k :: 0 <= k < |ids| ==> fresh(owns[k])
      ensures Apart(owns)
      ensures forall k :: 0 <= k < |ids| ==> result[k].Holds(contents[ids[k]], owns[k])
    {
      result, owns := [], [];
      for i := 0 to |ids|
        invariant |result| == |owns| == i
        invariant forall k :: 0 <= k < i ==> fresh(owns[k])
        invariant Apart(owns)
        invariant forall k :: 0 <= k < i ==> result[k].Holds(contents[ids[k]], owns[k])
      {
        ghost var mine;
        var copy;
        copy, mine := CopyOf(ids[i]);
        assert forall k :: 0 <= k < i ==> owns[k] !! mine;
        ApartMore(owns, mine);
        result, owns := result + [copy], owns + [mine];
      }
    }

    // What a reader gets is exactly the entries that match, as objects that nothing else refers to.
    method GetActiveRules(txScope: Option<Scope>) returns (result: seq<CachedRule>, ghost ids: seq<nat>, ghost owns: seq<set<object>>)
      requires Valid()
      ensures Matching(ids, contents, contents.Keys, txScope)
      ensures |result| == |ids| == |owns|
      ensures forall k :: 0 <= k < |ids| ==> fresh(owns[k])
      ensures Apart(owns)
      ensures forall k :: 0 <= k < |ids| ==> ids[k] in contents && result[k].Holds(contents[ids[k]], owns[k])
    {
      var matched := Match(txScope);
      ids := matched;
      result, owns := Copies(matched);
    }

    // c.rules[id] = r
    method Put(id: nat, r: CachedRule, ghost e: Entry, ghost own: set<object>)
      requires Valid() && this !in own && r.Holds(e, own) && e.rule.id == id
      modifies this`rules, this`contents, this`repr
      ensures Valid() && contents == old(contents)[id := e] && repr == old(repr) + own
    {
      var rules1 := rules[id := r];
      ghost var contents1, repr1 := contents[id := e], repr + own;
      PutIn(rules, contents, repr, id, r, e, own);
      Become(rules1, contents1, repr1);
    }

    method Become(rules1: map<nat, CachedRule>, ghost contents1: Contents, ghost repr1: set<object>)
      requires this !in repr1 && AllIn(rules1, contents1, repr1)
      modifies this`rules, this`contents, this`repr
      ensures Valid() && rules == rules1 && contents == contents1 && repr == repr1
    {
      rules := rules1;
      contents, repr := contents1, repr1;
    }

    // delete(c.rules, id)
    method Drop(id: nat)
      requires Valid()
      modifies this`rules, this`contents
      ensures Valid() && contents == old(contents) - {id}
    {
      rules := rules - {id};
      contents := contents - {id};
    }

    method PutAll(rs: seq<CachedRule>, ghost entries: seq<Entry>, ghost own: set<object>)
      requires Valid() && this !in own && AllHold(rs, entries, own)
      modifies this`rules, this`contents, this`repr
      ensures Valid() && contents == Upserted(old(contents), entries) && repr <= old(repr) + own
    {
      for i := 0 to |rs|
        invariant Valid() && repr <= old(repr) + own
        invariant contents == Upserted(old(contents), entries[..i])
      {
        OneHolds(rs, entries, own, i);
        Put(rs[i].rule.id, rs[i], entries[i], own);
        UpsertedStep(old(contents), entries, i);
      }
      assert entries[..|rs|] == entries;
    }

    method DropAll(removeIds: seq<nat>)
      requires Valid()
      modifies this`rules, this`contents
      ensures Valid() && contents == old(contents) - Ids(removeIds)
    {
      for i := 0 to |removeIds|
        invariant Valid() && contents == old(contents) - Ids(removeIds[..i])
      {
        Drop(removeIds[i]);
        RemovedStep(old(contents), removeIds, i);
      }
      assert removeIds[..|removeIds|] == removeIds;
    }

    method Stamp(now: Instant)
      requires Valid()
      modifies this`lastSync
      ensures Valid() && lastSync == now
    {
      lastSync := now;
    }

    // The cache keeps the objects it is given.
    method ApplyChanges(upserts: seq<CachedRule>, removeIds: seq<nat>, now: Instant, ghost entries: seq<Entry>, ghost own: set<object>)
      requires Valid() && this !in own && AllHold(upserts, entries, own)
      modifies this
      ensures Valid() && contents == Applied(old(contents), entries, removeIds)
      ensures repr <= old(repr) + own && lastSync == now && ready == old(ready)
    {
      PutAll(upserts, entries, own);
      DropAll(removeIds);
      AppliedIs(old(contents), entries, removeIds);
      Stamp(now);
    }

    // A full load replaces everything.
    method SetRules(rs: seq<CachedRule>, now: Instant, ghost entries: seq<Entry>, ghost own: set<object>)
      requires Valid() && this !in own && AllHold(rs, entries, own)
      modifies this
      ensures Valid() && contents == Loaded(entries) && repr <= own && lastSync == now && ready == old(ready)
    {
      Clear();
      PutAll(rs, entries, own);
      FromNothing(entries);
      Stamp(now);
    }

    method Clear()
      requires Valid()
      modifies this`rules, this`contents, this`repr
      ensures Valid() && contents == map[] && repr == {}
    {
      rules, contents, repr := map[], map[], {};
    }

    method UpsertRule(rule: RuleObject, program: Option<Program>, now: Instant, ghost v: Rule, ghost own: set<object>)
      requires Valid() && this !in own && rule.Holds(v, own)
      modifies this
      ensures Valid() && contents == old(contents)[v.id := Entry(v, program)] && ready == old(ready) && lastSync == now
    {
      var r := new CachedRule(rule, program);
      ghost var e := Entry(v, program);
      Wrapped(r, e, own);
      UpsertOne(contents, e);
      ApplyChanges([r], [], now, [e], own + {r});
    }

    method RemoveRule(id: nat, now: Instant)
      requires Valid()
      modifies this
      ensures Valid() && contents == old(contents) - {id} && ready == old(ready) && lastSync == now
    {
      RemoveOne(contents, id);
      ApplyChanges([], [id], now, [], {});
    }

    method MarkReady()
      requires Valid()
      modifies this`ready
      ensures Valid() && ready && contents == old(contents)
    {
      ready := true;
    }
  }

  ghost function All(owns: seq<set<object>>): set<object> {
    set k, o | 0 <= k < |owns| && o in owns[k] :: o
  }

  // Arbitrary writes to everything reachable from a result: no later read can tell.
  method ScribbleOnResults(cache: RuleCache, txScope: Option<Scope>)
    requires cache.Valid()
    ensures cache.Valid() && cache.contents == old(cache.contents)
  {
    ghost var ids, owns;
    var result;
    result, ids, owns := cache.GetActiveRules(txScope);
    modify All(owns);
  }

  method PassProgram(cr: CachedRule, ghost e: Entry, ghost own: set<object>)
    requires cr.Holds(e, own)
    modifies cr.rule`compiledProgram
    ensures cr.Holds(e, own) && cr.rule.compiledProgram == e.program && cr.rule == old(cr.rule)
  {
    cr.rule.compiledProgram := cr.program;
  }

  // A rule object that shows an entry and carries its program.
  ghost predicate Serves(r: RuleObject, e: Entry, own: set<object>)
    reads own, r
  {
    r.Holds(e.rule, own) && r.compiledProgram == e.program
  }

  method PassPrograms(cached: seq<CachedRule>, ghost es: seq<Entry>, ghost owns: seq<set<object>>) returns (out: seq<RuleObject>)
    requires |cached| == |es| == |owns| && Apart(owns)
    requires forall k :: 0 <= k < |cached| ==> cached[k].Holds(es[k], owns[k])
    modifies All(owns)
    ensures |out| == |cached| && forall k :: 0 <= k < |out| ==> Serves(out[k], es[k], owns[k])
  {
    out := [];
    if cached != [] {
      var n := |cached| - 1;
      out := PassPrograms(cached[..n], es[..n], owns[..n]);
      PassProgram(cached[n], es[n], owns[n]);
      out := out + [cached[n].rule];
    }
  }

  // The adapter: not ready is an error; otherwise each copy also carries its program.
  method ServeRules(cache: RuleCache, txScope: Option<Scope>)
    returns (rules: Option<seq<RuleObject>>, ghost ids: seq<nat>, ghost es: seq<Entry>, ghost owns: seq<set<object>>)
    requires cache.Valid()
    ensures cache.Valid() && cache.contents == old(cache.contents)
    ensures rules.None? <==> !cache.ready
    ensures rules.Some? ==> Matching(ids, cache.contents, cache.contents.Keys, txScope) && es == EntriesAt(cache.contents, ids)
    ensures rules.Some? ==> |rules.value| == |es| == |owns| && fresh(All(owns))
    ensures rules.Some? ==> forall k :: 0 <= k < |es| ==> Serves(rules.value[k], es[k], owns[k])
  {
    ids, es, owns := [], [], [];
    if !cache.ready { return None, ids, es, owns; }
    var cached;
    cached, ids, owns := cache.GetActiveRules(txScope);
    es := EntriesAt(cache.contents, ids);
    var out := PassPrograms(cached, es, owns);
    rules := Some(out);
  }

  ghost function EntriesAt(c: Contents, ids: seq<nat>): (es: seq<Entry>)
    requires forall id :: id in ids ==> id in c
  {
    seq(|ids|, k requires 0 <= k < |ids| => c[ids[k]])
  }
}
