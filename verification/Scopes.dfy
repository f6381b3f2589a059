/**
 * Scopes of rules, limits and transactions: matching in memory, the same question compiled to a
 * filter for the database, and the proof of how far the two agree.
 */
module Scopes {
  import opened Prelude
  import opened Uuid

  datatype Scope = Scope(segmentId: Option<Uuid>, portfolioId: Option<Uuid>, accountId: Option<Uuid>,
                         merchantId: Option<Uuid>, transactionType: Option<string>, subType: Option<string>)

  const EmptyScope := Scope(None, None, None, None, None, None)

  predicate IsEmpty(s: Scope): (empty: bool)
    ensures empty <==> s == EmptyScope
  {
    s.segmentId.None? && s.portfolioId.None? && s.accountId.None?
    && s.merchantId.None? && s.transactionType.None? && s.subType.None?
  }

  predicate PtrMatches<T(==)>(pattern: Option<T>, value: Option<T>) {
    if pattern.None? then true else if value.None? then false else pattern.value == value.value
  }

  predicate Matches(s: Scope, other: Scope) {
    PtrMatches(s.accountId, other.accountId) && PtrMatches(s.segmentId, other.segmentId)
    && PtrMatches(s.portfolioId, other.portfolioId) && PtrMatches(s.merchantId, other.merchantId)
    && PtrMatches(s.transactionType, other.transactionType) && PtrMatches(s.subType, other.subType)
  }

  method RuleScopesMatch(ruleScopes: seq<Scope>, txScope: Option<Scope>) returns (r: bool)
    ensures r == ScopesMatch(ruleScopes, txScope)
  {
    if |ruleScopes| == 0 { return true; }
    if txScope.None? { return false; }
    for i := 0 to |ruleScopes|
      invariant forall j :: 0 <= j < i ==> !Matches(ruleScopes[j], txScope.value)
    {
      if Matches(ruleScopes[i], txScope.value) { return true; }
    }
    return false;
  }

  predicate ScopesMatch(ruleScopes: seq<Scope>, txScope: Option<Scope>) {
    |ruleScopes| == 0
    || (txScope.Some? && exists j :: 0 <= j < |ruleScopes| && Matches(ruleScopes[j], txScope.value))
  }

  /* ---- the scope as a JSON object in the rules table ---- */

  datatype Field = SegmentId | PortfolioId | AccountId | MerchantId | TransactionType | SubType

  const Fields := [SegmentId, PortfolioId, AccountId, MerchantId, TransactionType, SubType]

  function UuidJson(id: Option<Uuid>): Option<string> {
    if id.Some? then Some(Text(id.value)) else None
  }

  // scope->>'field': None is SQL NULL, an absent member.
  function Json(s: Scope, f: Field): Option<string> {
    match f
    case SegmentId => UuidJson(s.segmentId)
    case PortfolioId => UuidJson(s.portfolioId)
    case AccountId => UuidJson(s.accountId)
    case MerchantId => UuidJson(s.merchantId)
    case TransactionType => s.transactionType
    case SubType => s.subType
  }

  /* ---- the filter: conditions with placeholders, and the arguments that fill them in order ---- */

  // One conjunct `(scope->>'f' IS NULL OR scope->>'f' = ?)` per field; no field at all is `1=1`.
  type Conjunction = seq<Field>

  datatype Filter = Everything | GlobalOrExists(any: seq<Conjunction>)

  // Each placeholder takes the next argument.
  predicate HoldsAll(fs: Conjunction, args: seq<string>, row: Scope)
    requires |fs| <= |args|
  {
    forall i :: 0 <= i < |fs| ==> Json(row, fs[i]).None? || Json(row, fs[i]) == Some(args[i])
  }

  function Placeholders(any: seq<Conjunction>): nat {
    if any == [] then 0 else |any[0]| + Placeholders(any[1..])
  }

  predicate HoldsAny(any: seq<Conjunction>, args: seq<string>, row: Scope)
    requires Placeholders(any) == |args|
  {
    any != [] && (HoldsAll(any[0], args, row) || HoldsAny(any[1..], args[|any[0]|..], row))
  }

  predicate WellFormed(filter: Filter, args: seq<string>) {
    match filter case Everything => args == [] case GlobalOrExists(any) => Placeholders(any) == |args|
  }

  // The WHERE clause on one row of the rules table.
  predicate Selects(filter: Filter, args: seq<string>, ruleScopes: seq<Scope>)
    requires WellFormed(filter, args)
  {
    match filter
    case Everything => true
    case GlobalOrExists(any) => ruleScopes == [] || exists row :: row in ruleScopes && HoldsAny(any, args, row)
  }

  // What the compiled condition of one transaction scope asks of one rule scope.
  predicate Compatible(row: Scope, tx: Scope) {
    forall f: Field :: Json(tx, f).Some? ==> Json(row, f).None? || Json(row, f) == Json(tx, f)
  }

  method BuildSingleScopeCondition(scope: Scope) returns (fs: Conjunction, args: seq<string>)
    ensures |fs| == |args|
    ensures forall row :: HoldsAll(fs, args, row) <==> Compatible(row, scope)
  {
    fs, args := [], [];
    for k := 0 to |Fields|
      invariant |fs| == |args|
      invariant forall i :: 0 <= i < |fs| ==> Json(scope, fs[i]) == Some(args[i])
      invariant forall j :: 0 <= j < k && Json(scope, Fields[j]).Some? ==> Fields[j] in fs
    {
      var f := Fields[k];
      if Json(scope, f).Some? {
        fs := fs + [f];
        args := args + [Json(scope, f).value];
      }
    }
    forall f: Field | Json(scope, f).Some? ensures f in fs {
      assert Fields[PlaceIn(f)] == f;
    }
    forall row ensures HoldsAll(fs, args, row) <==> Compatible(row, scope) {
      HoldsAllIsCompatible(fs, args, scope, row);
    }
  }

  function PlaceIn(f: Field): (j: nat)
    ensures j < |Fields| && Fields[j] == f
  {
    match f
    case SegmentId => 0
    case PortfolioId => 1
    case AccountId => 2
    case MerchantId => 3
    case TransactionType => 4
    case SubType => 5
  }

  lemma HoldsAllIsCompatible(fs: Conjunction, args: seq<string>, scope: Scope, row: Scope)
    requires |fs| == |args|
    requires forall i :: 0 <= i < |fs| ==> Json(scope, fs[i]) == Some(args[i])
    requires forall f: Field :: Json(scope, f).Some? ==> f in fs
    ensures HoldsAll(fs, args, row) <==> Compatible(row, scope)
  {
    if HoldsAll(fs, args, row) {
      forall f: Field | Json(scope, f).Some? ensures Json(row, f).None? || Json(row, f) == Json(scope, f) {
        var i :| 0 <= i < |fs| && fs[i] == f;
      }
    }
  }

  // Appending one alternative adds its rows and moves nobody's arguments.
  lemma {:induction false} HoldsAnyAppends(any: seq<Conjunction>, args: seq<string>, fs: Conjunction, more: seq<string>, row: Scope)
    requires Placeholders(any) == |args| && |fs| == |more|
    ensures Placeholders(any + [fs]) == |args + more|
    ensures HoldsAny(any + [fs], args + more, row) <==> HoldsAny(any, args, row) || HoldsAll(fs, more, row)
  {
    if any == [] {
      assert any + [fs] == [fs] && args + more == more;
      assert Placeholders([fs]) == |fs| + Placeholders([]);
    } else {
      var k := |any[0]|;
      assert (any + [fs])[1..] == any[1..] + [fs];
      assert (args + more)[k..] == args[k..] + more;
      HoldsAnyAppends(any[1..], args[k..], fs, more, row);
      assert forall i :: 0 <= i < k ==> (args + more)[i] == args[i];
    }
  }

  method BuildScopeFilter(filterScopes: seq<Scope>) returns (filter: Filter, args: seq<string>)
    ensures WellFormed(filter, args)
    ensures forall ruleScopes :: Selects(filter, args, ruleScopes) <==> FilterMeans(filterScopes, ruleScopes)
  {
    if |filterScopes| == 0 { return Everything, []; }
    var any: seq<Conjunction> := [];
    args := [];
    for k := 0 to |filterScopes|
      invariant Placeholders(any) == |args| && |any| == k
      invariant forall row :: HoldsAny(any, args, row) <==> exists tx :: tx in filterScopes[..k] && Compatible(row, tx)
    {
      var fs, more := BuildSingleScopeCondition(filterScopes[k]);
      HoldsAnyAppends(any, args, fs, more, EmptyScope);
      forall row ensures HoldsAny(any + [fs], args + more, row) <==> HoldsAny(any, args, row) || Compatible(row, filterScopes[k]) {
        HoldsAnyAppends(any, args, fs, more, row);
      }
      assert filterScopes[..k + 1] == filterScopes[..k] + [filterScopes[k]];
      any := any + [fs];
      args := args + more;
    }
    assert filterScopes[..|filterScopes|] == filterScopes;
    filter := GlobalOrExists(any);
  }

  // A rule is selected when it is global or one of its scopes is compatible with one of the filter's.
  predicate FilterMeans(filterScopes: seq<Scope>, ruleScopes: seq<Scope>) {
    filterScopes == [] || ruleScopes == []
    || exists row, tx :: row in ruleScopes && tx in filterScopes && Compatible(row, tx)
  }

  /* ---- the repository's answer and the cache's ---- */

  // Which ACTIVE rules the two return for one transaction scope; None is a nil scope.
  predicate RepositoryReturns(txScope: Option<Scope>, ruleScopes: seq<Scope>) {
    if txScope.None? || IsEmpty(txScope.value) then true else FilterMeans([txScope.value], ruleScopes)
  }

  predicate CacheReturns(txScope: Option<Scope>, ruleScopes: seq<Scope>) {
    txScope.None? || ScopesMatch(ruleScopes, txScope)
  }

  // The transaction sets every field that the rule scope sets.
  predicate Covers(tx: Scope, row: Scope) {
    forall f: Field :: Json(row, f).Some? ==> Json(tx, f).Some?
  }

  // The database's condition lacks just one thing: it does not ask for coverage.
  lemma MatchIsCompatibleAndCovered(row: Scope, tx: Scope)
    ensures Matches(row, tx) <==> Compatible(row, tx) && Covers(tx, row)
  {
    if Compatible(row, tx) && Covers(tx, row) {
      forall f: Field ensures PtrMatches(Json(row, f), Json(tx, f)) {
      }
      IdMatches(row.accountId, tx.accountId, AccountId, row, tx);
      IdMatches(row.segmentId, tx.segmentId, SegmentId, row, tx);
      IdMatches(row.portfolioId, tx.portfolioId, PortfolioId, row, tx);
      IdMatches(row.merchantId, tx.merchantId, MerchantId, row, tx);
      assert PtrMatches(Json(row, TransactionType), Json(tx, TransactionType));
      assert PtrMatches(Json(row, SubType), Json(tx, SubType));
    }
  }

  lemma IdMatches(a: Option<Uuid>, b: Option<Uuid>, f: Field, row: Scope, tx: Scope)
    requires Json(row, f) == UuidJson(a) && Json(tx, f) == UuidJson(b) && PtrMatches(Json(row, f), Json(tx, f))
    ensures PtrMatches(a, b)
  {
    if a.Some? && b.Some? { TextInjective(a.value, b.value); }
  }

  // The cache never returns a rule that the repository would not.
  lemma CacheWithinRepository(txScope: Option<Scope>, ruleScopes: seq<Scope>)
    requires CacheReturns(txScope, ruleScopes)
    ensures RepositoryReturns(txScope, ruleScopes)
  {
    if txScope.Some? && ruleScopes != [] && !IsEmpty(txScope.value) {
      var j :| 0 <= j < |ruleScopes| && Matches(ruleScopes[j], txScope.value);
      MatchIsCompatibleAndCovered(ruleScopes[j], txScope.value);
      assert ruleScopes[j] in ruleScopes && txScope.value in [txScope.value];
    }
  }

  // On a rule whose scopes set no field that the transaction leaves open, the two agree.
  lemma AgreeWhenCovered(tx: Scope, ruleScopes: seq<Scope>)
    requires forall row :: row in ruleScopes ==> Covers(tx, row)
    ensures CacheReturns(Some(tx), ruleScopes) <==> RepositoryReturns(Some(tx), ruleScopes)
  {
    if CacheReturns(Some(tx), ruleScopes) {
      CacheWithinRepository(Some(tx), ruleScopes);
    } else if IsEmpty(tx) {
      CoveredByEmptyMatches(ruleScopes[0], tx);
    } else if RepositoryReturns(Some(tx), ruleScopes) {
      var row, t :| row in ruleScopes && t in [tx] && Compatible(row, t);
      MatchIsCompatibleAndCovered(row, tx);
      assert false;
    }
  }

  lemma CoveredByEmptyMatches(row: Scope, tx: Scope)
    requires IsEmpty(tx) && Covers(tx, row)
    ensures Matches(row, tx)
  {
    assert Compatible(row, tx) by {
      assert forall f: Field :: Json(tx, f).None?;
    }
    MatchIsCompatibleAndCovered(row, tx);
  }

  // A scope that sets one field only.
  function OnlyField(f: Field, id: Uuid, text: string): (s: Scope)
    ensures forall g: Field :: Json(s, g).Some? <==> g == f
  {
    match f
    case SegmentId => EmptyScope.(segmentId := Some(id))
    case PortfolioId => EmptyScope.(portfolioId := Some(id))
    case AccountId => EmptyScope.(accountId := Some(id))
    case MerchantId => EmptyScope.(merchantId := Some(id))
    case TransactionType => EmptyScope.(transactionType := Some(text))
    case SubType => EmptyScope.(subType := Some(text))
  }

  ghost predicate AgreeOnEveryRule(tx: Scope) {
    forall ruleScopes :: CacheReturns(Some(tx), ruleScopes) <==> RepositoryReturns(Some(tx), ruleScopes)
  }

  // A transaction gets the same rules from both, whatever the rules, exactly when it sets every field.
  lemma AgreeIffComplete(tx: Scope)
    ensures AgreeOnEveryRule(tx) <==> forall f: Field :: Json(tx, f).Some?
  {
    if forall f: Field :: Json(tx, f).Some? {
      forall ruleScopes ensures CacheReturns(Some(tx), ruleScopes) <==> RepositoryReturns(Some(tx), ruleScopes) {
        AgreeWhenCovered(tx, ruleScopes);
      }
    } else {
      var f: Field :| Json(tx, f).None?;
      DisagreeOnOpenField(tx, f);
    }
  }

  lemma DisagreeOnOpenField(tx: Scope, f: Field)
    requires Json(tx, f).None?
    ensures !AgreeOnEveryRule(tx)
  {
    var row := OnlyField(f, seq(32, _ => 0), "");
    assert !Covers(tx, row) by { assert Json(row, f).Some?; }
    MatchIsCompatibleAndCovered(row, tx);
    assert Compatible(row, tx);
    assert row in [row] && tx in [tx];
    assert !CacheReturns(Some(tx), [row]);
    assert RepositoryReturns(Some(tx), [row]);
  }

  /* ---- the limit checker, whose transaction scope has no merchant ---- */

  function WithoutMerchant(tx: Scope): Scope {
    tx.(merchantId := None)
  }

  // Dropping the merchant of a transaction loses the scopes that name one and nothing else.
  lemma WithoutMerchantMatches(s: Scope, tx: Scope)
    ensures Matches(s, WithoutMerchant(tx)) <==> s.merchantId.None? && Matches(s, tx)
  {
  }

  // The checker applies a limit exactly when it is global or one of its matching scopes names no merchant.
  lemma CheckerMatchesIff(limitScopes: seq<Scope>, tx: Scope)
    ensures ScopesMatch(limitScopes, Some(WithoutMerchant(tx)))
            <==> limitScopes == [] || exists s :: s in limitScopes && s.merchantId.None? && Matches(s, tx)
  {
    forall s ensures Matches(s, WithoutMerchant(tx)) <==> s.merchantId.None? && Matches(s, tx) {
      WithoutMerchantMatches(s, tx);
    }
    ScopesMatchAny(limitScopes, WithoutMerchant(tx));
  }

  lemma ScopesMatchAny(scopes: seq<Scope>, tx: Scope)
    ensures ScopesMatch(scopes, Some(tx)) <==> scopes == [] || exists s :: s in scopes && Matches(s, tx)
  {
    if s :| s in scopes && Matches(s, tx) {
      var j :| 0 <= j < |scopes| && scopes[j] == s;
      assert Matches(scopes[j], tx);
    }
  }

  // The limits that the checker passes over although they match the whole transaction: those that
  // match it only through scopes that name a merchant. It applies no limit too many.
  lemma MerchantLimitsNeverApply(limitScopes: seq<Scope>, tx: Scope)
    ensures ScopesMatch(limitScopes, Some(WithoutMerchant(tx))) ==> ScopesMatch(limitScopes, Some(tx))
    ensures ScopesMatch(limitScopes, Some(WithoutMerchant(tx))) != ScopesMatch(limitScopes, Some(tx))
            <==> (exists s :: s in limitScopes && Matches(s, tx))
                 && (forall s :: s in limitScopes && Matches(s, tx) ==> s.merchantId.Some?)
    ensures limitScopes != [] && (forall s :: s in limitScopes ==> s.merchantId.Some?)
            ==> !ScopesMatch(limitScopes, Some(WithoutMerchant(tx)))
  {
    CheckerMatchesIff(limitScopes, tx);
    ScopesMatchAny(limitScopes, tx);
  }

  // Such limits exist: one for a merchant, and any payment to that merchant.
  lemma MerchantLimitIsMissed(merchant: Uuid, tx: Scope)
    requires tx.merchantId == Some(merchant)
    ensures var limit := EmptyScope.(merchantId := Some(merchant));
            ScopesMatch([limit], Some(tx)) && !ScopesMatch([limit], Some(WithoutMerchant(tx)))
  {
    var limit := EmptyScope.(merchantId := Some(merchant));
    assert limit in [limit] && Matches(limit, tx);
    MerchantLimitsNeverApply([limit], tx);
  }

  ghost predicate CheckedInFull(tx: Scope) {
    forall limitScopes :: ScopesMatch(limitScopes, Some(WithoutMerchant(tx))) == ScopesMatch(limitScopes, Some(tx))
  }

  // A transaction meets every limit that matches it exactly when it has no merchant.
  lemma CheckedInFullIff(tx: Scope)
    ensures CheckedInFull(tx) <==> tx.merchantId.None?
  {
    if tx.merchantId.Some? {
      MerchantLimitIsMissed(tx.merchantId.value, tx);
    } else {
      assert WithoutMerchant(tx) == tx;
    }
  }
}
