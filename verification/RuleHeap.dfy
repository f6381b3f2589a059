/**
 * Rules as objects: pointers, slices and the deep copy that the cache hands out. Every predicate
 * here says that an object holds a value, using no object outside a given set.
 */
module RuleHeap {
  import opened Prelude
  import opened Calendar
  import opened Uuid
  import opened Scopes
  import opened Rules
  import opened RuleAgreement
  import V = ValidationProtocol

  // What a pointer field points to; null is a nil pointer.
  class Cell<T> {
    var value: T

    constructor (value: T)
      ensures this.value == value
    {
      this.value := value;
    }
  }

  // A scope is a struct of pointers.
  datatype ScopeRef = ScopeRef(segmentId: Cell?<Uuid>, portfolioId: Cell?<Uuid>, accountId: Cell?<Uuid>,
                               merchantId: Cell?<Uuid>, transactionType: Cell?<string>, subType: Cell?<string>)

  ghost predicate Points<T>(c: Cell?<T>, v: Option<T>, own: set<object>)
    reads own
  {
    if c == null then v.None? else c in own && v == Some(c.value)
  }

  ghost predicate ScopeHolds(s: ScopeRef, v: Scope, own: set<object>)
    reads own
  {
    Points(s.segmentId, v.segmentId, own) && Points(s.portfolioId, v.portfolioId, own)
    && Points(s.accountId, v.accountId, own) && Points(s.merchantId, v.merchantId, own)
    && Points(s.transactionType, v.transactionType, own) && Points(s.subType, v.subType, own)
  }

  ghost predicate SliceHolds(a: array?<ScopeRef>, v: seq<Scope>, own: set<object>)
    reads own
  {
    if a == null then v == []
    else a in own && a.Length == |v| && forall i :: 0 <= i < |v| ==> ScopeHolds(a[i], v[i], own)
  }

  class RuleObject {
    var id: nat
    var name: string
    var description: Cell?<string>
    var expression: string
    var action: V.Decision
    var scopes: array?<ScopeRef>
    var status: Status
    var createdAt: Instant
    var updatedAt: Instant
    var activatedAt: Cell?<Instant>
    var deactivatedAt: Cell?<Instant>
    var deletedAt: Cell?<Instant>
    var compiledProgram: Option<Program>

    ghost predicate Holds(v: Rule, own: set<object>)
      reads own
    {
      this in own
      && id == v.id && name == v.name && expression == v.expression && action == v.action
      && status == v.status && createdAt == v.createdAt && updatedAt == v.updatedAt
      && Points(description, v.description, own) && Points(activatedAt, v.activatedAt, own)
      && Points(deactivatedAt, v.deactivatedAt, own) && Points(deletedAt, v.deletedAt, own)
      && SliceHolds(scopes, v.scopes, own)
    }

    // `ruleCopy := *src`, with other pointees.
    constructor Struct(src: RuleObject, description: Cell?<string>, activatedAt: Cell?<Instant>,
                       deactivatedAt: Cell?<Instant>, deletedAt: Cell?<Instant>, scopes: array?<ScopeRef>)
      ensures id == src.id && name == src.name && expression == src.expression && action == src.action
      ensures status == src.status && createdAt == src.createdAt && updatedAt == src.updatedAt
      ensures this.description == description && this.activatedAt == activatedAt
      ensures this.deactivatedAt == deactivatedAt && this.deletedAt == deletedAt && this.scopes == scopes
      ensures compiledProgram == src.compiledProgram
    {
      id, name, expression, action := src.id, src.name, src.expression, src.action;
      status, createdAt, updatedAt, compiledProgram := src.status, src.createdAt, src.updatedAt, src.compiledProgram;
      this.description, this.activatedAt, this.deactivatedAt := description, activatedAt, deactivatedAt;
      this.deletedAt, this.scopes := deletedAt, scopes;
    }
  }

  class CachedRule {
    var rule: RuleObject
    var program: Option<Program>

    constructor (rule: RuleObject, program: Option<Program>)
      ensures this.rule == rule && this.program == program
    {
      this.rule, this.program := rule, program;
    }

    ghost predicate Holds(e: Entry, own: set<object>)
      reads own
    {
      this in own && program == e.program && rule.Holds(e.rule, own)
    }
  }

  /* ---- copying ---- */

  method CopyCell<T>(c: Cell?<T>, ghost v: Option<T>, ghost own: set<object>) returns (d: Cell?<T>, ghost mine: set<object>)
    requires Points(c, v, own)
    ensures Points(d, v, mine) && fresh(mine)
  {
    if c == null { return null, {}; }
    d := new Cell(c.value);
    mine := {d};
  }

  method CopyIds(s: ScopeRef, ghost v: Scope, ghost own: set<object>)
    returns (a: Cell?<Uuid>, b: Cell?<Uuid>, c: Cell?<Uuid>, ghost mine: set<object>)
    requires ScopeHolds(s, v, own)
    ensures Points(a, v.segmentId, mine) && Points(b, v.portfolioId, mine) && Points(c, v.accountId, mine) && fresh(mine)
  {
    ghost var m, n, o;
    a, m := CopyCell(s.segmentId, v.segmentId, own);
    b, n := CopyCell(s.portfolioId, v.portfolioId, own);
    c, o := CopyCell(s.accountId, v.accountId, own);
    mine := m + n + o;
  }

  method CopyScope(s: ScopeRef, ghost v: Scope, ghost own: set<object>) returns (d: ScopeRef, ghost mine: set<object>)
    requires ScopeHolds(s, v, own)
    ensures ScopeHolds(d, v, mine) && fresh(mine)
  {
    ghost var m, n, o, p;
    var segmentId, portfolioId, accountId;
    segmentId, portfolioId, accountId, m := CopyIds(s, v, own);
    var merchantId, transactionType, subType;
    merchantId, n := CopyCell(s.merchantId, v.merchantId, own);
    transactionType, o := CopyCell(s.transactionType, v.transactionType, own);
    subType, p := CopyCell(s.subType, v.subType, own);
    d := ScopeRef(segmentId, portfolioId, accountId, merchantId, transactionType, subType);
    mine := m + n + o + p;
  }

  method CopyScopes(s: seq<ScopeRef>, ghost v: seq<Scope>, ghost own: set<object>) returns (copies: seq<ScopeRef>, ghost mine: set<object>)
    requires |s| == |v| && forall j :: 0 <= j < |s| ==> ScopeHolds(s[j], v[j], own)
    ensures |copies| == |v| && fresh(mine) && forall j :: 0 <= j < |v| ==> ScopeHolds(copies[j], v[j], mine)
  {
    copies, mine := [], {};
    for i := 0 to |s|
      invariant |copies| == i && fresh(mine)
      invariant forall j :: 0 <= j < i ==> ScopeHolds(copies[j], v[j], mine)
    {
      ghost var m;
      var copy;
      copy, m := CopyScope(s[i], v[i], own);
      copies := copies + [copy];
      mine := mine + m;
    }
  }

  method CopySlice(a: array?<ScopeRef>, ghost v: seq<Scope>, ghost own: set<object>) returns (d: array?<ScopeRef>, ghost mine: set<object>)
    requires SliceHolds(a, v, own)
    ensures SliceHolds(d, v, mine) && fresh(mine)
  {
    if a == null { return null, {}; }
    var copies;
    copies, mine := CopyScopes(a[..], v, own);
    d := new ScopeRef[|copies|](i requires 0 <= i < |copies| => copies[i]);
    mine := mine + {d};
  }

  method CopyPointers(src: RuleObject, ghost v: Rule, ghost own: set<object>)
    returns (description: Cell?<string>, activatedAt: Cell?<Instant>, deactivatedAt: Cell?<Instant>, deletedAt: Cell?<Instant>,
             ghost mine: set<object>)
    requires src.Holds(v, own)
    ensures Points(description, v.description, mine) && Points(activatedAt, v.activatedAt, mine)
    ensures Points(deactivatedAt, v.deactivatedAt, mine) && Points(deletedAt, v.deletedAt, mine)
    ensures fresh(mine)
  {
    ghost var m, n, o, p;
    description, m := CopyCell(src.description, v.description, own);
    activatedAt, n := CopyCell(src.activatedAt, v.activatedAt, own);
    deactivatedAt, o := CopyCell(src.deactivatedAt, v.deactivatedAt, own);
    deletedAt, p := CopyCell(src.deletedAt, v.deletedAt, own);
    mine := m + n + o + p;
  }

  method CopyRule(src: RuleObject, ghost v: Rule, ghost own: set<object>) returns (r: RuleObject, ghost mine: set<object>)
    requires src.Holds(v, own)
    ensures r.Holds(v, mine) && fresh(mine) && r.compiledProgram == src.compiledProgram
  {
    ghost var m, n;
    var description, activatedAt, deactivatedAt, deletedAt;
    description, activatedAt, deactivatedAt, deletedAt, m := CopyPointers(src, v, own);
    var scopes;
    scopes, n := CopySlice(src.scopes, v.scopes, own);
    r := new RuleObject.Struct(src, description, activatedAt, deactivatedAt, deletedAt, scopes);
    mine := {r} + m + n;
  }

  // A copy that holds the same value and shares no mutable object with its source; the program,
  // which is immutable, is shared.
  method DeepCopy(src: CachedRule, ghost e: Entry, ghost own: set<object>) returns (copy: CachedRule, ghost mine: set<object>)
    requires src.Holds(e, own)
    ensures copy.Holds(e, mine) && fresh(mine) && copy.rule in mine && copy.rule.compiledProgram == src.rule.compiledProgram
  {
    var r;
    r, mine := CopyRule(src.rule, e.rule, own);
    copy := new CachedRule(r, src.program);
    mine := mine + {copy};
  }
}
