/** The counter key of a scope: its ids, tagged, sorted and joined, and how to read them back. */
module ScopeKey {
  import opened Prelude
  import opened Uuid
  import opened Scopes

  const GLOBAL_SCOPE_KEY := "global"

  /* ---- sort.Strings and strings.Join ---- */

  // Strict byte-wise order of strings.
  predicate Before(a: string, b: string) {
    b != "" && (a == "" || a[0] < b[0] || (a[0] == b[0] && Before(a[1..], b[1..])))
  }

  function Insert(x: string, s: seq<string>): seq<string> {
    if s == [] || !Before(x, s[|s| - 1]) then s + [x] else Insert(x, s[..|s| - 1]) + [s[|s| - 1]]
  }

  function Sorted(s: seq<string>): seq<string> {
    if s == [] then [] else Insert(s[|s| - 1], Sorted(s[..|s| - 1]))
  }

  function Join(s: seq<string>): string {
    if s == [] then "" else if |s| == 1 then s[0] else s[0] + ("|" + Join(s[1..]))
  }

  /* ---- the key ---- */

  function Part(tag: string, id: Option<Uuid>): seq<string> {
    if id.None? then [] else [tag + Text(id.value)]
  }

  method CalculateScopeKey(scope: Option<Scope>) returns (key: string)
    ensures key == KeyOf(scope)
  {
    if scope.None? || IsEmpty(scope.value) { return GLOBAL_SCOPE_KEY; }
    var s := scope.value;
    var parts: seq<string> := [];
    if s.accountId.Some? { parts := parts + ["acct:" + Text(s.accountId.value)]; }
    if s.portfolioId.Some? { parts := parts + ["port:" + Text(s.portfolioId.value)]; }
    if s.segmentId.Some? { parts := parts + ["seg:" + Text(s.segmentId.value)]; }
    if s.merchantId.Some? { parts := parts + ["merch:" + Text(s.merchantId.value)]; }
    assert parts == Appended(s);
    SortsByTag(s);
    key := Join(Sorted(parts));
  }

  // The parts in the order the code appends them.
  function Appended(s: Scope): seq<string> {
    Part("acct:", s.accountId) + Part("port:", s.portfolioId) + Part("seg:", s.segmentId) + Part("merch:", s.merchantId)
  }

  // The parts in the order of their tags.
  function Tagged(s: Scope): seq<string> {
    Part("acct:", s.accountId) + (Part("merch:", s.merchantId) + (Part("port:", s.portfolioId) + Part("seg:", s.segmentId)))
  }

  function KeyOf(scope: Option<Scope>): string {
    if scope.None? || IsEmpty(scope.value) then GLOBAL_SCOPE_KEY else Join(Tagged(scope.value))
  }

  // A string that goes after everything before it and ahead of everything behind it lands in between.
  lemma {:induction false} InsertLands(x: string, front: seq<string>, back: seq<string>)
    requires forall i :: 0 <= i < |front| ==> !Before(x, front[i])
    requires forall i :: 0 <= i < |back| ==> Before(x, back[i])
    ensures Insert(x, front + back) == front + [x] + back
  {
    var s := front + back;
    if back == [] {
      assert s == front;
    } else {
      var n := |back| - 1;
      assert s[..|s| - 1] == front + back[..n] && s[|s| - 1] == back[n];
      InsertLands(x, front, back[..n]);
    }
  }

  // All strings of the list begin with a letter between lo and hi.
  predicate Headed(s: seq<string>, lo: char, hi: char) {
    forall i :: 0 <= i < |s| ==> s[i] != "" && lo <= s[i][0] <= hi
  }

  lemma HeadDecides(a: string, b: string)
    requires a != "" && b != "" && a[0] < b[0]
    ensures Before(a, b) && !Before(b, a)
  {
  }

  // A part whose letter lies strictly between those in front and those behind is inserted there.
  lemma InsertsByHead(front: seq<string>, x: string, back: seq<string>)
    requires x != "" && Headed(front, 'a', 'l') && x[0] == 'm' && Headed(back, 'n', 'z')
    ensures Insert(x, front + back) == front + [x] + back
  {
    forall i | 0 <= i < |front| ensures !Before(x, front[i]) { HeadDecides(front[i], x); }
    forall i | 0 <= i < |back| ensures Before(x, back[i]) { HeadDecides(x, back[i]); }
    InsertLands(x, front, back);
  }

  lemma SortedStep(s: seq<string>, x: string)
    ensures Sorted(s + [x]) == Insert(x, Sorted(s))
  {
    assert (s + [x])[..|s|] == s;
  }

  // Appending in letter order needs no sorting.
  lemma SortedAppend(s: seq<string>, part: seq<string>, c: char, d: char)
    requires Sorted(s) == s && |part| <= 1 && 'a' <= c < d && Headed(s, 'a', c) && Headed(part, d, d)
    ensures Sorted(s + part) == s + part && Headed(s + part, 'a', if part == [] then c else d)
  {
    if part == [] {
      assert s + part == s;
    } else {
      var x := part[0];
      assert part == [x];
      SortedStep(s, x);
      if s != [] { HeadDecides(s[|s| - 1], x); }
    }
  }

  lemma SortedBeforeMerchant(a: seq<string>, p: seq<string>, g: seq<string>)
    requires |a| <= 1 && |p| <= 1 && |g| <= 1
    requires Headed(a, 'a', 'a') && Headed(p, 'p', 'p') && Headed(g, 's', 's')
    ensures Sorted(a + p + g) == a + p + g
  {
    assert [] + a == a;
    if a != [] { assert a[..0] == [] && Insert(a[0], []) == [] + [a[0]]; }
    assert Sorted(a) == a;
    SortedAppend(a, p, 'a', 'p');
    SortedAppend(a + p, g, 'p', 's');
  }

  lemma PartHeaded(tag: string, id: Option<Uuid>, c: char)
    requires tag != "" && tag[0] == c
    ensures |Part(tag, id)| <= 1 && Headed(Part(tag, id), c, c)
  {
  }

  lemma SortsByTag(s: Scope)
    ensures Sorted(Appended(s)) == Tagged(s)
  {
    var a, p, g, m := Part("acct:", s.accountId), Part("port:", s.portfolioId), Part("seg:", s.segmentId), Part("merch:", s.merchantId);
    PartHeaded("acct:", s.accountId, 'a');
    PartHeaded("port:", s.portfolioId, 'p');
    PartHeaded("seg:", s.segmentId, 's');
    PartHeaded("merch:", s.merchantId, 'm');
    SortsParts(a, p, g, m);
  }

  lemma BetweenThem(a: seq<string>, p: seq<string>, g: seq<string>)
    requires Headed(a, 'a', 'a') && Headed(p, 'p', 'p') && Headed(g, 's', 's')
    ensures Headed(a, 'a', 'l') && Headed(p + g, 'n', 'z')
  {
  }

  lemma MerchantSortsIn(a: seq<string>, p: seq<string>, g: seq<string>, x: string)
    requires |a| <= 1 && |p| <= 1 && |g| <= 1
    requires Headed(a, 'a', 'a') && Headed(p, 'p', 'p') && Headed(g, 's', 's') && x != "" && x[0] == 'm'
    ensures Sorted(a + p + g + [x]) == a + [x] + (p + g)
  {
    calc {
      Sorted(a + p + g + [x]);
      { SortedStep(a + p + g, x); }
      Insert(x, Sorted(a + p + g));
      { SortedBeforeMerchant(a, p, g); assert a + p + g == a + (p + g); }
      Insert(x, a + (p + g));
      { BetweenThem(a, p, g); InsertsByHead(a, x, p + g); }
      a + [x] + (p + g);
    }
  }

  lemma Regroup(a: seq<string>, p: seq<string>, g: seq<string>, m: seq<string>)
    ensures m == [] ==> a + p + g + m == a + p + g && a + (m + (p + g)) == a + p + g
    ensures |m| == 1 ==> m == [m[0]] && a + (m + (p + g)) == a + [m[0]] + (p + g)
  {
  }

  lemma SortsParts(a: seq<string>, p: seq<string>, g: seq<string>, m: seq<string>)
    requires |a| <= 1 && |p| <= 1 && |g| <= 1 && |m| <= 1
    requires Headed(a, 'a', 'a') && Headed(p, 'p', 'p') && Headed(g, 's', 's') && Headed(m, 'm', 'm')
    ensures Sorted(a + p + g + m) == a + (m + (p + g))
  {
    Regroup(a, p, g, m);
    if m == [] { SortedBeforeMerchant(a, p, g); } else { MerchantSortsIn(a, p, g, m[0]); }
  }

  /* ---- reading a key back ---- */

  predicate Plain(s: seq<string>) {
    forall i :: 0 <= i < |s| ==> s[i] != "" && '|' !in s[i]
  }

  lemma FirstBar(a: string, x: string, b: string, y: string)
    requires '|' !in a && '|' !in b && a + ("|" + x) == b + ("|" + y)
    ensures a == b && x == y
  {
    var l, r := a + ("|" + x), b + ("|" + y);
    assert l[|a|] == '|' && r[|b|] == '|';
    assert forall i :: 0 <= i < |a| ==> l[i] == a[i];
    assert forall i :: 0 <= i < |b| ==> r[i] == b[i];
    assert a == l[..|a|] && b == r[..|b|];
    assert x == l[|a| + 1..] && y == r[|b| + 1..];
  }

  lemma OneIsNotTwo(a: string, b: string, y: string)
    requires '|' !in a
    ensures a != b + ("|" + y)
  {
    assert (b + ("|" + y))[|b|] == '|';
  }

  // A joined key falls apart into its parts in one way only.
  lemma {:induction false} JoinInjective(s: seq<string>, t: seq<string>)
    requires Plain(s) && Plain(t) && Join(s) == Join(t)
    ensures s == t
  {
    if |s| >= 2 && |t| >= 2 {
      FirstBar(s[0], Join(s[1..]), t[0], Join(t[1..]));
      JoinInjective(s[1..], t[1..]);
      assert s == [s[0]] + s[1..] && t == [t[0]] + t[1..];
    } else if |s| >= 2 {
      if |t| == 1 { OneIsNotTwo(t[0], s[0], Join(s[1..])); }
    } else if |t| >= 2 {
      if |s| == 1 { OneIsNotTwo(s[0], t[0], Join(t[1..])); }
    }
  }

  // The part of a list that begins with a letter, if there is one.
  function Starting(s: seq<string>, c: char): Option<string> {
    if s == [] then None
    else if s[0] != "" && s[0][0] == c then Some(s[0])
    else Starting(s[1..], c)
  }

  lemma StartingSkips(part: seq<string>, rest: seq<string>, c: char)
    requires |part| <= 1 && (part == [] || part[0] != "")
    ensures Starting(part + rest, c) == if part != [] && part[0][0] == c then Some(part[0]) else Starting(rest, c)
  {
    if part == [] { assert part + rest == rest; } else { assert (part + rest)[1..] == rest; }
  }

  function PartText(tag: string, id: Option<Uuid>): Option<string> {
    if id.None? then None else Some(tag + Text(id.value))
  }

  lemma TaggedFields(s: Scope)
    ensures Starting(Tagged(s), 'a') == PartText("acct:", s.accountId)
    ensures Starting(Tagged(s), 'm') == PartText("merch:", s.merchantId)
    ensures Starting(Tagged(s), 'p') == PartText("port:", s.portfolioId)
    ensures Starting(Tagged(s), 's') == PartText("seg:", s.segmentId)
  {
    TaggedField(s, 'a');
    TaggedField(s, 'm');
    TaggedField(s, 'p');
    TaggedField(s, 's');
  }

  lemma TaggedField(s: Scope, c: char)
    requires c == 'a' || c == 'm' || c == 'p' || c == 's'
    ensures Starting(Tagged(s), c) ==
            if c == 'a' then PartText("acct:", s.accountId)
            else if c == 'm' then PartText("merch:", s.merchantId)
            else if c == 'p' then PartText("port:", s.portfolioId)
            else PartText("seg:", s.segmentId)
  {
    var a, p, g, m := Part("acct:", s.accountId), Part("port:", s.portfolioId), Part("seg:", s.segmentId), Part("merch:", s.merchantId);
    StartingSkips(a, m + (p + g), c);
    StartingSkips(m, p + g, c);
    StartingSkips(p, g, c);
    StartingSkips(g, [], c);
    assert g + [] == g;
  }

  lemma PartIsPlain(tag: string, id: Option<Uuid>)
    requires tag != "" && '|' !in tag
    ensures Plain(Part(tag, id))
  {
    if id.Some? { TextIsPlain(id.value); }
  }

  lemma TaggedIsPlain(s: Scope)
    ensures Plain(Tagged(s))
  {
    PartIsPlain("acct:", s.accountId);
    PartIsPlain("merch:", s.merchantId);
    PartIsPlain("port:", s.portfolioId);
    PartIsPlain("seg:", s.segmentId);
  }

  lemma SamePartSameId(tag: string, a: Option<Uuid>, b: Option<Uuid>)
    requires PartText(tag, a) == PartText(tag, b)
    ensures a == b
  {
    if a.Some? {
      assert Text(a.value) == (tag + Text(a.value))[|tag|..] && Text(b.value) == (tag + Text(b.value))[|tag|..];
      TextInjective(a.value, b.value);
    }
  }

  predicate SameIds(a: Scope, b: Scope) {
    a.accountId == b.accountId && a.merchantId == b.merchantId && a.portfolioId == b.portfolioId && a.segmentId == b.segmentId
  }

  // Two scopes share a counter key exactly when they name the same ids.
  lemma KeyNamesIds(a: Scope, b: Scope)
    requires !IsEmpty(a) && !IsEmpty(b)
    ensures KeyOf(Some(a)) == KeyOf(Some(b)) <==> SameIds(a, b)
  {
    if KeyOf(Some(a)) == KeyOf(Some(b)) {
      TaggedIsPlain(a);
      TaggedIsPlain(b);
      JoinInjective(Tagged(a), Tagged(b));
      TaggedFields(a);
      TaggedFields(b);
      SamePartSameId("acct:", a.accountId, b.accountId);
      SamePartSameId("merch:", a.merchantId, b.merchantId);
      SamePartSameId("port:", a.portfolioId, b.portfolioId);
      SamePartSameId("seg:", a.segmentId, b.segmentId);
    }
  }

  // No scope with content gets the key of the global counter.
  lemma GlobalKeyIsReserved(a: Scope)
    ensures KeyOf(Some(a)) == GLOBAL_SCOPE_KEY <==> IsEmpty(a)
  {
    if !IsEmpty(a) && KeyOf(Some(a)) == GLOBAL_SCOPE_KEY {
      TaggedIsPlain(a);
      JoinInjective(Tagged(a), [GLOBAL_SCOPE_KEY]);
      TaggedFields(a);
      assert false;
    }
  }

  // The limit checker's counter key: that of the limit's first scope that matches, never that of the
  // transaction. So a limit with n scopes has at most n counters per period.
  method CalculateScopeKeyFromScopes(scopes: seq<Scope>, txScope: Scope) returns (key: string)
    ensures scopes == [] ==> key == GLOBAL_SCOPE_KEY
    ensures scopes != [] && ScopesMatch(scopes, Some(txScope)) ==>
              exists j :: 0 <= j < |scopes| && Matches(scopes[j], txScope) && key == KeyOf(Some(scopes[j]))
                          && forall i :: 0 <= i < j ==> !Matches(scopes[i], txScope)
    ensures scopes != [] && !ScopesMatch(scopes, Some(txScope)) ==> key == KeyOf(Some(txScope))
  {
    if |scopes| == 0 { return GLOBAL_SCOPE_KEY; }
    for i := 0 to |scopes|
      invariant forall j :: 0 <= j < i ==> !Matches(scopes[j], txScope)
    {
      if Matches(scopes[i], txScope) {
        key := CalculateScopeKey(Some(scopes[i]));
        return;
      }
    }
    key := CalculateScopeKey(Some(txScope));
  }
}
