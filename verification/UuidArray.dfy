/** UUID lists as PostgreSQL arrays: the unescaped printer, the splitter and the fail-fast parser. */
module UuidArray {
  import opened Prelude
  import opened Uuid

  /* ---- printing ---- */

  function Joined(strs: seq<string>): string {
    if strs == [] then ""
    else if |strs| == 1 then strs[0]
    else Joined(strs[..|strs| - 1]) + "," + strs[|strs| - 1]
  }

  method FormatStringArray(strs: seq<string>) returns (result: string)
    ensures result == "{" + Joined(strs) + "}"
  {
    if |strs| == 0 { return "{}"; }
    result := "{";
    for i := 0 to |strs|
      invariant result == "{" + Joined(strs[..i])
    {
      assert strs[..i + 1][..i] == strs[..i];
      if i > 0 { result := result + ","; }
      result := result + strs[i];
    }
    assert strs[..|strs|] == strs;
    result := result + "}";
  }

  function Texts(ids: seq<Uuid>): (strs: seq<string>)
    ensures |strs| == |ids|
  {
    seq(|ids|, i requires 0 <= i < |ids| => Text(ids[i]))
  }

  method FormatUuidArray(ids: seq<Uuid>) returns (result: string)
    ensures result == "{" + Joined(Texts(ids)) + "}"
  {
    var strs: seq<string> := [];
    for i := 0 to |ids|
      invariant strs == Texts(ids[..i])
    {
      strs := strs + [Text(ids[i])];
    }
    assert ids[..|ids|] == ids;
    result := FormatStringArray(strs);
  }

  /* ---- splitting ---- */

  // The stretches between commas, empty ones included.
  function Pieces(s: string): (r: seq<string>)
    ensures |r| > 0
  {
    if s == "" then [""]
    else
      var before, c := Pieces(s[..|s| - 1]), s[|s| - 1];
      if c == ',' then before + [""] else before[..|before| - 1] + [before[|before| - 1] + [c]]
  }

  function NonEmpty(parts: seq<string>): seq<string> {
    if parts == [] then []
    else NonEmpty(parts[..|parts| - 1]) + (if parts[|parts| - 1] == "" then [] else [parts[|parts| - 1]])
  }

  lemma NonEmptyAppend(parts: seq<string>, last: string)
    ensures NonEmpty(parts + [last]) == NonEmpty(parts) + (if last == "" then [] else [last])
  {
    assert (parts + [last])[..|parts|] == parts;
  }

  // One more character either closes the open stretch or extends it.
  lemma PiecesStep(s: string, i: nat)
    requires i < |s|
    ensures var before, after := Pieces(s[..i]), Pieces(s[..i + 1]);
            if s[i] == ',' then after == before + [""]
            else after == before[..|before| - 1] + [before[|before| - 1] + [s[i]]]
  {
    assert s[..i + 1][..i] == s[..i];
  }

  predicate SplitSoFar(s: string, start: nat, i: nat, result: seq<string>) {
    start <= i <= |s|
    && var p := Pieces(s[..i]);
       result == NonEmpty(p[..|p| - 1]) && s[start..i] == p[|p| - 1]
  }

  lemma SplitAtComma(s: string, start: nat, i: nat, result: seq<string>)
    requires i < |s| && SplitSoFar(s, start, i, result) && s[i] == ','
    ensures SplitSoFar(s, i + 1, i + 1, result + (if s[start..i] != "" then [s[start..i]] else []))
  {
    PiecesStep(s, i);
    var p := Pieces(s[..i]);
    assert (p + [""])[..|p|] == p[..|p| - 1] + [p[|p| - 1]];
    NonEmptyAppend(p[..|p| - 1], p[|p| - 1]);
  }

  lemma SplitGoesOn(s: string, start: nat, i: nat, result: seq<string>)
    requires i < |s| && SplitSoFar(s, start, i, result) && s[i] != ','
    ensures SplitSoFar(s, start, i + 1, result)
  {
    PiecesStep(s, i);
    assert s[start..i + 1] == s[start..i] + [s[i]];
  }

  method SplitUuidArray(s: string) returns (result: seq<string>)
    ensures result == NonEmpty(Pieces(s))
  {
    if s == "" {
      assert NonEmpty([""]) == NonEmpty([]) by { NonEmptyAppend([], ""); assert [] + [""] == [""]; }
      return [];
    }
    result := [];
    var start := 0;
    var i := 0;
    while i <= |s|
      invariant i <= |s| ==> SplitSoFar(s, start, i, result)
      invariant i == |s| + 1 ==> result == NonEmpty(Pieces(s))
      invariant i <= |s| + 1
    {
      if i == |s| || s[i] == ',' {
        var part := s[start..i];
        if i == |s| {
          assert s[..i] == s;
          var p := Pieces(s);
          assert p == p[..|p| - 1] + [part];
          NonEmptyAppend(p[..|p| - 1], part);
        } else {
          SplitAtComma(s, start, i, result);
        }
        if part != "" { result := result + [part]; }
        start := i + 1;
      } else {
        SplitGoesOn(s, start, i, result);
      }
      i := i + 1;
    }
  }

  /* ---- parsing ---- */

  // The UUID library's parser: whichever spellings it accepts, the canonical text is one of them.
  type Parser = string -> Option<Uuid>

  ghost predicate ReadsCanonical(parse: Parser) {
    forall u: Uuid :: parse(Text(u)) == Some(u)
  }

  // The one that accepts the canonical spelling only, in either case.
  lemma CanonicalParser()
    ensures ReadsCanonical(Parse)
  {
    forall u: Uuid ensures Parse(Text(u)) == Some(u) { ParseText(u); }
  }

  // Fail fast: the first part that is not a UUID makes the whole list an error.
  function ParseAll(parse: Parser, parts: seq<string>): Option<seq<Uuid>> {
    if parts == [] then Some([])
    else
      var before, last := ParseAll(parse, parts[..|parts| - 1]), parse(parts[|parts| - 1]);
      if before.None? || last.None? then None else Some(before.value + [last.value])
  }

  function Trimmed(s: string): string {
    if |s| >= 2 && s[0] == '{' && s[|s| - 1] == '}' then s[1..|s| - 1] else s
  }

  function ParseSpec(parse: Parser, s: string): Option<seq<Uuid>> {
    if s == "" || s == "{}" || Trimmed(s) == "" then Some([]) else ParseAll(parse, NonEmpty(Pieces(Trimmed(s))))
  }

  lemma {:induction false} ParseAllFails(parse: Parser, parts: seq<string>, i: nat)
    requires i < |parts| && parse(parts[i]).None?
    ensures ParseAll(parse, parts).None?
  {
    if i < |parts| - 1 { ParseAllFails(parse, parts[..|parts| - 1], i); }
  }

  lemma ParseAllAppend(parse: Parser, parts: seq<string>, i: nat)
    requires i < |parts| && ParseAll(parse, parts[..i]).Some? && parse(parts[i]).Some?
    ensures ParseAll(parse, parts[..i + 1]) == Some(ParseAll(parse, parts[..i]).value + [parse(parts[i]).value])
  {
    assert parts[..i + 1][..i] == parts[..i];
  }

  method ParseUuidArray(parse: Parser, s: string) returns (r: Option<seq<Uuid>>)
    ensures r == ParseSpec(parse, s)
  {
    if s == "" || s == "{}" { return Some([]); }
    var trimmed := s;
    if |trimmed| >= 2 && trimmed[0] == '{' && trimmed[|trimmed| - 1] == '}' { trimmed := trimmed[1..|trimmed| - 1]; }
    if trimmed == "" { return Some([]); }
    var parts := SplitUuidArray(trimmed);
    r := ParseParts(parse, parts);
  }

  method ParseParts(parse: Parser, parts: seq<string>) returns (r: Option<seq<Uuid>>)
    ensures r == ParseAll(parse, parts)
  {
    var result: seq<Uuid> := [];
    for i := 0 to |parts|
      invariant ParseAll(parse, parts[..i]) == Some(result)
    {
      var id := parse(parts[i]);
      if id.None? {
        ParseAllFails(parse, parts, i);
        return None;
      }
      ParseAllAppend(parse, parts, i);
      result := result + [id.value];
    }
    assert parts[..|parts|] == parts;
    r := Some(result);
  }

  /* ---- the round trip ---- */

  lemma {:induction false} PiecesAppend(s: string, t: string)
    requires ',' !in t
    ensures var p := Pieces(s); Pieces(s + t) == p[..|p| - 1] + [p[|p| - 1] + t]
  {
    var p := Pieces(s);
    if t == "" {
      assert s + t == s && p[|p| - 1] + t == p[|p| - 1];
    } else {
      var n := |t| - 1;
      assert (s + t)[..|s + t| - 1] == s + t[..n];
      PiecesAppend(s, t[..n]);
      assert p[|p| - 1] + t[..n] + [t[n]] == p[|p| - 1] + t;
    }
  }

  lemma PiecesOfOne(t: string)
    requires ',' !in t
    ensures Pieces(t) == [t]
  {
    PiecesAppend("", t);
    assert "" + t == t;
  }

  lemma PiecesAfterComma(s: string, t: string)
    requires ',' !in t
    ensures Pieces(s + "," + t) == Pieces(s) + [t]
  {
    assert (s + ",")[..|s|] == s;
    PiecesAppend(s + ",", t);
    assert "" + t == t;
  }

  lemma {:induction false} PiecesOfJoined(strs: seq<string>)
    requires strs != [] && forall t :: t in strs ==> ',' !in t
    ensures Pieces(Joined(strs)) == strs
  {
    var n := |strs| - 1;
    assert strs == strs[..n] + [strs[n]];
    if n == 0 {
      PiecesOfOne(strs[0]);
    } else {
      PiecesOfJoined(strs[..n]);
      PiecesAfterComma(Joined(strs[..n]), strs[n]);
    }
  }

  lemma {:induction false} NonEmptyKeepsAll(parts: seq<string>)
    requires "" !in parts
    ensures NonEmpty(parts) == parts
  {
    if parts != [] {
      NonEmptyKeepsAll(parts[..|parts| - 1]);
      assert parts == parts[..|parts| - 1] + [parts[|parts| - 1]];
    }
  }

  lemma {:induction false} ParseAllTexts(parse: Parser, ids: seq<Uuid>)
    requires ReadsCanonical(parse)
    ensures ParseAll(parse, Texts(ids)) == Some(ids)
  {
    if ids != [] {
      var n := |ids| - 1;
      ParseAllTexts(parse, ids[..n]);
      assert Texts(ids)[..n] == Texts(ids[..n]);
      assert parse(Text(ids[n])) == Some(ids[n]);
      assert ids == ids[..n] + [ids[n]];
    } else {
      assert Texts(ids) == [];
    }
  }

  lemma TextsArePlain(ids: seq<Uuid>)
    ensures forall t :: t in Texts(ids) ==> ',' !in t && t != ""
  {
    forall t | t in Texts(ids) ensures ',' !in t && t != "" {
      var i :| 0 <= i < |ids| && Texts(ids)[i] == t;
      TextIsPlain(ids[i]);
    }
  }

  // Braces around a non-empty content come off again.
  lemma Unbraced(parse: Parser, content: string)
    requires content != ""
    ensures ParseSpec(parse, "{" + content + "}") == ParseAll(parse, NonEmpty(Pieces(content)))
  {
    var s := "{" + content + "}";
    assert |s| > 2 && Trimmed(s) == content;
  }

  lemma {:induction false} JoinedNonEmpty(strs: seq<string>)
    requires strs != [] && "" !in strs
    ensures Joined(strs) != ""
  {
    assert strs[0] in strs;
  }

  // Parsing undoes printing for every list of UUIDs, the empty one included.
  lemma UuidRoundTrip(parse: Parser, ids: seq<Uuid>)
    requires ReadsCanonical(parse)
    ensures ParseSpec(parse, "{" + Joined(Texts(ids)) + "}") == Some(ids)
  {
    var texts := Texts(ids);
    if ids == [] {
      assert texts == [];
      assert "{" + Joined(texts) + "}" == "{}";
    } else {
      TextsArePlain(ids);
      JoinedNonEmpty(texts);
      Unbraced(parse, Joined(texts));
      PiecesOfJoined(texts);
      NonEmptyKeepsAll(texts);
      ParseAllTexts(parse, ids);
    }
  }
}
