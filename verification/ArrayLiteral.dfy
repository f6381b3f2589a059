/**
 * PostgreSQL text[] literals: the printer, the parser with its quote and escape flags, and exactly
 * which arrays survive the round trip. Text is a sequence of bytes, written as characters.
 */
module ArrayLiteral {
  import opened Prelude

  const NULL_STRING := "\0NULL\0"

  /* ---- elements ---- */

  predicate Special(c: char) {
    c == '{' || c == '}' || c == ',' || c == '"' || c == '\\' || c == ' ' || c == '\t' || c == '\n' || c == '\r'
  }

  // strings.ReplaceAll of one character.
  function ReplaceAll(s: string, c: char, rep: string): string {
    if s == "" then "" else (if s[0] == c then rep else [s[0]]) + ReplaceAll(s[1..], c, rep)
  }

  function QuoteArrayElement(s: string): string {
    if s != "" && (forall i :: 0 <= i < |s| ==> !Special(s[i])) then s
    else "\"" + ReplaceAll(ReplaceAll(s, '\\', "\\\\"), '"', "\\\"") + "\""
  }

  // strings.NewReplacer(`\"`, `"`, `\\`, `\`): one pass, left to right.
  function Unescaped(s: string): (r: string)
    ensures |r| <= |s|
  {
    if s == "" then ""
    else if |s| >= 2 && s[0] == '\\' && (s[1] == '"' || s[1] == '\\') then [s[1]] + Unescaped(s[2..])
    else [s[0]] + Unescaped(s[1..])
  }

  predicate Quoted(s: string) {
    |s| >= 2 && s[0] == '"' && s[|s| - 1] == '"'
  }

  function UnquoteElement(s: string): string {
    if s == "NULL" then NULL_STRING
    else if Quoted(s) then Unescaped(s[1..|s| - 1])
    else s
  }

  /* ---- the parser, one character at a time ---- */

  datatype Parser = Parser(result: seq<string>, current: string, inQuotes: bool, escaped: bool)

  function Step(p: Parser, c: char): Parser {
    if p.escaped then p.(current := p.current + [c], escaped := false)
    else if c == '\\' then p.(escaped := true)
    else if c == '"' then p.(inQuotes := !p.inQuotes)
    else if c == ',' && !p.inQuotes then p.(result := p.result + [UnquoteElement(p.current)], current := "")
    else p.(current := p.current + [c])
  }

  function Parsed(s: string, p: Parser): Parser {
    if s == "" then p else Step(Parsed(s[..|s| - 1], p), s[|s| - 1])
  }

  // After the last character: an open quote is an error, a trailing backslash stands for itself.
  function Finished(p: Parser): Option<seq<string>> {
    if p.inQuotes then None
    else Some(p.result + [UnquoteElement(if p.escaped then p.current + "\\" else p.current)])
  }

  const Start := Parser([], "", false, false)

  method ParseArrayElements(content: string) returns (r: Option<seq<string>>)
    requires content != ""
    ensures r == Finished(Parsed(content, Start))
  {
    var result: seq<string> := [];
    var current := "";
    var inQuotes, escaped := false, false;
    for i := 0 to |content|
      invariant Parser(result, current, inQuotes, escaped) == Parsed(content[..i], Start)
    {
      var c := content[i];
      assert content[..i + 1][..i] == content[..i];
      if escaped {
        current := current + [c];
        escaped := false;
        continue;
      }
      if c == '\\' {
        escaped := true;
      } else if c == '"' {
        inQuotes := !inQuotes;
      } else if c == ',' && !inQuotes {
        result := result + [UnquoteElement(current)];
        current := "";
      } else {
        current := current + [c];
      }
    }
    assert content[..|content|] == content;
    if inQuotes { return None; }
    if escaped { current := current + "\\"; }
    if |current| > 0 || |result| > 0 || |content| > 0 { result := result + [UnquoteElement(current)]; }
    r := Some(result);
  }

  /* ---- Scan and Value ---- */

  // A column value: SQL NULL, text (string or bytes), or a type that is not text.
  datatype Source = Null | Text(s: string) | Incompatible

  // A StringArray: None is the nil slice.
  type StringArray = Option<seq<string>>

  datatype ScanResult = Scanned(a: StringArray) | Error

  function ScanSpec(src: Source): ScanResult {
    match src
    case Null => Scanned(None)
    case Incompatible => Error
    case Text(s) =>
      if s == "{}" then Scanned(Some([]))
      else if |s| < 2 || s[0] != '{' || s[|s| - 1] != '}' then Error
      else
        var elements := Finished(Parsed(s[1..|s| - 1], Start));
        if elements.None? then Error else Scanned(elements)
  }

  method Scan(src: Source) returns (r: ScanResult)
    ensures r == ScanSpec(src)
  {
    if src.Null? { return Scanned(None); }
    if src.Incompatible? { return Error; }
    var source := src.s;
    if source == "{}" { return Scanned(Some([])); }
    if |source| < 2 || source[0] != '{' || source[|source| - 1] != '}' { return Error; }
    var content := source[1..|source| - 1];
    if content == "" { return Scanned(Some([])); }
    var elements := ParseArrayElements(content);
    if elements.None? { return Error; }
    r := Scanned(elements);
  }

  // The elements, quoted where needed and separated by commas.
  function Joined(a: seq<string>): string {
    if a == [] then ""
    else if |a| == 1 then QuoteArrayElement(a[0])
    else Joined(a[..|a| - 1]) + "," + QuoteArrayElement(a[|a| - 1])
  }

  function Literal(a: StringArray): Source {
    if a.None? then Null else Text("{" + Joined(a.value) + "}")
  }

  method Value(a: StringArray) returns (r: Source)
    ensures r == Literal(a)
  {
    if a.None? { return Null; }
    if |a.value| == 0 { return Text("{}"); }
    var b := "{";
    for i := 0 to |a.value|
      invariant b == "{" + Joined(a.value[..i])
    {
      var elem := a.value[i];
      assert a.value[..i + 1][..i] == a.value[..i];
      if i > 0 { b := b + ","; }
      b := b + QuoteArrayElement(elem);
    }
    assert a.value[..|a.value|] == a.value;
    r := Text(b + "}");
  }

  /* ---- the round trip ---- */

  lemma {:induction false} ParsedAppend(s: string, t: string, p: Parser)
    ensures Parsed(s + t, p) == Parsed(t, Parsed(s, p))
  {
    if t == "" {
      assert s + t == s;
    } else {
      var n := |t| - 1;
      assert (s + t)[..|s + t| - 1] == s + t[..n];
      ParsedAppend(s, t[..n], p);
    }
  }

  lemma ParsedOne(c: char, p: Parser)
    ensures Parsed([c], p) == Step(p, c)
  {
    assert [c][..0] == "";
  }

  // Backslashes doubled, then quotes escaped.
  function Escaped(s: string): string {
    ReplaceAll(ReplaceAll(s, '\\', "\\\\"), '"', "\\\"")
  }

  lemma {:induction false} ReplaceAppend(s: string, t: string, c: char, rep: string)
    ensures ReplaceAll(s + t, c, rep) == ReplaceAll(s, c, rep) + ReplaceAll(t, c, rep)
  {
    if s == "" {
      assert s + t == t;
    } else {
      assert (s + t)[1..] == s[1..] + t;
      ReplaceAppend(s[1..], t, c, rep);
    }
  }

  function EscapedChar(c: char): string {
    if c == '\\' then "\\\\" else if c == '"' then "\\\"" else [c]
  }

  lemma EscapedHead(s: string)
    requires s != ""
    ensures Escaped(s) == EscapedChar(s[0]) + Escaped(s[1..])
  {
    var first := if s[0] == '\\' then "\\\\" else [s[0]];
    var rest := ReplaceAll(s[1..], '\\', "\\\\");
    assert ReplaceAll(s, '\\', "\\\\") == first + rest;
    ReplaceAppend(first, rest, '"', "\\\"");
    EscapedFirst(s[0]);
  }

  lemma EscapedFirst(c: char)
    ensures ReplaceAll(if c == '\\' then "\\\\" else [c], '"', "\\\"") == EscapedChar(c)
  {
    if c == '\\' {
      assert "\\\\"[1..] == "\\" && "\\"[1..] == "";
      assert ReplaceAll("\\", '"', "\\\"") == "\\" + ReplaceAll("", '"', "\\\"");
    } else {
      assert [c][1..] == "";
    }
  }

  lemma ParsedEscapedChar(c: char, p: Parser)
    requires p.inQuotes && !p.escaped
    ensures Parsed(EscapedChar(c), p) == p.(current := p.current + [c])
  {
    if c == '\\' || c == '"' {
      assert EscapedChar(c) == ['\\'] + [c];
      ParsedAppend(['\\'], [c], p);
      ParsedOne('\\', p);
      ParsedOne(c, p.(escaped := true));
    } else {
      ParsedOne(c, p);
    }
  }

  lemma EscapedCons(c: char, rest: string)
    ensures Escaped([c] + rest) == EscapedChar(c) + Escaped(rest)
  {
    EscapedHead([c] + rest);
    assert ([c] + rest)[1..] == rest;
  }

  // Between quotes the parser reads an escaped text back as it was.
  lemma {:induction false} ParsedEscaped(s: string, p: Parser)
    requires p.inQuotes && !p.escaped
    ensures Parsed(Escaped(s), p) == p.(current := p.current + s)
  {
    if s == "" {
      assert p.current + s == p.current;
    } else {
      var c, rest := s[0], s[1..];
      assert s == [c] + rest;
      var next := p.(current := p.current + [c]);
      calc {
        Parsed(Escaped(s), p);
        { EscapedCons(c, rest); }
        Parsed(EscapedChar(c) + Escaped(rest), p);
        { ParsedAppend(EscapedChar(c), Escaped(rest), p); ParsedEscapedChar(c, p); }
        Parsed(Escaped(rest), next);
        { ParsedEscaped(rest, next); }
        next.(current := next.current + rest);
        { assert next.current + rest == p.current + s; }
        p.(current := p.current + s);
      }
    }
  }

  lemma {:induction false} ParsedPlain(s: string, p: Parser)
    requires !p.escaped && forall i :: 0 <= i < |s| ==> !Special(s[i])
    ensures Parsed(s, p) == p.(current := p.current + s)
  {
    if s != "" {
      var n := |s| - 1;
      ParsedPlain(s[..n], p);
      assert p.current + s[..n] + [s[n]] == p.current + s;
    } else {
      assert p.current + s == p.current;
    }
  }

  // However an element was printed, the parser collects exactly its text.
  lemma ParsedElement(e: string, p: Parser)
    requires !p.inQuotes && !p.escaped && p.current == ""
    ensures Parsed(QuoteArrayElement(e), p) == p.(current := e)
  {
    if e != "" && forall i :: 0 <= i < |e| ==> !Special(e[i]) {
      ParsedPlain(e, p);
    } else {
      var q := "\"";
      var open := p.(inQuotes := true);
      ParsedAppend(q + Escaped(e), q, p);
      ParsedAppend(q, Escaped(e), p);
      ParsedOne('"', p);
      ParsedEscaped(e, open);
      assert open.current + e == e;
      ParsedOne('"', open.(current := e));
    }
  }

  function UnquoteAll(a: seq<string>): seq<string> {
    seq(|a|, i requires 0 <= i < |a| => UnquoteElement(a[i]))
  }

  // A comma outside quotes ends an element.
  lemma ParsedComma(done: seq<string>, e: string, next: string)
    ensures Parsed("," + QuoteArrayElement(next), Parser(done, e, false, false)) == Parser(done + [UnquoteElement(e)], next, false, false)
  {
    var p := Parser(done, e, false, false);
    ParsedAppend(",", QuoteArrayElement(next), p);
    ParsedOne(',', p);
    ParsedElement(next, Parser(done + [UnquoteElement(e)], "", false, false));
  }

  lemma UnquoteAllAppend(a: seq<string>, e: string)
    ensures UnquoteAll(a + [e]) == UnquoteAll(a) + [UnquoteElement(e)]
  {
  }

  // After the literal's content: all elements but the last are read, the last is being collected.
  lemma {:induction false} ParsedJoined(a: seq<string>, last: string)
    ensures Parsed(Joined(a + [last]), Start) == Parser(UnquoteAll(a), last, false, false)
  {
    if a == [] {
      assert [] + [last] == [last];
      ParsedElement(last, Start);
      assert UnquoteAll([]) == [];
    } else {
      var n := |a| - 1;
      var front, e := a[..n], a[n];
      assert a == front + [e];
      ParsedJoined(front, e);
      JoinedAppend(a, last);
      ParsedAppend(Joined(a), "," + QuoteArrayElement(last), Start);
      ParsedComma(UnquoteAll(front), e, last);
      UnquoteAllAppend(front, e);
    }
  }

  lemma JoinedAppend(a: seq<string>, last: string)
    requires a != []
    ensures Joined(a + [last]) == Joined(a) + ("," + QuoteArrayElement(last))
  {
    assert (a + [last])[..|a|] == a;
    assert Joined(a) + "," + QuoteArrayElement(last) == Joined(a) + ("," + QuoteArrayElement(last));
  }

  lemma JoinedNonEmpty(a: seq<string>)
    requires a != []
    ensures Joined(a) != ""
  {
  }

  // The text between braces, when there is any, goes to the parser.
  lemma ScanBraced(content: string)
    requires content != ""
    ensures ScanSpec(Text("{" + content + "}")) ==
            var elements := Finished(Parsed(content, Start)); if elements.None? then Error else Scanned(elements)
  {
    var s := "{" + content + "}";
    assert |s| > 2 && s[1..|s| - 1] == content;
  }

  // What comes back is each element, unquoted once more.
  lemma ScanOfValue(a: StringArray)
    ensures ScanSpec(Literal(a)) == Scanned(if a.None? then None else Some(UnquoteAll(a.value)))
  {
    if a == Some([]) {
      assert Literal(a).s == "{}" && UnquoteAll([]) == [];
    } else if a.Some? {
      var front, last := a.value[..|a.value| - 1], a.value[|a.value| - 1];
      assert a.value == front + [last];
      JoinedNonEmpty(a.value);
      ScanBraced(Joined(a.value));
      ParsedJoined(front, last);
      UnquoteAllAppend(front, last);
    }
  }

  predicate Survives(e: string) {
    e != "NULL" && !Quoted(e)
  }

  lemma UnquoteFixes(e: string)
    ensures UnquoteElement(e) == e <==> Survives(e)
  {
    if e == "NULL" { assert |NULL_STRING| == 6; }
  }

  // Scan undoes Value exactly on the arrays, nil included, none of whose elements is the text NULL
  // or begins and ends with a double quote.
  lemma RoundTripIff(a: StringArray)
    ensures ScanSpec(Literal(a)) == Scanned(a) <==> (a.Some? ==> forall e :: e in a.value ==> Survives(e))
  {
    ScanOfValue(a);
    if a.Some? {
      forall i | 0 <= i < |a.value| ensures UnquoteAll(a.value)[i] == a.value[i] <==> Survives(a.value[i]) {
        UnquoteFixes(a.value[i]);
      }
      if forall e :: e in a.value ==> Survives(e) {
        assert UnquoteAll(a.value) == a.value;
      } else {
        var e :| e in a.value && !Survives(e);
        var i :| 0 <= i < |a.value| && a.value[i] == e;
        assert UnquoteAll(a.value)[i] != a.value[i];
      }
    }
  }

  // Quotes around a plain element make no difference to what is read. So the quoted text NULL, which
  // is how the database prints that text, is taken for SQL NULL.
  lemma QuotesAreIgnored(e: string)
    requires e != "" && forall i :: 0 <= i < |e| ==> !Special(e[i])
    ensures ScanSpec(Text("{" + e + "}")) == Scanned(Some([UnquoteElement(e)]))
    ensures ScanSpec(Text("{" + ("\"" + e + "\"") + "}")) == Scanned(Some([UnquoteElement(e)]))
  {
    ParsedPlain(e, Start);
    ReadsOne(e, e);
    ParsedInQuotes(e);
    ReadsOne("\"" + e + "\"", e);
  }

  lemma ParsedInQuotes(e: string)
    requires forall i :: 0 <= i < |e| ==> !Special(e[i])
    ensures Parsed("\"" + e + "\"", Start) == Start.(current := "" + e)
  {
    var q, open := "\"", Start.(inQuotes := true);
    ParsedAppend(q + e, q, Start);
    ParsedAppend(q, e, Start);
    ParsedOne('"', Start);
    ParsedPlain(e, open);
    ParsedOne('"', open.(current := "" + e));
  }

  lemma ReadsOne(content: string, e: string)
    requires content != "" && Parsed(content, Start) == Start.(current := "" + e)
    ensures ScanSpec(Text("{" + content + "}")) == Scanned(Some([UnquoteElement(e)]))
  {
    ScanBraced(content);
    assert "" + e == e && [] + [UnquoteElement(e)] == [UnquoteElement(e)];
  }
}
