/**
 * How PostgreSQL reads a one-dimensional text[] literal (PostgreSQL documentation, section 8.15.6), and exactly which
 * of the literals that are sent to it say what was meant.
 */
module ArrayReader {
  import opened Prelude
  import opened ArrayLiteral

  datatype Element = SqlNull | Of(text: string)

  const VERTICAL_TAB := 11 as char
  const FORM_FEED := 12 as char

  // Outside quotes these are skipped before and after an element. Not all of them are quoted by the printer.
  predicate Space(c: char) {
    c == ' ' || c == '\t' || c == '\n' || c == '\r' || c == VERTICAL_TAB || c == FORM_FEED
  }

  // NULL in any spelling of upper and lower case.
  predicate IsNull(s: string) {
    |s| == 4 && s[0] in {'N', 'n'} && s[1] in {'U', 'u'} && s[2] in {'L', 'l'} && s[3] in {'L', 'l'}
  }

  // Where an element is being read: before it, in it without or with quotes, after its closing quote.
  datatype Mode = Before | Plain | InQuotes | Ended

  // `solid` is the length of text up to the last escaped character: it is not trimmed, and the element is not NULL.
  datatype Reader =
    | Reading(done: seq<Element>, text: string, solid: nat, mode: Mode, escaped: bool)
    | Closed(done: seq<Element>)
    | Malformed

  function TrimRight(s: string, solid: nat): string {
    if |s| > solid && Space(s[|s| - 1]) then TrimRight(s[..|s| - 1], solid) else s
  }

  function ElementOf(text: string, solid: nat): Element {
    var trimmed := TrimRight(text, solid);
    if solid == 0 && IsNull(trimmed) then SqlNull else Of(trimmed)
  }

  // The element that ends here, if one was read.
  function Finish(r: Reader): Option<Element>
    requires r.Reading?
  {
    match r.mode
    case Plain => Some(ElementOf(r.text, r.solid))
    case Ended => Some(Of(r.text))
    case _ => None
  }

  function ReadChar(r: Reader, c: char): Reader {
    if !r.Reading? then (if r.Closed? && Space(c) then r else Malformed)
    else if r.escaped then
      r.(text := r.text + [c], solid := if r.mode.InQuotes? then r.solid else |r.text| + 1, escaped := false)
    else if c == '\\' then
      if r.mode.Ended? then Malformed else r.(mode := if r.mode.Before? then Plain else r.mode, escaped := true)
    else if r.mode.InQuotes? then
      if c == '"' then r.(mode := Ended) else r.(text := r.text + [c])
    else if c == '"' then
      if r.mode.Before? then r.(mode := InQuotes) else Malformed
    else if c == ',' then
      var e := Finish(r);
      if e.None? then Malformed else Reading(r.done + [e.value], "", 0, Before, false)
    else if c == '}' then
      var e := Finish(r);
      if e.Some? then Closed(r.done + [e.value]) else if r.done == [] then Closed([]) else Malformed
    else if c == '{' then Malformed
    else if Space(c) then
      if r.mode.Plain? then r.(text := r.text + [c]) else r
    else if r.mode.Ended? then Malformed
    else r.(text := r.text + [c], mode := Plain)
  }

  function ReadFrom(s: string, r: Reader): Reader {
    if s == "" then r else ReadChar(ReadFrom(s[..|s| - 1], r), s[|s| - 1])
  }

  const Opened := Reading([], "", 0, Before, false)

  // The elements of a literal; None is an error.
  function Read(s: string): Option<seq<Element>> {
    if s == "" || s[0] != '{' then None
    else
      var r := ReadFrom(s[1..], Opened);
      if r.Closed? then Some(r.done) else None
  }

  lemma {:induction false} ReadAppend(s: string, t: string, r: Reader)
    ensures ReadFrom(s + t, r) == ReadFrom(t, ReadFrom(s, r))
  {
    if t == "" {
      assert s + t == s;
    } else {
      var n := |t| - 1;
      assert (s + t)[..|s + t| - 1] == s + t[..n];
      ReadAppend(s, t[..n], r);
    }
  }

  lemma ReadOne(c: char, r: Reader)
    ensures ReadFrom([c], r) == ReadChar(r, c)
  {
    assert [c][..0] == "";
  }

  /* ---- one printed element ---- */

  predicate NeedsQuotes(e: string) {
    e == "" || exists i :: 0 <= i < |e| && Special(e[i])
  }

  lemma {:induction false} ReadEscaped(s: string, r: Reader)
    requires r.Reading? && r.mode.InQuotes? && !r.escaped
    ensures ReadFrom(Escaped(s), r) == r.(text := r.text + s)
  {
    if s == "" {
      assert r.text + s == r.text;
    } else {
      var c, rest := s[0], s[1..];
      assert s == [c] + rest;
      EscapedCons(c, rest);
      ReadAppend(EscapedChar(c), Escaped(rest), r);
      ReadEscapedChar(c, r);
      ReadEscaped(rest, r.(text := r.text + [c]));
      assert r.text + [c] + rest == r.text + s;
    }
  }

  lemma ReadEscapedChar(c: char, r: Reader)
    requires r.Reading? && r.mode.InQuotes? && !r.escaped
    ensures ReadFrom(EscapedChar(c), r) == r.(text := r.text + [c])
  {
    if c == '\\' || c == '"' {
      assert EscapedChar(c) == ['\\'] + [c];
      ReadAppend(['\\'], [c], r);
      ReadOne('\\', r);
      ReadOne(c, r.(escaped := true));
    } else {
      ReadOne(c, r);
    }
  }

  function TrimLeft(s: string): (t: string)
    ensures |t| <= |s|
  {
    if s == "" then ""
    else
      var t := TrimLeft(s[..|s| - 1]);
      if t == "" && Space(s[|s| - 1]) then "" else t + [s[|s| - 1]]
  }

  // Where the reader is after an element as it was printed.
  function AfterElement(done: seq<Element>, e: string): Reader {
    if NeedsQuotes(e) then Reading(done, e, 0, Ended, false)
    else if TrimLeft(e) == "" then Reading(done, "", 0, Before, false)
    else Reading(done, TrimLeft(e), 0, Plain, false)
  }

  lemma {:induction false} ReadPlain(done: seq<Element>, e: string)
    requires forall i :: 0 <= i < |e| ==> !Special(e[i])
    ensures ReadFrom(e, Reading(done, "", 0, Before, false))
            == if TrimLeft(e) == "" then Reading(done, "", 0, Before, false) else Reading(done, TrimLeft(e), 0, Plain, false)
  {
    if e != "" {
      ReadPlain(done, e[..|e| - 1]);
      assert "" + [e[|e| - 1]] == [e[|e| - 1]];
    }
  }

  lemma ReadElement(done: seq<Element>, e: string)
    ensures ReadFrom(QuoteArrayElement(e), Reading(done, "", 0, Before, false)) == AfterElement(done, e)
  {
    var r := Reading(done, "", 0, Before, false);
    if NeedsQuotes(e) {
      ReadAppend("\"" + Escaped(e), "\"", r);
      ReadAppend("\"", Escaped(e), r);
      ReadOne('"', r);
      ReadEscaped(e, r.(mode := InQuotes));
      assert "" + e == e;
      ReadOne('"', r.(mode := InQuotes, text := e));
    } else {
      ReadPlain(done, e);
    }
  }

  // What is read where an element was printed; None is no element at all.
  function ReadsAs(e: string): Option<Element> {
    Finish(AfterElement([], e))
  }

  lemma ElementEnds(done: seq<Element>, e: string)
    ensures ReadChar(AfterElement(done, e), ',')
            == if ReadsAs(e).None? then Malformed else Reading(done + [ReadsAs(e).value], "", 0, Before, false)
    ensures ReadChar(AfterElement(done, e), '}')
            == if ReadsAs(e).Some? then Closed(done + [ReadsAs(e).value]) else if done == [] then Closed([]) else Malformed
  {
  }

  /* ---- the whole literal ---- */

  function ReadAll(a: seq<string>): Option<seq<Element>> {
    if a == [] then Some([])
    else
      var front, last := ReadAll(a[..|a| - 1]), ReadsAs(a[|a| - 1]);
      if front.None? || last.None? then None else Some(front.value + [last.value])
  }

  // After the printed elements a and last: the reader has finished a and stands at the end of last.
  lemma {:induction false} ReadJoined(a: seq<string>, last: string)
    ensures ReadFrom(Joined(a + [last]), Opened) == if ReadAll(a).None? then Malformed else AfterElement(ReadAll(a).value, last)
  {
    if a == [] {
      assert [] + [last] == [last];
      ReadElement([], last);
    } else {
      var front, e := a[..|a| - 1], a[|a| - 1];
      assert a == front + [e];
      ReadJoined(front, e);
      JoinedAppend(a, last);
      var r := ReadFrom(Joined(a), Opened);
      ReadAppend(Joined(a), "," + QuoteArrayElement(last), Opened);
      ReadAppend(",", QuoteArrayElement(last), r);
      ReadOne(',', r);
      if ReadAll(front).None? || ReadsAs(e).None? {
        MalformedStays(QuoteArrayElement(last));
        if ReadAll(front).Some? { ElementEnds(ReadAll(front).value, e); }
      } else {
        ElementEnds(ReadAll(front).value, e);
        ReadElement(ReadAll(a).value, last);
      }
    }
  }

  lemma {:induction false} MalformedStays(s: string)
    ensures ReadFrom(s, Malformed) == Malformed
  {
    if s != "" { MalformedStays(s[..|s| - 1]); }
  }

  lemma ReadLiteral(a: seq<string>)
    requires a != []
    ensures var r := Read(Literal(Some(a)).s);
            if ReadAll(a).Some? then r == ReadAll(a) else r.None? || r == Some([])
  {
    var front, last := a[..|a| - 1], a[|a| - 1];
    assert a == front + [last];
    var s := "{" + Joined(a) + "}";
    assert s[1..] == Joined(a) + "}";
    ReadJoined(front, last);
    ReadAppend(Joined(a), "}", Opened);
    ReadOne('}', ReadFrom(Joined(a), Opened));
    if ReadAll(front).Some? { ElementEnds(ReadAll(front).value, last); }
  }

  /* ---- what is meant ---- */

  function Meant(a: seq<string>): seq<Element> {
    seq(|a|, i requires 0 <= i < |a| => Of(a[i]))
  }

  // The characters that mean something to the reader outside quotes.
  predicate Structural(c: char) {
    c == '{' || c == '}' || c == ',' || c == '"' || c == '\\'
  }

  // The two spaces that the printer does not know of: vertical tab and form feed.
  predicate Overlooked(c: char) {
    c == VERTICAL_TAB || c == FORM_FEED
  }

  // An element that is sent as it is meant: it is empty or holds a character that makes the printer quote it, or else
  // it does not spell NULL and has no overlooked space at either end.
  predicate Understood(e: string) {
    e == ""
    || (exists i :: 0 <= i < |e| && (Structural(e[i]) || (Space(e[i]) && !Overlooked(e[i]))))
    || (!IsNull(e) && !Overlooked(e[0]) && !Overlooked(e[|e| - 1]))
  }

  lemma QuotedIff(e: string)
    ensures NeedsQuotes(e) <==> e == "" || exists i :: 0 <= i < |e| && (Structural(e[i]) || (Space(e[i]) && !Overlooked(e[i])))
  {
  }

  lemma {:induction false} TrimLeftIs(s: string)
    requires s != ""
    ensures TrimLeft(s) == s <==> !Space(s[0])
    ensures Space(s[0]) ==> |TrimLeft(s)| < |s|
  {
    var n := |s| - 1;
    if n == 0 {
      assert s[..0] == "" && s == "" + [s[0]];
    } else {
      TrimLeftIs(s[..n]);
      assert s == s[..n] + [s[n]];
    }
  }

  lemma {:induction false} TrimRightShrinks(s: string)
    ensures |TrimRight(s, 0)| <= |s|
    ensures s != "" ==> (TrimRight(s, 0) == s <==> !Space(s[|s| - 1]))
  {
    if s != "" && Space(s[|s| - 1]) { TrimRightShrinks(s[..|s| - 1]); }
  }

  lemma UnderstoodIff(e: string)
    ensures ReadsAs(e) == Some(Of(e)) <==> Understood(e)
  {
    QuotedIff(e);
    if !NeedsQuotes(e) {
      TrimLeftIs(e);
      TrimRightShrinks(TrimLeft(e));
      assert !Special(e[0]) && !Special(e[|e| - 1]);
    }
  }

  lemma {:induction false} AllUnderstoodIff(a: seq<string>)
    ensures ReadAll(a) == Some(Meant(a)) <==> forall i :: 0 <= i < |a| ==> Understood(a[i])
  {
    if a == [] {
      assert Meant(a) == [];
    } else {
      var front, last := a[..|a| - 1], a[|a| - 1];
      AllUnderstoodIff(front);
      UnderstoodIff(last);
      assert Meant(a) == Meant(front) + [Of(last)];
      assert forall i :: 0 <= i < |front| ==> front[i] == a[i];
      if ReadAll(a).Some? {
        var read, n := ReadAll(a).value, |ReadAll(front).value|;
        assert read[..n] == ReadAll(front).value && Meant(a)[..|front|] == Meant(front);
        assert |read| == n + 1 && read[n] == ReadsAs(last).value && Meant(a)[|front|] == Of(last);
      }
    }
  }

  // The database reads the printed literal as the array that was meant exactly when no element that is printed
  // without quotes spells NULL or has a vertical tab or form feed at either end.
  lemma LiteralIsUnderstoodIff(a: seq<string>)
    ensures Read(Literal(Some(a)).s) == Some(Meant(a)) <==> forall i :: 0 <= i < |a| ==> Understood(a[i])
  {
    if a == [] {
      assert Joined(a) == "" && Literal(Some(a)).s == "{}";
      ReadEmpty();
    } else {
      ReadLiteral(a);
      AllUnderstoodIff(a);
      if ReadAll(a).None? { assert |Meant(a)| > 0; }
    }
  }

  lemma ReadEmpty()
    ensures Read("{}") == Some([]) && Meant([]) == []
  {
    assert "{}"[1..] == ['}'];
    ReadOne('}', Opened);
  }

  lemma ReadSingle(e: string)
    ensures ReadAll([e]) == if ReadsAs(e).None? then None else Some([ReadsAs(e).value])
  {
    var a := [e];
    assert a[..|a| - 1] == [] && ReadAll([]) == Some([]);
    if ReadsAs(e).Some? {
      assert ReadAll([]).value + [ReadsAs(e).value] == [ReadsAs(e).value];
    }
  }

  // An element that spells NULL is stored as SQL NULL, whatever its case.
  lemma NullTextIsLost(e: string)
    requires IsNull(e)
    ensures Read(Literal(Some([e])).s) == Some([SqlNull])
  {
    TrimLeftIs(e);
    TrimRightShrinks(e);
    assert forall i :: 0 <= i < 4 ==> !Special(e[i]);
    ReadSingle(e);
    ReadLiteral([e]);
  }
}
