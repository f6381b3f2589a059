/** UUIDs as thirty-two hexadecimal digits, and their canonical text. */
module Uuid {
  import opened Prelude

  type Digit = d: nat | d < 16
  type Uuid = u: seq<Digit> | |u| == 32 witness seq(32, _ => 0)

  function Hex(d: Digit): char {
    if d < 10 then '0' + d as char else 'a' + (d - 10) as char
  }

  function Unhex(c: char): Option<Digit> {
    if '0' <= c <= '9' then Some(c as int - '0' as int)
    else if 'a' <= c <= 'f' then Some(c as int - 'a' as int + 10)
    else if 'A' <= c <= 'F' then Some(c as int - 'A' as int + 10)
    else None
  }

  predicate HyphenAt(i: nat) {
    i == 8 || i == 13 || i == 18 || i == 23
  }

  // Which digit stands at a position that is not a hyphen.
  function DigitAt(i: nat): nat
    requires i < 36 && !HyphenAt(i)
  {
    i - (if i < 8 then 0 else if i < 13 then 1 else if i < 18 then 2 else if i < 23 then 3 else 4)
  }

  function PlaceOf(k: nat): (i: nat)
    requires k < 32
    ensures i < 36 && !HyphenAt(i) && DigitAt(i) == k
  {
    k + (if k < 8 then 0 else if k < 12 then 1 else if k < 16 then 2 else if k < 20 then 3 else 4)
  }

  function Text(u: Uuid): (s: string)
    ensures |s| == 36
    ensures forall i :: 0 <= i < 36 ==> s[i] == (if HyphenAt(i) then '-' else Hex(u[DigitAt(i)]))
  {
    seq(36, i requires 0 <= i < 36 => if HyphenAt(i) then '-' else Hex(u[DigitAt(i)]))
  }

  // uuid.Parse on the 36-character form.
  function Parse(s: string): Option<Uuid> {
    if |s| != 36 || exists i :: 0 <= i < 36 && (if HyphenAt(i) then s[i] != '-' else Unhex(s[i]).None?) then None
    else Some(seq(32, k requires 0 <= k < 32 => DigitOf(s, k)))
  }

  function DigitOf(s: string, k: nat): Digit
    requires |s| == 36 && k < 32
  {
    match Unhex(s[PlaceOf(k)]) case Some(d) => d case None => 0
  }

  lemma ParseText(u: Uuid)
    ensures Parse(Text(u)) == Some(u)
  {
    var s := Text(u);
    forall k | 0 <= k < 32 ensures DigitOf(s, k) == u[k] {
      assert s[PlaceOf(k)] == Hex(u[k]);
    }
    assert seq(32, k requires 0 <= k < 32 => DigitOf(s, k)) == u;
  }

  lemma TextInjective(u: Uuid, v: Uuid)
    requires Text(u) == Text(v)
    ensures u == v
  {
    ParseText(u);
    ParseText(v);
  }

  predicate TextChar(c: char) {
    '0' <= c <= '9' || 'a' <= c <= 'f' || c == '-'
  }

  lemma TextIsPlain(u: Uuid)
    ensures forall i :: 0 <= i < 36 ==> TextChar(Text(u)[i])
  {
  }
}
