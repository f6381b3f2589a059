/**
 * Keyset pagination: pages of a sorted, filtered list, each read from the table as it is at that
 * moment, chained by a cursor made of the last row's sort value and id.
 */
module Pagination {
  import opened Prelude

  // What a list query sees of a row: the value of the sort column and the id that breaks ties.
  datatype Key = Key(sort: int, id: int)

  // The matching rows at one moment.
  type Snapshot = set<Key>

  // ORDER BY sort dir, id dir.
  predicate Precedes(a: Key, b: Key, asc: bool) {
    if asc then a.sort < b.sort || (a.sort == b.sort && a.id < b.id)
    else a.sort > b.sort || (a.sort == b.sort && a.id > b.id)
  }

  // The cursor condition of the WHERE clause; no cursor, no condition.
  predicate AfterCursor(k: Key, cursor: Option<Key>, asc: bool) {
    cursor.None?
    || (if asc then k.sort > cursor.value.sort || (k.sort == cursor.value.sort && k.id > cursor.value.id)
        else k.sort < cursor.value.sort || (k.sort == cursor.value.sort && k.id < cursor.value.id))
  }

  /* ---- the sorted list of a set ---- */

  predicate Ordered(s: seq<Key>, asc: bool) {
    forall i, j :: 0 <= i < j < |s| ==> Precedes(s[i], s[j], asc)
  }

  predicate IsFirst(k: Key, s: set<Key>, asc: bool) {
    k in s && forall j :: j in s && j != k ==> Precedes(k, j, asc)
  }

  lemma FirstWith(s: set<Key>, x: Key, k: Key, asc: bool)
    requires x in s && IsFirst(k, s - {x}, asc)
    ensures IsFirst(if Precedes(x, k, asc) then x else k, s, asc)
  {
    forall j | j in s && j != x ensures j in s - {x} { }
  }

  lemma FirstExists(s: set<Key>, asc: bool)
    requires s != {}
    ensures exists k :: IsFirst(k, s, asc)
  {
    var x :| x in s;
    if s == {x} {
      assert IsFirst(x, s, asc);
    } else {
      assert s == (s - {x}) + {x};
      FirstExists(s - {x}, asc);
      var k :| IsFirst(k, s - {x}, asc);
      FirstWith(s, x, k, asc);
    }
  }

  ghost function First(s: set<Key>, asc: bool): (k: Key)
    requires s != {}
    ensures IsFirst(k, s, asc)
  {
    FirstExists(s, asc);
    var k :| IsFirst(k, s, asc);
    k
  }

  ghost function SortedList(s: set<Key>, asc: bool): (r: seq<Key>)
    ensures |r| == |s| && forall k :: k in r <==> k in s
    ensures Ordered(r, asc)
  {
    if s == {} then []
    else
      var k := First(s, asc);
      var rest := SortedList(s - {k}, asc);
      assert forall i :: 0 <= i < |rest| ==> rest[i] in s - {k};
      [k] + rest
  }

  lemma FirstIsPicked(s: set<Key>, k: Key, asc: bool)
    requires IsFirst(k, s, asc)
    ensures SortedList(s, asc) == [k] + SortedList(s - {k}, asc)
  {
    assert First(s, asc) == k;
  }

  lemma HeadIsFirst(r: seq<Key>, s: set<Key>, asc: bool)
    requires r != [] && Ordered(r, asc) && forall k :: k in r <==> k in s
    ensures IsFirst(r[0], s, asc) && Ordered(r[1..], asc) && forall k :: k in r[1..] <==> k in s - {r[0]}
  {
    assert r[0] in r;
    forall j | j in s && j != r[0] ensures Precedes(r[0], j, asc) && j in r[1..] {
      var i :| 0 <= i < |r| && r[i] == j;
      assert r[1..][i - 1] == j;
    }
    forall k | k in r[1..] ensures k in s - {r[0]} {
      var i :| 0 <= i < |r[1..]| && r[1..][i] == k;
      assert r[i + 1] == k && k in r;
    }
  }

  // A set has one sorted list.
  lemma {:induction false} SortedListIsUnique(r: seq<Key>, s: set<Key>, asc: bool)
    requires Ordered(r, asc) && forall k :: k in r <==> k in s
    ensures r == SortedList(s, asc)
  {
    if r == [] {
      assert s == {} by { assert forall k :: k !in s; }
    } else {
      HeadIsFirst(r, s, asc);
      FirstIsPicked(s, r[0], asc);
      SortedListIsUnique(r[1..], s - {r[0]}, asc);
    }
  }

  /* ---- one page ---- */

  function Eligible(table: Snapshot, cursor: Option<Key>, asc: bool): set<Key> {
    set k | k in table && AfterCursor(k, cursor, asc)
  }

  ghost function Front(all: seq<Key>, n: nat): seq<Key> {
    if |all| <= n then all else all[..n]
  }

  // SELECT ... WHERE <cursor condition> ORDER BY ... LIMIT n, done by picking the next row n times.
  method Query(table: Snapshot, cursor: Option<Key>, asc: bool, n: nat) returns (rows: seq<Key>)
    ensures rows == Front(SortedList(Eligible(table, cursor, asc), asc), n)
  {
    rows := [];
    var rest := Eligible(table, cursor, asc);
    ghost var all := SortedList(rest, asc);
    assert all == [] + all;
    while rest != {} && |rows| < n
      invariant |rows| <= n && all == rows + SortedList(rest, asc)
      decreases |rest|
    {
      var k := PickFirst(rest, asc);
      PickedNext(all, rows, rest, k, asc);
      rows, rest := rows + [k], rest - {k};
    }
    QueryDone(all, rows, rest, n, asc);
  }

  lemma PickedNext(all: seq<Key>, rows: seq<Key>, rest: set<Key>, k: Key, asc: bool)
    requires all == rows + SortedList(rest, asc) && IsFirst(k, rest, asc)
    ensures all == rows + [k] + SortedList(rest - {k}, asc)
  {
    FirstIsPicked(rest, k, asc);
    assert rows + ([k] + SortedList(rest - {k}, asc)) == rows + [k] + SortedList(rest - {k}, asc);
  }

  lemma QueryDone(all: seq<Key>, rows: seq<Key>, rest: set<Key>, n: nat, asc: bool)
    requires all == rows + SortedList(rest, asc) && |rows| <= n && (rest == {} || |rows| == n)
    ensures rows == Front(all, n)
  {
    if rest == {} { assert rows + [] == rows; }
  }

  method PickFirst(s: set<Key>, asc: bool) returns (k: Key)
    requires s != {}
    ensures IsFirst(k, s, asc)
  {
    k :| k in s;
    var rest := s - {k};
    ghost var seen := {k};
    while rest != {}
      invariant seen + rest == s && seen !! rest && IsFirst(k, seen, asc)
      decreases |rest|
    {
      var x :| x in rest;
      assert seen + {x} - {x} == seen;
      FirstWith(seen + {x}, x, k, asc);
      if Precedes(x, k, asc) { k := x; }
      seen, rest := seen + {x}, rest - {x};
    }
    assert seen == s;
  }

  datatype Page = Page(rows: seq<Key>, hasMore: bool, next: Option<Key>)

  // What a list of rows looks like in pages: the first `limit` of them, and where to go on. A limit of zero
  // gives an empty page that says whether there is anything, and nowhere to go on from.
  ghost function Cut(all: seq<Key>, limit: nat): Page {
    if |all| <= limit then Page(all, false, None)
    else Page(all[..limit], true, if limit == 0 then None else Some(all[limit - 1]))
  }

  ghost function PageOf(table: Snapshot, cursor: Option<Key>, asc: bool, limit: nat): Page {
    Cut(SortedList(Eligible(table, cursor, asc), asc), limit)
  }

  // One row more than asked for tells whether there is another page.
  method List(table: Snapshot, cursor: Option<Key>, asc: bool, limit: nat) returns (p: Page)
    ensures p == PageOf(table, cursor, asc, limit)
  {
    var rows := Query(table, cursor, asc, limit + 1);
    p := Trim(rows, limit, SortedList(Eligible(table, cursor, asc), asc));
  }

  method Trim(fetched: seq<Key>, limit: nat, ghost all: seq<Key>) returns (p: Page)
    requires fetched == Front(all, limit + 1)
    ensures p == Cut(all, limit)
  {
    var rows := fetched;
    var hasMore := |rows| > limit;
    if hasMore { rows := rows[..limit]; }
    p := Page(rows, hasMore, if hasMore && |rows| > 0 then Some(rows[|rows| - 1]) else None);
  }

  // What a page promises: ordered, present, past the cursor, and nothing skipped up to its end.
  ghost predicate GoodPage(p: Page, table: Snapshot, cursor: Option<Key>, asc: bool, limit: nat) {
    Ordered(p.rows, asc)
    && (forall k :: k in p.rows ==> k in table && AfterCursor(k, cursor, asc))
    && (p.next.Some? <==> p.hasMore && 0 < limit)
    && (p.hasMore ==> |p.rows| == limit)
    && (p.next.Some? ==> p.rows[limit - 1] == p.next.value)
    && (forall k :: k in table && AfterCursor(k, cursor, asc) && UpToEnd(p, k, asc) ==> k in p.rows)
  }

  // A row that does not lie beyond the end of a page.
  predicate UpToEnd(p: Page, k: Key, asc: bool) {
    p.hasMore ==> p.next.Some? && !AfterCursor(k, p.next, asc)
  }

  lemma PageFacts(table: Snapshot, cursor: Option<Key>, asc: bool, limit: nat)
    ensures GoodPage(PageOf(table, cursor, asc, limit), table, cursor, asc, limit)
  {
    var all := SortedList(Eligible(table, cursor, asc), asc);
    var p := PageOf(table, cursor, asc, limit);
    assert forall k :: k in p.rows ==> k in all;
    forall k | k in table && AfterCursor(k, cursor, asc) && UpToEnd(p, k, asc) ensures k in p.rows {
      assert k in all;
      var i :| 0 <= i < |all| && all[i] == k;
      if p.hasMore { assert i < limit; assert all[..limit][i] == k; }
    }
  }

  // The sort values in the direction asked for, and among equal ones the ids.
  predicate InDirection(rows: seq<Key>, asc: bool) {
    forall i, j :: 0 <= i < j < |rows| ==>
      (if asc then rows[i].sort <= rows[j].sort else rows[i].sort >= rows[j].sort)
      && (rows[i].sort == rows[j].sort ==> if asc then rows[i].id < rows[j].id else rows[i].id > rows[j].id)
  }

  // A row past the cursor that a page does not show.
  predicate LeftOver(k: Key, p: Page, table: Snapshot, cursor: Option<Key>, asc: bool) {
    k in table && AfterCursor(k, cursor, asc) && k !in p.rows
  }

  // A page runs in the direction asked for, holds no more rows than asked for, and says that there is more exactly
  // when a row past the cursor is not on it.
  lemma PageIsExact(table: Snapshot, cursor: Option<Key>, asc: bool, limit: nat)
    ensures var p := PageOf(table, cursor, asc, limit);
            InDirection(p.rows, asc) && |p.rows| <= limit && (p.hasMore <==> exists k :: LeftOver(k, p, table, cursor, asc))
  {
    var all := SortedList(Eligible(table, cursor, asc), asc);
    var p := Cut(all, limit);
    if p.hasMore {
      var k := all[limit];
      assert k in all;
      forall i | 0 <= i < limit ensures p.rows[i] != k { assert Precedes(all[i], all[limit], asc); }
      assert LeftOver(k, p, table, cursor, asc);
    }
    forall k | LeftOver(k, p, table, cursor, asc) ensures k in all { assert k in Eligible(table, cursor, asc); }
  }

  /* ---- following the cursors ---- */

  // Rows with one id keep one sort value throughout.
  predicate StableKeys(tables: seq<Snapshot>) {
    forall i, j, a, b :: 0 <= i < |tables| && 0 <= j < |tables| && a in tables[i] && b in tables[j] && a.id == b.id ==> a == b
  }

  predicate Throughout(k: Key, tables: seq<Snapshot>) {
    forall i :: 0 <= i < |tables| ==> k in tables[i]
  }

  predicate Somewhere(k: Key, tables: seq<Snapshot>) {
    exists i :: 0 <= i < |tables| && k in tables[i]
  }

  // What has been collected up to a cursor: ordered, real, and complete for the rows that stayed.
  ghost predicate Collected(out: seq<Key>, cursor: Option<Key>, read: seq<Snapshot>, asc: bool) {
    Ordered(out, asc)
    && (forall k :: k in out ==> Somewhere(k, read) && !AfterCursor(k, cursor, asc))
    && (forall k :: Throughout(k, read) && !AfterCursor(k, cursor, asc) ==> k in out)
  }

  // The state of a client that has read some snapshots.
  ghost predicate Reading(out: seq<Key>, cursor: Option<Key>, read: seq<Snapshot>, done: bool, asc: bool, limit: nat) {
    if done then
      Ordered(out, asc) && (forall k :: k in out ==> Somewhere(k, read)) && (forall k :: Throughout(k, read) ==> k in out)
    else if cursor.None? then out == [] && read == []
    else Collected(out, cursor, read, asc) && |out| == |read| * limit
  }

  lemma CollectPage(out: seq<Key>, cursor: Option<Key>, read: seq<Snapshot>, p: Page, table: Snapshot, asc: bool, limit: nat)
    requires 0 < limit && Reading(out, cursor, read, false, asc, limit) && GoodPage(p, table, cursor, asc, limit)
    ensures Reading(out + p.rows, p.next, read + [table], !p.hasMore, asc, limit)
  {
    Joins(out, p.rows, cursor, asc);
    SeenSomewhere(out, p.rows, read, table);
    StayedThroughout(read, table);
    if p.hasMore {
      UpToNext(out, p.rows, cursor, p.next.value, asc);
      OneMoreFull(|read|, limit);
    }
  }

  lemma OneMoreFull(n: nat, limit: nat)
    ensures (n + 1) * limit == n * limit + limit
  {
  }

  lemma Joins(out: seq<Key>, rows: seq<Key>, cursor: Option<Key>, asc: bool)
    requires Ordered(out, asc) && Ordered(rows, asc)
    requires forall k :: k in out ==> cursor.Some? && !AfterCursor(k, cursor, asc)
    requires forall k :: k in rows ==> AfterCursor(k, cursor, asc)
    ensures Ordered(out + rows, asc)
  {
    forall i, j | 0 <= i < |out| && 0 <= j < |rows| ensures Precedes(out[i], rows[j], asc) {
      assert out[i] in out && rows[j] in rows;
    }
  }

  lemma SeenSomewhere(out: seq<Key>, rows: seq<Key>, read: seq<Snapshot>, table: Snapshot)
    requires forall k :: k in out ==> Somewhere(k, read)
    requires forall k :: k in rows ==> k in table
    ensures forall k :: k in out + rows ==> Somewhere(k, read + [table])
  {
    var all := read + [table];
    forall k | k in out + rows ensures Somewhere(k, all) {
      if k in out {
        var i :| 0 <= i < |read| && k in read[i];
        assert k in all[i];
      } else {
        assert k in all[|read|];
      }
    }
  }

  lemma StayedThroughout(read: seq<Snapshot>, table: Snapshot)
    ensures forall k :: Throughout(k, read + [table]) ==> Throughout(k, read) && k in table
  {
    var all := read + [table];
    forall k | Throughout(k, all) ensures Throughout(k, read) && k in table {
      assert all[|read|] == table;
      assert forall i :: 0 <= i < |read| ==> all[i] == read[i];
    }
  }

  lemma UpToNext(out: seq<Key>, rows: seq<Key>, cursor: Option<Key>, next: Key, asc: bool)
    requires rows != [] && rows[|rows| - 1] == next && Ordered(rows, asc) && AfterCursor(next, cursor, asc)
    requires forall k :: k in out ==> cursor.Some? && !AfterCursor(k, cursor, asc)
    ensures forall k :: k in out + rows ==> !AfterCursor(k, Some(next), asc)
  {
    forall k | k in rows ensures !AfterCursor(k, Some(next), asc) {
      var i :| 0 <= i < |rows| && rows[i] == k;
    }
  }

  // Follow the cursors, one snapshot per page, until a page says there is no more.
  method FollowCursors(tables: seq<Snapshot>, asc: bool, limit: nat) returns (out: seq<Key>, pages: nat, done: bool)
    requires 0 < limit
    ensures pages <= |tables| && (!done ==> pages == |tables|)
    // No row twice, every row real, in order.
    ensures Ordered(out, asc)
    ensures forall k :: k in out ==> Somewhere(k, tables[..pages])
    // Every row that was there throughout is there.
    ensures done ==> forall k :: Throughout(k, tables[..pages]) ==> k in out
    ensures !done ==> |out| == pages * limit
  {
    out, pages, done := [], 0, false;
    var cursor: Option<Key> := None;
    while pages < |tables| && !done
      invariant pages <= |tables| && (cursor.None? && !done ==> pages == 0)
      invariant Reading(out, cursor, tables[..pages], done, asc, limit)
      decreases |tables| - pages
    {
      var p := List(tables[pages], cursor, asc, limit);
      PageFacts(tables[pages], cursor, asc, limit);
      CollectPage(out, cursor, tables[..pages], p, tables[pages], asc, limit);
      assert tables[..pages + 1] == tables[..pages] + [tables[pages]];
      out := out + p.rows;
      cursor := p.next;
      pages := pages + 1;
      done := !p.hasMore || p.next.None?;
    }
  }

  // With stable sort values no id comes twice.
  lemma DistinctIds(out: seq<Key>, tables: seq<Snapshot>, asc: bool)
    requires Ordered(out, asc) && StableKeys(tables) && forall k :: k in out ==> Somewhere(k, tables)
    ensures forall i, j :: 0 <= i < j < |out| ==> out[i].id != out[j].id
  {
    forall i, j | 0 <= i < j < |out| ensures out[i].id != out[j].id {
      assert out[i] in out && out[j] in out;
      var m :| 0 <= m < |tables| && out[i] in tables[m];
      var n :| 0 <= n < |tables| && out[j] in tables[n];
    }
  }

  // On a table that does not change the pages concatenate to its sorted list, in the expected
  // number of pages.
  method FollowOnFixedTable(table: Snapshot, asc: bool, limit: nat, tries: nat) returns (out: seq<Key>, done: bool)
    requires 0 < limit && tries * limit > |table|
    ensures done && out == SortedList(table, asc)
  {
    var tables := seq(tries, _ => table);
    var pages;
    out, pages, done := FollowCursors(tables, asc, limit);
    assert forall k :: k in out ==> k in table by {
      forall k | k in out ensures k in table { var i :| 0 <= i < pages && k in tables[..pages][i]; }
    }
    OrderedFits(out, table, asc);
    if done {
      if pages > 0 {
        assert forall k :: k in table ==> Throughout(k, tables[..pages]);
      }
      SortedListIsUnique(out, table, asc);
    }
  }

  lemma OrderedFits(out: seq<Key>, s: set<Key>, asc: bool)
    requires Ordered(out, asc) && forall k :: k in out ==> k in s
    ensures |out| <= |s|
  {
    if out != [] {
      var n := |out| - 1;
      assert forall i :: 0 <= i < n ==> out[i] != out[n];
      assert forall k :: k in out[..n] ==> k in s - {out[n]};
      assert out[n] in s;
      OrderedFits(out[..n], s - {out[n]}, asc);
    }
  }
}
