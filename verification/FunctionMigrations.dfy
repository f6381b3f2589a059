/** Function migrations: load, sort, and apply each pending one in a transaction of its own. */
module FunctionMigrations {
  import opened Prelude

  datatype Migration = Migration(version: nat, name: string, upSql: string)

  // A file ending in .up.sql; no version when its name does not parse. Opening or reading it may fail.
  datatype File = File(fileName: string, parsed: Option<Migration>, readable: bool)

  // The directory: missing, or unreadable, or the files in it.
  datatype Directory = Missing | Unreadable | Files(files: seq<File>)

  datatype VersionRow = VersionRow(version: nat, dirty: bool)

  // How the statements of one transaction go; a lost answer is a COMMIT that takes effect but reports an error.
  datatype TxFault = NoFault | BeginFails | StatementFails(k: nat) | CommitFails | CommitLosesAnswer

  /* ---- loading ---- */

  predicate Ascending(ms: seq<Migration>) {
    forall i, j :: 0 <= i < j < |ms| ==> ms[i].version < ms[j].version
  }

  predicate Valid(f: File) {
    f.parsed.Some? && f.parsed.value.version > 0
  }

  predicate NoDuplicates(files: seq<File>) {
    forall i, j :: 0 <= i < j < |files| && Valid(files[i]) && Valid(files[j]) ==> files[i].parsed.value.version != files[j].parsed.value.version
  }

  predicate Loads(files: seq<File>, m: Migration) {
    0 < m.version && exists i :: 0 <= i < |files| && files[i].parsed == Some(m)
  }

  // Sorted insertion, as sort.Slice leaves it.
  method InsertSorted(ms: seq<Migration>, m: Migration) returns (r: seq<Migration>)
    requires Ascending(ms) && forall x :: x in ms ==> x.version != m.version
    ensures Ascending(r) && forall x :: x in r <==> x in ms || x == m
  {
    var i := 0;
    while i < |ms| && ms[i].version < m.version
      invariant i <= |ms| && forall k :: 0 <= k < i ==> ms[k].version < m.version
    {
      i := i + 1;
    }
    r := ms[..i] + [m] + ms[i..];
    InsertedIsAscending(ms, i, m);
    assert ms == ms[..i] + ms[i..];
  }

  lemma InsertedIsAscending(ms: seq<Migration>, i: nat, m: Migration)
    requires Ascending(ms) && i <= |ms| && forall x :: x in ms ==> x.version != m.version
    requires forall k :: 0 <= k < i ==> ms[k].version < m.version
    requires i < |ms| ==> m.version <= ms[i].version
    ensures Ascending(ms[..i] + [m] + ms[i..])
  {
    if i < |ms| { assert ms[i] in ms; }
    assert forall k :: i <= k < |ms| ==> m.version < ms[k].version;
  }

  predicate AllReadable(files: seq<File>) {
    forall i :: 0 <= i < |files| && Valid(files[i]) ==> files[i].readable
  }

  predicate Loadable(directory: Directory) {
    directory.Files? && NoDuplicates(directory.files) && AllReadable(directory.files)
  }

  // What the loop has gathered from the first i files.
  ghost predicate LoadedSoFar(files: seq<File>, i: nat, migrations: seq<Migration>, seenVersions: set<nat>)
    requires i <= |files|
  {
    NoDuplicates(files[..i]) && AllReadable(files[..i])
    && Ascending(migrations) && (forall m :: m in migrations <==> Loads(files[..i], m))
    && (forall v :: v in seenVersions <==> exists m :: m in migrations && m.version == v)
  }

  lemma SkippedFile(files: seq<File>, i: nat, migrations: seq<Migration>, seenVersions: set<nat>)
    requires i < |files| && !Valid(files[i]) && LoadedSoFar(files, i, migrations, seenVersions)
    ensures LoadedSoFar(files, i + 1, migrations, seenVersions)
  {
    assert files[..i + 1] == files[..i] + [files[i]];
    OneMoreFile(files, i);
  }

  lemma LoadedFile(files: seq<File>, i: nat, migrations: seq<Migration>, seenVersions: set<nat>, more: seq<Migration>)
    requires i < |files| && Valid(files[i]) && files[i].readable && LoadedSoFar(files, i, migrations, seenVersions)
    requires files[i].parsed.value.version !in seenVersions
    requires Ascending(more) && forall x :: x in more <==> x in migrations || x == files[i].parsed.value
    ensures LoadedSoFar(files, i + 1, more, seenVersions + {files[i].parsed.value.version})
  {
    var m := files[i].parsed.value;
    assert files[..i + 1] == files[..i] + [files[i]];
    OneMoreFile(files, i);
    forall k | 0 <= k < i && Valid(files[k]) ensures files[k].parsed.value.version != m.version {
      assert files[..i][k].parsed == Some(files[k].parsed.value) && Loads(files[..i], files[k].parsed.value);
    }
    forall v ensures v in seenVersions + {m.version} <==> exists x :: x in more && x.version == v {
      if v == m.version { assert m in more; }
    }
  }

  lemma SecondOfVersion(files: seq<File>, i: nat, migrations: seq<Migration>, seenVersions: set<nat>)
    requires i < |files| && Valid(files[i]) && LoadedSoFar(files, i, migrations, seenVersions)
    requires files[i].parsed.value.version in seenVersions
    ensures !NoDuplicates(files)
  {
    var x :| x in migrations && x.version == files[i].parsed.value.version;
    assert Loads(files[..i], x);
  }

  // The valid files in version order, or an error: no directory, two valid files of one version, or a valid
  // file that cannot be read. Files with other names are skipped unread.
  method LoadMigrations(directory: Directory) returns (r: Option<seq<Migration>>)
    ensures r.Some? <==> Loadable(directory)
    ensures r.Some? ==> Ascending(r.value) && forall m :: m in r.value <==> Loads(directory.files, m)
  {
    if !directory.Files? { return None; }
    var files := directory.files;
    var migrations: seq<Migration> := [];
    var seenVersions: set<nat> := {};
    for i := 0 to |files|
      invariant LoadedSoFar(files, i, migrations, seenVersions)
    {
      if Valid(files[i]) {
        var m := files[i].parsed.value;
        if m.version in seenVersions {
          SecondOfVersion(files, i, migrations, seenVersions);
          return None;
        }
        if !files[i].readable { return None; }
        var more := InsertSorted(migrations, m);
        LoadedFile(files, i, migrations, seenVersions, more);
        migrations, seenVersions := more, seenVersions + {m.version};
      } else {
        SkippedFile(files, i, migrations, seenVersions);
      }
    }
    assert files[..|files|] == files;
    r := Some(migrations);
  }

  lemma OneMoreFile(files: seq<File>, i: nat)
    requires i < |files|
    ensures forall m :: Loads(files[..i + 1], m) <==> Loads(files[..i], m) || (Valid(files[i]) && files[i].parsed.value == m)
  {
    var before, after := files[..i], files[..i + 1];
    forall m ensures Loads(after, m) <==> Loads(before, m) || (Valid(files[i]) && files[i].parsed.value == m) {
      if Loads(before, m) {
        var k :| 0 <= k < |before| && before[k].parsed == Some(m);
        assert after[k] == before[k];
      }
      if Loads(after, m) {
        var k :| 0 <= k < |after| && after[k].parsed == Some(m);
        if k < i { assert before[k] == after[k]; }
      }
      if Valid(files[i]) && files[i].parsed.value == m { assert after[i] == files[i]; }
    }
  }

  /* ---- the database ---- */

  // What is left to apply above a version.
  function Pending(ms: seq<Migration>, start: nat): seq<Migration> {
    if ms == [] then []
    else
      var last := ms[|ms| - 1];
      Pending(ms[..|ms| - 1], start) + (if last.version > start then [last] else [])
  }

  lemma {:induction false} PendingIs(ms: seq<Migration>, start: nat)
    requires Ascending(ms)
    ensures Ascending(Pending(ms, start)) && forall m :: m in Pending(ms, start) <==> m in ms && m.version > start
  {
    if ms != [] {
      var rest, last := ms[..|ms| - 1], ms[|ms| - 1];
      PendingIs(rest, start);
      assert ms == rest + [last];
      forall i | 0 <= i < |Pending(rest, start)| ensures Pending(rest, start)[i].version < last.version {
        assert Pending(rest, start)[i] in rest;
      }
    }
  }

  lemma {:induction false} PendingPrefix(ms: seq<Migration>, i: nat, start: nat)
    requires i <= |ms|
    ensures Pending(ms[..i], start) <= Pending(ms, start)
    decreases |ms|
  {
    if i == |ms| {
      assert ms[..i] == ms;
    } else {
      PendingPrefix(ms[..|ms| - 1], i, start);
      assert ms[..|ms| - 1][..i] == ms[..i];
    }
  }

  predicate Fails(fault: TxFault) {
    !(fault.NoFault? || (fault.StatementFails? && fault.k >= 5))
  }

  // The n-th transaction of a run fails.
  predicate FailsAt(faults: seq<TxFault>, n: nat) {
    n < |faults| && Fails(faults[n])
  }

  lemma AscendingMore(after: seq<Migration>, now: nat, m: Migration)
    requires Ascending(after) && now < m.version && forall x :: x in after ==> x.version <= now
    ensures Ascending(after + [m]) && forall x :: x in after + [m] ==> x.version <= m.version
  {
    forall i | 0 <= i < |after| ensures after[i].version < m.version { assert after[i] in after; }
  }

  // SELECT version ... ORDER BY version DESC LIMIT 1; 0 without a row.
  function CurrentOf(versions: seq<VersionRow>): nat {
    if versions == [] then 0 else versions[0].version
  }

  predicate DirtyIn(versions: seq<VersionRow>) {
    versions != [] && versions[0].dirty
  }

  // At most one row; what was applied is in version order and the row names the last of it.
  predicate TablesOk(versions: seq<VersionRow>, applied: seq<Migration>) {
    |versions| <= 1 && Ascending(applied) && (forall m :: m in applied ==> m.version <= CurrentOf(versions))
  }

  // The row names the last migration that was added, if any was.
  function RowAfter(was: seq<VersionRow>, added: seq<Migration>): seq<VersionRow> {
    if added == [] then was else [VersionRow(added[|added| - 1].version, false)]
  }

  // Halfway: the transactions of the pending ones among the first i went through.
  ghost predicate Halfway(ms: seq<Migration>, i: nat, start: nat, faults: seq<TxFault>,
                          versions0: seq<VersionRow>, applied0: seq<Migration>, versions: seq<VersionRow>, applied: seq<Migration>)
    requires i <= |ms|
  {
    var added := Pending(ms[..i], start);
    TablesOk(versions, applied) && start <= CurrentOf(versions) && !DirtyIn(versions)
    && applied == applied0 + added && versions == RowAfter(versions0, added)
    && (forall k :: 0 <= k < |added| ==> !FailsAt(faults, k))
    && (forall k :: i <= k < |ms| && start < ms[k].version ==> CurrentOf(versions) < ms[k].version)
  }

  lemma OneMorePending(ms: seq<Migration>, i: nat, start: nat)
    requires i < |ms|
    ensures ms[i].version <= start ==> Pending(ms[..i + 1], start) == Pending(ms[..i], start)
    ensures start < ms[i].version ==> Pending(ms[..i + 1], start) == Pending(ms[..i], start) + [ms[i]]
  {
    assert ms[..i + 1][..i] == ms[..i] && ms[..i + 1][i] == ms[i];
    assert Pending(ms[..i], start) + [] == Pending(ms[..i], start);
  }

  lemma OneMoreApplied(ms: seq<Migration>, i: nat, start: nat, faults: seq<TxFault>,
                       versions0: seq<VersionRow>, applied0: seq<Migration>, versions: seq<VersionRow>, applied: seq<Migration>)
    requires Ascending(ms) && i < |ms| && start < ms[i].version
    requires Halfway(ms, i, start, faults, versions0, applied0, versions, applied)
    ensures Pending(ms[..i + 1], start) == Pending(ms[..i], start) + [ms[i]]
    ensures TablesOk([VersionRow(ms[i].version, false)], applied + [ms[i]])
    ensures !FailsAt(faults, |Pending(ms[..i], start)|) ==>
              Halfway(ms, i + 1, start, faults, versions0, applied0, [VersionRow(ms[i].version, false)], applied + [ms[i]])
  {
    OneMorePending(ms, i, start);
    AscendingMore(applied, CurrentOf(versions), ms[i]);
    assert applied + [ms[i]] == applied0 + (Pending(ms[..i], start) + [ms[i]]);
  }

  lemma NoneMoreApplied(ms: seq<Migration>, i: nat, start: nat, faults: seq<TxFault>,
                        versions0: seq<VersionRow>, applied0: seq<Migration>, versions: seq<VersionRow>, applied: seq<Migration>)
    requires i < |ms| && ms[i].version <= start
    requires Halfway(ms, i, start, faults, versions0, applied0, versions, applied)
    ensures Pending(ms[..i + 1], start) == Pending(ms[..i], start)
    ensures Halfway(ms, i + 1, start, faults, versions0, applied0, versions, applied)
  {
    OneMorePending(ms, i, start);
  }

  // How a run over pending migrations ends: with an error exactly if the transaction of one of them fails. All
  // before the first such one were added, in order, and that one too if only its answer was lost.
  ghost predicate Ended(err: bool, pending: seq<Migration>, faults: seq<TxFault>,
                        versions0: seq<VersionRow>, applied0: seq<Migration>, versions: seq<VersionRow>, applied: seq<Migration>)
  {
    if forall k :: 0 <= k < |pending| ==> !FailsAt(faults, k) then
      !err && applied == applied0 + pending && versions == RowAfter(versions0, pending)
    else
      err && exists n :: 0 <= n < |pending| && StoppedAt(n, pending, faults, versions0, applied0, versions, applied)
  }

  ghost predicate StoppedAt(n: nat, pending: seq<Migration>, faults: seq<TxFault>,
                            versions0: seq<VersionRow>, applied0: seq<Migration>, versions: seq<VersionRow>, applied: seq<Migration>)
    requires n < |pending|
  {
    FailsAt(faults, n) && (forall k :: 0 <= k < n ==> !FailsAt(faults, k))
    && (var added := pending[..if faults[n].CommitLosesAnswer? then n + 1 else n];
        applied == applied0 + added && versions == RowAfter(versions0, added))
  }

  lemma Stopped(ms: seq<Migration>, i: nat, start: nat, faults: seq<TxFault>,
                versions0: seq<VersionRow>, applied0: seq<Migration>, versions: seq<VersionRow>, applied: seq<Migration>)
    requires i < |ms| && Pending(ms[..i + 1], start) == Pending(ms[..i], start) + [ms[i]]
    requires FailsAt(faults, |Pending(ms[..i], start)|) && forall k :: 0 <= k < |Pending(ms[..i], start)| ==> !FailsAt(faults, k)
    requires var n := |Pending(ms[..i], start)|;
             var added := Pending(ms[..i], start) + (if faults[n].CommitLosesAnswer? then [ms[i]] else []);
             applied == applied0 + added && versions == RowAfter(versions0, added)
    ensures Ended(true, Pending(ms, start), faults, versions0, applied0, versions, applied)
  {
    PendingPrefix(ms, i, start);
    PendingPrefix(ms, i + 1, start);
    var pending, n := Pending(ms, start), |Pending(ms[..i], start)|;
    assert pending[..n] == Pending(ms[..i], start);
    assert pending[..n + 1] == Pending(ms[..i], start) + [ms[i]];
    assert Pending(ms[..i], start) + [] == Pending(ms[..i], start);
    assert StoppedAt(n, pending, faults, versions0, applied0, versions, applied);
  }

  class Database {
    var versions: seq<VersionRow>     // the committed version table
    var applied: seq<Migration>       // every migration whose SQL was committed, in order

    predicate Ok()
      reads this
    {
      TablesOk(versions, applied)
    }

    predicate Dirty()
      reads this
    {
      DirtyIn(versions)
    }

    function Current(): nat
      reads this
    {
      CurrentOf(versions)
    }

    constructor ()
      ensures Ok() && versions == [] && applied == []
    {
      versions, applied := [], [];
    }

    // updateVersion inside a transaction: DELETE everything, then INSERT one row.
    static method UpdateVersion(version: nat, dirty: bool, deleteFails: bool, insertFails: bool) returns (pending: seq<VersionRow>, err: bool)
      ensures !err <==> !deleteFails && !insertFails
      ensures !err ==> pending == [VersionRow(version, dirty)]
    {
      pending := [];
      if deleteFails || insertFails { return pending, true; }
      return pending + [VersionRow(version, dirty)], false;
    }

    // The five statements and the COMMIT of one migration; what is pending is lost unless it commits.
    method ApplyMigration(m: Migration, fault: TxFault) returns (err: bool)
      modifies this
      ensures err <==> Fails(fault)
      ensures !err || fault.CommitLosesAnswer? ==> versions == [VersionRow(m.version, false)] && applied == old(applied) + [m]
      ensures err && !fault.CommitLosesAnswer? ==> versions == old(versions) && applied == old(applied)
    {
      if fault.BeginFails? { return true; }
      var at := if fault.StatementFails? then fault.k else 5;
      var pending, failed := UpdateVersion(m.version, true, at == 0, at == 1);
      if failed { return true; }
      if at == 2 { return true; }
      pending, failed := UpdateVersion(m.version, false, at == 3, at == 4);
      if failed { return true; }
      if fault.CommitFails? { return true; }
      versions, applied := pending, applied + [m];
      err := fault.CommitLosesAnswer?;
    }

    // Apply what is newer than the version table says, in order, stopping at the first failure. Setting up (the
    // version table, the lock, the current version) may fail too.
    method Up(directory: Directory, setupFails: bool, faults: seq<TxFault>) returns (err: bool, ghost pending: seq<Migration>)
      requires Ok()
      modifies this
      ensures Ok() && (Dirty() ==> old(Dirty()))
      // Without a directory there is nothing to do.
      ensures directory.Missing? ==> !err && versions == old(versions) && applied == old(applied)
      ensures !directory.Missing? && (setupFails || old(Dirty()) || !Loadable(directory)) ==>
                err && versions == old(versions) && applied == old(applied)
      ensures !setupFails && !old(Dirty()) && Loadable(directory) ==>
                Ascending(pending) && (forall m :: m in pending <==> Loads(directory.files, m) && m.version > old(Current()))
                && Ended(err, pending, faults, old(versions), old(applied), versions, applied)
    {
      pending := [];
      if directory.Missing? { return false, pending; }
      if setupFails { return true, pending; }
      if versions != [] && versions[0].dirty { return true, pending; }
      var loaded := LoadMigrations(directory);
      if loaded.None? { return true, pending; }
      pending := Pending(loaded.value, Current());
      PendingIs(loaded.value, Current());
      err := UpSorted(loaded.value, faults);
    }

    method UpSorted(ms: seq<Migration>, faults: seq<TxFault>) returns (err: bool)
      requires Ok() && !Dirty() && Ascending(ms)
      modifies this
      ensures Ok() && !Dirty()
      ensures Ended(err, Pending(ms, old(Current())), faults, old(versions), old(applied), versions, applied)
    {
      var current := Current();
      var transactions := 0;
      for i := 0 to |ms|
        invariant Halfway(ms, i, current, faults, old(versions), old(applied), versions, applied)
        invariant transactions == |Pending(ms[..i], current)|
      {
        if ms[i].version <= current {
          NoneMoreApplied(ms, i, current, faults, old(versions), old(applied), versions, applied);
          continue;
        }
        OneMoreApplied(ms, i, current, faults, old(versions), old(applied), versions, applied);
        err := ApplyMigration(ms[i], if transactions < |faults| then faults[transactions] else NoFault);
        if err {
          Stopped(ms, i, current, faults, old(versions), old(applied), versions, applied);
          return;
        }
        transactions := transactions + 1;
      }
      assert ms[..|ms|] == ms;
      err := false;
    }
  }

  // Any sequence of calls, one after another under the lock, each with its own directory and failures: the
  // committed migrations stay in strictly increasing version order, so none is committed twice.
  method UpRepeatedly(db: Database, calls: seq<(Directory, bool, seq<TxFault>)>)
    requires db.Ok()
    modifies db
    ensures db.Ok() && (db.Dirty() ==> old(db.Dirty())) && old(db.Current()) <= db.Current() && old(db.applied) <= db.applied
  {
    for i := 0 to |calls|
      invariant db.Ok() && (db.Dirty() ==> old(db.Dirty())) && old(db.Current()) <= db.Current() && old(db.applied) <= db.applied
    {
      var _, _ := db.Up(calls[i].0, calls[i].1, calls[i].2);
    }
  }
}
