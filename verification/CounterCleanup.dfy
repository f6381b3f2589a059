/** Removing expired counters in bounded batches, with every way a batch can fail. */
module CounterCleanup {
  import opened Prelude
  import opened Calendar
  import opened Retention

  const DEFAULT_DELETE_BATCH_SIZE := 1000

  type RowId = nat

  function Expired(rows: map<RowId, Option<Instant>>, now: Instant): set<RowId> {
    set id | id in rows && Deletable(rows[id], now)
  }

  // What DELETE ... WHERE id IN (SELECT ... LIMIT n) may remove: n expired rows, or all if there are fewer.
  ghost predicate IsBatch(batch: set<RowId>, expired: set<RowId>, n: nat) {
    batch <= expired && |batch| == (if |expired| <= n then |expired| else n)
  }

  method ChooseBatch(expired: set<RowId>, n: nat) returns (batch: set<RowId>)
    ensures IsBatch(batch, expired, n)
  {
    batch := {};
    var rest := expired;
    while rest != {} && |batch| < n
      invariant batch + rest == expired && batch !! rest && |batch| <= n
      decreases |rest|
    {
      var id :| id in rest;
      batch, rest := batch + {id}, rest - {id};
    }
    assert |expired| == |batch| + |rest| by { assert expired == batch + rest; }
  }

  // What a run of batches has come to: some expired rows are gone, and the other expired rows are still there.
  ghost predicate Taken(before: map<RowId, Option<Instant>>, rows: map<RowId, Option<Instant>>, now: Instant, gone: set<RowId>) {
    gone <= Expired(before, now) && rows == before - gone && Expired(rows, now) == Expired(before, now) - gone
  }

  lemma TakeBatch(before: map<RowId, Option<Instant>>, rows: map<RowId, Option<Instant>>, now: Instant, gone: set<RowId>, batch: set<RowId>)
    requires Taken(before, rows, now, gone) && batch <= Expired(rows, now)
    ensures Taken(before, rows - batch, now, gone + batch) && |gone + batch| == |gone| + |batch|
    ensures |Expired(rows - batch, now)| + |batch| == |Expired(rows, now)|
  {
    assert gone !! batch;
    assert Expired(rows - batch, now) == Expired(rows, now) - batch;
    assert Expired(rows, now) == (Expired(rows, now) - batch) + batch;
  }

  lemma AllTaken(before: map<RowId, Option<Instant>>, rows: map<RowId, Option<Instant>>, now: Instant, gone: set<RowId>)
    requires Taken(before, rows, now, gone) && |Expired(rows, now)| == 0
    ensures gone == Expired(before, now)
  {
    assert Expired(before, now) - gone == {};
  }

  // How one batch goes: its statement is carried out and its count known, or it is not carried out (cancelled, no
  // connection, or the statement failed), or it is carried out and its count is unknown.
  datatype BatchFault = Fine | Interrupted | CountUnknown

  predicate FailsAt(faults: seq<BatchFault>, k: nat) {
    k < |faults| && !faults[k].Fine?
  }

  // The k-th batch is begun: all before it found something to delete.
  predicate Begun(k: nat, expired: nat, n: nat) {
    k == 0 || (k - 1) * n < expired
  }

  function Min(a: nat, b: nat): nat { if a <= b then a else b }

  // Stopped at the k-th batch, the first to fail: the batches before it were full or took the last rows, all of them
  // counted, and the rows of a batch of unknown count are gone as well.
  ghost predicate StoppedAt(k: nat, faults: seq<BatchFault>, expired: nat, n: nat, total: nat, gone: nat) {
    FailsAt(faults, k) && Begun(k, expired, n) && (forall i :: 0 <= i < k ==> !FailsAt(faults, i))
    && total == Min(k * n, expired)
    && gone == if faults[k].CountUnknown? then Min((k + 1) * n, expired) else total
  }

  // The first k batches went well.
  ghost predicate WentWell(k: nat, faults: seq<BatchFault>, expired: nat, n: nat, total: nat) {
    Begun(k, expired, n) && (forall i :: 0 <= i < k ==> !FailsAt(faults, i)) && total == Min(k * n, expired)
  }

  lemma OneMoreBatch(k: nat, faults: seq<BatchFault>, expired: nat, n: nat, total: nat, batch: nat)
    requires 0 < n && WentWell(k, faults, expired, n, total) && batch == Min(n, expired - total)
    ensures total + batch == Min((k + 1) * n, expired)
    ensures batch != 0 <==> Begun(k + 1, expired, n)
    ensures !FailsAt(faults, k) && batch != 0 ==> WentWell(k + 1, faults, expired, n, total + batch)
  {
    assert (k + 1) * n == k * n + n;
  }

  // Where a run stands before its k-th batch.
  ghost predicate Underway(before: map<RowId, Option<Instant>>, rows: map<RowId, Option<Instant>>, now: Instant, gone: set<RowId>,
                           k: nat, faults: seq<BatchFault>, n: nat, total: nat)
  {
    Taken(before, rows, now, gone) && total == |gone| && |Expired(before, now)| == total + |Expired(rows, now)|
    && WentWell(k, faults, |Expired(before, now)|, n, total)
  }

  lemma OneMoreTaken(before: map<RowId, Option<Instant>>, rows: map<RowId, Option<Instant>>, now: Instant, gone: set<RowId>,
                     k: nat, faults: seq<BatchFault>, n: nat, total: nat, batch: set<RowId>)
    requires 0 < n && Underway(before, rows, now, gone, k, faults, n, total) && IsBatch(batch, Expired(rows, now), n)
    ensures Taken(before, rows - batch, now, gone + batch) && |gone + batch| == total + |batch| == Min((k + 1) * n, |Expired(before, now)|)
    ensures |Expired(rows - batch, now)| + |batch| == |Expired(rows, now)|
    ensures batch == {} ==> !Begun(k + 1, |Expired(before, now)|, n) && |Expired(rows, now)| == 0
    ensures !FailsAt(faults, k) && batch != {} ==> Underway(before, rows - batch, now, gone + batch, k + 1, faults, n, total + |batch|)
  {
    TakeBatch(before, rows, now, gone, batch);
    OneMoreBatch(k, faults, |Expired(before, now)|, n, total, |batch|);
  }

  lemma NoneFailed(k: nat, faults: seq<BatchFault>, expired: nat, n: nat)
    requires !Begun(k + 1, expired, n) && forall i :: 0 <= i <= k ==> !FailsAt(faults, i)
    ensures !exists j: nat :: FailsAt(faults, j) && Begun(j, expired, n)
  {
    forall j: nat | FailsAt(faults, j) ensures !Begun(j, expired, n) {
      if Begun(j, expired, n) { NoneLater(k + 1, j, expired, n); }
    }
  }

  lemma NoneLater(k: nat, j: nat, expired: nat, n: nat)
    requires k <= j && Begun(j, expired, n)
    ensures Begun(k, expired, n)
  {
    if 0 < k { Products(k - 1, j - 1, n); }
  }

  lemma Products(a: nat, b: nat, n: nat)
    requires a <= b
    ensures a * n <= b * n
  {
    assert b * n == a * n + (b - a) * n;
  }

  class CounterTable {
    var rows: map<RowId, Option<Instant>>
    const deleteBatchSize: nat

    constructor (rows: map<RowId, Option<Instant>>)
      ensures this.rows == rows && deleteBatchSize == DEFAULT_DELETE_BATCH_SIZE
    {
      this.rows := rows;
      deleteBatchSize := DEFAULT_DELETE_BATCH_SIZE;
    }

    // An error exactly if a batch that is begun fails. Without one the expired rows are gone and counted; with one,
    // as many expired rows as the full batches before it come to, and at most one batch goes uncounted.
    method DeleteExpired(now: Instant, faults: seq<BatchFault>) returns (total: nat, err: bool)
      requires 0 < deleteBatchSize
      modifies this`rows
      ensures err <==> exists k: nat :: FailsAt(faults, k) && Begun(k, |old(Expired(rows, now))|, deleteBatchSize)
      ensures !err ==> rows == old(rows - Expired(rows, now)) && total == old(|Expired(rows, now)|)
      ensures exists gone: set<RowId> :: gone <= old(Expired(rows, now)) && rows == old(rows) - gone
                && (err ==> exists k: nat :: StoppedAt(k, faults, |old(Expired(rows, now))|, deleteBatchSize, total, |gone|))
    {
      total := 0;
      ghost var before, expired := rows, |Expired(rows, now)|;
      ghost var gone: set<RowId> := {};
      var k := 0;
      while true
        invariant Underway(before, rows, now, gone, k, faults, deleteBatchSize, total) && expired == |Expired(before, now)|
        decreases |Expired(rows, now)|
      {
        var fault := if k < |faults| then faults[k] else Fine;
        if fault.Interrupted? {
          assert StoppedAt(k, faults, expired, deleteBatchSize, total, |gone|);
          return total, true;
        }
        var batch := ChooseBatch(Expired(rows, now), deleteBatchSize);
        OneMoreTaken(before, rows, now, gone, k, faults, deleteBatchSize, total, batch);
        rows := rows - batch;
        gone := gone + batch;
        if fault.CountUnknown? {
          assert StoppedAt(k, faults, expired, deleteBatchSize, total, |gone|);
          return total, true;
        }
        total := total + |batch|;
        if |batch| == 0 { break; }
        k := k + 1;
      }
      AllTaken(before, rows, now, gone);
      NoneFailed(k, faults, expired, deleteBatchSize);
      err := false;
    }
  }
}
