/** Batched reading: the input iterator of include/sqlgen/Iterator.hpp over the iterators of the
    SQLite, PostgreSQL and MySQL connections (src/sqlgen/{sqlite,postgres,mysql}/Iterator.cpp),
    which notice the end of the result in three different ways. Any of the calls that fetch
    rows may fail. */
module Iterators {
  import opened Wrappers
  import opened Numbers
  import opened Rows

  datatype Backend = Sqlite | Postgres | MySql

  // ------------------------------------------------------------------- how many rows arrive

  /** The number of batches n rows fill, the last one maybe not completely. */
  function Batches(n: nat, batch: nat): nat
    requires batch > 0
  {
    if n == 0 then 0 else 1 + Batches(n - Min(n, batch), batch)
  }

  /** The rows in the first j of these batches. */
  function RowsIn(j: nat, n: nat, batch: nat): (r: nat)
    ensures r <= n
  {
    if j == 0 then 0 else Min(RowsIn(j - 1, n, batch) + batch, n)
  }

  /** The rows in the complete batches of k rows. */
  function InFull(k: nat, batch: nat): (r: nat)
    requires batch > 0
    ensures r <= k
  {
    if k < batch then 0 else batch + InFull(k - batch, batch)
  }

  /** How many of n rows an iteration sees. SQLite's calls step row by row, and a failed step
      looks like the end. MySQL's fetch row by row, the last one finding no row, and a failure
      loses the batch being filled. PostgreSQL's fetch whole batches, the last one empty. */
  function Total(backend: Backend, n: nat, fails: nat -> bool, batch: nat): (r: nat)
    requires batch > 0
    ensures r <= n
  {
    match backend
    case Sqlite => FirstFailure(fails, 0, n)
    case MySql =>
      var k := FirstFailure(fails, 0, n + 1);
      if k == n + 1 then n else InFull(k, batch)
    case Postgres => RowsIn(FirstFailure(fails, 0, Batches(n, batch)), n, batch)
  }

  lemma {:induction false} InFullOfMore(k: nat, batch: nat, i: nat)
    requires batch > 0 && i < batch && InFull(k, batch) == k
    ensures InFull(k + i, batch) == k && InFull(k + batch, batch) == k + batch
    decreases k
  {
    if k >= batch {
      InFullOfMore(k - batch, batch, i);
      assert k + batch - batch == k;
    }
  }

  lemma {:induction false} BatchesLeft(j: nat, n: nat, batch: nat)
    requires batch > 0
    ensures Batches(n - RowsIn(j, n, batch), batch) == if j <= Batches(n, batch) then Batches(n, batch) - j else 0
  {
    if j > 0 {
      BatchesLeft(j - 1, n, batch);
      var before := n - RowsIn(j - 1, n, batch);
      assert n - RowsIn(j, n, batch) == before - Min(before, batch);
    }
  }

  // What a call of each backend tells about the total.

  lemma MySqlCall(n: nat, fails: nat -> bool, batch: nat, done: nat, i: nat)
    requires batch > 0 && i < batch && done + i <= n && InFull(done, batch) == done
    requires forall k: nat :: k < done + i ==> !fails(k)
    ensures fails(done + i) ==> Total(MySql, n, fails, batch) == done
    ensures !fails(done + i) && done + i == n ==> Total(MySql, n, fails, batch) == n
    ensures !fails(done + i) && i + 1 == batch && done + i < n ==> Total(MySql, n, fails, batch) >= done + batch
  {
    InFullOfMore(done, batch, i);
    if !fails(done + i) && i + 1 == batch && done + i < n {
      InFullGrows(FirstFailure(fails, 0, n + 1), done + batch, batch);
    }
  }

  lemma {:induction false} InFullGrows(k: nat, m: nat, batch: nat)
    requires batch > 0 && m <= k
    ensures InFull(m, batch) <= InFull(k, batch)
    decreases m
  {
    if m >= batch {
      InFullGrows(k - batch, m - batch, batch);
    }
  }

  lemma {:induction false} RowsInGrows(i: nat, j: nat, n: nat, batch: nat)
    requires i <= j
    ensures RowsIn(i, n, batch) <= RowsIn(j, n, batch)
    decreases j
  {
    if i < j {
      RowsInGrows(i, j - 1, n, batch);
    }
  }

  lemma PostgresCall(n: nat, fails: nat -> bool, batch: nat, calls: nat)
    requires batch > 0 && forall k: nat :: k < calls ==> !fails(k)
    ensures fails(calls) ==> Total(Postgres, n, fails, batch) == RowsIn(calls, n, batch)
    ensures !fails(calls) ==> Total(Postgres, n, fails, batch) >= RowsIn(calls + 1, n, batch)
    ensures !fails(calls) && RowsIn(calls, n, batch) == n ==> Total(Postgres, n, fails, batch) == n
  {
    var first := FirstFailure(fails, 0, Batches(n, batch));
    BatchesLeft(first, n, batch);
    BatchesLeft(calls, n, batch);
    if first > calls {
      RowsInGrows(calls + 1, first, n, batch);
    }
  }

  /** Every row arrives if and only if no fetch fails, other than PostgreSQL's last, empty one
      and, if the batches come out even, MySQL's last one. */
  lemma AllRowsArrive(backend: Backend, n: nat, fails: nat -> bool, batch: nat)
    requires batch > 0
    ensures backend.Sqlite? ==> (Total(backend, n, fails, batch) == n <==> forall k: nat :: k < n ==> !fails(k))
    ensures backend.MySql? ==>
      (Total(backend, n, fails, batch) == n <==>
       forall k: nat :: k < n || (k == n && InFull(n, batch) != n) ==> !fails(k))
    ensures backend.Postgres? ==>
      (Total(backend, n, fails, batch) == n <==> forall k: nat :: k < Batches(n, batch) ==> !fails(k))
  {
    match backend
    case Sqlite =>
    case MySql =>
    case Postgres => BatchesLeft(FirstFailure(fails, 0, Batches(n, batch)), n, batch);
  }

  /** Five rows in batches of two, and one fetch that fails: the iteration ends early, with MySQL
      also without the row already fetched for the batch. Only PostgreSQL's fourth fetch, which
      would be empty, may fail. */
  lemma RowsGoMissing()
    ensures Total(Sqlite, 5, (k: nat) => k == 3, 2) == 3
    ensures Total(MySql, 5, (k: nat) => k == 3, 2) == 2
    ensures Total(Postgres, 5, (k: nat) => k == 1, 2) == 2
    ensures Total(Postgres, 5, (k: nat) => k == 3, 2) == 5
  {
    var third, first := (k: nat) => k == 3, (k: nat) => k == 1;
    FirstFailureIs(third, 0, 5, 3);
    FirstFailureIs(third, 0, 6, 3);
    assert InFull(1, 2) == 0 && InFull(3, 2) == 2;
    assert Batches(1, 2) == 1 && Batches(3, 2) == 2 && Batches(5, 2) == 3;
    FirstFailureIs(first, 0, 3, 1);
    FirstFailureIs(third, 0, 3, 3);
    assert RowsIn(1, 5, 2) == 2 && RowsIn(2, 5, 2) == 4 && RowsIn(3, 5, 2) == 5;
  }

  /** i rows of a batch have been fetched from MySQL. */
  ghost predicate Filled(rows: seq<Row>, fails: nat -> bool, batch: nat, start: nat, i: nat, out: seq<Row>)
  {
    && batch > 0 && i <= batch && start + i <= |rows|
    && InFull(start, batch) == start
    && start + (if i == batch then batch else 0) <= Total(MySql, |rows|, fails, batch)
    && out == rows[start..start + i]
    && forall k: nat :: k < start + i ==> !fails(k)
  }

  lemma FillMore(rows: seq<Row>, fails: nat -> bool, batch: nat, start: nat, i: nat, out: seq<Row>)
    requires Filled(rows, fails, batch, start, i, out) && i < batch
    ensures fails(start + i) ==> Total(MySql, |rows|, fails, batch) == start
    ensures !fails(start + i) && start + i == |rows| ==> Total(MySql, |rows|, fails, batch) == |rows|
    ensures !fails(start + i) && start + i < |rows| ==>
         Filled(rows, fails, batch, start, i + 1, out + [rows[start + i]])
  {
    MySqlCall(|rows|, fails, batch, start, i);
    if start + i < |rows| {
      OneMoreRow(rows, start, start + i);
    }
  }

  lemma FillComplete(rows: seq<Row>, fails: nat -> bool, batch: nat, start: nat, out: seq<Row>)
    requires Filled(rows, fails, batch, start, batch, out)
    ensures InFull(start + batch, batch) == start + batch <= Total(MySql, |rows|, fails, batch)
  {
    InFullOfMore(start, batch, 0);
  }

  lemma OneMoreRow(rows: seq<Row>, start: nat, end: nat)
    requires start <= end < |rows|
    ensures rows[start..end] + [rows[end]] == rows[start..end + 1]
  {
  }

  // ------------------------------------------------------------------- the database iterators

  class Cursor {
    const backend: Backend
    const rows: seq<Row>
    const fails: nat -> bool
    /** The number of fetching calls made, and of rows they have moved past. */
    var calls: nat
    var pos: nat
    var end: bool
    /** For PostgreSQL: how often the cursor has been closed and its transaction ended. */
    var closed: nat
    /** The rows to be handed out, in batches of the given size; those handed out so far, and
        whether a fetch has failed. */
    ghost const batch: nat
    ghost const goal: nat
    ghost var delivered: nat
    ghost var failed: bool

    ghost predicate Valid()
      reads this
    {
      && batch > 0 && goal == Total(backend, |rows|, fails, batch) && delivered <= goal && pos <= |rows|
      && (end || failed ==> delivered == goal)
      && closed == (if backend.Postgres? && end then 1 else 0)
      && match backend
         case Sqlite =>
           !failed && (!end ==> calls == pos == delivered + 1 && forall k: nat :: k < calls ==> !fails(k))
         case MySql =>
           (!end && !failed ==>
             calls == pos == delivered == InFull(delivered, batch) && forall k: nat :: k < calls ==> !fails(k))
         case Postgres =>
           (!end && !failed ==>
             && pos == delivered == RowsIn(calls, |rows|, batch)
             && forall k: nat :: k < calls ==> !fails(k))
    }

    constructor (backend_: Backend, rows_: seq<Row>, fails_: nat -> bool, ghost batch_: nat)
      requires batch_ > 0
      ensures Valid() && backend == backend_ && rows == rows_ && fails == fails_ && batch == batch_
      ensures delivered == 0 && !failed && (backend.MySql? ==> !end)
    {
      backend, rows, fails, batch := backend_, rows_, fails_, batch_;
      goal := Total(backend_, |rows_|, fails_, batch_);
      calls, pos, end, closed, delivered, failed := 0, 0, false, 0, 0, false;
      new;
      if backend.Sqlite? {
        Step();
      }
    }

    /** sqlite3_step: end_ unless there is a row. */
    method Step()
      modifies this`calls, this`pos, this`end
      ensures calls == old(calls) + 1
      ensures end == !(old(pos) < |rows| && !fails(old(calls)))
      ensures pos == if end then old(pos) else old(pos) + 1
    {
      end := !(pos < |rows| && !fails(calls));
      calls := calls + 1;
      if !end {
        pos := pos + 1;
      }
    }

    /** Up to `batchSize` more rows, or an error if a fetch fails or the end was reached before. */
    method Next(batchSize: nat) returns (r: Result<seq<Row>>)
      requires Valid() && !failed && batchSize == batch
      requires backend.MySql? ==> !end
      modifies this
      ensures Valid() && delivered >= old(delivered)
      ensures r.Ok? ==> r.value == rows[old(delivered)..delivered] && !failed
      ensures r.Error? || r.value == [] ==> delivered == old(delivered) == goal
    {
      match backend
      case Sqlite => r := NextSqlite(batchSize);
      case Postgres => r := NextPostgres(batchSize);
      case MySql => r := NextMySql(batchSize);
    }

    /** Eager: looks one row ahead, so the last batch comes with the end. */
    method NextSqlite(batchSize: nat) returns (r: Result<seq<Row>>)
      requires backend.Sqlite? && Valid() && !failed && batchSize == batch
      modifies this
      ensures Valid() && delivered >= old(delivered)
      ensures r.Ok? ==> r.value == rows[old(delivered)..delivered] && !failed
      ensures r.Error? || r.value == [] ==> delivered == old(delivered) == goal
    {
      if end {
        return Error;
      }
      var out: seq<Row> := [];
      for i := 0 to batchSize
        invariant Valid() && !end && !failed
        invariant delivered == old(delivered) + i && out == rows[old(delivered)..delivered]
      {
        OneMoreRow(rows, old(delivered), delivered);
        out := out + [rows[pos - 1]];
        Step();
        delivered := delivered + 1;
        if end {
          return Ok(out);
        }
      }
      return Ok(out);
    }

    /** Lazy: only an empty batch shows that there are no more rows. */
    method NextPostgres(batchSize: nat) returns (r: Result<seq<Row>>)
      requires backend.Postgres? && Valid() && !failed && batchSize == batch
      modifies this
      ensures Valid() && delivered >= old(delivered)
      ensures r.Ok? ==> r.value == rows[old(delivered)..delivered] && !failed
      ensures r.Error? || r.value == [] ==> delivered == old(delivered) == goal
    {
      if end {
        return Error;
      }
      PostgresCall(|rows|, fails, batch, calls);
      var fetchFails := fails(calls);
      if fetchFails {
        calls, failed := calls + 1, true;
        return Error;
      }
      var next := Min(pos + batchSize, |rows|);
      var out := rows[pos..next];
      calls, pos := calls + 1, next;
      delivered := next;
      if |out| == 0 {
        Shutdown();
      }
      return Ok(out);
    }

    /** mysql_fetch_row: an error, or the next row if there is one. */
    method FetchRow() returns (r: Result<Option<Row>>)
      modifies this`calls, this`pos
      ensures calls == old(calls) + 1
      ensures r == if fails(old(calls)) then Error else Ok(if old(pos) < |rows| then Some(rows[old(pos)]) else None)
      ensures pos == if r.Ok? && r.value.Some? then old(pos) + 1 else old(pos)
    {
      if fails(calls) {
        r := Error;
      } else if pos < |rows| {
        r := Ok(Some(rows[pos]));
        pos := pos + 1;
      } else {
        r := Ok(None);
      }
      calls := calls + 1;
    }

    /** The loop of mysql::Iterator::next: how it ended, and the rows. */
    method FetchRows(batchSize: nat) returns (error: bool, noMore: bool, vec: seq<Row>)
      requires pos == calls && Filled(rows, fails, batchSize, pos, 0, [])
      modifies this`calls, this`pos
      ensures error ==> Total(MySql, |rows|, fails, batchSize) == old(pos)
      ensures !error && noMore ==> vec == rows[old(pos)..] && pos == |rows| == Total(MySql, |rows|, fails, batchSize)
      ensures !error && !noMore ==>
           Filled(rows, fails, batchSize, old(pos), batchSize, vec) && calls == pos == old(pos) + batchSize
      ensures pos <= |rows|
    {
      vec := [];
      for i := 0 to batchSize
        invariant Filled(rows, fails, batchSize, old(pos), i, vec)
        invariant calls == pos == old(pos) + i
      {
        FillMore(rows, fails, batchSize, old(pos), i, vec);
        var row := FetchRow();
        if row.Error? {
          return true, false, [];
        }
        if row.value.None? {
          return false, true, vec;
        }
        vec := vec + [row.value.value];
      }
      return false, false, vec;
    }

    /** A short batch shows the end; so does an empty one if the batches come out even. */
    method NextMySql(batchSize: nat) returns (r: Result<seq<Row>>)
      requires backend.MySql? && Valid() && !failed && !end && batchSize == batch
      modifies this
      ensures Valid() && delivered >= old(delivered)
      ensures r.Ok? ==> r.value == rows[old(delivered)..delivered] && !failed
      ensures r.Error? || r.value == [] ==> delivered == old(delivered) == goal
    {
      var error, noMore, vec := FetchRows(batchSize);
      if error {
        failed := true;
        return Error;
      }
      if noMore {
        end := true;
      } else {
        FillComplete(rows, fails, batch, delivered, vec);
      }
      delivered := pos;
      return Ok(vec);
    }

    /** ~Iterator: PostgreSQL's cursor is then closed and its transaction ended exactly once,
        wherever the reading stopped. */
    method Destroy()
      requires Valid()
      modifies this`end, this`closed
      ensures backend.Postgres? ==> end && closed == 1
    {
      if backend.Postgres? {
        Shutdown();
      }
    }

    /** CLOSE and END, once. */
    method Shutdown()
      requires backend.Postgres?
      modifies this`end, this`closed
      ensures end && closed == if old(end) then old(closed) else old(closed) + 1
    {
      if !end {
        closed, end := closed + 1, true;
      }
    }
  }

  // ------------------------------------------------------------------- the input iterator

  /** A batch that cannot be fetched counts as an empty one. The batch size is the compile-time
      constant SQLGEN_BATCH_SIZE. */
  method GetNextBatch(it: Cursor, batchSize: nat) returns (batch: seq<Row>)
    requires it.Valid() && !it.failed && it.batch == batchSize && (it.backend.MySql? ==> !it.end)
    modifies it
    ensures it.Valid() && it.delivered >= old(it.delivered)
    ensures it.delivered <= |it.rows| && |batch| == it.delivered - old(it.delivered)
    ensures forall k :: 0 <= k < |batch| ==> batch[k] == it.rows[old(it.delivered) + k]
    ensures batch == [] ==> it.delivered == it.goal
    ensures it.failed ==> batch == []
  {
    var next := it.Next(batchSize);
    batch := if next.Ok? then next.value else [];
  }

  class Iterator {
    var currentBatch: seq<Row>
    const it: Cursor
    const batchSize: nat
    var ix: nat
    /** The number of rows behind the current one. */
    ghost var position: nat

    ghost predicate Valid()
      reads this, it
    {
      && it.Valid() && it.batch == batchSize
      && |currentBatch| <= it.delivered && position == it.delivered - |currentBatch| + ix
      && it.delivered <= |it.rows|
      && (forall k :: 0 <= k < |currentBatch| ==> currentBatch[k] == it.rows[it.delivered - |currentBatch| + k])
      && ix <= |currentBatch|
      && (ix == |currentBatch| ==> it.delivered == it.goal)
      && (it.failed ==> currentBatch == [])
    }

    constructor (it_: Cursor, batchSize_: nat)
      requires it_.Valid() && !it_.failed && it_.batch == batchSize_ && it_.delivered == 0
      requires it_.backend.MySql? ==> !it_.end
      modifies it_
      ensures Valid() && it == it_ && position == 0
    {
      var first := GetNextBatch(it_, batchSize_);
      it, batchSize, currentBatch, ix, position := it_, batchSize_, first, 0, 0;
    }

    /** operator== with End. */
    method AtEnd() returns (b: bool)
      requires Valid()
      ensures b <==> position == it.goal
    {
      b := ix >= |currentBatch|;
    }

    /** operator*. */
    method Get() returns (row: Row)
      requires Valid() && position < it.goal
      ensures row == it.rows[position]
    {
      row := currentBatch[ix];
    }

    /** operator++. */
    method Advance()
      requires Valid() && position < it.goal
      modifies this, it
      ensures Valid() && position == old(position) + 1
    {
      ix, position := ix + 1, position + 1;
      if ix >= |currentBatch| && !it.end {
        NextBatch();
      }
    }

    /** Replaces a batch that has been gone through. */
    method NextBatch()
      requires it.Valid() && it.batch == batchSize && !it.end && !it.failed && position == it.delivered <= |it.rows|
      modifies this, it
      ensures Valid() && position == old(position)
    {
      currentBatch := GetNextBatch(it, batchSize);
      ix := 0;
    }
  }

  /** Iterating from begin to End sees, in order and each once, exactly the rows that arrive. */
  method ReadToEnd(rowIt: Iterator) returns (seen: seq<Row>)
    requires rowIt.Valid() && rowIt.position == 0
    modifies rowIt, rowIt.it
    ensures rowIt.it.Valid() && rowIt.it.delivered == rowIt.it.goal <= |rowIt.it.rows|
    ensures seen == rowIt.it.rows[..rowIt.it.goal]
  {
    seen := [];
    var atEnd := rowIt.AtEnd();
    while !atEnd
      invariant rowIt.Valid() && rowIt.position <= rowIt.it.goal && seen == rowIt.it.rows[..rowIt.position]
      invariant atEnd <==> rowIt.position == rowIt.it.goal
      decreases rowIt.it.goal - rowIt.position
    {
      var row := rowIt.Get();
      seen := seen + [row];
      rowIt.Advance();
      atEnd := rowIt.AtEnd();
    }
  }

  method Open(backend: Backend, rows: seq<Row>, fails: nat -> bool, batchSize: nat) returns (rowIt: Iterator)
    requires batchSize > 0
    ensures fresh(rowIt) && fresh(rowIt.it) && rowIt.Valid() && rowIt.position == 0
    ensures rowIt.it.rows == rows && rowIt.it.goal == Total(backend, |rows|, fails, batchSize)
  {
    var cursor := new Cursor(backend, rows, fails, batchSize);
    rowIt := new Iterator(cursor, batchSize);
  }

  /** Reading a whole result. The rows seen are all rows if and only if no call fails that
      AllRowsArrive names. */
  method ReadAll(backend: Backend, rows: seq<Row>, fails: nat -> bool, batchSize: nat) returns (seen: seq<Row>)
    requires batchSize > 0
    ensures seen == rows[..Total(backend, |rows|, fails, batchSize)]
  {
    var rowIt := Open(backend, rows, fails, batchSize);
    seen := ReadToEnd(rowIt);
    rowIt.it.Destroy();
  }
}
