/** Writing rows through a connection: include/sqlgen/write.hpp and
    include/sqlgen/internal/write_or_insert.hpp over the SQLite and MySQL connections
    (src/sqlgen/sqlite/Connection.cpp, src/sqlgen/mysql/Connection.cpp). The database behind the
    connection is modelled by its committed rows, the rows of the open transaction and an
    arbitrary choice of which of its calls fail. */
module Write {
  import opened Wrappers
  import opened Numbers
  import opened Rows

  datatype Dialect = Sqlite | MySql

  datatype Command = CreateTable | Prepare | Begin | Bind | Step | Reset | ClearBindings | Commit | Rollback

  /** One call to the database and whether it succeeded. */
  datatype Event = Event(command: Command, ok: bool)

  /** All calls from the nth on succeeded. */
  ghost predicate AllOk(log: seq<Event>, n: nat)
  {
    forall k :: n <= k < |log| ==> log[k].ok
  }

  /** The first failing call from the nth on is the last one, and it is this command. */
  ghost predicate FailedAt(log: seq<Event>, n: nat, command: Command)
  {
    n < |log| && log[|log| - 1] == Event(command, false) && AllOk(log[..|log| - 1], n)
  }

  ghost predicate LastIsNot(log: seq<Event>, n: nat, command: Command)
  {
    n < |log| && log[|log| - 1].command != command
  }

  /** The rows of the table and the rows the open transaction would add to it. */
  datatype Content = Content(committed: seq<Row>, open: Option<seq<Row>>)

  /** Inserted rows go to the transaction, or else to the table. */
  function Append(c: Content, rows: seq<Row>): Content
  {
    if c.open.Some? then Content(c.committed, Some(c.open.value + rows)) else Content(c.committed + rows, None)
  }

  /** COMMIT. */
  function Commits(c: Content): Content
  {
    if c.open.Some? then Content(c.committed + c.open.value, None) else c
  }

  lemma AppendMore(c: Content, a: seq<Row>, b: seq<Row>)
    ensures Append(c, []) == c
    ensures Append(Append(c, a), b) == Append(c, a + b)
  {
    if c.open.Some? {
      assert c.open.value + [] == c.open.value;
      assert c.open.value + a + b == c.open.value + (a + b);
    } else {
      assert c.committed + [] == c.committed;
      assert c.committed + a + b == c.committed + (a + b);
    }
  }

  // ------------------------------------------------------------------- the database

  class Database {
    const dialect: Dialect
    const fails: nat -> bool
    var committed: seq<Row>
    var open: Option<seq<Row>>
    var log: seq<Event>

    constructor (dialect_: Dialect, fails_: nat -> bool, rows: seq<Row>)
      ensures dialect == dialect_ && fails == fails_ && committed == rows && open == None && log == []
    {
      dialect, fails, committed, open, log := dialect_, fails_, rows, None, [];
    }

    /** A call that changes no row. An illegal call always fails. */
    method Call(command: Command, legal: bool) returns (ok: bool)
      modifies this`log
      ensures log == old(log) + [Event(command, ok)]
      ensures ok == (legal && !fails(|old(log)|))
    {
      ok := legal && !fails(|log|);
      log := log + [Event(command, ok)];
    }

    method BeginTransaction() returns (ok: bool)
      requires dialect.Sqlite? || open.None?
      modifies this`log, this`open
      ensures log == old(log) + [Event(Begin, ok)]
      ensures ok == (old(open).None? && !fails(|old(log)|))
      ensures open == if ok then Some([]) else old(open)
    {
      ok := Call(Begin, open.None?);
      if ok {
        open := Some([]);
      }
    }

    /** COMMIT outside a transaction is an error in SQLite and does nothing in MySQL. A failed
        COMMIT leaves the transaction open. */
    method CommitTransaction() returns (ok: bool)
      modifies this
      ensures log == old(log) + [Event(Commit, ok)]
      ensures ok == ((old(open).Some? || dialect.MySql?) && !fails(|old(log)|))
      ensures committed == if ok && old(open).Some? then old(committed) + old(open).value else old(committed)
      ensures open == if ok then None else old(open)
    {
      ok := Call(Commit, open.Some? || dialect.MySql?);
      if ok && open.Some? {
        committed, open := committed + open.value, None;
      }
    }

    /** ROLLBACK succeeds whenever there is a transaction. */
    method RollbackTransaction()
      modifies this`log, this`open
      ensures exists ok :: log == old(log) + [Event(Rollback, ok)]
      ensures open == None
    {
      log := log + [Event(Rollback, open.Some? || dialect.MySql?)];
      open := None;
    }

    /** Runs the insert for one row, in the transaction if there is one. */
    method StepRow(row: Row) returns (ok: bool)
      modifies this
      ensures log == old(log) + [Event(Step, ok)]
      ensures ok == !fails(|old(log)|)
      ensures GetContent() == if ok then Append(old(GetContent()), [row]) else old(GetContent())
    {
      ok := Call(Step, true);
      if ok {
        if open.Some? {
          open := Some(open.value + [row]);
        } else {
          committed := committed + [row];
        }
      }
    }

    ghost function GetContent(): Content
      reads this
    {
      Content(committed, open)
    }
  }

  /** Every row has this many entries. */
  predicate OfWidth(rows: seq<Row>, width: nat)
  {
    forall k :: 0 <= k < |rows| ==> |rows[k]| == width
  }

  predicate AtLeast(rows: seq<Row>, width: nat)
  {
    forall k :: 0 <= k < |rows| ==> |rows[k]| >= width
  }

  // ------------------------------------------------------------------- how many calls there are

  function StepCalls(rows: nat, width: nat): nat
  {
    if rows == 0 then 0 else StepCalls(rows - 1, width) + width + 2
  }

  function Batches(rows: nat): nat
  {
    if rows == 0 then 0 else if rows <= BATCH_SIZE then 1 else 1 + Batches(rows - BATCH_SIZE)
  }

  /** Inserting a batch: MySQL binds a row at once and executes it; SQLite binds every column of
      it, steps and resets, and clears the bindings after the last row. */
  function InsertCalls(dialect: Dialect, rows: nat, width: nat): nat
  {
    match dialect
    case Sqlite => StepCalls(rows, width) + 1
    case MySql => 2 * rows
  }

  /** Inserting the rows in batches. */
  function WriteCalls(dialect: Dialect, rows: nat, width: nat): nat
  {
    match dialect
    case Sqlite => StepCalls(rows, width) + Batches(rows)
    case MySql => 2 * rows
  }

  lemma {:induction false} StepCallsSplit(a: nat, b: nat, width: nat)
    ensures StepCalls(a + b, width) == StepCalls(a, width) + StepCalls(b, width)
  {
    if b > 0 {
      StepCallsSplit(a, b - 1, width);
    }
  }

  lemma {:induction false} BatchesSplit(flushed: nat, count: nat, more: nat)
    requires flushed % BATCH_SIZE == 0 && 0 < count <= BATCH_SIZE
    ensures Batches(flushed) + 1 == Batches(flushed + count) <= Batches(flushed + count + more)
  {
    if flushed > 0 {
      BatchesSplit(flushed - BATCH_SIZE, count, more);
    } else if count + more > BATCH_SIZE {
      assert Batches(count + more) >= 1;
    }
  }

  /** One more batch after full ones, and whatever comes behind it. */
  lemma OneMoreBatch(dialect: Dialect, flushed: nat, count: nat, rows: nat, width: nat)
    requires flushed % BATCH_SIZE == 0 && 0 < count <= BATCH_SIZE && flushed + count <= rows
    ensures WriteCalls(dialect, flushed, width) + InsertCalls(dialect, count, width)
         == WriteCalls(dialect, flushed + count, width) <= WriteCalls(dialect, rows, width)
  {
    StepCallsSplit(flushed, count, width);
    StepCallsSplit(flushed + count, rows - flushed - count, width);
    BatchesSplit(flushed, count, rows - flushed - count);
  }

  // ------------------------------------------------------------------- the connection

  class Connection {
    const db: Database
    /** stmt_: the prepared statement of a write in progress, by its number of parameters. */
    var stmt: Option<nat>

    constructor (db_: Database)
      ensures db == db_ && stmt == None
    {
      db, stmt := db_, None;
    }

    ghost predicate Idle()
      reads this, db
    {
      stmt.None? && db.open.None?
    }

    /** The result after this many calls, made since the log was as given: Ok exactly if the rows
        are of the right width and the database lets none of the calls fail. */
    ghost predicate OkAfter(r: Result<()>, log: seq<Event>, calls: nat, rows: seq<Row>, width: nat)
      reads db
    {
      && (r.Ok? ==> |db.log| == |log| + calls)
      && (r.Ok? <==> NoneFails(db.fails, |log|, |log| + calls) && OfWidth(rows, width))
    }

    /** Binds the columns of a row one by one; binding beyond the last parameter is an error. */
    method BindColumns(row: Row, width: nat) returns (ok: bool, bound: Row)
      requires |row| >= width
      modifies db`log
      ensures old(db.log) <= db.log
      ensures ok <==> AllOk(db.log, |old(db.log)|)
      ensures ok <==> |row| == width && NoneFails(db.fails, |old(db.log)|, |old(db.log)| + width)
      ensures ok ==> bound == row && |db.log| == |old(db.log)| + width
    {
      ghost var n := |db.log|;
      bound := seq(width, _ => None);
      for i := 0 to |row|
        invariant |bound| == width && i <= width && bound[..i] == row[..i]
        invariant old(db.log) <= db.log && AllOk(db.log, n)
        invariant |db.log| == n + i && NoneFails(db.fails, n, |db.log|)
      {
        ok := db.Call(Bind, i < width);
        if !ok {
          assert !db.log[|db.log| - 1].ok;
          return;
        }
        bound := bound[i := row[i]];
      }
      ok := true;
    }

    /** Binds, steps and resets for one row, which is inserted once the step is made. */
    method InsertRow(row: Row, width: nat) returns (ok: bool, ghost stepped: bool)
      requires |row| >= width
      modifies db
      ensures old(db.log) <= db.log
      ensures ok <==> AllOk(db.log, |old(db.log)|)
      ensures ok <==> |row| == width && NoneFails(db.fails, |old(db.log)|, |old(db.log)| + width + 2)
      ensures ok ==> stepped && |db.log| == |old(db.log)| + width + 2
      ensures db.GetContent() == if stepped then Append(old(db.GetContent()), [row]) else old(db.GetContent())
    {
      var bound: Row;
      ok, bound := BindColumns(row, width);
      stepped := false;
      if ok {
        ok := db.StepRow(bound);
        stepped := ok;
        assert db.log[|db.log| - 1].ok == ok;
      }
      if ok {
        ok := db.Call(Reset, true);
        assert db.log[|db.log| - 1].ok == ok;
      }
    }

    /** sqlite::Connection::actual_insert. Returns how many rows have been inserted. */
    method SqliteInsert(data: seq<Row>, width: nat) returns (r: Result<()>, ghost done: nat)
      requires AtLeast(data, width)
      modifies db
      ensures old(db.log) <= db.log
      ensures r.Ok? <==> AllOk(db.log, |old(db.log)|)
      ensures done <= |data| && db.GetContent() == Append(old(db.GetContent()), data[..done])
      ensures r.Ok? ==> done == |data| && OfWidth(data, width)
      ensures OkAfter(r, old(db.log), InsertCalls(Sqlite, |data|, width), data, width)
    {
      ghost var before, n := db.GetContent(), |db.log|;
      AppendMore(before, [], []);
      assert data[..0] == [];
      for j := 0 to |data|
        invariant old(db.log) <= db.log && AllOk(db.log, n)
        invariant |db.log| == n + StepCalls(j, width) && NoneFails(db.fails, n, |db.log|)
        invariant db.GetContent() == Append(before, data[..j])
        invariant forall k :: 0 <= k < j ==> |data[k]| == width
      {
        ghost var log := db.log;
        StepCallsSplit(j + 1, |data| - j - 1, width);
        AppendMore(before, data[..j], [data[j]]);
        assert data[..j + 1] == data[..j] + [data[j]];
        ghost var stepped;
        var rowOk;
        rowOk, stepped := InsertRow(data[j], width);
        LogSplit(log, db.log, n);
        if !rowOk {
          return Error, if stepped then j + 1 else j;
        }
      }
      assert data[..|data|] == data;
      var clearOk := db.Call(ClearBindings, true);
      assert db.log[|db.log| - 1].ok == clearOk;
      return if clearOk then Ok(()) else Error, |data|;
    }

    /** mysql::Connection::actual_insert. Rows of the wrong width are refused before binding. */
    method MySqlInsert(data: seq<Row>, width: nat) returns (r: Result<()>, ghost done: nat)
      modifies db
      ensures old(db.log) <= db.log
      ensures r.Ok? <==> AllOk(db.log, |old(db.log)|) && OfWidth(data, width)
      ensures done <= |data| && db.GetContent() == Append(old(db.GetContent()), data[..done])
      ensures r.Ok? ==> done == |data|
      ensures OkAfter(r, old(db.log), InsertCalls(MySql, |data|, width), data, width)
    {
      ghost var before := db.GetContent();
      AppendMore(before, [], []);
      assert data[..0] == [];
      for j := 0 to |data|
        invariant |db.log| == |old(db.log)| + 2 * j && NoneFails(db.fails, |old(db.log)|, |db.log|)
        invariant old(db.log) <= db.log && AllOk(db.log, |old(db.log)|)
        invariant db.GetContent() == Append(before, data[..j])
        invariant forall k :: 0 <= k < j ==> |data[k]| == width
      {
        var row := data[j];
        if |row| != width {
          return Error, j;
        }
        AppendMore(before, data[..j], [row]);
        assert data[..j + 1] == data[..j] + [row];
        var bindOk := db.Call(Bind, true);
        if !bindOk {
          assert !db.log[|db.log| - 1].ok;
          return Error, j;
        }
        var stepOk := db.StepRow(row);
        if !stepOk {
          assert !db.log[|db.log| - 1].ok;
          return Error, j;
        }
      }
      assert data[..|data|] == data;
      return Ok(()), |data|;
    }

    method StartWrite(width: nat) returns (r: Result<()>)
      requires db.dialect.MySql? ==> db.open.None?
      modifies this, db
      ensures old(db.log) <= db.log && db.committed == old(db.committed)
      ensures old(stmt).Some? ==> r.Error? && stmt == old(stmt) && db.open == old(db.open) && db.log == old(db.log)
      ensures old(stmt).None? ==> (r.Ok? <==> AllOk(db.log, |old(db.log)|))
      ensures old(stmt).None? ==>
           (r.Ok? <==> NoneFails(db.fails, |old(db.log)|, |old(db.log)| + 2) && old(db.open).None?)
      ensures r.Ok? ==> stmt == Some(width) && |db.log| == |old(db.log)| + 2
      ensures r.Ok? ==> db.open == Some([]) && old(db.open) == None
      ensures r.Error? && old(stmt).None? && db.dialect.Sqlite? ==> (stmt.Some? <==> !db.fails(|old(db.log)|))
      ensures r.Error? ==> db.open == old(db.open)
      ensures r.Error? && old(stmt).None? ==>
                && (stmt.Some? <==> db.dialect.Sqlite? && FailedAt(db.log, |old(db.log)|, Begin))
                && LastIsNot(db.log, |old(db.log)|, Commit)
    {
      if stmt.Some? {
        return Error;
      }
      if db.dialect.Sqlite? {
        var prepareOk := db.Call(Prepare, true);
        if !prepareOk {
          assert db.log[|db.log| - 1] == Event(Prepare, false);
          return Error;
        }
        stmt := Some(width);
        var beginOk := db.BeginTransaction();
        assert db.log[|db.log| - 1] == Event(Begin, beginOk);
        return if beginOk then Ok(()) else Error;
      }
      var beginOk := db.BeginTransaction();
      assert db.log[|db.log| - 1].ok == beginOk;
      ghost var at := |db.log| - 1;
      if beginOk {
        var prepareOk := db.Call(Prepare, true);
        assert db.log[|db.log| - 1].ok == prepareOk;
        if prepareOk {
          stmt := Some(width);
          return Ok(());
        }
        at := |db.log| - 1;
      }
      db.RollbackTransaction();
      assert !db.log[at].ok;
      return Error;
    }

    /** The overload of write_impl for a batch of rows. */
    method WriteImpl(data: seq<Row>) returns (r: Result<()>)
      requires stmt.Some? && db.dialect.Sqlite? ==> AtLeast(data, stmt.value)
      modifies this, db
      ensures old(db.log) <= db.log
      ensures old(stmt).None? ==>
           r.Error? && db.GetContent() == old(db.GetContent()) && db.log == old(db.log) && stmt == None
      ensures r.Ok? ==> db.GetContent() == Append(old(db.GetContent()), data) && stmt == old(stmt)
      ensures old(stmt).Some? ==>
                (r.Ok? <==>
                 && AllOk(db.log, |old(db.log)|)
                 && OfWidth(data, old(stmt).value))
      ensures old(stmt).Some? ==>
                var calls := InsertCalls(db.dialect, |data|, old(stmt).value);
                OkAfter(r, old(db.log), calls, data, old(stmt).value)
      ensures r.Error? && old(stmt).Some? ==>
                && db.open == None
                && (old(db.open).Some? ==> db.committed == old(db.committed))
                && stmt == (if db.dialect.Sqlite? then old(stmt) else None)
    {
      if stmt.None? {
        return Error;
      }
      ghost var done;
      if db.dialect.Sqlite? {
        r, done := SqliteInsert(data, stmt.value);
      } else {
        r, done := MySqlInsert(data, stmt.value);
      }
      if r.Error? {
        ghost var log := db.log;
        db.RollbackTransaction();
        assert db.log[..|log|] == log;
        if db.dialect.MySql? {
          stmt := None;
        }
      } else {
        assert data[..|data|] == data;
      }
    }

    method EndWrite() returns (r: Result<()>)
      modifies this, db
      ensures old(db.log) <= db.log && stmt == None
      ensures db.dialect.Sqlite? && old(stmt).None? ==>
           r.Error? && db.GetContent() == old(db.GetContent()) && db.log == old(db.log)
      ensures db.dialect.Sqlite? && old(stmt).Some? ==>
                db.GetContent() == if r.Ok? then Commits(old(db.GetContent())) else Content(old(db.committed), None)
      ensures db.dialect.MySql? ==>
                db.GetContent() == if r.Ok? then Commits(old(db.GetContent())) else old(db.GetContent())
      ensures db.dialect.MySql? ==> exists ok :: db.log == old(db.log) + [Event(Commit, ok)] && (r.Ok? <==> ok)
      ensures db.dialect.MySql? ==> (r.Ok? <==> !db.fails(|old(db.log)|))
      ensures db.dialect.Sqlite? ==> (r.Ok? <==> old(stmt).Some? && old(db.open).Some? && !db.fails(|old(db.log)|))
      ensures r.Ok? ==> |db.log| == |old(db.log)| + 1
      ensures db.dialect.MySql? || old(stmt).Some? ==>
                (r.Ok? <==> AllOk(db.log, |old(db.log)|)) && LastIsNot(db.log, |old(db.log)|, Begin)
    {
      if db.dialect.Sqlite? {
        if stmt.None? {
          return Error;
        }
        stmt := None;
        var commitOk := db.CommitTransaction();
        ghost var at := |db.log| - 1;
        if !commitOk {
          db.RollbackTransaction();
        }
        assert db.log[at].ok == commitOk;
        return if commitOk then Ok(()) else Error;
      }
      stmt := None;
      var commitOk := db.CommitTransaction();
      assert db.log[|db.log| - 1].ok == commitOk;
      return if commitOk then Ok(()) else Error;
    }

    /** One batch of write_or_insert; `done` are the rows of the batches before it, and n is the
        number of calls before those. */
    method WriteBatch(data: seq<Row>, ghost done: seq<Row>, ghost rows: seq<Row>, ghost n: nat) returns (r: Result<()>)
      requires stmt.Some? && db.open.Some? && 0 < |data| <= BATCH_SIZE && |done| % BATCH_SIZE == 0
      requires db.dialect.Sqlite? ==> AtLeast(data, stmt.value)
      requires done + data <= rows && OfWidth(done, stmt.value)
      requires |db.log| == n + WriteCalls(db.dialect, |done|, stmt.value)
      requires AllOk(db.log, n) && NoneFails(db.fails, n, |db.log|)
      modifies this, db
      ensures old(db.log) <= db.log && db.committed == old(db.committed)
      ensures r.Ok? ==> db.open == Some(old(db.open).value + data) && stmt == old(stmt)
      ensures r.Error? ==> db.open == None && stmt == (if db.dialect.Sqlite? then old(stmt) else None)
      ensures r.Ok? <==> AllOk(db.log, n) && OfWidth(done + data, old(stmt).value)
      ensures r.Ok? ==>
                && |db.log| == n + WriteCalls(db.dialect, |done + data|, old(stmt).value)
                && NoneFails(db.fails, n, |db.log|)
      ensures r.Error? ==>
                var calls := WriteCalls(db.dialect, |rows|, old(stmt).value);
                !NoneFails(db.fails, n, n + calls) || !OfWidth(rows, old(stmt).value)
    {
      ghost var log := db.log;
      OneMoreBatch(db.dialect, |done|, |data|, |rows|, stmt.value);
      WidthsSplit(done, data, rows, stmt.value);
      r := WriteImpl(data);
      LogSplit(log, db.log, n);
    }

    /** write_or_insert: hands the rows on in batches and stops at the first batch that fails. */
    method WriteBatches(rows: seq<Row>) returns (r: Result<()>)
      requires stmt.Some? && db.open.Some?
      requires db.dialect.Sqlite? ==> AtLeast(rows, stmt.value)
      modifies this, db
      ensures old(db.log) <= db.log && db.committed == old(db.committed)
      ensures r.Ok? ==> db.open == Some(old(db.open).value + rows) && stmt == old(stmt)
      ensures r.Ok? <==> AllOk(db.log, |old(db.log)|) && OfWidth(rows, old(stmt).value)
      ensures r.Error? ==> db.open == None && stmt == (if db.dialect.Sqlite? then old(stmt) else None)
      ensures var calls := WriteCalls(db.dialect, |rows|, old(stmt).value);
              OkAfter(r, old(db.log), calls, rows, old(stmt).value)
    {
      ghost var before, n, width := db.open.value, |db.log|, stmt.value;
      ghost var done: seq<Row> := [];
      assert before + [] == before;
      var data: seq<Row> := [];
      for i := 0 to |rows|
        invariant stmt == old(stmt) && |data| < BATCH_SIZE
        invariant done + data == rows[..i] && (db.dialect.Sqlite? ==> AtLeast(data, width))
        invariant db.committed == old(db.committed) && db.open == Some(before + done)
        invariant old(db.log) <= db.log && AllOk(db.log, n) && NoneFails(db.fails, n, |db.log|)
        invariant OfWidth(done, width) && |done| % BATCH_SIZE == 0
        invariant |db.log| == n + WriteCalls(db.dialect, |done|, width)
      {
        OneMoreRow(done, data, rows, i);
        data := data + [rows[i]];
        if |data| == BATCH_SIZE {
          r := WriteBatch(data, done, rows, n);
          if r.Error? {
            return;
          }
          assert before + done + data == before + (done + data);
          done, data := done + data, [];
          assert done + data == done;
        }
      }
      assert rows[..|rows|] == rows;
      if |data| != 0 {
        r := WriteBatch(data, done, rows, n);
        assert before + done + data == before + (done + data);
      } else {
        assert done + data == done;
        r := Ok(());
      }
    }

    /** What write does once the write is started: all batches, and the end of the write whether
        or not they failed. */
    method WriteAndEnd(rows: seq<Row>) returns (r: Result<()>)
      requires stmt.Some? && db.open.Some?
      requires db.dialect.Sqlite? ==> AtLeast(rows, stmt.value)
      modifies this, db
      ensures old(db.log) <= db.log && stmt == None
      ensures db.committed == if r.Ok? then old(db.committed) + (old(db.open).value + rows) else old(db.committed)
      ensures r.Ok? <==> AllOk(db.log, |old(db.log)|) && OfWidth(rows, old(stmt).value)
      ensures var calls := WriteCalls(db.dialect, |rows|, old(stmt).value) + 1;
              OkAfter(r, old(db.log), calls, rows, old(stmt).value)
      ensures LastIsNot(db.log, |old(db.log)|, Begin)
      ensures db.open.Some? <==> && db.dialect.MySql? && FailedAt(db.log, |old(db.log)|, Commit)
                                 && OfWidth(rows, old(stmt).value)
      ensures db.open.Some? ==> db.open.value == old(db.open).value + rows
      ensures db.dialect.MySql? && OfWidth(rows, old(stmt).value) ==>
                var n := |old(db.log)|;
                NoneFails(db.fails, n, n + 2 * |rows|) ==> (db.open.Some? <==> db.fails(n + 2 * |rows|))
    {
      ghost var n := |db.log|;
      r := WriteBatches(rows);
      ghost var log := db.log;
      if r.Error? {
        var _ := EndWrite();
      } else {
        r := EndWrite();
      }
      LogSplit(log, db.log, n);
    }

    /** Write once the table is there. */
    method StartAndWrite(rows: seq<Row>, width: nat) returns (r: Result<()>)
      requires db.dialect.MySql? ==> db.open.None?
      requires db.dialect.Sqlite? ==> AtLeast(rows, width)
      modifies this, db
      ensures old(db.log) <= db.log
      ensures db.committed == if r.Ok? then old(db.committed) + rows else old(db.committed)
      ensures old(stmt).Some? ==> r.Error? && stmt == old(stmt) && db.open == old(db.open)
      ensures old(stmt).None? ==> (r.Ok? <==> AllOk(db.log, |old(db.log)|) && OfWidth(rows, width))
      ensures r.Ok? <==>
                && old(Idle()) && OfWidth(rows, width)
                && var n := |old(db.log)|; NoneFails(db.fails, n, n + 3 + WriteCalls(db.dialect, |rows|, width))
      ensures old(stmt).None? ==> (stmt.Some? <==> db.dialect.Sqlite? && FailedAt(db.log, |old(db.log)|, Begin))
      ensures old(stmt).None? ==>
                var n := |old(db.log)|;
                stmt.Some? <==>
                  && db.dialect.Sqlite? && !db.fails(n)
                  && (db.fails(n + 1) || old(db.open).Some?)
      ensures old(db.open).Some? ==> r.Error? && db.open == old(db.open)
      ensures old(Idle()) && db.dialect.MySql? && OfWidth(rows, width) ==>
                var n := |old(db.log)|;
                NoneFails(db.fails, n, n + 2 + 2 * |rows|) ==> (db.open.Some? <==> db.fails(n + 2 + 2 * |rows|))
      ensures old(Idle()) ==>
                && (db.open.Some? <==> && db.dialect.MySql? && FailedAt(db.log, |old(db.log)|, Commit)
                                       && OfWidth(rows, width))
                && (db.open.Some? ==> db.open.value == rows)
    {
      ghost var n, calls := |db.log|, WriteCalls(db.dialect, |rows|, width);
      r := StartWrite(width);
      if r.Error? {
        SomeFails(db.fails, n, n, n + 2, n + 3 + calls);
        return;
      }
      ghost var log := db.log;
      assert AllOk(log, n) && NoneFails(db.fails, n, n + 2);
      r := WriteAndEnd(rows);
      assert [] + rows == rows;
      SomeFails(db.fails, n, n + 2, n + 3 + calls, n + 3 + calls);
      LogSplit(log, db.log, n);
      FailureStays(log, db.log, n, Begin);
      FailureStays(log, db.log, n, Commit);
    }

    /** sqlgen::write: creates the table, starts the write, writes all batches, ends the write;
        a failing batch also ends the write, a failing start does not.

        Whichever calls fail, the committed rows are afterwards the old ones, or the old ones
        and all new ones in order, and the latter exactly if every call succeeded. From an idle
        connection nothing is left open except in two cases: SQLite keeps the statement if BEGIN
        fails, and MySQL the transaction if COMMIT fails. */
    method Write(rows: seq<Row>, width: nat) returns (r: Result<()>)
      requires db.dialect.MySql? ==> db.open.None?
      requires db.dialect.Sqlite? ==> AtLeast(rows, width)
      modifies this, db
      ensures old(db.log) <= db.log
      ensures db.committed == if r.Ok? then old(db.committed) + rows else old(db.committed)
      ensures old(stmt).Some? ==> r.Error? && stmt == old(stmt) && db.open == old(db.open)
      ensures old(stmt).None? ==> (r.Ok? <==> AllOk(db.log, |old(db.log)|) && OfWidth(rows, width))
      ensures r.Ok? <==>
                && old(Idle()) && OfWidth(rows, width)
                && var n := |old(db.log)|; NoneFails(db.fails, n, n + 4 + WriteCalls(db.dialect, |rows|, width))
      ensures old(stmt).None? ==> (stmt.Some? <==> db.dialect.Sqlite? && FailedAt(db.log, |old(db.log)|, Begin))
      ensures old(stmt).None? ==>
                var n := |old(db.log)|;
                stmt.Some? <==>
                  && db.dialect.Sqlite? && NoneFails(db.fails, n, n + 2)
                  && (db.fails(n + 2) || old(db.open).Some?)
      ensures old(db.open).Some? ==> r.Error? && db.open == old(db.open)
      ensures old(Idle()) && db.dialect.MySql? && OfWidth(rows, width) ==>
                var n := |old(db.log)|;
                NoneFails(db.fails, n, n + 3 + 2 * |rows|) ==> (db.open.Some? <==> db.fails(n + 3 + 2 * |rows|))
      ensures old(Idle()) ==>
                && (db.open.Some? <==> && db.dialect.MySql? && FailedAt(db.log, |old(db.log)|, Commit)
                                       && OfWidth(rows, width))
                && (db.open.Some? ==> db.open.value == rows)
    {
      ghost var n, calls := |db.log|, WriteCalls(db.dialect, |rows|, width);
      var createOk := db.Call(CreateTable, true);
      assert db.log[n].ok == createOk;
      if !createOk {
        return Error;
      }
      ghost var log := db.log;
      r := StartAndWrite(rows, width);
      SomeFails(db.fails, n, n + 1, n + 4 + calls, n + 4 + calls);
      LogSplit(log, db.log, n);
      FailureStays(log, db.log, n, Begin);
      FailureStays(log, db.log, n, Commit);
    }

    /** sqlgen::insert on an idle connection: every row is committed by itself, so a failure
        keeps the rows before it. */
    method InsertBatch(data: seq<Row>, width: nat) returns (r: Result<()>, ghost done: nat)
      requires db.dialect.Sqlite? ==> AtLeast(data, width)
      modifies db
      ensures old(db.log) <= db.log
      ensures done <= |data| && db.GetContent() == Append(old(db.GetContent()), data[..done])
      ensures r.Ok? ==> done == |data|
      ensures
        var nothing := db.dialect.MySql? && |data| == 0;
        OkAfter(r, old(db.log), if nothing then 0 else 1 + InsertCalls(db.dialect, |data|, width), data, width)
    {
      AppendMore(old(db.GetContent()), [], []);
      assert data[..0] == [];
      if db.dialect.MySql? && |data| == 0 {
        return Ok(()), 0;
      }
      var prepareOk := db.Call(Prepare, true);
      if !prepareOk {
        return Error, 0;
      }
      if db.dialect.Sqlite? {
        r, done := SqliteInsert(data, width);
      } else {
        r, done := MySqlInsert(data, width);
      }
    }
  }

  /** SQLite after a BEGIN that fails once: the statement stays, and the next write is refused
      although no call fails any more. */
  method WriteAfterFailedBegin(rows: seq<Row>, width: nat)
    returns (first: Result<()>, second: Result<()>, connection: Connection)
    requires OfWidth(rows, width)
    ensures fresh(connection) && fresh(connection.db)
    ensures first.Error? && second.Error? && connection.stmt.Some?
    ensures forall n: nat :: connection.db.fails(n) <==> n == 2
  {
    var db := new Database(Sqlite, (n: nat) => n == 2, []);
    connection := new Connection(db);
    first := connection.Write(rows, width);
    second := connection.Write(rows, width);
  }

  /** MySQL after a COMMIT that fails once: the transaction stays open with the row in it. */
  method TransactionAfterFailedCommit(row: Row) returns (r: Result<()>, connection: Connection)
    ensures fresh(connection) && fresh(connection.db)
    ensures r.Error? && connection.db.committed == [] && connection.db.open == Some([row])
    ensures forall n: nat :: connection.db.fails(n) <==> n == 5
  {
    var db := new Database(MySql, (n: nat) => n == 5, []);
    connection := new Connection(db);
    r := connection.Write([row], |row|);
  }

  lemma SomeFails(fails: nat -> bool, n: nat, m: nat, k: nat, to: nat)
    requires n <= m <= k <= to && NoneFails(fails, n, m)
    ensures NoneFails(fails, m, k) && k == to ==> NoneFails(fails, n, to)
    ensures !NoneFails(fails, m, k) ==> !NoneFails(fails, n, to)
  {
  }

  lemma WidthsSplit(a: seq<Row>, b: seq<Row>, all: seq<Row>, width: nat)
    requires a + b <= all
    ensures OfWidth(a + b, width) <==> OfWidth(a, width) && OfWidth(b, width)
    ensures OfWidth(all, width) ==> OfWidth(a + b, width)
  {
    assert forall k :: 0 <= k < |a| ==> a[k] == (a + b)[k];
    assert forall k :: 0 <= k < |b| ==> b[k] == (a + b)[|a| + k];
  }

  lemma OneMoreRow(done: seq<Row>, data: seq<Row>, rows: seq<Row>, i: nat)
    requires i < |rows| && done + data == rows[..i]
    ensures done + (data + [rows[i]]) == rows[..i + 1]
  {
  }

  lemma LogSplit(before: seq<Event>, log: seq<Event>, n: nat)
    requires before <= log && n <= |before|
    ensures AllOk(log, n) <==> AllOk(before, n) && AllOk(log, |before|)
  {
  }

  lemma FailureStays(before: seq<Event>, log: seq<Event>, n: nat, command: Command)
    requires before <= log && n <= |before| && AllOk(before, n)
    ensures |before| < |log| ==> (FailedAt(log, |before|, command) <==> FailedAt(log, n, command))
  {
    if |before| < |log| {
      LogSplit(before, log[..|log| - 1], n);
    }
  }
}
