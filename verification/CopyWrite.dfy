/** Writing rows to PostgreSQL: include/sqlgen/write.hpp over the COPY calls of
    src/sqlgen/postgres/Connection.cpp. The server keeps the rows sent so far whenever a COPY is
    ended, and any call may fail. */
module CopyWrite {
  import opened Wrappers
  import opened Numbers
  import opened Rows
  import opened Copy
  import Strings

  /** What an ended COPY adds to the table: all rows of its text, or none if it cannot be read. */
  function Arrived(rows: Option<seq<Row>>): seq<Row>
  {
    if rows.Some? then rows.value else []
  }

  // ------------------------------------------------------------------- the server

  class Server {
    const width: nat
    /** How a text is read. */
    const read: string -> Option<seq<Row>>
    const fails: nat -> bool
    var calls: nat
    var table: seq<Row>
    /** The text of the COPY in progress. */
    var copying: Option<string>

    ghost predicate Valid()
    {
      forall text :: read(text) == Decode(text, width, Unknown)
    }

    constructor (width_: nat, fails_: nat -> bool, rows: seq<Row>)
      ensures Valid() && width == width_ && fails == fails_ && calls == 0 && table == rows && copying == None
    {
      width, read, fails := width_, (text: string) => Decode(text, width_, Unknown), fails_;
      calls, table, copying := 0, rows, None;
    }

    /** CREATE TABLE IF NOT EXISTS. */
    method CreateTable() returns (ok: bool)
      modifies this`calls
      ensures calls == old(calls) + 1 && ok == !fails(old(calls))
    {
      ok, calls := !fails(calls), calls + 1;
    }

    method StartCopy() returns (ok: bool)
      requires copying.None?
      modifies this`calls, this`copying
      ensures calls == old(calls) + 1 && ok == !fails(old(calls))
      ensures copying == if ok then Some("") else None
    {
      ok, calls := !fails(calls), calls + 1;
      if ok {
        copying := Some("");
      }
    }

    /** PQputCopyData. */
    method PutData(buffer: string) returns (ok: bool)
      modifies this`calls, this`copying
      ensures calls == old(calls) + 1 && ok == (old(copying).Some? && !fails(old(calls)))
      ensures copying == if ok then Some(old(copying).value + buffer) else old(copying)
    {
      ok, calls := copying.Some? && !fails(calls), calls + 1;
      if ok {
        copying := Some(copying.value + buffer);
      }
    }

    /** PQputCopyEnd without an error message: the normal end of the COPY. The second result is
        the status that PQgetResult would then report. */
    method PutEnd() returns (ok: bool, commandOk: bool)
      modifies this
      ensures calls == old(calls) + 1 && ok == (old(copying).Some? && !fails(old(calls)))
      ensures copying == if ok then None else old(copying)
      ensures table == old(table) + if ok then Arrived(read(old(copying).value)) else []
      ensures ok ==> (commandOk <==> read(old(copying).value).Some?)
    {
      ok, calls, commandOk := copying.Some? && !fails(calls), calls + 1, false;
      if ok {
        commandOk := read(copying.value).Some?;
        table, copying := table + Arrived(read(copying.value)), None;
      } else {
        assert table + [] == table;
      }
    }
  }

  // ------------------------------------------------------------------- how many rows are kept

  /** Of m rows, sent one by one from call n on: with how many of them the COPY is ended, if it
      is. When a call fails, write_impl ends the COPY, and write tries to end it once more. */
  function EndedWith(fails: nat -> bool, n: nat, m: nat): (ended: Option<nat>)
    ensures ended.Some? ==> ended.value <= m
  {
    var k := FirstFailure(fails, n, n + m) - n;
    if fails(n + k + (if k < m then 1 else 0)) && (k < m ==> fails(n + k + 2)) then None else Some(k)
  }

  /** Row k is the first that cannot be sent, and the COPY is then ended. */
  predicate InterruptedAt(fails: nat -> bool, n: nat, k: nat)
  {
    NoneFails(fails, n, n + k) && fails(n + k) && !(fails(n + k + 1) && fails(n + k + 2))
  }

  /** The COPY is ended with k but not all rows exactly if row k cannot be sent and the COPY can
      be ended. */
  lemma PartlySent(fails: nat -> bool, n: nat, m: nat, k: nat)
    requires k < m
    ensures EndedWith(fails, n, m) == Some(k) <==> InterruptedAt(fails, n, k)
  {
    if InterruptedAt(fails, n, k) {
      FirstFailureIs(fails, n, n + m, n + k);
    }
  }

  lemma {:induction false} SafePrefix(rows: seq<Row>, k: nat)
    requires k <= |rows| && RowsSafe(rows)
    ensures RowsSafe(rows[..k])
  {
    if k > 0 {
      SafePrefix(rows[1..], k - 1);
      assert rows[..k][1..] == rows[1..][..k - 1];
    }
  }

  // ------------------------------------------------------------------- the connection

  class Connection {
    const server: Server

    constructor (server_: Server)
      ensures server == server_
    {
      server := server_;
    }

    /** From call n on, `done` rows have been sent. */
    ghost predicate Sent(n: nat, table: seq<Row>, text: string, done: nat)
      reads server
    {
      && server.calls == n + done && NoneFails(server.fails, n, n + done)
      && server.table == table && server.copying == Some(text)
    }

    /** After `done` rows a call has failed, and ending the COPY has been tried. */
    ghost predicate GivenUp(n: nat, table: seq<Row>, text: string, done: nat)
      reads server
    {
      && server.calls == n + done + 2 && NoneFails(server.fails, n, n + done) && server.fails(n + done)
      && server.copying == (if server.fails(n + done + 1) then Some(text) else None)
      && server.table == table + if server.fails(n + done + 1) then [] else Arrived(server.read(text))
    }

    /** The overload of write_impl for a batch of rows; `done` counts the rows sent. At the first
        call that fails it ends the COPY in the normal way, whatever comes of that. */
    method WriteImpl(data: seq<Row>) returns (r: Result<()>, ghost done: nat)
      requires server.copying.Some?
      modifies server
      ensures done <= |data| && (r.Ok? <==> done == |data|)
      ensures var text := old(server.copying).value + Encode(data[..done]);
              && (r.Ok? ==> Sent(old(server.calls), old(server.table), text, done))
              && (r.Error? ==> GivenUp(old(server.calls), old(server.table), text, done))
    {
      ghost var before := server.copying.value;
      assert before + Encode(data[..0]) == before;
      for i := 0 to |data|
        invariant Sent(old(server.calls), old(server.table), before + Encode(data[..i]), i)
      {
        var edited := EditFields(data[i]);
        var buffer := Strings.Join([TAB], edited);
        var success := server.PutData(buffer + [LF]);
        if !success {
          var _, _ := server.PutEnd();
          return Error, i;
        }
        SentOneMore(before, data, i);
      }
      return Ok(()), |data|;
    }

    method EndWrite() returns (r: Result<()>)
      modifies server
      ensures server.calls == old(server.calls) + 1
      ensures var ok := old(server.copying).Some? && !server.fails(old(server.calls));
              && server.copying == (if ok then None else old(server.copying))
              && server.table == old(server.table)
                  + (if ok then Arrived(server.read(old(server.copying).value)) else [])
              && (r.Ok? <==> ok && server.read(old(server.copying).value).Some?)
    {
      var ok, commandOk := server.PutEnd();
      return if ok && commandOk then Ok(()) else Error;
    }

    /** One batch of write_or_insert, after the rows before it. */
    method SendBatch(data: seq<Row>, ghost rows: seq<Row>, ghost before: seq<Row>, ghost n: nat, ghost table: seq<Row>)
      returns (r: Result<()>, ghost done: nat)
      requires Sent(n, table, Encode(before), |before|) && before + data <= rows
      modifies server
      ensures done <= |before| + |data| && (r.Ok? <==> done == |before| + |data|)
      ensures r.Ok? ==> Sent(n, table, Encode(rows[..done]), done)
      ensures r.Error? ==> GivenUp(n, table, Encode(rows[..done]), done)
    {
      ghost var sent;
      r, sent := WriteImpl(data);
      SentBatch(rows, before, data, sent);
      done := |before| + sent;
    }

    /** write_or_insert: hands the rows on in batches and stops at the first batch that fails. */
    method WriteBatches(rows: seq<Row>) returns (r: Result<()>, ghost done: nat)
      requires server.copying == Some("")
      modifies server
      ensures done <= |rows| && (r.Ok? <==> done == |rows|)
      ensures r.Ok? ==> Sent(old(server.calls), old(server.table), Encode(rows[..done]), done)
      ensures r.Error? ==> GivenUp(old(server.calls), old(server.table), Encode(rows[..done]), done)
    {
      ghost var before: seq<Row> := [];
      var data: seq<Row> := [];
      for i := 0 to |rows|
        invariant |data| < BATCH_SIZE && |before| + |data| == i && before + data == rows[..i]
        invariant Sent(old(server.calls), old(server.table), Encode(before), |before|)
      {
        data := data + [rows[i]];
        assert before + data == rows[..i + 1];
        if |data| == BATCH_SIZE {
          r, done := SendBatch(data, rows, before, old(server.calls), old(server.table));
          if r.Error? {
            return;
          }
          before, data := rows[..i + 1], [];
          assert before + data == rows[..i + 1];
        }
      }
      assert before + data == rows == rows[..|rows|];
      if |data| != 0 {
        r, done := SendBatch(data, rows, before, old(server.calls), old(server.table));
      } else {
        assert before == rows;
        r, done := Ok(()), |rows|;
      }
    }

    /** What the table gets from a COPY that was ended with that many rows. */
    ghost function Added(ended: Option<nat>, rows: seq<Row>): seq<Row>
      requires ended.Some? ==> ended.value <= |rows|
    {
      if ended.Some? then Arrived(server.read(Encode(rows[..ended.value]))) else []
    }

    /** What write does once the COPY is started: all batches, and the end of the write whether
        or not they failed. */
    method WriteAndEnd(rows: seq<Row>) returns (r: Result<()>)
      requires server.copying == Some("")
      modifies server
      ensures r.Ok? <==>
                && NoneFails(server.fails, old(server.calls), old(server.calls) + |rows| + 1)
                && server.read(Encode(rows)).Some?
      ensures server.table == old(server.table) + Added(EndedWith(server.fails, old(server.calls), |rows|), rows)
    {
      ghost var n := server.calls;
      ghost var done;
      r, done := WriteBatches(rows);
      FirstFailureIs(server.fails, n, n + |rows|, n + done);
      if r.Error? {
        var _ := EndWrite();
      } else {
        assert rows[..|rows|] == rows;
        r := EndWrite();
      }
    }

    /** sqlgen::write on an idle connection. It succeeds exactly if no call fails and the server
        can read the text; the table gets the rows the server can read of those that were sent.
        By PartlySent that can be some of the rows only. */
    method Write(rows: seq<Row>) returns (r: Result<()>)
      requires server.copying.None?
      modifies server
      ensures r.Ok? <==>
                && NoneFails(server.fails, old(server.calls), old(server.calls) + |rows| + 3)
                && server.read(Encode(rows)).Some?
      ensures var n := old(server.calls);
              var ended := if NoneFails(server.fails, n, n + 2) then EndedWith(server.fails, n + 2, |rows|) else None;
              server.table == old(server.table) + Added(ended, rows)
    {
      var createOk := server.CreateTable();
      if !createOk {
        return Error;
      }
      var startOk := server.StartCopy();
      if !startOk {
        return Error;
      }
      r := WriteAndEnd(rows);
    }

    /** Of safe rows the table gets exactly those that were sent. */
    lemma SafeRowsAdded(ended: Option<nat>, rows: seq<Row>)
      requires server.Valid() && server.width > 0 && RowsSafe(rows) && Rectangular(rows, server.width)
      requires ended.Some? ==> ended.value <= |rows|
      ensures Added(ended, rows) == if ended.Some? then rows[..ended.value] else []
    {
      if ended.Some? {
        SafePrefix(rows, ended.value);
        CopyRoundTrip(rows[..ended.value], server.width);
      }
    }
  }

  lemma SentOneMore(before: string, data: seq<Row>, i: nat)
    requires i < |data|
    ensures before + Encode(data[..i]) + (Strings.Joined([TAB], EditFields(data[i])) + [LF])
         == before + Encode(data[..i + 1])
  {
    EncodeAppend(data[..i], [data[i]]);
    assert data[..i + 1] == data[..i] + [data[i]];
    assert Encode([data[i]]) == ToBuffer(data[i]) + Encode([]);
  }

  lemma SentBatch(rows: seq<Row>, before: seq<Row>, data: seq<Row>, sent: nat)
    requires before + data <= rows && sent <= |data|
    ensures Encode(before) + Encode(data[..sent]) == Encode(rows[..|before| + sent])
  {
    EncodeAppend(before, data[..sent]);
    PrefixOfBoth(rows, before, data, sent);
  }

  lemma PrefixOfBoth<T>(rows: seq<T>, before: seq<T>, data: seq<T>, sent: nat)
    requires before + data <= rows && sent <= |data|
    ensures before + data[..sent] == rows[..|before| + sent]
  {
  }

  /** All or nothing fails: of two rows of NULL the second cannot be sent; the write fails, and
      the first row is in the table. */
  method HalfWritten() returns (r: Result<()>, server: Server)
    ensures fresh(server) && r.Error? && server.table == [[None]]
    ensures forall n: nat :: server.fails(n) <==> n == 3
  {
    server := new Server(1, (n: nat) => n == 3, []);
    var connection := new Connection(server);
    var rows: seq<Row> := [[None], [None]];
    assert InterruptedAt(server.fails, 2, 1);
    PartlySent(server.fails, 2, 2, 1);
    assert rows[..1] == [[None]];
    connection.SafeRowsAdded(Some(1), rows);
    r := connection.Write(rows);
  }
}
