/** Reading through a PostgreSQL connection that is in a transaction: every read runs BEGIN and
    END on its connection (src/sqlgen/postgres/Iterator.cpp). In PostgreSQL, BEGIN inside a
    transaction, and COMMIT, END or ROLLBACK outside of one, only warn. */
module ReadsInTransactions {
  import opened Wrappers
  import opened Rows

  // ------------------------------------------------------------------- the connection

  /** The committed rows of the table, and those of the open transaction. */
  datatype Content = Content(table: seq<Row>, open: Option<seq<Row>>)

  /** What happens on a connection. Begins is a BEGIN, of a read or of a transaction object;
      Commits an END or COMMIT; RollsBack a ROLLBACK. */
  datatype Call = Inserts(row: Row) | Begins | Commits | RollsBack

  function Apply(c: Content, call: Call): Content
  {
    match call
    case Inserts(row) =>
      if c.open.Some? then Content(c.table, Some(c.open.value + [row])) else Content(c.table + [row], None)
    case Begins => if c.open.Some? then c else Content(c.table, Some([]))
    case Commits => if c.open.Some? then Content(c.table + c.open.value, None) else c
    case RollsBack => Content(c.table, None)
  }

  function Run(c: Content, calls: seq<Call>): Content
    decreases |calls|
  {
    if calls == [] then c else Run(Apply(c, calls[0]), calls[1..])
  }

  class Connection {
    var content: Content
    /** All calls made on the connection. */
    var calls: seq<Call>

    constructor (rows: seq<Row>)
      ensures content == Content(rows, None) && calls == []
    {
      content, calls := Content(rows, None), [];
    }

    method Execute(call: Call)
      modifies this
      ensures content == Apply(old(content), call) && calls == old(calls) + [call]
    {
      content, calls := Apply(content, call), calls + [call];
    }
  }

  /** The iterator, as far as transactions go. */
  class Reader {
    const conn: Connection
    var end: bool

    constructor (conn_: Connection)
      modifies conn_
      ensures conn == conn_ && !end
      ensures conn.content == Apply(old(conn_.content), Begins) && conn.calls == old(conn_.calls) + [Begins]
    {
      conn, end := conn_, false;
      new;
      conn_.Execute(Begins);
    }

    /** At the end of the result and again on destruction; END runs once. */
    method Shutdown()
      modifies this, conn
      ensures end
      ensures conn.content == if old(end) then old(conn.content) else Apply(old(conn.content), Commits)
      ensures conn.calls == if old(end) then old(conn.calls) else old(conn.calls) + [Commits]
    {
      if !end {
        conn.Execute(Commits);
        end := true;
      }
    }
  }

  /** Transaction::read into a container: reads to the end and destroys the iterator. */
  method Read(conn: Connection)
    modifies conn
    ensures conn.content == Run(old(conn.content), [Begins, Commits])
    ensures conn.calls == old(conn.calls) + [Begins, Commits]
  {
    var reader := new Reader(conn);
    reader.Shutdown();
    reader.Shutdown();
    assert [Begins, Commits][1..] == [Commits] && [Commits][1..] == [];
  }

  // ------------------------------------------------------------------- who ends a transaction

  predicate Ends(call: Call) { call.Commits? || call.RollsBack? }

  /** Whether a transaction that is open before the calls is still the open one after them. */
  function StillOpen(c: Content, calls: seq<Call>): bool
    decreases |calls|
  {
    c.open.Some? && (calls == [] || (!Ends(calls[0]) && StillOpen(Apply(c, calls[0]), calls[1..])))
  }

  /** What a transaction object has begun is left for it to end if and only if no END, COMMIT or
      ROLLBACK comes in between; so not if anything is read. */
  lemma {:induction false} OnlyItsHandleEnds(c: Content, calls: seq<Call>)
    requires c.open.Some?
    ensures StillOpen(c, calls) <==> forall i :: 0 <= i < |calls| ==> !Ends(calls[i])
    decreases |calls|
  {
    if calls != [] {
      if !Ends(calls[0]) {
        OnlyItsHandleEnds(Apply(c, calls[0]), calls[1..]);
      }
      assert forall i :: 1 <= i < |calls| ==> calls[i] == calls[1..][i - 1];
    }
  }

  // ------------------------------------------------------------------- what a rollback undoes

  /** The next call to end a transaction commits it. */
  predicate CommitsNext(calls: seq<Call>)
  {
    calls != [] && (calls[0].Commits? || (!Ends(calls[0]) && CommitsNext(calls[1..])))
  }

  function OpenAfter(open: bool, call: Call): bool
  {
    match call
    case Inserts(_) => open
    case Begins => true
    case _ => false
  }

  /** The rows that are in the table after the calls: those inserted outside of a transaction,
      and those whose transaction is committed. */
  function Kept(open: bool, calls: seq<Call>): seq<Row>
    decreases |calls|
  {
    if calls == [] then []
    else
      (if calls[0].Inserts? && (open ==> CommitsNext(calls[1..])) then [calls[0].row] else [])
      + Kept(OpenAfter(open, calls[0]), calls[1..])
  }

  function OpenRows(c: Content): seq<Row> { if c.open.Some? then c.open.value else [] }

  lemma {:induction false} RunKeeps(c: Content, calls: seq<Call>)
    ensures Run(c, calls).table
         == c.table + (if CommitsNext(calls) then OpenRows(c) else []) + Kept(c.open.Some?, calls)
    decreases |calls|
  {
    if calls != [] {
      RunKeeps(Apply(c, calls[0]), calls[1..]);
      StepKeeps(c, calls[0], calls[1..]);
      assert calls == [calls[0]] + calls[1..];
    }
  }

  lemma StepKeeps(c: Content, call: Call, rest: seq<Call>)
    ensures Apply(c, call).table + (if CommitsNext(rest) then OpenRows(Apply(c, call)) else [])
            + Kept(Apply(c, call).open.Some?, rest)
         == c.table + (if CommitsNext([call] + rest) then OpenRows(c) else []) + Kept(c.open.Some?, [call] + rest)
  {
    assert ([call] + rest)[0] == call && ([call] + rest)[1..] == rest;
  }

  /** Whether a transaction is open before call i. */
  predicate OpenAt(open: bool, calls: seq<Call>, i: nat)
    requires i <= |calls|
    decreases i
  {
    if i == 0 then open else OpenAt(OpenAfter(open, calls[0]), calls[1..], i - 1)
  }

  /** Every row is inserted into a transaction, and none into one that is committed. */
  ghost predicate NothingKept(open: bool, calls: seq<Call>)
  {
    forall i :: 0 <= i < |calls| && calls[i].Inserts? ==> OpenAt(open, calls, i) && !CommitsNext(calls[i + 1..])
  }

  lemma {:induction false} NothingKeptAtAll(open: bool, calls: seq<Call>)
    ensures Kept(open, calls) == [] <==> NothingKept(open, calls)
    decreases |calls|
  {
    if calls != [] {
      var rest, open' := calls[1..], OpenAfter(open, calls[0]);
      NothingKeptAtAll(open', rest);
      forall i | 0 <= i < |rest|
        ensures rest[i] == calls[i + 1] && rest[i + 1..] == calls[i + 2..]
        ensures OpenAt(open', rest, i) == OpenAt(open, calls, i + 1)
      {
      }
      if NothingKept(open', rest) && (calls[0].Inserts? ==> open && !CommitsNext(rest)) {
        forall i | 0 <= i < |calls| && calls[i].Inserts?
          ensures OpenAt(open, calls, i) && !CommitsNext(calls[i + 1..])
        {
          if i > 0 {
            assert rest[i - 1] == calls[i];
          }
        }
      }
      if NothingKept(open, calls) {
        forall i | 0 <= i < |rest| && rest[i].Inserts?
          ensures OpenAt(open', rest, i) && !CommitsNext(rest[i + 1..])
        {
          assert calls[i + 1].Inserts?;
        }
      }
    }
  }

  /** docs/transactions.md says that all operations of a transaction succeed or none. From the
      BEGIN of a transaction object to its ROLLBACK: the table is as it was if and only if every
      row was inserted into a transaction that was not committed, by the END of a read or
      otherwise. */
  lemma RollbackUndoesExactlyIf(table: seq<Row>, calls: seq<Call>)
    ensures Apply(Run(Content(table, Some([])), calls), RollsBack).table == table <==> NothingKept(true, calls)
  {
    RunKeeps(Content(table, Some([])), calls);
    NothingKeptAtAll(true, calls);
  }

  /** A row, a read, a rollback: the row stays, and the rollback reports success. */
  method RolledBackInVain(row: Row) returns (conn: Connection)
    ensures fresh(conn) && conn.calls == [Begins, Inserts(row), Begins, Commits, RollsBack]
    ensures conn.content == Content([row], None)
  {
    conn := new Connection([]);
    conn.Execute(Begins);
    conn.Execute(Inserts(row));
    Read(conn);
    assert [Begins, Commits][1..] == [Commits] && [Commits][1..] == [];
    conn.Execute(RollsBack);
  }
}
