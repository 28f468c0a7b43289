/** Transaction objects (include/sqlgen/Transaction.hpp, include/sqlgen/begin_transaction.hpp):
    the object itself, and any run of beginning, inserting, committing, rolling back, moving and
    destroying over any number of connections to one table. */
module Transactions {
  import opened Wrappers
  import opened Numbers
  import opened Rows

  // ------------------------------------------------------------------- the objects

  class Database {
    var table: seq<Row>

    constructor ()
      ensures table == []
    {
      table := [];
    }
  }

  /** A connection: the rows of the transaction it is in, if it is in one. BEGIN fails inside a
      transaction and COMMIT outside of one; apart from that the database decides (`ok`). */
  class Connection {
    const db: Database
    var open: Option<seq<Row>>

    constructor (db_: Database)
      ensures db == db_ && open == None
    {
      db, open := db_, None;
    }

    method BeginTransaction(ok: bool) returns (r: Result<()>)
      modifies this
      ensures r.Ok? <==> old(open).None? && ok
      ensures open == if r.Ok? then Some([]) else old(open)
    {
      if open.Some? || !ok {
        return Error;
      }
      open := Some([]);
      return Ok(());
    }

    method Insert(row: Row)
      modifies this, db
      ensures old(open).Some? ==> open == Some(old(open).value + [row]) && db.table == old(db.table)
      ensures old(open).None? ==> open == None && db.table == old(db.table) + [row]
    {
      if open.Some? {
        open := Some(open.value + [row]);
      } else {
        db.table := db.table + [row];
      }
    }

    method Commit(ok: bool) returns (r: Result<()>)
      modifies this, db
      ensures r.Ok? <==> old(open).Some? && ok
      ensures r.Ok? ==> open == None && db.table == old(db.table) + old(open).value
      ensures r.Error? ==> open == old(open) && db.table == old(db.table)
    {
      if open.None? || !ok {
        return Error;
      }
      db.table := db.table + open.value;
      open := None;
      return Ok(());
    }

    method Rollback(ok: bool) returns (r: Result<()>)
      modifies this
      ensures r.Ok? <==> old(open).Some? && ok
      ensures open == if r.Ok? then None else old(open)
    {
      if open.None? || !ok {
        return Error;
      }
      open := None;
      return Ok(());
    }
  }

  class Transaction {
    var conn: Connection
    var transactionEnded: bool

    constructor (conn_: Connection)
      ensures conn == conn_ && !transactionEnded
    {
      conn, transactionEnded := conn_, false;
    }

    /** The move constructor. */
    constructor MoveFrom(other: Transaction)
      modifies other
      ensures conn == old(other.conn) == other.conn
      ensures transactionEnded == old(other.transactionEnded) && other.transactionEnded
    {
      conn, transactionEnded := other.conn, other.transactionEnded;
      new;
      other.transactionEnded := true;
    }

    method BeginTransaction(ok: bool) returns (r: Result<()>)
      modifies this, conn
      ensures conn == old(conn)
      ensures r.Ok? <==> old(transactionEnded) && old(conn.open).None? && ok
      ensures transactionEnded == (old(transactionEnded) && r.Error?)
      ensures conn.open == if r.Ok? then Some([]) else old(conn.open)
    {
      if !transactionEnded {
        return Error;
      }
      r := conn.BeginTransaction(ok);
      if r.Ok? {
        transactionEnded := false;
      }
    }

    /** Inserts whether or not the transaction has ended. */
    method Insert(row: Row)
      modifies conn, conn.db
      ensures
        var rows := old(conn.open);
        if rows.Some? then conn.open == Some(rows.value + [row]) && conn.db.table == old(conn.db.table)
        else conn.open == None && conn.db.table == old(conn.db.table) + [row]
    {
      conn.Insert(row);
    }

    method Commit(ok: bool) returns (r: Result<()>)
      modifies this, conn, conn.db
      ensures conn == old(conn)
      ensures r.Ok? <==> !old(transactionEnded) && old(conn.open).Some? && ok
      ensures transactionEnded == (old(transactionEnded) || r.Ok?)
      ensures r.Ok? ==> conn.open == None && conn.db.table == old(conn.db.table) + old(conn.open).value
      ensures r.Error? ==> conn.open == old(conn.open) && conn.db.table == old(conn.db.table)
    {
      if transactionEnded {
        return Error;
      }
      r := conn.Commit(ok);
      if r.Ok? {
        transactionEnded := true;
      }
    }

    /** The table stays as it is. */
    method Rollback(ok: bool) returns (r: Result<()>)
      modifies this, conn
      ensures conn == old(conn)
      ensures r.Ok? <==> !old(transactionEnded) && old(conn.open).Some? && ok
      ensures transactionEnded == (old(transactionEnded) || r.Ok?)
      ensures conn.open == if r.Ok? then None else old(conn.open)
    {
      if transactionEnded {
        return Error;
      }
      r := conn.Rollback(ok);
      if r.Ok? {
        transactionEnded := true;
      }
    }

    /** Move assignment; a transaction still open on the connection held before is neither
        kept nor ended. */
    method MoveAssign(other: Transaction)
      modifies this, other
      ensures other == this ==> conn == old(conn) && transactionEnded == old(transactionEnded)
      ensures other != this ==>
                && conn == old(other.conn) == other.conn
                && transactionEnded == old(other.transactionEnded) && other.transactionEnded
    {
      if other == this {
        return;
      }
      conn, transactionEnded := other.conn, other.transactionEnded;
      other.transactionEnded := true;
    }

    /** The destructor; its ROLLBACK succeeds if there is a transaction. The table stays as it
        is. */
    method Destroy()
      modifies this, conn
      ensures conn == old(conn)
      ensures conn.open == if old(transactionEnded) then old(conn.open) else None
      ensures transactionEnded == (old(transactionEnded) || old(conn.open).Some?)
    {
      if !transactionEnded {
        var _ := Rollback(true);
      }
    }
  }

  /** begin_transaction(conn): a Transaction object only if BEGIN succeeded. */
  method BeginOn(conn: Connection, ok: bool) returns (r: Option<Transaction>)
    modifies conn
    ensures r.Some? <==> old(conn.open).None? && ok
    ensures r.Some? ==> fresh(r.value) && r.value.conn == conn && !r.value.transactionEnded && conn.open == Some([])
    ensures r.None? ==> conn.open == old(conn.open)
  {
    var begun := conn.BeginTransaction(ok);
    if begun.Ok? {
      var t := new Transaction(conn);
      return Some(t);
    }
    return None;
  }

  // ------------------------------------------------------------------- runs

  /** A Transaction object: the number of its connection and transaction_ended_. */
  datatype Handle = Handle(conn: nat, ended: bool, live: bool)

  /** The table; for each connection the rows of the transaction it is in; all handles made; and,
      as history, the connections whose open transaction a move assignment let go of, and how
      many transactions have been begun and ended on each connection. */
  datatype State = State(
    table: seq<Row>,
    open: seq<Option<seq<Row>>>,
    handles: seq<Handle>,
    orphans: seq<nat>,
    begun: seq<nat>,
    closed: seq<nat>)

  datatype Action =
    | Begin(c: nat, ok: bool)
    | Insert(c: nat, row: Row)
    | Rebegin(t: nat, ok: bool)
    | Commit(t: nat, ok: bool)
    | Rollback(t: nat, ok: bool)
    | MoveConstruct(t: nat)
    | MoveAssign(dst: nat, src: nat)
    | Destroy(t: nat)

  function Init(n: nat): State
  {
    State([], seq(n, _ => None), [], [], seq(n, _ => 0), seq(n, _ => 0))
  }

  predicate Live(s: State, t: nat) { t < |s.handles| && s.handles[t].live }

  predicate Enabled(s: State, a: Action)
  {
    match a
    case Begin(c, _) => c < |s.open|
    case Insert(c, _) => c < |s.open|
    case MoveAssign(dst, src) => Live(s, dst) && Live(s, src)
    case _ => Live(s, a.t)
  }

  predicate Shaped(s: State)
  {
    && |s.begun| == |s.closed| == |s.open|
    && (forall k :: 0 <= k < |s.handles| ==> s.handles[k].conn < |s.open|)
    && forall k :: 0 <= k < |s.orphans| ==> s.orphans[k] < |s.open|
  }

  /** BEGIN on a connection outside a transaction. */
  function Opened(s: State, c: nat): State
    requires Shaped(s) && c < |s.open|
  {
    s.(open := s.open[c := Some([])], begun := s.begun[c := s.begun[c] + 1])
  }

  /** ROLLBACK on a connection in a transaction. */
  function Closed(s: State, c: nat): State
    requires Shaped(s) && c < |s.open|
  {
    s.(open := s.open[c := None], closed := s.closed[c := s.closed[c] + 1])
  }

  /** ROLLBACK through handle t. */
  function RolledBack(s: State, t: nat, ok: bool): State
    requires Shaped(s) && t < |s.handles|
  {
    var h := s.handles[t];
    if h.ended || s.open[h.conn].None? || !ok then s
    else Closed(s, h.conn).(handles := s.handles[t := h.(ended := true)])
  }

  /** COMMIT through handle t. */
  function Committed(s: State, t: nat, ok: bool): State
    requires Shaped(s) && t < |s.handles|
  {
    var h := s.handles[t];
    if h.ended || s.open[h.conn].None? || !ok then s
    else RolledBack(s, t, ok).(table := s.table + s.open[h.conn].value)
  }

  function Apply(s: State, a: Action): State
    requires Shaped(s) && Enabled(s, a)
  {
    match a
    case Begin(c, ok) =>
      if s.open[c].None? && ok then Opened(s, c).(handles := s.handles + [Handle(c, false, true)]) else s
    case Insert(c, row) =>
      if s.open[c].Some? then s.(open := s.open[c := Some(s.open[c].value + [row])]) else s.(table := s.table + [row])
    case Rebegin(t, ok) =>
      var h := s.handles[t];
      if h.ended && s.open[h.conn].None? && ok then
        Opened(s, h.conn).(handles := s.handles[t := h.(ended := false)])
      else s
    case Commit(t, ok) => Committed(s, t, ok)
    case Rollback(t, ok) => RolledBack(s, t, ok)
    case MoveConstruct(t) =>
      var h := s.handles[t];
      s.(handles := s.handles[t := h.(ended := true)] + [h])
    case MoveAssign(dst, src) =>
      if dst == src then s
      else
        var d, h := s.handles[dst], s.handles[src];
        s.(handles := s.handles[dst := h][src := h.(ended := true)],
           orphans := if d.ended then s.orphans else s.orphans + [d.conn])
    case Destroy(t) =>
      var s' := RolledBack(s, t, true);
      s'.(handles := s'.handles[t := s'.handles[t].(live := false)])
  }

  lemma ApplyShaped(s: State, a: Action)
    requires Shaped(s) && Enabled(s, a)
    ensures Shaped(Apply(s, a)) && |Apply(s, a).open| == |s.open|
  {
  }

  function After(s: State, actions: seq<Action>): Option<State>
    requires Shaped(s)
    decreases |actions|
  {
    if actions == [] then Some(s)
    else if Enabled(s, actions[0]) then
      ApplyShaped(s, actions[0]);
      After(Apply(s, actions[0]), actions[1..])
    else None
  }

  // ------------------------------------------------------------------- what every run keeps

  predicate Holds(h: Handle, c: nat) { h.live && !h.ended && h.conn == c }

  /** How many live handles on connection c have not ended. */
  function Unended(handles: seq<Handle>, c: nat): nat
  {
    if handles == [] then 0
    else One(Holds(handles[|handles| - 1], c)) + Unended(handles[..|handles| - 1], c)
  }

  function Orphaned(orphans: seq<nat>, c: nat): nat
  {
    if orphans == [] then 0 else One(orphans[|orphans| - 1] == c) + Orphaned(orphans[..|orphans| - 1], c)
  }

  ghost predicate ConnectionOk(s: State, c: nat)
    requires Shaped(s) && c < |s.open|
  {
    && One(s.open[c].Some?) == Unended(s.handles, c) + Orphaned(s.orphans, c)
    && s.begun[c] == s.closed[c] + One(s.open[c].Some?)
  }

  ghost predicate Invariant(s: State)
  {
    && Shaped(s)
    && (forall c :: 0 <= c < |s.open| ==> ConnectionOk(s, c))
    && forall k :: 0 <= k < |s.handles| && !s.handles[k].live ==> s.handles[k].ended
  }

  lemma {:induction false} UnendedUpdate(handles: seq<Handle>, t: nat, h: Handle, c: nat)
    requires t < |handles|
    ensures Unended(handles[t := h], c) + One(Holds(handles[t], c)) == Unended(handles, c) + One(Holds(h, c))
  {
    var n := |handles| - 1;
    if t == n {
      assert handles[t := h][..n] == handles[..n];
    } else {
      UnendedUpdate(handles[..n], t, h, c);
      assert handles[t := h][..n] == handles[..n][t := h];
    }
  }

  lemma UnendedSnoc(handles: seq<Handle>, h: Handle, c: nat)
    ensures Unended(handles + [h], c) == Unended(handles, c) + One(Holds(h, c))
  {
    assert (handles + [h])[..|handles|] == handles;
  }

  lemma OrphanedSnoc(orphans: seq<nat>, x: nat, c: nat)
    ensures Orphaned(orphans + [x], c) == Orphaned(orphans, c) + One(x == c)
  {
    assert (orphans + [x])[..|orphans|] == orphans;
  }

  /** The connection of a live handle that has not ended is in a transaction, so that its
      COMMIT or ROLLBACK is legal. */
  lemma UnendedIsOpen(s: State, t: nat)
    requires Invariant(s) && Live(s, t) && !s.handles[t].ended
    ensures s.open[s.handles[t].conn].Some?
  {
    var h := s.handles[t];
    UnendedUpdate(s.handles, t, h.(ended := true), h.conn);
    assert ConnectionOk(s, h.conn);
  }

  lemma EndKeepsConnection(s: State, t: nat, ok: bool, c: nat)
    requires Invariant(s) && Live(s, t) && c < |s.open|
    ensures ConnectionOk(RolledBack(s, t, ok), c) && ConnectionOk(Committed(s, t, ok), c)
  {
    var h := s.handles[t];
    assert ConnectionOk(s, c);
    UnendedUpdate(s.handles, t, h.(ended := true), c);
  }

  lemma AssignKeepsConnection(s: State, dst: nat, src: nat, c: nat)
    requires Invariant(s) && Live(s, dst) && Live(s, src) && c < |s.open|
    ensures var s' := Apply(s, MoveAssign(dst, src)); Shaped(s') && c < |s'.open| && ConnectionOk(s', c)
  {
    assert ConnectionOk(s, c);
    if dst != src {
      var d, h := s.handles[dst], s.handles[src];
      UnendedUpdate(s.handles, dst, h, c);
      UnendedUpdate(s.handles[dst := h], src, h.(ended := true), c);
      OrphanedSnoc(s.orphans, d.conn, c);
    }
  }

  lemma StepKeepsConnection(s: State, a: Action, c: nat)
    requires Invariant(s) && Enabled(s, a) && c < |s.open|
    ensures Shaped(Apply(s, a)) && c < |Apply(s, a).open| && ConnectionOk(Apply(s, a), c)
  {
    assert ConnectionOk(s, c);
    ApplyShaped(s, a);
    match a
    case Begin(b, ok) => UnendedSnoc(s.handles, Handle(b, false, true), c);
    case Insert(_, _) =>
    case Rebegin(t, ok) => UnendedUpdate(s.handles, t, s.handles[t].(ended := false), c);
    case Commit(t, ok) => EndKeepsConnection(s, t, ok, c);
    case Rollback(t, ok) => EndKeepsConnection(s, t, ok, c);
    case MoveConstruct(t) =>
      var h := s.handles[t];
      UnendedUpdate(s.handles, t, h.(ended := true), c);
      UnendedSnoc(s.handles[t := h.(ended := true)], h, c);
    case MoveAssign(dst, src) => AssignKeepsConnection(s, dst, src, c);
    case Destroy(t) =>
      if !s.handles[t].ended {
        UnendedIsOpen(s, t);
      }
      EndKeepsConnection(s, t, true, c);
      var s' := RolledBack(s, t, true);
      UnendedUpdate(s'.handles, t, s'.handles[t].(live := false), c);
  }

  lemma StepKeepsInvariant(s: State, a: Action)
    requires Invariant(s) && Enabled(s, a)
    ensures Invariant(Apply(s, a)) && |Apply(s, a).open| == |s.open|
  {
    ApplyShaped(s, a);
    forall c | 0 <= c < |s.open| ensures ConnectionOk(Apply(s, a), c) {
      StepKeepsConnection(s, a, c);
    }
    if a.Destroy? && !s.handles[a.t].ended {
      UnendedIsOpen(s, a.t);
    }
  }

  lemma {:induction false} RunKeepsInvariant(s: State, actions: seq<Action>)
    requires Invariant(s) && After(s, actions).Some?
    ensures Invariant(After(s, actions).value) && |After(s, actions).value.open| == |s.open|
    decreases |actions|
  {
    if actions != [] {
      StepKeepsInvariant(s, actions[0]);
      RunKeepsInvariant(Apply(s, actions[0]), actions[1..]);
    }
  }

  // ------------------------------------------------------------------- what is in the table

  /** What the database has been told, successfully. */
  datatype Event = Began(conn: nat) | Inserted(conn: nat, row: Row) | Committed(conn: nat) | RolledBack(conn: nat)

  /** The calls that succeed. */
  predicate Succeeds(s: State, a: Action)
    requires Shaped(s) && Enabled(s, a)
  {
    match a
    case Begin(c, ok) => s.open[c].None? && ok
    case Rebegin(t, ok) => s.handles[t].ended && s.open[s.handles[t].conn].None? && ok
    case Commit(t, ok) => !s.handles[t].ended && s.open[s.handles[t].conn].Some? && ok
    case Rollback(t, ok) => !s.handles[t].ended && s.open[s.handles[t].conn].Some? && ok
    case _ => true
  }

  /** An object that is destroyed before its transaction has ended rolls it back. */
  function EventsOf(s: State, a: Action): seq<Event>
    requires Shaped(s) && Enabled(s, a)
  {
    if !Succeeds(s, a) then []
    else
      match a
      case Begin(c, _) => [Began(c)]
      case Insert(c, row) => [Inserted(c, row)]
      case Rebegin(t, _) => [Began(s.handles[t].conn)]
      case Commit(t, _) => [Event.Committed(s.handles[t].conn)]
      case Rollback(t, _) => [Event.RolledBack(s.handles[t].conn)]
      case Destroy(t) => if s.handles[t].ended then [] else [Event.RolledBack(s.handles[t].conn)]
      case _ => []
  }

  function Trace(s: State, actions: seq<Action>): seq<Event>
    requires Shaped(s) && After(s, actions).Some?
    decreases |actions|
  {
    if actions == [] then []
    else
      ApplyShaped(s, actions[0]);
      EventsOf(s, actions[0]) + Trace(Apply(s, actions[0]), actions[1..])
  }

  /** The last event that begins or ends a transaction on the connection begins one. */
  predicate InTransaction(events: seq<Event>, c: nat)
  {
    if events == [] then false
    else
      var n := |events| - 1;
      if events[n].Inserted? || events[n].conn != c then InTransaction(events[..n], c) else events[n].Began?
  }

  /** The rows inserted on the connection since its last BEGIN. */
  function SinceBegin(events: seq<Event>, c: nat): seq<Row>
  {
    if events == [] then []
    else
      var n := |events| - 1;
      match events[n]
      case Began(b) => if b == c then [] else SinceBegin(events[..n], c)
      case Inserted(b, row) => SinceBegin(events[..n], c) + if b == c then [row] else []
      case _ => SinceBegin(events[..n], c)
  }

  /** The rows of all transactions that were committed, transaction by transaction in the order
      of their COMMITs, and each row inserted outside of a transaction in its place. */
  function CommittedRows(events: seq<Event>): seq<Row>
  {
    if events == [] then []
    else
      var n := |events| - 1;
      var before := events[..n];
      CommittedRows(before) +
      match events[n]
      case Committed(c) => SinceBegin(before, c)
      case Inserted(c, row) => if InTransaction(before, c) then [] else [row]
      case _ => []
  }

  ghost predicate ConnectionReflects(s: State, events: seq<Event>, c: nat)
    requires c < |s.open|
  {
    s.open[c] == if InTransaction(events, c) then Some(SinceBegin(events, c)) else None
  }

  ghost predicate Reflects(s: State, events: seq<Event>)
  {
    && s.table == CommittedRows(events)
    && forall c :: 0 <= c < |s.open| ==> ConnectionReflects(s, events, c)
  }

  lemma ConnectionSnoc(events: seq<Event>, e: Event, c: nat)
    ensures InTransaction(events + [e], c)
       <==> if e.Inserted? || e.conn != c then InTransaction(events, c) else e.Began?
    ensures SinceBegin(events + [e], c)
         == if e.conn != c then SinceBegin(events, c)
            else if e.Began? then []
            else if e.Inserted? then SinceBegin(events, c) + [e.row]
            else SinceBegin(events, c)
  {
    assert (events + [e])[..|events|] == events;
  }

  lemma CommittedSnoc(events: seq<Event>, e: Event)
    ensures CommittedRows(events + [e])
         == if e.Committed? then CommittedRows(events) + SinceBegin(events, e.conn)
            else if e.Inserted? && !InTransaction(events, e.conn) then CommittedRows(events) + [e.row]
            else CommittedRows(events)
  {
    assert (events + [e])[..|events|] == events;
  }

  /** The table and the open transactions after an event, whatever led to it. */
  lemma EventReflects(s: State, events: seq<Event>, e: Event, s': State)
    requires Reflects(s, events) && |s'.open| == |s.open| && e.conn < |s.open|
    requires s'.table
          == if e.Committed? && s.open[e.conn].Some? then s.table + s.open[e.conn].value
             else if e.Inserted? && s.open[e.conn].None? then s.table + [e.row]
             else s.table
    requires forall c :: 0 <= c < |s.open| && c != e.conn ==> s'.open[c] == s.open[c]
    requires s'.open[e.conn]
          == if e.Began? then Some([])
             else if e.Inserted? && s.open[e.conn].Some? then Some(s.open[e.conn].value + [e.row])
             else None
    requires e.Committed? ==> s.open[e.conn].Some?
    ensures Reflects(s', events + [e])
  {
    CommittedSnoc(events, e);
    assert ConnectionReflects(s, events, e.conn);
    forall c | 0 <= c < |s'.open| ensures ConnectionReflects(s', events + [e], c) {
      ConnectionSnoc(events, e, c);
      assert ConnectionReflects(s, events, c);
    }
  }

  lemma StepReflects(s: State, events: seq<Event>, a: Action)
    requires Invariant(s) && Enabled(s, a) && Reflects(s, events)
    ensures Shaped(Apply(s, a)) && Reflects(Apply(s, a), events + EventsOf(s, a))
  {
    ApplyShaped(s, a);
    if a.Destroy? && !s.handles[a.t].ended {
      UnendedIsOpen(s, a.t);
    }
    var s' := Apply(s, a);
    if EventsOf(s, a) == [] {
      assert events + [] == events;
      forall c | 0 <= c < |s.open| ensures ConnectionReflects(s', events, c) {
        assert ConnectionReflects(s, events, c);
      }
    } else {
      EventReflects(s, events, EventsOf(s, a)[0], s');
    }
  }

  lemma Regroup(a: seq<Event>, b: seq<Event>, c: seq<Event>)
    ensures a + b + c == a + (b + c)
  {
  }

  lemma {:induction false} RunReflects(s: State, events: seq<Event>, actions: seq<Action>)
    requires Invariant(s) && Reflects(s, events) && After(s, actions).Some?
    ensures Reflects(After(s, actions).value, events + Trace(s, actions))
    decreases |actions|
  {
    if actions == [] {
      assert events + [] == events;
    } else {
      var e, s' := EventsOf(s, actions[0]), Apply(s, actions[0]);
      StepReflects(s, events, actions[0]);
      StepKeepsInvariant(s, actions[0]);
      RunReflects(s', events + e, actions[1..]);
      Regroup(events, e, Trace(s', actions[1..]));
    }
  }

  /** Over every run: the table has exactly the rows of the transactions that were committed, in
      order, besides those inserted outside of a transaction. What is rolled back, by a call or
      by destroying the object, leaves nothing, and what is still open is on its connection. */
  lemma TableHasCommittedRows(n: nat, actions: seq<Action>, c: nat)
    requires c < n && After(Init(n), actions).Some?
    ensures var s, events := After(Init(n), actions).value, Trace(Init(n), actions);
            && s.table == CommittedRows(events)
            && |s.open| == n
            && s.open[c] == if InTransaction(events, c) then Some(SinceBegin(events, c)) else None
  {
    RunKeepsInvariant(Init(n), actions);
    RunReflects(Init(n), [], actions);
    var s, events := After(Init(n), actions).value, Trace(Init(n), actions);
    assert [] + events == events;
    assert ConnectionReflects(s, events, c);
  }

  // ------------------------------------------------------------------- the main results

  /** A run in which no handle is assigned to while its transaction is open. */
  predicate NothingOverwritten(s: State, actions: seq<Action>)
    requires Shaped(s) && After(s, actions).Some?
    decreases |actions|
  {
    actions == [] ||
    (var a := actions[0];
     ApplyShaped(s, a);
     (a.MoveAssign? && a.dst != a.src ==> s.handles[a.dst].ended) && NothingOverwritten(Apply(s, a), actions[1..]))
  }

  lemma {:induction false} OrphansAreOverwritten(s: State, actions: seq<Action>)
    requires Shaped(s) && After(s, actions).Some?
    ensures |After(s, actions).value.orphans| >= |s.orphans|
    ensures |After(s, actions).value.orphans| == |s.orphans| <==> NothingOverwritten(s, actions)
    decreases |actions|
  {
    if actions != [] {
      ApplyShaped(s, actions[0]);
      OrphansAreOverwritten(Apply(s, actions[0]), actions[1..]);
    }
  }

  /** Over every run: on each connection at most one live handle has not ended, and then the
      connection is in a transaction; every transaction begun has been ended at most once, and
      the one not ended is open. */
  lemma AtMostOneUnended(n: nat, actions: seq<Action>, c: nat)
    requires c < n && After(Init(n), actions).Some?
    ensures var s := After(Init(n), actions).value;
            && |s.open| == |s.begun| == |s.closed| == n
            && Unended(s.handles, c) <= One(s.open[c].Some?)
            && s.begun[c] == s.closed[c] + One(s.open[c].Some?)
  {
    RunKeepsInvariant(Init(n), actions);
    assert ConnectionOk(After(Init(n), actions).value, c);
  }

  lemma NoOrphans(orphans: seq<nat>, n: nat)
    requires forall k :: 0 <= k < |orphans| ==> orphans[k] < n
    ensures orphans == [] <==> forall c: nat :: c < n ==> Orphaned(orphans, c) == 0
  {
    if orphans != [] {
      assert Orphaned(orphans, orphans[|orphans| - 1]) > 0;
    }
  }

  /** Every connection is in a transaction exactly if one live handle on it has not ended: this
      holds after a run if and only if no handle with an open transaction was assigned to. */
  lemma OpenIffUnended(n: nat, actions: seq<Action>)
    requires After(Init(n), actions).Some?
    ensures var s := After(Init(n), actions).value;
            |s.open| == n &&
            ((forall c: nat :: c < n ==> (s.open[c].Some? <==> Unended(s.handles, c) == 1))
             <==> NothingOverwritten(Init(n), actions))
  {
    RunKeepsInvariant(Init(n), actions);
    OrphansAreOverwritten(Init(n), actions);
    var s := After(Init(n), actions).value;
    forall c: nat | c < n ensures (s.open[c].Some? <==> Unended(s.handles, c) == 1) <==> Orphaned(s.orphans, c) == 0 {
      assert ConnectionOk(s, c);
    }
    NoOrphans(s.orphans, n);
  }

  // ------------------------------------------------------------------- a run of real objects

  /** A program with connections to a database and any number of Transaction objects. */
  class Program {
    const db: Database
    const conns: seq<Connection>
    var objects: seq<Transaction>

    constructor (n: nat)
      ensures Represents(Init(n)) && fresh(db) && fresh(conns) && objects == []
    {
      var database := new Database();
      var made: seq<Connection> := [];
      for i := 0 to n
        invariant |made| == i && fresh(made) && fresh(database) && database.table == []
        invariant forall k :: 0 <= k < i ==> made[k].db == database && made[k].open == None
        invariant forall k, l :: 0 <= k < l < i ==> made[k] != made[l]
      {
        var conn := new Connection(database);
        made := made + [conn];
      }
      db, conns, objects := database, made, [];
    }

    /** The objects are in this state. */
    ghost predicate Represents(s: State)
      reads this, db, conns, objects
    {
      && |conns| == |s.open| && db.table == s.table
      && (forall c, d :: 0 <= c < d < |conns| ==> conns[c] != conns[d])
      && (forall c :: 0 <= c < |conns| ==> conns[c].db == db && conns[c].open == s.open[c])
      && |objects| == |s.handles|
      && (forall k, l :: 0 <= k < l < |objects| ==> objects[k] != objects[l])
      && forall k :: 0 <= k < |objects| ==> ObjectIs(objects[k], s.handles[k])
    }

    ghost predicate ObjectIs(o: Transaction, h: Handle)
      reads o
    {
      h.conn < |conns| && o.conn == conns[h.conn] && o.transactionEnded == h.ended
    }

    // Each step of the objects is the step of the state, and succeeds exactly if it says so.

    method DoBegin(c: nat, ok: bool, ghost s: State) returns (r: Result<()>)
      requires Shaped(s) && Enabled(s, Begin(c, ok)) && Represents(s)
      modifies this`objects, db, conns, objects
      ensures Represents(Apply(s, Begin(c, ok))) && (r.Ok? <==> Succeeds(s, Begin(c, ok)))
      ensures |objects| >= |old(objects)| && objects[..|old(objects)|] == old(objects)
      ensures forall k :: |old(objects)| <= k < |objects| ==> fresh(objects[k])
    {
      var begun := BeginOn(conns[c], ok);
      if begun.None? {
        return Error;
      }
      objects := objects + [begun.value];
      return Ok(());
    }

    method DoInsert(c: nat, row: Row, ghost s: State)
      requires Shaped(s) && Enabled(s, Insert(c, row)) && Represents(s)
      modifies this`objects, db, conns, objects
      ensures Represents(Apply(s, Insert(c, row)))
      ensures objects == old(objects)
    {
      conns[c].Insert(row);
    }

    method DoRebegin(t: nat, ok: bool, ghost s: State) returns (r: Result<()>)
      requires Shaped(s) && Enabled(s, Rebegin(t, ok)) && Represents(s)
      modifies this`objects, db, conns, objects
      ensures Represents(Apply(s, Rebegin(t, ok))) && (r.Ok? <==> Succeeds(s, Rebegin(t, ok)))
      ensures objects == old(objects)
    {
      r := objects[t].BeginTransaction(ok);
    }

    method DoCommit(t: nat, ok: bool, ghost s: State) returns (r: Result<()>)
      requires Shaped(s) && Enabled(s, Commit(t, ok)) && Represents(s)
      modifies this`objects, db, conns, objects
      ensures Represents(Apply(s, Commit(t, ok))) && (r.Ok? <==> Succeeds(s, Commit(t, ok)))
      ensures objects == old(objects)
    {
      r := objects[t].Commit(ok);
    }

    method DoRollback(t: nat, ok: bool, ghost s: State) returns (r: Result<()>)
      requires Shaped(s) && Enabled(s, Rollback(t, ok)) && Represents(s)
      modifies this`objects, db, conns, objects
      ensures Represents(Apply(s, Rollback(t, ok))) && (r.Ok? <==> Succeeds(s, Rollback(t, ok)))
      ensures objects == old(objects)
    {
      r := objects[t].Rollback(ok);
    }

    method DoMoveConstruct(t: nat, ghost s: State)
      requires Shaped(s) && Enabled(s, MoveConstruct(t)) && Represents(s)
      modifies this`objects, db, conns, objects
      ensures Represents(Apply(s, MoveConstruct(t)))
      ensures |objects| >= |old(objects)| && objects[..|old(objects)|] == old(objects)
      ensures forall k :: |old(objects)| <= k < |objects| ==> fresh(objects[k])
    {
      var o := new Transaction.MoveFrom(objects[t]);
      objects := objects + [o];
    }

    method DoMoveAssign(dst: nat, src: nat, ghost s: State)
      requires Shaped(s) && Enabled(s, MoveAssign(dst, src)) && Represents(s)
      modifies this`objects, db, conns, objects
      ensures Represents(Apply(s, MoveAssign(dst, src)))
      ensures objects == old(objects)
    {
      objects[dst].MoveAssign(objects[src]);
    }

    method DoDestroy(t: nat, ghost s: State)
      requires Shaped(s) && Enabled(s, Destroy(t)) && Represents(s)
      modifies this`objects, db, conns, objects
      ensures Represents(Apply(s, Destroy(t)))
      ensures objects == old(objects)
    {
      objects[t].Destroy();
    }

    method Do(a: Action, ghost s: State) returns (r: Result<()>)
      requires Shaped(s) && Enabled(s, a) && Represents(s)
      modifies this`objects, db, conns, objects
      ensures Represents(Apply(s, a)) && (r.Ok? <==> Succeeds(s, a))
      ensures |objects| >= |old(objects)| && objects[..|old(objects)|] == old(objects)
      ensures forall k :: |old(objects)| <= k < |objects| ==> fresh(objects[k])
    {
      r := Ok(());
      match a
      case Begin(c, ok) => r := DoBegin(c, ok, s);
      case Insert(c, row) => DoInsert(c, row, s);
      case Rebegin(t, ok) => r := DoRebegin(t, ok, s);
      case Commit(t, ok) => r := DoCommit(t, ok, s);
      case Rollback(t, ok) => r := DoRollback(t, ok, s);
      case MoveConstruct(t) => DoMoveConstruct(t, s);
      case MoveAssign(dst, src) => DoMoveAssign(dst, src, s);
      case Destroy(t) => DoDestroy(t, s);
    }

    /** Hence all that is proved of runs holds of the objects. */
    method Run(actions: seq<Action>, ghost s: State)
      requires Shaped(s) && Represents(s) && After(s, actions).Some?
      modifies this`objects, db, conns, objects
      ensures Represents(After(s, actions).value)
      decreases |actions|
    {
      if actions != [] {
        ApplyShaped(s, actions[0]);
        var _ := Do(actions[0], s);
        Run(actions[1..], Apply(s, actions[0]));
      }
    }
  }

  // ------------------------------------------------------------------- a run that leaves one open

  /** A run and one more step. */
  lemma {:induction false} OneMoreStep(s0: State, before: seq<Action>, s: State, a: Action, s': State)
    requires Shaped(s0) && Shaped(s) && After(s0, before) == Some(s) && Enabled(s, a) && Apply(s, a) == s'
    ensures After(s0, before + [a]) == Some(s')
    decreases |before|
  {
    if before == [] {
      assert [a][1..] == [];
    } else {
      OneMoreStep(Apply(s0, before[0]), before[1..], s, a, s');
      assert (before + [a])[1..] == before[1..] + [a];
    }
  }

  /** Two transactions on two connections; the first object is assigned the second, both are
      destroyed. No object is left, and the first connection is still in its transaction. */
  lemma MoveAssignmentLeavesOpen() returns (actions: seq<Action>)
    ensures After(Init(2), actions).Some?
    ensures var s := After(Init(2), actions).value;
            s.open == [Some([]), None] && forall k :: 0 <= k < |s.handles| ==> !s.handles[k].live
  {
    var first, second := Handle(0, false, true), Handle(1, false, true);
    var ended, gone := Handle(1, true, true), Handle(1, true, false);
    var start := State([], [None, None], [], [], [0, 0], [0, 0]);
    var s1 := State([], [Some([]), None], [first], [], [1, 0], [0, 0]);
    var s2 := State([], [Some([]), Some([])], [first, second], [], [1, 1], [0, 0]);
    assert Init(2) == start;
    OneMoreStep(start, [], start, Begin(0, true), s1);
    OneMoreStep(start, [] + [Begin(0, true)], s1, Begin(1, true), s2);
    actions := AssignAndDestroy(start, [] + [Begin(0, true)] + [Begin(1, true)], s2, first, second, ended, gone);
  }

  lemma AssignAndDestroy(
      start: State, before: seq<Action>, s2: State, first: Handle, second: Handle, ended: Handle, gone: Handle)
    returns (actions: seq<Action>)
    requires first == Handle(0, false, true) && second == Handle(1, false, true)
    requires ended == Handle(1, true, true) && gone == Handle(1, true, false)
    requires s2 == State([], [Some([]), Some([])], [first, second], [], [1, 1], [0, 0])
    requires Shaped(start) && After(start, before) == Some(s2)
    ensures After(start, actions) == Some(State([], [Some([]), None], [gone, gone], [0], [1, 1], [0, 1]))
  {
    var s3 := State([], [Some([]), Some([])], [second, ended], [0], [1, 1], [0, 0]);
    var s4 := State([], [Some([]), None], [gone, ended], [0], [1, 1], [0, 1]);
    var s5 := State([], [Some([]), None], [gone, gone], [0], [1, 1], [0, 1]);
    OneMoreStep(start, before, s2, MoveAssign(0, 1), s3);
    OneMoreStep(start, before + [MoveAssign(0, 1)], s3, Destroy(0), s4);
    OneMoreStep(start, before + [MoveAssign(0, 1)] + [Destroy(0)], s4, Destroy(1), s5);
    actions := before + [MoveAssign(0, 1)] + [Destroy(0)] + [Destroy(1)];
  }
}
