/** The connection pool (include/sqlgen/ConnectionPool.hpp) and the sessions that own its
    connections (include/sqlgen/Session.hpp): the objects themselves, and any interleaving of
    acquiring, moving and destroying. */
module Pool {
  import opened Wrappers
  import opened Numbers

  // ------------------------------------------------------------------- the objects

  class AtomicFlag {
    var value: bool

    constructor ()
      ensures !value
    {
      value := false;
    }

    method TestAndSet() returns (before: bool)
      modifies this
      ensures before == old(value) && value
    {
      before, value := value, true;
    }

    method Clear()
      modifies this
      ensures !value
    {
      value := false;
    }
  }

  class Session {
    var conn: nat
    /** Null for a session that owns nothing. */
    var flag: AtomicFlag?

    constructor (conn_: nat, flag_: AtomicFlag)
      ensures conn == conn_ && flag == flag_
    {
      conn, flag := conn_, flag_;
    }

    /** The move constructor. */
    constructor MoveFrom(other: Session)
      modifies other
      ensures conn == old(other.conn) && flag == old(other.flag) && other.flag == null
    {
      conn, flag := other.conn, other.flag;
      new;
      other.flag := null;
    }

    /** Move assignment; the flag owned before is neither kept nor cleared. */
    method MoveAssign(other: Session)
      modifies this, other
      ensures other == this ==> conn == old(conn) && flag == old(flag)
      ensures other != this ==> conn == old(other.conn) && flag == old(other.flag) && other.flag == null
    {
      if other == this {
        return;
      }
      conn, flag := other.conn, other.flag;
      other.flag := null;
    }

    /** The destructor. */
    method Destroy()
      modifies flag
      ensures old(flag) != null ==> !old(flag).value
    {
      if flag != null {
        flag.Clear();
      }
    }
  }

  datatype Config = Config(size: nat, numAttempts: nat, waitTimeInSeconds: nat)

  const DEFAULT_CONFIG := Config(4, 10, 1)

  /** The values of the flags. */
  function Values(flags: seq<AtomicFlag>): (r: seq<bool>)
    reads flags
    ensures |r| == |flags| && forall i :: 0 <= i < |r| ==> r[i] == flags[i].value
  {
    seq(|flags|, i requires 0 <= i < |flags| reads flags => flags[i].value)
  }

  function CountClear(values: seq<bool>): nat
  {
    if values == [] then 0
    else CountClear(values[..|values| - 1]) + (if values[|values| - 1] then 0 else 1)
  }

  class ConnectionPool {
    const config: Config
    const flags: seq<AtomicFlag>

    ghost predicate Valid()
    {
      config == DEFAULT_CONFIG && forall i, j :: 0 <= i < j < |flags| ==> flags[i] != flags[j]
    }

    /** The configuration decides the number of connections, but it is not stored: config_ keeps
        its defaults. */
    constructor (config_: Config)
      ensures Valid() && |flags| == config_.size
      ensures forall i :: 0 <= i < |flags| ==> fresh(flags[i]) && !flags[i].value
    {
      var made: seq<AtomicFlag> := [];
      for i := 0 to config_.size
        invariant |made| == i && forall k :: 0 <= k < i ==> fresh(made[k]) && !made[k].value
        invariant forall k, l :: 0 <= k < l < i ==> made[k] != made[l]
      {
        var flag := new AtomicFlag();
        made := made + [flag];
      }
      config, flags := DEFAULT_CONFIG, made;
    }

    /** Without interference: the first connection whose flag is clear, or an error if there is
        none, after as many tests as ten attempts take; no other flag changes. */
    method Acquire() returns (r: Option<Session>, ghost tests: nat)
      requires Valid()
      modifies flags
      ensures r.None? ==> tests == 10 * |flags|
      ensures r.None? <==> forall i :: 0 <= i < |flags| ==> old(Values(flags))[i]
      ensures r.None? ==> Values(flags) == old(Values(flags))
      ensures r.Some? ==>
                && fresh(r.value) && r.value.conn < |flags| && r.value.flag == flags[r.value.conn]
                && !old(Values(flags))[r.value.conn]
                && (forall i :: 0 <= i < r.value.conn ==> old(Values(flags))[i])
                && Values(flags) == old(Values(flags))[r.value.conn := true]
    {
      ghost var before := Values(flags);
      tests := 0;
      for att := 0 to config.numAttempts
        invariant tests == att * |flags|
        invariant att > 0 ==> forall i :: 0 <= i < |flags| ==> before[i]
        invariant Values(flags) == before
      {
        for k := 0 to |flags|
          invariant tests == att * |flags| + k
          invariant forall i :: 0 <= i < k ==> before[i]
          invariant Values(flags) == before
        {
          assert flags[k].value == before[k];
          var taken := flags[k].TestAndSet();
          tests := tests + 1;
          OnlyChanged(before, k);
          if !taken {
            var session := new Session(k, flags[k]);
            return Some(session), tests;
          }
        }
      }
      return None, tests;
    }

    lemma OnlyChanged(before: seq<bool>, k: nat)
      requires |before| == |flags| && k < |flags|
      requires forall i :: 0 <= i < |flags| && i != k ==> flags[i].value == before[i]
      ensures Values(flags) == before[k := flags[k].value]
      ensures flags[k].value == before[k] ==> Values(flags) == before
    {
    }

    method Available() returns (count: nat)
      ensures count == CountClear(Values(flags))
    {
      count := 0;
      for i := 0 to |flags|
        invariant count == CountClear(Values(flags)[..i])
      {
        var values := Values(flags);
        assert values[..i + 1][..i] == values[..i];
        count := if flags[i].value then count else count + 1;
      }
      assert Values(flags)[..|flags|] == Values(flags);
    }
  }

  // ------------------------------------------------------------------- interleaved steps

  /** One acquire: about to test flag `ix`, holding a flag it has just set, or over. */
  datatype Acquirer = Scanning(attempt: nat, ix: nat) | Claimed(flag: nat) | Finished | Failed

  /** A session and the flag it owns, if any. */
  datatype Owner = Owner(conn: nat, flag: Option<nat>, live: bool)

  /** dropped is the history of flags that move assignment let go of. The configuration is the
      stored one. */
  datatype State = State(
    config: Config,
    flags: seq<bool>,
    acquirers: seq<Acquirer>,
    sessions: seq<Owner>,
    dropped: seq<nat>)

  datatype Action =
    | Begin
    | Test(a: nat)
    | Construct(a: nat)
    | MoveConstruct(s: nat)
    | MoveAssign(dst: nat, src: nat)
    | Destroy(s: nat)

  /** A pool made with that configuration, of which only the size has an effect. */
  function Init(config: Config): State
  {
    State(DEFAULT_CONFIG, seq(config.size, _ => false), [], [], [])
  }

  /** What an acquire does next, `attempt` attempts being over. */
  function NextAttempt(s: State, attempt: nat): Acquirer
  {
    if attempt < s.config.numAttempts then Scanning(attempt, 0) else Failed
  }

  predicate Live(s: State, k: nat) { k < |s.sessions| && s.sessions[k].live }

  predicate Enabled(s: State, a: Action)
  {
    match a
    case Begin => true
    case Test(k) => k < |s.acquirers| && s.acquirers[k].Scanning?
    case Construct(k) => k < |s.acquirers| && s.acquirers[k].Claimed?
    case MoveConstruct(k) => Live(s, k)
    case MoveAssign(dst, src) => Live(s, dst) && Live(s, src)
    case Destroy(k) => Live(s, k)
  }

  function Apply(s: State, a: Action): State
    requires Enabled(s, a)
  {
    match a
    case Begin => s.(acquirers := s.acquirers + [NextAttempt(s, 0)])
    case Test(k) =>
      var at := s.acquirers[k];
      if at.ix >= |s.flags| then
        s.(acquirers := s.acquirers[k := NextAttempt(s, at.attempt + 1)])
      else if s.flags[at.ix] then s.(acquirers := s.acquirers[k := Scanning(at.attempt, at.ix + 1)])
      else s.(flags := s.flags[at.ix := true], acquirers := s.acquirers[k := Claimed(at.ix)])
    case Construct(k) =>
      var flag := s.acquirers[k].flag;
      s.(acquirers := s.acquirers[k := Finished], sessions := s.sessions + [Owner(flag, Some(flag), true)])
    case MoveConstruct(k) =>
      var o := s.sessions[k];
      s.(sessions := s.sessions[k := o.(flag := None)] + [o])
    case MoveAssign(dst, src) =>
      if dst == src then s
      else
        var o := s.sessions[src];
        s.(sessions := s.sessions[dst := o][src := o.(flag := None)],
           dropped := if s.sessions[dst].flag.Some? then s.dropped + [s.sessions[dst].flag.value] else s.dropped)
    case Destroy(k) =>
      var o := s.sessions[k];
      s.(sessions := s.sessions[k := Owner(o.conn, None, false)],
         flags := if o.flag.Some? && o.flag.value < |s.flags| then s.flags[o.flag.value := false] else s.flags)
  }

  function After(s: State, actions: seq<Action>): Option<State>
    decreases |actions|
  {
    if actions == [] then Some(s)
    else if Enabled(s, actions[0]) then After(Apply(s, actions[0]), actions[1..])
    else None
  }

  // ------------------------------------------------------------------- who holds which flag

  /** How many sessions own flag i. */
  function Owning(sessions: seq<Owner>, i: nat): nat
  {
    if sessions == [] then 0
    else One(sessions[|sessions| - 1].flag == Some(i)) + Owning(sessions[..|sessions| - 1], i)
  }

  /** How many acquires hold flag i, having set it. */
  function Claiming(acquirers: seq<Acquirer>, i: nat): nat
  {
    if acquirers == [] then 0
    else One(acquirers[|acquirers| - 1] == Claimed(i)) + Claiming(acquirers[..|acquirers| - 1], i)
  }

  function Dropped(dropped: seq<nat>, i: nat): nat
  {
    if dropped == [] then 0 else One(dropped[|dropped| - 1] == i) + Dropped(dropped[..|dropped| - 1], i)
  }

  /** Flag i is set if it is owned by a session, claimed by an acquire or dropped, by exactly
      one of them; and clear if by none. */
  ghost predicate HeldOnce(s: State, i: nat)
  {
    One(i < |s.flags| && s.flags[i]) == Owning(s.sessions, i) + Claiming(s.acquirers, i) + Dropped(s.dropped, i)
  }

  /** Only live sessions own a flag, and it is that of their connection. */
  predicate OwnsConn(o: Owner) { o.live && o.flag == Some(o.conn) }

  predicate OwnersOk(sessions: seq<Owner>)
  {
    forall k :: 0 <= k < |sessions| && sessions[k].flag.Some? ==> OwnsConn(sessions[k])
  }

  ghost predicate Invariant(s: State)
  {
    OwnersOk(s.sessions) && forall i: nat :: HeldOnce(s, i)
  }

  lemma {:induction false} OwningUpdate(sessions: seq<Owner>, k: nat, o: Owner, i: nat)
    requires k < |sessions|
    ensures Owning(sessions[k := o], i) + One(sessions[k].flag == Some(i))
         == Owning(sessions, i) + One(o.flag == Some(i))
  {
    var n := |sessions| - 1;
    if k == n {
      assert sessions[k := o][..n] == sessions[..n];
    } else {
      OwningUpdate(sessions[..n], k, o, i);
      assert sessions[k := o][..n] == sessions[..n][k := o];
    }
  }

  lemma OwningSnoc(sessions: seq<Owner>, o: Owner, i: nat)
    ensures Owning(sessions + [o], i) == Owning(sessions, i) + One(o.flag == Some(i))
  {
    assert (sessions + [o])[..|sessions|] == sessions;
  }

  lemma OwnerCounts(sessions: seq<Owner>, k: nat, i: nat)
    requires k < |sessions| && sessions[k].flag == Some(i)
    ensures Owning(sessions, i) >= 1
  {
    OwningUpdate(sessions, k, sessions[k].(flag := None), i);
  }

  lemma {:induction false} ClaimingUpdate(acquirers: seq<Acquirer>, k: nat, a: Acquirer, i: nat)
    requires k < |acquirers|
    ensures Claiming(acquirers[k := a], i) + One(acquirers[k] == Claimed(i))
         == Claiming(acquirers, i) + One(a == Claimed(i))
  {
    var n := |acquirers| - 1;
    if k == n {
      assert acquirers[k := a][..n] == acquirers[..n];
    } else {
      ClaimingUpdate(acquirers[..n], k, a, i);
      assert acquirers[k := a][..n] == acquirers[..n][k := a];
    }
  }

  lemma ClaimingSnoc(acquirers: seq<Acquirer>, a: Acquirer, i: nat)
    ensures Claiming(acquirers + [a], i) == Claiming(acquirers, i) + One(a == Claimed(i))
  {
    assert (acquirers + [a])[..|acquirers|] == acquirers;
  }

  lemma DroppedSnoc(dropped: seq<nat>, x: nat, i: nat)
    ensures Dropped(dropped + [x], i) == Dropped(dropped, i) + One(x == i)
  {
    assert (dropped + [x])[..|dropped|] == dropped;
  }

  // ------------------------------------------------------------------- what every run keeps

  /** One step, seen from one flag. */
  lemma StepHoldsOnce(s: State, a: Action, i: nat)
    requires Enabled(s, a) && OwnersOk(s.sessions) && forall f: nat :: HeldOnce(s, f)
    ensures HeldOnce(Apply(s, a), i)
  {
    assert HeldOnce(s, i);
    var s' := Apply(s, a);
    match a
    case Begin => ClaimingSnoc(s.acquirers, NextAttempt(s, 0), i);
    case Test(k) =>
      ClaimingUpdate(s.acquirers, k, s'.acquirers[k], i);
    case Construct(k) =>
      ClaimingUpdate(s.acquirers, k, Finished, i);
      OwningSnoc(s.sessions, s'.sessions[|s.sessions|], i);
    case MoveConstruct(k) =>
      var o := s.sessions[k];
      OwningUpdate(s.sessions, k, o.(flag := None), i);
      OwningSnoc(s.sessions[k := o.(flag := None)], o, i);
    case MoveAssign(dst, src) => MoveAssignHoldsOnce(s, dst, src, i);
    case Destroy(k) => DestroyHoldsOnce(s, k, i);
  }

  lemma DestroyHoldsOnce(s: State, k: nat, i: nat)
    requires Enabled(s, Destroy(k)) && HeldOnce(s, i)
    requires forall f: nat :: HeldOnce(s, f)
    ensures HeldOnce(Apply(s, Destroy(k)), i)
  {
    var o := s.sessions[k];
    OwningUpdate(s.sessions, k, Owner(o.conn, None, false), i);
    if o.flag == Some(i) {
      OwnerCounts(s.sessions, k, i);
    }
  }

  lemma MoveAssignHoldsOnce(s: State, dst: nat, src: nat, i: nat)
    requires Enabled(s, MoveAssign(dst, src)) && HeldOnce(s, i)
    ensures HeldOnce(Apply(s, MoveAssign(dst, src)), i)
  {
    if dst != src {
      var o := s.sessions[src];
      OwningUpdate(s.sessions, dst, o, i);
      OwningUpdate(s.sessions[dst := o], src, o.(flag := None), i);
      if s.sessions[dst].flag.Some? {
        DroppedSnoc(s.dropped, s.sessions[dst].flag.value, i);
      }
    }
  }

  lemma StepKeepsInvariant(s: State, a: Action)
    requires Invariant(s) && Enabled(s, a)
    ensures Invariant(Apply(s, a)) && |Apply(s, a).flags| == |s.flags|
  {
    forall i: nat ensures HeldOnce(Apply(s, a), i) {
      StepHoldsOnce(s, a, i);
    }
    assert OwnersOk(Apply(s, a).sessions);
  }

  lemma {:induction false} RunKeepsInvariant(s: State, actions: seq<Action>)
    requires Invariant(s) && After(s, actions).Some?
    ensures Invariant(After(s, actions).value) && |After(s, actions).value.flags| == |s.flags|
    decreases |actions|
  {
    if actions != [] {
      StepKeepsInvariant(s, actions[0]);
      RunKeepsInvariant(Apply(s, actions[0]), actions[1..]);
    }
  }

  // ------------------------------------------------------------------- the main results

  lemma TwoOwners(sessions: seq<Owner>, i: nat, j: nat, f: nat)
    requires i < j < |sessions| && sessions[i].flag == sessions[j].flag == Some(f)
    ensures Owning(sessions, f) >= 2
  {
    var without := sessions[i := sessions[i].(flag := None)];
    OwningUpdate(sessions, i, sessions[i].(flag := None), f);
    OwnerCounts(without, j, f);
  }

  /** Whatever the interleaving, no two sessions own the same connection, and the flag of an
      owned connection is set. */
  lemma OwnershipIsExclusive(config: Config, actions: seq<Action>)
    requires After(Init(config), actions).Some?
    ensures var s := After(Init(config), actions).value;
            && |s.flags| == config.size
            && (forall i, j :: 0 <= i < j < |s.sessions| && s.sessions[i].flag.Some? && s.sessions[j].flag.Some?
                  ==> s.sessions[i].conn != s.sessions[j].conn)
            && forall i :: 0 <= i < |s.sessions| && s.sessions[i].flag.Some?
                  ==> OwnsConn(s.sessions[i]) && s.sessions[i].conn < config.size && s.flags[s.sessions[i].conn]
  {
    RunKeepsInvariant(Init(config), actions);
    var s := After(Init(config), actions).value;
    forall i | 0 <= i < |s.sessions| && s.sessions[i].flag.Some?
      ensures s.sessions[i].conn < config.size && s.flags[s.sessions[i].conn]
    {
      OwnerCounts(s.sessions, i, s.sessions[i].conn);
      assert HeldOnce(s, s.sessions[i].conn);
    }
    forall i, j | 0 <= i < j < |s.sessions| && s.sessions[i].flag.Some? && s.sessions[j].flag.Some?
      ensures s.sessions[i].conn != s.sessions[j].conn
    {
      assert HeldOnce(s, s.sessions[i].conn);
      if s.sessions[i].conn == s.sessions[j].conn {
        TwoOwners(s.sessions, i, j, s.sessions[i].conn);
      }
    }
  }

  // How many flags below n are held, counted by holder.

  predicate Below(flag: Option<nat>, n: nat) { flag.Some? && flag.value < n }

  function OwningBelow(sessions: seq<Owner>, n: nat): nat
  {
    if sessions == [] then 0
    else One(Below(sessions[|sessions| - 1].flag, n)) + OwningBelow(sessions[..|sessions| - 1], n)
  }

  function ClaimingBelow(acquirers: seq<Acquirer>, n: nat): nat
  {
    if acquirers == [] then 0
    else
      var a := acquirers[|acquirers| - 1];
      One(a.Claimed? && a.flag < n) + ClaimingBelow(acquirers[..|acquirers| - 1], n)
  }

  function DroppedBelow(dropped: seq<nat>, n: nat): nat
  {
    if dropped == [] then 0 else One(dropped[|dropped| - 1] < n) + DroppedBelow(dropped[..|dropped| - 1], n)
  }

  lemma {:induction false} OneMoreFlag(sessions: seq<Owner>, acquirers: seq<Acquirer>, dropped: seq<nat>, n: nat)
    ensures OwningBelow(sessions, n + 1) == OwningBelow(sessions, n) + Owning(sessions, n)
    ensures ClaimingBelow(acquirers, n + 1) == ClaimingBelow(acquirers, n) + Claiming(acquirers, n)
    ensures DroppedBelow(dropped, n + 1) == DroppedBelow(dropped, n) + Dropped(dropped, n)
    decreases |sessions| + |acquirers| + |dropped|
  {
    if sessions != [] {
      OneMoreFlag(sessions[..|sessions| - 1], acquirers, dropped, n);
    } else if acquirers != [] {
      OneMoreFlag(sessions, acquirers[..|acquirers| - 1], dropped, n);
    } else if dropped != [] {
      OneMoreFlag(sessions, acquirers, dropped[..|dropped| - 1], n);
    }
  }

  lemma {:induction false} NoneBelowZero(sessions: seq<Owner>, acquirers: seq<Acquirer>, dropped: seq<nat>)
    ensures OwningBelow(sessions, 0) == ClaimingBelow(acquirers, 0) == DroppedBelow(dropped, 0) == 0
    decreases |sessions| + |acquirers| + |dropped|
  {
    if sessions != [] {
      NoneBelowZero(sessions[..|sessions| - 1], acquirers, dropped);
    } else if acquirers != [] {
      NoneBelowZero(sessions, acquirers[..|acquirers| - 1], dropped);
    } else if dropped != [] {
      NoneBelowZero(sessions, acquirers, dropped[..|dropped| - 1]);
    }
  }

  lemma {:induction false} CountByHolder(s: State, n: nat)
    requires n <= |s.flags| && forall i: nat :: HeldOnce(s, i)
    ensures CountClear(s.flags[..n]) + OwningBelow(s.sessions, n) + ClaimingBelow(s.acquirers, n)
         + DroppedBelow(s.dropped, n) == n
  {
    if n == 0 {
      NoneBelowZero(s.sessions, s.acquirers, s.dropped);
    } else {
      CountByHolder(s, n - 1);
      OneMoreFlag(s.sessions, s.acquirers, s.dropped, n - 1);
      assert HeldOnce(s, n - 1);
      assert s.flags[..n][..n - 1] == s.flags[..n - 1];
    }
  }

  /** The flags given up by the move assignments of a run. */
  function Overwritten(s: State, actions: seq<Action>): nat
    requires After(s, actions).Some?
    decreases |actions|
  {
    if actions == [] then 0
    else
      var a := actions[0];
      One(a.MoveAssign? && a.dst != a.src && s.sessions[a.dst].flag.Some?) + Overwritten(Apply(s, a), actions[1..])
  }

  lemma {:induction false} DroppedIsOverwritten(s: State, actions: seq<Action>)
    requires After(s, actions).Some?
    ensures |After(s, actions).value.dropped| == |s.dropped| + Overwritten(s, actions)
    decreases |actions|
  {
    if actions != [] {
      DroppedIsOverwritten(Apply(s, actions[0]), actions[1..]);
    }
  }

  lemma {:induction false} AllDroppedBelow(dropped: seq<nat>, n: nat)
    requires forall i: nat :: Dropped(dropped, i) > 0 ==> i < n
    ensures DroppedBelow(dropped, n) == |dropped|
  {
    if dropped != [] {
      var before, last := dropped[..|dropped| - 1], dropped[|dropped| - 1];
      assert Dropped(dropped, last) > 0;
      forall i: nat ensures Dropped(before, i) > 0 ==> i < n {
        assert Dropped(dropped, i) >= Dropped(before, i);
      }
      AllDroppedBelow(before, n);
    }
  }

  /** available() whatever the interleaving: all connections but those owned by a session,
      those an acquire is about to hand out, and those lost for good when a session that owned
      one was assigned another. */
  lemma AvailableIsExact(config: Config, actions: seq<Action>)
    requires After(Init(config), actions).Some?
    ensures var s := After(Init(config), actions).value;
            CountClear(s.flags) + OwningBelow(s.sessions, config.size) + ClaimingBelow(s.acquirers, config.size)
            + Overwritten(Init(config), actions) == config.size
  {
    RunKeepsInvariant(Init(config), actions);
    DroppedIsOverwritten(Init(config), actions);
    var s := After(Init(config), actions).value;
    CountByHolder(s, config.size);
    assert s.flags[..config.size] == s.flags;
    forall i: nat ensures Dropped(s.dropped, i) > 0 ==> i < config.size {
      assert HeldOnce(s, i);
    }
    AllDroppedBelow(s.dropped, config.size);
  }

  // ------------------------------------------------------------------- how often acquire tries

  /** How many flags acquire k tests in the course of the run. */
  function FlagTests(s: State, actions: seq<Action>, k: nat): nat
    requires After(s, actions).Some?
    decreases |actions|
  {
    if actions == [] then 0
    else
      One(actions[0] == Test(k) && s.acquirers[k].ix < |s.flags|) + FlagTests(Apply(s, actions[0]), actions[1..], k)
  }

  /** How often acquire k gets to the end of the flags. */
  function Passes(s: State, actions: seq<Action>, k: nat): nat
    requires After(s, actions).Some?
    decreases |actions|
  {
    if actions == [] then 0
    else
      One(actions[0] == Test(k) && s.acquirers[k].ix >= |s.flags|) + Passes(Apply(s, actions[0]), actions[1..], k)
  }

  /** The passes and tests that acquire k has behind it. */
  function PassesOf(s: State, k: nat): nat
  {
    if k >= |s.acquirers| then 0
    else
      match s.acquirers[k]
      case Scanning(attempt, _) => attempt
      case Failed => s.config.numAttempts
      case _ => 0
  }

  function TestsOf(s: State, k: nat): nat
  {
    PassesOf(s, k) * |s.flags| + (if k < |s.acquirers| && s.acquirers[k].Scanning? then s.acquirers[k].ix else 0)
  }

  /** Attempts are within the stored number, and tests within the flags. */
  predicate AttemptsOk(s: State)
  {
    forall k :: 0 <= k < |s.acquirers| && s.acquirers[k].Scanning? ==>
      s.acquirers[k].attempt < s.config.numAttempts && s.acquirers[k].ix <= |s.flags|
  }

  /** Acquire k has no connection. */
  predicate Empty(s: State, k: nat)
  {
    k < |s.acquirers| ==> s.acquirers[k].Scanning? || s.acquirers[k].Failed?
  }

  lemma StepCounts(s: State, a: Action, k: nat)
    requires Enabled(s, a) && AttemptsOk(s)
    ensures var s' := Apply(s, a);
            && AttemptsOk(s') && s'.config == s.config && |s'.flags| == |s.flags| && (Empty(s', k) ==> Empty(s, k))
            && (Empty(s', k) ==>
                PassesOf(s', k) == PassesOf(s, k) + One(a == Test(k) && s.acquirers[k].ix >= |s.flags|))
            && (Empty(s', k) ==> TestsOf(s', k) == TestsOf(s, k) + One(a == Test(k) && s.acquirers[k].ix < |s.flags|))
  {
  }

  lemma {:induction false} RunCounts(s: State, actions: seq<Action>, k: nat)
    requires AttemptsOk(s) && After(s, actions).Some?
    ensures var s' := After(s, actions).value;
            && s'.config == s.config && |s'.flags| == |s.flags| && (Empty(s', k) ==> Empty(s, k))
            && (Empty(s', k) ==> PassesOf(s', k) == PassesOf(s, k) + Passes(s, actions, k))
            && (Empty(s', k) ==> TestsOf(s', k) == TestsOf(s, k) + FlagTests(s, actions, k))
    decreases |actions|
  {
    if actions != [] {
      StepCounts(s, actions[0], k);
      RunCounts(Apply(s, actions[0]), actions[1..], k);
    }
  }

  /** Whatever the interleaving: an acquire that ends without a connection has gone through all
      flags exactly ten times, hence as often as configured exactly if that is ten. */
  lemma FailedAcquireTriedTenTimes(config: Config, actions: seq<Action>, k: nat)
    requires After(Init(config), actions).Some?
    requires k < |After(Init(config), actions).value.acquirers|
    requires After(Init(config), actions).value.acquirers[k].Failed?
    ensures Passes(Init(config), actions, k) == 10
    ensures FlagTests(Init(config), actions, k) == 10 * config.size
    ensures Passes(Init(config), actions, k) == config.numAttempts <==> config.numAttempts == 10
  {
    RunCounts(Init(config), actions, k);
  }

  // ------------------------------------------------------------------- a run of real objects

  /** A program with a pool, any number of sessions, and threads that each run an acquire, of
      which `acquirers` says how far they have got. */
  class Program {
    const pool: ConnectionPool
    var acquirers: seq<Acquirer>
    var sessions: seq<Session>

    constructor (config: Config)
      ensures Represents(Init(config)) && fresh(pool.flags) && sessions == []
    {
      var made := new ConnectionPool(config);
      pool, acquirers, sessions := made, [], [];
    }

    /** The objects are in this state. */
    ghost predicate Represents(s: State)
      reads this, sessions, pool.flags
    {
      && pool.Valid() && s.config == pool.config && acquirers == s.acquirers
      && Values(pool.flags) == s.flags && SessionsAre(s.sessions)
    }

    ghost predicate SessionsAre(owners: seq<Owner>)
      reads this`sessions, sessions
    {
      && |sessions| == |owners|
      && (forall k, l :: 0 <= k < l < |sessions| ==> sessions[k] != sessions[l])
      && forall k :: 0 <= k < |sessions| && owners[k].live ==> SessionIs(sessions[k], owners[k])
    }

    /** What connection a moved session still names does not matter. */
    ghost predicate SessionIs(session: Session, o: Owner)
      reads session
    {
      && (o.flag.Some? ==>
            && session.conn == o.conn && o.flag.value < |pool.flags|
            && session.flag == pool.flags[o.flag.value])
      && (o.flag.None? ==> session.flag == null)
    }

    // Each step of the objects is the step of the state.

    method DoTest(k: nat, ghost s: State)
      requires Enabled(s, Test(k)) && Represents(s)
      modifies this`acquirers, pool.flags
      ensures Represents(Apply(s, Test(k))) && sessions == old(sessions)
    {
      var at := acquirers[k];
      if at.ix >= |pool.flags| {
        var next := at.attempt + 1;
        acquirers := acquirers[k := if next < pool.config.numAttempts then Scanning(next, 0) else Failed];
        return;
      }
      var taken := pool.flags[at.ix].TestAndSet();
      pool.OnlyChanged(s.flags, at.ix);
      acquirers := acquirers[k := if taken then Scanning(at.attempt, at.ix + 1) else Claimed(at.ix)];
    }

    /** Keeps the session that acquire k has made. */
    method Keep(session: Session, k: nat, ghost s: State)
      requires Enabled(s, Construct(k)) && Represents(s) && session !in sessions
      requires SessionIs(session, Owner(acquirers[k].flag, Some(acquirers[k].flag), true))
      modifies this`acquirers, this`sessions
      ensures Represents(Apply(s, Construct(k))) && sessions == old(sessions) + [session]
    {
      acquirers, sessions := acquirers[k := Finished], sessions + [session];
    }

    method DoConstruct(k: nat, ghost s: State)
      requires Invariant(s) && Enabled(s, Construct(k)) && Represents(s)
      modifies this`acquirers, this`sessions
      ensures Represents(Apply(s, Construct(k)))
      ensures |sessions| == |old(sessions)| + 1 && sessions[..|old(sessions)|] == old(sessions)
      ensures fresh(sessions[|old(sessions)|])
    {
      assert HeldOnce(s, acquirers[k].flag);
      ClaimCounts(acquirers, k, acquirers[k].flag);
      var session := new Session(acquirers[k].flag, pool.flags[acquirers[k].flag]);
      Keep(session, k, s);
    }

    method DoMoveConstruct(k: nat, ghost s: State)
      requires Enabled(s, MoveConstruct(k)) && Represents(s)
      modifies this`sessions, sessions
      ensures Represents(Apply(s, MoveConstruct(k)))
      ensures |sessions| == |old(sessions)| + 1 && sessions[..|old(sessions)|] == old(sessions)
      ensures fresh(sessions[|old(sessions)|])
    {
      var session := new Session.MoveFrom(sessions[k]);
      sessions := sessions + [session];
    }

    method DoMoveAssign(dst: nat, src: nat, ghost s: State)
      requires Enabled(s, MoveAssign(dst, src)) && Represents(s)
      modifies sessions
      ensures Represents(Apply(s, MoveAssign(dst, src))) && sessions == old(sessions)
    {
      sessions[dst].MoveAssign(sessions[src]);
    }

    method DoDestroy(k: nat, ghost s: State)
      requires Enabled(s, Destroy(k)) && Represents(s)
      modifies pool.flags
      ensures Represents(Apply(s, Destroy(k))) && sessions == old(sessions)
    {
      sessions[k].Destroy();
      if s.sessions[k].flag.Some? {
        pool.OnlyChanged(s.flags, s.sessions[k].flag.value);
      }
    }

    method Do(a: Action, ghost s: State)
      requires Invariant(s) && Enabled(s, a) && Represents(s)
      modifies this, sessions, pool.flags
      ensures Represents(Apply(s, a))
      ensures |sessions| >= |old(sessions)| && sessions[..|old(sessions)|] == old(sessions)
      ensures forall k :: |old(sessions)| <= k < |sessions| ==> fresh(sessions[k])
    {
      match a
      case Begin => acquirers := acquirers + [if 0 < pool.config.numAttempts then Scanning(0, 0) else Failed];
      case Test(k) => DoTest(k, s);
      case Construct(k) => DoConstruct(k, s);
      case MoveConstruct(k) => DoMoveConstruct(k, s);
      case MoveAssign(dst, src) => DoMoveAssign(dst, src, s);
      case Destroy(k) => DoDestroy(k, s);
    }

    /** Hence all that is proved of runs holds of the objects. */
    method Run(actions: seq<Action>, ghost s: State)
      requires Invariant(s) && Represents(s) && After(s, actions).Some?
      modifies this, sessions, pool.flags
      ensures Represents(After(s, actions).value)
      decreases |actions|
    {
      if actions != [] {
        StepKeepsInvariant(s, actions[0]);
        Do(actions[0], s);
        Run(actions[1..], Apply(s, actions[0]));
      }
    }

    /** acquire() without interference: takes the first clear flag. */
    method Claim(ghost s: State) returns (session: Option<Session>)
      requires Represents(s)
      modifies this`acquirers, pool.flags
      ensures sessions == old(sessions)
      ensures session.None? ==> FirstClear(s.flags) == |s.flags| && Represents(s.(acquirers := s.acquirers + [Failed]))
      ensures session.Some? ==>
                var i := FirstClear(s.flags);
                && i < |s.flags| && fresh(session.value) && SessionIs(session.value, Owner(i, Some(i), true))
                && Represents(s.(flags := s.flags[i := true], acquirers := s.acquirers + [Claimed(i)]))
    {
      ghost var tests;
      session, tests := pool.Acquire();
      FirstClearIs(s.flags, if session.Some? then session.value.conn else |s.flags|);
      acquirers := acquirers + [if session.Some? then Claimed(session.value.conn) else Failed];
    }

    /** And keeps its session, if there is one. */
    method AcquireOne(ghost s: State) returns (session: Option<Session>)
      requires Represents(s)
      modifies this, pool.flags
      ensures Represents(Acquired(s))
      ensures sessions == if session.Some? then old(sessions) + [session.value] else old(sessions)
    {
      session := Claim(s);
      if session.Some? {
        ghost var i := FirstClear(s.flags);
        ghost var claimed := s.(flags := s.flags[i := true], acquirers := s.acquirers + [Claimed(i)]);
        assert claimed.acquirers[|s.acquirers| := Finished] == s.acquirers + [Finished];
        Keep(session.value, |acquirers| - 1, claimed);
      }
    }

    /** It is a run of its own steps. */
    method Acquire(ghost s: State) returns (session: Option<Session>, ghost actions: seq<Action>)
      requires Represents(s)
      modifies this, pool.flags
      ensures After(s, actions).Some? && Represents(After(s, actions).value)
      ensures sessions == if session.Some? then old(sessions) + [session.value] else old(sessions)
    {
      actions := AcquireAlone(s);
      session := AcquireOne(s);
    }
  }

  lemma ClaimCounts(acquirers: seq<Acquirer>, k: nat, i: nat)
    requires k < |acquirers| && acquirers[k] == Claimed(i)
    ensures Claiming(acquirers, i) >= 1
  {
    ClaimingUpdate(acquirers, k, Finished, i);
  }

  /** The first clear flag, or the number of flags if there is none. */
  function FirstClear(flags: seq<bool>): nat
  {
    if flags == [] || !flags[0] then 0 else 1 + FirstClear(flags[1..])
  }

  lemma {:induction false} FirstClearIs(flags: seq<bool>, i: nat)
    requires i <= |flags| && (forall k :: 0 <= k < i ==> flags[k]) && (i < |flags| ==> !flags[i])
    ensures FirstClear(flags) == i
  {
    if i > 0 {
      FirstClearIs(flags[1..], i - 1);
    }
  }

  lemma {:induction false} FirstClearIsSet(flags: seq<bool>)
    ensures FirstClear(flags) <= |flags| && (FirstClear(flags) < |flags| ==> !flags[FirstClear(flags)])
    ensures forall k :: 0 <= k < FirstClear(flags) ==> flags[k]
  {
    if flags != [] && flags[0] {
      FirstClearIsSet(flags[1..]);
      assert forall k :: 1 <= k < |flags| ==> flags[k] == flags[1..][k - 1];
    }
  }

  /** The state after an acquire that no other step interferes with. */
  function Acquired(s: State): State
  {
    var i := FirstClear(s.flags);
    if i >= |s.flags| then s.(acquirers := s.acquirers + [Failed])
    else
      s.(flags := s.flags[i := true], acquirers := s.acquirers + [Finished],
         sessions := s.sessions + [Owner(i, Some(i), true)])
  }

  /** Its last steps, from a test on. */
  lemma {:induction false} ScanAlone(s: State, attempt: nat, ix: nat) returns (actions: seq<Action>)
    requires attempt < s.config.numAttempts && ix <= FirstClear(s.flags)
    ensures After(s.(acquirers := s.acquirers + [Scanning(attempt, ix)]), actions) == Some(Acquired(s))
    decreases s.config.numAttempts - attempt, FirstClear(s.flags) - ix
  {
    FirstClearIsSet(s.flags);
    var k, i := |s.acquirers|, FirstClear(s.flags);
    var now := s.(acquirers := s.acquirers + [Scanning(attempt, ix)]);
    if ix < i {
      actions := ScanAlone(s, attempt, ix + 1);
      var next := s.(acquirers := s.acquirers + [Scanning(attempt, ix + 1)]);
      assert now.acquirers[k := Scanning(attempt, ix + 1)] == next.acquirers;
      FirstStep(now, Test(k), next, actions);
      actions := [Test(k)] + actions;
    } else if i == |s.flags| {
      var rest: seq<Action> := [];
      if attempt + 1 < s.config.numAttempts {
        rest := ScanAlone(s, attempt + 1, 0);
      }
      var next := s.(acquirers := s.acquirers + [NextAttempt(s, attempt + 1)]);
      assert now.acquirers[k := NextAttempt(s, attempt + 1)] == next.acquirers;
      FirstStep(now, Test(k), next, rest);
      actions := [Test(k)] + rest;
    } else {
      actions := ClaimAlone(s, now, k, i);
    }
  }

  lemma FirstStep(s: State, a: Action, s': State, actions: seq<Action>)
    requires Enabled(s, a) && Apply(s, a) == s'
    ensures After(s, [a] + actions) == After(s', actions)
  {
    assert ([a] + actions)[1..] == actions;
  }

  lemma ClaimAlone(s: State, now: State, k: nat, i: nat) returns (actions: seq<Action>)
    requires i == FirstClear(s.flags) < |s.flags| && !s.flags[i] && k == |s.acquirers|
    requires exists attempt :: now == s.(acquirers := s.acquirers + [Scanning(attempt, i)])
    ensures After(now, actions) == Some(Acquired(s))
  {
    var claimed := s.(flags := s.flags[i := true], acquirers := s.acquirers + [Claimed(i)]);
    assert now.acquirers[k := Claimed(i)] == claimed.acquirers;
    assert claimed.acquirers[k := Finished] == s.acquirers + [Finished];
    FirstStep(claimed, Construct(k), Acquired(s), []);
    FirstStep(now, Test(k), claimed, [Construct(k)]);
    assert [Construct(k)] + [] == [Construct(k)];
    actions := [Test(k)] + [Construct(k)];
  }

  lemma AcquireAlone(s: State) returns (actions: seq<Action>)
    requires s.config == DEFAULT_CONFIG
    ensures After(s, actions) == Some(Acquired(s))
  {
    var rest := ScanAlone(s, 0, 0);
    FirstStep(s, Begin, s.(acquirers := s.acquirers + [Scanning(0, 0)]), rest);
    actions := [Begin] + rest;
  }

  // ------------------------------------------------------------------- a run that loses one

  /** A run and one more step. */
  lemma {:induction false} OneMoreStep(s0: State, before: seq<Action>, s: State, a: Action, s': State)
    requires After(s0, before) == Some(s) && Enabled(s, a) && Apply(s, a) == s'
    ensures After(s0, before + [a]) == Some(s')
    decreases |before|
  {
    if before == [] {
      assert [a][1..] == [];
    } else {
      OneMoreStep(Apply(s0, before[0]), before[1..], s, a, s');
      assert (before + [a])[1..] == before[1..] + [a];
    }
  }

  const TWO := Config(2, 10, 1)

  lemma TwoSessions() returns (actions: seq<Action>)
    ensures After(Init(TWO), actions)
         == Some(State(DEFAULT_CONFIG, [true, true], [Finished, Finished],
             [Owner(0, Some(0), true), Owner(1, Some(1), true)], []))
  {
    var first, second := Owner(0, Some(0), true), Owner(1, Some(1), true);
    var start := State(DEFAULT_CONFIG, [false, false], [], [], []);
    assert Init(TWO) == start;
    var s1 := State(DEFAULT_CONFIG, [false, false], [Scanning(0, 0)], [], []);
    var s2 := State(DEFAULT_CONFIG, [true, false], [Claimed(0)], [], []);
    var s3 := State(DEFAULT_CONFIG, [true, false], [Finished], [first], []);
    OneMoreStep(start, [], start, Begin, s1);
    OneMoreStep(start, [] + [Begin], s1, Test(0), s2);
    OneMoreStep(start, [] + [Begin] + [Test(0)], s2, Construct(0), s3);
    actions := [] + [Begin] + [Test(0)] + [Construct(0)];
    actions := SecondSession(start, actions, s3, first, second);
  }

  lemma SecondSession(start: State, before: seq<Action>, s3: State, first: Owner, second: Owner)
    returns (actions: seq<Action>)
    requires first == Owner(0, Some(0), true) && second == Owner(1, Some(1), true)
    requires s3 == State(DEFAULT_CONFIG, [true, false], [Finished], [first], []) && After(start, before) == Some(s3)
    ensures After(start, actions)
         == Some(State(DEFAULT_CONFIG, [true, true], [Finished, Finished], [first, second], []))
  {
    var s4 := State(DEFAULT_CONFIG, [true, false], [Finished, Scanning(0, 0)], [first], []);
    var s5 := State(DEFAULT_CONFIG, [true, false], [Finished, Scanning(0, 1)], [first], []);
    var s6 := State(DEFAULT_CONFIG, [true, true], [Finished, Claimed(1)], [first], []);
    var s7 := State(DEFAULT_CONFIG, [true, true], [Finished, Finished], [first, second], []);
    OneMoreStep(start, before, s3, Begin, s4);
    OneMoreStep(start, before + [Begin], s4, Test(1), s5);
    OneMoreStep(start, before + [Begin] + [Test(1)], s5, Test(1), s6);
    OneMoreStep(start, before + [Begin] + [Test(1)] + [Test(1)], s6, Construct(1), s7);
    actions := before + [Begin] + [Test(1)] + [Test(1)] + [Construct(1)];
  }

  /** A pool of two: two sessions, the first is assigned the second, both are destroyed. No
      session is left, and one connection is never free again. */
  lemma MoveAssignmentLosesConnection() returns (actions: seq<Action>)
    ensures After(Init(TWO), actions).Some?
    ensures var s := After(Init(TWO), actions).value;
            CountClear(s.flags) == 1 && forall k :: 0 <= k < |s.sessions| ==> !s.sessions[k].live
  {
    var before := TwoSessions();
    var first, second := Owner(0, Some(0), true), Owner(1, Some(1), true);
    var none, gone := Owner(1, None, true), Owner(1, None, false);
    var s7 := State(DEFAULT_CONFIG, [true, true], [Finished, Finished], [first, second], []);
    var s8 := State(DEFAULT_CONFIG, [true, true], [Finished, Finished], [second, none], [0]);
    var s9 := State(DEFAULT_CONFIG, [true, false], [Finished, Finished], [gone, none], [0]);
    var s10 := State(DEFAULT_CONFIG, [true, false], [Finished, Finished], [gone, gone], [0]);
    OneMoreStep(Init(TWO), before, s7, MoveAssign(0, 1), s8);
    OneMoreStep(Init(TWO), before + [MoveAssign(0, 1)], s8, Destroy(0), s9);
    OneMoreStep(Init(TWO), before + [MoveAssign(0, 1)] + [Destroy(0)], s9, Destroy(1), s10);
    actions := before + [MoveAssign(0, 1)] + [Destroy(0)] + [Destroy(1)];
    assert [true, false][..1] == [true] && [true][..0] == [];
    assert CountClear([true]) == 0;
  }

  // ------------------------------------------------------------------- a run that tries too often

  const FIVE_ATTEMPTS := Config(1, 5, 1)

  /** A pool of one whose connection is taken, and the second acquire before an attempt. */
  function Waiting(attempt: nat): State
  {
    State(DEFAULT_CONFIG, [true], [Finished, if attempt < 10 then Scanning(attempt, 0) else Failed],
          [Owner(0, Some(0), true)], [])
  }

  lemma {:induction false} AttemptsGoOn(attempt: nat) returns (actions: seq<Action>)
    requires attempt <= 10
    ensures After(Init(FIVE_ATTEMPTS), actions) == Some(Waiting(attempt))
  {
    var start, taken := Init(FIVE_ATTEMPTS), Owner(0, Some(0), true);
    if attempt == 0 {
      var s1 := State(DEFAULT_CONFIG, [false], [Scanning(0, 0)], [], []);
      var s2 := State(DEFAULT_CONFIG, [true], [Claimed(0)], [], []);
      var s3 := State(DEFAULT_CONFIG, [true], [Finished], [taken], []);
      OneMoreStep(start, [], start, Begin, s1);
      OneMoreStep(start, [] + [Begin], s1, Test(0), s2);
      OneMoreStep(start, [] + [Begin] + [Test(0)], s2, Construct(0), s3);
      OneMoreStep(start, [] + [Begin] + [Test(0)] + [Construct(0)], s3, Begin, Waiting(0));
      actions := [] + [Begin] + [Test(0)] + [Construct(0)] + [Begin];
    } else {
      var before := AttemptsGoOn(attempt - 1);
      var tested := Waiting(attempt - 1).(acquirers := [Finished, Scanning(attempt - 1, 1)]);
      OneMoreStep(start, before, Waiting(attempt - 1), Test(1), tested);
      OneMoreStep(start, before + [Test(1)], tested, Test(1), Waiting(attempt));
      actions := before + [Test(1)] + [Test(1)];
    }
  }

  /** docs/connection_pool.md says that num_attempts is the number of attempts. Configured for
      five, the second of two acquires on a pool of one makes ten before it fails. */
  lemma TenAttemptsInsteadOfFive() returns (actions: seq<Action>)
    ensures After(Init(FIVE_ATTEMPTS), actions).Some?
    ensures After(Init(FIVE_ATTEMPTS), actions).value.acquirers == [Finished, Failed]
    ensures Passes(Init(FIVE_ATTEMPTS), actions, 1) == 10
  {
    actions := AttemptsGoOn(10);
    FailedAcquireTriedTenTimes(FIVE_ATTEMPTS, actions, 1);
  }
}
