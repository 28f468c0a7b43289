/** Which tables of a join chain can be null-extended: the right fold of
    include/sqlgen/transpilation/table_tuple_t.hpp, against the left-to-right joins of
    section 7.5 of SQL-92. */
module Joins {
  import opened Wrappers

  datatype JoinType = InnerJoin | LeftJoin | RightJoin | FullJoin

  // ------------------------------------------------------------------- the fold

  predicate NullsLeft(how: JoinType) { how.RightJoin? || how.FullJoin? }

  predicate NullsRight(how: JoinType) { how.LeftJoin? || how.FullJoin? }

  /** TableTupleTypeHelper: whether some join folded so far is right or full, and for each of
      them whether its table is wrapped in optionals. */
  datatype Helper = Helper(subsequentRightOrFull: bool, optionals: seq<bool>)

  function Fold(joins: seq<JoinType>): (h: Helper)
    ensures |h.optionals| == |joins|
  {
    if joins == [] then Helper(false, [])
    else
      var h := Fold(joins[1..]);
      Helper(h.subsequentRightOrFull || NullsLeft(joins[0]),
             [h.subsequentRightOrFull || NullsRight(joins[0])] + h.optionals)
  }

  /** Optionality of the base table (position 0) and of each joined table. */
  function TableTuple(joins: seq<JoinType>): (r: seq<bool>)
    ensures |r| == |joins| + 1
  {
    var h := Fold(joins);
    [h.subsequentRightOrFull] + h.optionals
  }

  /** Position i: its own join is left or full, or a later join is right or full. */
  ghost predicate MayBeNull(joins: seq<JoinType>, i: nat)
    requires i <= |joins|
  {
    || (i > 0 && (joins[i - 1].LeftJoin? || joins[i - 1].FullJoin?))
    || exists j :: i <= j < |joins| && (joins[j].RightJoin? || joins[j].FullJoin?)
  }

  lemma {:induction false} FoldFlag(joins: seq<JoinType>)
    ensures Fold(joins).subsequentRightOrFull <==> exists j :: 0 <= j < |joins| && NullsLeft(joins[j])
  {
    if joins != [] {
      var tail := joins[1..];
      FoldFlag(tail);
      if Fold(tail).subsequentRightOrFull {
        var j :| 0 <= j < |tail| && NullsLeft(tail[j]);
        assert NullsLeft(joins[j + 1]);
      }
      if j :| 0 <= j < |joins| && NullsLeft(joins[j]) {
        assert j > 0 ==> NullsLeft(tail[j - 1]);
      }
    }
  }

  lemma {:induction false} FoldAt(joins: seq<JoinType>, i: nat)
    requires 0 < i <= |joins|
    ensures Fold(joins).optionals[i - 1] <==> MayBeNull(joins, i)
  {
    var tail := joins[1..];
    if i == 1 {
      FoldFlag(tail);
      if j :| 0 <= j < |tail| && NullsLeft(tail[j]) {
        assert NullsLeft(joins[j + 1]);
      }
      if j :| 1 <= j < |joins| && NullsLeft(joins[j]) {
        assert NullsLeft(tail[j - 1]);
      }
    } else {
      FoldAt(tail, i - 1);
      if j :| i - 1 <= j < |tail| && NullsLeft(tail[j]) {
        assert NullsLeft(joins[j + 1]);
      }
      if j :| i <= j < |joins| && NullsLeft(joins[j]) {
        assert NullsLeft(tail[j - 1]);
      }
    }
  }

  /** The backward fold computes exactly the positional condition. */
  lemma FoldIsPositional(joins: seq<JoinType>, i: nat)
    requires i <= |joins|
    ensures TableTuple(joins)[i] <==> MayBeNull(joins, i)
  {
    if i == 0 {
      FoldFlag(joins);
    } else {
      FoldAt(joins, i);
    }
  }

  // ------------------------------------------------------------------- join semantics

  /** One entry for each table joined so far; None where the table is null-extended. */
  type JoinedRow<R> = seq<Option<R>>

  type On<!R> = (JoinedRow<R>, R) -> bool

  function Nulls<R>(n: nat): (r: JoinedRow<R>)
    ensures |r| == n && forall i :: 0 <= i < n ==> r[i] == None
  {
    seq(n, _ => None)
  }

  ghost predicate Matched<R(!new)>(left: iset<JoinedRow<R>>, table: seq<R>, on: On<R>, l: JoinedRow<R>, r: R)
  {
    l in left && r in table && on(l, r)
  }

  /** One join step on the rows collected so far (all of width `width`): the matching pairs; LEFT
      and FULL also keep the rows on the left without a match, RIGHT and FULL those on the right. */
  ghost function JoinStep<R(!new)>(
      how: JoinType, width: nat, left: iset<JoinedRow<R>>, table: seq<R>, on: On<R>): iset<JoinedRow<R>>
  {
    iset row: JoinedRow<R> |
      && |row| == width + 1
      && (var l, r := row[..width], row[width];
          || (r.Some? && Matched(left, table, on, l, r.value))
          || ((how.LeftJoin? || how.FullJoin?)
              && r.None? && l in left && forall t :: !Matched(left, table, on, l, t))
          || ((how.RightJoin? || how.FullJoin?)
              && r.Some? && r.value in table && l == Nulls(width) && forall m :: !Matched(left, table, on, m, r.value)))
  }

  /** The rows of tables[0] joined with tables[1], ..., from left to right. */
  ghost function Chain<R(!new)>(joins: seq<JoinType>, tables: seq<seq<R>>, ons: seq<On<R>>): iset<JoinedRow<R>>
    requires |tables| == |joins| + 1 && |ons| == |joins|
  {
    if joins == [] then iset row: JoinedRow<R> | |row| == 1 && row[0].Some? && row[0].value in tables[0]
    else
      var n := |joins| - 1;
      JoinStep(joins[n], n + 1, Chain(joins[..n], tables[..n + 1], ons[..n]), tables[n + 1], ons[n])
  }

  lemma {:induction false} ChainRows<R(!new)>(
      joins: seq<JoinType>, tables: seq<seq<R>>, ons: seq<On<R>>, row: JoinedRow<R>)
    requires |tables| == |joins| + 1 && |ons| == |joins| && row in Chain(joins, tables, ons)
    ensures |row| == |joins| + 1
    ensures forall i :: 0 <= i < |row| && row[i].Some? ==> row[i].value in tables[i]
  {
    if joins != [] {
      var n := |joins| - 1;
      var left := Chain(joins[..n], tables[..n + 1], ons[..n]);
      var l := row[..n + 1];
      if l in left {
        ChainRows(joins[..n], tables[..n + 1], ons[..n], l);
        assert forall i :: 0 <= i < n + 1 ==> row[i] == l[i];
      } else {
        assert forall i :: 0 <= i < n + 1 ==> row[i] == l[i] && l[i] == None;
      }
    }
  }

  // ------------------------------------------------------------------- soundness

  /** Prefixes only lose later joins, so what may be null in a prefix may be null overall. */
  lemma MayBeNullInPrefix(joins: seq<JoinType>, n: nat, i: nat)
    requires i <= n < |joins|
    ensures MayBeNull(joins[..n], i) ==> MayBeNull(joins, i)
    ensures NullsLeft(joins[n]) ==> MayBeNull(joins, i)
  {
    if j :| i <= j < n && NullsLeft(joins[..n][j]) {
      assert NullsLeft(joins[j]);
    }
  }

  /** A null-extended entry only ever occurs where the condition allows it. */
  lemma {:induction false} NullOnlyWhereAllowed<R(!new)>(
      joins: seq<JoinType>, tables: seq<seq<R>>, ons: seq<On<R>>, row: JoinedRow<R>, i: nat)
    requires |tables| == |joins| + 1 && |ons| == |joins| && row in Chain(joins, tables, ons)
    requires i < |row| && row[i].None?
    ensures i <= |joins| && MayBeNull(joins, i)
  {
    ChainRows(joins, tables, ons, row);
    if joins != [] {
      var n := |joins| - 1;
      var left := Chain(joins[..n], tables[..n + 1], ons[..n]);
      var l := row[..n + 1];
      if i <= n {
        MayBeNullInPrefix(joins, n, i);
        if l in left {
          assert l[i] == row[i];
          NullOnlyWhereAllowed(joins[..n], tables[..n + 1], ons[..n], l, i);
        }
      }
    }
  }

  // ------------------------------------------------------------------- chains with chosen rows

  /** Each table holds no row but the one chosen for it. */
  ghost predicate HoldOnly<R(!new)>(tables: seq<seq<R>>, rs: seq<R>)
  {
    |tables| <= |rs| && forall i, t :: 0 <= i < |tables| && t in tables[i] ==> t == rs[i]
  }

  function Always<R>(): On<R> { (l, t) => true }

  function Never<R>(): On<R> { (l, t) => false }

  /** The chain with one more join. */
  lemma ChainSnoc<R(!new)>(
      joins: seq<JoinType>, tables: seq<seq<R>>, ons: seq<On<R>>, how: JoinType, table: seq<R>, on: On<R>)
    requires |tables| == |joins| + 1 && |ons| == |joins|
    ensures Chain(joins + [how], tables + [table], ons + [on])
         == JoinStep(how, |joins| + 1, Chain(joins, tables, ons), table, on)
  {
    var n := |joins|;
    assert (joins + [how])[..n] == joins && (joins + [how])[n] == how;
    assert (tables + [table])[..n + 1] == tables && (tables + [table])[n + 1] == table;
    assert (ons + [on])[..n] == ons && (ons + [on])[n] == on;
  }

  /** A matching one-row table keeps the row, whatever the join. */
  lemma RowMatches<R(!new)>(
      joins: seq<JoinType>, tables: seq<seq<R>>, ons: seq<On<R>>, row: JoinedRow<R>, how: JoinType, r: R)
    requires |tables| == |joins| + 1 && |ons| == |joins| && row in Chain(joins, tables, ons)
    ensures row + [Some(r)] in Chain(joins + [how], tables + [[r]], ons + [Always<R>()])
  {
    ChainRows(joins, tables, ons, row);
    ChainSnoc(joins, tables, ons, how, [r], Always<R>());
    var next := row + [Some(r)];
    assert next[..|row|] == row;
    assert Matched(Chain(joins, tables, ons), [r], Always<R>(), row, r);
  }

  lemma HoldOnlySnoc<R(!new)>(tables: seq<seq<R>>, rs: seq<R>)
    requires HoldOnly(tables, rs) && |tables| < |rs|
    ensures HoldOnly(tables + [[rs[|tables|]]], rs)
  {
  }

  lemma SamePrefix<T>(whole: seq<T>, s: seq<T>, x: T)
    requires |s| < |whole| && whole[..|s| + 1] == s + [x]
    ensures whole[..|s|] == s && whole[|s|] == x
  {
    assert whole[..|s|] == whole[..|s| + 1][..|s|];
    assert whole[|s|] == whole[..|s| + 1][|s|];
  }

  lemma Shift<T>(a: seq<T>, b: seq<T>)
    requires b != []
    ensures a + [b[0]] + b[1..] == a + b
  {
  }

  /** Any further joins can be given tables that keep the row and add their own rows to it. */
  lemma {:induction false} RowSurvives<R(!new)>(
      joins: seq<JoinType>, tables: seq<seq<R>>, ons: seq<On<R>>, row: JoinedRow<R>, rs: seq<R>, more: seq<JoinType>)
    returns (ts: seq<seq<R>>, os: seq<On<R>>, whole: JoinedRow<R>)
    requires |tables| == |joins| + 1 && |ons| == |joins| && row in Chain(joins, tables, ons)
    requires HoldOnly(tables, rs) && |rs| == |joins| + |more| + 1 && |row| == |joins| + 1
    ensures |ts| == |joins + more| + 1 && |os| == |joins + more| && HoldOnly(ts, rs)
    ensures whole in Chain(joins + more, ts, os) && |whole| == |rs| && whole[..|row|] == row
    ensures forall i :: |row| <= i < |whole| ==> whole[i] == Some(rs[i])
    decreases |more|
  {
    if more == [] {
      assert joins + more == joins;
      ts, os, whole := tables, ons, row;
    } else {
      var r := rs[|row|];
      RowMatches(joins, tables, ons, row, more[0], r);
      HoldOnlySnoc(tables, rs);
      var row' := row + [Some(r)];
      ts, os, whole := RowSurvives(joins + [more[0]], tables + [[r]], ons + [Always<R>()], row', rs, more[1..]);
      Shift(joins, more);
      SamePrefix(whole, row, Some(r));
    }
  }

  /** Every join chain can produce the row of the chosen rows. */
  lemma SomeRow<R(!new)>(joins: seq<JoinType>, rs: seq<R>)
    returns (ts: seq<seq<R>>, os: seq<On<R>>, row: JoinedRow<R>)
    requires |rs| == |joins| + 1
    ensures |ts| == |joins| + 1 && |os| == |joins| && row in Chain(joins, ts, os) && HoldOnly(ts, rs)
    ensures |row| == |rs| && forall i :: 0 <= i < |row| ==> row[i] == Some(rs[i])
  {
    var start: JoinedRow<R> := [Some(rs[0])];
    assert start in Chain([], [[rs[0]]], []);
    ts, os, row := RowSurvives([], [[rs[0]]], [], start, rs, joins);
    assert [] + joins == joins;
    assert row[0] == row[..1][0];
  }

  // ------------------------------------------------------------------- null-extended together

  /** Where a row is null-extended. */
  function PatternOf<R>(row: JoinedRow<R>): (p: seq<bool>)
    ensures |p| == |row| && forall i :: 0 <= i < |row| ==> p[i] == row[i].None?
  {
    seq(|row|, i requires 0 <= i < |row| => row[i].None?)
  }

  predicate AllTrue(p: seq<bool>) { forall i :: 0 <= i < |p| ==> p[i] }

  /** The positions a row can have null-extended together: the last join may null-extend its own
      table, or keep the table's row for want of a match and null-extend all before it. */
  predicate Possible(joins: seq<JoinType>, p: seq<bool>)
  {
    && |p| == |joins| + 1
    && if joins == [] then !p[0]
       else
         var n := |joins| - 1;
         || (Possible(joins[..n], p[..n + 1]) && (p[n + 1] ==> NullsRight(joins[n])))
         || (AllTrue(p[..n + 1]) && !p[n + 1] && NullsLeft(joins[n]))
  }

  lemma {:induction false} PatternIsPossible<R(!new)>(
      joins: seq<JoinType>, tables: seq<seq<R>>, ons: seq<On<R>>, row: JoinedRow<R>)
    requires |tables| == |joins| + 1 && |ons| == |joins| && row in Chain(joins, tables, ons)
    ensures Possible(joins, PatternOf(row))
  {
    if joins != [] {
      var n := |joins| - 1;
      var left := Chain(joins[..n], tables[..n + 1], ons[..n]);
      var l, p := row[..n + 1], PatternOf(row);
      assert row in JoinStep(joins[n], n + 1, left, tables[n + 1], ons[n]);
      if l in left {
        PatternIsPossible(joins[..n], tables[..n + 1], ons[..n], l);
        assert PatternOf(l) == p[..n + 1];
      } else {
        assert forall i :: 0 <= i < n + 1 ==> p[..n + 1][i] == l[i].None?;
      }
    }
  }

  /** The chosen rows, null-extended as the pattern says. */
  ghost predicate Follows<R(!new)>(row: JoinedRow<R>, p: seq<bool>, rs: seq<R>)
  {
    |row| == |p| == |rs| && forall i :: 0 <= i < |p| ==> row[i] == if p[i] then None else Some(rs[i])
  }

  lemma FollowsSnoc<R(!new)>(row: JoinedRow<R>, p: seq<bool>, rs: seq<R>, n: nat)
    requires |p| == |rs| == n + 1 && Follows(row, p[..n], rs[..n])
    ensures Follows(row + [if p[n] then None else Some(rs[n])], p, rs)
  {
    assert forall i :: 0 <= i < n ==> p[..n][i] == p[i] && rs[..n][i] == rs[i];
  }

  /** Nothing matches: what each join makes of the last table. */
  lemma {:induction false} NothingMatches<R(!new)>(
      joins: seq<JoinType>, tables: seq<seq<R>>, ons: seq<On<R>>, row: JoinedRow<R>, how: JoinType, r: R)
    requires |tables| == |joins| + 1 && |ons| == |joins| && row in Chain(joins, tables, ons) && |row| == |joins| + 1
    ensures NullsRight(how) ==> row + [None] in Chain(joins + [how], tables + [[]], ons + [Never<R>()])
    ensures NullsLeft(how) ==> Nulls<R>(|row|) + [Some(r)] in Chain(joins + [how], tables + [[r]], ons + [Never<R>()])
  {
    ChainSnoc(joins, tables, ons, how, [], Never<R>());
    ChainSnoc(joins, tables, ons, how, [r], Never<R>());
    assert (row + [None])[..|row|] == row;
    assert (Nulls<R>(|row|) + [Some(r)])[..|row|] == Nulls<R>(|row|);
  }

  /** A row that follows the pattern so far, and what the next join makes of its own table. */
  lemma OwnTable<R(!new)>(
      joins: seq<JoinType>, ts: seq<seq<R>>, os: seq<On<R>>, l: JoinedRow<R>, how: JoinType, p: seq<bool>, rs: seq<R>)
    returns (tables: seq<seq<R>>, ons: seq<On<R>>, row: JoinedRow<R>)
    requires |ts| == |joins| + 1 && |os| == |joins| && l in Chain(joins, ts, os)
    requires |p| == |rs| == |joins| + 2 && HoldOnly(ts, rs)
    requires Follows(l, p[..|joins| + 1], rs[..|joins| + 1]) && (p[|joins| + 1] ==> NullsRight(how))
    ensures |tables| == |joins| + 2 && |ons| == |joins| + 1 && HoldOnly(tables, rs)
    ensures row in Chain(joins + [how], tables, ons) && Follows(row, p, rs)
  {
    var n, r := |joins| + 1, rs[|joins| + 1];
    FollowsSnoc(l, p, rs, n);
    if p[n] {
      NothingMatches(joins, ts, os, l, how, r);
      tables, ons, row := ts + [[]], os + [Never<R>()], l + [None];
    } else {
      RowMatches(joins, ts, os, l, how, r);
      HoldOnlySnoc(ts, rs);
      tables, ons, row := ts + [[r]], os + [Always<R>()], l + [Some(r)];
    }
  }

  /** Any row at all, and a last table that keeps its row without a match. */
  lemma AllBefore<R(!new)>(joins: seq<JoinType>, how: JoinType, p: seq<bool>, rs: seq<R>)
    returns (tables: seq<seq<R>>, ons: seq<On<R>>, row: JoinedRow<R>)
    requires |p| == |rs| == |joins| + 2
    requires AllTrue(p[..|joins| + 1]) && !p[|joins| + 1] && NullsLeft(how)
    ensures |tables| == |joins| + 2 && |ons| == |joins| + 1 && HoldOnly(tables, rs)
    ensures row in Chain(joins + [how], tables, ons) && Follows(row, p, rs)
  {
    var n, r := |joins| + 1, rs[|joins| + 1];
    var ts, os, l := SomeRow(joins, rs[..n]);
    NothingMatches(joins, ts, os, l, how, r);
    HoldOnlySnoc(ts, rs);
    tables, ons, row := ts + [[r]], os + [Never<R>()], Nulls<R>(n) + [Some(r)];
    assert forall i :: 0 <= i < n ==> p[i] == p[..n][i];
  }

  /** Every possible pattern happens, whatever rows the tables may hold. */
  lemma {:induction false} PatternHappens<R(!new)>(joins: seq<JoinType>, p: seq<bool>, rs: seq<R>)
    returns (tables: seq<seq<R>>, ons: seq<On<R>>, row: JoinedRow<R>)
    requires Possible(joins, p) && |rs| == |joins| + 1
    ensures |tables| == |joins| + 1 && |ons| == |joins| && HoldOnly(tables, rs)
    ensures row in Chain(joins, tables, ons) && Follows(row, p, rs)
    decreases |joins|
  {
    if joins == [] {
      tables, ons, row := [[rs[0]]], [], [Some(rs[0])];
    } else {
      var n := |joins| - 1;
      var before, how := joins[..n], joins[n];
      assert before + [how] == joins;
      if Possible(before, p[..n + 1]) && (p[n + 1] ==> NullsRight(how)) {
        tables, ons, row := PatternHappens(before, p[..n + 1], rs[..n + 1]);
        HoldOnlyMore(tables, rs, n + 1);
        tables, ons, row := OwnTable(before, tables, ons, row, how, p, rs);
      } else {
        tables, ons, row := AllBefore(before, how, p, rs);
      }
    }
  }

  lemma HoldOnlyMore<R(!new)>(tables: seq<seq<R>>, rs: seq<R>, n: nat)
    requires n <= |rs| && HoldOnly(tables, rs[..n])
    ensures HoldOnly(tables, rs)
  {
  }

  /** Tables (holding no other rows than the chosen ones) and ON conditions that give the chosen
      rows null-extended in exactly this way. */
  ghost predicate Happens<R(!new)>(joins: seq<JoinType>, p: seq<bool>, rs: seq<R>)
  {
    exists tables: seq<seq<R>>, ons: seq<On<R>>, row: JoinedRow<R> ::
      && |tables| == |joins| + 1 && |ons| == |joins| && HoldOnly(tables, rs)
      && row in Chain(joins, tables, ons) && Follows(row, p, rs)
  }

  /** Which tables can be null-extended together: exactly the possible patterns. */
  lemma PatternsAreExact<R(!new)>(joins: seq<JoinType>, p: seq<bool>, rs: seq<R>)
    requires |rs| == |joins| + 1
    ensures Possible(joins, p) <==> Happens(joins, p, rs)
  {
    if Possible(joins, p) {
      var tables, ons, row := PatternHappens(joins, p, rs);
    }
    if Happens(joins, p, rs) {
      var tables: seq<seq<R>>, ons: seq<On<R>>, row: JoinedRow<R> :|
        && |tables| == |joins| + 1 && |ons| == |joins| && HoldOnly(tables, rs)
        && row in Chain(joins, tables, ons) && Follows(row, p, rs);
      PatternIsPossible(joins, tables, ons, row);
      assert PatternOf(row) == p;
    }
  }

  lemma {:induction false} NothingExtended(joins: seq<JoinType>, p: seq<bool>)
    requires |p| == |joins| + 1 && forall i :: 0 <= i < |p| ==> !p[i]
    ensures Possible(joins, p)
  {
    if joins != [] {
      NothingExtended(joins[..|joins| - 1], p[..|joins|]);
    }
  }

  // ------------------------------------------------------------------- tightness

  /** What may be null-extended is so in some possible pattern: by its own join, by the last
      join, or already before it. */
  lemma {:induction false} SomePattern(joins: seq<JoinType>, i: nat) returns (p: seq<bool>)
    requires i <= |joins| && MayBeNull(joins, i)
    ensures Possible(joins, p) && p[i]
  {
    var n := |joins| - 1;
    if i == n + 1 {
      p := seq(n + 1, _ => false) + [true];
      assert p[..n + 1] == seq(n + 1, _ => false);
      NothingExtended(joins[..n], p[..n + 1]);
    } else if NullsLeft(joins[n]) {
      p := seq(n + 1, _ => true) + [false];
      assert p[..n + 1] == seq(n + 1, _ => true);
    } else {
      MayBeNullBefore(joins, i);
      var q := SomePattern(joins[..n], i);
      p := q + [false];
      assert p[..n + 1] == q;
    }
  }

  lemma MayBeNullBefore(joins: seq<JoinType>, i: nat)
    requires i < |joins| && MayBeNull(joins, i) && !NullsLeft(joins[|joins| - 1])
    ensures MayBeNull(joins[..|joins| - 1], i)
  {
    if !(i > 0 && NullsRight(joins[i - 1])) {
      var j :| i <= j < |joins| && NullsLeft(joins[j]);
      assert NullsLeft(joins[..|joins| - 1][j]);
    }
  }

  /** A row of the chain that is null-extended at position i. */
  ghost predicate NullExtendedAt<R(!new)>(joins: seq<JoinType>, tables: seq<seq<R>>, ons: seq<On<R>>, i: nat)
    requires |tables| == |joins| + 1 && |ons| == |joins|
  {
    exists row: JoinedRow<R> :: row in Chain(joins, tables, ons) && i < |row| && row[i].None?
  }

  /** Tables (holding no other rows than the chosen ones) and ON conditions for which the
      joins give a row that is null-extended at position i. */
  ghost predicate CanBeNullExtended<R(!new)>(joins: seq<JoinType>, rs: seq<R>, i: nat)
  {
    exists tables: seq<seq<R>>, ons: seq<On<R>> ::
      |tables| == |joins| + 1 && |ons| == |joins| && HoldOnly(tables, rs) && NullExtendedAt(joins, tables, ons, i)
  }

  /** The fold is exact, whatever rows the tables hold: a table is wrapped in optionals if and
      only if some contents and some ON conditions make a result row null-extended there. */
  lemma OptionalityIsExact<R(!new)>(joins: seq<JoinType>, i: nat, rs: seq<R>)
    requires i <= |joins| && |rs| == |joins| + 1
    ensures TableTuple(joins)[i] <==> CanBeNullExtended(joins, rs, i)
  {
    FoldIsPositional(joins, i);
    if MayBeNull(joins, i) {
      var p := SomePattern(joins, i);
      var tables, ons, row := PatternHappens(joins, p, rs);
      assert row[i].None?;
      assert NullExtendedAt(joins, tables, ons, i);
    }
    if CanBeNullExtended(joins, rs, i) {
      var tables: seq<seq<R>>, ons: seq<On<R>> :|
        |tables| == |joins| + 1 && |ons| == |joins| && HoldOnly(tables, rs) && NullExtendedAt(joins, tables, ons, i);
      var row: JoinedRow<R> :| row in Chain(joins, tables, ons) && i < |row| && row[i].None?;
      NullOnlyWhereAllowed(joins, tables, ons, row, i);
    }
  }

  /** A table is optional if and only if some possible pattern null-extends it. */
  lemma OptionalInSomePattern<R(!new)>(joins: seq<JoinType>, i: nat, rs: seq<R>)
    requires i <= |joins| && |rs| == |joins| + 1
    ensures TableTuple(joins)[i] <==> exists p: seq<bool> :: Possible(joins, p) && p[i]
  {
    FoldIsPositional(joins, i);
    if MayBeNull(joins, i) {
      var p := SomePattern(joins, i);
    }
    if p: seq<bool> :| Possible(joins, p) && p[i] {
      var tables, ons, row := PatternHappens(joins, p, rs);
      NullOnlyWhereAllowed(joins, tables, ons, row, i);
    }
  }
}
