/** The GROUP BY check (include/sqlgen/transpilation/check_aggregations.hpp) on the flattened
    fields (flatten_fields_t.hpp), and the ban on nested aggregations (make_field.hpp), against
    what selecting from groups means: a field must not depend on which row stands for its
    group. */
module Aggregations {
  import opened Wrappers
  import opened SqlTree
  import opened SqlNames
  import opened SqlMeaning
  import opened Nullability

  datatype Field = Field(val: Expr, as_: Option<string>)

  // ------------------------------------------------------------------- MakeField's flags

  predicate IsAggregation(e: Expr) { e.AggregationOf? || e.CountOf? || e.CountAll? }

  /** The COUNT fields are both aggregations and columns. */
  predicate IsColumn(e: Expr) { e.Col? || e.CountOf? || e.CountAll? }

  predicate IsOperation(e: Expr) { !e.Val? && !e.Col? && !IsAggregation(e) }

  /** A duration operand as a leaf. */
  function DurationLeaves(ds: seq<Duration>): seq<Expr>
  {
    if ds == [] then []
    else [Val(CppType(Other("duration"), false), DurationValue(ds[0]))] + DurationLeaves(ds[1..])
  }

  /** ExtractFields: the leaves below the operations, from left to right. */
  function Leaves(e: Expr): seq<Expr>
    decreases e, 1
  {
    match e
    case Unary(_, arg) => Leaves(arg)
    case Binary(_, l, r) => Leaves(l) + Leaves(r)
    case ReplaceIn(a, b, c) => Leaves(a) + Leaves(b) + Leaves(c)
    case CoalesceOf(args) => LeavesOf(args)
    case ConcatOf(args) => LeavesOf(args)
    case CastTo(arg, _, _) => Leaves(arg)
    case DatePlus(date, durations) => Leaves(date) + DurationLeaves(durations)
    case _ => [e]
  }

  function LeavesOf(es: seq<Expr>): seq<Expr>
    decreases es, 0
  {
    if es == [] then [] else Leaves(es[0]) + LeavesOf(es[1..])
  }

  /** FlattenFields: names given with AS are dropped. */
  function Flatten(fields: seq<Field>): seq<Expr>
  {
    if fields == [] then [] else Leaves(fields[0].val) + Flatten(fields[1..])
  }

  // ------------------------------------------------------------------- the check

  predicate AnyAggregation(leaves: seq<Expr>)
  {
    exists k :: 0 <= k < |leaves| && IsAggregation(leaves[k])
  }

  predicate IncludedIn(e: Expr, cols: seq<Expr>) { e in cols }

  predicate LeafAllowed(leaf: Expr, groupBy: Option<seq<Expr>>)
  {
    match groupBy
    case None => IsAggregation(leaf) || !IsColumn(leaf)
    case Some(cols) => IsAggregation(leaf) || (!IsColumn(leaf) && !IsOperation(leaf)) || IncludedIn(leaf, cols)
  }

  /** CheckAggregation: its three cases. */
  predicate CheckAggregation(leaves: seq<Expr>, groupBy: Option<seq<Expr>>)
  {
    if groupBy.None? && !AnyAggregation(leaves) then true
    else forall k :: 0 <= k < |leaves| ==> LeafAllowed(leaves[k], groupBy)
  }

  // ------------------------------------------------------------------- what grouping means

  function Max(a: nat, b: nat): nat { if a < b then b else a }

  /** The largest number of aggregations on a path from the root to a leaf. */
  function AggregationDepth(e: Expr): nat
    decreases e, 1
  {
    match e
    case AggregationOf(_, val) => 1 + AggregationDepth(val)
    case CountOf(_, _, _) => 1
    case CountAll => 1
    case Unary(_, arg) => AggregationDepth(arg)
    case Binary(_, l, r) => Max(AggregationDepth(l), AggregationDepth(r))
    case ReplaceIn(a, b, c) => Max(AggregationDepth(a), Max(AggregationDepth(b), AggregationDepth(c)))
    case CoalesceOf(args) => AggregationDepthOf(args)
    case ConcatOf(args) => AggregationDepthOf(args)
    case CastTo(arg, _, _) => AggregationDepth(arg)
    case DatePlus(date, _) => AggregationDepth(date)
    case _ => 0
  }

  function AggregationDepthOf(es: seq<Expr>): nat
    decreases es, 0
  {
    if es == [] then 0 else Max(AggregationDepth(es[0]), AggregationDepthOf(es[1..]))
  }

  /** Some field has an aggregation in it, at any depth. */
  ghost predicate SomeFieldAggregates(fields: seq<Field>)
  {
    exists k :: 0 <= k < |fields| && AggregationDepth(fields[k].val) >= 1
  }

  ghost predicate AgreeOn(cols: seq<Expr>, row1: Row, row2: Row)
  {
    forall name, alias :: Col(name, alias) in cols ==> row1(ToAlias(alias), name) == row2(ToAlias(alias), name)
  }

  /** Whatever functions and operators compute: two rows of the same group that conform to the
      column types give the same value. */
  ghost predicate Determined(ts: Tables, cols: seq<Expr>, e: Expr)
  {
    forall I: Interp, row1: Row, row2: Row, group: seq<Row> |
      AgreeOn(cols, row1, row2) && RowConforms(ts, row1) && RowConforms(ts, row2) ::
      Eval(I, Env(row1, group), ToDynamic(e)) == Eval(I, Env(row2, group), ToDynamic(e))
  }

  /** Without GROUP BY, aggregating fields turn all rows into one group. */
  ghost predicate WellGrouped(ts: Tables, fields: seq<Field>, groupBy: Option<seq<Expr>>)
  {
    (groupBy.None? && !SomeFieldAggregates(fields))
    || forall k :: 0 <= k < |fields| ==> Determined(ts, GroupColumns(groupBy), fields[k].val)
  }

  function GroupColumns(groupBy: Option<seq<Expr>>): seq<Expr>
  {
    if groupBy.Some? then groupBy.value else []
  }

  // ------------------------------------------------------------------- accepted implies determined

  /** The leaves that do not depend on the row within a group. */
  predicate LeafDetermined(cols: seq<Expr>, leaf: Expr) { leaf.Col? ==> leaf in cols }

  predicate LeavesDetermined(cols: seq<Expr>, leaves: seq<Expr>)
  {
    forall k :: 0 <= k < |leaves| ==> LeafDetermined(cols, leaves[k])
  }

  lemma LeavesDeterminedSplit(cols: seq<Expr>, a: seq<Expr>, b: seq<Expr>)
    ensures LeavesDetermined(cols, a + b) <==> LeavesDetermined(cols, a) && LeavesDetermined(cols, b)
  {
    if LeavesDetermined(cols, a + b) {
      forall k | 0 <= k < |a| ensures LeafDetermined(cols, a[k]) {
        assert (a + b)[k] == a[k];
      }
      forall k | 0 <= k < |b| ensures LeafDetermined(cols, b[k]) {
        assert (a + b)[|a| + k] == b[k];
      }
    }
  }

  lemma {:induction false} LeavesAreNotOperations(e: Expr)
    ensures forall k :: 0 <= k < |Leaves(e)| ==> !IsOperation(Leaves(e)[k])
    decreases e, 1
  {
    match e
    case Unary(_, arg) => LeavesAreNotOperations(arg);
    case Binary(_, l, r) =>
      LeavesAreNotOperations(l);
      LeavesAreNotOperations(r);
    case ReplaceIn(a, b, c) =>
      LeavesAreNotOperations(a);
      LeavesAreNotOperations(b);
      LeavesAreNotOperations(c);
    case CoalesceOf(args) => LeavesOfAreNotOperations(args);
    case ConcatOf(args) => LeavesOfAreNotOperations(args);
    case CastTo(arg, _, _) => LeavesAreNotOperations(arg);
    case DatePlus(date, durations) =>
      LeavesAreNotOperations(date);
      DurationsAreLeaves([], durations);
    case _ =>
  }

  lemma {:induction false} LeavesOfAreNotOperations(es: seq<Expr>)
    ensures forall k :: 0 <= k < |LeavesOf(es)| ==> !IsOperation(LeavesOf(es)[k])
    decreases es, 0
  {
    if es != [] {
      LeavesAreNotOperations(es[0]);
      LeavesOfAreNotOperations(es[1..]);
    }
  }

  lemma {:induction false} DurationsAreLeaves(cols: seq<Expr>, ds: seq<Duration>)
    ensures forall k :: 0 <= k < |DurationLeaves(ds)| ==> DurationLeaves(ds)[k].Val?
    ensures LeavesDetermined(cols, DurationLeaves(ds))
  {
    if ds != [] {
      DurationsAreLeaves(cols, ds[1..]);
    }
  }

  /** The value of an expression is the same on rows that agree on its leaf columns. */
  lemma {:induction false} DeterminedByLeaves(
      cols: seq<Expr>, I: Interp, row1: Row, row2: Row, group: seq<Row>, e: Expr)
    requires AgreeOn(cols, row1, row2) && LeavesDetermined(cols, Leaves(e))
    ensures Eval(I, Env(row1, group), ToDynamic(e)) == Eval(I, Env(row2, group), ToDynamic(e))
    decreases e, 1
  {
    match e
    case Col(name, alias) =>
      assert LeafDetermined(cols, Leaves(e)[0]);
    case Unary(op, arg) =>
      DeterminedByLeaves(cols, I, row1, row2, group, arg);
      EvalUnary(I, row1, group, op, arg);
      EvalUnary(I, row2, group, op, arg);
    case Binary(op, l, r) =>
      LeavesDeterminedSplit(cols, Leaves(l), Leaves(r));
      DeterminedByLeaves(cols, I, row1, row2, group, l);
      DeterminedByLeaves(cols, I, row1, row2, group, r);
      EvalBinary(I, row1, group, op, l, r);
      EvalBinary(I, row2, group, op, l, r);
    case ReplaceIn(a, b, c) =>
      LeavesDeterminedSplit(cols, Leaves(a) + Leaves(b), Leaves(c));
      LeavesDeterminedSplit(cols, Leaves(a), Leaves(b));
      DeterminedByLeaves(cols, I, row1, row2, group, a);
      DeterminedByLeaves(cols, I, row1, row2, group, b);
      DeterminedByLeaves(cols, I, row1, row2, group, c);
      EvalReplace(I, row1, group, a, b, c);
      EvalReplace(I, row2, group, a, b, c);
    case CoalesceOf(args) => DeterminedByLeavesOf(cols, I, row1, row2, group, args);
    case ConcatOf(args) =>
      DeterminedByLeavesOf(cols, I, row1, row2, group, args);
      if args != [] {
        EvalConcat(I, row1, group, args);
        EvalConcat(I, row2, group, args);
      }
    case CastTo(arg, _, _) => DeterminedByLeaves(cols, I, row1, row2, group, arg);
    case DatePlus(date, durations) =>
      LeavesDeterminedSplit(cols, Leaves(date), DurationLeaves(durations));
      DeterminedByLeaves(cols, I, row1, row2, group, date);
    case _ =>
  }

  lemma {:induction false} DeterminedByLeavesOf(
      cols: seq<Expr>, I: Interp, row1: Row, row2: Row, group: seq<Row>, es: seq<Expr>)
    requires AgreeOn(cols, row1, row2) && LeavesDetermined(cols, LeavesOf(es))
    ensures EvalAll(I, Env(row1, group), AllToDynamic(es)) == EvalAll(I, Env(row2, group), AllToDynamic(es))
    decreases es, 0
  {
    if es != [] {
      LeavesDeterminedSplit(cols, Leaves(es[0]), LeavesOf(es[1..]));
      DeterminedByLeaves(cols, I, row1, row2, group, es[0]);
      DeterminedByLeavesOf(cols, I, row1, row2, group, es[1..]);
    }
  }

  // ------------------------------------------------------------------- what COALESCE never looks at

  predicate NonNullable(ts: Tables, name: string, alias: string)
  {
    ColumnType(ts, name, alias).Some? && !ColumnType(ts, name, alias).value.nullable
  }

  /** Not NULL on any row that conforms to the column types, whatever the functions compute. */
  predicate NeverNull(ts: Tables, e: Expr)
    decreases e, 1
  {
    match e
    case CountAll => true
    case Col(name, alias) => NonNullable(ts, name, alias)
    case Val(_, v) => !v.Null? && !v.Timestamp?
    case Unary(UnaryFunction(Coalesce), arg) => NeverNull(ts, arg)
    case CoalesceOf(args) => AnyNeverNull(ts, args)
    case ConcatOf(args) => |args| == 1 && NeverNull(ts, args[0])
    case DatePlus(date, durations) => durations == [] && NeverNull(ts, date)
    case _ => false
  }

  predicate AnyNeverNull(ts: Tables, es: seq<Expr>)
    decreases es, 0
  {
    es != [] && (NeverNull(ts, es[0]) || AnyNeverNull(ts, es[1..]))
  }

  /** Without the operands of COALESCE behind the first that is never NULL. */
  function Prune(ts: Tables, e: Expr): Expr
    decreases e, 1
  {
    match e
    case Unary(op, arg) => Unary(op, Prune(ts, arg))
    case Binary(op, l, r) => Binary(op, Prune(ts, l), Prune(ts, r))
    case ReplaceIn(a, b, c) => ReplaceIn(Prune(ts, a), Prune(ts, b), Prune(ts, c))
    case CoalesceOf(args) => CoalesceOf(PruneCoalesce(ts, args))
    case ConcatOf(args) => ConcatOf(PruneAll(ts, args))
    case CastTo(arg, target, sqlType) => CastTo(Prune(ts, arg), target, sqlType)
    case DatePlus(date, durations) => DatePlus(Prune(ts, date), durations)
    case _ => e
  }

  function PruneCoalesce(ts: Tables, es: seq<Expr>): seq<Expr>
    decreases es, 0
  {
    if es == [] then []
    else if NeverNull(ts, es[0]) then [Prune(ts, es[0])]
    else [Prune(ts, es[0])] + PruneCoalesce(ts, es[1..])
  }

  function PruneAll(ts: Tables, es: seq<Expr>): (r: seq<Expr>)
    ensures |r| == |es|
    decreases es, 0
  {
    if es == [] then [] else [Prune(ts, es[0])] + PruneAll(ts, es[1..])
  }

  lemma {:induction false} NeverNullIsNotNull(I: Interp, ts: Tables, row: Row, group: seq<Row>, e: Expr)
    requires RowConforms(ts, row)
    requires NeverNull(ts, e)
    ensures !Eval(I, Env(row, group), ToDynamic(e)).VNull?
    decreases e, 1
  {
    match e
    case CountAll =>
    case Col(_, _) =>
    case Val(_, _) =>
    case Unary(op, arg) =>
      NeverNullIsNotNull(I, ts, row, group, arg);
      EvalUnary(I, row, group, op, arg);
    case CoalesceOf(args) => AnyNeverNullIsNotNull(I, ts, row, group, args);
    case ConcatOf(args) =>
      NeverNullIsNotNull(I, ts, row, group, args[0]);
      EvalConcat(I, row, group, args);
    case DatePlus(date, _) => NeverNullIsNotNull(I, ts, row, group, date);
  }

  lemma {:induction false} AnyNeverNullIsNotNull(I: Interp, ts: Tables, row: Row, group: seq<Row>, es: seq<Expr>)
    requires RowConforms(ts, row)
    requires AnyNeverNull(ts, es)
    ensures !FirstNonNull(EvalAll(I, Env(row, group), AllToDynamic(es))).VNull?
    decreases es, 0
  {
    if NeverNull(ts, es[0]) {
      NeverNullIsNotNull(I, ts, row, group, es[0]);
    } else {
      AnyNeverNullIsNotNull(I, ts, row, group, es[1..]);
    }
  }

  /** What is pruned makes no difference. */
  lemma {:induction false} PruneKeepsValue(I: Interp, ts: Tables, row: Row, group: seq<Row>, e: Expr)
    requires RowConforms(ts, row)
    ensures Eval(I, Env(row, group), ToDynamic(Prune(ts, e))) == Eval(I, Env(row, group), ToDynamic(e))
    decreases e, 1
  {
    match e
    case Unary(op, arg) =>
      PruneKeepsValue(I, ts, row, group, arg);
      EvalUnary(I, row, group, op, arg);
      EvalUnary(I, row, group, op, Prune(ts, arg));
    case Binary(_, _, _) => PruneKeepsOperands(I, ts, row, group, e);
    case ReplaceIn(_, _, _) => PruneKeepsOperands(I, ts, row, group, e);
    case CoalesceOf(args) => PruneKeepsCoalesce(I, ts, row, group, args);
    case ConcatOf(args) =>
      PruneKeepsAll(I, ts, row, group, args);
      if args != [] {
        EvalConcat(I, row, group, args);
        EvalConcat(I, row, group, PruneAll(ts, args));
      }
    case CastTo(arg, _, _) => PruneKeepsValue(I, ts, row, group, arg);
    case DatePlus(date, _) => PruneKeepsValue(I, ts, row, group, date);
    case _ =>
  }

  lemma {:induction false} PruneKeepsOperands(I: Interp, ts: Tables, row: Row, group: seq<Row>, e: Expr)
    requires RowConforms(ts, row) && (e.Binary? || e.ReplaceIn?)
    ensures Eval(I, Env(row, group), ToDynamic(Prune(ts, e))) == Eval(I, Env(row, group), ToDynamic(e))
    decreases e, 0
  {
    match e
    case Binary(op, l, r) =>
      PruneKeepsValue(I, ts, row, group, l);
      PruneKeepsValue(I, ts, row, group, r);
      EvalBinary(I, row, group, op, l, r);
      EvalBinary(I, row, group, op, Prune(ts, l), Prune(ts, r));
    case ReplaceIn(a, b, c) =>
      PruneKeepsValue(I, ts, row, group, a);
      PruneKeepsValue(I, ts, row, group, b);
      PruneKeepsValue(I, ts, row, group, c);
      EvalReplace(I, row, group, a, b, c);
      EvalReplace(I, row, group, Prune(ts, a), Prune(ts, b), Prune(ts, c));
  }

  lemma {:induction false} PruneKeepsCoalesce(I: Interp, ts: Tables, row: Row, group: seq<Row>, es: seq<Expr>)
    requires RowConforms(ts, row)
    ensures FirstNonNull(EvalAll(I, Env(row, group), AllToDynamic(PruneCoalesce(ts, es))))
         == FirstNonNull(EvalAll(I, Env(row, group), AllToDynamic(es)))
    decreases es, 0
  {
    if es != [] {
      PruneKeepsValue(I, ts, row, group, es[0]);
      if NeverNull(ts, es[0]) {
        NeverNullIsNotNull(I, ts, row, group, es[0]);
      } else {
        PruneKeepsCoalesce(I, ts, row, group, es[1..]);
      }
    }
  }

  lemma {:induction false} PruneKeepsAll(I: Interp, ts: Tables, row: Row, group: seq<Row>, es: seq<Expr>)
    requires RowConforms(ts, row)
    ensures EvalAll(I, Env(row, group), AllToDynamic(PruneAll(ts, es))) == EvalAll(I, Env(row, group), AllToDynamic(es))
    decreases es, 0
  {
    if es != [] {
      PruneKeepsValue(I, ts, row, group, es[0]);
      PruneKeepsAll(I, ts, row, group, es[1..]);
    }
  }

  // ------------------------------------------------------------------- what is left shows

  /** The typed tree has its own node for COALESCE. */
  predicate ProperBinary(e: Expr) { !(e.Binary? && e.binary == BinaryFunction(Coalesce)) }

  predicate AnyTerm(vs: seq<SqlMeaning.Val>) { exists i :: 0 <= i < |vs| && vs[i].VTerm? }

  /** Terms stand for what depends on an ungrouped column. Functions keep terms and otherwise
      give NULL. */
  function Mark(vs: seq<SqlMeaning.Val>): SqlMeaning.Val
  {
    if AnyTerm(vs) then VTerm("marked", vs) else VNull
  }

  function Marking(): Interp
  {
    Interp((f, vs) => Mark(vs), (s, a, b) => Mark([a, b]), (t, a) => Mark([a]), (p, a) => Mark([a]),
           (s, a, b) => true, (a, p) => true, (n, d, vs) => VNull)
  }

  /** A numbered term in the columns that are not grouped; in the others NULL, if they can be. */
  function MarkedRow(ts: Tables, cols: seq<Expr>, n: int): Row
  {
    (alias: Option<string>, name: string) =>
      var a := if alias.Some? then alias.value else "";
      if Col(name, a) !in cols then VTerm("row", [VInt(n)])
      else if NonNullable(ts, name, a) then VInt(0)
      else VNull
  }

  lemma MarkedConforms(ts: Tables, cols: seq<Expr>)
    ensures RowConforms(ts, MarkedRow(ts, cols, 0)) && RowConforms(ts, MarkedRow(ts, cols, 1))
    ensures AgreeOn(cols, MarkedRow(ts, cols, 0), MarkedRow(ts, cols, 1))
  {
  }

  /** A value on two rows: a term that differs, a value on both, NULL on both. */
  datatype Sight = Visible | Present | Absent | Mixed

  function Seen(v: SqlMeaning.Val, w: SqlMeaning.Val): Sight
  {
    if v.VTerm? && w.VTerm? && v != w then Visible
    else if v.VNull? && w.VNull? then Absent
    else if v.VTerm? || w.VTerm? || v.VNull? || w.VNull? then Mixed
    else Present
  }

  /** What a function makes of its operands. */
  function Through(anyVisible: bool): Sight { if anyVisible then Visible else Absent }

  predicate AnyVisible(vs: seq<SqlMeaning.Val>, ws: seq<SqlMeaning.Val>)
    requires |vs| == |ws|
  {
    vs != [] && (Seen(vs[0], ws[0]).Visible? || AnyVisible(vs[1..], ws[1..]))
  }

  predicate NoneMixed(vs: seq<SqlMeaning.Val>, ws: seq<SqlMeaning.Val>)
    requires |vs| == |ws|
  {
    vs == [] || (!Seen(vs[0], ws[0]).Mixed? && NoneMixed(vs[1..], ws[1..]))
  }

  lemma {:induction false} NoTerms(vs: seq<SqlMeaning.Val>, ws: seq<SqlMeaning.Val>)
    requires |vs| == |ws| && NoneMixed(vs, ws)
    ensures AnyTerm(vs) == AnyTerm(ws) == AnyVisible(vs, ws) && (AnyVisible(vs, ws) ==> vs != ws)
  {
    if vs != [] {
      NoTerms(vs[1..], ws[1..]);
      assert vs == [vs[0]] + vs[1..] && ws == [ws[0]] + ws[1..];
    }
  }

  lemma MarkShows(vs: seq<SqlMeaning.Val>, ws: seq<SqlMeaning.Val>)
    requires |vs| == |ws| && NoneMixed(vs, ws)
    ensures Seen(Mark(vs), Mark(ws)) == Through(AnyVisible(vs, ws))
  {
    NoTerms(vs, ws);
  }

  lemma OneMoreSeen(v: SqlMeaning.Val, vs: seq<SqlMeaning.Val>, w: SqlMeaning.Val, ws: seq<SqlMeaning.Val>)
    requires |vs| == |ws|
    ensures NoneMixed([v] + vs, [w] + ws) == (!Seen(v, w).Mixed? && NoneMixed(vs, ws))
    ensures AnyVisible([v] + vs, [w] + ws) == (Seen(v, w).Visible? || AnyVisible(vs, ws))
  {
    assert ([v] + vs)[1..] == vs && ([w] + ws)[1..] == ws;
  }

  lemma MarkOne(v: SqlMeaning.Val, w: SqlMeaning.Val)
    requires !Seen(v, w).Mixed?
    ensures Seen(Mark([v]), Mark([w])) == Through(Seen(v, w).Visible?)
  {
    OneMoreSeen(v, [], w, []);
    assert [v] + [] == [v] && [w] + [] == [w];
    MarkShows([v], [w]);
  }

  lemma MarkTwo(v1: SqlMeaning.Val, v2: SqlMeaning.Val, w1: SqlMeaning.Val, w2: SqlMeaning.Val)
    requires !Seen(v1, w1).Mixed? && !Seen(v2, w2).Mixed?
    ensures Seen(Mark([v1, v2]), Mark([w1, w2])) == Through(Seen(v1, w1).Visible? || Seen(v2, w2).Visible?)
  {
    OneMoreSeen(v2, [], w2, []);
    OneMoreSeen(v1, [v2], w1, [w2]);
    assert [v2] + [] == [v2] && [w2] + [] == [w2] && [v1] + [v2] == [v1, v2] && [w1] + [w2] == [w1, w2];
    MarkShows([v1, v2], [w1, w2]);
  }

  lemma MarkThree(
      v1: SqlMeaning.Val, v2: SqlMeaning.Val, v3: SqlMeaning.Val, w1: SqlMeaning.Val,
      w2: SqlMeaning.Val, w3: SqlMeaning.Val)
    requires !Seen(v1, w1).Mixed? && !Seen(v2, w2).Mixed? && !Seen(v3, w3).Mixed?
    ensures Seen(Mark([v1, v2, v3]), Mark([w1, w2, w3]))
         == Through(Seen(v1, w1).Visible? || Seen(v2, w2).Visible? || Seen(v3, w3).Visible?)
  {
    OneMoreSeen(v3, [], w3, []);
    OneMoreSeen(v2, [v3], w2, [w3]);
    OneMoreSeen(v1, [v2, v3], w1, [w2, w3]);
    assert [v3] + [] == [v3] && [w3] + [] == [w3] && [v2] + [v3] == [v2, v3] && [w2] + [w3] == [w2, w3];
    assert [v1] + [v2, v3] == [v1, v2, v3] && [w1] + [w2, w3] == [w1, w2, w3];
    MarkShows([v1, v2, v3], [w1, w2, w3]);
  }

  /** Operands combined from the left. */
  lemma {:induction false} FoldShows(
      op: Named<ArithOp>, a: SqlMeaning.Val, vs: seq<SqlMeaning.Val>, b: SqlMeaning.Val, ws: seq<SqlMeaning.Val>)
    requires |vs| == |ws| && !Seen(a, b).Mixed? && NoneMixed(vs, ws)
    ensures Seen(FoldValues(Marking(), op, a, vs), FoldValues(Marking(), op, b, ws))
         == if vs == [] then Seen(a, b) else Through(Seen(a, b).Visible? || AnyVisible(vs, ws))
    decreases |vs|
  {
    if vs != [] {
      MarkTwo(a, vs[0], b, ws[0]);
      FoldShows(op, Mark([a, vs[0]]), vs[1..], Mark([b, ws[0]]), ws[1..]);
    }
  }

  /** How an expression is seen on the two marked rows: an undetermined leaf, unless pruned, is
      visible; without one the value is NULL where it can be. */
  function Expected(ts: Tables, cols: seq<Expr>, e: Expr): Sight
  {
    if !LeavesDetermined(cols, Leaves(Prune(ts, e))) then Visible else if NeverNull(ts, e) then Present else Absent
  }

  function Marked(ts: Tables, cols: seq<Expr>, n: int, group: seq<Row>, e: Expr): SqlMeaning.Val
  {
    Eval(Marking(), Env(MarkedRow(ts, cols, n), group), ToDynamic(e))
  }

  function MarkedAll(ts: Tables, cols: seq<Expr>, n: int, group: seq<Row>, es: seq<Expr>): (r: seq<SqlMeaning.Val>)
    ensures |r| == |es|
  {
    EvalAll(Marking(), Env(MarkedRow(ts, cols, n), group), AllToDynamic(es))
  }

  function Sees(ts: Tables, cols: seq<Expr>, group: seq<Row>, e: Expr): Sight
  {
    Seen(Marked(ts, cols, 0, group, e), Marked(ts, cols, 1, group, e))
  }

  lemma {:induction false} MarksShow(ts: Tables, cols: seq<Expr>, group: seq<Row>, e: Expr)
    requires AllNodes(ProperBinary, e)
    ensures Sees(ts, cols, group, e) == Expected(ts, cols, e)
    decreases e, 2
  {
    match e
    case Unary(op, arg) =>
      MarksShow(ts, cols, group, arg);
      UnaryShows(ts, cols, group, op, arg);
    case Binary(op, l, r) =>
      MarksShow(ts, cols, group, l);
      MarksShow(ts, cols, group, r);
      BinaryShows(ts, cols, group, op, l, r);
    case ReplaceIn(a, b, c) =>
      MarksShow(ts, cols, group, a);
      MarksShow(ts, cols, group, b);
      MarksShow(ts, cols, group, c);
      ReplaceShows(ts, cols, group, a, b, c);
    case CoalesceOf(args) => CoalesceShows(ts, cols, group, args);
    case ConcatOf(args) =>
      if args == [] {
        NoPartsShow(ts, cols, group);
      } else {
        MarksShow(ts, cols, group, args[0]);
        MarksOfShow(ts, cols, group, args[1..]);
        ConcatShows(ts, cols, group, args);
      }
    case CastTo(arg, _, sqlType) =>
      MarksShow(ts, cols, group, arg);
      MarkOne(Marked(ts, cols, 0, group, arg), Marked(ts, cols, 1, group, arg));
    case DatePlus(date, durations) =>
      MarksShow(ts, cols, group, date);
      DatePlusShows(ts, cols, group, date, durations);
    case _ => LeafAloneShows(ts, cols, group, e);
  }

  lemma LeafAloneShows(ts: Tables, cols: seq<Expr>, group: seq<Row>, e: Expr)
    requires e.Col? || e.Val? || IsAggregation(e)
    ensures Sees(ts, cols, group, e) == Expected(ts, cols, e)
  {
    assert Leaves(Prune(ts, e)) == [e];
    assert LeavesDetermined(cols, [e]) <==> LeafDetermined(cols, [e][0]);
    if e.Col? {
      var row := VTerm("row", [VInt(0)]);
      assert row.args[0] == VInt(0);
    }
  }

  lemma {:induction false} UnaryShows(ts: Tables, cols: seq<Expr>, group: seq<Row>, op: UnaryOp, arg: Expr)
    requires Sees(ts, cols, group, arg) == Expected(ts, cols, arg)
    ensures Sees(ts, cols, group, Unary(op, arg)) == Expected(ts, cols, Unary(op, arg))
  {
    UnaryIsSeen(ts, cols, group, op, arg);
  }

  lemma {:induction false} UnaryIsSeen(ts: Tables, cols: seq<Expr>, group: seq<Row>, op: UnaryOp, arg: Expr)
    requires !Sees(ts, cols, group, arg).Mixed?
    ensures Sees(ts, cols, group, Unary(op, arg)) == if op == UnaryFunction(Coalesce) then Sees(ts, cols, group, arg)
            else Through(Sees(ts, cols, group, arg).Visible?)
  {
    var v, w := Marked(ts, cols, 0, group, arg), Marked(ts, cols, 1, group, arg);
    EvalUnary(Marking(), MarkedRow(ts, cols, 0), group, op, arg);
    EvalUnary(Marking(), MarkedRow(ts, cols, 1), group, op, arg);
    FirstOfOne(v);
    FirstOfOne(w);
    MarkOne(v, w);
    MarkTwo(VDec(2000000), v, VDec(2000000), w);
  }

  lemma FirstOfOne(v: SqlMeaning.Val)
    ensures FirstNonNull([v]) == v
  {
  }

  lemma {:induction false} BinaryShows(ts: Tables, cols: seq<Expr>, group: seq<Row>, op: BinaryOp, l: Expr, r: Expr)
    requires op != BinaryFunction(Coalesce)
    requires Sees(ts, cols, group, l) == Expected(ts, cols, l) && Sees(ts, cols, group, r) == Expected(ts, cols, r)
    ensures Sees(ts, cols, group, Binary(op, l, r)) == Expected(ts, cols, Binary(op, l, r))
  {
    BinaryIsSeen(ts, cols, group, op, l, r);
    ExpectedOfTwo(ts, cols, Binary(op, l, r), l, r);
  }

  lemma {:induction false} ExpectedOfTwo(ts: Tables, cols: seq<Expr>, e: Expr, l: Expr, r: Expr)
    requires e.Binary? && e.left == l && e.right == r
    ensures Expected(ts, cols, e) == Through(Expected(ts, cols, l).Visible? || Expected(ts, cols, r).Visible?)
  {
    LeavesDeterminedSplit(cols, Leaves(Prune(ts, l)), Leaves(Prune(ts, r)));
  }

  lemma {:induction false} BinaryIsSeen(ts: Tables, cols: seq<Expr>, group: seq<Row>, op: BinaryOp, l: Expr, r: Expr)
    requires op != BinaryFunction(Coalesce) && !Sees(ts, cols, group, l).Mixed? && !Sees(ts, cols, group, r).Mixed?
    ensures Sees(ts, cols, group, Binary(op, l, r))
         == Through(Sees(ts, cols, group, l).Visible? || Sees(ts, cols, group, r).Visible?)
  {
    var v1, v2 := Marked(ts, cols, 0, group, l), Marked(ts, cols, 0, group, r);
    var w1, w2 := Marked(ts, cols, 1, group, l), Marked(ts, cols, 1, group, r);
    EvalBinary(Marking(), MarkedRow(ts, cols, 0), group, op, l, r);
    EvalBinary(Marking(), MarkedRow(ts, cols, 1), group, op, l, r);
    MarkTwo(v1, v2, w1, w2);
    if op.DaysFromTo? {
      MarkOne(v1, w1);
      MarkOne(v2, w2);
      MarkTwo(Mark([v2]), Mark([v1]), Mark([w2]), Mark([w1]));
    }
  }

  lemma {:induction false} ReplaceShows(ts: Tables, cols: seq<Expr>, group: seq<Row>, a: Expr, b: Expr, c: Expr)
    requires Sees(ts, cols, group, a) == Expected(ts, cols, a) && Sees(ts, cols, group, b) == Expected(ts, cols, b)
    requires Sees(ts, cols, group, c) == Expected(ts, cols, c)
    ensures Sees(ts, cols, group, ReplaceIn(a, b, c)) == Expected(ts, cols, ReplaceIn(a, b, c))
  {
    ReplaceIsSeen(ts, cols, group, a, b, c);
    LeavesDeterminedSplit(cols, Leaves(Prune(ts, a)) + Leaves(Prune(ts, b)), Leaves(Prune(ts, c)));
    LeavesDeterminedSplit(cols, Leaves(Prune(ts, a)), Leaves(Prune(ts, b)));
  }

  lemma {:induction false} ReplaceIsSeen(ts: Tables, cols: seq<Expr>, group: seq<Row>, a: Expr, b: Expr, c: Expr)
    requires !Sees(ts, cols, group, a).Mixed? && !Sees(ts, cols, group, b).Mixed? && !Sees(ts, cols, group, c).Mixed?
    ensures Sees(ts, cols, group, ReplaceIn(a, b, c)) == Through(
              Sees(ts, cols, group, a).Visible? || Sees(ts, cols, group, b).Visible?
              || Sees(ts, cols, group, c).Visible?)
  {
    EvalReplace(Marking(), MarkedRow(ts, cols, 0), group, a, b, c);
    EvalReplace(Marking(), MarkedRow(ts, cols, 1), group, a, b, c);
    MarkThree(Marked(ts, cols, 0, group, a), Marked(ts, cols, 0, group, b), Marked(ts, cols, 0, group, c),
              Marked(ts, cols, 1, group, a), Marked(ts, cols, 1, group, b), Marked(ts, cols, 1, group, c));
  }

  lemma {:induction false} DatePlusShows(ts: Tables, cols: seq<Expr>, group: seq<Row>, date: Expr, ds: seq<Duration>)
    requires Sees(ts, cols, group, date) == Expected(ts, cols, date)
    ensures Sees(ts, cols, group, DatePlus(date, ds)) == Expected(ts, cols, DatePlus(date, ds))
  {
    DatePlusIsSeen(ts, cols, group, date, ds);
    DurationsAreLeaves(cols, ds);
    LeavesDeterminedSplit(cols, Leaves(Prune(ts, date)), DurationLeaves(ds));
  }

  lemma {:induction false} DatePlusIsSeen(ts: Tables, cols: seq<Expr>, group: seq<Row>, date: Expr, ds: seq<Duration>)
    requires !Sees(ts, cols, group, date).Mixed?
    ensures Sees(ts, cols, group, DatePlus(date, ds))
         == if ds == [] then Sees(ts, cols, group, date) else Through(Sees(ts, cols, group, date).Visible?)
  {
    PlusDurations(Marked(ts, cols, 0, group, date), Marked(ts, cols, 1, group, date), ds);
  }

  lemma PlusDurations(v: SqlMeaning.Val, w: SqlMeaning.Val, ds: seq<Duration>)
    requires !Seen(v, w).Mixed?
    ensures Seen(
              FoldValues(Marking(), Known(Plus), v, EvalDurations(ds)),
              FoldValues(Marking(), Known(Plus), w, EvalDurations(ds)))
         == if ds == [] then Seen(v, w) else Through(Seen(v, w).Visible?)
  {
    DurationsAreQuiet(ds);
    FoldShows(Known(Plus), v, EvalDurations(ds), w, EvalDurations(ds));
  }

  lemma {:induction false} DurationsAreQuiet(ds: seq<Duration>)
    ensures NoneMixed(EvalDurations(ds), EvalDurations(ds)) && !AnyVisible(EvalDurations(ds), EvalDurations(ds))
  {
    if ds != [] {
      DurationsAreQuiet(ds[1..]);
    }
  }

  /** COALESCE gives the first operand that shows: those before it are NULL. */
  lemma {:induction false} CoalesceShows(ts: Tables, cols: seq<Expr>, group: seq<Row>, es: seq<Expr>)
    requires AllNodesOf(ProperBinary, es)
    ensures Seen(FirstNonNull(MarkedAll(ts, cols, 0, group, es)), FirstNonNull(MarkedAll(ts, cols, 1, group, es)))
         == if !LeavesDetermined(cols, LeavesOf(PruneCoalesce(ts, es))) then Visible
            else if AnyNeverNull(ts, es) then Present else Absent
    decreases es, 1
  {
    if es != [] {
      MarksShow(ts, cols, group, es[0]);
      if NeverNull(ts, es[0]) {
        OneLeafList(Prune(ts, es[0]));
      } else {
        CoalesceShows(ts, cols, group, es[1..]);
        LeavesDeterminedSplit(cols, Leaves(Prune(ts, es[0])), LeavesOf(PruneCoalesce(ts, es[1..])));
      }
    }
  }

  lemma OneLeafList(e: Expr)
    ensures LeavesOf([e]) == Leaves(e)
  {
    assert [e][1..] == [];
  }

  lemma {:induction false} MarksOfShow(ts: Tables, cols: seq<Expr>, group: seq<Row>, es: seq<Expr>)
    requires AllNodesOf(ProperBinary, es)
    ensures NoneMixed(MarkedAll(ts, cols, 0, group, es), MarkedAll(ts, cols, 1, group, es))
    ensures AnyVisible(MarkedAll(ts, cols, 0, group, es), MarkedAll(ts, cols, 1, group, es))
         == !LeavesDetermined(cols, LeavesOf(PruneAll(ts, es)))
    decreases es, 1
  {
    if es != [] {
      MarksShow(ts, cols, group, es[0]);
      MarksOfShow(ts, cols, group, es[1..]);
      LeavesDeterminedSplit(cols, Leaves(Prune(ts, es[0])), LeavesOf(PruneAll(ts, es[1..])));
    }
  }

  lemma NoPartsShow(ts: Tables, cols: seq<Expr>, group: seq<Row>)
    ensures Sees(ts, cols, group, ConcatOf([])) == Expected(ts, cols, ConcatOf([]))
  {
  }

  lemma {:induction false} ConcatShows(ts: Tables, cols: seq<Expr>, group: seq<Row>, es: seq<Expr>)
    requires es != [] && Sees(ts, cols, group, es[0]) == Expected(ts, cols, es[0])
    requires NoneMixed(MarkedAll(ts, cols, 0, group, es[1..]), MarkedAll(ts, cols, 1, group, es[1..]))
    requires AnyVisible(MarkedAll(ts, cols, 0, group, es[1..]), MarkedAll(ts, cols, 1, group, es[1..]))
          == !LeavesDetermined(cols, LeavesOf(PruneAll(ts, es[1..])))
    ensures Sees(ts, cols, group, ConcatOf(es)) == Expected(ts, cols, ConcatOf(es))
  {
    ConcatValue(ts, cols, 0, group, es);
    ConcatValue(ts, cols, 1, group, es);
    FoldShows(Unlisted("||"), Marked(ts, cols, 0, group, es[0]), MarkedAll(ts, cols, 0, group, es[1..]),
              Marked(ts, cols, 1, group, es[0]), MarkedAll(ts, cols, 1, group, es[1..]));
    ConcatLeaves(ts, cols, es);
  }

  lemma ConcatLeaves(ts: Tables, cols: seq<Expr>, es: seq<Expr>)
    requires es != []
    ensures LeavesDetermined(cols, Leaves(Prune(ts, ConcatOf(es))))
       <==> LeavesDetermined(cols, Leaves(Prune(ts, es[0]))) && LeavesDetermined(cols, LeavesOf(PruneAll(ts, es[1..])))
  {
    assert Leaves(Prune(ts, ConcatOf(es))) == LeavesOf(PruneAll(ts, es));
    LeavesDeterminedSplit(cols, Leaves(Prune(ts, es[0])), LeavesOf(PruneAll(ts, es[1..])));
  }

  lemma ConcatValue(ts: Tables, cols: seq<Expr>, n: int, group: seq<Row>, es: seq<Expr>)
    requires es != []
    ensures Marked(ts, cols, n, group, ConcatOf(es))
         == FoldValues(
              Marking(), Unlisted("||"), Marked(ts, cols, n, group, es[0]), MarkedAll(ts, cols, n, group, es[1..]))
  {
    EvalConcat(Marking(), MarkedRow(ts, cols, n), group, es);
  }

  // ------------------------------------------------------------------- the check is exact

  /** What the check asks of a leaf. */
  lemma LeafRule(leaves: seq<Expr>, groupBy: Option<seq<Expr>>)
    requires forall k :: 0 <= k < |leaves| ==> !IsOperation(leaves[k])
    ensures LeavesDetermined(GroupColumns(groupBy), leaves)
         <==> forall k :: 0 <= k < |leaves| ==> LeafAllowed(leaves[k], groupBy)
  {
  }

  /** The leaves show whether an expression aggregates: aggregations are leaves. */
  lemma {:induction false} AggregationIsLeaf(e: Expr)
    ensures AnyAggregation(Leaves(e)) <==> AggregationDepth(e) >= 1
    decreases e, 1
  {
    match e
    case Unary(_, arg) => AggregationIsLeaf(arg);
    case Binary(_, l, r) =>
      AggregationIsLeaf(l);
      AggregationIsLeaf(r);
      AnyAggregationSplit(Leaves(l), Leaves(r));
    case ReplaceIn(a, b, c) =>
      AggregationIsLeaf(a);
      AggregationIsLeaf(b);
      AggregationIsLeaf(c);
      AnyAggregationSplit(Leaves(a) + Leaves(b), Leaves(c));
      AnyAggregationSplit(Leaves(a), Leaves(b));
    case CoalesceOf(args) => AggregationIsLeafOf(args);
    case ConcatOf(args) => AggregationIsLeafOf(args);
    case CastTo(arg, _, _) => AggregationIsLeaf(arg);
    case DatePlus(date, durations) =>
      AggregationIsLeaf(date);
      DurationsAreLeaves([], durations);
      AnyAggregationSplit(Leaves(date), DurationLeaves(durations));
    case _ => assert Leaves(e) == [e] && (IsAggregation(e) <==> IsAggregation(Leaves(e)[0]));
  }

  lemma {:induction false} AggregationIsLeafOf(es: seq<Expr>)
    ensures AnyAggregation(LeavesOf(es)) <==> AggregationDepthOf(es) >= 1
    decreases es, 0
  {
    if es != [] {
      AggregationIsLeaf(es[0]);
      AggregationIsLeafOf(es[1..]);
      AnyAggregationSplit(Leaves(es[0]), LeavesOf(es[1..]));
    }
  }

  lemma AnyAggregationSplit(a: seq<Expr>, b: seq<Expr>)
    ensures AnyAggregation(a + b) <==> AnyAggregation(a) || AnyAggregation(b)
  {
    if k :| 0 <= k < |a| && IsAggregation(a[k]) {
      assert IsAggregation((a + b)[k]);
    }
    if k :| 0 <= k < |b| && IsAggregation(b[k]) {
      assert IsAggregation((a + b)[|a| + k]);
    }
  }

  lemma {:induction false} FlattenedAggregates(fields: seq<Field>)
    ensures AnyAggregation(Flatten(fields)) <==> SomeFieldAggregates(fields)
  {
    if fields != [] {
      AggregationIsLeaf(fields[0].val);
      FlattenedAggregates(fields[1..]);
      AnyAggregationSplit(Leaves(fields[0].val), Flatten(fields[1..]));
      assert forall k :: 1 <= k < |fields| ==> fields[k] == fields[1..][k - 1];
    }
  }

  lemma {:induction false} FlattenedLeaves(fields: seq<Field>, cols: seq<Expr>)
    ensures forall k :: 0 <= k < |Flatten(fields)| ==> !IsOperation(Flatten(fields)[k])
    ensures LeavesDetermined(cols, Flatten(fields)) <==>
            forall k :: 0 <= k < |fields| ==> LeavesDetermined(cols, Leaves(fields[k].val))
  {
    if fields != [] {
      FlattenedLeaves(fields[1..], cols);
      LeavesAreNotOperations(fields[0].val);
      LeavesDeterminedSplit(cols, Leaves(fields[0].val), Flatten(fields[1..]));
      assert forall k :: 1 <= k < |fields| ==> fields[k] == fields[1..][k - 1];
    }
  }

  /** A field is determined by its group exactly if the leaves that are not pruned are. */
  lemma DeterminedIffLeaves(ts: Tables, cols: seq<Expr>, e: Expr)
    ensures LeavesDetermined(cols, Leaves(Prune(ts, e))) ==> Determined(ts, cols, e)
    ensures AllNodes(ProperBinary, e) && Determined(ts, cols, e) ==> LeavesDetermined(cols, Leaves(Prune(ts, e)))
  {
    if LeavesDetermined(cols, Leaves(Prune(ts, e))) {
      forall I: Interp, row1: Row, row2: Row, group: seq<Row> |
        AgreeOn(cols, row1, row2) && RowConforms(ts, row1) && RowConforms(ts, row2)
        ensures Eval(I, Env(row1, group), ToDynamic(e)) == Eval(I, Env(row2, group), ToDynamic(e))
      {
        PruneKeepsValue(I, ts, row1, group, e);
        PruneKeepsValue(I, ts, row2, group, e);
        DeterminedByLeaves(cols, I, row1, row2, group, Prune(ts, e));
      }
    } else if AllNodes(ProperBinary, e) {
      MarksShow(ts, cols, [], e);
      MarkedConforms(ts, cols);
    }
  }

  /** Pruning takes leaves away. */
  lemma {:induction false} PrunedLeaves(ts: Tables, cols: seq<Expr>, e: Expr)
    ensures LeavesDetermined(cols, Leaves(e)) ==> LeavesDetermined(cols, Leaves(Prune(ts, e)))
    ensures AllNodes(NoCoalesce, e) ==> Prune(ts, e) == e && AllNodes(ProperBinary, e)
    decreases e, 1
  {
    match e
    case AggregationOf(_, val) => PrunedLeaves(ts, cols, val);
    case Unary(_, arg) => PrunedLeaves(ts, cols, arg);
    case Binary(_, l, r) =>
      PrunedLeaves(ts, cols, l);
      PrunedLeaves(ts, cols, r);
      LeavesDeterminedSplit(cols, Leaves(l), Leaves(r));
      LeavesDeterminedSplit(cols, Leaves(Prune(ts, l)), Leaves(Prune(ts, r)));
    case ReplaceIn(a, b, c) =>
      PrunedLeaves(ts, cols, a);
      PrunedLeaves(ts, cols, b);
      PrunedLeaves(ts, cols, c);
      PrunedThree(ts, cols, a, b, c);
    case CoalesceOf(args) => PrunedLeavesOf(ts, cols, args);
    case ConcatOf(args) => PrunedLeavesOf(ts, cols, args);
    case CastTo(arg, _, _) => PrunedLeaves(ts, cols, arg);
    case DatePlus(date, durations) =>
      PrunedLeaves(ts, cols, date);
      LeavesDeterminedSplit(cols, Leaves(date), DurationLeaves(durations));
      LeavesDeterminedSplit(cols, Leaves(Prune(ts, date)), DurationLeaves(durations));
    case _ =>
  }

  lemma {:induction false} PrunedThree(ts: Tables, cols: seq<Expr>, a: Expr, b: Expr, c: Expr)
    requires LeavesDetermined(cols, Leaves(a)) ==> LeavesDetermined(cols, Leaves(Prune(ts, a)))
    requires LeavesDetermined(cols, Leaves(b)) ==> LeavesDetermined(cols, Leaves(Prune(ts, b)))
    requires LeavesDetermined(cols, Leaves(c)) ==> LeavesDetermined(cols, Leaves(Prune(ts, c)))
    ensures LeavesDetermined(cols, Leaves(a) + Leaves(b) + Leaves(c))
        ==> LeavesDetermined(cols, Leaves(Prune(ts, a)) + Leaves(Prune(ts, b)) + Leaves(Prune(ts, c)))
  {
    LeavesDeterminedSplit(cols, Leaves(a) + Leaves(b), Leaves(c));
    LeavesDeterminedSplit(cols, Leaves(a), Leaves(b));
    LeavesDeterminedSplit(cols, Leaves(Prune(ts, a)) + Leaves(Prune(ts, b)), Leaves(Prune(ts, c)));
    LeavesDeterminedSplit(cols, Leaves(Prune(ts, a)), Leaves(Prune(ts, b)));
  }

  lemma {:induction false} PrunedLeavesOf(ts: Tables, cols: seq<Expr>, es: seq<Expr>)
    ensures LeavesDetermined(cols, LeavesOf(es)) ==>
            && LeavesDetermined(cols, LeavesOf(PruneAll(ts, es)))
            && LeavesDetermined(cols, LeavesOf(PruneCoalesce(ts, es)))
    ensures AllNodesOf(NoCoalesce, es) ==> PruneAll(ts, es) == es && AllNodesOf(ProperBinary, es)
    decreases es, 0
  {
    if es != [] {
      PrunedLeaves(ts, cols, es[0]);
      PrunedLeavesOf(ts, cols, es[1..]);
      OneLeafList(Prune(ts, es[0]));
      LeavesDeterminedSplit(cols, Leaves(es[0]), LeavesOf(es[1..]));
      LeavesDeterminedSplit(cols, Leaves(Prune(ts, es[0])), LeavesOf(PruneAll(ts, es[1..])));
      LeavesDeterminedSplit(cols, Leaves(Prune(ts, es[0])), LeavesOf(PruneCoalesce(ts, es[1..])));
    }
  }

  /** What an exact check would ask: the same of the leaves that are not pruned. */
  ghost predicate PrunedAllowed(ts: Tables, fields: seq<Field>, groupBy: Option<seq<Expr>>)
  {
    (groupBy.None? && !SomeFieldAggregates(fields))
    || forall k :: 0 <= k < |fields| ==> LeavesDetermined(GroupColumns(groupBy), Leaves(Prune(ts, fields[k].val)))
  }

  /** A query is well grouped exactly if its leaves, up to those that COALESCE never looks at,
      pass the check. So an accepted query is well grouped, and without COALESCE a rejected one
      is not. */
  lemma {:induction false} CheckIsExact(ts: Tables, fields: seq<Field>, groupBy: Option<seq<Expr>>)
    ensures CheckAggregation(Flatten(fields), groupBy) ==> WellGrouped(ts, fields, groupBy)
    ensures (forall k :: 0 <= k < |fields| ==> AllNodes(ProperBinary, fields[k].val))
            ==> (WellGrouped(ts, fields, groupBy) <==> PrunedAllowed(ts, fields, groupBy))
    ensures (forall k :: 0 <= k < |fields| ==> AllNodes(NoCoalesce, fields[k].val)) && WellGrouped(ts, fields, groupBy)
            ==> CheckAggregation(Flatten(fields), groupBy)
  {
    var cols := GroupColumns(groupBy);
    FlattenedAggregates(fields);
    FlattenedLeaves(fields, cols);
    LeafRule(Flatten(fields), groupBy);
    forall k | 0 <= k < |fields|
      ensures LeavesDetermined(cols, Leaves(fields[k].val)) ==> Determined(ts, cols, fields[k].val)
      ensures AllNodes(ProperBinary, fields[k].val) ==>
              (Determined(ts, cols, fields[k].val) <==> LeavesDetermined(cols, Leaves(Prune(ts, fields[k].val))))
      ensures AllNodes(NoCoalesce, fields[k].val) && Determined(ts, cols, fields[k].val) ==>
              LeavesDetermined(cols, Leaves(fields[k].val))
    {
      PrunedLeaves(ts, cols, fields[k].val);
      DeterminedIffLeaves(ts, cols, fields[k].val);
    }
  }

  /** COALESCE of a leaf that is never NULL and a column that is not grouped: rejected although
      it never depends on the column. */
  lemma CoalesceIsRejected(ts: Tables, cols: seq<Expr>, first: Expr, name: string, alias: string)
    requires (first.Val? || first.Col?) && NeverNull(ts, first) && LeafDetermined(cols, first)
    requires Col(name, alias) !in cols
    ensures var fields := [Field(CoalesceOf([first, Col(name, alias)]), None)];
            !CheckAggregation(Flatten(fields), Some(cols)) && WellGrouped(ts, fields, Some(cols))
  {
    var col := Col(name, alias);
    var e := CoalesceOf([first, col]);
    TwoLeaves(e, first, col);
    assert !LeafAllowed(Flatten([Field(e, None)])[1], Some(cols));
    assert PruneCoalesce(ts, [first, col]) == [Prune(ts, first)] && Prune(ts, first) == first;
    assert Prune(ts, e) == CoalesceOf([first]);
    OneLeafList(first);
    assert LeavesDetermined(cols, [first]);
    DeterminedIffLeaves(ts, cols, e);
  }

  lemma TwoLeaves(e: Expr, first: Expr, col: Expr)
    requires e == CoalesceOf([first, col]) && (first.Val? || first.Col?) && col.Col?
    ensures Flatten([Field(e, None)]) == [first, col]
  {
    assert [first, col][1..] == [col];
    OneLeafList(col);
    assert LeavesOf([first, col]) == [first] + [col];
    assert Flatten([Field(e, None)]) == [first, col] + Flatten([]);
  }

  /** With a literal in front. */
  lemma CoalesceIsRejectedAnyway(ts: Tables, n: int, name: string, alias: string)
    ensures var e := CoalesceOf([Val(CppType(Integral("int"), false), Integer(n)), Col(name, alias)]);
            !CheckAggregation(Flatten([Field(e, None)]), Some([])) && WellGrouped(ts, [Field(e, None)], Some([]))
  {
    CoalesceIsRejected(ts, [], Val(CppType(Integral("int"), false), Integer(n)), name, alias);
  }

  /** With a grouped column in front that is not nullable. */
  lemma CoalesceOfGroupedIsRejected(ts: Tables, g: string, name: string, alias: string)
    requires NonNullable(ts, g, alias) && g != name
    ensures var fields := [Field(CoalesceOf([Col(g, alias), Col(name, alias)]), None)];
            && !CheckAggregation(Flatten(fields), Some([Col(g, alias)]))
            && WellGrouped(ts, fields, Some([Col(g, alias)]))
  {
    CoalesceIsRejected(ts, [Col(g, alias)], Col(g, alias), name, alias);
  }

  // ------------------------------------------------------------------- ORDER BY

  /** Once rows are grouped, what they are ordered by must be determined by the group. */
  ghost predicate WellOrdered(ts: Tables, fields: seq<Field>, groupBy: Option<seq<Expr>>, orderBy: seq<Expr>)
  {
    (groupBy.None? && !SomeFieldAggregates(fields))
    || forall k :: 0 <= k < |orderBy| ==> Determined(ts, GroupColumns(groupBy), orderBy[k])
  }

  /** The same check is applied to the ORDER BY columns on their own
      (include/sqlgen/transpilation/order_by_t.hpp), without looking at the fields. It accepts
      every well-ordered query; what it accepts is well ordered except for an ORDER BY beside
      aggregating fields without GROUP BY. */
  lemma OrderByCheckIsAlmostExact(ts: Tables, fields: seq<Field>, groupBy: Option<seq<Expr>>, orderBy: seq<Expr>)
    requires forall k :: 0 <= k < |orderBy| ==> orderBy[k].Col?
    ensures WellOrdered(ts, fields, groupBy, orderBy) ==> CheckAggregation(orderBy, groupBy)
    ensures CheckAggregation(orderBy, groupBy) ==>
            (WellOrdered(ts, fields, groupBy, orderBy) <==>
             groupBy.Some? || !SomeFieldAggregates(fields) || orderBy == [])
  {
    var cols := GroupColumns(groupBy);
    forall k | 0 <= k < |orderBy| ensures Determined(ts, cols, orderBy[k]) <==> orderBy[k] in cols {
      DeterminedIffLeaves(ts, cols, orderBy[k]);
      assert Leaves(Prune(ts, orderBy[k])) == [orderBy[k]];
      assert LeavesDetermined(cols, [orderBy[k]]) <==> LeafDetermined(cols, [orderBy[k]][0]);
    }
    if orderBy != [] {
      assert Determined(ts, cols, orderBy[0]) <==> orderBy[0] in cols;
    }
  }

  /** SELECT SUM(a) ... ORDER BY b is accepted although b is not determined. */
  lemma OrderBesideSum(ts: Tables, a: string, b: string)
    ensures var fields, orderBy := [Field(AggregationOf(Sum, Col(a, "")), None)], [Col(b, "")];
            && CheckAggregation(Flatten(fields), None) && CheckAggregation(orderBy, None)
            && !WellOrdered(ts, fields, None, orderBy)
  {
    var fields, orderBy := [Field(AggregationOf(Sum, Col(a, "")), None)], [Col(b, "")];
    assert AggregationDepth(fields[0].val) >= 1;
    OrderByCheckIsAlmostExact(ts, fields, None, orderBy);
  }

  // ------------------------------------------------------------------- nested aggregations

  /** HasAggregations: looks below operations, not below aggregations. */
  predicate HasAggregations(e: Expr)
    decreases e, 1
  {
    match e
    case Unary(_, arg) => HasAggregations(arg)
    case Binary(_, l, r) => HasAggregations(l) || HasAggregations(r)
    case ReplaceIn(a, b, c) => HasAggregations(a) || HasAggregations(b) || HasAggregations(c)
    case CoalesceOf(args) => AnyHasAggregations(args)
    case ConcatOf(args) => AnyHasAggregations(args)
    case CastTo(arg, _, _) => HasAggregations(arg)
    case DatePlus(date, _) => HasAggregations(date)
    case _ => IsAggregation(e)
  }

  predicate AnyHasAggregations(es: seq<Expr>)
    decreases es, 0
  {
    es != [] && (HasAggregations(es[0]) || AnyHasAggregations(es[1..]))
  }

  /** MakeField's static_assert, in the field and in all its operands. */
  predicate AggregationsAllowed(e: Expr)
    decreases e, 1
  {
    match e
    case AggregationOf(_, val) => !HasAggregations(val) && AggregationsAllowed(val)
    case Unary(_, arg) => AggregationsAllowed(arg)
    case Binary(_, l, r) => AggregationsAllowed(l) && AggregationsAllowed(r)
    case ReplaceIn(a, b, c) => AggregationsAllowed(a) && AggregationsAllowed(b) && AggregationsAllowed(c)
    case CoalesceOf(args) => AllAggregationsAllowed(args)
    case ConcatOf(args) => AllAggregationsAllowed(args)
    case CastTo(arg, _, _) => AggregationsAllowed(arg)
    case DatePlus(date, _) => AggregationsAllowed(date)
    case _ => true
  }

  predicate AllAggregationsAllowed(es: seq<Expr>)
    decreases es, 0
  {
    es == [] || (AggregationsAllowed(es[0]) && AllAggregationsAllowed(es[1..]))
  }

  /** The ban accepts exactly the expressions with no aggregation inside another. */
  lemma {:induction false} NestingIsBanned(e: Expr)
    ensures HasAggregations(e) <==> AggregationDepth(e) >= 1
    ensures AggregationsAllowed(e) <==> AggregationDepth(e) <= 1
    decreases e, 1
  {
    match e
    case AggregationOf(_, val) => NestingIsBanned(val);
    case Unary(_, arg) => NestingIsBanned(arg);
    case Binary(_, l, r) =>
      NestingIsBanned(l);
      NestingIsBanned(r);
    case ReplaceIn(a, b, c) =>
      NestingIsBanned(a);
      NestingIsBanned(b);
      NestingIsBanned(c);
    case CoalesceOf(args) => NestingIsBannedIn(args);
    case ConcatOf(args) => NestingIsBannedIn(args);
    case CastTo(arg, _, _) => NestingIsBanned(arg);
    case DatePlus(date, _) => NestingIsBanned(date);
    case _ =>
  }

  lemma {:induction false} NestingIsBannedIn(es: seq<Expr>)
    ensures AnyHasAggregations(es) <==> AggregationDepthOf(es) >= 1
    ensures AllAggregationsAllowed(es) <==> AggregationDepthOf(es) <= 1
    decreases es, 0
  {
    if es != [] {
      NestingIsBanned(es[0]);
      NestingIsBannedIn(es[1..]);
    }
  }
}
