/** The type rules for expressions (include/sqlgen/transpilation/underlying_t.hpp), and which of
    them get a nullable type, against the values their SQL can have. */
module Nullability {
  import opened Wrappers
  import opened SqlTree
  import opened SqlNames
  import opened SqlMeaning
  import opened Joins

  // ------------------------------------------------------------------- types

  /** What the rules look at of a C++ type without optional and smart pointers. bool counts as
      integral; NullLiteral is the type of std::nullopt and nullptr. */
  datatype Base = Integral(name: string) | Floating(name: string) | Str | Time | NullLiteral | Other(name: string)

  datatype CppType = CppType(base: Base, nullable: bool)

  type Columns = map<string, CppType>

  /** TableTupleType's result: one table, or the tables of a join chain with their aliases. */
  datatype Tables = OneTable(columns: Columns) | JoinedTables(tables: seq<(Columns, string)>)

  /** The type of op1 + op2 for values of two types, if there is such an operator. */
  type Addition = (Base, Base) -> Option<Base>

  // ------------------------------------------------------------------- expressions

  datatype UnaryOp = UnaryFunction(fn: Function) | LogBaseTwo | Part(part: DatePart)

  datatype BinaryOp = Infix(arith: ArithOp) | BinaryFunction(fn: Function) | DaysFromTo

  datatype Expr =
    | AggregationOf(agg: Aggregator, val: Expr)
    | CountOf(name: string, alias: string, distinct: bool)
    | CountAll
    | Col(name: string, alias: string)
    | Val(cpp: CppType, v: Value)
    | Unary(unary: UnaryOp, arg: Expr)
    | Binary(binary: BinaryOp, left: Expr, right: Expr)
    | ReplaceIn(str: Expr, from: Expr, to: Expr)
    | CoalesceOf(args: seq<Expr>)
    | ConcatOf(args: seq<Expr>)
    | CastTo(arg: Expr, target: CppType, sqlType: Type)
    | DatePlus(date: Expr, durations: seq<Duration>)

  function ToAlias(alias: string): Option<string>
  {
    if alias == "" then None else Some(alias)
  }

  /** The dynamic tree of an expression (include/sqlgen/transpilation/make_field.hpp). */
  function ToDynamic(e: Expr): Operation
    decreases e, 1
  {
    match e
    case AggregationOf(agg, val) => Aggregate(agg, ToDynamic(val))
    case CountOf(name, alias, distinct) => Count(Some(Column(ToAlias(alias), name)), distinct)
    case CountAll => Count(None, false)
    case Col(name, alias) => Operand(ColumnRef(Column(ToAlias(alias), name)))
    case Val(_, v) => Operand(Literal(v))
    case Unary(UnaryFunction(fn), arg) => Call(fn, [ToDynamic(arg)])
    case Unary(LogBaseTwo, arg) => Log2(ToDynamic(arg))
    case Unary(Part(part), arg) => Extract(part, ToDynamic(arg))
    case Binary(Infix(arith), l, r) => Arith(arith, ToDynamic(l), ToDynamic(r))
    case Binary(BinaryFunction(fn), l, r) => Call(fn, [ToDynamic(l), ToDynamic(r)])
    case Binary(DaysFromTo, l, r) => DaysBetween(ToDynamic(l), ToDynamic(r))
    case ReplaceIn(str, from, to) => Call(Replace, [ToDynamic(str), ToDynamic(from), ToDynamic(to)])
    case CoalesceOf(args) => Call(Coalesce, AllToDynamic(args))
    case ConcatOf(args) => Concat(AllToDynamic(args))
    case CastTo(arg, _, sqlType) => Cast(ToDynamic(arg), sqlType)
    case DatePlus(date, durations) => DatePlusDuration(ToDynamic(date), durations)
  }

  function AllToDynamic(es: seq<Expr>): (r: seq<Operation>)
    ensures |r| == |es|
    decreases es, 0
  {
    if es == [] then [] else [ToDynamic(es[0])] + AllToDynamic(es[1..])
  }

  // ------------------------------------------------------------------- what expressions mean

  /** The value of a typed expression, defined without its dynamic tree. */
  function Means(I: Interp, env: Env, e: Expr): SqlMeaning.Val
    decreases e, 1
  {
    match e
    case AggregationOf(agg, val) => I.aggregate(Known(agg), false, MeansOver(I, env.group, env.group, val))
    case CountOf(name, alias, distinct) =>
      I.aggregate(Unlisted("COUNT"), distinct, ColumnValues(env.group, name, alias))
    case CountAll => VInt(|env.group|)
    case Col(name, alias) => ColumnValue(env.row, name, alias)
    case Val(_, v) => EvalValue(I, v)
    case Unary(UnaryFunction(fn), arg) =>
      var v := Means(I, env, arg);
      if fn.Coalesce? then v else I.call(Known(fn), [v])
    case Unary(LogBaseTwo, arg) => I.call(Unlisted("log"), [VDec(2000000), Means(I, env, arg)])
    case Unary(Part(part), arg) => I.extract(Known(part), Means(I, env, arg))
    case Binary(Infix(arith), l, r) => I.binary(Known(arith), Means(I, env, l), Means(I, env, r))
    case Binary(BinaryFunction(fn), l, r) =>
      var v, w := Means(I, env, l), Means(I, env, r);
      if !fn.Coalesce? then I.call(Known(fn), [v, w]) else if v.VNull? then w else v
    case Binary(DaysFromTo, l, r) =>
      I.binary(Known(Minus), I.cast(Date, Means(I, env, r)), I.cast(Date, Means(I, env, l)))
    case ReplaceIn(str, from, to) =>
      I.call(Known(Replace), [Means(I, env, str), Means(I, env, from), Means(I, env, to)])
    case CoalesceOf(args) => FirstNonNull(MeansAll(I, env, args))
    case ConcatOf(args) =>
      var vs := MeansAll(I, env, args);
      if vs == [] then VNull else FoldValues(I, Unlisted("||"), vs[0], vs[1..])
    case CastTo(arg, _, sqlType) => I.cast(DatabaseType(sqlType), Means(I, env, arg))
    case DatePlus(date, durations) => FoldValues(I, Known(Plus), Means(I, env, date), EvalDurations(durations))
  }

  function MeansAll(I: Interp, env: Env, es: seq<Expr>): (r: seq<SqlMeaning.Val>)
    ensures |r| == |es|
    decreases es, 0
  {
    if es == [] then [] else [Means(I, env, es[0])] + MeansAll(I, env, es[1..])
  }

  function MeansOver(I: Interp, rows: seq<Row>, group: seq<Row>, e: Expr): seq<SqlMeaning.Val>
    decreases e, 2, |rows|
  {
    if rows == [] then [] else [Means(I, Env(rows[0], group), e)] + MeansOver(I, rows[1..], group, e)
  }

  function ColumnValue(row: Row, name: string, alias: string): SqlMeaning.Val
  {
    row(if alias == "" then None else Some(alias), name)
  }

  function ColumnValues(rows: seq<Row>, name: string, alias: string): seq<SqlMeaning.Val>
  {
    if rows == [] then [] else [ColumnValue(rows[0], name, alias)] + ColumnValues(rows[1..], name, alias)
  }

  lemma {:induction false} EvalUnary(I: Interp, row: Row, group: seq<Row>, op: UnaryOp, arg: Expr)
    ensures var v := Eval(I, Env(row, group), ToDynamic(arg));
            Eval(I, Env(row, group), ToDynamic(Unary(op, arg))) ==
            match op
            case UnaryFunction(fn) => if fn.Coalesce? then FirstNonNull([v]) else I.call(Known(fn), [v])
            case LogBaseTwo => I.call(Unlisted("log"), [VDec(2000000), v])
            case Part(part) => I.extract(Known(part), v)
  {
    assert EvalAll(I, Env(row, group), [ToDynamic(arg)]) == [Eval(I, Env(row, group), ToDynamic(arg))];
  }

  lemma {:induction false} EvalBinary(I: Interp, row: Row, group: seq<Row>, op: BinaryOp, l: Expr, r: Expr)
    ensures var v1, v2 := Eval(I, Env(row, group), ToDynamic(l)), Eval(I, Env(row, group), ToDynamic(r));
            Eval(I, Env(row, group), ToDynamic(Binary(op, l, r))) ==
            match op
            case Infix(arith) => I.binary(Known(arith), v1, v2)
            case BinaryFunction(fn) =>
              if fn.Coalesce? then FirstNonNull([v1, v2]) else I.call(Known(fn), [v1, v2])
            case DaysFromTo => I.binary(Known(Minus), I.cast(Date, v2), I.cast(Date, v1))
  {
    var o1, o2 := ToDynamic(l), ToDynamic(r);
    assert [o1, o2][1..] == [o2];
    assert EvalAll(I, Env(row, group), [o2]) == [Eval(I, Env(row, group), o2)];
    assert EvalAll(I, Env(row, group), [o1, o2]) == [Eval(I, Env(row, group), o1), Eval(I, Env(row, group), o2)];
  }

  lemma {:induction false} EvalReplace(I: Interp, row: Row, group: seq<Row>, a: Expr, b: Expr, c: Expr)
    ensures Eval(I, Env(row, group), ToDynamic(ReplaceIn(a, b, c))) ==
            I.call(Known(Replace), [Eval(I, Env(row, group), ToDynamic(a)), Eval(I, Env(row, group), ToDynamic(b)),
                               Eval(I, Env(row, group), ToDynamic(c))])
  {
    var ops := [ToDynamic(a), ToDynamic(b), ToDynamic(c)];
    EvalThree(I, Env(row, group), ops[0], ops[1], ops[2]);
    EvalCall(I, Env(row, group), Replace, ops);
  }

  lemma {:induction false} EvalCall(I: Interp, env: Env, fn: Function, ops: seq<Operation>)
    requires !fn.Coalesce?
    ensures Eval(I, env, Call(fn, ops)) == I.call(Known(fn), EvalAll(I, env, ops))
  {
  }

  lemma {:induction false} EvalThree(I: Interp, env: Env, o1: Operation, o2: Operation, o3: Operation)
    ensures EvalAll(I, env, [o1, o2, o3]) == [Eval(I, env, o1), Eval(I, env, o2), Eval(I, env, o3)]
  {
    assert [o1, o2, o3][1..] == [o2, o3] && [o2, o3][1..] == [o3];
    assert EvalAll(I, env, [o3]) == [Eval(I, env, o3)];
    assert EvalAll(I, env, [o2, o3]) == [Eval(I, env, o2), Eval(I, env, o3)];
  }

  lemma {:induction false} EvalConcat(I: Interp, row: Row, group: seq<Row>, args: seq<Expr>)
    requires args != []
    ensures var vs := EvalAll(I, Env(row, group), AllToDynamic(args));
            Eval(I, Env(row, group), ToDynamic(ConcatOf(args))) == FoldValues(I, Unlisted("||"), vs[0], vs[1..])
  {
    assert AllToDynamic(args)[1..] == AllToDynamic(args[1..]);
  }

  /** MakeField's dynamic tree means what the typed expression means. */
  lemma {:induction false} ToDynamicMeans(I: Interp, row: Row, group: seq<Row>, e: Expr)
    ensures Eval(I, Env(row, group), ToDynamic(e)) == Means(I, Env(row, group), e)
    decreases e, 1
  {
    match e
    case AggregationOf(agg, val) => ToDynamicMeansOver(I, group, group, val);
    case CountOf(name, alias, _) => ColumnMeansOver(group, name, alias);
    case Unary(op, arg) =>
      ToDynamicMeans(I, row, group, arg);
      EvalUnary(I, row, group, op, arg);
    case Binary(op, l, r) =>
      ToDynamicMeans(I, row, group, l);
      ToDynamicMeans(I, row, group, r);
      EvalBinary(I, row, group, op, l, r);
      FirstOfTwo(Means(I, Env(row, group), l), Means(I, Env(row, group), r));
    case ReplaceIn(a, b, c) =>
      ToDynamicMeans(I, row, group, a);
      ToDynamicMeans(I, row, group, b);
      ToDynamicMeans(I, row, group, c);
      EvalReplace(I, row, group, a, b, c);
    case CoalesceOf(args) => ToDynamicMeansAll(I, row, group, args);
    case ConcatOf(args) =>
      ToDynamicMeansAll(I, row, group, args);
      if args != [] {
        EvalConcat(I, row, group, args);
      }
    case CastTo(arg, _, _) => ToDynamicMeans(I, row, group, arg);
    case DatePlus(date, _) => ToDynamicMeans(I, row, group, date);
    case _ =>
  }

  lemma FirstOfTwo(v: SqlMeaning.Val, w: SqlMeaning.Val)
    ensures FirstNonNull([v]) == v && FirstNonNull([v, w]) == if v.VNull? then w else v
  {
    assert [v, w][1..] == [w] && FirstNonNull([w]) == w;
  }

  lemma {:induction false} ToDynamicMeansAll(I: Interp, row: Row, group: seq<Row>, es: seq<Expr>)
    ensures EvalAll(I, Env(row, group), AllToDynamic(es)) == MeansAll(I, Env(row, group), es)
    decreases es, 0
  {
    if es != [] {
      ToDynamicMeans(I, row, group, es[0]);
      ToDynamicMeansAll(I, row, group, es[1..]);
    }
  }

  lemma {:induction false} ToDynamicMeansOver(I: Interp, rows: seq<Row>, group: seq<Row>, e: Expr)
    ensures EvalOver(I, rows, group, ToDynamic(e)) == MeansOver(I, rows, group, e)
    decreases e, 2, |rows|
  {
    if rows != [] {
      ToDynamicMeans(I, rows[0], group, e);
      ToDynamicMeansOver(I, rows[1..], group, e);
    }
  }

  lemma {:induction false} ColumnMeansOver(rows: seq<Row>, name: string, alias: string)
    ensures ColumnOver(rows, Column(ToAlias(alias), name)) == ColumnValues(rows, name, alias)
  {
    if rows != [] {
      ColumnMeansOver(rows[1..], name, alias);
    }
  }

  // ------------------------------------------------------------------- the type rules

  /** The fold over the aliases: the last table of that alias. */
  function FindTable(found: Option<Columns>, tables: seq<(Columns, string)>, alias: string): Option<Columns>
    decreases |tables|
  {
    if tables == [] then found
    else FindTable(if tables[0].1 == alias then Some(tables[0].0) else found, tables[1..], alias)
  }

  function GetTable(ts: Tables, alias: string): Option<Columns>
  {
    match ts
    case OneTable(columns) => if alias == "" then Some(columns) else None
    case JoinedTables(tables) => FindTable(None, tables, alias)
  }

  function ColumnType(ts: Tables, name: string, alias: string): Option<CppType>
  {
    var t := GetTable(ts, alias);
    if t.Some? && name in t.value then Some(t.value[name]) else None
  }

  predicate IsNumber(b: Base) { b.Integral? || b.Floating? }

  predicate IsNumerical(fn: Function)
  {
    fn.Abs? || fn.Ceil? || fn.Cos? || fn.Exp? || fn.Floor? || fn.Ln? || fn.Sin? || fn.Sqrt? || fn.Tan?
  }

  predicate IsTrim(fn: Function) { fn.LTrim? || fn.RTrim? || fn.Trim? }

  function Accept(ok: bool, base: Base, nullable: bool): Option<CppType>
  {
    if ok then Some(CppType(base, nullable)) else None
  }

  function UnaryType(op: UnaryOp, t: CppType): Option<CppType>
  {
    match op
    case Part(part) =>
      Accept(t.base.Time?, Integral(if part.Unixepoch? then "time_t" else "int"), t.nullable)
    case LogBaseTwo => Accept(IsNumber(t.base), t.base, t.nullable)
    case UnaryFunction(fn) =>
      if IsNumerical(fn) then Accept(IsNumber(t.base), t.base, t.nullable)
      else if fn.Length? then Accept(t.base.Str?, Integral("size_t"), t.nullable)
      else Accept(t.base.Str? && (fn.Lower? || fn.Upper?), Str, t.nullable)
  }

  function BinaryType(add: Addition, op: BinaryOp, t1: CppType, t2: CppType): Option<CppType>
  {
    var either := t1.nullable || t2.nullable;
    match op
    case DaysFromTo => Accept(t1.base.Time? && t2.base.Time?, Floating("double"), either)
    case Infix(_) => AddType(add, t1, t2)
    case BinaryFunction(fn) =>
      if fn.Mod? then AddType(add, t1, t2)
      else if fn.Round? then
        Accept(IsNumber(t1.base) && t2.base.Integral? && !t2.nullable, t1.base, t1.nullable)
      else Accept(IsTrim(fn) && t1.base.Str? && t2.base.Str?, Str, either)
  }

  function AddType(add: Addition, t1: CppType, t2: CppType): Option<CppType>
  {
    var sum := add(t1.base, t2.base);
    if sum.Some? then Some(CppType(sum.value, t1.nullable || t2.nullable)) else None
  }

  predicate AllNullable(ts: seq<CppType>) { ts == [] || (ts[0].nullable && AllNullable(ts[1..])) }

  predicate AnyNullable(ts: seq<CppType>) { ts != [] && (ts[0].nullable || AnyNullable(ts[1..])) }

  predicate AllOf(ts: seq<CppType>, base: Base) { ts == [] || (ts[0].base == base && AllOf(ts[1..], base)) }

  function Underlying(add: Addition, ts: Tables, e: Expr): Option<CppType>
    decreases e, 1
  {
    match e
    case AggregationOf(_, val) => Underlying(add, ts, val)
    case CountOf(name, alias, _) => ColumnType(ts, name, alias)
    case CountAll => None
    case Col(name, alias) => ColumnType(ts, name, alias)
    case Val(cpp, _) => Some(cpp)
    case Unary(op, arg) =>
      (match Underlying(add, ts, arg)
       case None => None
       case Some(t) => UnaryType(op, t))
    case Binary(op, l, r) =>
      var t1, t2 := Underlying(add, ts, l), Underlying(add, ts, r);
      if t1.Some? && t2.Some? then BinaryType(add, op, t1.value, t2.value) else None
    case ReplaceIn(str, from, to) =>
      var t1, t2, t3 := Underlying(add, ts, str), Underlying(add, ts, from), Underlying(add, ts, to);
      if t1.Some? && t2.Some? && t3.Some? then
        Accept(t1.value.base.Str? && t2.value.base.Str? && t3.value.base.Str?, Str,
               t1.value.nullable || t2.value.nullable || t3.value.nullable)
      else None
    case CoalesceOf(args) =>
      (match UnderlyingAll(add, ts, args)
       case None => None
       case Some(all) => if all == [] then None else Accept(AllOf(all, all[0].base), all[0].base, AllNullable(all)))
    case ConcatOf(args) =>
      (match UnderlyingAll(add, ts, args)
       case None => None
       case Some(all) => Accept(all != [] && AllOf(all, Str), Str, AnyNullable(all)))
    case CastTo(arg, target, _) =>
      (match Underlying(add, ts, arg)
       case None => None
       case Some(t) => Some(CppType(target.base, t.nullable || target.nullable)))
    case DatePlus(date, _) =>
      (match Underlying(add, ts, date)
       case None => None
       case Some(t) => Accept(t.base.Time?, Time, t.nullable))
  }

  /** The types of all operands, if each has one. */
  function UnderlyingAll(add: Addition, ts: Tables, es: seq<Expr>): (r: Option<seq<CppType>>)
    ensures r.Some? ==> |r.value| == |es|
    decreases es, 0
  {
    if es == [] then Some([])
    else
      var head, tail := Underlying(add, ts, es[0]), UnderlyingAll(add, ts, es[1..]);
      if head.Some? && tail.Some? then Some([head.value] + tail.value) else None
  }

  // ------------------------------------------------------------------- what can be NULL

  predicate AllNull(vs: seq<SqlMeaning.Val>) { vs == [] || (vs[0].VNull? && AllNull(vs[1..])) }

  predicate AnyNull(vs: seq<SqlMeaning.Val>) { vs != [] && (vs[0].VNull? || AnyNull(vs[1..])) }

  /** Functions and operators give NULL exactly on a NULL operand; the aggregates other than
      COUNT exactly when no row has a value. */
  ghost predicate StrictTotal(I: Interp)
  {
    && (forall f, vs :: I.call(f, vs).VNull? <==> AnyNull(vs))
    && (forall s, a, b :: I.binary(s, a, b).VNull? <==> a.VNull? || b.VNull?)
    && (forall t, a :: I.cast(t, a).VNull? <==> a.VNull?)
    && (forall p, a :: I.extract(p, a).VNull? <==> a.VNull?)
    && (forall d, vs :: !I.aggregate(Unlisted("COUNT"), d, vs).VNull?)
    && (forall agg, d, vs :: I.aggregate(Known(agg), d, vs).VNull? <==> AllNull(vs))
  }

  /** A column is NULL only if its type says so. */
  ghost predicate RowConforms(ts: Tables, row: Row)
  {
    forall name, alias ::
      ColumnType(ts, name, alias).Some? && !ColumnType(ts, name, alias).value.nullable
      ==> !row(ToAlias(alias), name).VNull?
  }

  ghost predicate EnvConforms(ts: Tables, env: Env)
  {
    RowConforms(ts, env.row) && forall k :: 0 <= k < |env.group| ==> RowConforms(ts, env.group[k])
  }

  /** Whether some row makes the expression NULL, all nullable columns being NULL at once. */
  predicate CanBeNull(ts: Tables, emptyGroup: bool, e: Expr)
    decreases e, 1
  {
    match e
    case AggregationOf(_, val) => emptyGroup || CanBeNull(ts, emptyGroup, val)
    case CountOf(_, _, _) => false
    case CountAll => false
    case Col(name, alias) =>
      ColumnType(ts, name, alias).Some? ==> ColumnType(ts, name, alias).value.nullable
    case Val(_, v) => v.Null?
    case Unary(_, arg) => CanBeNull(ts, emptyGroup, arg)
    case Binary(_, l, r) => CanBeNull(ts, emptyGroup, l) || CanBeNull(ts, emptyGroup, r)
    case ReplaceIn(a, b, c) =>
      CanBeNull(ts, emptyGroup, a) || CanBeNull(ts, emptyGroup, b) || CanBeNull(ts, emptyGroup, c)
    case CoalesceOf(args) => AllCanBeNull(ts, emptyGroup, args)
    case ConcatOf(args) => args == [] || AnyCanBeNull(ts, emptyGroup, args)
    case CastTo(arg, _, _) => CanBeNull(ts, emptyGroup, arg)
    case DatePlus(date, _) => CanBeNull(ts, emptyGroup, date)
  }

  predicate AllCanBeNull(ts: Tables, emptyGroup: bool, es: seq<Expr>)
    decreases es, 0
  {
    es == [] || (CanBeNull(ts, emptyGroup, es[0]) && AllCanBeNull(ts, emptyGroup, es[1..]))
  }

  predicate AnyCanBeNull(ts: Tables, emptyGroup: bool, es: seq<Expr>)
    decreases es, 0
  {
    es != [] && (CanBeNull(ts, emptyGroup, es[0]) || AnyCanBeNull(ts, emptyGroup, es[1..]))
  }

  // ------------------------------------------------------------------- values and NULL

  lemma {:induction false} FirstNonNullIsNull(vs: seq<SqlMeaning.Val>)
    ensures FirstNonNull(vs).VNull? <==> AllNull(vs)
  {
    if vs != [] {
      FirstNonNullIsNull(vs[1..]);
    }
  }

  lemma {:induction false} FoldIsNull(I: Interp, op: Named<ArithOp>, acc: SqlMeaning.Val, vs: seq<SqlMeaning.Val>)
    requires StrictTotal(I)
    ensures FoldValues(I, op, acc, vs).VNull? <==> acc.VNull? || AnyNull(vs)
    decreases |vs|
  {
    if vs != [] {
      FoldIsNull(I, op, I.binary(op, acc, vs[0]), vs[1..]);
    }
  }

  lemma {:induction false} DurationsAreNotNull(ds: seq<Duration>)
    ensures !AnyNull(EvalDurations(ds))
  {
    if ds != [] {
      DurationsAreNotNull(ds[1..]);
    }
  }

  lemma FewNulls(v1: SqlMeaning.Val, v2: SqlMeaning.Val, v3: SqlMeaning.Val)
    ensures AnyNull([v1]) <==> v1.VNull?
    ensures AllNull([v1]) <==> v1.VNull?
    ensures AnyNull([v1, v2]) <==> v1.VNull? || v2.VNull?
    ensures AllNull([v1, v2]) <==> v1.VNull? && v2.VNull?
    ensures AnyNull([v1, v2, v3]) <==> v1.VNull? || v2.VNull? || v3.VNull?
  {
    assert [v2][1..] == [] && [v3][1..] == [] && [v1][1..] == [];
    assert [v1, v2][1..] == [v2] && [v2, v3][1..] == [v3] && [v1, v2, v3][1..] == [v2, v3];
    assert AnyNull([v2]) <==> v2.VNull?;
    assert AllNull([v2]) <==> v2.VNull?;
    assert AnyNull([v3]) <==> v3.VNull?;
    assert AnyNull([v2, v3]) <==> v2.VNull? || v3.VNull?;
  }

  lemma LiteralIsNull(I: Interp, v: Value)
    requires StrictTotal(I)
    ensures EvalValue(I, v).VNull? <==> v.Null?
  {
    match v
    case Timestamp(seconds) => FewNulls(VInt(seconds), VNull, VNull);
    case _ =>
  }

  // ------------------------------------------------------------------- NULL is predicted

  /** On every conforming row and group, only what CanBeNull allows is NULL. */
  lemma {:induction false} NullIsPredicted(I: Interp, ts: Tables, env: Env, e: Expr)
    requires StrictTotal(I) && EnvConforms(ts, env)
    ensures Eval(I, env, ToDynamic(e)).VNull? ==> CanBeNull(ts, env.group == [], e)
    decreases e, 1
  {
    match e
    case AggregationOf(agg, val) =>
      if env.group != [] {
        NullIsPredicted(I, ts, Env(env.group[0], env.group), val);
        AggregateIsNull(I, env, agg, ToDynamic(val));
      }
    case CountOf(_, _, _) =>
    case CountAll =>
    case Col(_, _) =>
    case Val(_, v) => LiteralIsNull(I, v);
    case Unary(op, arg) =>
      NullIsPredicted(I, ts, env, arg);
      UnaryIsNull(I, env, op, arg);
    case Binary(op, l, r) =>
      NullIsPredicted(I, ts, env, l);
      NullIsPredicted(I, ts, env, r);
      BinaryIsNull(I, env, op, l, r);
    case ReplaceIn(str, from, to) =>
      NullIsPredicted(I, ts, env, str);
      NullIsPredicted(I, ts, env, from);
      NullIsPredicted(I, ts, env, to);
      ReplaceIsNull(I, env, str, from, to);
    case CoalesceOf(args) =>
      NullsArePredicted(I, ts, env, args);
      FirstNonNullIsNull(EvalAll(I, env, AllToDynamic(args)));
    case ConcatOf(args) =>
      NullsArePredicted(I, ts, env, args);
      ConcatIsNull(I, env, AllToDynamic(args));
    case CastTo(arg, _, _) => NullIsPredicted(I, ts, env, arg);
    case DatePlus(date, durations) =>
      NullIsPredicted(I, ts, env, date);
      DurationsAreNotNull(durations);
      FoldIsNull(I, Known(Plus), Eval(I, env, ToDynamic(date)), EvalDurations(durations));
  }

  lemma {:induction false} NullsArePredicted(I: Interp, ts: Tables, env: Env, es: seq<Expr>)
    requires StrictTotal(I) && EnvConforms(ts, env)
    ensures AllNull(EvalAll(I, env, AllToDynamic(es))) ==> AllCanBeNull(ts, env.group == [], es)
    ensures AnyNull(EvalAll(I, env, AllToDynamic(es))) ==> AnyCanBeNull(ts, env.group == [], es)
    decreases es, 0
  {
    if es != [] {
      NullIsPredicted(I, ts, env, es[0]);
      NullsArePredicted(I, ts, env, es[1..]);
    }
  }

  lemma {:induction false} AggregateIsNull(I: Interp, env: Env, agg: Aggregator, o: Operation)
    requires StrictTotal(I) && env.group != []
    ensures Eval(I, env, Aggregate(agg, o)).VNull? ==> Eval(I, Env(env.group[0], env.group), o).VNull?
    ensures |env.group| == 1 ==>
      (Eval(I, env, Aggregate(agg, o)).VNull? <==> Eval(I, Env(env.group[0], env.group), o).VNull?)
  {
    var vs := EvalOver(I, env.group, env.group, o);
    assert vs[0] == Eval(I, Env(env.group[0], env.group), o);
    if |env.group| == 1 {
      assert vs == [vs[0]];
      FewNulls(vs[0], VNull, VNull);
    }
  }

  /** NULL in, NULL out, for the operators of one operand. */
  lemma {:induction false} UnaryIsNull(I: Interp, env: Env, op: UnaryOp, arg: Expr)
    requires StrictTotal(I)
    ensures Eval(I, env, ToDynamic(Unary(op, arg))).VNull? <==> Eval(I, env, ToDynamic(arg)).VNull?
  {
    var v := Eval(I, env, ToDynamic(arg));
    EvalUnary(I, env.row, env.group, op, arg);
    FirstOfTwo(v, VNull);
    FewNulls(v, VNull, VNull);
    FewNulls(VDec(2000000), v, VNull);
  }

  /** Any NULL in, NULL out, for the operators of two operands. */
  lemma {:induction false} BinaryIsNull(I: Interp, env: Env, op: BinaryOp, l: Expr, r: Expr)
    requires StrictTotal(I)
    ensures Eval(I, env, ToDynamic(Binary(op, l, r))).VNull?
            ==> Eval(I, env, ToDynamic(l)).VNull? || Eval(I, env, ToDynamic(r)).VNull?
    ensures op != BinaryFunction(Coalesce) ==>
      (Eval(I, env, ToDynamic(Binary(op, l, r))).VNull?
       <==> Eval(I, env, ToDynamic(l)).VNull? || Eval(I, env, ToDynamic(r)).VNull?)
  {
    var v1, v2 := Eval(I, env, ToDynamic(l)), Eval(I, env, ToDynamic(r));
    EvalBinary(I, env.row, env.group, op, l, r);
    FewNulls(v1, v2, VNull);
    FirstOfTwo(v1, v2);
  }

  lemma {:induction false} ReplaceIsNull(I: Interp, env: Env, str: Expr, from: Expr, to: Expr)
    requires StrictTotal(I)
    ensures Eval(I, env, ToDynamic(ReplaceIn(str, from, to))).VNull? <==>
            || Eval(I, env, ToDynamic(str)).VNull?
            || Eval(I, env, ToDynamic(from)).VNull?
            || Eval(I, env, ToDynamic(to)).VNull?
  {
    EvalReplace(I, env.row, env.group, str, from, to);
    FewNulls(Eval(I, env, ToDynamic(str)), Eval(I, env, ToDynamic(from)), Eval(I, env, ToDynamic(to)));
  }

  lemma ConcatIsNull(I: Interp, env: Env, parts: seq<Operation>)
    requires StrictTotal(I)
    ensures Eval(I, env, Concat(parts)).VNull? <==> parts == [] || AnyNull(EvalAll(I, env, parts))
  {
    if parts != [] {
      FoldIsNull(I, Unlisted("||"), Eval(I, env, parts[0]), EvalAll(I, env, parts[1..]));
    }
  }

  // ------------------------------------------------------------------- the worst row

  /** The row on which every nullable column is NULL. */
  function Worst(ts: Tables): Row
  {
    (alias: Option<string>, name: string) =>
      var t := ColumnType(ts, name, if alias.Some? then alias.value else "");
      if t.Some? && !t.value.nullable then VInt(0) else VNull
  }

  function WorstEnv(ts: Tables, emptyGroup: bool): Env
  {
    Env(Worst(ts), if emptyGroup then [] else [Worst(ts)])
  }

  /** Of the columns in `known`, all that are not non-nullable in `ts` are NULL. */
  ghost predicate NullWherePossible(known: Tables, ts: Tables, env: Env)
  {
    && (env.group == [] || env.group == [env.row])
    && forall name, alias ::
         && ColumnType(known, name, alias).Some?
         && (ColumnType(ts, name, alias).Some? ==> ColumnType(ts, name, alias).value.nullable)
         ==> env.row(ToAlias(alias), name).VNull?
  }

  /** What CanBeNull allows is NULL where all nullable columns are. */
  lemma {:induction false} WorstIsNull(I: Interp, add: Addition, known: Tables, ts: Tables, env: Env, e: Expr)
    requires StrictTotal(I) && NullWherePossible(known, ts, env)
    requires Underlying(add, known, e).Some? && CanBeNull(ts, env.group == [], e)
    ensures Eval(I, env, ToDynamic(e)).VNull?
    decreases e, 1
  {
    match e
    case AggregationOf(agg, val) =>
      if env.group != [] {
        WorstIsNull(I, add, known, ts, env, val);
        AggregateIsNull(I, env, agg, ToDynamic(val));
      }
    case Col(_, _) =>
    case Val(_, v) => LiteralIsNull(I, v);
    case Unary(op, arg) =>
      WorstIsNull(I, add, known, ts, env, arg);
      UnaryIsNull(I, env, op, arg);
    case Binary(_, _, _) => WorstOperandIsNull(I, add, known, ts, env, e);
    case ReplaceIn(_, _, _) => WorstOperandIsNull(I, add, known, ts, env, e);
    case CoalesceOf(args) =>
      WorstAreNull(I, add, known, ts, env, args);
      FirstNonNullIsNull(EvalAll(I, env, AllToDynamic(args)));
    case ConcatOf(args) =>
      WorstAreNull(I, add, known, ts, env, args);
      ConcatIsNull(I, env, AllToDynamic(args));
    case CastTo(arg, _, _) => WorstIsNull(I, add, known, ts, env, arg);
    case DatePlus(date, durations) =>
      WorstIsNull(I, add, known, ts, env, date);
      FoldIsNull(I, Known(Plus), Eval(I, env, ToDynamic(date)), EvalDurations(durations));
  }

  lemma {:induction false} WorstOperandIsNull(I: Interp, add: Addition, known: Tables, ts: Tables, env: Env, e: Expr)
    requires StrictTotal(I) && NullWherePossible(known, ts, env) && (e.Binary? || e.ReplaceIn?)
    requires Underlying(add, known, e).Some? && CanBeNull(ts, env.group == [], e)
    ensures Eval(I, env, ToDynamic(e)).VNull?
    decreases e, 0
  {
    match e
    case Binary(op, l, r) =>
      if CanBeNull(ts, env.group == [], l) {
        WorstIsNull(I, add, known, ts, env, l);
      } else {
        WorstIsNull(I, add, known, ts, env, r);
      }
      BinaryIsNull(I, env, op, l, r);
    case ReplaceIn(str, from, to) =>
      if CanBeNull(ts, env.group == [], str) {
        WorstIsNull(I, add, known, ts, env, str);
      } else if CanBeNull(ts, env.group == [], from) {
        WorstIsNull(I, add, known, ts, env, from);
      } else {
        WorstIsNull(I, add, known, ts, env, to);
      }
      ReplaceIsNull(I, env, str, from, to);
  }

  lemma {:induction false} WorstAreNull(I: Interp, add: Addition, known: Tables, ts: Tables, env: Env, es: seq<Expr>)
    requires StrictTotal(I) && NullWherePossible(known, ts, env) && UnderlyingAll(add, known, es).Some?
    ensures AllCanBeNull(ts, env.group == [], es) ==> AllNull(EvalAll(I, env, AllToDynamic(es)))
    ensures AnyCanBeNull(ts, env.group == [], es) ==> AnyNull(EvalAll(I, env, AllToDynamic(es)))
    decreases es, 0
  {
    if es != [] {
      if CanBeNull(ts, env.group == [], es[0]) {
        WorstIsNull(I, add, known, ts, env, es[0]);
      }
      WorstAreNull(I, add, known, ts, env, es[1..]);
    }
  }

  /** The worst row and a group of at most itself conform to the types. */
  lemma WorstConforms(ts: Tables, emptyGroup: bool)
    ensures EnvConforms(ts, WorstEnv(ts, emptyGroup)) && NullWherePossible(ts, ts, WorstEnv(ts, emptyGroup))
    ensures WorstEnv(ts, emptyGroup).group == [] <==> emptyGroup
  {
  }

  /** Some conforming row and group (empty or not) make the expression NULL. */
  ghost predicate IsNullSomewhere(I: Interp, ts: Tables, emptyGroup: bool, e: Expr)
  {
    exists env :: EnvConforms(ts, env) && (env.group == [] <==> emptyGroup) && Eval(I, env, ToDynamic(e)).VNull?
  }

  /** CanBeNull is exact for the accepted expressions. */
  lemma {:induction false} CanBeNullIsExact(I: Interp, add: Addition, ts: Tables, emptyGroup: bool, e: Expr)
    requires StrictTotal(I) && Underlying(add, ts, e).Some?
    ensures CanBeNull(ts, emptyGroup, e) <==> IsNullSomewhere(I, ts, emptyGroup, e)
  {
    if CanBeNull(ts, emptyGroup, e) {
      NullOnWorst(I, add, ts, emptyGroup, e);
    }
    if IsNullSomewhere(I, ts, emptyGroup, e) {
      var env :| EnvConforms(ts, env) && (env.group == [] <==> emptyGroup) && Eval(I, env, ToDynamic(e)).VNull?;
      NullIsPredicted(I, ts, env, e);
    }
  }

  lemma NullOnWorst(I: Interp, add: Addition, ts: Tables, emptyGroup: bool, e: Expr)
    requires StrictTotal(I) && Underlying(add, ts, e).Some? && CanBeNull(ts, emptyGroup, e)
    ensures IsNullSomewhere(I, ts, emptyGroup, e)
  {
    var env := WorstEnv(ts, emptyGroup);
    WorstConforms(ts, emptyGroup);
    WorstIsNull(I, add, ts, ts, env, e);
    assert EnvConforms(ts, env);
  }

  // ------------------------------------------------------------------- the inferred type

  predicate AllNodes(p: Expr -> bool, e: Expr)
    decreases e, 1
  {
    && p(e)
    && match e
       case AggregationOf(_, val) => AllNodes(p, val)
       case Unary(_, arg) => AllNodes(p, arg)
       case Binary(_, l, r) => AllNodes(p, l) && AllNodes(p, r)
       case ReplaceIn(a, b, c) => AllNodes(p, a) && AllNodes(p, b) && AllNodes(p, c)
       case CoalesceOf(args) => AllNodesOf(p, args)
       case ConcatOf(args) => AllNodesOf(p, args)
       case CastTo(arg, _, _) => AllNodes(p, arg)
       case DatePlus(date, _) => AllNodes(p, date)
       case _ => true
  }

  predicate AllNodesOf(p: Expr -> bool, es: seq<Expr>)
    decreases es, 0
  {
    es == [] || (AllNodes(p, es[0]) && AllNodesOf(p, es[1..]))
  }

  /** to_value gives NULL for an empty optional, for nullopt and for nullptr, and only then. */
  predicate Converted(e: Expr)
  {
    e.Val? ==> && (e.v.Null? ==> e.cpp.nullable || e.cpp.base.NullLiteral?)
               && (e.cpp.base.NullLiteral? ==> e.v.Null? && !e.cpp.nullable)
  }

  predicate NoNullLiteral(e: Expr) { e.Val? ==> !e.cpp.base.NullLiteral? }

  predicate NoAggregation(e: Expr) { !e.AggregationOf? }

  /** No literal and no cast target is optional by itself, and COUNT has no column. */
  predicate Plain(e: Expr)
  {
    && NoNullLiteral(e)
    && (e.Val? ==> !e.cpp.nullable)
    && (e.CastTo? ==> !e.target.nullable)
    && !e.CountOf?
  }

  predicate NoCoalesce(e: Expr) { !e.CoalesceOf? && !(e.Binary? && e.binary == BinaryFunction(Coalesce)) }

  /** Without nullopt and nullptr literals, and with rows to aggregate, an accepted expression
      that can be NULL has a nullable type. */
  lemma {:induction false} NullableWherePossible(add: Addition, ts: Tables, emptyGroup: bool, e: Expr)
    requires AllNodes(Converted, e) && AllNodes(NoNullLiteral, e)
    requires emptyGroup ==> AllNodes(NoAggregation, e)
    requires Underlying(add, ts, e).Some? && CanBeNull(ts, emptyGroup, e)
    ensures Underlying(add, ts, e).value.nullable
    decreases e, 1
  {
    match e
    case AggregationOf(_, val) => NullableWherePossible(add, ts, emptyGroup, val);
    case Col(_, _) =>
    case Val(_, _) =>
    case Unary(_, arg) => NullableWherePossible(add, ts, emptyGroup, arg);
    case Binary(_, l, r) =>
      if CanBeNull(ts, emptyGroup, l) {
        NullableWherePossible(add, ts, emptyGroup, l);
      } else {
        NullableWherePossible(add, ts, emptyGroup, r);
      }
    case ReplaceIn(a, b, c) =>
      if CanBeNull(ts, emptyGroup, a) {
        NullableWherePossible(add, ts, emptyGroup, a);
      } else if CanBeNull(ts, emptyGroup, b) {
        NullableWherePossible(add, ts, emptyGroup, b);
      } else {
        NullableWherePossible(add, ts, emptyGroup, c);
      }
    case CoalesceOf(args) => NullableWhereAllPossible(add, ts, emptyGroup, args);
    case ConcatOf(args) => NullableWhereAllPossible(add, ts, emptyGroup, args);
    case CastTo(arg, _, _) => NullableWherePossible(add, ts, emptyGroup, arg);
    case DatePlus(date, _) => NullableWherePossible(add, ts, emptyGroup, date);
  }

  lemma {:induction false} NullableWhereAllPossible(add: Addition, ts: Tables, emptyGroup: bool, es: seq<Expr>)
    requires AllNodesOf(Converted, es) && AllNodesOf(NoNullLiteral, es)
    requires emptyGroup ==> AllNodesOf(NoAggregation, es)
    requires UnderlyingAll(add, ts, es).Some?
    ensures AllCanBeNull(ts, emptyGroup, es) ==> AllNullable(UnderlyingAll(add, ts, es).value)
    ensures AnyCanBeNull(ts, emptyGroup, es) ==> AnyNullable(UnderlyingAll(add, ts, es).value)
    decreases es, 0
  {
    if es != [] {
      if CanBeNull(ts, emptyGroup, es[0]) {
        NullableWherePossible(add, ts, emptyGroup, es[0]);
      }
      NullableWhereAllPossible(add, ts, emptyGroup, es[1..]);
    }
  }

  /** For plain expressions the type is nullable only if some row makes the value NULL. */
  lemma {:induction false} PossibleWhereNullable(add: Addition, ts: Tables, emptyGroup: bool, e: Expr)
    requires AllNodes(Plain, e) && Underlying(add, ts, e).Some? && Underlying(add, ts, e).value.nullable
    ensures CanBeNull(ts, emptyGroup, e)
    decreases e, 1
  {
    match e
    case AggregationOf(_, val) => PossibleWhereNullable(add, ts, emptyGroup, val);
    case Col(_, _) =>
    case Unary(_, arg) => PossibleWhereNullable(add, ts, emptyGroup, arg);
    case Binary(_, l, r) =>
      if Underlying(add, ts, l).value.nullable {
        PossibleWhereNullable(add, ts, emptyGroup, l);
      } else {
        PossibleWhereNullable(add, ts, emptyGroup, r);
      }
    case ReplaceIn(a, b, c) =>
      if Underlying(add, ts, a).value.nullable {
        PossibleWhereNullable(add, ts, emptyGroup, a);
      } else if Underlying(add, ts, b).value.nullable {
        PossibleWhereNullable(add, ts, emptyGroup, b);
      } else {
        PossibleWhereNullable(add, ts, emptyGroup, c);
      }
    case CoalesceOf(args) => PossibleWhereAllNullable(add, ts, emptyGroup, args);
    case ConcatOf(args) => PossibleWhereAllNullable(add, ts, emptyGroup, args);
    case CastTo(arg, _, _) => PossibleWhereNullable(add, ts, emptyGroup, arg);
    case DatePlus(date, _) => PossibleWhereNullable(add, ts, emptyGroup, date);
  }

  lemma {:induction false} PossibleWhereAllNullable(add: Addition, ts: Tables, emptyGroup: bool, es: seq<Expr>)
    requires AllNodesOf(Plain, es) && UnderlyingAll(add, ts, es).Some?
    ensures AllNullable(UnderlyingAll(add, ts, es).value) ==> AllCanBeNull(ts, emptyGroup, es)
    ensures AnyNullable(UnderlyingAll(add, ts, es).value) ==> AnyCanBeNull(ts, emptyGroup, es)
    decreases es, 0
  {
    if es != [] {
      if Underlying(add, ts, es[0]).value.nullable {
        PossibleWhereNullable(add, ts, emptyGroup, es[0]);
      }
      PossibleWhereAllNullable(add, ts, emptyGroup, es[1..]);
    }
  }

  /** On rows of the table tuple's types: a plain expression, COALESCE included, has a nullable
      type if and only if some row makes it NULL. */
  lemma NullableIffNullSomewhere(I: Interp, add: Addition, ts: Tables, emptyGroup: bool, e: Expr)
    requires StrictTotal(I) && AllNodes(Plain, e) && AllNodes(Converted, e) && AllNodes(NoNullLiteral, e)
    requires emptyGroup ==> AllNodes(NoAggregation, e)
    requires Underlying(add, ts, e).Some?
    ensures Underlying(add, ts, e).value.nullable <==> IsNullSomewhere(I, ts, emptyGroup, e)
  {
    TypeIsExactIf(I, add, ts, emptyGroup, e);
    if Underlying(add, ts, e).value.nullable {
      PossibleWhereNullable(add, ts, emptyGroup, e);
    }
  }

  /** For all accepted expressions with no null literal: the type is exact unless it is nullable
      and no row can make the value NULL. */
  lemma TypeIsExactIf(I: Interp, add: Addition, ts: Tables, emptyGroup: bool, e: Expr)
    requires StrictTotal(I) && AllNodes(Converted, e) && AllNodes(NoNullLiteral, e)
    requires emptyGroup ==> AllNodes(NoAggregation, e)
    requires Underlying(add, ts, e).Some?
    ensures (Underlying(add, ts, e).value.nullable <==> IsNullSomewhere(I, ts, emptyGroup, e))
       <==> (Underlying(add, ts, e).value.nullable ==> CanBeNull(ts, emptyGroup, e))
  {
    CanBeNullIsExact(I, add, ts, emptyGroup, e);
    if !Underlying(add, ts, e).value.nullable && CanBeNull(ts, emptyGroup, e) {
      NullableWherePossible(add, ts, emptyGroup, e);
    }
  }

  /** cast<T>(std::nullopt): the type promises a value, and the value is always NULL. */
  lemma {:induction false} NullLiteralIsNotNullable(
      I: Interp, add: Addition, ts: Tables, env: Env, target: Base, sqlType: Type)
    requires StrictTotal(I)
    ensures var e := CastTo(Val(CppType(NullLiteral, false), Null), CppType(target, false), sqlType);
            && AllNodes(Converted, e)
            && Underlying(add, ts, e) == Some(CppType(target, false))
            && Eval(I, env, ToDynamic(e)).VNull?
  {
  }

  /** SUM of a non-nullable column over no rows: the same. */
  lemma SumOfNothingIsNull(I: Interp, add: Addition, columns: Columns, name: string, row: Row)
    requires StrictTotal(I) && name in columns && !columns[name].nullable
    ensures var e := AggregationOf(Sum, Col(name, ""));
            && Underlying(add, OneTable(columns), e) == Some(columns[name])
            && Eval(I, Env(row, []), ToDynamic(e)).VNull?
  {
  }

  /** In an expression without COALESCE a NULL operand reaches the top. */
  lemma {:induction false} NullReachesTheTop(add: Addition, ts: Tables, emptyGroup: bool, e: Expr)
    requires AllNodes(Converted, e) && AllNodes(NoCoalesce, e) && Underlying(add, ts, e).Some?
    requires !AllNodes(NoNullLiteral, e) || (emptyGroup && !AllNodes(NoAggregation, e))
    ensures CanBeNull(ts, emptyGroup, e)
    decreases e, 1
  {
    match e
    case AggregationOf(_, val) => if !emptyGroup { NullReachesTheTop(add, ts, emptyGroup, val); }
    case Val(_, _) =>
    case Unary(_, arg) => NullReachesTheTop(add, ts, emptyGroup, arg);
    case Binary(_, l, r) =>
      if !CanBeNull(ts, emptyGroup, l) && !CanBeNull(ts, emptyGroup, r) {
        if !AllNodes(NoNullLiteral, l) || (emptyGroup && !AllNodes(NoAggregation, l)) {
          NullReachesTheTop(add, ts, emptyGroup, l);
        } else {
          NullReachesTheTop(add, ts, emptyGroup, r);
        }
      }
    case ReplaceIn(a, b, c) =>
      if !AllNodes(NoNullLiteral, a) || (emptyGroup && !AllNodes(NoAggregation, a)) {
        NullReachesTheTop(add, ts, emptyGroup, a);
      } else if !AllNodes(NoNullLiteral, b) || (emptyGroup && !AllNodes(NoAggregation, b)) {
        NullReachesTheTop(add, ts, emptyGroup, b);
      } else {
        NullReachesTheTop(add, ts, emptyGroup, c);
      }
    case ConcatOf(args) => NullReachesTheConcat(add, ts, emptyGroup, args);
    case CastTo(arg, _, _) => NullReachesTheTop(add, ts, emptyGroup, arg);
    case DatePlus(date, _) => NullReachesTheTop(add, ts, emptyGroup, date);
  }

  lemma {:induction false} NullReachesTheConcat(add: Addition, ts: Tables, emptyGroup: bool, es: seq<Expr>)
    requires AllNodesOf(Converted, es) && AllNodesOf(NoCoalesce, es) && UnderlyingAll(add, ts, es).Some?
    requires !AllNodesOf(NoNullLiteral, es) || (emptyGroup && !AllNodesOf(NoAggregation, es))
    ensures AnyCanBeNull(ts, emptyGroup, es)
    decreases es, 0
  {
    if !AllNodes(NoNullLiteral, es[0]) || (emptyGroup && !AllNodes(NoAggregation, es[0])) {
      NullReachesTheTop(add, ts, emptyGroup, es[0]);
    } else {
      NullReachesTheConcat(add, ts, emptyGroup, es[1..]);
    }
  }

  /** When a non-nullable type is wrong: without COALESCE, exactly if the expression has a
      nullopt or nullptr literal, or aggregates (other than by COUNT) an empty group. */
  lemma PromiseIsBroken(I: Interp, add: Addition, ts: Tables, emptyGroup: bool, e: Expr)
    requires StrictTotal(I) && AllNodes(Converted, e) && AllNodes(NoCoalesce, e)
    requires Underlying(add, ts, e).Some? && !Underlying(add, ts, e).value.nullable
    ensures IsNullSomewhere(I, ts, emptyGroup, e) <==>
            !AllNodes(NoNullLiteral, e) || (emptyGroup && !AllNodes(NoAggregation, e))
  {
    CanBeNullIsExact(I, add, ts, emptyGroup, e);
    if !AllNodes(NoNullLiteral, e) || (emptyGroup && !AllNodes(NoAggregation, e)) {
      NullReachesTheTop(add, ts, emptyGroup, e);
    } else if CanBeNull(ts, emptyGroup, e) {
      NullableWherePossible(add, ts, emptyGroup, e);
    }
  }

  // ------------------------------------------------------------------- over a join chain

  datatype Join = Join(how: JoinType, columns: Columns, alias: string)

  /** FROM columns AS alias and its joins. */
  datatype From = From(columns: Columns, alias: string, joins: seq<Join>)

  function Hows(joins: seq<Join>): (r: seq<JoinType>)
    ensures |r| == |joins|
    ensures forall i :: 0 <= i < |joins| ==> r[i] == joins[i].how
  {
    seq(|joins|, i requires 0 <= i < |joins| => joins[i].how)
  }

  function ColumnsAt(from: From, i: nat): Columns
    requires i <= |from.joins|
  {
    if i == 0 then from.columns else from.joins[i - 1].columns
  }

  function AliasAt(from: From, i: nat): string
    requires i <= |from.joins|
  {
    if i == 0 then from.alias else from.joins[i - 1].alias
  }

  /** How queries refer to table i: without joins there is only the unaliased form. */
  function KeyAt(from: From, i: nat): string
    requires i <= |from.joins|
  {
    if from.joins == [] then "" else AliasAt(from, i)
  }

  function WrapInOptional(columns: Columns, wrap: bool): Columns
  {
    if wrap then map c | c in columns :: CppType(columns[c].base, true) else columns
  }

  /** The tables of the FROM clause, some of them wrapped in optionals. */
  function TablesWith(from: From, optional: seq<bool>): Tables
    requires |optional| == |from.joins| + 1
  {
    if from.joins == [] then OneTable(from.columns)
    else
      JoinedTables(seq(|from.joins| + 1, i requires 0 <= i <= |from.joins| =>
        (WrapInOptional(ColumnsAt(from, i), optional[i]), AliasAt(from, i))))
  }

  /** TableTupleType of the FROM clause. */
  function TablesOf(from: From): Tables { TablesWith(from, TableTuple(Hows(from.joins))) }

  /** One stored row: the values of its columns. */
  datatype Stored = Stored(get: string -> SqlMeaning.Val)

  ghost predicate StoredConforms(columns: Columns, s: Stored)
  {
    forall name :: name in columns && !columns[name].nullable ==> !s.get(name).VNull?
  }

  ghost predicate TablesConform(from: From, tables: seq<seq<Stored>>)
  {
    && |tables| == |from.joins| + 1
    && forall i, s :: 0 <= i <= |from.joins| && s in tables[i] ==> StoredConforms(ColumnsAt(from, i), s)
  }

  function Cell(joined: JoinedRow<Stored>, i: nat, name: string): SqlMeaning.Val
    requires i < |joined|
  {
    if joined[i].Some? then joined[i].value.get(name) else VNull
  }

  /** The row presents the columns of the joined tables under their aliases. */
  ghost predicate Presents(from: From, joined: JoinedRow<Stored>, row: Row)
  {
    && |joined| == |from.joins| + 1
    && forall i: nat, name :: i <= |from.joins| && name in ColumnsAt(from, i)
         ==> row(ToAlias(KeyAt(from, i)), name) == Cell(joined, i, name)
  }

  /** A row the query can produce from the tables. */
  ghost predicate Produced(from: From, tables: seq<seq<Stored>>, ons: seq<On<Stored>>, row: Row)
    requires |tables| == |from.joins| + 1 && |ons| == |from.joins|
  {
    exists joined: JoinedRow<Stored> :: joined in Chain(Hows(from.joins), tables, ons) && Presents(from, joined, row)
  }

  lemma {:induction false} FindTableFindsLast(found: Option<Columns>, tables: seq<(Columns, string)>, alias: string)
    returns (i: int)
    ensures -1 <= i < |tables|
    ensures i == -1 ==>
            FindTable(found, tables, alias) == found && forall k :: 0 <= k < |tables| ==> tables[k].1 != alias
    ensures i >= 0 ==> FindTable(found, tables, alias) == Some(tables[i].0) && tables[i].1 == alias
    decreases |tables|
  {
    if tables == [] {
      i := -1;
    } else {
      var next := if tables[0].1 == alias then Some(tables[0].0) else found;
      var k := FindTableFindsLast(next, tables[1..], alias);
      if k >= 0 {
        assert tables[1..][k] == tables[k + 1];
        i := k + 1;
      } else {
        assert forall j :: 1 <= j < |tables| ==> tables[1..][j - 1] == tables[j];
        i := if tables[0].1 == alias then 0 else -1;
      }
    }
  }

  /** The table a column is looked up in. */
  lemma ColumnOfTable(from: From, optional: seq<bool>, name: string, alias: string) returns (i: nat)
    requires |optional| == |from.joins| + 1 && (from.joins == [] ==> !optional[0])
    requires ColumnType(TablesWith(from, optional), name, alias).Some?
    ensures i <= |from.joins| && KeyAt(from, i) == alias && name in ColumnsAt(from, i)
    ensures ColumnType(TablesWith(from, optional), name, alias).value
         == CppType(ColumnsAt(from, i)[name].base, optional[i] || ColumnsAt(from, i)[name].nullable)
  {
    match TablesWith(from, optional)
    case OneTable(_) =>
      i := 0;
    case JoinedTables(tables) =>
      var k := FindTableFindsLast(None, tables, alias);
      i := k;
  }

  /** A joined row conforms to the types, if these are optional wherever it is null-extended. */
  lemma JoinedConforms(from: From, optional: seq<bool>, joined: JoinedRow<Stored>, row: Row)
    requires |optional| == |from.joins| + 1 && (from.joins == [] ==> !optional[0]) && Presents(from, joined, row)
    requires forall i :: 0 <= i < |joined| && joined[i].Some? ==> StoredConforms(ColumnsAt(from, i), joined[i].value)
    requires forall i :: 0 <= i < |joined| && joined[i].None? ==> optional[i]
    ensures RowConforms(TablesWith(from, optional), row)
  {
    var ts := TablesWith(from, optional);
    forall name, alias | ColumnType(ts, name, alias).Some? && !ColumnType(ts, name, alias).value.nullable
      ensures !row(ToAlias(alias), name).VNull?
    {
      var i := ColumnOfTable(from, optional, name, alias);
      assert row(ToAlias(KeyAt(from, i)), name) == Cell(joined, i, name);
    }
  }

  /** Rows of the join chain conform to the types of its table tuple. */
  lemma ProducedConforms(from: From, tables: seq<seq<Stored>>, ons: seq<On<Stored>>, row: Row)
    requires TablesConform(from, tables) && |ons| == |from.joins| && Produced(from, tables, ons, row)
    ensures RowConforms(TablesOf(from), row)
  {
    var hows := Hows(from.joins);
    var joined: JoinedRow<Stored> :| joined in Chain(hows, tables, ons) && Presents(from, joined, row);
    ChainRows(hows, tables, ons, joined);
    forall i | 0 <= i < |joined| && joined[i].None? ensures TableTuple(hows)[i] {
      FoldIsPositional(hows, i);
      NullOnlyWhereAllowed(hows, tables, ons, joined, i);
    }
    JoinedConforms(from, TableTuple(hows), joined, row);
  }

  /** End to end: over any join chain and any conforming contents, an accepted expression of
      non-nullable type is NULL on no row of the result, and in no group of such rows. */
  lemma NonNullableIsNeverNull(
      I: Interp, add: Addition, from: From, tables: seq<seq<Stored>>, ons: seq<On<Stored>>, env: Env, e: Expr)
    requires StrictTotal(I) && TablesConform(from, tables) && |ons| == |from.joins|
    requires Produced(from, tables, ons, env.row)
    requires forall k :: 0 <= k < |env.group| ==> Produced(from, tables, ons, env.group[k])
    requires AllNodes(Converted, e) && AllNodes(NoNullLiteral, e)
    requires env.group != [] || AllNodes(NoAggregation, e)
    requires Underlying(add, TablesOf(from), e).Some? && !Underlying(add, TablesOf(from), e).value.nullable
    ensures !Eval(I, env, ToDynamic(e)).VNull?
  {
    var ts := TablesOf(from);
    ProducedConforms(from, tables, ons, env.row);
    forall k | 0 <= k < |env.group| ensures RowConforms(ts, env.group[k]) {
      ProducedConforms(from, tables, ons, env.group[k]);
    }
    NullIsPredicted(I, ts, env, e);
    if CanBeNull(ts, env.group == [], e) {
      NullableWherePossible(add, ts, env.group == [], e);
    }
  }

  // ------------------------------------------------------------------- and no more than that

  /** Where that column can be NULL, the expression can. */
  ghost predicate Forces(name: string, alias: string, e: Expr)
  {
    forall ts: Tables :: ColumnCanBeNull(ts, name, alias) ==> CanBeNull(ts, false, e)
  }

  predicate ColumnCanBeNull(ts: Tables, name: string, alias: string)
  {
    ColumnType(ts, name, alias).Some? ==> ColumnType(ts, name, alias).value.nullable
  }

  /** A nullable type goes back to a nullable column. */
  lemma {:induction false} ForcingColumn(add: Addition, ts: Tables, e: Expr) returns (name: string, alias: string)
    requires AllNodes(Plain, e) && AllNodes(NoCoalesce, e)
    requires Underlying(add, ts, e).Some? && Underlying(add, ts, e).value.nullable
    ensures ColumnType(ts, name, alias).Some? && ColumnType(ts, name, alias).value.nullable
    ensures Forces(name, alias, e)
    decreases e, 1
  {
    match e
    case AggregationOf(_, val) => name, alias := ForcingColumn(add, ts, val);
    case Col(n, a) => name, alias := n, a;
    case Unary(_, arg) => name, alias := ForcingColumn(add, ts, arg);
    case Binary(_, l, r) =>
      if Underlying(add, ts, l).value.nullable {
        name, alias := ForcingColumn(add, ts, l);
      } else {
        name, alias := ForcingColumn(add, ts, r);
      }
    case ReplaceIn(a, b, c) =>
      if Underlying(add, ts, a).value.nullable {
        name, alias := ForcingColumn(add, ts, a);
      } else if Underlying(add, ts, b).value.nullable {
        name, alias := ForcingColumn(add, ts, b);
      } else {
        name, alias := ForcingColumn(add, ts, c);
      }
    case ConcatOf(args) => name, alias := ForcingColumnOf(add, ts, args);
    case CastTo(arg, _, _) => name, alias := ForcingColumn(add, ts, arg);
    case DatePlus(date, _) => name, alias := ForcingColumn(add, ts, date);
  }

  lemma {:induction false} ForcingColumnOf(add: Addition, ts: Tables, es: seq<Expr>)
    returns (name: string, alias: string)
    requires AllNodesOf(Plain, es) && AllNodesOf(NoCoalesce, es)
    requires UnderlyingAll(add, ts, es).Some? && AnyNullable(UnderlyingAll(add, ts, es).value)
    ensures ColumnType(ts, name, alias).Some? && ColumnType(ts, name, alias).value.nullable
    ensures forall t: Tables :: ColumnCanBeNull(t, name, alias) ==> AnyCanBeNull(t, false, es)
    decreases es, 0
  {
    if Underlying(add, ts, es[0]).value.nullable {
      name, alias := ForcingColumn(add, ts, es[0]);
    } else {
      name, alias := ForcingColumnOf(add, ts, es[1..]);
    }
  }

  ghost predicate DistinctKeys(from: From)
  {
    forall i: nat, j: nat :: i < j <= |from.joins| ==> KeyAt(from, i) != KeyAt(from, j)
  }

  ghost function LookUp(from: From, joined: JoinedRow<Stored>, alias: Option<string>, name: string): SqlMeaning.Val
    requires |joined| == |from.joins| + 1
  {
    if i: nat :| i <= |from.joins| && ToAlias(KeyAt(from, i)) == alias then Cell(joined, i, name) else VNull
  }

  /** Stored rows with NULL in every nullable column. */
  function Emptiest(columns: Columns): Stored
  {
    Stored((name: string) => if name in columns && columns[name].nullable then VNull else VInt(0))
  }

  function AllEmptiest(from: From): (r: seq<Stored>)
    ensures |r| == |from.joins| + 1
    ensures forall i :: 0 <= i < |r| ==> r[i] == Emptiest(ColumnsAt(from, i))
  {
    seq(|from.joins| + 1, i requires 0 <= i <= |from.joins| => Emptiest(ColumnsAt(from, i)))
  }

  lemma LookUpPresents(from: From, joined: JoinedRow<Stored>)
    requires DistinctKeys(from) && |joined| == |from.joins| + 1
    ensures Presents(from, joined, (a: Option<string>, n: string) => LookUp(from, joined, a, n))
  {
  }

  /** Some contents of the tables and some ON conditions make the expression NULL on a row of
      the result. */
  ghost predicate NullOnSomeRow(I: Interp, from: From, e: Expr)
  {
    exists tables: seq<seq<Stored>>, ons: seq<On<Stored>>, row: Row ::
      && TablesConform(from, tables) && |ons| == |from.joins| && Produced(from, tables, ons, row)
      && Eval(I, Env(row, [row]), ToDynamic(e)).VNull?
  }

  /** Some tables that can be null-extended together suffice to make the expression NULL. */
  ghost predicate NullByPattern(from: From, e: Expr)
  {
    exists p: seq<bool> :: Possible(Hows(from.joins), p) && CanBeNull(TablesWith(from, p), false, e)
  }

  /** The row that presents the emptiest stored rows, null-extended as the pattern says. */
  lemma PatternRow(from: From, p: seq<bool>, joined: JoinedRow<Stored>) returns (row: Row)
    requires DistinctKeys(from) && |p| == |from.joins| + 1 && (from.joins == [] ==> !p[0])
    requires Follows(joined, p, AllEmptiest(from))
    ensures Presents(from, joined, row)
    ensures NullWherePossible(TablesOf(from), TablesWith(from, p), Env(row, [row]))
  {
    LookUpPresents(from, joined);
    row := (a: Option<string>, n: string) => LookUp(from, joined, a, n);
    var all, ts := TableTuple(Hows(from.joins)), TablesWith(from, p);
    forall name, alias |
      && ColumnType(TablesOf(from), name, alias).Some?
      && (ColumnType(ts, name, alias).Some? ==> ColumnType(ts, name, alias).value.nullable)
      ensures row(ToAlias(alias), name).VNull?
    {
      var i := ColumnOfTable(from, all, name, alias);
      ColumnExists(from, p, i, name);
      assert row(ToAlias(KeyAt(from, i)), name) == Cell(joined, i, name);
    }
  }

  lemma ColumnExists(from: From, optional: seq<bool>, i: nat, name: string)
    requires DistinctKeys(from) && |optional| == |from.joins| + 1 && (from.joins == [] ==> !optional[0])
    requires i <= |from.joins| && name in ColumnsAt(from, i)
    ensures ColumnType(TablesWith(from, optional), name, KeyAt(from, i))
         == Some(CppType(ColumnsAt(from, i)[name].base, optional[i] || ColumnsAt(from, i)[name].nullable))
  {
    var ts := TablesWith(from, optional);
    if ts.JoinedTables? {
      var k := FindTableFindsLast(None, ts.tables, KeyAt(from, i));
      assert ts.tables[i].1 == KeyAt(from, i);
      assert k != -1 && KeyAt(from, k) == KeyAt(from, i);
    }
  }

  lemma ProducedByPattern(I: Interp, from: From, tables: seq<seq<Stored>>, ons: seq<On<Stored>>, row: Row, e: Expr)
    requires StrictTotal(I) && TablesConform(from, tables) && |ons| == |from.joins| && Produced(from, tables, ons, row)
    requires Eval(I, Env(row, [row]), ToDynamic(e)).VNull?
    ensures NullByPattern(from, e)
  {
    var hows := Hows(from.joins);
    var joined: JoinedRow<Stored> :| joined in Chain(hows, tables, ons) && Presents(from, joined, row);
    var p := PatternOf(joined);
    ChainRows(hows, tables, ons, joined);
    PatternIsPossible(hows, tables, ons, joined);
    JoinedConforms(from, p, joined, row);
    NullIsPredicted(I, TablesWith(from, p), Env(row, [row]), e);
  }

  lemma PatternProduces(I: Interp, add: Addition, from: From, p: seq<bool>, e: Expr)
    requires StrictTotal(I) && DistinctKeys(from) && Underlying(add, TablesOf(from), e).Some?
    requires Possible(Hows(from.joins), p) && CanBeNull(TablesWith(from, p), false, e)
    ensures NullOnSomeRow(I, from, e)
  {
    var tables, ons, joined := PatternHappens(Hows(from.joins), p, AllEmptiest(from));
    var row := PatternRow(from, p, joined);
    EmptiestConform(from, tables);
    WorstIsNull(I, add, TablesOf(from), TablesWith(from, p), Env(row, [row]), e);
    assert Produced(from, tables, ons, row);
  }

  lemma EmptiestConform(from: From, tables: seq<seq<Stored>>)
    requires |tables| == |from.joins| + 1 && HoldOnly(tables, AllEmptiest(from))
    ensures TablesConform(from, tables)
  {
  }

  /** For every accepted expression, COALESCE included: some result row makes it NULL if and
      only if some tables that can be null-extended together do. */
  lemma {:induction false} NullOnSomeRowIsExact(I: Interp, add: Addition, from: From, e: Expr)
    requires StrictTotal(I) && DistinctKeys(from) && Underlying(add, TablesOf(from), e).Some?
    ensures NullOnSomeRow(I, from, e) <==> NullByPattern(from, e)
  {
    if NullOnSomeRow(I, from, e) {
      var tables: seq<seq<Stored>>, ons: seq<On<Stored>>, row: Row :|
        && TablesConform(from, tables) && |ons| == |from.joins| && Produced(from, tables, ons, row)
        && Eval(I, Env(row, [row]), ToDynamic(e)).VNull?;
      ProducedByPattern(I, from, tables, ons, row, e);
    }
    if NullByPattern(from, e) {
      var p: seq<bool> :| Possible(Hows(from.joins), p) && CanBeNull(TablesWith(from, p), false, e);
      PatternProduces(I, add, from, p, e);
    }
  }

  /** The nullable types are no wider than they must be exactly where such a pattern exists: the
      type is nullable if and only if the expression is NULL on some result row, unless the type
      is nullable and no possible pattern makes the expression NULL. */
  lemma TightByPattern(I: Interp, add: Addition, from: From, e: Expr)
    requires StrictTotal(I) && DistinctKeys(from) && Underlying(add, TablesOf(from), e).Some?
    requires AllNodes(Converted, e) && AllNodes(NoNullLiteral, e)
    ensures (Underlying(add, TablesOf(from), e).value.nullable <==> NullOnSomeRow(I, from, e))
       <==> (Underlying(add, TablesOf(from), e).value.nullable ==> NullByPattern(from, e))
  {
    NullOnSomeRowIsExact(I, add, from, e);
    if !Underlying(add, TablesOf(from), e).value.nullable {
      NotNullOnAnyRow(I, add, from, e);
    }
  }

  /** What no types allow to be NULL is NULL on no row of the result. */
  lemma NeverNullOnAnyRow(I: Interp, from: From, e: Expr)
    requires StrictTotal(I) && forall ts: Tables :: !CanBeNull(ts, false, e)
    ensures !NullOnSomeRow(I, from, e)
  {
    if NullOnSomeRow(I, from, e) {
      var tables: seq<seq<Stored>>, ons: seq<On<Stored>>, row: Row :|
        && TablesConform(from, tables) && |ons| == |from.joins| && Produced(from, tables, ons, row)
        && Eval(I, Env(row, [row]), ToDynamic(e)).VNull?;
      ProducedByPattern(I, from, tables, ons, row, e);
    }
  }

  /** Too wide: COUNT of a nullable column plus one. */
  lemma CountPlusOneIsTooWide(I: Interp, add: Addition, from: From, name: string, alias: string)
    requires StrictTotal(I) && ColumnType(TablesOf(from), name, alias).Some?
    requires ColumnType(TablesOf(from), name, alias).value.nullable
    requires add(ColumnType(TablesOf(from), name, alias).value.base, Integral("int")).Some?
    ensures var e := Binary(Infix(Plus), CountOf(name, alias, false), Val(CppType(Integral("int"), false), Integer(1)));
            && Underlying(add, TablesOf(from), e).Some? && Underlying(add, TablesOf(from), e).value.nullable
            && !NullOnSomeRow(I, from, e)
  {
    var one := Val(CppType(Integral("int"), false), Integer(1));
    NeverNullOnAnyRow(I, from, Binary(Infix(Plus), CountOf(name, alias, false), one));
  }

  /** Too wide: a value cast to an optional type. */
  lemma OptionalCastIsTooWide(I: Interp, add: Addition, from: From, base: Base, sqlType: Type)
    requires StrictTotal(I)
    ensures var e := CastTo(Val(CppType(Integral("int"), false), Integer(1)), CppType(base, true), sqlType);
            && Underlying(add, TablesOf(from), e) == Some(CppType(base, true))
            && !NullOnSomeRow(I, from, e)
  {
    var one := Val(CppType(Integral("int"), false), Integer(1));
    NeverNullOnAnyRow(I, from, CastTo(one, CppType(base, true), sqlType));
  }

  /** Too wide: an optional literal that holds a value. */
  lemma OptionalLiteralIsTooWide(I: Interp, add: Addition, from: From, base: Base, v: Value)
    requires StrictTotal(I) && !v.Null?
    ensures var e := Val(CppType(base, true), v);
            && Underlying(add, TablesOf(from), e) == Some(CppType(base, true))
            && !NullOnSomeRow(I, from, e)
  {
    NeverNullOnAnyRow(I, from, Val(CppType(base, true), v));
  }

  lemma NotNullOnAnyRow(I: Interp, add: Addition, from: From, e: Expr)
    requires StrictTotal(I) && AllNodes(Converted, e) && AllNodes(NoNullLiteral, e)
    requires Underlying(add, TablesOf(from), e).Some? && !Underlying(add, TablesOf(from), e).value.nullable
    ensures !NullOnSomeRow(I, from, e)
  {
    forall tables: seq<seq<Stored>>, ons: seq<On<Stored>>, row: Row |
      TablesConform(from, tables) && |ons| == |from.joins| && Produced(from, tables, ons, row)
      ensures !Eval(I, Env(row, [row]), ToDynamic(e)).VNull?
    {
      NonNullableIsNeverNull(I, add, from, tables, ons, Env(row, [row]), e);
    }
  }

  /** A nullable column of a table tuple is nullable under some possible pattern. */
  lemma NullableColumnInPattern(from: From, name: string, alias: string)
    requires DistinctKeys(from)
    requires ColumnType(TablesOf(from), name, alias).Some? && ColumnType(TablesOf(from), name, alias).value.nullable
    ensures exists p: seq<bool> :: Possible(Hows(from.joins), p) && ColumnCanBeNull(TablesWith(from, p), name, alias)
  {
    var hows := Hows(from.joins);
    var i := ColumnOfTable(from, TableTuple(hows), name, alias);
    var p := seq(|hows| + 1, _ => false);
    if TableTuple(hows)[i] {
      OptionalInSomePattern(hows, i, AllEmptiest(from));
      p :| Possible(hows, p) && p[i];
    } else {
      NothingExtended(hows, p);
    }
    ColumnExists(from, p, i, name);
    assert ColumnCanBeNull(TablesWith(from, p), name, alias);
  }

  /** Without COALESCE and those three such a pattern always exists: the type is nullable if and
      only if some contents of the tables and some ON conditions make the expression NULL on a
      result row. */
  lemma NullableIsExact(I: Interp, add: Addition, from: From, e: Expr)
    requires StrictTotal(I) && DistinctKeys(from) && AllNodes(Plain, e) && AllNodes(NoCoalesce, e)
    requires AllNodes(Converted, e) && AllNodes(NoNullLiteral, e)
    requires Underlying(add, TablesOf(from), e).Some?
    ensures Underlying(add, TablesOf(from), e).value.nullable <==> NullOnSomeRow(I, from, e)
  {
    TightByPattern(I, add, from, e);
    if Underlying(add, TablesOf(from), e).value.nullable {
      var name, alias := ForcingColumn(add, TablesOf(from), e);
      NullableColumnInPattern(from, name, alias);
      var p: seq<bool> :| Possible(Hows(from.joins), p) && ColumnCanBeNull(TablesWith(from, p), name, alias);
      assert CanBeNull(TablesWith(from, p), false, e);
    }
  }

  /** The query of the next lemma: FROM t AS a FULL JOIN t AS b. */
  function SelfFullJoin(columns: Columns): From { From(columns, "a", [Join(FullJoin, columns, "b")]) }

  function EitherSide(name: string): Expr { CoalesceOf([Col(name, "a"), Col(name, "b")]) }

  lemma CoalesceOfTwoType(add: Addition, ts: Tables, l: Expr, r: Expr, t: CppType)
    requires Underlying(add, ts, l) == Some(t) && Underlying(add, ts, r) == Some(t) && t.nullable
    ensures Underlying(add, ts, CoalesceOf([l, r])) == Some(t)
  {
    assert [l, r][1..] == [r] && [t, t][1..] == [t] && [t][1..] == [];
    assert [r][1..] == [] && [t] + [] == [t] && [t] + [t] == [t, t];
    assert UnderlyingAll(add, ts, []) == Some([]);
    assert UnderlyingAll(add, ts, [r]) == Some([t]);
    assert UnderlyingAll(add, ts, [l, r]) == Some([t, t]);
    assert AllOf([t], t.base) && AllNullable([t]);
  }

  lemma SelfJoinColumns(columns: Columns, name: string, p: seq<bool>)
    requires name in columns && |p| == 2
    ensures var ts := TablesWith(SelfFullJoin(columns), p);
            && ColumnType(ts, name, "a") == Some(CppType(columns[name].base, p[0] || columns[name].nullable))
            && ColumnType(ts, name, "b") == Some(CppType(columns[name].base, p[1] || columns[name].nullable))
  {
    var from := SelfFullJoin(columns);
    assert KeyAt(from, 0) == "a" && KeyAt(from, 1) == "b";
    ColumnExists(from, p, 0, name);
    ColumnExists(from, p, 1, name);
  }

  lemma {:induction false} NeverAllExtended(joins: seq<JoinType>, p: seq<bool>)
    requires Possible(joins, p)
    ensures !AllTrue(p)
  {
    if joins != [] && p[|joins|] {
      var n := |joins| - 1;
      NeverAllExtended(joins[..n], p[..n + 1]);
    }
  }

  lemma EitherSideNull(columns: Columns, name: string, p: seq<bool>)
    requires name in columns && !columns[name].nullable && |p| == 2
    ensures CanBeNull(TablesWith(SelfFullJoin(columns), p), false, EitherSide(name)) ==> AllTrue(p)
  {
    var ts := TablesWith(SelfFullJoin(columns), p);
    SelfJoinColumns(columns, name, p);
    var a, b := Col(name, "a"), Col(name, "b");
    assert [a, b][1..] == [b];
    assert AllCanBeNull(ts, false, [b]) ==> CanBeNull(ts, false, b);
    assert AllCanBeNull(ts, false, [a, b]) ==> CanBeNull(ts, false, a) && CanBeNull(ts, false, b);
    assert CanBeNull(ts, false, a) == p[0] && CanBeNull(ts, false, b) == p[1];
  }

  /** With COALESCE the type can be nullable for no row: a full join never null-extends both
      sides of the same row. */
  lemma CoalesceOverFullJoin(I: Interp, add: Addition, columns: Columns, name: string)
    requires StrictTotal(I) && name in columns && !columns[name].nullable
    ensures var from := SelfFullJoin(columns);
            && Underlying(add, TablesOf(from), EitherSide(name)) == Some(CppType(columns[name].base, true))
            && !NullOnSomeRow(I, from, EitherSide(name))
  {
    var from := SelfFullJoin(columns);
    assert Hows(from.joins) == [FullJoin];
    assert Fold([FullJoin]) == Helper(true, [true]);
    SelfJoinColumns(columns, name, TableTuple([FullJoin]));
    CoalesceOfTwoType(add, TablesOf(from), Col(name, "a"), Col(name, "b"), CppType(columns[name].base, true));
    NullOnSomeRowIsExact(I, add, from, EitherSide(name));
    if NullByPattern(from, EitherSide(name)) {
      var p: seq<bool> :| Possible([FullJoin], p) && CanBeNull(TablesWith(from, p), false, EitherSide(name));
      EitherSideNull(columns, name, p);
      NeverAllExtended([FullJoin], p);
    }
  }
}
