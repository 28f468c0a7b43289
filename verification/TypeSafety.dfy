/** What the type rules for expressions are for: a query that compiles is one the database can
    run. The database's own typing of the dynamic tree (chapters 9 and 10 of the PostgreSQL
    documentation, by kind of type) against the rules of underlying_t.hpp and make_field.hpp. */
module TypeSafety {
  import opened Wrappers
  import opened SqlTree
  import opened SqlNames
  import opened Nullability

  // ------------------------------------------------------------------- the database's typing

  datatype Kind = NumberKind | BooleanKind | TextKind | TimeKind | OtherKind(name: string)

  /** The kind of a column, if there is such a column. */
  type ColumnKinds = (Option<string>, string) -> Option<Kind>

  function TypeKind(t: Type): Kind
  {
    match DatabaseType(t)
    case BooleanType => BooleanKind
    case SmallInt => NumberKind
    case Int => NumberKind
    case BigInt => NumberKind
    case Numeric => NumberKind
    case Text => TextKind
    case VarChar(_) => TextKind
    case Date => TimeKind
    case TimestampType => TimeKind
    case TimestampWithTZ => TimeKind
    case Json => OtherKind("JSONB")
    case Dynamic(name) => OtherKind(name)
    case _ => OtherKind("")
  }

  /** NULL by itself has no type. */
  function ValueKind(v: Value): Option<Kind>
  {
    match v
    case DurationValue(_) => Some(OtherKind("duration"))
    case Boolean(_) => Some(BooleanKind)
    case Float(_, _) => Some(NumberKind)
    case Integer(_) => Some(NumberKind)
    case Null => None
    case String(_) => Some(TextKind)
    case Timestamp(_) => Some(TimeKind)
  }

  /** The operands and the result of a function other than COALESCE. */
  function Signature(fn: Function): (seq<Kind>, Kind)
  {
    match fn
    case Abs => ([NumberKind], NumberKind)
    case Ceil => ([NumberKind], NumberKind)
    case Coalesce => ([], OtherKind(""))
    case Cos => ([NumberKind], NumberKind)
    case Exp => ([NumberKind], NumberKind)
    case Floor => ([NumberKind], NumberKind)
    case Length => ([TextKind], NumberKind)
    case Ln => ([NumberKind], NumberKind)
    case Lower => ([TextKind], TextKind)
    case LTrim => ([TextKind, TextKind], TextKind)
    case Mod => ([NumberKind, NumberKind], NumberKind)
    case Replace => ([TextKind, TextKind, TextKind], TextKind)
    case Round => ([NumberKind, NumberKind], NumberKind)
    case RTrim => ([TextKind, TextKind], TextKind)
    case Sin => ([NumberKind], NumberKind)
    case Sqrt => ([NumberKind], NumberKind)
    case Tan => ([NumberKind], NumberKind)
    case Trim => ([TextKind, TextKind], TextKind)
    case Upper => ([TextKind], TextKind)
  }

  /** Section 6.10 of SQL-92, and PostgreSQL's casts between booleans and integers. */
  predicate Castable(from: Kind, to: Kind)
  {
    || from == to || from.TextKind? || to.TextKind?
    || (from.NumberKind? && to.BooleanKind?) || (from.BooleanKind? && to.NumberKind?)
  }

  predicate AllAre(ks: seq<Kind>, kind: Kind)
  {
    forall i :: 0 <= i < |ks| ==> ks[i] == kind
  }

  function Given(ok: bool, kind: Kind): Option<Kind> { if ok then Some(kind) else None }

  function CallKind(fn: Function, ks: seq<Kind>): Option<Kind>
  {
    if fn.Coalesce? then (if ks == [] then None else Given(AllAre(ks, ks[0]), ks[0]))
    else Given(ks == Signature(fn).0, Signature(fn).1)
  }

  function AggregateKind(agg: Aggregator, kind: Kind): Option<Kind>
  {
    match agg
    case Avg => Given(kind.NumberKind?, kind)
    case Sum => Given(kind.NumberKind?, kind)
    case Max => Given(kind.NumberKind? || kind.TextKind? || kind.TimeKind?, kind)
    case Min => Given(kind.NumberKind? || kind.TextKind? || kind.TimeKind?, kind)
  }

  /** The kind of an operation's values, or None where the database reports an error. */
  function SqlKind(cols: ColumnKinds, o: Operation): Option<Kind>
    decreases o, 1
  {
    match o
    case Aggregate(agg, val) =>
      var k := SqlKind(cols, val);
      if k.Some? then AggregateKind(agg, k.value) else None
    case Count(counted, _) =>
      Given(counted.Some? ==> cols(counted.value.alias, counted.value.name).Some?, NumberKind)
    case Arith(_, op1, op2) =>
      Given(SqlKind(cols, op1) == Some(NumberKind) && SqlKind(cols, op2) == Some(NumberKind), NumberKind)
    case Call(fn, ops) =>
      var ks := SqlKinds(cols, ops);
      if ks.Some? then CallKind(fn, ks.value) else None
    case Cast(operand, targetType) =>
      var k := SqlKind(cols, operand);
      Given(k.Some? && Castable(k.value, TypeKind(targetType)), TypeKind(targetType))
    case Concat(parts) =>
      var ks := SqlKinds(cols, parts);
      Given(ks.Some? && parts != [] && AllAre(ks.value, TextKind), TextKind)
    case DatePlusDuration(date, _) => Given(SqlKind(cols, date) == Some(TimeKind), TimeKind)
    case DaysBetween(from, to) =>
      Given(SqlKind(cols, from) == Some(TimeKind) && SqlKind(cols, to) == Some(TimeKind), NumberKind)
    case Extract(_, timestamp) => Given(SqlKind(cols, timestamp) == Some(TimeKind), NumberKind)
    case Log2(arg) => Given(SqlKind(cols, arg) == Some(NumberKind), NumberKind)
    case Operand(ColumnRef(c)) => cols(c.alias, c.name)
    case Operand(Literal(v)) => ValueKind(v)
  }

  function SqlKinds(cols: ColumnKinds, ops: seq<Operation>): (r: Option<seq<Kind>>)
    ensures r.Some? ==> |r.value| == |ops|
    decreases ops, 0
  {
    if ops == [] then Some([])
    else
      var k, ks := SqlKind(cols, ops[0]), SqlKinds(cols, ops[1..]);
      if k.Some? && ks.Some? then Some([k.value] + ks.value) else None
  }

  // ------------------------------------------------------------------- C++ types and kinds

  const BOOL := Integral("bool")

  function KindOf(b: Base): Kind
  {
    match b
    case Integral(name) => if b == BOOL then BooleanKind else NumberKind
    case Floating(_) => NumberKind
    case Str => TextKind
    case Time => TimeKind
    case NullLiteral => OtherKind("")
    case Other(name) => OtherKind(name)
  }

  /** The database's columns are those of the tables. */
  ghost predicate SameColumns(ts: Tables, cols: ColumnKinds)
  {
    forall name, alias ::
      cols(ToAlias(alias), name)
      == match ColumnType(ts, name, alias)
         case Some(t) => Some(KindOf(t.base))
         case None => None
  }

  /** C++'s + gives a number other than bool for two arithmetic types. */
  ghost predicate AddsNumbers(add: Addition)
  {
    forall a, b :: IsNumber(a) && IsNumber(b) && add(a, b).Some? ==> KindOf(add(a, b).value) == NumberKind
  }

  /** Literals hold values of their types and casts name the SQL type of their target; COALESCE
      is a node of its own. */
  predicate Built(e: Expr)
  {
    match e
    case Val(cpp, v) => ValueKind(v) == Some(KindOf(cpp.base))
    case CastTo(_, target, sqlType) => TypeKind(sqlType) == KindOf(target.base)
    case Unary(UnaryFunction(fn), _) => !fn.Coalesce?
    case Binary(BinaryFunction(fn), _, _) => !fn.Coalesce?
    case _ => true
  }

  /** In an operation COUNT of a column has the type of the column. */
  predicate CountsNumbers(ts: Tables, e: Expr)
  {
    match e
    case CountOf(name, alias, _) =>
      ColumnType(ts, name, alias).Some? ==> KindOf(ColumnType(ts, name, alias).value.base) == NumberKind
    case _ => true
  }

  // ------------------------------------------------------------------- where the two differ

  predicate HasKind(add: Addition, ts: Tables, e: Expr, kind: Kind)
  {
    var t := Underlying(add, ts, e);
    t.Some? && KindOf(t.value.base) == kind
  }

  /** The static_assert for aggregations in make_field.hpp. */
  predicate AggregatesNumber(add: Addition, ts: Tables, e: Expr)
  {
    match e
    case AggregationOf(_, val) =>
      var t := Underlying(add, ts, val);
      t.Some? ==> IsNumber(t.value.base)
    case _ => true
  }

  /** A query with this node compiles only if the database takes the node: not so where a number
      is asked for and bool will do, as it is an integral type; where + is defined on operands
      that are not numbers, such as strings, because - * / and mod are checked as +; and where
      a cast is possible in C++ alone. */
  predicate Takes(add: Addition, ts: Tables, e: Expr)
  {
    match e
    case AggregationOf(_, val) => !HasKind(add, ts, val, BooleanKind)
    case Unary(_, arg) => !HasKind(add, ts, arg, BooleanKind)
    case Binary(Infix(_), l, r) => HasKind(add, ts, l, NumberKind) && HasKind(add, ts, r, NumberKind)
    case Binary(BinaryFunction(fn), l, r) =>
      && (fn.Mod? ==> HasKind(add, ts, l, NumberKind) && HasKind(add, ts, r, NumberKind))
      && (fn.Round? ==> !HasKind(add, ts, l, BooleanKind) && !HasKind(add, ts, r, BooleanKind))
    case CastTo(arg, target, _) =>
      Underlying(add, ts, arg).Some? ==>
        Castable(KindOf(Underlying(add, ts, arg).value.base), KindOf(target.base))
    case _ => true
  }

  /** The database runs a node that does not compile: COUNT(*) in an operation, MIN and MAX of
      other things than numbers, numbers that C++ does not add, rounding to a number of digits
      that is not an integer or can be NULL, and COALESCE of different types of one kind. */
  predicate Refused(add: Addition, ts: Tables, e: Expr)
  {
    match e
    case AggregationOf(agg, val) =>
      (agg.Min? || agg.Max?) && (HasKind(add, ts, val, TextKind) || HasKind(add, ts, val, TimeKind))
    case CountAll => true
    case Binary(Infix(_), l, r) => NoSum(add, ts, l, r)
    case Binary(BinaryFunction(fn), l, r) =>
      || (fn.Mod? && NoSum(add, ts, l, r))
      || (fn.Round? && Underlying(add, ts, r).Some?
          && (Underlying(add, ts, r).value.base.Floating? || Underlying(add, ts, r).value.nullable))
    case CoalesceOf(args) =>
      var all := UnderlyingAll(add, ts, args);
      all.Some? && exists i :: 0 <= i < |all.value| && all.value[i].base != all.value[0].base
    case _ => false
  }

  predicate NoSum(add: Addition, ts: Tables, l: Expr, r: Expr)
  {
    var t1, t2 := Underlying(add, ts, l), Underlying(add, ts, r);
    t1.Some? && t2.Some? && add(t1.value.base, t2.value.base).None?
  }

  /** The query compiles. */
  predicate Compiles(add: Addition, ts: Tables, e: Expr)
  {
    Underlying(add, ts, e).Some? && AllNodes(n => AggregatesNumber(add, ts, n), e)
  }

  predicate AllTaken(add: Addition, ts: Tables, e: Expr) { AllNodes(n => Takes(add, ts, n), e) }

  predicate NoneRefused(add: Addition, ts: Tables, e: Expr) { AllNodes(n => !Refused(add, ts, n), e) }

  // ------------------------------------------------------------------- node by node

  /** It compiles and the database takes every node. */
  predicate Sound(add: Addition, ts: Tables, e: Expr) { Compiles(add, ts, e) && AllTaken(add, ts, e) }

  /** The database runs it and no node is refused. */
  predicate Runs(add: Addition, ts: Tables, cols: ColumnKinds, e: Expr)
  {
    SqlKind(cols, ToDynamic(e)).Some? && NoneRefused(add, ts, e)
  }

  predicate Agree(add: Addition, ts: Tables, cols: ColumnKinds, e: Expr)
  {
    && (Sound(add, ts, e) <==> Runs(add, ts, cols, e))
    && (Sound(add, ts, e) ==> SqlKind(cols, ToDynamic(e)) == Some(KindOf(Underlying(add, ts, e).value.base)))
  }

  predicate SoundAll(add: Addition, ts: Tables, es: seq<Expr>)
  {
    && UnderlyingAll(add, ts, es).Some?
    && AllNodesOf(n => AggregatesNumber(add, ts, n), es) && AllNodesOf(n => Takes(add, ts, n), es)
  }

  predicate RunsAll(add: Addition, ts: Tables, cols: ColumnKinds, es: seq<Expr>)
  {
    SqlKinds(cols, AllToDynamic(es)).Some? && AllNodesOf(n => !Refused(add, ts, n), es)
  }

  function KindsOf(all: seq<CppType>): (r: seq<Kind>)
    ensures |r| == |all| && forall i :: 0 <= i < |r| ==> r[i] == KindOf(all[i].base)
  {
    if all == [] then [] else [KindOf(all[0].base)] + KindsOf(all[1..])
  }

  predicate AgreeAll(add: Addition, ts: Tables, cols: ColumnKinds, es: seq<Expr>)
  {
    && (SoundAll(add, ts, es) <==> RunsAll(add, ts, cols, es))
    && (SoundAll(add, ts, es) ==>
        SqlKinds(cols, AllToDynamic(es)) == Some(KindsOf(UnderlyingAll(add, ts, es).value)))
  }

  lemma MoreKinds(cols: ColumnKinds, o: Operation, ops: seq<Operation>)
    ensures SqlKinds(cols, [o] + ops) ==
            if SqlKind(cols, o).Some? && SqlKinds(cols, ops).Some? then
              Some([SqlKind(cols, o).value] + SqlKinds(cols, ops).value)
            else None
  {
    assert ([o] + ops)[0] == o && ([o] + ops)[1..] == ops;
  }

  lemma OneKind(cols: ColumnKinds, o: Operation)
    ensures SqlKinds(cols, [o]) == if SqlKind(cols, o).Some? then Some([SqlKind(cols, o).value]) else None
  {
    MoreKinds(cols, o, []);
    assert [o] + [] == [o];
    var k := SqlKind(cols, o);
    assert k.Some? ==> [k.value] + [] == [k.value];
  }

  lemma TwoKinds(cols: ColumnKinds, a: Operation, b: Operation)
    ensures SqlKinds(cols, [a, b]) ==
            if SqlKind(cols, a).Some? && SqlKind(cols, b).Some? then
              Some([SqlKind(cols, a).value, SqlKind(cols, b).value])
            else None
  {
    MoreKinds(cols, a, [b]);
    OneKind(cols, b);
    assert [a] + [b] == [a, b];
    var k, l := SqlKind(cols, a), SqlKind(cols, b);
    assert k.Some? && l.Some? ==> [k.value] + [l.value] == [k.value, l.value];
  }

  lemma ThreeKinds(cols: ColumnKinds, a: Operation, b: Operation, c: Operation)
    ensures SqlKinds(cols, [a, b, c]) ==
            if SqlKind(cols, a).Some? && SqlKind(cols, b).Some? && SqlKind(cols, c).Some? then
              Some([SqlKind(cols, a).value, SqlKind(cols, b).value, SqlKind(cols, c).value])
            else None
  {
    MoreKinds(cols, a, [b, c]);
    TwoKinds(cols, b, c);
    assert [a] + [b, c] == [a, b, c];
    var k, l, m := SqlKind(cols, a), SqlKind(cols, b), SqlKind(cols, c);
    assert k.Some? && l.Some? && m.Some? ==> [k.value] + [l.value, m.value] == [k.value, l.value, m.value];
  }

  lemma {:induction false} AllOfIs(all: seq<CppType>, base: Base)
    ensures AllOf(all, base) <==> forall i :: 0 <= i < |all| ==> all[i].base == base
  {
    if all != [] {
      AllOfIs(all[1..], base);
      assert forall i :: 1 <= i < |all| ==> all[i] == all[1..][i - 1];
      assert forall i :: 0 <= i < |all| - 1 ==> all[1..][i] == all[i + 1];
    }
  }

  lemma AggregationAgrees(add: Addition, ts: Tables, cols: ColumnKinds, agg: Aggregator, val: Expr)
    requires Agree(add, ts, cols, val)
    ensures Agree(add, ts, cols, AggregationOf(agg, val))
  {
  }

  lemma LeafAgrees(add: Addition, ts: Tables, cols: ColumnKinds, e: Expr)
    requires e.Col? || e.CountOf? || e.CountAll? || e.Val?
    requires SameColumns(ts, cols) && Built(e) && CountsNumbers(ts, e)
    ensures Agree(add, ts, cols, e)
  {
  }

  lemma CallOfOne(cols: ColumnKinds, fn: Function, arg: Expr)
    requires !fn.Coalesce?
    ensures SqlKind(cols, ToDynamic(Unary(UnaryFunction(fn), arg))) ==
            var k := SqlKind(cols, ToDynamic(arg));
            if fn.Length? then Given(k == Some(TextKind), NumberKind)
            else if fn.Lower? || fn.Upper? then Given(k == Some(TextKind), TextKind)
            else if IsNumerical(fn) then Given(k == Some(NumberKind), NumberKind)
            else None
  {
    OneKind(cols, ToDynamic(arg));
  }

  lemma NumericalAgrees(add: Addition, ts: Tables, cols: ColumnKinds, fn: Function, arg: Expr)
    requires Agree(add, ts, cols, arg) && IsNumerical(fn)
    ensures Agree(add, ts, cols, Unary(UnaryFunction(fn), arg))
  {
    CallOfOne(cols, fn, arg);
  }

  lemma FunctionAgrees(add: Addition, ts: Tables, cols: ColumnKinds, fn: Function, arg: Expr)
    requires Agree(add, ts, cols, arg) && !fn.Coalesce? && !IsNumerical(fn)
    ensures Agree(add, ts, cols, Unary(UnaryFunction(fn), arg))
  {
    CallOfOne(cols, fn, arg);
  }

  lemma PartAgrees(add: Addition, ts: Tables, cols: ColumnKinds, op: UnaryOp, arg: Expr)
    requires Agree(add, ts, cols, arg) && !op.UnaryFunction?
    ensures Agree(add, ts, cols, Unary(op, arg))
  {
  }

  lemma UnaryAgrees(add: Addition, ts: Tables, cols: ColumnKinds, op: UnaryOp, arg: Expr)
    requires Agree(add, ts, cols, arg) && Built(Unary(op, arg))
    ensures Agree(add, ts, cols, Unary(op, arg))
  {
    if op.UnaryFunction? && IsNumerical(op.fn) {
      NumericalAgrees(add, ts, cols, op.fn, arg);
    } else if op.UnaryFunction? {
      FunctionAgrees(add, ts, cols, op.fn, arg);
    } else {
      PartAgrees(add, ts, cols, op, arg);
    }
  }

  lemma InfixAgrees(add: Addition, ts: Tables, cols: ColumnKinds, arith: ArithOp, l: Expr, r: Expr)
    requires AddsNumbers(add) && Agree(add, ts, cols, l) && Agree(add, ts, cols, r)
    ensures Agree(add, ts, cols, Binary(Infix(arith), l, r))
  {
  }

  lemma DaysAgree(add: Addition, ts: Tables, cols: ColumnKinds, l: Expr, r: Expr)
    requires Agree(add, ts, cols, l) && Agree(add, ts, cols, r)
    ensures Agree(add, ts, cols, Binary(DaysFromTo, l, r))
  {
  }

  /** The function's operands are typed. */
  lemma CallOfTwo(cols: ColumnKinds, fn: Function, l: Expr, r: Expr)
    requires !fn.Coalesce?
    ensures SqlKind(cols, ToDynamic(Binary(BinaryFunction(fn), l, r))) ==
            var k1, k2 := SqlKind(cols, ToDynamic(l)), SqlKind(cols, ToDynamic(r));
            if fn.Mod? || fn.Round? then Given(k1 == Some(NumberKind) && k2 == Some(NumberKind), NumberKind)
            else if IsTrim(fn) then Given(k1 == Some(TextKind) && k2 == Some(TextKind), TextKind)
            else None
  {
    TwoKinds(cols, ToDynamic(l), ToDynamic(r));
  }

  lemma ModAgrees(add: Addition, ts: Tables, cols: ColumnKinds, l: Expr, r: Expr)
    requires AddsNumbers(add) && Agree(add, ts, cols, l) && Agree(add, ts, cols, r)
    ensures Agree(add, ts, cols, Binary(BinaryFunction(Mod), l, r))
  {
    CallOfTwo(cols, Mod, l, r);
  }

  lemma RoundAgrees(add: Addition, ts: Tables, cols: ColumnKinds, l: Expr, r: Expr)
    requires Agree(add, ts, cols, l) && Agree(add, ts, cols, r)
    ensures Agree(add, ts, cols, Binary(BinaryFunction(Round), l, r))
  {
    CallOfTwo(cols, Round, l, r);
  }

  lemma OtherFunctionAgrees(add: Addition, ts: Tables, cols: ColumnKinds, fn: Function, l: Expr, r: Expr)
    requires Agree(add, ts, cols, l) && Agree(add, ts, cols, r) && !fn.Coalesce? && !fn.Mod? && !fn.Round?
    ensures Agree(add, ts, cols, Binary(BinaryFunction(fn), l, r))
  {
    CallOfTwo(cols, fn, l, r);
  }

  lemma BinaryAgrees(add: Addition, ts: Tables, cols: ColumnKinds, op: BinaryOp, l: Expr, r: Expr)
    requires AddsNumbers(add) && Built(Binary(op, l, r))
    requires Agree(add, ts, cols, l) && Agree(add, ts, cols, r)
    ensures Agree(add, ts, cols, Binary(op, l, r))
  {
    match op
    case Infix(arith) => InfixAgrees(add, ts, cols, arith, l, r);
    case BinaryFunction(fn) =>
      if fn.Mod? {
        ModAgrees(add, ts, cols, l, r);
      } else if fn.Round? {
        RoundAgrees(add, ts, cols, l, r);
      } else {
        OtherFunctionAgrees(add, ts, cols, fn, l, r);
      }
    case DaysFromTo => DaysAgree(add, ts, cols, l, r);
  }

  lemma ReplaceKind(cols: ColumnKinds, a: Expr, b: Expr, c: Expr)
    ensures SqlKind(cols, ToDynamic(ReplaceIn(a, b, c))) ==
            Given(
              && SqlKind(cols, ToDynamic(a)) == Some(TextKind)
              && SqlKind(cols, ToDynamic(b)) == Some(TextKind)
              && SqlKind(cols, ToDynamic(c)) == Some(TextKind), TextKind)
  {
    ThreeKinds(cols, ToDynamic(a), ToDynamic(b), ToDynamic(c));
  }

  lemma ReplaceAgrees(add: Addition, ts: Tables, cols: ColumnKinds, a: Expr, b: Expr, c: Expr)
    requires Agree(add, ts, cols, a) && Agree(add, ts, cols, b) && Agree(add, ts, cols, c)
    ensures Agree(add, ts, cols, ReplaceIn(a, b, c))
  {
    ReplaceKind(cols, a, b, c);
    ReplaceIsSound(add, ts, a, b, c);
  }

  lemma ReplaceIsSound(add: Addition, ts: Tables, a: Expr, b: Expr, c: Expr)
    ensures Sound(add, ts, ReplaceIn(a, b, c)) <==>
            && Sound(add, ts, a) && Sound(add, ts, b) && Sound(add, ts, c)
            && HasKind(add, ts, a, TextKind) && HasKind(add, ts, b, TextKind) && HasKind(add, ts, c, TextKind)
  {
  }

  lemma CoalesceAgrees(add: Addition, ts: Tables, cols: ColumnKinds, args: seq<Expr>)
    requires AgreeAll(add, ts, cols, args)
    ensures Agree(add, ts, cols, CoalesceOf(args))
  {
    if SoundAll(add, ts, args) && args != [] {
      var all := UnderlyingAll(add, ts, args).value;
      AllOfIs(all, all[0].base);
      assert KindsOf(all)[0] == KindOf(all[0].base);
    }
  }

  lemma AllStrings(all: seq<CppType>)
    ensures AllOf(all, Str) <==> AllAre(KindsOf(all), TextKind)
  {
    AllOfIs(all, Str);
    assert AllAre(KindsOf(all), TextKind) <==> forall i :: 0 <= i < |all| ==> KindsOf(all)[i] == TextKind;
  }

  lemma ConcatAgrees(add: Addition, ts: Tables, cols: ColumnKinds, args: seq<Expr>)
    requires AgreeAll(add, ts, cols, args)
    ensures Agree(add, ts, cols, ConcatOf(args))
  {
    if SoundAll(add, ts, args) {
      AllStrings(UnderlyingAll(add, ts, args).value);
    }
  }

  lemma CastAgrees(add: Addition, ts: Tables, cols: ColumnKinds, arg: Expr, target: CppType, sqlType: Type)
    requires Agree(add, ts, cols, arg) && Built(CastTo(arg, target, sqlType))
    ensures Agree(add, ts, cols, CastTo(arg, target, sqlType))
  {
  }

  lemma DatePlusAgrees(add: Addition, ts: Tables, cols: ColumnKinds, date: Expr, durations: seq<Duration>)
    requires Agree(add, ts, cols, date)
    ensures Agree(add, ts, cols, DatePlus(date, durations))
  {
  }

  lemma MoreAgree(add: Addition, ts: Tables, cols: ColumnKinds, e: Expr, es: seq<Expr>)
    requires Agree(add, ts, cols, e) && AgreeAll(add, ts, cols, es)
    ensures AgreeAll(add, ts, cols, [e] + es)
  {
    assert ([e] + es)[0] == e && ([e] + es)[1..] == es;
    MoreKinds(cols, ToDynamic(e), AllToDynamic(es));
  }

  lemma NoneAgree(add: Addition, ts: Tables, cols: ColumnKinds)
    ensures AgreeAll(add, ts, cols, [])
  {
  }

  // ------------------------------------------------------------------- the main results

  ghost predicate Typed(add: Addition, ts: Tables, cols: ColumnKinds)
  {
    SameColumns(ts, cols) && AddsNumbers(add)
  }

  predicate Ordinary(ts: Tables, e: Expr) { AllNodes(Built, e) && AllNodes(n => CountsNumbers(ts, n), e) }

  predicate OrdinaryAll(ts: Tables, es: seq<Expr>)
  {
    AllNodesOf(Built, es) && AllNodesOf(n => CountsNumbers(ts, n), es)
  }

  /** An expression compiles, and the database takes every node of it, if and only if the database
      can run it and no node of it is refused; its values are then of the kind of its C++ type.
      So what compiles and does not run, or runs and does not compile, does so for one of the
      reasons listed at Takes and Refused. */
  lemma {:induction false} CompilesExactlyIf(add: Addition, ts: Tables, cols: ColumnKinds, e: Expr)
    requires Typed(add, ts, cols) && Ordinary(ts, e)
    ensures Compiles(add, ts, e) && AllTaken(add, ts, e)
       <==> SqlKind(cols, ToDynamic(e)).Some? && NoneRefused(add, ts, e)
    ensures Compiles(add, ts, e) && AllTaken(add, ts, e) ==>
              SqlKind(cols, ToDynamic(e)) == Some(KindOf(Underlying(add, ts, e).value.base))
    decreases e, 1
  {
    match e
    case AggregationOf(agg, val) =>
      CompilesExactlyIf(add, ts, cols, val);
      AggregationAgrees(add, ts, cols, agg, val);
    case Unary(op, arg) =>
      CompilesExactlyIf(add, ts, cols, arg);
      UnaryAgrees(add, ts, cols, op, arg);
    case Binary(op, l, r) =>
      CompilesExactlyIf(add, ts, cols, l);
      CompilesExactlyIf(add, ts, cols, r);
      BinaryAgrees(add, ts, cols, op, l, r);
    case ReplaceIn(a, b, c) =>
      CompilesExactlyIf(add, ts, cols, a);
      CompilesExactlyIf(add, ts, cols, b);
      CompilesExactlyIf(add, ts, cols, c);
      ReplaceAgrees(add, ts, cols, a, b, c);
    case CoalesceOf(args) =>
      AllCompileExactlyIf(add, ts, cols, args);
      CoalesceAgrees(add, ts, cols, args);
    case ConcatOf(args) =>
      AllCompileExactlyIf(add, ts, cols, args);
      ConcatAgrees(add, ts, cols, args);
    case CastTo(arg, target, sqlType) =>
      CompilesExactlyIf(add, ts, cols, arg);
      CastAgrees(add, ts, cols, arg, target, sqlType);
    case DatePlus(date, durations) =>
      CompilesExactlyIf(add, ts, cols, date);
      DatePlusAgrees(add, ts, cols, date, durations);
    case _ => LeafAgrees(add, ts, cols, e);
  }

  lemma {:induction false} AllCompileExactlyIf(add: Addition, ts: Tables, cols: ColumnKinds, es: seq<Expr>)
    requires Typed(add, ts, cols) && OrdinaryAll(ts, es)
    ensures AgreeAll(add, ts, cols, es)
    decreases es, 0
  {
    if es == [] {
      NoneAgree(add, ts, cols);
    } else {
      CompilesExactlyIf(add, ts, cols, es[0]);
      AllCompileExactlyIf(add, ts, cols, es[1..]);
      MoreAgree(add, ts, cols, es[0], es[1..]);
      assert es == [es[0]] + es[1..];
    }
  }

  // ------------------------------------------------------------------- where they differ

  predicate IsColumn(ts: Tables, name: string, alias: string, base: Base)
  {
    var t := ColumnType(ts, name, alias);
    t.Some? && t.value.base == base
  }

  /** The product of two strings compiles, because it is checked as a sum. */
  lemma StringsAreMultiplied(add: Addition, ts: Tables, cols: ColumnKinds, name: string, alias: string)
    requires SameColumns(ts, cols) && IsColumn(ts, name, alias, Str) && add(Str, Str) == Some(Str)
    ensures var e := Binary(Infix(Multiplies), Col(name, alias), Col(name, alias));
            Compiles(add, ts, e) && SqlKind(cols, ToDynamic(e)).None?
  {
  }

  /** So does the absolute value of a bool, which is an integral type in C++. */
  lemma BoolHasAbsoluteValue(add: Addition, ts: Tables, cols: ColumnKinds, name: string, alias: string)
    requires SameColumns(ts, cols) && IsColumn(ts, name, alias, BOOL)
    ensures var e := Unary(UnaryFunction(Abs), Col(name, alias));
            Compiles(add, ts, e) && SqlKind(cols, ToDynamic(e)).None?
  {
    CallOfOne(cols, Abs, Col(name, alias));
    assert Compiles(add, ts, Col(name, alias));
    assert SqlKind(cols, ToDynamic(Col(name, alias))) == Some(BooleanKind);
  }

  /** COUNT of a string column is a number, but a string to the rules: length(COUNT(s)) compiles
      and does not run, and COUNT(s) + 1 runs and does not compile. */
  lemma CountIsNoString(add: Addition, ts: Tables, cols: ColumnKinds, name: string, alias: string)
    requires SameColumns(ts, cols) && IsColumn(ts, name, alias, Str) && add(Str, Integral("int")).None?
    ensures var e := Unary(UnaryFunction(Length), CountOf(name, alias, false));
            Compiles(add, ts, e) && SqlKind(cols, ToDynamic(e)).None?
    ensures var one := Val(CppType(Integral("int"), false), Integer(1));
            var e := Binary(Infix(Plus), CountOf(name, alias, false), one);
            !Compiles(add, ts, e) && SqlKind(cols, ToDynamic(e)) == Some(NumberKind)
  {
    var count, one := CountOf(name, alias, false), Val(CppType(Integral("int"), false), Integer(1));
    CallOfOne(cols, Length, count);
    assert SqlKind(cols, ToDynamic(count)) == Some(NumberKind);
    assert SqlKind(cols, ToDynamic(one)) == Some(NumberKind);
    assert ToDynamic(Binary(Infix(Plus), count, one)) == Arith(Plus, ToDynamic(count), ToDynamic(one));
    assert Underlying(add, ts, one) == Some(CppType(Integral("int"), false));
    assert Underlying(add, ts, Binary(Infix(Plus), count, one)).None?;
  }
}
