/** Which trees have the same text.

    The parsed text is read back into a tree. That this gives the normal form of the tree that
    was printed shows that two trees have the same text if and only if they have the same
    normal form: date additions flattened, cast types known by their names, and no DISTINCT on
    a COUNT of all rows. */
module PrintedAlike {
  import opened Wrappers
  import opened Decimal
  import opened SqlTree
  import opened SqlNames
  import opened SqlMeaning
  import opened SqlParser
  import opened PrintedText
  import opened PrintedTokens
  import opened PrinterCorrect
  import opened PrinterMeaning
  import Strings

  // ------------------------------------------------------------------- normal forms

  function AddDurations(o: Operation, ds: seq<Duration>): Operation
  {
    if o.DatePlusDuration? then DatePlusDuration(o.date, o.durations + ds) else DatePlusDuration(o, ds)
  }

  function Normal(o: Operation): Operation
    decreases o, 1
  {
    match o
    case Aggregate(agg, val) => Aggregate(agg, Normal(val))
    case Count(counted, distinct) => Count(counted, counted.Some? && distinct)
    case Arith(arith, op1, op2) => Arith(arith, Normal(op1), Normal(op2))
    case Call(fn, ops) => Call(fn, Normals(ops))
    case Cast(operand, targetType) => Cast(Normal(operand), Dynamic(TypeToSql(targetType)))
    case Concat(parts) => Concat(Normals(parts))
    case DatePlusDuration(date, durations) => AddDurations(Normal(date), durations)
    case DaysBetween(from, to) => DaysBetween(Normal(from), Normal(to))
    case Extract(part, timestamp) => Extract(part, Normal(timestamp))
    case Log2(arg) => Log2(Normal(arg))
    case Operand(leaf) => o
  }

  function Normals(ops: seq<Operation>): (r: seq<Operation>)
    ensures |r| == |ops|
    decreases ops, 0
  {
    if ops == [] then [] else [Normal(ops[0])] + Normals(ops[1..])
  }

  function NormalCondition(c: Condition): Condition
  {
    match c
    case And(c1, c2) => And(NormalCondition(c1), NormalCondition(c2))
    case Or(c1, c2) => Or(NormalCondition(c1), NormalCondition(c2))
    case Not(c1) => Not(NormalCondition(c1))
    case BooleanColumnOrValue(_) => c
    case Compare(cmp, op1, op2) => Compare(cmp, Normal(op1), Normal(op2))
    case In(op, patterns, negated) => In(Normal(op), patterns, negated)
    case IsNull(op, negated) => IsNull(Normal(op), negated)
    case Like(op, pattern, negated) => Like(Normal(op), pattern, negated)
  }

  // ------------------------------------------------------------------- the tree behind an expression

  /** A type by its full name. */
  function TypeText(t: TypeName): string
  {
    match t
    case Named(w) => w
    case Sized(w, size) => w + "(" + size + ")"
    case TimestampWithTimeZone => "TIMESTAMP WITH TIME ZONE"
  }

  lemma TypeTextKept(t: Type)
    ensures TypeText(TypeExpr(t)) == TypeToSql(t)
  {
  }

  function DurationOf(text: string): Duration
  {
    match IntervalValue(text)
    case VDuration(unit, count) => Duration(unit, count)
    case _ => Duration(Days, 0)
  }

  function NumberOf(negative: bool, digits: string): Value
  {
    match NumberValue(negative, digits)
    case VInt(n) => Integer(n)
    case VDec(micros) => Float(negative, if micros < 0 then -micros else micros)
    case _ => Null
  }

  function Lit(v: Value): Operation { Operand(Literal(v)) }

  /** The normal form of the operation whose text parses to the expression. */
  function Back(e: Expr): Operation
    decreases e, 1
  {
    match e
    case ENum(negative, digits) => Lit(NumberOf(negative, digits))
    case EStr(s) => Lit(String(s))
    case EBool(b) => Lit(Boolean(b))
    case EInterval(text) => Lit(DurationValue(DurationOf(text)))
    case EColumn(alias, name) => Operand(ColumnRef(Column(alias, name)))
    case EBinary(symbol, l, r) =>
      if r.EInterval? then AddDurations(Back(l), [DurationOf(r.text)])
      else if l.ECast? && r.ECast? then DaysBetween(Back(r.e), Back(l.e))
      else if l.EParen? && r.EParen? && OperatorNamed(symbol).Known? then
        Arith(OperatorNamed(symbol).it, Back(l.e), Back(r.e))
      else Lit(Null)
    case EParen(e1) => Concat(Spine(e1))
    case ECall(name, args) =>
      if FunctionNamed(name).Known? then Call(FunctionNamed(name).it, BackAll(args))
      else if |args| == 2 then Log2(Back(args[1]))
      else if |args| == 1 && args[0].ENum? then
        var n := NumberOf(args[0].negative, args[0].digits);
        Lit(if n.Integer? then Timestamp(n.n) else Null)
      else Lit(Null)
    case EAggregate(name, distinct, arg) =>
      if AggregateNamed(name).Known? then
        if arg.Some? then Aggregate(AggregateNamed(name).it, Back(arg.value)) else Lit(Null)
      else
        Count(
          if arg.Some? && arg.value.EColumn? then Some(Column(arg.value.alias, arg.value.name)) else None, distinct)
    case ECast(e1, target) => Cast(Back(e1), Dynamic(TypeText(target)))
    case EExtract(part, e1) => if PartNamed(part).Known? then Extract(PartNamed(part).it, Back(e1)) else Lit(Null)
    case _ => Lit(Null)
  }

  /** The operands of a chain of concatenations. */
  function Spine(e: Expr): seq<Operation>
    decreases e, 2
  {
    if e.EBinary? && e.symbol == "||" then Spine(e.left) + [Back(e.right)] else [Back(e)]
  }

  function BackAll(es: seq<Expr>): seq<Operation>
    decreases es, 0
  {
    if es == [] then [] else [Back(es[0])] + BackAll(es[1..])
  }

  function BackLeaf(e: Expr): ColumnOrValue
  {
    var o := Back(e);
    if o.Operand? then o.leaf else Literal(Null)
  }

  function BackValue(e: Expr): Value
  {
    var leaf := BackLeaf(e);
    if leaf.Literal? then leaf.v else Null
  }

  function BackValues(es: seq<Expr>): seq<Value>
  {
    if es == [] then [] else [BackValue(es[0])] + BackValues(es[1..])
  }

  function BackCondition(e: Expr): Condition
  {
    match e
    case EBinary(symbol, l, r) =>
      if symbol == "AND" && l.EParen? && r.EParen? then And(BackCondition(l.e), BackCondition(r.e))
      else if symbol == "OR" && l.EParen? && r.EParen? then Or(BackCondition(l.e), BackCondition(r.e))
      else if ComparisonNamed(symbol).Known? then Compare(ComparisonNamed(symbol).it, Back(l), Back(r))
      else BooleanColumnOrValue(Literal(Null))
    case ENot(e1) => if e1.EParen? then Not(BackCondition(e1.e)) else BooleanColumnOrValue(Literal(Null))
    case EIn(e1, list, negated) => In(Back(e1), BackValues(list), negated)
    case EIsNull(e1, negated) => IsNull(Back(e1), negated)
    case ELike(e1, pattern, negated) => Like(Back(e1), BackValue(pattern), negated)
    case _ => BooleanColumnOrValue(BackLeaf(e))
  }

  // ------------------------------------------------------------------- operations are read back

  lemma BackOfInterval(l: Expr, text: string)
    ensures Back(EBinary("+", l, EInterval(text))) == AddDurations(Back(l), [DurationOf(text)])
  {
  }

  lemma BackOfParens(symbol: string, arith: ArithOp, l: Expr, r: Expr)
    requires OperatorNamed(symbol) == Known(arith)
    ensures Back(EBinary(symbol, EParen(l), EParen(r))) == Arith(arith, Back(l), Back(r))
  {
  }

  lemma BackOfCasts(l: Expr, r: Expr, target: TypeName)
    ensures Back(EBinary("-", ECast(l, target), ECast(r, target))) == DaysBetween(Back(r), Back(l))
  {
  }

  lemma BackOfAggregate(name: string, agg: Aggregator, e: Expr)
    requires AggregateNamed(name) == Known(agg)
    ensures Back(EAggregate(name, false, Some(e))) == Aggregate(agg, Back(e))
  {
  }

  lemma BackOfCall(name: string, fn: Function, es: seq<Expr>)
    requires FunctionNamed(name) == Known(fn)
    ensures Back(ECall(name, es)) == Call(fn, BackAll(es))
  {
  }

  lemma BackOfLog(base: Expr, e: Expr)
    ensures Back(ECall("log", [base, e])) == Log2(Back(e))
  {
    assert FunctionNamed("log").Unlisted?;
  }

  lemma BackOfExtract(name: string, part: DatePart, e: Expr)
    requires PartNamed(name) == Known(part)
    ensures Back(EExtract(name, e)) == Extract(part, Back(e))
  {
  }

  lemma IntegerBack(n: int)
    ensures Back(IntExpr(n)) == Lit(Integer(n))
  {
    IntegerKept(n);
  }

  lemma FloatBack(negative: bool, micros: nat)
    ensures Back(ENum(negative, FloatDigits(micros))) == Lit(Float(negative, micros))
  {
    FloatKept(negative, micros);
    BackOfDecimal(negative, FloatDigits(micros), micros);
  }

  lemma BackOfDecimal(negative: bool, digits: string, micros: nat)
    requires NumberValue(negative, digits) == VDec(Signed(negative, micros))
    ensures Back(ENum(negative, digits)) == Lit(Float(negative, micros))
  {
  }

  lemma TimestampBack(n: int)
    ensures Back(ECall("to_timestamp", [IntExpr(n)])) == Lit(Timestamp(n))
  {
    assert FunctionNamed("to_timestamp").Unlisted?;
    IntegerKept(n);
  }

  lemma IntervalBack(d: Duration)
    ensures DurationOf(DurationText(d)) == d
  {
    DurationKept(d);
  }

  lemma ValueBack(v: Value)
    ensures Back(ValueExpr(v)) == Lit(v)
  {
    match v
    case Integer(n) => IntegerBack(n);
    case Float(negative, micros) => FloatBack(negative, micros);
    case DurationValue(d) => IntervalBack(d);
    case Timestamp(n) => TimestampBack(n);
    case _ =>
  }

  lemma {:induction false} ValuesBack(vs: seq<Value>)
    ensures BackValues(ValueExprs(vs)) == vs
  {
    if vs != [] {
      ValueBack(vs[0]);
      ValuesBack(vs[1..]);
      assert ValueExprs(vs)[1..] == ValueExprs(vs[1..]);
    }
  }

  lemma AddTwice(o: Operation, a: seq<Duration>, b: seq<Duration>)
    ensures AddDurations(AddDurations(o, a), b) == AddDurations(o, a + b)
  {
    if o.DatePlusDuration? {
      assert o.durations + a + b == o.durations + (a + b);
    }
  }

  lemma {:induction false} PlusChainBack(left: Expr, ds: seq<Duration>)
    requires ds != []
    ensures Back(Chain("+", left, ValueExprs(DurationValues(ds)))) == AddDurations(Back(left), ds)
    decreases |ds|
  {
    var next := EBinary("+", left, EInterval(DurationText(ds[0])));
    IntervalBack(ds[0]);
    BackOfInterval(left, DurationText(ds[0]));
    ChainStep(left, ds);
    if |ds| == 1 {
      assert ds[1..] == [] && ds == [ds[0]];
    } else {
      PlusChainBack(next, ds[1..]);
      AddTwice(Back(left), [ds[0]], ds[1..]);
      assert ds == [ds[0]] + ds[1..];
    }
  }

  lemma ChainStep(left: Expr, ds: seq<Duration>)
    requires ds != []
    ensures Chain("+", left, ValueExprs(DurationValues(ds)))
         == Chain("+", EBinary("+", left, EInterval(DurationText(ds[0]))), ValueExprs(DurationValues(ds[1..])))
  {
    assert DurationValues(ds)[1..] == DurationValues(ds[1..]);
    assert ValueExprs(DurationValues(ds))[1..] == ValueExprs(DurationValues(ds[1..]));
  }

  lemma {:induction false} ConcatChainBack(left: Expr, ops: seq<Operation>)
    requires AllBack(ops)
    ensures Spine(Chain("||", left, OperationExprs(ops))) == Spine(left) + Normals(ops)
    decreases |ops|
  {
    if ops != [] {
      var next := EBinary("||", left, OperationExpr(ops[0]));
      SpineStep(left, ops[0]);
      assert OperationExprs(ops)[1..] == OperationExprs(ops[1..]);
      ConcatChainBack(next, ops[1..]);
      Assoc(Spine(left), [Normal(ops[0])], Normals(ops[1..]));
    }
  }

  lemma SpineStep(left: Expr, o: Operation)
    requires Back(OperationExpr(o)) == Normal(o)
    ensures Spine(EBinary("||", left, OperationExpr(o))) == Spine(left) + [Normal(o)]
  {
  }

  lemma Assoc<T>(a: seq<T>, b: seq<T>, c: seq<T>)
    ensures a + b + c == a + (b + c)
  {
  }

  /** Every one of the operations is read back. */
  predicate AllBack(ops: seq<Operation>)
  {
    forall i :: 0 <= i < |ops| ==> Back(OperationExpr(ops[i])) == Normal(ops[i])
  }

  lemma {:induction false} OperandsBack(ops: seq<Operation>)
    requires AllBack(ops)
    ensures BackAll(OperationExprs(ops)) == Normals(ops)
  {
    if ops != [] {
      assert OperationExprs(ops)[1..] == OperationExprs(ops[1..]);
      OperandsBack(ops[1..]);
    }
  }

  /** No operation is a bare concatenation: it brings its parentheses. */
  lemma {:induction false} NoBareConcat(o: Operation)
    requires Valid(o)
    ensures OperationExpr(o).EBinary? ==> OperationExpr(o).symbol != "||"
  {
    if o.DatePlusDuration? {
      ChainSymbol(OperationExpr(o.date), o.durations);
    }
  }

  lemma {:induction false} ChainSymbol(left: Expr, ds: seq<Duration>)
    requires ds != []
    ensures Chain("+", left, ValueExprs(DurationValues(ds))).EBinary?
    ensures Chain("+", left, ValueExprs(DurationValues(ds))).symbol == "+"
    decreases |ds|
  {
    ChainStep(left, ds);
    if |ds| > 1 {
      ChainSymbol(EBinary("+", left, EInterval(DurationText(ds[0]))), ds[1..]);
    }
  }

  lemma ConcatBack(parts: seq<Operation>)
    requires parts != [] && AllBack(parts) && Valid(parts[0])
    ensures Back(OperationExpr(Concat(parts))) == Normal(Concat(parts))
  {
    var chain := Chain("||", OperationExpr(parts[0]), OperationExprs(parts[1..]));
    assert OperationExpr(Concat(parts)) == EParen(chain);
    ConcatSpine(parts);
    BackOfParen(chain);
  }

  lemma ConcatSpine(parts: seq<Operation>)
    requires parts != [] && AllBack(parts) && Valid(parts[0])
    ensures Spine(Chain("||", OperationExpr(parts[0]), OperationExprs(parts[1..]))) == Normals(parts)
  {
    NoBareConcat(parts[0]);
    ConcatChainBack(OperationExpr(parts[0]), parts[1..]);
    SpineOfOne(OperationExpr(parts[0]));
  }

  lemma BackOfParen(e: Expr)
    ensures Back(EParen(e)) == Concat(Spine(e))
  {
  }

  lemma SpineOfOne(e: Expr)
    requires e.EBinary? ==> e.symbol != "||"
    ensures Spine(e) == [Back(e)]
  {
  }

  lemma AggregateBack(agg: Aggregator, val: Operation)
    requires Back(OperationExpr(val)) == Normal(val)
    ensures Back(OperationExpr(Aggregate(agg, val))) == Normal(Aggregate(agg, val))
  {
    AggregatorIsNamed(agg);
    BackOfAggregate(AggregatorName(agg), agg, OperationExpr(val));
    assert OperationExpr(Aggregate(agg, val)) == EAggregate(AggregatorName(agg), false, Some(OperationExpr(val)));
  }

  lemma ArithBack(arith: ArithOp, op1: Operation, op2: Operation)
    requires Back(OperationExpr(op1)) == Normal(op1) && Back(OperationExpr(op2)) == Normal(op2)
    ensures Back(OperationExpr(Arith(arith, op1, op2))) == Normal(Arith(arith, op1, op2))
  {
    OperatorIsNamed(arith);
    BackOfParens(ArithSymbol(arith), arith, OperationExpr(op1), OperationExpr(op2));
  }

  lemma {:induction false} CallBack(fn: Function, ops: seq<Operation>)
    requires AllBack(ops)
    ensures Back(OperationExpr(Call(fn, ops))) == Normal(Call(fn, ops))
  {
    OperandsBack(ops);
    FunctionIsNamed(fn);
    BackOfCall(FunctionName(fn), fn, OperationExprs(ops));
  }

  lemma BackOfCast(e: Expr, target: TypeName)
    ensures Back(ECast(e, target)) == Cast(Back(e), Dynamic(TypeText(target)))
  {
  }

  lemma CastBack(operand: Operation, targetType: Type)
    requires Back(OperationExpr(operand)) == Normal(operand)
    ensures Back(OperationExpr(Cast(operand, targetType))) == Normal(Cast(operand, targetType))
  {
    TypeTextKept(targetType);
    BackOfCast(OperationExpr(operand), TypeExpr(targetType));
  }

  lemma ExtractBack(part: DatePart, timestamp: Operation)
    requires Back(OperationExpr(timestamp)) == Normal(timestamp)
    ensures Back(OperationExpr(Extract(part, timestamp))) == Normal(Extract(part, timestamp))
  {
    PartIsNamed(part);
    BackOfExtract(PartName(part), part, OperationExpr(timestamp));
  }

  lemma LogBack(arg: Operation)
    requires Back(OperationExpr(arg)) == Normal(arg)
    ensures Back(OperationExpr(Log2(arg))) == Normal(Log2(arg))
  {
    BackOfLog(ENum(false, "2.0"), OperationExpr(arg));
    assert OperationExpr(Log2(arg)) == ECall("log", [ENum(false, "2.0"), OperationExpr(arg)]);
  }

  lemma DaysExpr(from: Operation, to: Operation, date: TypeName)
    requires date == Named("DATE")
    ensures OperationExpr(DaysBetween(from, to))
         == EBinary("-", ECast(OperationExpr(to), date), ECast(OperationExpr(from), date))
  {
  }

  lemma DaysBack(from: Operation, to: Operation)
    requires Back(OperationExpr(from)) == Normal(from) && Back(OperationExpr(to)) == Normal(to)
    ensures Back(OperationExpr(DaysBetween(from, to))) == Normal(DaysBetween(from, to))
  {
    var date := Named("DATE");
    DaysExpr(from, to, date);
    CastsBack(OperationExpr(DaysBetween(from, to)), OperationExpr(to), OperationExpr(from), date, from, to);
  }

  lemma CastsBack(e: Expr, l: Expr, r: Expr, target: TypeName, from: Operation, to: Operation)
    requires e == EBinary("-", ECast(l, target), ECast(r, target)) && Back(r) == Normal(from) && Back(l) == Normal(to)
    ensures Back(e) == Normal(DaysBetween(from, to))
  {
    BackOfCasts(l, r, target);
  }

  lemma {:induction false} OperationsBack(ops: seq<Operation>)
    requires AllValid(ops)
    ensures AllBack(ops)
    decreases ops, 0
  {
    forall i | 0 <= i < |ops| ensures Back(OperationExpr(ops[i])) == Normal(ops[i]) {
      OperationBack(ops[i]);
    }
  }

  lemma {:induction false} OperationBack(o: Operation)
    requires Valid(o)
    ensures Back(OperationExpr(o)) == Normal(o)
    decreases o, 1
  {
    match o
    case Aggregate(agg, val) =>
      OperationBack(val);
      AggregateBack(agg, val);
    case Count(_, _) =>
    case Arith(arith, op1, op2) =>
      OperationBack(op1);
      OperationBack(op2);
      ArithBack(arith, op1, op2);
    case Call(fn, ops) =>
      OperationsBack(ops);
      CallBack(fn, ops);
    case Cast(operand, targetType) =>
      OperationBack(operand);
      CastBack(operand, targetType);
    case Concat(parts) =>
      OperationsBack(parts);
      ConcatBack(parts);
    case DatePlusDuration(date, durations) =>
      OperationBack(date);
      PlusChainBack(OperationExpr(date), durations);
    case Operand(leaf) => LeafBack(leaf);
    case _ => OtherBack(o);
  }

  lemma {:induction false} OtherBack(o: Operation)
    requires Valid(o) && (o.DaysBetween? || o.Extract? || o.Log2?)
    ensures Back(OperationExpr(o)) == Normal(o)
    decreases o, 0
  {
    match o
    case DaysBetween(from, to) =>
      OperationBack(from);
      OperationBack(to);
      DaysBack(from, to);
    case Extract(part, timestamp) =>
      OperationBack(timestamp);
      ExtractBack(part, timestamp);
    case Log2(arg) =>
      OperationBack(arg);
      LogBack(arg);
  }

  lemma LeafBack(leaf: ColumnOrValue)
    ensures Back(LeafExpr(leaf)) == Operand(leaf) && BackLeaf(LeafExpr(leaf)) == leaf
  {
    if leaf.Literal? {
      ValueBack(leaf.v);
    }
  }

  // ------------------------------------------------------------------- normal forms print alike

  lemma {:induction false} JoinedAppend(d: string, a: seq<string>, b: seq<string>)
    requires a != [] && b != []
    ensures Strings.Joined(d, a + b) == Strings.Joined(d, a) + d + Strings.Joined(d, b)
    decreases |b|
  {
    var n := |b| - 1;
    Strings.JoinedSnoc(d, a + b[..n], b[n]);
    assert a + b[..n] + [b[n]] == a + b;
    assert b[..n] + [b[n]] == b;
    if n == 0 {
      assert a + b[..n] == a;
    } else {
      JoinedAppend(d, a, b[..n]);
      Strings.JoinedSnoc(d, b[..n], b[n]);
      Strings.Regroup(Strings.Joined(d, a) + d, Strings.Joined(d, b[..n]), d, b[n]);
    }
  }

  lemma {:induction false} DurationValuesAppend(a: seq<Duration>, b: seq<Duration>)
    ensures DurationValues(a + b) == DurationValues(a) + DurationValues(b)
  {
    if a == [] {
      assert a + b == b;
    } else {
      assert (a + b)[1..] == a[1..] + b;
      DurationValuesAppend(a[1..], b);
    }
  }

  lemma {:induction false} ValueTextsStep(vs: seq<Value>, v: Value, rest: seq<Value>)
    requires |vs| == 1 + |rest| && vs[0] == v && vs[1..] == rest
    ensures ValuesToSql(vs) == [ValueToSql(v)] + ValuesToSql(rest)
  {
  }

  lemma TailOfSum<T>(a: seq<T>, b: seq<T>)
    requires a != []
    ensures (a + b)[0] == a[0] && (a + b)[1..] == a[1..] + b
  {
  }

  lemma {:induction false} FirstText(a: seq<Value>, b: seq<Value>) returns (first: string)
    requires a != []
    ensures ValuesToSql(a) == [first] + ValuesToSql(a[1..])
    ensures ValuesToSql(a + b) == [first] + ValuesToSql(a[1..] + b)
  {
    var v, rest := a[0], a[1..];
    TailOfSum(a, b);
    first := ValueToSql(v);
    ValueTextsStep(a, v, rest);
    ValueTextsStep(a + b, v, rest + b);
  }

  lemma {:induction false} ValueTextsAppend(a: seq<Value>, b: seq<Value>)
    ensures ValuesToSql(a + b) == ValuesToSql(a) + ValuesToSql(b)
  {
    if a == [] {
      assert a + b == b;
    } else {
      var first := FirstText(a, b);
      ValueTextsAppend(a[1..], b);
      Assoc([first], ValuesToSql(a[1..]), ValuesToSql(b));
    }
  }

  lemma DurationTextsAppend(a: seq<Duration>, b: seq<Duration>)
    ensures ValuesToSql(DurationValues(a + b)) == ValuesToSql(DurationValues(a)) + ValuesToSql(DurationValues(b))
  {
    DurationValuesAppend(a, b);
    ValueTextsAppend(DurationValues(a), DurationValues(b));
  }

  lemma AddDurationsPrints(o: Operation, ds: seq<Duration>)
    requires ds != [] && (o.DatePlusDuration? ==> o.durations != [])
    ensures OperationToSql(AddDurations(o, ds)) == OperationToSql(DatePlusDuration(o, ds))
  {
    if o.DatePlusDuration? {
      var a, b := ValuesToSql(DurationValues(o.durations)), ValuesToSql(DurationValues(ds));
      DurationTextsAppend(o.durations, ds);
      JoinedAppend(" + ", a, b);
      PlusTexts(OperationToSql(o.date), Strings.Joined(" + ", a), Strings.Joined(" + ", b));
      DatePlusText(o.date, o.durations + ds);
      DatePlusText(o.date, o.durations);
    }
    DatePlusText(o, ds);
  }

  lemma DatePlusText(date: Operation, ds: seq<Duration>)
    ensures OperationToSql(DatePlusDuration(date, ds))
         == OperationToSql(date) + " + " + Strings.Joined(" + ", ValuesToSql(DurationValues(ds)))
  {
  }

  lemma PlusTexts(date: string, a: string, b: string)
    ensures date + " + " + (a + " + " + b) == (date + " + " + a) + " + " + b
  {
  }

  lemma {:induction false} NormalPrintsAlike(o: Operation)
    requires Valid(o)
    ensures OperationToSql(Normal(o)) == OperationToSql(o)
    ensures Normal(o).DatePlusDuration? ==> Normal(o).durations != []
    decreases o, 1
  {
    match o
    case Aggregate(_, val) => NormalPrintsAlike(val);
    case Count(_, _) =>
    case Arith(_, op1, op2) =>
      NormalPrintsAlike(op1);
      NormalPrintsAlike(op2);
    case Call(_, ops) => NormalsPrintAlike(ops);
    case Cast(operand, _) => NormalPrintsAlike(operand);
    case Concat(parts) => NormalsPrintAlike(parts);
    case DatePlusDuration(date, durations) =>
      NormalPrintsAlike(date);
      AddDurationsPrints(Normal(date), durations);
    case DaysBetween(from, to) =>
      NormalPrintsAlike(from);
      NormalPrintsAlike(to);
    case Extract(_, timestamp) => NormalPrintsAlike(timestamp);
    case Log2(arg) => NormalPrintsAlike(arg);
    case Operand(_) =>
  }

  lemma {:induction false} NormalsPrintAlike(ops: seq<Operation>)
    requires AllValid(ops)
    ensures OperationsToSql(Normals(ops)) == OperationsToSql(ops)
    decreases ops, 0
  {
    if ops != [] {
      NormalPrintsAlike(ops[0]);
      NormalsPrintAlike(ops[1..]);
      assert Normals(ops)[1..] == Normals(ops[1..]);
    }
  }

  // ------------------------------------------------------------------- the main results

  /** Two operations print alike if and only if they have the same normal form. */
  lemma {:induction false} OperationsPrintAlike(o1: Operation, o2: Operation)
    requires Valid(o1) && Valid(o2)
    ensures OperationToSql(o1) == OperationToSql(o2) <==> Normal(o1) == Normal(o2)
  {
    OperationParses(o1);
    OperationParses(o2);
    OperationBack(o1);
    OperationBack(o2);
    NormalPrintsAlike(o1);
    NormalPrintsAlike(o2);
  }

  lemma {:induction false} CompareBack(cmp: CompareOp, op1: Operation, op2: Operation)
    requires Valid(op1) && Valid(op2)
    ensures BackCondition(ConditionExpr(Compare(cmp, op1, op2))) == NormalCondition(Compare(cmp, op1, op2))
  {
    OperationBack(op1);
    OperationBack(op2);
    ComparesOnly(cmp);
  }

  lemma {:induction false} InBack(c: Condition)
    requires ValidCondition(c) && c.In?
    ensures BackCondition(ConditionExpr(c)) == NormalCondition(c)
  {
    OperationBack(c.op);
    ValuesBack(c.patterns);
  }

  lemma {:induction false} LikeBack(c: Condition)
    requires ValidCondition(c) && c.Like?
    ensures BackCondition(ConditionExpr(c)) == NormalCondition(c)
  {
    OperationBack(c.op);
    PatternBack(c.pattern);
    BackOfLike(OperationExpr(c.op), ValueExpr(c.pattern), c.negated);
  }

  lemma BackOfLike(e: Expr, pattern: Expr, negated: bool)
    ensures BackCondition(ELike(e, pattern, negated)) == Like(Back(e), BackValue(pattern), negated)
  {
  }

  lemma PatternBack(v: Value)
    ensures BackValue(ValueExpr(v)) == v
  {
    ValueBack(v);
  }

  lemma {:induction false} IsNullBack(c: Condition)
    requires ValidCondition(c) && c.IsNull?
    ensures BackCondition(ConditionExpr(c)) == NormalCondition(c)
  {
    OperationBack(c.op);
  }

  lemma {:induction false} BackOfJunction(e1: Expr, e2: Expr)
    ensures BackCondition(EBinary("AND", EParen(e1), EParen(e2))) == And(BackCondition(e1), BackCondition(e2))
    ensures BackCondition(EBinary("OR", EParen(e1), EParen(e2))) == Or(BackCondition(e1), BackCondition(e2))
  {
  }

  lemma {:induction false} BackOfNot(e: Expr)
    ensures BackCondition(ENot(EParen(e))) == Not(BackCondition(e))
  {
  }

  lemma {:induction false} ConditionBack(c: Condition)
    requires ValidCondition(c)
    ensures BackCondition(ConditionExpr(c)) == NormalCondition(c)
  {
    match c
    case And(c1, c2) =>
      ConditionBack(c1);
      ConditionBack(c2);
      BackOfJunction(ConditionExpr(c1), ConditionExpr(c2));
    case Or(c1, c2) =>
      ConditionBack(c1);
      ConditionBack(c2);
      BackOfJunction(ConditionExpr(c1), ConditionExpr(c2));
    case Not(c1) =>
      ConditionBack(c1);
      BackOfNot(ConditionExpr(c1));
    case BooleanColumnOrValue(cv) => LeafBack(cv);
    case Compare(cmp, op1, op2) => CompareBack(cmp, op1, op2);
    case In(_, _, _) => InBack(c);
    case IsNull(_, _) => IsNullBack(c);
    case Like(_, _, _) => LikeBack(c);
  }

  lemma {:induction false} NormalConditionPrintsAlike(c: Condition)
    requires ValidCondition(c)
    ensures ConditionToSql(NormalCondition(c)) == ConditionToSql(c)
  {
    match c
    case And(c1, c2) =>
      NormalConditionPrintsAlike(c1);
      NormalConditionPrintsAlike(c2);
    case Or(c1, c2) =>
      NormalConditionPrintsAlike(c1);
      NormalConditionPrintsAlike(c2);
    case Not(c1) => NormalConditionPrintsAlike(c1);
    case BooleanColumnOrValue(_) =>
    case Compare(_, op1, op2) =>
      NormalPrintsAlike(op1);
      NormalPrintsAlike(op2);
    case In(op, _, _) => NormalPrintsAlike(op);
    case IsNull(op, _) => NormalPrintsAlike(op);
    case Like(op, _, _) => NormalPrintsAlike(op);
  }

  /** The same for conditions, whether or not their lists are empty. */
  lemma {:induction false} ConditionsPrintAlike(c1: Condition, c2: Condition)
    requires ValidCondition(c1) && ValidCondition(c2)
    ensures ConditionToSql(c1) == ConditionToSql(c2) <==> NormalCondition(c1) == NormalCondition(c2)
  {
    ConditionIsRead(c1);
    ConditionIsRead(c2);
    ConditionBack(c1);
    ConditionBack(c2);
    NormalConditionPrintsAlike(c1);
    NormalConditionPrintsAlike(c2);
  }
}
