/** The printed text means what the tree means: read back with the precedences of SQL, it
    has the tree's value on every row of every group, whatever the functions compute. */
module PrinterMeaning {
  import opened Wrappers
  import opened Decimal
  import opened SqlTree
  import opened SqlNames
  import opened SqlMeaning
  import opened SqlParser
  import opened PrintedText
  import opened PrinterCorrect

  // ------------------------------------------------------------------- literals

  /** The first occurrence of c, or the length. */
  function IndexOf(s: string, c: char): (i: nat)
    ensures i <= |s|
    ensures forall j :: 0 <= j < i ==> s[j] != c
    ensures i < |s| ==> s[i] == c
  {
    if s == "" || s[0] == c then 0 else 1 + IndexOf(s[1..], c)
  }

  /** A number token: an integer, or a decimal with up to six places. */
  function NumberValue(negative: bool, digits: string): Val
  {
    var dot := IndexOf(digits, '.');
    if AllDigits(digits) then VInt(Signed(negative, ReadNat(digits)))
    else if dot == |digits| then VTerm("number", [VStr(digits)])
    else
      var whole, frac := digits[..dot], digits[dot + 1..];
      if !AllDigits(whole) || !AllDigits(frac) || |frac| > 6 then VTerm("number", [VStr(digits)])
      else
        var micros := ReadNat(whole) * 1000000 + ReadNat(frac) * Pow10(6 - |frac|);
        VDec(Signed(negative, micros))
  }

  function UnitOf(name: string): Option<TimeUnit>
  {
    if name == "milliseconds" then Some(Milliseconds)
    else if name == "seconds" then Some(Seconds)
    else if name == "minutes" then Some(Minutes)
    else if name == "hours" then Some(Hours)
    else if name == "days" then Some(Days)
    else if name == "weeks" then Some(Weeks)
    else if name == "months" then Some(Months)
    else if name == "years" then Some(Years)
    else None
  }

  /** An interval literal: a count, a space and a unit. */
  function IntervalValue(text: string): Val
  {
    var space := IndexOf(text, ' ');
    if space == |text| then VTerm("interval", [VStr(text)])
    else match (ReadInt(text[..space]), UnitOf(text[space + 1..]))
      case (Some(n), Some(unit)) => VDuration(unit, n)
      case _ => VTerm("interval", [VStr(text)])
  }

  function TypeRead(t: TypeName): Type
  {
    match t
    case Named(w) => TypeNamed(w)
    case Sized(w, size) =>
      if w == "VARCHAR" && AllDigits(size) then VarChar(ReadNat(size)) else Dynamic(w + "(" + size + ")")
    case TimestampWithTimeZone => TimestampWithTZ
  }

  // ------------------------------------------------------------------- parsed expressions

  function EvalExpr(I: Interp, env: Env, e: Expr): Val
    decreases e, 1
  {
    match e
    case ENum(negative, digits) => NumberValue(negative, digits)
    case EStr(s) => VStr(s)
    case EBool(b) => VBool(b)
    case ENull => VNull
    case EInterval(text) => IntervalValue(text)
    case EColumn(alias, name) => env.row(alias, name)
    case ENegate(e1) => I.call(Unlisted("-"), [EvalExpr(I, env, e1)])
    case EBinary(symbol, l, r) =>
      var a, b := EvalExpr(I, env, l), EvalExpr(I, env, r);
      if symbol == "AND" then FromTruth(Both(ToTruth(a), ToTruth(b)))
      else if symbol == "OR" then FromTruth(Either(ToTruth(a), ToTruth(b)))
      else if ComparisonNamed(symbol).Known? then FromTruth(Compares(I, ComparisonNamed(symbol).it, a, b))
      else I.binary(OperatorNamed(symbol), a, b)
    case ENot(e1) => FromTruth(Negation(ToTruth(EvalExpr(I, env, e1))))
    case EIn(e1, list, negated) =>
      FromTruth(NegateIf(negated, AmongThem(I, EvalExpr(I, env, e1), EvalExprs(I, env, list))))
    case EIsNull(e1, negated) =>
      FromTruth(NegateIf(negated, Holds(EvalExpr(I, env, e1).VNull?)))
    case ELike(e1, pattern, negated) =>
      FromTruth(NegateIf(negated, Matches(I, EvalExpr(I, env, e1), EvalExpr(I, env, pattern))))
    case ECall(name, args) =>
      var vs := EvalExprs(I, env, args);
      if name == "coalesce" then FirstNonNull(vs) else I.call(FunctionNamed(name), vs)
    case EAggregate(name, distinct, arg) =>
      if arg.None? then VInt(|env.group|)
      else I.aggregate(AggregateNamed(name), distinct, EvalExprOver(I, env.group, env.group, arg.value))
    case ECast(e1, target) => I.cast(TypeRead(target), EvalExpr(I, env, e1))
    case EExtract(part, e1) => I.extract(PartNamed(part), EvalExpr(I, env, e1))
    case EParen(e1) => EvalExpr(I, env, e1)
  }

  function EvalExprs(I: Interp, env: Env, es: seq<Expr>): (r: seq<Val>)
    ensures |r| == |es|
    decreases es, 0
  {
    if es == [] then [] else [EvalExpr(I, env, es[0])] + EvalExprs(I, env, es[1..])
  }

  function EvalExprOver(I: Interp, rows: seq<Row>, group: seq<Row>, e: Expr): (r: seq<Val>)
    ensures |r| == |rows|
    decreases e, 2, |rows|
  {
    if rows == [] then []
    else [EvalExpr(I, Env(rows[0], group), e)] + EvalExprOver(I, rows[1..], group, e)
  }

  // ------------------------------------------------------------------- literals keep their value

  lemma IntegerKept(n: int)
    ensures NumberValue(n < 0, NatToString(if n < 0 then -n else n)) == VInt(n)
  {
    ReadPrintedNat(if n < 0 then -n else n);
  }

  lemma SplitAtDot(whole: string, frac: string)
    requires AllDigits(whole)
    ensures var digits := whole + "." + frac; var dot := IndexOf(digits, '.');
            !AllDigits(digits) && dot == |whole| < |digits| && digits[..dot] == whole && digits[dot + 1..] == frac
  {
    var digits := whole + "." + frac;
    assert digits[|whole|] == '.' && !IsDigit('.');
    assert forall i :: 0 <= i < |whole| ==> digits[i] == whole[i] && IsDigit(digits[i]);
  }

  lemma FloatKept(negative: bool, micros: nat)
    ensures NumberValue(negative, FloatToString(false, micros)) == VDec(Signed(negative, micros))
  {
    var whole, frac := NatToString(micros / 1000000), Padded(NatToString(micros % 1000000), 6);
    ReadPrintedNat(micros / 1000000);
    assert Pow10(6) == 1000000 && Pow10(0) == 1;
    ReadPadded(micros % 1000000, 6);
    assert FloatToString(false, micros) == whole + "." + frac;
    SplitAtDot(whole, frac);
  }

  lemma UnitKept(u: TimeUnit)
    ensures UnitOf(UnitName(u)) == Some(u)
  {
  }

  lemma SplitAtSpace(number: string, unit: string)
    requires forall i :: 0 <= i < |number| ==> number[i] != ' '
    ensures var text := number + " " + unit; var space := IndexOf(text, ' ');
            space == |number| < |text| && text[..space] == number && text[space + 1..] == unit
  {
    var text := number + " " + unit;
    assert text[|number|] == ' ';
    assert forall i :: 0 <= i < |number| ==> text[i] == number[i];
  }

  lemma DurationKept(d: Duration)
    ensures IntervalValue(DurationText(d)) == VDuration(d.unit, d.val)
  {
    ReadPrintedInt(d.val);
    UnitKept(d.unit);
    NoSpaceInNumber(d.val);
    SplitAtSpace(IntToString(d.val), UnitName(d.unit));
  }

  lemma NoSpaceInNumber(n: int)
    ensures forall i :: 0 <= i < |IntToString(n)| ==> IntToString(n)[i] != ' '
  {
  }

  lemma ValueKept(I: Interp, env: Env, v: Value)
    ensures EvalExpr(I, env, ValueExpr(v)) == EvalValue(I, v)
  {
    match v
    case Float(negative, micros) => FloatKept(negative, micros);
    case Integer(n) => IntegerKept(n);
    case DurationValue(d) => DurationKept(d);
    case Timestamp(seconds) => TimestampKept(I, env, seconds);
    case _ =>
  }

  lemma TimestampKept(I: Interp, env: Env, seconds: int)
    ensures EvalExpr(I, env, ECall("to_timestamp", [IntExpr(seconds)]))
         == I.call(Unlisted("to_timestamp"), [VInt(seconds)])
  {
    IntegerKept(seconds);
    assert EvalExprs(I, env, [IntExpr(seconds)]) == [VInt(seconds)];
  }

  lemma {:induction false} ValuesKept(I: Interp, env: Env, vs: seq<Value>)
    ensures EvalExprs(I, env, ValueExprs(vs)) == EvalValues(I, vs)
  {
    if vs != [] {
      ValueKept(I, env, vs[0]);
      ValuesKept(I, env, vs[1..]);
      assert ValueExprs(vs)[1..] == ValueExprs(vs[1..]);
    }
  }

  lemma {:induction false} DurationsKept(I: Interp, ds: seq<Duration>)
    ensures EvalValues(I, DurationValues(ds)) == EvalDurations(ds)
  {
    if ds != [] {
      DurationsKept(I, ds[1..]);
      assert DurationValues(ds)[1..] == DurationValues(ds[1..]);
    }
  }

  // ------------------------------------------------------------------- operations keep their value

  lemma {:induction false} ChainKept(I: Interp, env: Env, symbol: string, left: Expr, es: seq<Expr>)
    requires symbol == "+" || symbol == "||"
    ensures EvalExpr(I, env, Chain(symbol, left, es))
         == FoldValues(I, OperatorNamed(symbol), EvalExpr(I, env, left), EvalExprs(I, env, es))
    decreases |es|
  {
    if es != [] {
      var e := EBinary(symbol, left, es[0]);
      assert EvalExpr(I, env, e)
          == I.binary(OperatorNamed(symbol), EvalExpr(I, env, left), EvalExpr(I, env, es[0]));
      ChainKept(I, env, symbol, e, es[1..]);
      assert EvalExprs(I, env, es)[1..] == EvalExprs(I, env, es[1..]);
    }
  }

  lemma OnlyCoalesce(f: Function)
    ensures FunctionName(f) == "coalesce" <==> f.Coalesce?
  {
  }

  lemma TypeKept(t: Type)
    ensures TypeRead(TypeExpr(t)) == DatabaseType(t)
  {
    if t.VarChar? {
      ReadPrintedNat(t.length);
    }
  }

  lemma {:induction false} OperationKept(I: Interp, env: Env, o: Operation)
    requires Valid(o)
    ensures EvalExpr(I, env, OperationExpr(o)) == Eval(I, env, o)
    decreases o, 1
  {
    match o
    case Aggregate(agg, val) =>
      OverKept(I, env.group, env.group, val);
      AggregateKept(I, env, agg, val);
    case Count(counted, distinct) => CountKept(I, env, counted, distinct);
    case Arith(arith, op1, op2) =>
      OperationKept(I, env, op1);
      OperationKept(I, env, op2);
      ArithKept(I, env, arith, op1, op2);
    case Call(fn, ops) =>
      OperationsKept(I, env, ops);
      CallKept(I, env, fn, ops);
    case Concat(parts) =>
      OperationKept(I, env, parts[0]);
      OperationsKept(I, env, parts[1..]);
      ConcatKept(I, env, parts);
    case DatePlusDuration(date, durations) =>
      OperationKept(I, env, date);
      DatePlusKept(I, env, date, durations);
    case Operand(leaf) => LeafKept(I, env, leaf);
    case _ => OtherKept(I, env, o);
  }

  lemma {:induction false} OtherKept(I: Interp, env: Env, o: Operation)
    requires Valid(o) && (o.Cast? || o.DaysBetween? || o.Extract? || o.Log2?)
    ensures EvalExpr(I, env, OperationExpr(o)) == Eval(I, env, o)
    decreases o, 0
  {
    match o
    case Cast(operand, targetType) =>
      OperationKept(I, env, operand);
      CastKept(I, env, operand, targetType);
    case DaysBetween(from, to) =>
      OperationKept(I, env, from);
      OperationKept(I, env, to);
      DaysKept(I, env, OperationExpr(to), OperationExpr(from));
    case Extract(part, timestamp) =>
      OperationKept(I, env, timestamp);
      ExtractKept(I, env, part, timestamp);
    case Log2(arg) =>
      OperationKept(I, env, arg);
      LogKept(I, env, OperationExpr(arg));
  }

  lemma AggregateKept(I: Interp, env: Env, agg: Aggregator, val: Operation)
    requires EvalExprOver(I, env.group, env.group, OperationExpr(val)) == EvalOver(I, env.group, env.group, val)
    ensures EvalExpr(I, env, OperationExpr(Aggregate(agg, val))) == Eval(I, env, Aggregate(agg, val))
  {
    AggregatorIsNamed(agg);
  }

  lemma ExtractKept(I: Interp, env: Env, part: DatePart, timestamp: Operation)
    requires EvalExpr(I, env, OperationExpr(timestamp)) == Eval(I, env, timestamp)
    ensures EvalExpr(I, env, OperationExpr(Extract(part, timestamp))) == Eval(I, env, Extract(part, timestamp))
  {
    PartIsNamed(part);
    assert OperationExpr(Extract(part, timestamp)) == EExtract(PartName(part), OperationExpr(timestamp));
  }

  lemma CastKept(I: Interp, env: Env, operand: Operation, targetType: Type)
    requires EvalExpr(I, env, OperationExpr(operand)) == Eval(I, env, operand)
    ensures EvalExpr(I, env, OperationExpr(Cast(operand, targetType))) == Eval(I, env, Cast(operand, targetType))
  {
    TypeKept(targetType);
  }

  lemma LeafKept(I: Interp, env: Env, leaf: ColumnOrValue)
    ensures EvalExpr(I, env, LeafExpr(leaf)) == EvalLeaf(I, env.row, leaf)
  {
    if leaf.Literal? {
      ValueKept(I, env, leaf.v);
    }
  }

  lemma CountKept(I: Interp, env: Env, counted: Option<Column>, distinct: bool)
    ensures EvalExpr(I, env, OperationExpr(Count(counted, distinct))) == Eval(I, env, Count(counted, distinct))
  {
    if counted.Some? {
      ColumnKept(I, env.group, env.group, counted.value);
    }
  }

  lemma ArithKept(I: Interp, env: Env, arith: ArithOp, op1: Operation, op2: Operation)
    requires EvalExpr(I, env, OperationExpr(op1)) == Eval(I, env, op1)
    requires EvalExpr(I, env, OperationExpr(op2)) == Eval(I, env, op2)
    ensures EvalExpr(I, env, OperationExpr(Arith(arith, op1, op2))) == Eval(I, env, Arith(arith, op1, op2))
  {
    ArithIsPlain(arith);
    var e1, e2 := OperationExpr(op1), OperationExpr(op2);
    assert OperationExpr(Arith(arith, op1, op2)) == EBinary(ArithSymbol(arith), EParen(e1), EParen(e2));
    ParenthesizedBinary(I, env, ArithSymbol(arith), e1, e2);
  }

  lemma ParenthesizedBinary(I: Interp, env: Env, symbol: string, e1: Expr, e2: Expr)
    requires ComparisonNamed(symbol).Unlisted? && symbol != "AND" && symbol != "OR"
    ensures EvalExpr(I, env, EBinary(symbol, EParen(e1), EParen(e2)))
         == I.binary(OperatorNamed(symbol), EvalExpr(I, env, e1), EvalExpr(I, env, e2))
  {
    PlainBinary(I, env, symbol, EParen(e1), EParen(e2));
  }

  lemma ArithIsPlain(arith: ArithOp)
    ensures ComparisonNamed(ArithSymbol(arith)).Unlisted? && OperatorNamed(ArithSymbol(arith)) == Known(arith)
    ensures ArithSymbol(arith) != "AND" && ArithSymbol(arith) != "OR"
  {
    OperatorIsNamed(arith);
  }

  lemma CallKept(I: Interp, env: Env, fn: Function, ops: seq<Operation>)
    requires EvalExprs(I, env, OperationExprs(ops)) == EvalAll(I, env, ops)
    ensures EvalExpr(I, env, OperationExpr(Call(fn, ops))) == Eval(I, env, Call(fn, ops))
  {
    OnlyCoalesce(fn);
    FunctionIsNamed(fn);
  }

  lemma {:induction false} ConcatKept(I: Interp, env: Env, parts: seq<Operation>)
    requires parts != [] && EvalExpr(I, env, OperationExpr(parts[0])) == Eval(I, env, parts[0])
    requires EvalExprs(I, env, OperationExprs(parts[1..])) == EvalAll(I, env, parts[1..])
    ensures EvalExpr(I, env, OperationExpr(Concat(parts))) == Eval(I, env, Concat(parts))
  {
    ConcatExpr(parts);
    ParenKept(I, env, Chain("||", OperationExpr(parts[0]), OperationExprs(parts[1..])));
    ChainKept(I, env, "||", OperationExpr(parts[0]), OperationExprs(parts[1..]));
    ConcatMeans(I, env, parts);
  }

  lemma {:induction false} ConcatMeans(I: Interp, env: Env, parts: seq<Operation>)
    requires parts != []
    ensures Eval(I, env, Concat(parts))
         == FoldValues(I, Unlisted("||"), Eval(I, env, parts[0]), EvalAll(I, env, parts[1..]))
  {
  }

  lemma {:induction false} DatePlusKept(I: Interp, env: Env, date: Operation, durations: seq<Duration>)
    requires EvalExpr(I, env, OperationExpr(date)) == Eval(I, env, date)
    ensures EvalExpr(I, env, OperationExpr(DatePlusDuration(date, durations)))
         == Eval(I, env, DatePlusDuration(date, durations))
  {
    var plus, left, es := "+", OperationExpr(date), ValueExprs(DurationValues(durations));
    DurationsKept(I, durations);
    ValuesKept(I, env, DurationValues(durations));
    DatePlusExpr(date, durations, plus);
    ChainKept(I, env, plus, left, es);
    DatePlusMeans(I, env, date, durations, plus);
  }

  lemma {:induction false} DatePlusExpr(date: Operation, durations: seq<Duration>, plus: string)
    requires plus == "+"
    ensures OperationExpr(DatePlusDuration(date, durations))
         == Chain(plus, OperationExpr(date), ValueExprs(DurationValues(durations)))
  {
  }

  lemma {:induction false} DatePlusMeans(I: Interp, env: Env, date: Operation, durations: seq<Duration>, plus: string)
    requires plus == "+"
    ensures Eval(I, env, DatePlusDuration(date, durations))
         == FoldValues(I, OperatorNamed(plus), Eval(I, env, date), EvalDurations(durations))
  {
  }

  lemma PlainBinary(I: Interp, env: Env, symbol: string, l: Expr, r: Expr)
    requires ComparisonNamed(symbol).Unlisted? && symbol != "AND" && symbol != "OR"
    ensures EvalExpr(I, env, EBinary(symbol, l, r))
         == I.binary(OperatorNamed(symbol), EvalExpr(I, env, l), EvalExpr(I, env, r))
  {
  }

  lemma ToDate(I: Interp, env: Env, e: Expr)
    ensures EvalExpr(I, env, ECast(e, Named("DATE"))) == I.cast(Date, EvalExpr(I, env, e))
  {
  }

  lemma DaysKept(I: Interp, env: Env, to: Expr, from: Expr)
    ensures EvalExpr(I, env, EBinary("-", ECast(to, Named("DATE")), ECast(from, Named("DATE"))))
         == I.binary(Known(Minus), I.cast(Date, EvalExpr(I, env, to)), I.cast(Date, EvalExpr(I, env, from)))
  {
    ToDate(I, env, to);
    ToDate(I, env, from);
    ArithIsPlain(Minus);
    PlainBinary(I, env, "-", ECast(to, Named("DATE")), ECast(from, Named("DATE")));
  }

  lemma LogKept(I: Interp, env: Env, arg: Expr)
    ensures EvalExpr(I, env, ECall("log", [ENum(false, "2.0"), arg]))
         == I.call(Unlisted("log"), [VDec(2000000), EvalExpr(I, env, arg)])
  {
    TwoPointZero();
    assert EvalExprs(I, env, [ENum(false, "2.0"), arg]) == [VDec(2000000), EvalExpr(I, env, arg)];
  }

  lemma TwoPointZero()
    ensures NumberValue(false, "2.0") == VDec(2000000)
  {
    var s := "2.0";
    assert s[0] == '2' && s[1] == '.' && s[2] == '0';
    assert IndexOf(s, '.') == 1;
    assert s[..1] == "2" && s[2..] == "0";
    assert ReadNat("2") == 2 && ReadNat("0") == 0;
  }

  lemma {:induction false} OperationsKept(I: Interp, env: Env, ops: seq<Operation>)
    requires AllValid(ops)
    ensures EvalExprs(I, env, OperationExprs(ops)) == EvalAll(I, env, ops)
    decreases ops, 0
  {
    if ops != [] {
      OperationKept(I, env, ops[0]);
      OperationsKept(I, env, ops[1..]);
      assert OperationExprs(ops)[1..] == OperationExprs(ops[1..]);
    }
  }

  lemma {:induction false} OverKept(I: Interp, rows: seq<Row>, group: seq<Row>, o: Operation)
    requires Valid(o)
    ensures EvalExprOver(I, rows, group, OperationExpr(o)) == EvalOver(I, rows, group, o)
    decreases o, 2, |rows|
  {
    if rows != [] {
      OperationKept(I, Env(rows[0], group), o);
      OverKept(I, rows[1..], group, o);
    }
  }

  lemma {:induction false} ColumnKept(I: Interp, rows: seq<Row>, group: seq<Row>, c: Column)
    ensures EvalExprOver(I, rows, group, ColumnExpr(c)) == ColumnOver(rows, c)
    decreases |rows|
  {
    if rows != [] {
      ColumnKept(I, rows[1..], group, c);
    }
  }

  // ------------------------------------------------------------------- conditions keep their truth

  lemma TruthRoundTrip(t: Truth)
    ensures ToTruth(FromTruth(t)) == t
  {
  }

  lemma {:induction false} ConditionKept(I: Interp, env: Env, c: Condition)
    requires ValidCondition(c)
    ensures ToTruth(EvalExpr(I, env, ConditionExpr(c))) == EvalCondition(I, env, c)
  {
    match c
    case And(c1, c2) =>
      ConditionKept(I, env, c1);
      ConditionKept(I, env, c2);
      BothKept(I, env, c);
    case Or(c1, c2) =>
      ConditionKept(I, env, c1);
      ConditionKept(I, env, c2);
      BothKept(I, env, c);
    case Not(c1) =>
      ConditionKept(I, env, c1);
      NotKept(I, env, c1);
    case BooleanColumnOrValue(cv) => LeafKept(I, env, cv);
    case Compare(_, _, _) => CompareKept(I, env, c);
    case _ => TestKept(I, env, c);
  }

  lemma NotKept(I: Interp, env: Env, c: Condition)
    requires ToTruth(EvalExpr(I, env, ConditionExpr(c))) == EvalCondition(I, env, c)
    ensures ToTruth(EvalExpr(I, env, ConditionExpr(Not(c)))) == EvalCondition(I, env, Not(c))
  {
  }

  lemma {:induction false} ParenKept(I: Interp, env: Env, e: Expr)
    ensures EvalExpr(I, env, EParen(e)) == EvalExpr(I, env, e)
  {
  }

  lemma {:induction false} WordKept(I: Interp, env: Env, w: string, l: Expr, r: Expr)
    requires w == "AND" || w == "OR"
    ensures var a, b := ToTruth(EvalExpr(I, env, l)), ToTruth(EvalExpr(I, env, r));
            EvalExpr(I, env, EBinary(w, l, r)) == FromTruth(if w == "AND" then Both(a, b) else Either(a, b))
  {
  }

  lemma {:induction false} BothKept(I: Interp, env: Env, c: Condition)
    requires c.And? || c.Or?
    requires ToTruth(EvalExpr(I, env, ConditionExpr(c.cond1))) == EvalCondition(I, env, c.cond1)
    requires ToTruth(EvalExpr(I, env, ConditionExpr(c.cond2))) == EvalCondition(I, env, c.cond2)
    ensures ToTruth(EvalExpr(I, env, ConditionExpr(c))) == EvalCondition(I, env, c)
  {
    var w, e1, e2 := if c.And? then "AND" else "OR", ConditionExpr(c.cond1), ConditionExpr(c.cond2);
    BothExpr(c, w);
    ParenKept(I, env, e1);
    ParenKept(I, env, e2);
    WordKept(I, env, w, EParen(e1), EParen(e2));
    TruthRoundTrip(EvalCondition(I, env, c));
  }

  lemma TestKept(I: Interp, env: Env, c: Condition)
    requires c.In? || c.IsNull? || c.Like?
    requires ValidCondition(c)
    ensures ToTruth(EvalExpr(I, env, ConditionExpr(c))) == EvalCondition(I, env, c)
  {
    match c
    case In(_, _, _) => InKept(I, env, c);
    case IsNull(_, _) => IsNullKept(I, env, c);
    case Like(_, _, _) => LikeKept(I, env, c);
  }

  lemma TestTruth(I: Interp, env: Env, e: Expr, list: seq<Expr>, pattern: Expr, negated: bool)
    ensures ToTruth(EvalExpr(I, env, EIsNull(e, negated))) == NegateIf(negated, Holds(EvalExpr(I, env, e).VNull?))
    ensures ToTruth(EvalExpr(I, env, ELike(e, pattern, negated)))
         == NegateIf(negated, Matches(I, EvalExpr(I, env, e), EvalExpr(I, env, pattern)))
    ensures ToTruth(EvalExpr(I, env, EIn(e, list, negated)))
         == NegateIf(negated, AmongThem(I, EvalExpr(I, env, e), EvalExprs(I, env, list)))
  {
    TruthRoundTrip(NegateIf(negated, Holds(EvalExpr(I, env, e).VNull?)));
    TruthRoundTrip(NegateIf(negated, Matches(I, EvalExpr(I, env, e), EvalExpr(I, env, pattern))));
    TruthRoundTrip(NegateIf(negated, AmongThem(I, EvalExpr(I, env, e), EvalExprs(I, env, list))));
  }

  lemma IsNullKept(I: Interp, env: Env, c: Condition)
    requires c.IsNull? && ValidCondition(c)
    ensures ToTruth(EvalExpr(I, env, ConditionExpr(c))) == EvalCondition(I, env, c)
  {
    OperationKept(I, env, c.op);
    TestTruth(I, env, OperationExpr(c.op), [], ENull, c.negated);
  }

  lemma LikeKept(I: Interp, env: Env, c: Condition)
    requires c.Like? && ValidCondition(c)
    ensures ToTruth(EvalExpr(I, env, ConditionExpr(c))) == EvalCondition(I, env, c)
  {
    OperationKept(I, env, c.op);
    ValueKept(I, env, c.pattern);
    TestTruth(I, env, OperationExpr(c.op), [], ValueExpr(c.pattern), c.negated);
  }

  lemma InKept(I: Interp, env: Env, c: Condition)
    requires c.In? && ValidCondition(c)
    ensures ToTruth(EvalExpr(I, env, ConditionExpr(c))) == EvalCondition(I, env, c)
  {
    OperationKept(I, env, c.op);
    ValuesKept(I, env, c.patterns);
    TestTruth(I, env, OperationExpr(c.op), ValueExprs(c.patterns), ENull, c.negated);
  }

  lemma ComparesOnly(cmp: CompareOp)
    ensures ComparisonNamed(CompareSymbol(cmp)) == Known(cmp)
    ensures CompareSymbol(cmp) != "AND" && CompareSymbol(cmp) != "OR"
  {
    ComparisonIsNamed(cmp);
  }

  lemma ComparisonTruth(I: Interp, env: Env, symbol: string, cmp: CompareOp, l: Expr, r: Expr)
    requires ComparisonNamed(symbol) == Known(cmp) && symbol != "AND" && symbol != "OR"
    ensures ToTruth(EvalExpr(I, env, EBinary(symbol, l, r)))
         == Compares(I, cmp, EvalExpr(I, env, l), EvalExpr(I, env, r))
  {
    TruthRoundTrip(Compares(I, cmp, EvalExpr(I, env, l), EvalExpr(I, env, r)));
  }

  lemma CompareKept(I: Interp, env: Env, c: Condition)
    requires c.Compare? && ValidCondition(c)
    ensures ToTruth(EvalExpr(I, env, ConditionExpr(c))) == EvalCondition(I, env, c)
  {
    OperationKept(I, env, c.op1);
    OperationKept(I, env, c.op2);
    ComparesOnly(c.cmp);
    ComparisonTruth(I, env, CompareSymbol(c.cmp), c.cmp, OperationExpr(c.op1), OperationExpr(c.op2));
  }

  // ------------------------------------------------------------------- main results

  /** The text of an operation always parses, and means the operation. */
  lemma {:induction false} PrintedOperationMeans(I: Interp, env: Env, o: Operation)
    requires Valid(o)
    ensures var p := ParseSql(OperationToSql(o));
            p.Some? && EvalExpr(I, env, p.value) == Eval(I, env, o)
  {
    OperationParses(o);
    OperationKept(I, env, o);
  }

  /** The text of a condition parses exactly when no IN list is empty, and then has the
      condition's truth value, UNKNOWN included. */
  lemma {:induction false} PrintedConditionMeans(I: Interp, env: Env, c: Condition)
    requires ValidCondition(c)
    ensures ParseSql(ConditionToSql(c)).Some? <==> NoEmptyIn(c)
    ensures ParseSql(ConditionToSql(c)).Some? ==>
              ToTruth(EvalExpr(I, env, ParseSql(ConditionToSql(c)).value)) == EvalCondition(I, env, c)
  {
    ConditionParses(c);
    ConditionKept(I, env, c);
  }

  /** An empty vector given to in(...) prints text that is not SQL. */
  lemma {:induction false} EmptyInDoesNotParse(op: Operation, negated: bool)
    requires Valid(op)
    ensures ParseSql(ConditionToSql(In(op, [], negated))).None?
  {
    ConditionParses(In(op, [], negated));
  }
}
