/** Parsing what the printer wrote. Operations always parse, to the expression below; a
    condition parses if and only if it has no IN or NOT IN with an empty list.

    The Prefix lemmas read a tree that is one unit, the Loop lemmas a row of operators of one
    level, and the Parse lemmas a tree where an expression is expected, before tokens that bind
    no tighter than the printer lets them. */
module PrinterCorrect {
  import opened Wrappers
  import opened Decimal
  import opened SqlTree
  import opened SqlLexer
  import opened SqlParser
  import opened PrintedTokens
  import opened PrintedText

  // ------------------------------------------------------------------- expected expressions

  function IntExpr(n: int): Expr { ENum(n < 0, NatToString(if n < 0 then -n else n)) }

  function ValueExpr(v: Value): Expr
  {
    match v
    case String(s) => EStr(s)
    case DurationValue(d) => EInterval(DurationText(d))
    case Null => ENull
    case Timestamp(seconds) => ECall("to_timestamp", [IntExpr(seconds)])
    case Boolean(b) => EBool(b)
    case Float(negative, micros) => ENum(negative, FloatDigits(micros))
    case Integer(n) => IntExpr(n)
  }

  function ValueExprs(vs: seq<Value>): (r: seq<Expr>)
    ensures |r| == |vs|
  {
    if vs == [] then [] else [ValueExpr(vs[0])] + ValueExprs(vs[1..])
  }

  function ColumnExpr(c: Column): Expr { EColumn(c.alias, c.name) }

  function LeafExpr(cv: ColumnOrValue): Expr
  {
    match cv
    case ColumnRef(c) => ColumnExpr(c)
    case Literal(v) => ValueExpr(v)
  }

  function TypeExpr(t: Type): TypeName
  {
    match t
    case VarChar(length) => Sized("VARCHAR", NatToString(length))
    case TimestampWithTZ => TimestampWithTimeZone
    case _ => Named(TypeToSql(t))
  }

  /** Operands combined from the left. */
  function Chain(symbol: string, left: Expr, rest: seq<Expr>): Expr
    decreases |rest|
  {
    if rest == [] then left else Chain(symbol, EBinary(symbol, left, rest[0]), rest[1..])
  }

  function OperationExpr(o: Operation): Expr
    decreases o, 1
  {
    match o
    case Aggregate(agg, val) => EAggregate(AggregatorName(agg), false, Some(OperationExpr(val)))
    case Count(counted, distinct) =>
      if counted.None? then EAggregate("COUNT", false, None)
      else EAggregate("COUNT", distinct, Some(ColumnExpr(counted.value)))
    case Arith(arith, op1, op2) =>
      EBinary(ArithSymbol(arith), EParen(OperationExpr(op1)), EParen(OperationExpr(op2)))
    case Call(fn, ops) => ECall(FunctionName(fn), OperationExprs(ops))
    case Cast(operand, targetType) => ECast(OperationExpr(operand), TypeExpr(targetType))
    case Concat(parts) =>
      if parts == [] then ENull
      else EParen(Chain("||", OperationExpr(parts[0]), OperationExprs(parts[1..])))
    case DatePlusDuration(date, durations) =>
      Chain("+", OperationExpr(date), ValueExprs(DurationValues(durations)))
    case DaysBetween(from, to) =>
      EBinary("-", ECast(OperationExpr(to), Named("DATE")), ECast(OperationExpr(from), Named("DATE")))
    case Extract(part, timestamp) => EExtract(PartName(part), OperationExpr(timestamp))
    case Log2(arg) => ECall("log", [ENum(false, "2.0"), OperationExpr(arg)])
    case Operand(leaf) => LeafExpr(leaf)
  }

  function OperationExprs(ops: seq<Operation>): (r: seq<Expr>)
    ensures |r| == |ops|
    decreases ops, 0
  {
    if ops == [] then [] else [OperationExpr(ops[0])] + OperationExprs(ops[1..])
  }

  function ConditionExpr(c: Condition): Expr
  {
    match c
    case And(c1, c2) => EBinary("AND", EParen(ConditionExpr(c1)), EParen(ConditionExpr(c2)))
    case Or(c1, c2) => EBinary("OR", EParen(ConditionExpr(c1)), EParen(ConditionExpr(c2)))
    case Not(c1) => ENot(EParen(ConditionExpr(c1)))
    case BooleanColumnOrValue(cv) => LeafExpr(cv)
    case Compare(cmp, op1, op2) => EBinary(CompareSymbol(cmp), OperationExpr(op1), OperationExpr(op2))
    case In(op, patterns, negated) => EIn(OperationExpr(op), ValueExprs(patterns), negated)
    case IsNull(op, negated) => EIsNull(OperationExpr(op), negated)
    case Like(op, pattern, negated) => ELike(OperationExpr(op), ValueExpr(pattern), negated)
  }

  /** No IN or NOT IN anywhere in the condition has an empty list. */
  predicate NoEmptyIn(c: Condition)
  {
    match c
    case And(c1, c2) => NoEmptyIn(c1) && NoEmptyIn(c2)
    case Or(c1, c2) => NoEmptyIn(c1) && NoEmptyIn(c2)
    case Not(c1) => NoEmptyIn(c1)
    case In(_, patterns, _) => patterns != []
    case _ => true
  }

  // ------------------------------------------------------------------- small steps

  lemma LoopStops(left: Expr, min: nat, cap: nat, k: Lexemes)
    requires InfixLevel(k) == 0 || InfixLevel(k) < min
    ensures ParseLoop(left, min, cap, k) == Done(left, k)
  {
  }

  lemma AtMostMultiply(k: Lexemes)
    ensures InfixLevel(k) <= MULTIPLY_LEVEL
  {
  }

  /** A prefix followed by the rest of the loop. */
  lemma {:induction false} ExprFromPrefix(min: nat, ls: Lexemes, e: Expr, k: Lexemes)
    requires ParsePrefix(ls) == Done(e, k)
    ensures ParseExpr(min, ls) == ParseLoop(e, min, UNARY_LEVEL, k)
  {
  }

  lemma PrefixSigned(sp: bool, negative: bool, digits: string, k: Lexemes)
    ensures ParsePrefix(SignedTokens(sp, negative, digits, k)) == Done(ENum(negative, digits), k)
  {
    if negative {
      var rest := Tok(Num(digits), k);
      assert ParsePrefix(rest) == Done(ENum(false, digits), k);
      ExprFromPrefix(UNARY_LEVEL, rest, ENum(false, digits), k);
      AtMostMultiply(k);
      LoopStops(ENum(false, digits), UNARY_LEVEL, UNARY_LEVEL, k);
      assert ParseExpr(UNARY_LEVEL, rest) == Done(ENum(false, digits), k);
    }
  }

  lemma ListOfOne(ls: Lexemes, e: Expr, k: Lexemes)
    requires ParseExpr(0, ls) == Done(e, Tok(RParen, k))
    ensures ParseList(ls) == ListDone([e], k)
  {
  }

  lemma {:induction false} PrefixCall(sp: bool, name: string, ls: Lexemes, args: seq<Expr>, k: Lexemes)
    requires !IsReserved(name) && !IsAggregator(name)
    requires ParseList(ls) == ListDone(args, k)
    ensures ParsePrefix(Put(sp, Word(name), Tok(LParen, ls))) == Done(ECall(name, args), k)
  {
  }

  lemma PrefixTimestamp(sp: bool, n: int, k: Lexemes)
    ensures ParsePrefix(ValueTokens(sp, Timestamp(n), k)) == Done(ValueExpr(Timestamp(n)), k)
  {
    var close := Tok(RParen, k);
    var inner := IntTokens(false, n, close);
    PrefixSigned(false, n < 0, NatToString(if n < 0 then -n else n), close);
    ExprFromPrefix(0, inner, IntExpr(n), close);
    LoopStops(IntExpr(n), 0, UNARY_LEVEL, close);
    ListOfOne(inner, IntExpr(n), k);
    PrefixCall(sp, "to_timestamp", inner, [IntExpr(n)], k);
  }

  lemma PrefixInterval(sp: bool, d: Duration, k: Lexemes)
    ensures ParsePrefix(ValueTokens(sp, DurationValue(d), k)) == Done(ValueExpr(DurationValue(d)), k)
  {
    assert IsReserved("INTERVAL");
    assert ParseKeyword("INTERVAL", Spc(Str(DurationText(d)), k)) == Done(EInterval(DurationText(d)), k);
  }

  lemma {:induction false} PrefixValue(sp: bool, v: Value, k: Lexemes)
    ensures ParsePrefix(ValueTokens(sp, v, k)) == Done(ValueExpr(v), k)
  {
    match v
    case Timestamp(n) => PrefixTimestamp(sp, n, k);
    case Float(negative, micros) => PrefixSigned(sp, negative, FloatDigits(micros), k);
    case Integer(n) => PrefixSigned(sp, n < 0, NatToString(if n < 0 then -n else n), k);
    case DurationValue(d) => PrefixInterval(sp, d, k);
    case Null => assert IsReserved("NULL");
    case Boolean(b) => assert IsReserved("TRUE") && IsReserved("FALSE");
    case String(_) =>
  }

  lemma {:induction false} PrefixLeaf(sp: bool, cv: ColumnOrValue, k: Lexemes)
    requires ValidLeaf(cv)
    ensures ParsePrefix(LeafTokens(sp, cv, k)) == Done(LeafExpr(cv), k)
  {
    if cv.Literal? {
      PrefixValue(sp, cv.v, k);
    }
  }

  /** A value where an operand is expected, and then the rest of the loop. */
  lemma {:induction false} ExprValue(min: nat, sp: bool, v: Value, k: Lexemes)
    ensures ParseExpr(min, ValueTokens(sp, v, k)) == ParseLoop(ValueExpr(v), min, UNARY_LEVEL, k)
  {
    PrefixValue(sp, v, k);
    ExprFromPrefix(min, ValueTokens(sp, v, k), ValueExpr(v), k);
  }

  /** One infix operator in the loop. */
  lemma {:induction false} LoopBinary(
      left: Expr, sp: bool, symbol: string, min: nat, cap: nat, ls: Lexemes, right: Expr, k: Lexemes)
    requires min <= SymbolLevel(symbol) <= cap
    requires ParseExpr(SymbolLevel(symbol) + 1, ls) == Done(right, k)
    ensures ParseLoop(left, min, cap, Put(sp, Op(symbol), ls))
         == ParseLoop(EBinary(symbol, left, right), min, CapAfter(SymbolLevel(symbol), cap), k)
  {
    var all := Put(sp, Op(symbol), ls);
    assert InfixLevel(all) == SymbolLevel(symbol);
    assert ParseBinary(left, symbol, SymbolLevel(symbol), ls) == Done(EBinary(symbol, left, right), k);
    assert ParseInfix(left, SymbolLevel(symbol), all) == Done(EBinary(symbol, left, right), k);
  }

  lemma {:induction false} ValueAlone(level: nat, v: Value, rest: Lexemes)
    requires InfixLevel(rest) <= level
    ensures ParseExpr(level + 1, ValueTokens(true, v, rest)) == Done(ValueExpr(v), rest)
  {
    ExprValue(level + 1, true, v, rest);
    LoopStops(ValueExpr(v), level + 1, UNARY_LEVEL, rest);
  }

  lemma {:induction false} ValueStep(symbol: string, left: Expr, min: nat, v: Value, rest: Lexemes)
    requires min <= SymbolLevel(symbol) <= UNARY_LEVEL && InfixLevel(rest) <= SymbolLevel(symbol)
    requires CapAfter(SymbolLevel(symbol), UNARY_LEVEL) == UNARY_LEVEL
    ensures ParseLoop(left, min, UNARY_LEVEL, Spc(Op(symbol), ValueTokens(true, v, rest)))
         == ParseLoop(EBinary(symbol, left, ValueExpr(v)), min, UNARY_LEVEL, rest)
  {
    ValueAlone(SymbolLevel(symbol), v, rest);
    LoopBinary(left, true, symbol, min, UNARY_LEVEL, ValueTokens(true, v, rest), ValueExpr(v), rest);
  }

  lemma {:induction false} LoopPlus(left: Expr, min: nat, vs: seq<Value>, k: Lexemes)
    requires min <= ADD_LEVEL && InfixLevel(k) <= ADD_LEVEL
    ensures ParseLoop(left, min, UNARY_LEVEL, ValueTail(true, Op("+"), vs, k))
         == ParseLoop(Chain("+", left, ValueExprs(vs)), min, UNARY_LEVEL, k)
    decreases |vs|
  {
    if vs != [] {
      var rest := ValueTail(true, Op("+"), vs[1..], k);
      assert InfixLevel(rest) <= ADD_LEVEL;
      assert SymbolLevel("+") == ADD_LEVEL;
      ValueStep("+", left, min, vs[0], rest);
      LoopPlus(EBinary("+", left, ValueExpr(vs[0])), min, vs[1..], k);
      assert ValueExprs(vs)[1..] == ValueExprs(vs[1..]);
    }
  }

  /** A list of values and its closing parenthesis. */
  lemma {:induction false} ParseValues(sp: bool, v: Value, vs: seq<Value>, k: Lexemes)
    ensures ParseList(ValueTokens(sp, v, ValueTail(false, Comma, vs, Tok(RParen, k))))
         == ListDone([ValueExpr(v)] + ValueExprs(vs), k)
    decreases |vs|
  {
    var close := Tok(RParen, k);
    var rest := ValueTail(false, Comma, vs, close);
    ExprValue(0, sp, v, rest);
    assert InfixLevel(rest) == 0;
    LoopStops(ValueExpr(v), 0, UNARY_LEVEL, rest);
    if vs != [] {
      ParseValues(true, vs[0], vs[1..], k);
    }
  }

  /** Every reserved or aggregate word but four is in upper case. */
  lemma LowerCaseIsFree(w: string)
    requires w != "" && 'a' <= w[0] <= 'z'
    requires w != "cast" && w != "extract" && w != "as" && w != "from"
    ensures !IsReserved(w) && !IsAggregator(w)
  {
  }

  lemma FunctionsAreFree(f: Function)
    ensures !IsReserved(FunctionName(f)) && !IsAggregator(FunctionName(f))
  {
    LowerCaseIsFree(FunctionName(f));
  }

  lemma AggregatorsAreFree(a: Aggregator)
    ensures !IsReserved(AggregatorName(a)) && IsAggregator(AggregatorName(a))
    ensures AggregatorName(a) != "COUNT"
  {
  }

  // ------------------------------------------------------------------- operations

  /** Wherever an operation is printed without parentheses around it, what follows binds no
      tighter than addition; it then parses as a unit and the enclosing loop goes on. */
  lemma {:induction false} ParseOperation(min: nat, sp: bool, o: Operation, k: Lexemes)
    requires Valid(o) && min <= ADD_LEVEL && InfixLevel(k) <= ADD_LEVEL
    ensures ParseExpr(min, OperationTokens(sp, o, k))
         == ParseLoop(OperationExpr(o), min, UNARY_LEVEL, k)
    decreases o, 5
  {
    match o
    case Arith(_, _, _) => ParseArith(min, sp, o, k);
    case DatePlusDuration(date, durations) =>
      var vs := DurationValues(durations);
      var plus := ValueTail(true, Op("+"), vs, k);
      assert InfixLevel(plus) <= ADD_LEVEL;
      ParseOperation(min, sp, date, plus);
      LoopPlus(OperationExpr(date), min, vs, k);
    case DaysBetween(_, _) => ParseDays(min, sp, o, k);
    case _ =>
      PrefixOperation(sp, o, k);
      ExprFromPrefix(min, OperationTokens(sp, o, k), OperationExpr(o), k);
  }

  /** An operation between parentheses, or in front of another closing word. */
  lemma {:induction false} ParseClosed(sp: bool, o: Operation, k: Lexemes)
    requires Valid(o) && InfixLevel(k) == 0
    ensures ParseExpr(0, OperationTokens(sp, o, k)) == Done(OperationExpr(o), k)
    decreases o, 6
  {
    ParseOperation(0, sp, o, k);
    LoopStops(OperationExpr(o), 0, UNARY_LEVEL, k);
  }

  /** An operand in parentheses. */
  lemma {:induction false} PrefixGroup(sp: bool, inner: Lexemes, e: Expr, k: Lexemes)
    requires ParseExpr(0, inner) == Done(e, Tok(RParen, k))
    ensures ParsePrefix(Put(sp, LParen, inner)) == Done(EParen(e), k)
  {
    assert ParsePrefix(Put(sp, LParen, inner)) == InParens(ParseClose(ParseExpr(0, inner)));
  }

  lemma PrefixParens(sp: bool, o: Operation, k: Lexemes)
    requires ParseExpr(0, OperationTokens(false, o, Tok(RParen, k))) == Done(OperationExpr(o), Tok(RParen, k))
    ensures ParsePrefix(Put(sp, LParen, OperationTokens(false, o, Tok(RParen, k)))) == Done(EParen(OperationExpr(o)), k)
  {
    PrefixGroup(sp, OperationTokens(false, o, Tok(RParen, k)), OperationExpr(o), k);
  }

  lemma ArithLevel(arith: ArithOp)
    ensures ADD_LEVEL <= SymbolLevel(ArithSymbol(arith)) <= MULTIPLY_LEVEL
  {
  }

  lemma {:induction false} ParseArith(min: nat, sp: bool, o: Operation, k: Lexemes)
    requires o.Arith? && Valid(o) && min <= ADD_LEVEL && InfixLevel(k) <= ADD_LEVEL
    ensures ParseExpr(min, OperationTokens(sp, o, k))
         == ParseLoop(OperationExpr(o), min, UNARY_LEVEL, k)
    decreases o, 4
  {
    var w := ArithSymbol(o.arith);
    var second := Put(true, LParen, OperationTokens(false, o.op2, Tok(RParen, k)));
    var tail := Spc(Op(w), second);
    ArithLevel(o.arith);
    ParseClosed(false, o.op2, Tok(RParen, k));
    PrefixParens(true, o.op2, k);
    ParseClosed(false, o.op1, Tok(RParen, tail));
    PrefixParens(sp, o.op1, tail);
    ArithShape(sp, o, w, k);
    TwoUnits(w, min, OperationTokens(sp, o, k), EParen(OperationExpr(o.op1)), second, EParen(OperationExpr(o.op2)), k);
  }

  lemma {:induction false} ArithShape(sp: bool, o: Operation, w: string, k: Lexemes)
    requires o.Arith? && w == ArithSymbol(o.arith)
    ensures OperationTokens(sp, o, k) ==
      Put(sp, LParen, OperationTokens(false, o.op1,
          Tok(RParen, Spc(Op(w), Put(true, LParen, OperationTokens(false, o.op2, Tok(RParen, k)))))))
    ensures OperationExpr(o) == EBinary(w, EParen(OperationExpr(o.op1)), EParen(OperationExpr(o.op2)))
  {
  }

  lemma {:induction false} PrefixCast(sp: bool, o: Operation, t: Type, k: Lexemes)
    requires Valid(o)
    ensures ParsePrefix(CastTokens(sp, o, t, k)) == Done(ECast(OperationExpr(o), TypeExpr(t)), k)
    decreases o, 7
  {
    var typed := Spc(Word("as"), TypeTokens(t, Tok(RParen, k)));
    ParseClosed(false, o, typed);
    CastType(OperationExpr(o), t, k);
    CastOf(sp, OperationTokens(false, o, typed), ParseExpr(0, OperationTokens(false, o, typed)));
  }

  lemma {:induction false} CastOf(sp: bool, inner: Lexemes, p: Parsed)
    requires p == ParseExpr(0, inner)
    ensures ParsePrefix(Put(sp, Word("cast"), Tok(LParen, inner))) == ParseCast(p)
  {
    assert IsReserved("cast");
    assert ParseKeyword("cast", Tok(LParen, inner)) == ParseCast(p);
  }

  lemma CastType(e: Expr, t: Type, k: Lexemes)
    ensures ParseCast(Done(e, Spc(Word("as"), TypeTokens(t, Tok(RParen, k)))))
         == Done(ECast(e, TypeExpr(t)), k)
  {
  }

  lemma {:induction false} ParseDays(min: nat, sp: bool, o: Operation, k: Lexemes)
    requires o.DaysBetween? && Valid(o) && min <= ADD_LEVEL && InfixLevel(k) <= ADD_LEVEL
    ensures ParseExpr(min, OperationTokens(sp, o, k))
         == ParseLoop(OperationExpr(o), min, UNARY_LEVEL, k)
    decreases o, 4
  {
    var minus := "-";
    var right := CastTokens(true, o.from, Date, k);
    PrefixCast(true, o.from, Date, k);
    PrefixCast(sp, o.to, Date, Spc(Op(minus), right));
    DaysShape(sp, o, minus, k);
    assert SymbolLevel(minus) == ADD_LEVEL;
    TwoUnits(minus, min, OperationTokens(sp, o, k), ECast(OperationExpr(o.to), TypeExpr(Date)),
             right, ECast(OperationExpr(o.from), TypeExpr(Date)), k);
  }

  lemma {:induction false} DaysShape(sp: bool, o: Operation, minus: string, k: Lexemes)
    requires o.DaysBetween? && minus == "-"
    ensures OperationTokens(sp, o, k) == CastTokens(sp, o.to, Date, Spc(Op(minus), CastTokens(true, o.from, Date, k)))
    ensures OperationExpr(o)
         == EBinary(minus, ECast(OperationExpr(o.to), TypeExpr(Date)), ECast(OperationExpr(o.from), TypeExpr(Date)))
  {
    assert TypeExpr(Date) == Named("DATE");
  }

  /** Two units with an operator between them. */
  lemma {:induction false} TwoUnits(
      symbol: string, min: nat, ls: Lexemes, left: Expr, rest: Lexemes, right: Expr, k: Lexemes)
    requires min <= ADD_LEVEL <= SymbolLevel(symbol) <= MULTIPLY_LEVEL && InfixLevel(k) <= ADD_LEVEL
    requires ParsePrefix(ls) == Done(left, Spc(Op(symbol), rest)) && ParsePrefix(rest) == Done(right, k)
    ensures ParseExpr(min, ls) == ParseLoop(EBinary(symbol, left, right), min, UNARY_LEVEL, k)
  {
    var level := SymbolLevel(symbol);
    ExprFromPrefix(level + 1, rest, right, k);
    LoopStops(right, level + 1, UNARY_LEVEL, k);
    ExprFromPrefix(min, ls, left, Spc(Op(symbol), rest));
    LoopBinary(left, true, symbol, min, UNARY_LEVEL, rest, right, k);
  }

  /** The operations that open with a name or a parenthesis and close themselves. */
  lemma {:induction false} PrefixOperation(sp: bool, o: Operation, k: Lexemes)
    requires Valid(o) && !o.Arith? && !o.DatePlusDuration? && !o.DaysBetween?
    ensures ParsePrefix(OperationTokens(sp, o, k)) == Done(OperationExpr(o), k)
    decreases o, 4
  {
    match o
    case Aggregate(_, _) => PrefixAggregate(sp, o, k);
    case Count(counted, distinct) => PrefixCount(sp, counted, distinct, k);
    case Call(fn, ops) =>
      ParseOperands(false, ops, k);
      FunctionsAreFree(fn);
      PrefixCall(sp, FunctionName(fn), ListTokens(false, Comma, ops, Tok(RParen, k)), OperationExprs(ops), k);
    case Cast(operand, targetType) => PrefixCast(sp, operand, targetType, k);
    case Concat(parts) => PrefixConcat(sp, o, k);
    case Extract(_, _) => PrefixExtract(sp, o, k);
    case Log2(_) => PrefixLog2(sp, o, k);
    case Operand(leaf) => PrefixLeaf(sp, leaf, k);
  }

  lemma {:induction false} PrefixAggregate(sp: bool, o: Operation, k: Lexemes)
    requires o.Aggregate? && Valid(o)
    ensures ParsePrefix(OperationTokens(sp, o, k)) == Done(OperationExpr(o), k)
    decreases o, 3
  {
    var close := Tok(RParen, k);
    ParseClosed(false, o.val, close);
    var inner := OperationTokens(false, o.val, close);
    AggregatorsAreFree(o.agg);
    NotDistinct(o.val, close);
    assert ParseAggregate(AggregatorName(o.agg), inner) == Done(OperationExpr(o), k);
  }

  /** No operation begins with the word DISTINCT. */
  lemma {:induction false} NotDistinct(o: Operation, k: Lexemes)
    requires Valid(o)
    ensures !StartsWith(OperationTokens(false, o, k), Word("DISTINCT"))
    decreases o
  {
    match o
    case DatePlusDuration(date, durations) =>
      NotDistinct(date, ValueTail(true, Op("+"), DurationValues(durations), k));
    case Operand(leaf) =>
      if leaf.ColumnRef? && leaf.col.alias.Some? {
        assert IsReserved("DISTINCT");
      }
    case Aggregate(agg, _) => AggregatorsAreFree(agg); assert IsReserved("DISTINCT");
    case Call(fn, _) => FunctionsAreFree(fn); assert IsReserved("DISTINCT");
    case _ =>
  }

  lemma ParseCounted(c: Column, distinct: bool, k: Lexemes)
    requires Valid(Count(Some(c), distinct))
    ensures ParseClose(ParseExpr(0, ColumnTokens(distinct, c, Tok(RParen, k)))) == Done(ColumnExpr(c), k)
  {
    var close := Tok(RParen, k);
    PrefixLeaf(distinct, ColumnRef(c), close);
    ExprFromPrefix(0, ColumnTokens(distinct, c, close), ColumnExpr(c), close);
    LoopStops(ColumnExpr(c), 0, UNARY_LEVEL, close);
  }

  /** An aggregate from its argument list on. */
  lemma {:induction false} PrefixOfAggregate(sp: bool, name: string, ls: Lexemes, e: Expr, k: Lexemes)
    requires !IsReserved(name) && IsAggregator(name) && ParseAggregate(name, ls) == Done(e, k)
    ensures ParsePrefix(Put(sp, Word(name), Tok(LParen, ls))) == Done(e, k)
  {
  }

  lemma {:induction false} PrefixCountDistinct(sp: bool, c: Column, k: Lexemes)
    requires Valid(Count(Some(c), true))
    ensures ParsePrefix(OperationTokens(sp, Count(Some(c), true), k)) == Done(OperationExpr(Count(Some(c), true)), k)
  {
    var inner := Tok(Word("DISTINCT"), ColumnTokens(true, c, Tok(RParen, k)));
    CountIsFree();
    ParseCounted(c, true, k);
    assert ParseAggregate("COUNT", inner) == Done(EAggregate("COUNT", true, Some(ColumnExpr(c))), k);
    PrefixOfAggregate(sp, "COUNT", inner, EAggregate("COUNT", true, Some(ColumnExpr(c))), k);
  }

  lemma {:induction false} PrefixCountPlain(sp: bool, c: Column, k: Lexemes)
    requires Valid(Count(Some(c), false))
    ensures ParsePrefix(OperationTokens(sp, Count(Some(c), false), k)) == Done(OperationExpr(Count(Some(c), false)), k)
  {
    var inner := ColumnTokens(false, c, Tok(RParen, k));
    CountIsFree();
    ParseCounted(c, false, k);
    NotDistinct(Operand(ColumnRef(c)), Tok(RParen, k));
    assert ParseAggregate("COUNT", inner) == Done(EAggregate("COUNT", false, Some(ColumnExpr(c))), k);
    PrefixOfAggregate(sp, "COUNT", inner, EAggregate("COUNT", false, Some(ColumnExpr(c))), k);
  }

  lemma {:induction false} PrefixCountAll(sp: bool, distinct: bool, k: Lexemes)
    ensures ParsePrefix(OperationTokens(sp, Count(None, distinct), k)) == Done(OperationExpr(Count(None, distinct)), k)
  {
    var inner := Tok(Op("*"), Tok(RParen, k));
    CountIsFree();
    assert ParseAggregate("COUNT", inner) == Done(EAggregate("COUNT", false, None), k);
    PrefixOfAggregate(sp, "COUNT", inner, EAggregate("COUNT", false, None), k);
  }

  lemma CountIsFree()
    ensures !IsReserved("COUNT") && IsAggregator("COUNT")
  {
  }

  lemma PrefixCount(sp: bool, counted: Option<Column>, distinct: bool, k: Lexemes)
    requires Valid(Count(counted, distinct))
    ensures ParsePrefix(OperationTokens(sp, Count(counted, distinct), k))
         == Done(OperationExpr(Count(counted, distinct)), k)
  {
    match counted
    case None => PrefixCountAll(sp, distinct, k);
    case Some(c) =>
      if distinct {
        PrefixCountDistinct(sp, c, k);
      } else {
        PrefixCountPlain(sp, c, k);
      }
  }

  /** The operands of a call and its closing parenthesis. */
  lemma {:induction false} ParseOperands(sp: bool, ops: seq<Operation>, k: Lexemes)
    requires AllValid(ops) && ops != []
    ensures ParseList(OperationTokens(sp, ops[0], TailTokens(false, Comma, ops[1..], Tok(RParen, k))))
         == ListDone(OperationExprs(ops), k)
    decreases ops, 7
  {
    var tail := TailTokens(false, Comma, ops[1..], Tok(RParen, k));
    assert InfixLevel(tail) == 0;
    ParseClosed(sp, ops[0], tail);
    if |ops| > 1 {
      ParseOperands(true, ops[1..], k);
      assert ops[1..][1..] == ops[2..];
    } else {
      assert ops[1..] == [];
    }
  }

  /** Operands of a concatenation: || binds looser than everything printed inside it. */
  lemma {:induction false} LoopConcat(left: Expr, ops: seq<Operation>, k: Lexemes)
    requires AllValid(ops) && InfixLevel(k) == 0
    ensures ParseLoop(left, 0, UNARY_LEVEL, TailTokens(true, Op("||"), ops, k))
         == Done(Chain("||", left, OperationExprs(ops)), k)
    decreases ops, 7
  {
    if ops == [] {
      LoopStops(left, 0, UNARY_LEVEL, k);
    } else {
      var e := OperationExpr(ops[0]);
      OneConcat(left, ops, k);
      LoopConcat(EBinary("||", left, e), ops[1..], k);
      assert OperationExprs(ops)[1..] == OperationExprs(ops[1..]);
    }
  }

  lemma {:induction false} OneConcat(left: Expr, ops: seq<Operation>, k: Lexemes)
    requires AllValid(ops) && InfixLevel(k) == 0 && ops != []
    ensures ParseLoop(left, 0, UNARY_LEVEL, TailTokens(true, Op("||"), ops, k))
         == ParseLoop(EBinary("||", left, OperationExpr(ops[0])), 0, UNARY_LEVEL,
                      TailTokens(true, Op("||"), ops[1..], k))
    decreases ops, 6
  {
    var rest := TailTokens(true, Op("||"), ops[1..], k);
    var e := OperationExpr(ops[0]);
    assert SymbolLevel("||") == OTHER_LEVEL;
    assert InfixLevel(rest) <= OTHER_LEVEL;
    ParseOperation(OTHER_LEVEL + 1, true, ops[0], rest);
    LoopStops(e, OTHER_LEVEL + 1, UNARY_LEVEL, rest);
    LoopBinary(left, true, "||", 0, UNARY_LEVEL, OperationTokens(true, ops[0], rest), e, rest);
  }

  lemma {:induction false} PrefixConcat(sp: bool, o: Operation, k: Lexemes)
    requires o.Concat? && Valid(o)
    ensures ParsePrefix(OperationTokens(sp, o, k)) == Done(OperationExpr(o), k)
    decreases o, 3
  {
    var close := Tok(RParen, k);
    var first, rest := o.parts[0], o.parts[1..];
    var tail := TailTokens(true, Op("||"), rest, close);
    assert InfixLevel(tail) <= OTHER_LEVEL;
    ParseOperation(0, false, first, tail);
    LoopConcat(OperationExpr(first), rest, close);
    PrefixGroup(sp, OperationTokens(false, first, tail), Chain("||", OperationExpr(first), OperationExprs(rest)), k);
    ConcatShape(sp, o, k);
    ConcatExpr(o.parts);
  }

  lemma {:induction false} ConcatShape(sp: bool, o: Operation, k: Lexemes)
    requires o.Concat? && o.parts != []
    ensures OperationTokens(sp, o, k)
         == Put(sp, LParen,
             OperationTokens(false, o.parts[0], TailTokens(true, Op("||"), o.parts[1..], Tok(RParen, k))))
  {
  }

  lemma {:induction false} ConcatExpr(parts: seq<Operation>)
    requires parts != []
    ensures OperationExpr(Concat(parts)) == EParen(Chain("||", OperationExpr(parts[0]), OperationExprs(parts[1..])))
  {
  }

  lemma {:induction false} PrefixExtract(sp: bool, o: Operation, k: Lexemes)
    requires o.Extract? && Valid(o)
    ensures ParsePrefix(OperationTokens(sp, o, k)) == Done(OperationExpr(o), k)
    decreases o, 3
  {
    var close := Tok(RParen, k);
    ParseClosed(true, o.timestamp, close);
    FromOrFROM(o.part);
    ExtractFrom(sp, PartName(o.part), PartKeyword(o.part), OperationTokens(true, o.timestamp, close),
        OperationExpr(o.timestamp), k);
  }

  lemma FromOrFROM(part: DatePart)
    ensures PartKeyword(part) == "from" || PartKeyword(part) == "FROM"
  {
  }

  lemma {:induction false} ExtractFrom(sp: bool, part: string, from: string, inner: Lexemes, e: Expr, k: Lexemes)
    requires (from == "from" || from == "FROM") && ParseExpr(0, inner) == Done(e, Tok(RParen, k))
    ensures ParsePrefix(Put(sp, Word("extract"), Tok(LParen, Tok(Word(part), Spc(Word(from), inner)))))
         == Done(EExtract(part, e), k)
  {
    var body := Tok(Word(part), Spc(Word(from), inner));
    assert ParseExtract(body) == Done(EExtract(part, e), k);
    assert IsReserved("extract");
    assert ParseKeyword("extract", Tok(LParen, body)) == ParseExtract(body);
  }

  lemma {:induction false} PrefixLog2(sp: bool, o: Operation, k: Lexemes)
    requires o.Log2? && Valid(o)
    ensures ParsePrefix(OperationTokens(sp, o, k)) == Done(OperationExpr(o), k)
    decreases o, 3
  {
    var close := Tok(RParen, k);
    ParseClosed(true, o.arg, close);
    var inner := OperationTokens(true, o.arg, close);
    ListOfOne(inner, OperationExpr(o.arg), k);
    LowerCaseIsFree("log");
    var two := ENum(false, "2.0");
    var body := Tok(Num("2.0"), Tok(Comma, inner));
    assert ParsePrefix(body) == Done(two, Tok(Comma, inner));
    ExprFromPrefix(0, body, two, Tok(Comma, inner));
    LoopStops(two, 0, UNARY_LEVEL, Tok(Comma, inner));
    assert ParseList(body) == ListDone([two] + [OperationExpr(o.arg)], k);
    PrefixCall(sp, "log", body, [two, OperationExpr(o.arg)], k);
  }

  // ------------------------------------------------------------------- conditions

  /** What follows a condition: nothing, or the parenthesis around it. */
  predicate Closing(k: Lexemes) { k.End? || StartsWith(k, RParen) }

  lemma {:induction false} ParseCondition(sp: bool, c: Condition, k: Lexemes)
    requires ValidCondition(c) && Closing(k)
    ensures ParseExpr(0, ConditionTokens(sp, c, k)) == Done(ConditionExpr(c), k)
    decreases c, 1
  {
    match c
    case And(_, _) => ParseBoth(sp, c, k);
    case Or(_, _) => ParseBoth(sp, c, k);
    case Not(_) => ParseNot(sp, c, k);
    case BooleanColumnOrValue(cv) =>
      PrefixLeaf(sp, cv, k);
      ExprFromPrefix(0, LeafTokens(sp, cv, k), LeafExpr(cv), k);
      LoopStops(LeafExpr(cv), 0, UNARY_LEVEL, k);
    case Compare(_, _, _) => ParseCompare(sp, c, k);
    case In(_, _, _) => ParseMembership(sp, c, k);
    case IsNull(_, _) => ParseIsNull(sp, c, k);
    case Like(_, _, _) => ParsePattern(sp, c, k);
  }

  lemma {:induction false} ParseBoth(sp: bool, c: Condition, k: Lexemes)
    requires (c.And? || c.Or?) && ValidCondition(c) && Closing(k)
    ensures ParseExpr(0, ConditionTokens(sp, c, k)) == Done(ConditionExpr(c), k)
    decreases c, 0
  {
    var w := if c.And? then "AND" else "OR";
    var tail := Spc(Word(w), Spc(LParen, ConditionTokens(false, c.cond2, Tok(RParen, k))));
    var first := ConditionTokens(false, c.cond1, Tok(RParen, tail));
    ParseCondition(false, c.cond1, Tok(RParen, tail));
    ParseCondition(false, c.cond2, Tok(RParen, k));
    PrefixGroup(sp, first, ConditionExpr(c.cond1), tail);
    ExprFromPrefix(0, Put(sp, LParen, first), EParen(ConditionExpr(c.cond1)), tail);
    ParseSecond(EParen(ConditionExpr(c.cond1)), c, w, if c.And? then AND_LEVEL else OR_LEVEL, k);
    BothShape(sp, c, w, k);
    BothExpr(c, w);
  }

  lemma {:induction false} BothShape(sp: bool, c: Condition, w: string, k: Lexemes)
    requires (c.And? && w == "AND") || (c.Or? && w == "OR")
    ensures ConditionTokens(sp, c, k) ==
      Put(sp, LParen, ConditionTokens(false, c.cond1, Tok(RParen, Spc(Word(w),
        Spc(LParen, ConditionTokens(false, c.cond2, Tok(RParen, k)))))))
  {
  }

  lemma {:induction false} BothExpr(c: Condition, w: string)
    requires (c.And? && w == "AND") || (c.Or? && w == "OR")
    ensures ConditionExpr(c) == EBinary(w, EParen(ConditionExpr(c.cond1)), EParen(ConditionExpr(c.cond2)))
  {
  }

  /** The word and the condition behind it. */
  lemma {:induction false} ParseSecond(left: Expr, c: Condition, w: string, level: nat, k: Lexemes)
    requires (c.And? && w == "AND" && level == AND_LEVEL) || (c.Or? && w == "OR" && level == OR_LEVEL)
    requires Closing(k)
    requires ParseExpr(0, ConditionTokens(false, c.cond2, Tok(RParen, k)))
         == Done(ConditionExpr(c.cond2), Tok(RParen, k))
    ensures ParseLoop(left, 0, UNARY_LEVEL, Spc(Word(w), Spc(LParen, ConditionTokens(false, c.cond2, Tok(RParen, k)))))
         == Done(EBinary(w, left, EParen(ConditionExpr(c.cond2))), k)
  {
    var second := Spc(LParen, ConditionTokens(false, c.cond2, Tok(RParen, k)));
    var tail := Spc(Word(w), second);
    RightSide(level + 1, c.cond2, k);
    assert InfixLevel(tail) == level;
    assert ParseInfix(left, level, tail) == ParseBinary(left, w, level, second);
    assert ParseInfix(left, level, tail) == Done(EBinary(w, left, EParen(ConditionExpr(c.cond2))), k);
    LoopStops(EBinary(w, left, EParen(ConditionExpr(c.cond2))), 0, UNARY_LEVEL, k);
  }

  lemma {:induction false} RightSide(min: nat, c: Condition, k: Lexemes)
    requires Closing(k)
    requires ParseExpr(0, ConditionTokens(false, c, Tok(RParen, k))) == Done(ConditionExpr(c), Tok(RParen, k))
    ensures ParseExpr(min, Spc(LParen, ConditionTokens(false, c, Tok(RParen, k)))) == Done(EParen(ConditionExpr(c)), k)
  {
    var inner := ConditionTokens(false, c, Tok(RParen, k));
    PrefixGroup(true, inner, ConditionExpr(c), k);
    ExprFromPrefix(min, Spc(LParen, inner), EParen(ConditionExpr(c)), k);
    LoopStops(EParen(ConditionExpr(c)), min, UNARY_LEVEL, k);
  }

  lemma {:induction false} ParseNot(sp: bool, c: Condition, k: Lexemes)
    requires c.Not? && ValidCondition(c) && Closing(k)
    ensures ParseExpr(0, ConditionTokens(sp, c, k)) == Done(ConditionExpr(c), k)
    decreases c, 0
  {
    ParseCondition(false, c.cond, Tok(RParen, k));
    RightSide(NOT_LEVEL, c.cond, k);
    var rest := Spc(LParen, ConditionTokens(false, c.cond, Tok(RParen, k)));
    var all := ConditionTokens(sp, c, k);
    assert IsReserved("NOT");
    assert ParsePrefix(all) == ParseKeyword("NOT", rest);
    ExprFromPrefix(0, all, ConditionExpr(c), k);
    LoopStops(ConditionExpr(c), 0, UNARY_LEVEL, k);
  }

  lemma {:induction false} ParseCompare(sp: bool, c: Condition, k: Lexemes)
    requires c.Compare? && ValidCondition(c) && Closing(k)
    ensures ParseExpr(0, ConditionTokens(sp, c, k)) == Done(ConditionExpr(c), k)
  {
    var w, e2 := CompareSymbol(c.cmp), OperationExpr(c.op2);
    var second := OperationTokens(true, c.op2, k);
    CompareLevel(c.cmp);
    ParseOperation(COMPARE_LEVEL + 1, true, c.op2, k);
    LoopStops(e2, COMPARE_LEVEL + 1, UNARY_LEVEL, k);
    ParseOperation(0, sp, c.op1, Spc(Op(w), second));
    CompareEnds(OperationExpr(c.op1), w, second, e2, k);
  }

  lemma CompareLevel(cmp: CompareOp)
    ensures SymbolLevel(CompareSymbol(cmp)) == COMPARE_LEVEL
  {
    assert IsComparison(CompareSymbol(cmp));
  }

  lemma {:induction false} CompareEnds(left: Expr, w: string, ls: Lexemes, right: Expr, k: Lexemes)
    requires SymbolLevel(w) == COMPARE_LEVEL && InfixLevel(k) == 0 && ParseExpr(COMPARE_LEVEL + 1, ls) == Done(right, k)
    ensures ParseLoop(left, 0, UNARY_LEVEL, Spc(Op(w), ls)) == Done(EBinary(w, left, right), k)
  {
    LoopBinary(left, true, w, 0, UNARY_LEVEL, ls, right, k);
    LoopStops(EBinary(w, left, right), 0, CapAfter(COMPARE_LEVEL, UNARY_LEVEL), k);
  }

  /** A postfix test in the loop, with nothing behind it. */
  lemma LoopTest(left: Expr, ls: Lexemes, e: Expr, k: Lexemes)
    requires InfixLevel(ls) != 0 && Closing(k) && ParseInfix(left, InfixLevel(ls), ls) == Done(e, k)
    ensures ParseLoop(left, 0, UNARY_LEVEL, ls) == Done(e, k)
  {
    AtMostMultiply(ls);
    LoopStops(e, 0, CapAfter(InfixLevel(ls), UNARY_LEVEL), k);
  }

  /** The list of an IN. */
  lemma ParseInList(e: Expr, negated: bool, patterns: seq<Value>, k: Lexemes)
    ensures ParseIn(e, negated, Spc(LParen, PatternTokens(patterns, Tok(RParen, k))))
         == Done(EIn(e, ValueExprs(patterns), negated), k)
  {
    if patterns != [] {
      ParseValues(false, patterns[0], patterns[1..], k);
      assert ValueExprs(patterns) == [ValueExpr(patterns[0])] + ValueExprs(patterns[1..]);
    }
  }

  lemma ParseInTail(e: Expr, negated: bool, list: Lexemes)
    ensures var tail := NotTokens(negated, Spc(Word("IN"), Spc(LParen, list)));
            && tail.More? && InfixLevel(tail) == IN_LEVEL
            && ParseInfix(e, IN_LEVEL, tail) == ParseIn(e, negated, Spc(LParen, list))
  {
  }

  lemma ParseMembership(sp: bool, c: Condition, k: Lexemes)
    requires c.In? && ValidCondition(c) && Closing(k)
    ensures ParseExpr(0, ConditionTokens(sp, c, k)) == Done(ConditionExpr(c), k)
  {
    var e := OperationExpr(c.op);
    var list := PatternTokens(c.patterns, Tok(RParen, k));
    var tail := NotTokens(c.negated, Spc(Word("IN"), Spc(LParen, list)));
    ParseInTail(e, c.negated, list);
    ParseInList(e, c.negated, c.patterns, k);
    ParseOperation(0, sp, c.op, tail);
    LoopTest(e, tail, ConditionExpr(c), k);
  }

  lemma ParseIsNull(sp: bool, c: Condition, k: Lexemes)
    requires c.IsNull? && ValidCondition(c) && Closing(k)
    ensures ParseExpr(0, ConditionTokens(sp, c, k)) == Done(ConditionExpr(c), k)
  {
    var tail := Spc(Word("IS"), NotTokens(c.negated, Spc(Word("NULL"), k)));
    assert InfixLevel(tail) == IS_LEVEL;
    ParseOperation(0, sp, c.op, tail);
    LoopTest(OperationExpr(c.op), tail, ConditionExpr(c), k);
  }

  lemma ParsePattern(sp: bool, c: Condition, k: Lexemes)
    requires c.Like? && ValidCondition(c) && Closing(k)
    ensures ParseExpr(0, ConditionTokens(sp, c, k)) == Done(ConditionExpr(c), k)
  {
    var e, p := OperationExpr(c.op), ValueExpr(c.pattern);
    var last := ValueTokens(true, c.pattern, k);
    var tail := NotTokens(c.negated, Spc(Word("LIKE"), last));
    assert InfixLevel(tail) == IN_LEVEL;
    ParseOperation(0, sp, c.op, tail);
    ExprValue(IN_LEVEL + 1, true, c.pattern, k);
    LoopStops(p, IN_LEVEL + 1, UNARY_LEVEL, k);
    assert ParseInfix(e, IN_LEVEL, tail) == ParseLike(e, c.negated, last);
    LoopTest(e, tail, ConditionExpr(c), k);
  }

  // ------------------------------------------------------------------- the printed text parses

  lemma ValueHasNoList(v: Value)
    ensures NoEmptyList(ValueExpr(v))
  {
    if v.Timestamp? {
      assert [IntExpr(v.secondsSinceUnix)][1..] == [];
    }
  }

  lemma {:induction false} ValuesHaveNoList(vs: seq<Value>)
    ensures NoEmptyListIn(ValueExprs(vs))
  {
    if vs != [] {
      ValueHasNoList(vs[0]);
      ValuesHaveNoList(vs[1..]);
    }
  }

  lemma {:induction false} ChainHasNoList(symbol: string, left: Expr, es: seq<Expr>)
    requires NoEmptyList(left) && NoEmptyListIn(es)
    ensures NoEmptyList(Chain(symbol, left, es))
    decreases |es|
  {
    if es != [] {
      ChainHasNoList(symbol, EBinary(symbol, left, es[0]), es[1..]);
    }
  }

  /** Operations hold no IN lists. */
  lemma {:induction false} OperationHasNoList(o: Operation)
    ensures NoEmptyList(OperationExpr(o))
    decreases o, 1
  {
    match o
    case Aggregate(_, val) => OperationHasNoList(val);
    case Count(_, _) =>
    case Arith(_, op1, op2) =>
      OperationHasNoList(op1);
      OperationHasNoList(op2);
    case Call(_, ops) => OperationsHaveNoList(ops);
    case Cast(operand, _) => OperationHasNoList(operand);
    case Concat(parts) =>
      if parts != [] {
        OperationHasNoList(parts[0]);
        OperationsHaveNoList(parts[1..]);
        ChainHasNoList("||", OperationExpr(parts[0]), OperationExprs(parts[1..]));
      }
    case DatePlusDuration(date, durations) =>
      OperationHasNoList(date);
      ValuesHaveNoList(DurationValues(durations));
      ChainHasNoList("+", OperationExpr(date), ValueExprs(DurationValues(durations)));
    case DaysBetween(from, to) =>
      OperationHasNoList(from);
      OperationHasNoList(to);
    case Extract(_, timestamp) => OperationHasNoList(timestamp);
    case Log2(arg) =>
      OperationHasNoList(arg);
      assert NoEmptyListIn([OperationExpr(arg)]);
      assert [ENum(false, "2.0"), OperationExpr(arg)][1..] == [OperationExpr(arg)];
    case Operand(leaf) =>
      if leaf.Literal? {
        ValueHasNoList(leaf.v);
      }
  }

  lemma {:induction false} OperationsHaveNoList(ops: seq<Operation>)
    ensures NoEmptyListIn(OperationExprs(ops))
    decreases ops, 0
  {
    if ops != [] {
      OperationHasNoList(ops[0]);
      OperationsHaveNoList(ops[1..]);
    }
  }

  lemma {:induction false} ConditionLists(c: Condition)
    ensures NoEmptyList(ConditionExpr(c)) <==> NoEmptyIn(c)
    decreases c, 1
  {
    match c
    case And(_, _) => JunctionLists(c);
    case Or(_, _) => JunctionLists(c);
    case Not(c1) => ConditionLists(c1);
    case In(op, patterns, negated) => MembershipLists(op, patterns, negated);
    case _ => NoListElsewhere(c);
  }

  lemma {:induction false} JunctionLists(c: Condition)
    requires c.And? || c.Or?
    ensures NoEmptyList(ConditionExpr(c)) <==> NoEmptyIn(c)
    decreases c, 0
  {
    var w := if c.And? then "AND" else "OR";
    ConditionLists(c.cond1);
    ConditionLists(c.cond2);
    BothExpr(c, w);
    ListsInBoth(w, ConditionExpr(c.cond1), ConditionExpr(c.cond2));
  }

  lemma {:induction false} ListsInBoth(w: string, e1: Expr, e2: Expr)
    ensures NoEmptyList(EBinary(w, EParen(e1), EParen(e2))) <==> NoEmptyList(e1) && NoEmptyList(e2)
  {
  }

  lemma {:induction false} MembershipLists(op: Operation, patterns: seq<Value>, negated: bool)
    ensures NoEmptyList(ConditionExpr(In(op, patterns, negated))) <==> patterns != []
  {
    OperationHasNoList(op);
    ValuesHaveNoList(patterns);
  }

  lemma {:induction false} NoListElsewhere(c: Condition)
    requires c.BooleanColumnOrValue? || c.Compare? || c.IsNull? || c.Like?
    ensures NoEmptyList(ConditionExpr(c))
  {
    match c
    case BooleanColumnOrValue(cv) => OperationHasNoList(Operand(cv));
    case Compare(_, op1, op2) =>
      OperationHasNoList(op1);
      OperationHasNoList(op2);
    case IsNull(op, _) => OperationHasNoList(op);
    case Like(op, pattern, _) =>
      OperationHasNoList(op);
      ValueHasNoList(pattern);
  }

  /** The text of every condition, lists empty or not, is read back as this expression. */
  lemma {:induction false} ConditionIsRead(c: Condition)
    requires ValidCondition(c)
    ensures ReadText(ConditionToSql(c)) == Some(ConditionExpr(c))
  {
    LexPrintedCondition(c);
    ParseCondition(false, c, End);
  }

  lemma {:induction false} OperationParses(o: Operation)
    requires Valid(o)
    ensures ParseSql(OperationToSql(o)) == Some(OperationExpr(o))
  {
    LexPrintedOperation(o);
    ParseClosed(false, o, End);
    OperationHasNoList(o);
  }

  lemma {:induction false} ConditionParses(c: Condition)
    requires ValidCondition(c)
    ensures ParseSql(ConditionToSql(c)) == if NoEmptyIn(c) then Some(ConditionExpr(c)) else None
  {
    ConditionIsRead(c);
    ConditionLists(c);
  }
}
