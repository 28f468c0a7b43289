/** What the printer needs of a tree, and the two facts that let its text be read back.

    The tokens of a tree are good ones, and no two of them merge when they are written out (the
    Separated lemmas). Written out, they are the text the printer makes (the Render lemmas). So
    the text lexes to the tokens (LexPrintedOperation, LexPrintedCondition). The Shape lemmas
    regroup a text whose parts are given as variables, so that the solver does not look into
    the parts. */
module PrintedText {
  import opened Wrappers
  import opened Decimal
  import opened SqlTree
  import opened SqlLexer
  import opened PrintedTokens
  import SqlParser
  import Strings

  // ------------------------------------------------------------------- well-formed trees

  predicate IsWord(w: string) { GoodToken(Word(w)) }

  predicate ValidColumn(c: Column)
  {
    && (c.alias.Some? ==> IsWord(c.alias.value) && !SqlParser.IsReserved(c.alias.value))
    && '"' !in c.name
  }

  predicate ValidLeaf(cv: ColumnOrValue) { cv.ColumnRef? ==> ValidColumn(cv.col) }

  predicate ValidType(t: Type)
  {
    && (t.Dynamic? ==> IsWord(t.typeName))
    && (t.Enum? ==> IsWord(t.name))
  }

  /** Names are plain identifiers, and no operand list is empty: the builders of
      operations.hpp and Operation.hpp reject empty coalesce, concat and duration lists. */
  predicate Valid(o: Operation)
  {
    match o
    case Aggregate(_, val) => Valid(val)
    case Count(counted, _) => counted.Some? ==> ValidColumn(counted.value)
    case Arith(_, op1, op2) => Valid(op1) && Valid(op2)
    case Call(_, ops) => ops != [] && forall i :: 0 <= i < |ops| ==> Valid(ops[i])
    case Cast(operand, targetType) => Valid(operand) && ValidType(targetType)
    case Concat(parts) => parts != [] && forall i :: 0 <= i < |parts| ==> Valid(parts[i])
    case DatePlusDuration(date, durations) => Valid(date) && durations != []
    case DaysBetween(from, to) => Valid(from) && Valid(to)
    case Extract(_, timestamp) => Valid(timestamp)
    case Log2(arg) => Valid(arg)
    case Operand(leaf) => ValidLeaf(leaf)
  }

  predicate AllValid(ops: seq<Operation>) { forall i :: 0 <= i < |ops| ==> Valid(ops[i]) }

  predicate ValidCondition(c: Condition)
  {
    match c
    case And(c1, c2) => ValidCondition(c1) && ValidCondition(c2)
    case Or(c1, c2) => ValidCondition(c1) && ValidCondition(c2)
    case Not(c1) => ValidCondition(c1)
    case BooleanColumnOrValue(cv) => ValidLeaf(cv)
    case Compare(_, op1, op2) => Valid(op1) && Valid(op2)
    case In(op, _, _) => Valid(op)
    case IsNull(op, _) => Valid(op)
    case Like(op, _, _) => Valid(op)
  }

  // ------------------------------------------------------------------- no two tokens merge

  /** Whatever follows a tree starts with a space, a comma or a closing parenthesis. */
  predicate Loose(k: Lexemes)
  {
    k.More? ==> k.head.spaced || k.head.token == RParen || k.head.token == Comma
  }

  predicate Clean(k: Lexemes) { Separated(k) && Loose(k) }

  lemma DigitsAreGood(s: string)
    requires s != "" && AllDigits(s)
    ensures GoodToken(Num(s))
  {
  }

  lemma GoodFloat(micros: nat)
    ensures GoodToken(Num(FloatDigits(micros)))
  {
    var whole, frac := NatToString(micros / 1000000), NatToString(micros % 1000000);
    assert FloatDigits(micros) == whole + "." + Padded(frac, 6);
    assert FloatDigits(micros)[0] == whole[0];
  }

  lemma GoodFunctionName(f: Function)
    ensures IsWord(FunctionName(f))
  {
  }

  lemma GoodAggregatorName(a: Aggregator)
    ensures IsWord(AggregatorName(a))
  {
  }

  lemma GoodPartName(p: DatePart)
    ensures IsWord(PartName(p)) && IsWord(PartKeyword(p))
  {
  }

  lemma GoodSymbols(a: ArithOp, c: CompareOp)
    ensures GoodToken(Op(ArithSymbol(a))) && GoodToken(Op(CompareSymbol(c)))
  {
  }

  lemma {:induction false} SeparatedValue(sp: bool, v: Value, k: Lexemes)
    requires Clean(k)
    ensures Separated(ValueTokens(sp, v, k))
  {
    match v
    case Float(negative, micros) => SeparatedFloat(sp, negative, micros, k);
    case Timestamp(seconds) =>
      SeparatedInt(false, seconds, Tok(RParen, k));
      assert Separated(Tok(LParen, IntTokens(false, seconds, Tok(RParen, k))));
    case Integer(n) => SeparatedInt(sp, n, k);
    case DurationValue(d) => assert Separated(Spc(Str(DurationText(d)), k));
    case _ =>
  }

  lemma {:induction false} SeparatedFloat(sp: bool, negative: bool, micros: nat, k: Lexemes)
    requires Clean(k)
    ensures Separated(ValueTokens(sp, Float(negative, micros), k))
  {
    GoodFloat(micros);
  }

  lemma SeparatedInt(sp: bool, n: int, k: Lexemes)
    requires Clean(k)
    ensures Separated(IntTokens(sp, n, k))
  {
    DigitsAreGood(NatToString(if n < 0 then -n else n));
  }

  lemma {:induction false} SeparatedType(t: Type, k: Lexemes)
    requires Clean(k) && ValidType(t)
    ensures Clean(TypeTokens(t, k))
  {
    if t.VarChar? {
      SeparatedVarChar(t.length, k);
    } else if t.TimestampWithTZ? {
      SeparatedTimeZone(k);
    }
  }

  lemma SeparatedVarChar(length: nat, k: Lexemes)
    requires Clean(k)
    ensures Clean(TypeTokens(VarChar(length), k))
  {
    DigitsAreGood(NatToString(length));
    assert Separated(Tok(Num(NatToString(length)), Tok(RParen, k)));
  }

  lemma SeparatedTimeZone(k: Lexemes)
    requires Clean(k)
    ensures Clean(TypeTokens(TimestampWithTZ, k))
  {
    assert Separated(Spc(Word("TIME"), Spc(Word("ZONE"), k)));
  }

  lemma SeparatedLeaf(sp: bool, cv: ColumnOrValue, k: Lexemes)
    requires Clean(k) && ValidLeaf(cv)
    ensures Separated(LeafTokens(sp, cv, k))
  {
    if cv.Literal? {
      SeparatedValue(sp, cv.v, k);
    }
  }

  lemma {:induction false} SeparatedValueTail(spt: bool, t: Token, vs: seq<Value>, k: Lexemes)
    requires Clean(k) && GoodToken(t) && (spt || t == Comma)
    ensures Clean(ValueTail(spt, t, vs, k))
  {
    if vs != [] {
      SeparatedValueTail(spt, t, vs[1..], k);
      SeparatedValue(true, vs[0], ValueTail(spt, t, vs[1..], k));
    }
  }

  lemma SeparatedCount(sp: bool, counted: Option<Column>, distinct: bool, k: Lexemes)
    requires Clean(k) && Valid(Count(counted, distinct))
    ensures Separated(OperationTokens(sp, Count(counted, distinct), k))
  {
    var close := Tok(RParen, k);
    if counted.None? {
      assert Separated(Tok(Op("*"), close));
    } else {
      SeparatedLeaf(distinct, ColumnRef(counted.value), close);
      assert Separated(Tok(Word("DISTINCT"), ColumnTokens(true, counted.value, close)));
    }
  }

  lemma {:induction false} SeparatedCast(sp: bool, o: Operation, t: Type, k: Lexemes)
    requires Clean(k) && Valid(o) && ValidType(t)
    ensures Separated(CastTokens(sp, o, t, k))
    decreases o, 2
  {
    var close := Tok(RParen, k);
    SeparatedType(t, close);
    SeparatedOperation(false, o, Spc(Word("as"), TypeTokens(t, close)));
  }

  lemma {:induction false} SeparatedOperation(sp: bool, o: Operation, k: Lexemes)
    requires Clean(k) && Valid(o)
    ensures Separated(OperationTokens(sp, o, k))
    decreases o, 1
  {
    var close := Tok(RParen, k);
    match o
    case Aggregate(agg, val) =>
      GoodAggregatorName(agg);
      SeparatedOperation(false, val, close);
    case Count(counted, distinct) => SeparatedCount(sp, counted, distinct, k);
    case Arith(_, _, _) => SeparatedArith(sp, o, k);
    case Call(fn, ops) =>
      GoodFunctionName(fn);
      SeparatedList(false, Comma, ops, close);
    case Cast(operand, targetType) => SeparatedCast(sp, operand, targetType, k);
    case Concat(parts) => SeparatedList(true, Op("||"), parts, close);
    case DatePlusDuration(date, durations) =>
      SeparatedValueTail(true, Op("+"), DurationValues(durations), k);
      SeparatedOperation(sp, date, ValueTail(true, Op("+"), DurationValues(durations), k));
    case DaysBetween(_, _) => SeparatedDays(sp, o, k);
    case Extract(_, _) => SeparatedExtract(sp, o, k);
    case Log2(arg) =>
      SeparatedOperation(true, arg, close);
      assert Separated(Tok(Comma, OperationTokens(true, arg, close)));
    case Operand(leaf) => SeparatedLeaf(sp, leaf, k);
  }

  lemma {:induction false} SeparatedArith(sp: bool, o: Operation, k: Lexemes)
    requires o.Arith? && Clean(k) && Valid(o)
    ensures Separated(OperationTokens(sp, o, k))
    decreases o, 0
  {
    GoodSymbols(o.arith, Equal);
    var close := Tok(RParen, k);
    SeparatedOperation(false, o.op2, close);
    var right := Spc(LParen, OperationTokens(false, o.op2, close));
    assert Separated(right);
    SeparatedOperation(false, o.op1, Tok(RParen, Spc(Op(ArithSymbol(o.arith)), right)));
  }

  lemma {:induction false} SeparatedDays(sp: bool, o: Operation, k: Lexemes)
    requires o.DaysBetween? && Clean(k) && Valid(o)
    ensures Separated(OperationTokens(sp, o, k))
    decreases o, 0
  {
    SeparatedCast(true, o.from, Date, k);
    SeparatedCast(sp, o.to, Date, Spc(Op("-"), CastTokens(true, o.from, Date, k)));
  }

  lemma {:induction false} SeparatedExtract(sp: bool, o: Operation, k: Lexemes)
    requires o.Extract? && Clean(k) && Valid(o)
    ensures Separated(OperationTokens(sp, o, k))
    decreases o, 0
  {
    GoodPartName(o.part);
    var close := Tok(RParen, k);
    SeparatedOperation(true, o.timestamp, close);
    assert Separated(Spc(Word(PartKeyword(o.part)), OperationTokens(true, o.timestamp, close)));
  }

  lemma {:induction false} SeparatedList(spt: bool, t: Token, ops: seq<Operation>, k: Lexemes)
    requires Clean(k) && AllValid(ops) && GoodToken(t) && (spt || t == Comma)
    ensures Separated(ListTokens(spt, t, ops, k))
    decreases ops, 0
  {
    if ops != [] {
      SeparatedTail(spt, t, ops[1..], k);
      SeparatedOperation(false, ops[0], TailTokens(spt, t, ops[1..], k));
    }
  }

  lemma {:induction false} SeparatedTail(spt: bool, t: Token, ops: seq<Operation>, k: Lexemes)
    requires Clean(k) && AllValid(ops) && GoodToken(t) && (spt || t == Comma)
    ensures Clean(TailTokens(spt, t, ops, k))
    decreases ops, 0
  {
    if ops != [] {
      SeparatedTail(spt, t, ops[1..], k);
      SeparatedOperation(true, ops[0], TailTokens(spt, t, ops[1..], k));
    }
  }

  lemma {:induction false} SeparatedCondition(sp: bool, c: Condition, k: Lexemes)
    requires Clean(k) && ValidCondition(c)
    ensures Separated(ConditionTokens(sp, c, k))
    decreases c, 1
  {
    match c
    case And(_, _) => SeparatedBoth(sp, c, k);
    case Or(_, _) => SeparatedBoth(sp, c, k);
    case Not(c1) =>
      SeparatedCondition(false, c1, Tok(RParen, k));
      assert Separated(Spc(LParen, ConditionTokens(false, c1, Tok(RParen, k))));
    case BooleanColumnOrValue(cv) => SeparatedLeaf(sp, cv, k);
    case Compare(cmp, op1, op2) =>
      GoodSymbols(Plus, cmp);
      SeparatedOperation(true, op2, k);
      SeparatedOperation(sp, op1, Spc(Op(CompareSymbol(cmp)), OperationTokens(true, op2, k)));
    case In(_, _, _) => SeparatedIn(sp, c, k);
    case IsNull(op, negated) =>
      var tail := NotTokens(negated, Spc(Word("NULL"), k));
      assert Separated(tail);
      SeparatedOperation(sp, op, Spc(Word("IS"), tail));
    case Like(_, _, _) => SeparatedLike(sp, c, k);
  }

  lemma {:induction false} SeparatedBoth(sp: bool, c: Condition, k: Lexemes)
    requires (c.And? || c.Or?) && Clean(k) && ValidCondition(c)
    ensures Separated(ConditionTokens(sp, c, k))
    decreases c, 0
  {
    var w := if c.And? then "AND" else "OR";
    SeparatedCondition(false, c.cond2, Tok(RParen, k));
    var right := Spc(LParen, ConditionTokens(false, c.cond2, Tok(RParen, k)));
    assert Separated(right);
    SeparatedCondition(false, c.cond1, Tok(RParen, Spc(Word(w), right)));
  }

  lemma SeparatedIn(sp: bool, c: Condition, k: Lexemes)
    requires c.In? && Clean(k) && ValidCondition(c)
    ensures Separated(ConditionTokens(sp, c, k))
  {
    var close := Tok(RParen, k);
    var list := PatternTokens(c.patterns, close);
    if c.patterns != [] {
      SeparatedValueTail(false, Comma, c.patterns[1..], close);
      SeparatedValue(false, c.patterns[0], ValueTail(false, Comma, c.patterns[1..], close));
    }
    assert Separated(Spc(LParen, list));
    var tail := Spc(Word("IN"), Spc(LParen, list));
    assert Separated(tail);
    SeparatedOperation(sp, c.op, NotTokens(c.negated, tail));
  }

  lemma SeparatedLike(sp: bool, c: Condition, k: Lexemes)
    requires c.Like? && Clean(k) && ValidCondition(c)
    ensures Separated(ConditionTokens(sp, c, k))
  {
    SeparatedValue(true, c.pattern, k);
    var tail := Spc(Word("LIKE"), ValueTokens(true, c.pattern, k));
    assert Separated(tail);
    SeparatedOperation(sp, c.op, NotTokens(c.negated, tail));
  }

  // ------------------------------------------------------------------- the text

  function Pre(sp: bool): string { if sp then " " else "" }

  lemma RenderPut(sp: bool, t: Token, k: Lexemes)
    ensures Render(Put(sp, t, k)) == Pre(sp) + TokenText(t) + Render(k)
  {
  }

  lemma RenderSigned(sp: bool, negative: bool, digits: string, k: Lexemes)
    ensures Render(SignedTokens(sp, negative, digits, k))
         == Pre(sp) + ((if negative then "-" else "") + digits) + Render(k)
  {
    if negative {
      RenderPut(sp, Op("-"), Tok(Num(digits), k));
      RenderPut(false, Num(digits), k);
      Assoc4(Pre(sp), "-", "", digits, Render(k));
    } else {
      RenderPut(sp, Num(digits), k);
      assert "" + digits == digits;
    }
  }

  lemma Assoc4(a: string, b: string, c: string, d: string, k: string)
    ensures a + b + (c + d + k) == a + (b + (c + d)) + k
    ensures c == "" ==> a + b + (c + d + k) == a + (b + d) + k
  {
  }

  lemma RenderInt(sp: bool, n: int, k: Lexemes)
    ensures Render(IntTokens(sp, n, k)) == Pre(sp) + IntToString(n) + Render(k)
  {
    RenderSigned(sp, n < 0, NatToString(if n < 0 then -n else n), k);
    if n >= 0 {
      assert "" + NatToString(n) == NatToString(n);
    }
  }

  lemma {:induction false} RenderFloat(sp: bool, negative: bool, micros: nat, k: Lexemes)
    ensures Render(SignedTokens(sp, negative, FloatDigits(micros), k))
         == Pre(sp) + FloatToString(negative, micros) + Render(k)
  {
    RenderSigned(sp, negative, FloatDigits(micros), k);
    SignedFloat(negative, micros, if negative then "-" else "");
  }

  lemma {:induction false} SignedFloat(negative: bool, micros: nat, sign: string)
    requires sign == if negative then "-" else ""
    ensures FloatToString(negative, micros) == sign + FloatDigits(micros)
  {
    var whole, frac := NatToString(micros / 1000000), Padded(NatToString(micros % 1000000), 6);
    assert sign + ("" + whole + "." + frac) == sign + whole + "." + frac;
  }

  lemma RenderValue(sp: bool, v: Value, k: Lexemes)
    ensures Render(ValueTokens(sp, v, k)) == Pre(sp) + ValueToSql(v) + Render(k)
  {
    match v
    case String(s) => RenderPut(sp, Str(s), k);
    case DurationValue(d) => RenderDuration(sp, d, k);
    case Timestamp(seconds) => RenderTimestamp(sp, seconds, k);
    case Float(negative, micros) => RenderFloat(sp, negative, micros, k);
    case Integer(n) => RenderInt(sp, n, k);
    case _ =>
  }

  lemma RenderDuration(sp: bool, d: Duration, k: Lexemes)
    ensures Render(ValueTokens(sp, DurationValue(d), k))
         == Pre(sp) + ValueToSql(DurationValue(d)) + Render(k)
  {
    var body := Str(DurationText(d));
    RenderPut(sp, Word("INTERVAL"), Spc(body, k));
    RenderPut(true, body, k);
    PlainDuration(d);
    ShapeInterval(Pre(sp), DurationText(d), Render(k));
  }

  lemma RenderTimestamp(sp: bool, seconds: int, k: Lexemes)
    ensures Render(ValueTokens(sp, Timestamp(seconds), k))
         == Pre(sp) + ValueToSql(Timestamp(seconds)) + Render(k)
  {
    var close := Tok(RParen, k);
    RenderPut(false, RParen, k);
    RenderInt(false, seconds, close);
    var inner := IntTokens(false, seconds, close);
    RenderPut(false, LParen, inner);
    RenderPut(sp, Word("to_timestamp"), Tok(LParen, inner));
    ShapeCall(Pre(sp), "to_timestamp", IntToString(seconds), Render(k));
    assert "to_timestamp" + "(" == "to_timestamp(";
  }

  /** A duration holds no quote, so escaping leaves its text as it is. */
  lemma PlainDuration(d: Duration)
    ensures EscapeSingleQuote(DurationText(d)) == DurationText(d)
  {
    var t := DurationText(d);
    assert forall i :: 0 <= i < |IntToString(d.val)| ==> IntToString(d.val)[i] != '\'';
    assert forall i :: 0 <= i < |UnitName(d.unit)| ==> UnitName(d.unit)[i] != '\'';
    assert forall i :: 0 <= i < |t| ==> t[i] != '\'';
    forall j: nat ensures !Strings.OccursAt(t, "'", j) {
      if j + 1 <= |t| {
        assert t[j..j + 1][0] == t[j];
      }
    }
    assert Strings.Find(t, "'", 0) == -1;
  }

  lemma ShapeInterval(pre: string, body: string, k: string)
    ensures pre + "INTERVAL" + (" " + ("'" + body + "'") + k) == pre + ("INTERVAL '" + body + "'") + k
  {
    assert "INTERVAL '" == "INTERVAL" + " " + "'";
  }

  lemma ShapeCall(pre: string, name: string, args: string, k: string)
    ensures pre + name + ("" + "(" + ("" + args + ("" + ")" + k))) == pre + (name + "(" + args + ")") + k
  {
  }

  lemma RenderLeaf(sp: bool, cv: ColumnOrValue, k: Lexemes)
    ensures Render(LeafTokens(sp, cv, k)) == Pre(sp) + ColumnOrValueToSql(cv) + Render(k)
  {
    if cv.Literal? {
      RenderValue(sp, cv.v, k);
    } else {
      RenderColumn(sp, cv.col, k);
    }
  }

  lemma RenderColumn(sp: bool, c: Column, k: Lexemes)
    ensures Render(ColumnTokens(sp, c, k)) == Pre(sp) + ColumnToSql(c) + Render(k)
  {
    if c.alias.Some? {
      var id := QuotedId(c.name);
      RenderPut(false, id, k);
      RenderPut(false, Dot, Tok(id, k));
      RenderPut(sp, Word(c.alias.value), Tok(Dot, Tok(id, k)));
      ShapeColumn(Pre(sp), c.alias.value, WrapInQuotes(c.name), Render(k));
    }
  }

  lemma ShapeColumn(pre: string, alias: string, name: string, k: string)
    ensures pre + alias + ("" + "." + ("" + name + k)) == pre + (alias + "." + name) + k
  {
  }

  lemma RenderType(t: Type, k: Lexemes)
    ensures Render(TypeTokens(t, k)) == " " + TypeToSql(t) + Render(k)
  {
    if t.VarChar? {
      RenderVarChar(t.length, k);
    } else if t.TimestampWithTZ? {
      RenderWithTimeZone(k);
    } else {
      RenderPut(true, Word(TypeToSql(t)), k);
    }
  }

  lemma RenderVarChar(length: nat, k: Lexemes)
    ensures Render(TypeTokens(VarChar(length), k)) == " " + TypeToSql(VarChar(length)) + Render(k)
  {
    var close := Tok(RParen, k);
    var n := Num(NatToString(length));
    RenderPut(false, RParen, k);
    RenderPut(false, n, close);
    RenderPut(false, LParen, Tok(n, close));
    RenderPut(true, Word("VARCHAR"), Tok(LParen, Tok(n, close)));
    ShapeCall(" ", "VARCHAR", NatToString(length), Render(k));
  }

  lemma RenderWithTimeZone(k: Lexemes)
    ensures Render(TypeTokens(TimestampWithTZ, k)) == " " + TypeToSql(TimestampWithTZ) + Render(k)
  {
    var z := Spc(Word("ZONE"), k);
    RenderPut(true, Word("ZONE"), k);
    RenderPut(true, Word("TIME"), z);
    RenderPut(true, Word("WITH"), Spc(Word("TIME"), z));
    RenderPut(true, Word("TIMESTAMP"), Spc(Word("WITH"), Spc(Word("TIME"), z)));
    ShapeTimestamp(Render(k));
  }

  lemma ShapeTimestamp(k: string)
    ensures " " + "TIMESTAMP" + (" " + "WITH" + (" " + "TIME" + (" " + "ZONE" + k)))
         == " " + "TIMESTAMP WITH TIME ZONE" + k
  {
    assert "TIMESTAMP WITH TIME ZONE" == "TIMESTAMP" + " " + "WITH" + " " + "TIME" + " " + "ZONE";
  }

  // ------------------------------------------------------------------- lists

  /** Every string with the delimiter before it. */
  function TailText(d: string, ss: seq<string>): string
  {
    if ss == [] then "" else d + ss[0] + TailText(d, ss[1..])
  }

  lemma {:induction false} JoinedIsTail(d: string, ss: seq<string>)
    requires ss != []
    ensures Strings.Joined(d, ss) == ss[0] + TailText(d, ss[1..])
  {
    if |ss| == 1 {
      assert ss[0] + "" == ss[0];
    } else {
      JoinedIsTail(d, ss[1..]);
      assert ss[0] + d + (ss[1] + TailText(d, ss[1..][1..]))
          == ss[0] + (d + ss[1] + TailText(d, ss[1..][1..]));
    }
  }

  lemma TailIsJoined(d: string, ss: seq<string>)
    requires ss != []
    ensures TailText(d, ss) == d + Strings.Joined(d, ss)
  {
    JoinedIsTail(d, ss);
    assert d + ss[0] + TailText(d, ss[1..]) == d + (ss[0] + TailText(d, ss[1..]));
  }

  lemma ShapeTail(pre: string, t: string, item: string, tail: string, k: string)
    ensures pre + t + (" " + item + (tail + k)) == (pre + t + " ") + item + tail + k
  {
  }

  lemma ShapeFirst(first: string, tail: string, k: string)
    ensures "" + first + (tail + k) == first + tail + k
  {
  }

  lemma {:induction false} RenderValueTail(spt: bool, t: Token, vs: seq<Value>, k: Lexemes)
    ensures Render(ValueTail(spt, t, vs, k))
         == TailText(Pre(spt) + TokenText(t) + " ", ValuesToSql(vs)) + Render(k)
  {
    var d := Pre(spt) + TokenText(t) + " ";
    if vs != [] {
      var rest := ValueTail(spt, t, vs[1..], k);
      RenderValueTail(spt, t, vs[1..], k);
      RenderValue(true, vs[0], rest);
      RenderPut(spt, t, ValueTokens(true, vs[0], rest));
      assert ValuesToSql(vs)[1..] == ValuesToSql(vs[1..]);
      ShapeTail(Pre(spt), TokenText(t), ValueToSql(vs[0]), TailText(d, ValuesToSql(vs[1..])), Render(k));
    }
  }

  lemma RenderPatterns(vs: seq<Value>, k: Lexemes)
    ensures Render(PatternTokens(vs, k)) == Strings.Joined(", ", ValuesToSql(vs)) + Render(k)
  {
    if vs != [] {
      var rest := ValueTail(false, Comma, vs[1..], k);
      RenderValueTail(false, Comma, vs[1..], k);
      RenderValue(false, vs[0], rest);
      assert Pre(false) + TokenText(Comma) + " " == ", ";
      JoinedIsTail(", ", ValuesToSql(vs));
      assert ValuesToSql(vs)[1..] == ValuesToSql(vs[1..]);
      ShapeFirst(ValueToSql(vs[0]), TailText(", ", ValuesToSql(vs[1..])), Render(k));
    }
  }

  // ------------------------------------------------------------------- operations

  lemma ShapeCast(pre: string, s: string, t: string, k: string)
    ensures pre + "cast" + ("" + "(" + ("" + s + (" " + "as" + (" " + t + ("" + ")" + k)))))
         == pre + ("cast(" + s + " as " + t + ")") + k
  {
    assert "cast(" == "cast" + "(";
    assert " as " == " " + "as" + " ";
  }

  lemma {:induction false} RenderCast(sp: bool, o: Operation, t: Type, k: Lexemes)
    requires Valid(o)
    ensures Render(CastTokens(sp, o, t, k))
         == Pre(sp) + ("cast(" + OperationToSql(o) + " as " + TypeToSql(t) + ")") + Render(k)
    decreases o, 2
  {
    var close := Tok(RParen, k);
    RenderPut(false, RParen, k);
    RenderType(t, close);
    var typed := Spc(Word("as"), TypeTokens(t, close));
    RenderPut(true, Word("as"), TypeTokens(t, close));
    RenderOperation(false, o, typed);
    var inner := OperationTokens(false, o, typed);
    RenderPut(false, LParen, inner);
    RenderPut(sp, Word("cast"), Tok(LParen, inner));
    ShapeCast(Pre(sp), OperationToSql(o), TypeToSql(t), Render(k));
  }

  lemma {:induction false} RenderOperation(sp: bool, o: Operation, k: Lexemes)
    requires Valid(o)
    ensures Render(OperationTokens(sp, o, k)) == Pre(sp) + OperationToSql(o) + Render(k)
    decreases o, 1
  {
    match o
    case Aggregate(_, _) => RenderAggregate(sp, o, k);
    case Count(counted, distinct) => RenderCount(sp, counted, distinct, k);
    case Arith(_, _, _) => RenderArith(sp, o, k);
    case Call(_, _) => RenderCall(sp, o, k);
    case Cast(operand, targetType) => RenderCast(sp, operand, targetType, k);
    case Concat(_) => RenderConcat(sp, o, k);
    case DatePlusDuration(_, _) => RenderDatePlus(sp, o, k);
    case DaysBetween(_, _) => RenderDays(sp, o, k);
    case Extract(_, _) => RenderExtract(sp, o, k);
    case Log2(_) => RenderLog2(sp, o, k);
    case Operand(leaf) => RenderLeaf(sp, leaf, k);
  }

  lemma {:induction false} RenderAggregate(sp: bool, o: Operation, k: Lexemes)
    requires o.Aggregate? && Valid(o)
    ensures Render(OperationTokens(sp, o, k)) == Pre(sp) + OperationToSql(o) + Render(k)
    decreases o, 0
  {
    var close := Tok(RParen, k);
    RenderPut(false, RParen, k);
    RenderOperation(false, o.val, close);
    var inner := OperationTokens(false, o.val, close);
    RenderPut(false, LParen, inner);
    RenderPut(sp, Word(AggregatorName(o.agg)), Tok(LParen, inner));
    ShapeCall(Pre(sp), AggregatorName(o.agg), OperationToSql(o.val), Render(k));
  }

  lemma RenderCount(sp: bool, counted: Option<Column>, distinct: bool, k: Lexemes)
    ensures Render(OperationTokens(sp, Count(counted, distinct), k))
         == Pre(sp) + OperationToSql(Count(counted, distinct)) + Render(k)
  {
    if counted.None? {
      RenderCountAll(sp, distinct, k);
    } else {
      RenderCountColumn(sp, counted.value, distinct, k);
    }
  }

  lemma RenderCountAll(sp: bool, distinct: bool, k: Lexemes)
    ensures Render(OperationTokens(sp, Count(None, distinct), k))
         == Pre(sp) + OperationToSql(Count(None, distinct)) + Render(k)
  {
    var inner := Tok(Op("*"), Tok(RParen, k));
    RenderPut(false, RParen, k);
    RenderPut(false, Op("*"), Tok(RParen, k));
    assert "COUNT(" + "" + "*" + ")" == "COUNT" + "(" + "*" + ")";
    RenderPut(false, LParen, inner);
    RenderPut(sp, Word("COUNT"), Tok(LParen, inner));
    ShapeCall(Pre(sp), "COUNT", "*", Render(k));
  }

  /** What stands between COUNT's parentheses. */
  lemma RenderCounted(c: Column, distinct: bool, close: Lexemes)
    ensures Render(if distinct then Tok(Word("DISTINCT"), ColumnTokens(true, c, close))
                   else ColumnTokens(false, c, close))
         == "" + ((if distinct then "DISTINCT " else "") + ColumnToSql(c)) + Render(close)
  {
    if distinct {
      RenderColumn(true, c, close);
      RenderPut(false, Word("DISTINCT"), ColumnTokens(true, c, close));
      ShapeDistinct(ColumnToSql(c), Render(close));
    } else {
      RenderColumn(false, c, close);
      assert "" + ColumnToSql(c) == ColumnToSql(c);
    }
  }

  lemma RenderCountColumn(sp: bool, c: Column, distinct: bool, k: Lexemes)
    ensures Render(OperationTokens(sp, Count(Some(c), distinct), k))
         == Pre(sp) + OperationToSql(Count(Some(c), distinct)) + Render(k)
  {
    var close := Tok(RParen, k);
    var inner :=
      if distinct then Tok(Word("DISTINCT"), ColumnTokens(true, c, close)) else ColumnTokens(false, c, close);
    var args := (if distinct then "DISTINCT " else "") + ColumnToSql(c);
    RenderPut(false, RParen, k);
    RenderCounted(c, distinct, close);
    RenderPut(false, LParen, inner);
    RenderPut(sp, Word("COUNT"), Tok(LParen, inner));
    ShapeCount(Pre(sp), if distinct then "DISTINCT " else "", ColumnToSql(c), Render(k));
  }

  lemma ShapeCount(pre: string, distinct: string, c: string, k: string)
    ensures pre + "COUNT" + ("" + "(" + ("" + (distinct + c) + ("" + ")" + k)))
         == pre + ("COUNT(" + distinct + c + ")") + k
  {
    assert "COUNT(" == "COUNT" + "(";
  }

  lemma ShapeDistinct(c: string, k: string)
    ensures "" + "DISTINCT" + (" " + c + k) == "" + ("DISTINCT " + c) + k
    ensures "COUNT(" + "DISTINCT " + c + ")" == "COUNT" + "(" + ("DISTINCT " + c) + ")"
  {
    assert "DISTINCT " == "DISTINCT" + " ";
  }

  lemma ShapeInfix(pre: string, a: string, w: string, b: string, k: string)
    ensures pre + "(" + ("" + a + ("" + ")" + (" " + w + (" " + "(" + ("" + b + ("" + ")" + k))))))
         == pre + ("(" + a + ") " + w + " (" + b + ")") + k
  {
    assert ") " == ")" + " ";
    assert " (" == " " + "(";
    var inner := b + (")" + k);
    assert " (" + inner == " " + "(" + ("" + b + ("" + ")" + k));
    assert ") " + w + (" (" + inner) == "" + ")" + (" " + w + (" (" + inner));
  }

  lemma {:induction false} RenderArith(sp: bool, o: Operation, k: Lexemes)
    requires o.Arith? && Valid(o)
    ensures Render(OperationTokens(sp, o, k)) == Pre(sp) + OperationToSql(o) + Render(k)
    decreases o, 0
  {
    var w := ArithSymbol(o.arith);
    var close := Tok(RParen, k);
    RenderPut(false, RParen, k);
    RenderOperation(false, o.op2, close);
    var second := OperationTokens(false, o.op2, close);
    RenderPut(true, LParen, second);
    RenderPut(true, Op(w), Spc(LParen, second));
    var tail := Tok(RParen, Spc(Op(w), Spc(LParen, second)));
    RenderPut(false, RParen, tail.tail);
    RenderOperation(false, o.op1, tail);
    RenderPut(sp, LParen, OperationTokens(false, o.op1, tail));
    ShapeInfix(Pre(sp), OperationToSql(o.op1), w, OperationToSql(o.op2), Render(k));
  }

  lemma {:induction false} RenderTail(spt: bool, t: Token, ops: seq<Operation>, k: Lexemes)
    requires AllValid(ops)
    ensures Render(TailTokens(spt, t, ops, k))
         == TailText(Pre(spt) + TokenText(t) + " ", OperationsToSql(ops)) + Render(k)
    decreases ops, 0
  {
    var d := Pre(spt) + TokenText(t) + " ";
    if ops != [] {
      var rest := TailTokens(spt, t, ops[1..], k);
      RenderTail(spt, t, ops[1..], k);
      RenderOperation(true, ops[0], rest);
      RenderPut(spt, t, OperationTokens(true, ops[0], rest));
      assert OperationsToSql(ops)[1..] == OperationsToSql(ops[1..]);
      ShapeTail(Pre(spt), TokenText(t), OperationToSql(ops[0]),
                TailText(d, OperationsToSql(ops[1..])), Render(k));
    }
  }

  lemma {:induction false} RenderList(spt: bool, t: Token, d: string, ops: seq<Operation>, k: Lexemes)
    requires AllValid(ops) && d == Pre(spt) + TokenText(t) + " "
    ensures Render(ListTokens(spt, t, ops, k)) == Strings.Joined(d, OperationsToSql(ops)) + Render(k)
    decreases ops, 1
  {
    if ops != [] {
      var rest := TailTokens(spt, t, ops[1..], k);
      RenderTail(spt, t, ops[1..], k);
      RenderOperation(false, ops[0], rest);
      JoinedIsTail(d, OperationsToSql(ops));
      assert OperationsToSql(ops)[1..] == OperationsToSql(ops[1..]);
      ShapeFirst(OperationToSql(ops[0]), TailText(d, OperationsToSql(ops[1..])), Render(k));
    }
  }

  lemma ShapeArgs(pre: string, name: string, args: string, k: string)
    ensures pre + name + ("" + "(" + (args + ("" + ")" + k))) == pre + (name + "(" + args + ")") + k
  {
  }

  lemma ShapeParens(pre: string, args: string, k: string)
    ensures pre + "(" + (args + ("" + ")" + k)) == pre + ("(" + args + ")") + k
  {
  }

  lemma ShapeDatePlus(pre: string, date: string, joined: string, k: string)
    ensures pre + date + (" + " + joined + k) == pre + (date + " + " + joined) + k
  {
  }

  lemma {:induction false} RenderCall(sp: bool, o: Operation, k: Lexemes)
    requires o.Call? && Valid(o)
    ensures Render(OperationTokens(sp, o, k)) == Pre(sp) + OperationToSql(o) + Render(k)
    decreases o, 0
  {
    var close := Tok(RParen, k);
    RenderPut(false, RParen, k);
    assert Pre(false) + TokenText(Comma) + " " == ", ";
    RenderList(false, Comma, ", ", o.ops, close);
    var inner := ListTokens(false, Comma, o.ops, close);
    RenderPut(false, LParen, inner);
    RenderPut(sp, Word(FunctionName(o.fn)), Tok(LParen, inner));
    var args := Strings.Joined(", ", OperationsToSql(o.ops));
    ShapeArgs(Pre(sp), FunctionName(o.fn), args, Render(k));
  }

  lemma {:induction false} RenderConcat(sp: bool, o: Operation, k: Lexemes)
    requires o.Concat? && Valid(o)
    ensures Render(OperationTokens(sp, o, k)) == Pre(sp) + OperationToSql(o) + Render(k)
    decreases o, 0
  {
    var close := Tok(RParen, k);
    RenderPut(false, RParen, k);
    assert Pre(true) + TokenText(Op("||")) + " " == " || ";
    RenderList(true, Op("||"), " || ", o.parts, close);
    RenderPut(sp, LParen, ListTokens(true, Op("||"), o.parts, close));
    var args := Strings.Joined(" || ", OperationsToSql(o.parts));
    ShapeParens(Pre(sp), args, Render(k));
  }

  lemma {:induction false} RenderDatePlus(sp: bool, o: Operation, k: Lexemes)
    requires o.DatePlusDuration? && Valid(o)
    ensures Render(OperationTokens(sp, o, k)) == Pre(sp) + OperationToSql(o) + Render(k)
    decreases o, 0
  {
    var vs := DurationValues(o.durations);
    var plus := ValueTail(true, Op("+"), vs, k);
    RenderValueTail(true, Op("+"), vs, k);
    RenderOperation(sp, o.date, plus);
    assert Pre(true) + TokenText(Op("+")) + " " == " + ";
    TailIsJoined(" + ", ValuesToSql(vs));
    ShapeDatePlus(Pre(sp), OperationToSql(o.date), Strings.Joined(" + ", ValuesToSql(vs)), Render(k));
  }

  lemma {:induction false} RenderDays(sp: bool, o: Operation, k: Lexemes)
    requires o.DaysBetween? && Valid(o)
    ensures Render(OperationTokens(sp, o, k)) == Pre(sp) + OperationToSql(o) + Render(k)
    decreases o, 0
  {
    RenderCast(true, o.from, Date, k);
    var right := CastTokens(true, o.from, Date, k);
    RenderPut(true, Op("-"), right);
    RenderCast(sp, o.to, Date, Spc(Op("-"), right));
    ShapeDays(Pre(sp), OperationToSql(o.to), OperationToSql(o.from), Render(k));
  }

  lemma ShapeDays(pre: string, a: string, b: string, k: string)
    ensures pre + ("cast(" + a + " as " + "DATE" + ")")
              + (" " + "-" + (" " + ("cast(" + b + " as " + "DATE" + ")") + k))
         == pre + ("cast(" + a + " as DATE) - cast(" + b + " as DATE)") + k
  {
    assert " as DATE)" == " as " + "DATE" + ")";
    assert " as DATE) - cast(" == " as " + "DATE" + ")" + " " + "-" + " " + "cast(";
    var ca, cb := "cast(" + a + " as " + "DATE" + ")", "cast(" + b + " as " + "DATE" + ")";
    assert "cast(" + a + " as DATE) - cast(" == ca + " " + "-" + " " + "cast(";
    assert ca + " " + "-" + " " + "cast(" + b + " as DATE)" == ca + " " + "-" + " " + cb;
    assert pre + ca + (" " + "-" + (" " + cb + k)) == pre + (ca + " " + "-" + " " + cb) + k;
  }

  lemma {:induction false} RenderExtracted(o: Operation, k: Lexemes)
    requires o.Extract? && Valid(o)
    ensures Render(Spc(Word(PartKeyword(o.part)), OperationTokens(true, o.timestamp, Tok(RParen, k))))
         == " " + PartKeyword(o.part) + (" " + OperationToSql(o.timestamp) + ("" + ")" + Render(k)))
    decreases o, 0, 0
  {
    RenderPut(false, RParen, k);
    RenderOperation(true, o.timestamp, Tok(RParen, k));
    RenderPut(true, Word(PartKeyword(o.part)), OperationTokens(true, o.timestamp, Tok(RParen, k)));
  }

  lemma {:induction false} RenderExtract(sp: bool, o: Operation, k: Lexemes)
    requires o.Extract? && Valid(o)
    ensures Render(OperationTokens(sp, o, k)) == Pre(sp) + OperationToSql(o) + Render(k)
    decreases o, 0, 1
  {
    var rest := Spc(Word(PartKeyword(o.part)), OperationTokens(true, o.timestamp, Tok(RParen, k)));
    var body := Tok(Word(PartName(o.part)), rest);
    RenderExtracted(o, k);
    RenderPut(false, Word(PartName(o.part)), rest);
    RenderPut(false, LParen, body);
    RenderPut(sp, Word("extract"), Tok(LParen, body));
    ShapeExtract(Pre(sp), PartName(o.part), PartKeyword(o.part), OperationToSql(o.timestamp), Render(k));
  }

  lemma ShapeExtract(pre: string, p: string, w: string, a: string, k: string)
    ensures pre + "extract" + ("" + "(" + ("" + p + (" " + w + (" " + a + ("" + ")" + k)))))
         == pre + ("extract(" + p + " " + w + " " + a + ")") + k
  {
    assert "extract(" == "extract" + "(";
  }

  lemma {:induction false} RenderLogArgument(o: Operation, k: Lexemes)
    requires o.Log2? && Valid(o)
    ensures Render(Tok(Comma, OperationTokens(true, o.arg, Tok(RParen, k))))
         == "" + "," + (" " + OperationToSql(o.arg) + ("" + ")" + Render(k)))
    decreases o, 0, 0
  {
    RenderPut(false, RParen, k);
    RenderOperation(true, o.arg, Tok(RParen, k));
    RenderPut(false, Comma, OperationTokens(true, o.arg, Tok(RParen, k)));
  }

  lemma {:induction false} RenderLog2(sp: bool, o: Operation, k: Lexemes)
    requires o.Log2? && Valid(o)
    ensures Render(OperationTokens(sp, o, k)) == Pre(sp) + OperationToSql(o) + Render(k)
    decreases o, 0, 1
  {
    var rest := Tok(Comma, OperationTokens(true, o.arg, Tok(RParen, k)));
    RenderLogArgument(o, k);
    RenderPut(false, Num("2.0"), rest);
    RenderPut(false, LParen, Tok(Num("2.0"), rest));
    RenderPut(sp, Word("log"), Tok(LParen, Tok(Num("2.0"), rest)));
    ShapeLog(Pre(sp), OperationToSql(o.arg), Render(k));
  }

  lemma ShapeLog(pre: string, a: string, k: string)
    ensures pre + "log" + ("" + "(" + ("" + "2.0" + ("" + "," + (" " + a + ("" + ")" + k)))))
         == pre + ("log(2.0, " + a + ")") + k
  {
    assert "log(2.0, " == "log" + "(" + "2.0" + "," + " ";
  }

  // ------------------------------------------------------------------- conditions

  lemma {:induction false} RenderCondition(sp: bool, c: Condition, k: Lexemes)
    requires ValidCondition(c)
    ensures Render(ConditionTokens(sp, c, k)) == Pre(sp) + ConditionToSql(c) + Render(k)
    decreases c, 1
  {
    match c
    case And(_, _) => RenderBoth(sp, c, k);
    case Or(_, _) => RenderBoth(sp, c, k);
    case Not(_) => RenderNot(sp, c, k);
    case BooleanColumnOrValue(cv) => RenderLeaf(sp, cv, k);
    case Compare(_, _, _) => RenderCompare(sp, c, k);
    case In(_, _, _) => RenderIn(sp, c, k);
    case IsNull(_, _) => RenderIsNull(sp, c, k);
    case Like(_, _, _) => RenderLike(sp, c, k);
  }

  /** A condition in parentheses. */
  lemma {:induction false} RenderParens(sp: bool, c: Condition, k: Lexemes)
    requires ValidCondition(c)
    ensures Render(Put(sp, LParen, ConditionTokens(false, c, Tok(RParen, k))))
         == Pre(sp) + "(" + ("" + ConditionToSql(c) + ("" + ")" + Render(k)))
    decreases c, 2
  {
    RenderPut(false, RParen, k);
    RenderCondition(false, c, Tok(RParen, k));
    RenderPut(sp, LParen, ConditionTokens(false, c, Tok(RParen, k)));
  }

  lemma {:induction false} RenderBoth(sp: bool, c: Condition, k: Lexemes)
    requires (c.And? || c.Or?) && ValidCondition(c)
    ensures Render(ConditionTokens(sp, c, k)) == Pre(sp) + ConditionToSql(c) + Render(k)
    decreases c, 0
  {
    var w := if c.And? then "AND" else "OR";
    var right := Put(true, LParen, ConditionTokens(false, c.cond2, Tok(RParen, k)));
    RenderParens(true, c.cond2, k);
    RenderPut(true, Word(w), right);
    RenderParens(sp, c.cond1, Spc(Word(w), right));
    ShapeInfix(Pre(sp), ConditionToSql(c.cond1), w, ConditionToSql(c.cond2), Render(k));
    ShapeWord(ConditionToSql(c.cond1), ConditionToSql(c.cond2));
  }

  lemma ShapeWord(a: string, b: string)
    ensures "(" + a + ") AND (" + b + ")" == "(" + a + ") " + "AND" + " (" + b + ")"
    ensures "(" + a + ") OR (" + b + ")" == "(" + a + ") " + "OR" + " (" + b + ")"
  {
    assert ") AND (" == ") " + "AND" + " (";
    assert ") OR (" == ") " + "OR" + " (";
  }

  lemma {:induction false} RenderNot(sp: bool, c: Condition, k: Lexemes)
    requires c.Not? && ValidCondition(c)
    ensures Render(ConditionTokens(sp, c, k)) == Pre(sp) + ConditionToSql(c) + Render(k)
    decreases c, 0
  {
    var close := Tok(RParen, k);
    RenderPut(false, RParen, k);
    RenderCondition(false, c.cond, close);
    var inner := ConditionTokens(false, c.cond, close);
    RenderPut(true, LParen, inner);
    RenderPut(sp, Word("NOT"), Spc(LParen, inner));
    ShapeNot(Pre(sp), ConditionToSql(c.cond), Render(k));
  }

  lemma ShapeNot(pre: string, a: string, k: string)
    ensures pre + "NOT" + (" " + "(" + ("" + a + ("" + ")" + k))) == pre + ("NOT (" + a + ")") + k
  {
    assert "NOT (" == "NOT" + " " + "(";
  }

  lemma RenderCompare(sp: bool, c: Condition, k: Lexemes)
    requires c.Compare? && ValidCondition(c)
    ensures Render(ConditionTokens(sp, c, k)) == Pre(sp) + ConditionToSql(c) + Render(k)
  {
    var second := OperationTokens(true, c.op2, k);
    RenderOperation(true, c.op2, k);
    RenderPut(true, Op(CompareSymbol(c.cmp)), second);
    RenderOperation(sp, c.op1, Spc(Op(CompareSymbol(c.cmp)), second));
    ShapeCompare(Pre(sp), OperationToSql(c.op1), CompareSymbol(c.cmp), OperationToSql(c.op2), Render(k));
  }

  lemma ShapeCompare(pre: string, a: string, w: string, b: string, k: string)
    ensures pre + a + (" " + w + (" " + b + k)) == pre + (a + " " + w + " " + b) + k
  {
  }

  function NotText(negated: bool): string { if negated then " NOT" else "" }

  lemma RenderNotTokens(negated: bool, k: Lexemes)
    ensures Render(NotTokens(negated, k)) == NotText(negated) + Render(k)
  {
    if negated {
      RenderPut(true, Word("NOT"), k);
      assert " NOT" == " " + "NOT";
    } else {
      assert "" + Render(k) == Render(k);
    }
  }

  lemma RenderInList(negated: bool, patterns: seq<Value>, k: Lexemes)
    ensures Render(NotTokens(negated, Spc(Word("IN"), Spc(LParen, PatternTokens(patterns, Tok(RParen, k))))))
         == NotText(negated)
             + (" " + "IN" + (" " + "(" + (Strings.Joined(", ", ValuesToSql(patterns)) + ("" + ")" + Render(k)))))
  {
    var list := PatternTokens(patterns, Tok(RParen, k));
    RenderPut(false, RParen, k);
    RenderPatterns(patterns, Tok(RParen, k));
    RenderPut(true, LParen, list);
    RenderPut(true, Word("IN"), Spc(LParen, list));
    RenderNotTokens(negated, Spc(Word("IN"), Spc(LParen, list)));
  }

  lemma RenderIn(sp: bool, c: Condition, k: Lexemes)
    requires c.In? && ValidCondition(c)
    ensures Render(ConditionTokens(sp, c, k)) == Pre(sp) + ConditionToSql(c) + Render(k)
  {
    RenderInList(c.negated, c.patterns, k);
    RenderOperation(sp, c.op,
        NotTokens(c.negated, Spc(Word("IN"), Spc(LParen, PatternTokens(c.patterns, Tok(RParen, k))))));
    ShapeIn(Pre(sp), OperationToSql(c.op), c.negated, Strings.Joined(", ", ValuesToSql(c.patterns)), Render(k));
  }

  lemma ShapeIn(pre: string, a: string, negated: bool, list: string, k: string)
    ensures pre + a + (NotText(negated) + (" " + "IN" + (" " + "(" + (list + ("" + ")" + k)))))
         == pre + (a + (if negated then " NOT IN (" else " IN (") + list + ")") + k
  {
    assert " NOT IN (" == " NOT" + " " + "IN" + " " + "(";
    assert " IN (" == "" + " " + "IN" + " " + "(";
    var n := NotText(negated);
    assert (if negated then " NOT IN (" else " IN (") == n + " " + "IN" + " " + "(";
    assert n + (" " + "IN" + (" " + "(" + (list + ("" + ")" + k))))
        == (n + " " + "IN" + " " + "(") + (list + (")" + k));
  }

  lemma RenderIsNull(sp: bool, c: Condition, k: Lexemes)
    requires c.IsNull? && ValidCondition(c)
    ensures Render(ConditionTokens(sp, c, k)) == Pre(sp) + ConditionToSql(c) + Render(k)
  {
    var last := Spc(Word("NULL"), k);
    RenderPut(true, Word("NULL"), k);
    RenderNotTokens(c.negated, last);
    RenderPut(true, Word("IS"), NotTokens(c.negated, last));
    RenderOperation(sp, c.op, Spc(Word("IS"), NotTokens(c.negated, last)));
    ShapeIsNull(Pre(sp), OperationToSql(c.op), c.negated, Render(k));
  }

  lemma ShapeIsNull(pre: string, a: string, negated: bool, k: string)
    ensures pre + a + (" " + "IS" + (NotText(negated) + (" " + "NULL" + k)))
         == pre + (a + (if negated then " IS NOT NULL" else " IS NULL")) + k
  {
    assert " IS NOT NULL" == " " + "IS" + " NOT" + " " + "NULL";
    assert " IS NULL" == " " + "IS" + "" + " " + "NULL";
    var n := NotText(negated);
    assert (if negated then " IS NOT NULL" else " IS NULL") == " " + "IS" + n + " " + "NULL";
    assert " " + "IS" + (n + (" " + "NULL" + k)) == (" " + "IS" + n + " " + "NULL") + k;
  }

  lemma RenderLike(sp: bool, c: Condition, k: Lexemes)
    requires c.Like? && ValidCondition(c)
    ensures Render(ConditionTokens(sp, c, k)) == Pre(sp) + ConditionToSql(c) + Render(k)
  {
    var last := ValueTokens(true, c.pattern, k);
    RenderValue(true, c.pattern, k);
    RenderPut(true, Word("LIKE"), last);
    RenderNotTokens(c.negated, Spc(Word("LIKE"), last));
    RenderOperation(sp, c.op, NotTokens(c.negated, Spc(Word("LIKE"), last)));
    ShapeLike(Pre(sp), OperationToSql(c.op), c.negated, ValueToSql(c.pattern), Render(k));
  }

  lemma ShapeLike(pre: string, a: string, negated: bool, v: string, k: string)
    ensures pre + a + (NotText(negated) + (" " + "LIKE" + (" " + v + k)))
         == pre + (a + (if negated then " NOT LIKE " else " LIKE ") + v) + k
  {
    assert " NOT LIKE " == " NOT" + " " + "LIKE" + " ";
    assert " LIKE " == "" + " " + "LIKE" + " ";
    var n := NotText(negated);
    assert (if negated then " NOT LIKE " else " LIKE ") == n + " " + "LIKE" + " ";
    assert n + (" " + "LIKE" + (" " + v + k)) == (n + " " + "LIKE" + " ") + (v + k);
  }

  // ------------------------------------------------------------------- lexing the printed text

  /** The printed text of a condition lexes to exactly its tokens. */
  lemma LexPrintedCondition(c: Condition)
    requires ValidCondition(c)
    ensures Lex(ConditionToSql(c)) == ConditionTokens(false, c, End)
  {
    SeparatedCondition(false, c, End);
    RenderCondition(false, c, End);
    assert "" + ConditionToSql(c) + "" == ConditionToSql(c);
    LexRender(ConditionTokens(false, c, End));
  }

  lemma LexPrintedOperation(o: Operation)
    requires Valid(o)
    ensures Lex(OperationToSql(o)) == OperationTokens(false, o, End)
  {
    SeparatedOperation(false, o, End);
    RenderOperation(false, o, End);
    assert "" + OperationToSql(o) + "" == OperationToSql(o);
    LexRender(OperationTokens(false, o, End));
  }
}
