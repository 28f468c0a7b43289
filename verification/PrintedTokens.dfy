/** The printed text as tokens.

    Each function writes the tokens of one tree in front of the tokens `k` that follow; `sp`
    tells whether a space precedes the first.

    Two facts are proved about every tree: these tokens render to the text the printer returns,
    and no two of them merge, so that the lexer gives them back. */
module PrintedTokens {
  import opened Wrappers
  import opened Decimal
  import opened SqlTree
  import opened SqlLexer
  import Strings

  function Put(sp: bool, t: Token, k: Lexemes): Lexemes { More(Lexeme(sp, t), k) }

  function SignedTokens(sp: bool, negative: bool, digits: string, k: Lexemes): (r: Lexemes)
    ensures r.More? && r.head.spaced == sp
  {
    if negative then Put(sp, Op("-"), Tok(Num(digits), k)) else Put(sp, Num(digits), k)
  }

  function IntTokens(sp: bool, n: int, k: Lexemes): (r: Lexemes)
    ensures r.More? && r.head.spaced == sp
  {
    SignedTokens(sp, n < 0, NatToString(if n < 0 then -n else n), k)
  }

  function FloatDigits(micros: nat): string { FloatToString(false, micros) }

  function ValueTokens(sp: bool, v: Value, k: Lexemes): (r: Lexemes)
    ensures r.More? && r.head.spaced == sp
  {
    match v
    case String(s) => Put(sp, Str(s), k)
    case DurationValue(d) => Put(sp, Word("INTERVAL"), Spc(Str(DurationText(d)), k))
    case Null => Put(sp, Word("NULL"), k)
    case Timestamp(seconds) =>
      Put(sp, Word("to_timestamp"), Tok(LParen, IntTokens(false, seconds, Tok(RParen, k))))
    case Boolean(b) => Put(sp, Word(if b then "TRUE" else "FALSE"), k)
    case Float(negative, micros) => SignedTokens(sp, negative, FloatDigits(micros), k)
    case Integer(n) => IntTokens(sp, n, k)
  }

  function ColumnTokens(sp: bool, c: Column, k: Lexemes): (r: Lexemes)
    ensures r.More? && r.head.spaced == sp
  {
    match c.alias
    case Some(alias) => Put(sp, Word(alias), Tok(Dot, Tok(QuotedId(c.name), k)))
    case None => Put(sp, QuotedId(c.name), k)
  }

  function LeafTokens(sp: bool, cv: ColumnOrValue, k: Lexemes): (r: Lexemes)
    ensures r.More? && r.head.spaced == sp
  {
    match cv
    case ColumnRef(c) => ColumnTokens(sp, c, k)
    case Literal(v) => ValueTokens(sp, v, k)
  }

  function TypeTokens(t: Type, k: Lexemes): Lexemes
  {
    match t
    case VarChar(length) =>
      Spc(Word("VARCHAR"), Tok(LParen, Tok(Num(NatToString(length)), Tok(RParen, k))))
    case TimestampWithTZ =>
      Spc(Word("TIMESTAMP"), Spc(Word("WITH"), Spc(Word("TIME"), Spc(Word("ZONE"), k))))
    case _ => Spc(Word(TypeToSql(t)), k)
  }

  /** Every value with the separator `t` before it. */
  function ValueTail(spt: bool, t: Token, vs: seq<Value>, k: Lexemes): Lexemes
  {
    if vs == [] then k else Put(spt, t, ValueTokens(true, vs[0], ValueTail(spt, t, vs[1..], k)))
  }

  function CastTokens(sp: bool, o: Operation, t: Type, k: Lexemes): (r: Lexemes)
    ensures r.More? && r.head.spaced == sp
    decreases o, 2
  {
    Put(sp, Word("cast"), Tok(LParen,
      OperationTokens(false, o, Spc(Word("as"), TypeTokens(t, Tok(RParen, k))))))
  }

  function OperationTokens(sp: bool, o: Operation, k: Lexemes): (r: Lexemes)
    ensures r.More? && r.head.spaced == sp
    decreases o, 1
  {
    match o
    case Aggregate(agg, val) =>
      Put(sp, Word(AggregatorName(agg)), Tok(LParen, OperationTokens(false, val, Tok(RParen, k))))
    case Count(counted, distinct) =>
      var close := Tok(RParen, k);
      Put(sp, Word("COUNT"), Tok(LParen,
        if counted.None? then Tok(Op("*"), close)
        else if distinct then Tok(Word("DISTINCT"), ColumnTokens(true, counted.value, close))
        else ColumnTokens(false, counted.value, close)))
    case Arith(arith, op1, op2) =>
      Put(sp, LParen, OperationTokens(false, op1, Tok(RParen, Spc(Op(ArithSymbol(arith)),
        Spc(LParen, OperationTokens(false, op2, Tok(RParen, k)))))))
    case Call(fn, ops) =>
      Put(sp, Word(FunctionName(fn)), Tok(LParen, ListTokens(false, Comma, ops, Tok(RParen, k))))
    case Cast(operand, targetType) => CastTokens(sp, operand, targetType, k)
    case Concat(parts) => Put(sp, LParen, ListTokens(true, Op("||"), parts, Tok(RParen, k)))
    case DatePlusDuration(date, durations) =>
      OperationTokens(sp, date, ValueTail(true, Op("+"), DurationValues(durations), k))
    case DaysBetween(from, to) =>
      CastTokens(sp, to, Date, Spc(Op("-"), CastTokens(true, from, Date, k)))
    case Extract(part, timestamp) =>
      Put(sp, Word("extract"), Tok(LParen, Tok(Word(PartName(part)), Spc(Word(PartKeyword(part)),
        OperationTokens(true, timestamp, Tok(RParen, k))))))
    case Log2(arg) =>
      Put(sp, Word("log"), Tok(LParen, Tok(Num("2.0"), Tok(Comma,
        OperationTokens(true, arg, Tok(RParen, k))))))
    case Operand(leaf) => LeafTokens(sp, leaf, k)
  }

  /** Operands with the separator `t` between them. */
  function ListTokens(spt: bool, t: Token, ops: seq<Operation>, k: Lexemes): Lexemes
    decreases ops, 0
  {
    if ops == [] then k else OperationTokens(false, ops[0], TailTokens(spt, t, ops[1..], k))
  }

  /** Operands with the separator `t` before each. */
  function TailTokens(spt: bool, t: Token, ops: seq<Operation>, k: Lexemes): Lexemes
    decreases ops, 0
  {
    if ops == [] then k
    else Put(spt, t, OperationTokens(true, ops[0], TailTokens(spt, t, ops[1..], k)))
  }

  function PatternTokens(vs: seq<Value>, k: Lexemes): Lexemes
  {
    if vs == [] then k else ValueTokens(false, vs[0], ValueTail(false, Comma, vs[1..], k))
  }

  function ConditionTokens(sp: bool, c: Condition, k: Lexemes): (r: Lexemes)
    ensures r.More? && r.head.spaced == sp
    decreases c
  {
    match c
    case And(c1, c2) =>
      Put(sp, LParen, ConditionTokens(false, c1, Tok(RParen, Spc(Word("AND"),
        Spc(LParen, ConditionTokens(false, c2, Tok(RParen, k)))))))
    case Or(c1, c2) =>
      Put(sp, LParen, ConditionTokens(false, c1, Tok(RParen, Spc(Word("OR"),
        Spc(LParen, ConditionTokens(false, c2, Tok(RParen, k)))))))
    case Not(c1) =>
      Put(sp, Word("NOT"), Spc(LParen, ConditionTokens(false, c1, Tok(RParen, k))))
    case BooleanColumnOrValue(cv) => LeafTokens(sp, cv, k)
    case Compare(cmp, op1, op2) =>
      OperationTokens(sp, op1, Spc(Op(CompareSymbol(cmp)), OperationTokens(true, op2, k)))
    case In(op, patterns, negated) =>
      OperationTokens(sp, op, NotTokens(negated,
        Spc(Word("IN"), Spc(LParen, PatternTokens(patterns, Tok(RParen, k))))))
    case IsNull(op, negated) =>
      OperationTokens(sp, op, Spc(Word("IS"), NotTokens(negated, Spc(Word("NULL"), k))))
    case Like(op, pattern, negated) =>
      OperationTokens(sp, op, NotTokens(negated, Spc(Word("LIKE"), ValueTokens(true, pattern, k))))
  }

  function NotTokens(negated: bool, k: Lexemes): Lexemes
  {
    if negated then Spc(Word("NOT"), k) else k
  }
}
