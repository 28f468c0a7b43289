/** A parser for SQL value expressions by operator precedence (PostgreSQL documentation,
    section 4.1.6), and the expressions it builds. From loosest to tightest: OR, AND, NOT,
    IS, comparison, IN and LIKE, any other operator (such as ||), + and -, * and /, unary
    minus. IS, comparison, IN and LIKE do not associate; the rest associate to the left.
    Keywords are recognised in the spellings the library prints. */
module SqlParser {
  import opened Wrappers
  import opened SqlLexer

  datatype TypeName = Named(w: string) | Sized(w: string, size: string) | TimestampWithTimeZone

  datatype Expr =
    | ENum(negative: bool, digits: string)
    | EStr(s: string)
    | EBool(b: bool)
    | ENull
    | EInterval(text: string)
    | EColumn(alias: Option<string>, name: string)
    | ENegate(e: Expr)
    | EBinary(symbol: string, left: Expr, right: Expr)
    | ENot(e: Expr)
    | EIn(e: Expr, list: seq<Expr>, negated: bool)
    | EIsNull(e: Expr, negated: bool)
    | ELike(e: Expr, pattern: Expr, negated: bool)
    | ECall(name: string, args: seq<Expr>)
    | EAggregate(name: string, distinct: bool, arg: Option<Expr>)
    | ECast(e: Expr, target: TypeName)
    | EExtract(part: string, e: Expr)
    | EParen(e: Expr)

  datatype Parsed = Failed | Done(e: Expr, rest: Lexemes)

  datatype ParsedList = ListFailed | ListDone(es: seq<Expr>, rest: Lexemes)

  const OR_LEVEL: nat := 1
  const AND_LEVEL: nat := 2
  const NOT_LEVEL: nat := 3
  const IS_LEVEL: nat := 4
  const COMPARE_LEVEL: nat := 5
  const IN_LEVEL: nat := 6
  const OTHER_LEVEL: nat := 7
  const ADD_LEVEL: nat := 8
  const MULTIPLY_LEVEL: nat := 9
  const UNARY_LEVEL: nat := 10

  predicate IsComparison(symbol: string)
  {
    symbol in ["=", "!=", "<", "<=", ">", ">="]
  }

  function SymbolLevel(symbol: string): nat
  {
    if IsComparison(symbol) then COMPARE_LEVEL
    else if symbol == "+" || symbol == "-" then ADD_LEVEL
    else if symbol == "*" || symbol == "/" then MULTIPLY_LEVEL
    else OTHER_LEVEL
  }

  predicate StartsWith(ls: Lexemes, t: Token) { ls.More? && ls.head.token == t }

  /** The level of the infix or postfix operator that begins `ls`, or 0 if there is none. */
  function InfixLevel(ls: Lexemes): nat
  {
    if ls.End? then 0
    else match ls.head.token
      case Op(symbol) => SymbolLevel(symbol)
      case Word(w) =>
        if w == "OR" then OR_LEVEL
        else if w == "AND" then AND_LEVEL
        else if w == "IS" then IS_LEVEL
        else if w == "IN" || w == "LIKE" then IN_LEVEL
        else if w == "NOT" && (StartsWith(ls.tail, Word("IN")) || StartsWith(ls.tail, Word("LIKE")))
          then IN_LEVEL
        else 0
      case _ => 0
  }

  /** The loosest-to-tightest cap that a non-associative operator leaves behind. */
  function CapAfter(level: nat, cap: nat): nat
  {
    if IS_LEVEL <= level <= IN_LEVEL then level - 1 else cap
  }

  predicate IsReserved(w: string)
  {
    w in ["NOT", "TRUE", "FALSE", "NULL", "INTERVAL", "AND", "OR", "IS", "IN", "LIKE", "cast",
          "extract", "as", "from", "FROM", "DISTINCT"]
  }

  predicate IsAggregator(w: string) { w in ["AVG", "MAX", "MIN", "SUM", "COUNT"] }

  function Negate(e: Expr): Expr
  {
    if e.ENum? && !e.negative then ENum(true, e.digits) else ENegate(e)
  }

  // ------------------------------------------------------------------- the parser

  function ParseExpr(min: nat, ls: Lexemes): (r: Parsed)
    ensures r.Done? ==> r.rest < ls
    decreases ls, 4
  {
    match ParsePrefix(ls)
    case Failed => Failed
    case Done(e, rest) => ParseLoop(e, min, UNARY_LEVEL, rest)
  }

  /** Extends `left` by every operator whose level is between `min` and `cap`. */
  function ParseLoop(left: Expr, min: nat, cap: nat, ls: Lexemes): (r: Parsed)
    ensures r.Done? ==> r.rest == ls || r.rest < ls
    decreases ls, 3
  {
    var level := InfixLevel(ls);
    if level == 0 || level < min || level > cap then Done(left, ls)
    else match ParseInfix(left, level, ls)
      case Failed => Failed
      case Done(e, rest) => ParseLoop(e, min, CapAfter(level, cap), rest)
  }

  /** Reads the operator that begins `ls`, and its right-hand side. */
  function ParseInfix(left: Expr, level: nat, ls: Lexemes): (r: Parsed)
    requires ls.More?
    ensures r.Done? ==> r.rest < ls
    decreases ls, 2
  {
    var rest := ls.tail;
    match ls.head.token
    case Op(symbol) => ParseBinary(left, symbol, level, rest)
    case Word(w) =>
      if w == "AND" || w == "OR" then ParseBinary(left, w, level, rest)
      else if w == "IS" then
        if StartsWith(rest, Word("NULL")) then Done(EIsNull(left, false), rest.tail)
        else if StartsWith(rest, Word("NOT")) && StartsWith(rest.tail, Word("NULL"))
          then Done(EIsNull(left, true), rest.tail.tail)
        else Failed
      else if w == "IN" then ParseIn(left, false, rest)
      else if w == "LIKE" then ParseLike(left, false, rest)
      else if StartsWith(rest, Word("IN")) then ParseIn(left, true, rest.tail)
      else if StartsWith(rest, Word("LIKE")) then ParseLike(left, true, rest.tail)
      else Failed
    case _ => Failed
  }

  function ParseBinary(left: Expr, symbol: string, level: nat, ls: Lexemes): (r: Parsed)
    ensures r.Done? ==> r.rest < ls
    decreases ls, 5
  {
    match ParseExpr(level + 1, ls)
    case Failed => Failed
    case Done(right, rest) => Done(EBinary(symbol, left, right), rest)
  }

  function ParseLike(left: Expr, negated: bool, ls: Lexemes): (r: Parsed)
    ensures r.Done? ==> r.rest < ls
    decreases ls, 5
  {
    match ParseExpr(IN_LEVEL + 1, ls)
    case Failed => Failed
    case Done(pattern, rest) => Done(ELike(left, pattern, negated), rest)
  }

  /** An empty list is read here and rejected by ParseSql. */
  function ParseIn(left: Expr, negated: bool, ls: Lexemes): (r: Parsed)
    ensures r.Done? ==> r.rest < ls
    decreases ls, 0
  {
    if !StartsWith(ls, LParen) then Failed
    else if StartsWith(ls.tail, RParen) then Done(EIn(left, [], negated), ls.tail.tail)
    else match ParseList(ls.tail)
      case ListFailed => Failed
      case ListDone(es, rest) => Done(EIn(left, es, negated), rest)
  }

  /** One or more expressions, separated by commas, and the closing parenthesis. */
  function ParseList(ls: Lexemes): (r: ParsedList)
    ensures r.ListDone? ==> r.es != [] && r.rest < ls
    decreases ls, 6
  {
    match ParseExpr(0, ls)
    case Failed => ListFailed
    case Done(e, rest) =>
      if StartsWith(rest, RParen) then ListDone([e], rest.tail)
      else if !StartsWith(rest, Comma) then ListFailed
      else match ParseList(rest.tail)
        case ListFailed => ListFailed
        case ListDone(es, after) => ListDone([e] + es, after)
  }

  function ParsePrefix(ls: Lexemes): (r: Parsed)
    ensures r.Done? ==> r.rest < ls
    decreases ls, 1
  {
    if ls.End? then Failed
    else
      var rest := ls.tail;
      match ls.head.token
      case Num(digits) => Done(ENum(false, digits), rest)
      case Str(s) => Done(EStr(s), rest)
      case QuotedId(name) => Done(EColumn(None, name), rest)
      case Op(symbol) =>
        if symbol != "-" then Failed
        else (match ParseExpr(UNARY_LEVEL, rest)
          case Failed => Failed
          case Done(e, after) => Done(Negate(e), after))
      case LParen => InParens(ParseClose(ParseExpr(0, rest)))
      case Word(w) =>
        if IsReserved(w) then ParseKeyword(w, rest)
        else if StartsWith(rest, Dot) then
          if rest.tail.More? && rest.tail.head.token.QuotedId?
            then Done(EColumn(Some(w), rest.tail.head.token.name), rest.tail.tail)
            else Failed
        else if !StartsWith(rest, LParen) then Failed
        else if IsAggregator(w) then ParseAggregate(w, rest.tail)
        else (match ParseList(rest.tail)
          case ListFailed => Failed
          case ListDone(args, after) => Done(ECall(w, args), after))
      case _ => Failed
  }

  /** Requires the closing parenthesis behind a parsed expression. */
  function ParseClose(p: Parsed): (r: Parsed)
    ensures r.Done? ==> p.Done? && r.rest < p.rest
  {
    if p.Done? && StartsWith(p.rest, RParen) then Done(p.e, p.rest.tail) else Failed
  }

  function InParens(p: Parsed): (r: Parsed)
    ensures r.Done? ==> p.Done? && r.rest == p.rest
  {
    if p.Done? then Done(EParen(p.e), p.rest) else Failed
  }

  function ParseKeyword(w: string, rest: Lexemes): (r: Parsed)
    ensures r.Done? ==> r.rest == rest || r.rest < rest
    decreases rest, 7
  {
    if w == "TRUE" then Done(EBool(true), rest)
    else if w == "FALSE" then Done(EBool(false), rest)
    else if w == "NULL" then Done(ENull, rest)
    else if w == "INTERVAL" then
      if rest.More? && rest.head.token.Str? then Done(EInterval(rest.head.token.value), rest.tail)
      else Failed
    else if w == "NOT" then
      match ParseExpr(NOT_LEVEL, rest)
      case Failed => Failed
      case Done(e, after) => Done(ENot(e), after)
    else if w == "cast" && StartsWith(rest, LParen) then ParseCast(ParseExpr(0, rest.tail))
    else if w == "extract" && StartsWith(rest, LParen) then ParseExtract(rest.tail)
    else Failed
  }

  function ParseCast(p: Parsed): (r: Parsed)
    ensures r.Done? ==> p.Done? && r.rest < p.rest
  {
    if p.Failed? || !StartsWith(p.rest, Word("as")) || p.rest.tail.End?
       || !p.rest.tail.head.token.Word? then Failed
    else
      var w, rest := p.rest.tail.head.token.w, p.rest.tail.tail;
      if StartsWith(rest, RParen) then Done(ECast(p.e, Named(w)), rest.tail)
      else if StartsWith(rest, LParen) && rest.tail.More? && rest.tail.head.token.Num?
        && StartsWith(rest.tail.tail, RParen) && StartsWith(rest.tail.tail.tail, RParen)
        then Done(ECast(p.e, Sized(w, rest.tail.head.token.digits)), rest.tail.tail.tail.tail)
      else if w == "TIMESTAMP" && StartsWith(rest, Word("WITH"))
        && StartsWith(rest.tail, Word("TIME")) && StartsWith(rest.tail.tail, Word("ZONE"))
        && StartsWith(rest.tail.tail.tail, RParen)
        then Done(ECast(p.e, TimestampWithTimeZone), rest.tail.tail.tail.tail)
      else Failed
  }

  function ParseExtract(ls: Lexemes): (r: Parsed)
    ensures r.Done? ==> r.rest < ls
    decreases ls, 8
  {
    if ls.More? && ls.head.token.Word?
       && (StartsWith(ls.tail, Word("from")) || StartsWith(ls.tail, Word("FROM")))
    then
      match ParseClose(ParseExpr(0, ls.tail.tail))
      case Failed => Failed
      case Done(e, rest) => Done(EExtract(ls.head.token.w, e), rest)
    else Failed
  }

  function ParseAggregate(w: string, ls: Lexemes): (r: Parsed)
    ensures r.Done? ==> r.rest < ls
    decreases ls, 8
  {
    if w == "COUNT" && StartsWith(ls, Op("*")) then
      if StartsWith(ls.tail, RParen) then Done(EAggregate(w, false, None), ls.tail.tail) else Failed
    else
      var distinct := StartsWith(ls, Word("DISTINCT"));
      match ParseClose(ParseExpr(0, if distinct then ls.tail else ls))
      case Failed => Failed
      case Done(e, rest) => Done(EAggregate(w, distinct, Some(e)), rest)
  }

  // ------------------------------------------------------------------- whole texts

  /** An expression with nothing behind it. */
  function ReadText(text: string): Option<Expr>
  {
    match ParseExpr(0, Lex(text))
    case Failed => None
    case Done(e, rest) => if rest.End? then Some(e) else None
  }

  /** SQL has no empty lists behind IN. */
  predicate NoEmptyList(e: Expr)
    decreases e, 1
  {
    match e
    case ENegate(e1) => NoEmptyList(e1)
    case EBinary(_, l, r) => NoEmptyList(l) && NoEmptyList(r)
    case ENot(e1) => NoEmptyList(e1)
    case EIn(e1, list, _) => list != [] && NoEmptyList(e1) && NoEmptyListIn(list)
    case EIsNull(e1, _) => NoEmptyList(e1)
    case ELike(e1, pattern, _) => NoEmptyList(e1) && NoEmptyList(pattern)
    case ECall(_, args) => NoEmptyListIn(args)
    case EAggregate(_, _, arg) => arg.Some? ==> NoEmptyList(arg.value)
    case ECast(e1, _) => NoEmptyList(e1)
    case EExtract(_, e1) => NoEmptyList(e1)
    case EParen(e1) => NoEmptyList(e1)
    case _ => true
  }

  predicate NoEmptyListIn(es: seq<Expr>)
    decreases es, 0
  {
    es == [] || (NoEmptyList(es[0]) && NoEmptyListIn(es[1..]))
  }

  /** The expression a whole SQL text stands for. */
  function ParseSql(text: string): Option<Expr>
  {
    var e := ReadText(text);
    if e.Some? && NoEmptyList(e.value) then e else None
  }
}
