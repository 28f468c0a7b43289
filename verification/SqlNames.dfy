/** SQL's own names for functions, operators, date parts, aggregates and types, read back
    independently of the printer: what PostgreSQL's documentation, chapters 8 and 9, calls them. */
module SqlNames {
  import opened Wrappers
  import opened Decimal
  import opened SqlTree

  /** What a name stands for, if it is one of those the trees have. */
  datatype Named<T> = Known(it: T) | Unlisted(name: string)

  function FunctionNamed(name: string): Named<Function>
  {
    match |name|
    case 2 => if name == "ln" then Known(Ln) else Unlisted(name)
    case 3 =>
      if name == "abs" then Known(Abs)
      else if name == "cos" then Known(Cos)
      else if name == "exp" then Known(Exp)
      else if name == "mod" then Known(Mod)
      else if name == "sin" then Known(Sin)
      else if name == "tan" then Known(Tan)
      else Unlisted(name)
    case 4 =>
      if name == "ceil" then Known(Ceil)
      else if name == "sqrt" then Known(Sqrt)
      else if name == "trim" then Known(Trim)
      else Unlisted(name)
    case 5 =>
      if name == "floor" then Known(Floor)
      else if name == "lower" then Known(Lower)
      else if name == "ltrim" then Known(LTrim)
      else if name == "round" then Known(Round)
      else if name == "rtrim" then Known(RTrim)
      else if name == "upper" then Known(Upper)
      else Unlisted(name)
    case 6 => if name == "length" then Known(Length) else Unlisted(name)
    case 7 => if name == "replace" then Known(Replace) else Unlisted(name)
    case 8 => if name == "coalesce" then Known(Coalesce) else Unlisted(name)
    case _ => Unlisted(name)
  }

  function AggregateNamed(name: string): Named<Aggregator>
  {
    if name == "AVG" then Known(Avg)
    else if name == "MAX" then Known(Max)
    else if name == "MIN" then Known(Min)
    else if name == "SUM" then Known(Sum)
    else Unlisted(name)
  }

  function OperatorNamed(symbol: string): Named<ArithOp>
  {
    if symbol == "+" then Known(Plus)
    else if symbol == "-" then Known(Minus)
    else if symbol == "*" then Known(Multiplies)
    else if symbol == "/" then Known(Divides)
    else Unlisted(symbol)
  }

  function ComparisonNamed(symbol: string): Named<CompareOp>
  {
    if symbol == "=" then Known(Equal)
    else if symbol == "!=" then Known(NotEqual)
    else if symbol == "<" then Known(Lesser)
    else if symbol == "<=" then Known(LesserEqual)
    else if symbol == ">" then Known(Greater)
    else if symbol == ">=" then Known(GreaterEqual)
    else Unlisted(symbol)
  }

  function PartNamed(name: string): Named<DatePart>
  {
    if name == "DAY" then Known(Day)
    else if name == "HOUR" then Known(Hour)
    else if name == "MINUTE" then Known(Minute)
    else if name == "MONTH" then Known(Month)
    else if name == "SECOND" then Known(Second)
    else if name == "DOW" then Known(Weekday)
    else if name == "YEAR" then Known(Year)
    else if name == "EPOCH" then Known(Unixepoch)
    else Unlisted(name)
  }

  /** A type name of one word. */
  function TypeNamed(name: string): Type
  {
    if name == "BOOLEAN" then BooleanType
    else if name == "SMALLINT" then SmallInt
    else if name == "INTEGER" then Int
    else if name == "BIGINT" then BigInt
    else if name == "NUMERIC" then Numeric
    else if name == "TEXT" then Text
    else if name == "JSONB" then Json
    else if name == "DATE" then Date
    else if name == "TIMESTAMP" then TimestampType
    else Dynamic(name)
  }

  /** The type in the database: enums and dynamic types are known by their names, and values of
      unknown types are texts. */
  function DatabaseType(t: Type): Type
  {
    match t
    case Dynamic(name) => TypeNamed(name)
    case Enum(name) => TypeNamed(name)
    case UnknownType => Text
    case _ => t
  }

  // ------------------------------------------------------------------- the printer uses these names

  lemma FunctionIsNamed(f: Function)
    ensures FunctionNamed(FunctionName(f)) == Known(f)
  {
  }

  lemma AggregatorIsNamed(agg: Aggregator)
    ensures AggregateNamed(AggregatorName(agg)) == Known(agg)
  {
  }

  lemma OperatorIsNamed(arith: ArithOp)
    ensures OperatorNamed(ArithSymbol(arith)) == Known(arith)
    ensures ComparisonNamed(ArithSymbol(arith)).Unlisted?
  {
  }

  lemma ComparisonIsNamed(cmp: CompareOp)
    ensures ComparisonNamed(CompareSymbol(cmp)) == Known(cmp)
  {
  }

  lemma PartIsNamed(part: DatePart)
    ensures PartNamed(PartName(part)) == Known(part)
  {
  }
}
