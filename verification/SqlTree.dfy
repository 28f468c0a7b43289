/** The dynamic statement trees (include/sqlgen/dynamic/Operation.hpp, Condition.hpp,
    Value.hpp) and their text (src/sqlgen/postgres/to_sql.cpp; src/sqlgen/duckdb/to_sql.cpp
    has the same branches). Alternatives of the source that differ only in a printed name
    share one constructor here: Call covers abs ... upper, ltrim, mod, replace, round,
    rtrim, trim and coalesce; Extract the date parts; Arith the four infix operators. */
module SqlTree {
  import opened Wrappers
  import opened Decimal
  import Strings

  datatype Column = Column(alias: Option<string>, name: string)

  datatype TimeUnit =
    | Milliseconds | Seconds | Minutes | Hours | Days | Weeks | Months | Years

  datatype Duration = Duration(unit: TimeUnit, val: int)

  /** A Float holds what std::to_string keeps of a finite double: sign and millionths. */
  datatype Value =
    | DurationValue(d: Duration)
    | Boolean(b: bool)
    | Float(negative: bool, micros: nat)
    | Integer(n: int)
    | Null
    | String(s: string)
    | Timestamp(secondsSinceUnix: int)

  datatype ColumnOrValue = ColumnRef(col: Column) | Literal(v: Value)

  datatype Type =
    | BooleanType | Dynamic(typeName: string) | SmallInt | Int | BigInt | Enum(name: string)
    | Numeric | Text | VarChar(length: nat) | Json | Date | TimestampType | TimestampWithTZ
    | UnknownType

  datatype Function =
    | Abs | Ceil | Coalesce | Cos | Exp | Floor | Length | Ln | Lower | LTrim | Mod | Replace
    | Round | RTrim | Sin | Sqrt | Tan | Trim | Upper

  datatype ArithOp = Plus | Minus | Multiplies | Divides

  datatype DatePart = Day | Hour | Minute | Month | Second | Weekday | Year | Unixepoch

  datatype Aggregator = Avg | Max | Min | Sum

  datatype Operation =
    | Aggregate(agg: Aggregator, val: Operation)
    | Count(counted: Option<Column>, distinct: bool)
    | Arith(arith: ArithOp, op1: Operation, op2: Operation)
    | Call(fn: Function, ops: seq<Operation>)
    | Cast(operand: Operation, targetType: Type)
    | Concat(parts: seq<Operation>)
    | DatePlusDuration(date: Operation, durations: seq<Duration>)
    | DaysBetween(from: Operation, to: Operation)
    | Extract(part: DatePart, timestamp: Operation)
    | Log2(arg: Operation)
    | Operand(leaf: ColumnOrValue)

  datatype CompareOp = Equal | NotEqual | Lesser | LesserEqual | Greater | GreaterEqual

  datatype Condition =
    | And(cond1: Condition, cond2: Condition)
    | Or(cond1: Condition, cond2: Condition)
    | Not(cond: Condition)
    | BooleanColumnOrValue(colOrVal: ColumnOrValue)
    | Compare(cmp: CompareOp, op1: Operation, op2: Operation)
    | In(op: Operation, patterns: seq<Value>, negated: bool)
    | IsNull(op: Operation, negated: bool)
    | Like(op: Operation, pattern: Value, negated: bool)

  // ------------------------------------------------------------------- names

  function UnitName(u: TimeUnit): string
  {
    match u
    case Milliseconds => "milliseconds"
    case Seconds => "seconds"
    case Minutes => "minutes"
    case Hours => "hours"
    case Days => "days"
    case Weeks => "weeks"
    case Months => "months"
    case Years => "years"
  }

  function FunctionName(f: Function): string
  {
    match f
    case Abs => "abs"
    case Ceil => "ceil"
    case Coalesce => "coalesce"
    case Cos => "cos"
    case Exp => "exp"
    case Floor => "floor"
    case Length => "length"
    case Ln => "ln"
    case Lower => "lower"
    case LTrim => "ltrim"
    case Mod => "mod"
    case Replace => "replace"
    case Round => "round"
    case RTrim => "rtrim"
    case Sin => "sin"
    case Sqrt => "sqrt"
    case Tan => "tan"
    case Trim => "trim"
    case Upper => "upper"
  }

  function AggregatorName(a: Aggregator): string
  {
    match a
    case Avg => "AVG"
    case Max => "MAX"
    case Min => "MIN"
    case Sum => "SUM"
  }

  function ArithSymbol(op: ArithOp): string
  {
    match op
    case Plus => "+"
    case Minus => "-"
    case Multiplies => "*"
    case Divides => "/"
  }

  function CompareSymbol(op: CompareOp): string
  {
    match op
    case Equal => "="
    case NotEqual => "!="
    case Lesser => "<"
    case LesserEqual => "<="
    case Greater => ">"
    case GreaterEqual => ">="
  }

  function PartName(p: DatePart): string
  {
    match p
    case Day => "DAY"
    case Hour => "HOUR"
    case Minute => "MINUTE"
    case Month => "MONTH"
    case Second => "SECOND"
    case Weekday => "DOW"
    case Year => "YEAR"
    case Unixepoch => "EPOCH"
  }

  /** Only the EPOCH branch spells the keyword in upper case. */
  function PartKeyword(p: DatePart): string
  {
    if p.Unixepoch? then "FROM" else "from"
  }

  // ------------------------------------------------------------------- text

  function WrapInQuotes(name: string): string { "\"" + name + "\"" }

  function EscapeSingleQuote(s: string): string { Strings.Replaced(s, "'", "''") }

  function TypeToSql(t: Type): string
  {
    match t
    case BooleanType => "BOOLEAN"
    case Dynamic(typeName) => typeName
    case SmallInt => "SMALLINT"
    case Int => "INTEGER"
    case BigInt => "BIGINT"
    case Enum(name) => name
    case Numeric => "NUMERIC"
    case Text => "TEXT"
    case VarChar(length) => "VARCHAR(" + NatToString(length) + ")"
    case Json => "JSONB"
    case Date => "DATE"
    case TimestampType => "TIMESTAMP"
    case TimestampWithTZ => "TIMESTAMP WITH TIME ZONE"
    case UnknownType => "TEXT"
  }

  /** std::to_string(double), that is "%f". */
  function FloatToString(negative: bool, micros: nat): string
  {
    (if negative then "-" else "") + NatToString(micros / 1000000) + "."
    + Padded(NatToString(micros % 1000000), 6)
  }

  function DurationText(d: Duration): string
  {
    IntToString(d.val) + " " + UnitName(d.unit)
  }

  function ValueToSql(v: Value): string
  {
    match v
    case String(s) => "'" + EscapeSingleQuote(s) + "'"
    case DurationValue(d) => "INTERVAL '" + DurationText(d) + "'"
    case Null => "NULL"
    case Timestamp(seconds) => "to_timestamp(" + IntToString(seconds) + ")"
    case Boolean(b) => if b then "TRUE" else "FALSE"
    case Float(negative, micros) => FloatToString(negative, micros)
    case Integer(n) => IntToString(n)
  }

  function ColumnToSql(c: Column): string
  {
    match c.alias
    case Some(alias) => alias + "." + WrapInQuotes(c.name)
    case None => WrapInQuotes(c.name)
  }

  function ColumnOrValueToSql(cv: ColumnOrValue): string
  {
    match cv
    case ColumnRef(c) => ColumnToSql(c)
    case Literal(v) => ValueToSql(v)
  }

  function ValuesToSql(vs: seq<Value>): (r: seq<string>)
    ensures |r| == |vs|
  {
    if vs == [] then [] else [ValueToSql(vs[0])] + ValuesToSql(vs[1..])
  }

  function DurationValues(ds: seq<Duration>): (r: seq<Value>)
    ensures |r| == |ds|
  {
    if ds == [] then [] else [DurationValue(ds[0])] + DurationValues(ds[1..])
  }

  function OperationToSql(o: Operation): string
    decreases o, 1
  {
    match o
    case Aggregate(agg, val) => AggregatorName(agg) + "(" + OperationToSql(val) + ")"
    case Count(counted, distinct) =>
      "COUNT(" + (if counted.Some? && distinct then "DISTINCT " else "")
      + (if counted.Some? then ColumnToSql(counted.value) else "*") + ")"
    case Arith(arith, op1, op2) =>
      "(" + OperationToSql(op1) + ") " + ArithSymbol(arith) + " (" + OperationToSql(op2) + ")"
    case Call(fn, ops) =>
      FunctionName(fn) + "(" + Strings.Joined(", ", OperationsToSql(ops)) + ")"
    case Cast(operand, targetType) =>
      "cast(" + OperationToSql(operand) + " as " + TypeToSql(targetType) + ")"
    case Concat(parts) => "(" + Strings.Joined(" || ", OperationsToSql(parts)) + ")"
    case DatePlusDuration(date, durations) =>
      OperationToSql(date) + " + " + Strings.Joined(" + ", ValuesToSql(DurationValues(durations)))
    case DaysBetween(from, to) =>
      "cast(" + OperationToSql(to) + " as DATE) - cast(" + OperationToSql(from) + " as DATE)"
    case Extract(part, timestamp) =>
      "extract(" + PartName(part) + " " + PartKeyword(part) + " " + OperationToSql(timestamp) + ")"
    case Log2(arg) => "log(2.0, " + OperationToSql(arg) + ")"
    case Operand(leaf) => ColumnOrValueToSql(leaf)
  }

  function OperationsToSql(ops: seq<Operation>): (r: seq<string>)
    ensures |r| == |ops|
    decreases ops, 0
  {
    if ops == [] then [] else [OperationToSql(ops[0])] + OperationsToSql(ops[1..])
  }

  function ConditionToSql(c: Condition): string
  {
    match c
    case And(c1, c2) => "(" + ConditionToSql(c1) + ") AND (" + ConditionToSql(c2) + ")"
    case Or(c1, c2) => "(" + ConditionToSql(c1) + ") OR (" + ConditionToSql(c2) + ")"
    case Not(c1) => "NOT (" + ConditionToSql(c1) + ")"
    case BooleanColumnOrValue(cv) => ColumnOrValueToSql(cv)
    case Compare(cmp, op1, op2) =>
      OperationToSql(op1) + " " + CompareSymbol(cmp) + " " + OperationToSql(op2)
    case In(op, patterns, negated) =>
      OperationToSql(op) + (if negated then " NOT IN (" else " IN (")
      + Strings.Joined(", ", ValuesToSql(patterns)) + ")"
    case IsNull(op, negated) =>
      OperationToSql(op) + (if negated then " IS NOT NULL" else " IS NULL")
    case Like(op, pattern, negated) =>
      OperationToSql(op) + (if negated then " NOT LIKE " else " LIKE ") + ValueToSql(pattern)
  }
}
