/** The meaning of the dynamic trees on a row of a group, in SQL's three-valued logic
    (section 8.12 of SQL-92). What single functions and operators compute is left open. */
module SqlMeaning {
  import opened Wrappers
  import opened Decimal
  import opened SqlTree
  import opened SqlNames

  /** VTerm stands for the values of all other SQL types. */
  datatype Val =
    | VNull
    | VBool(b: bool)
    | VInt(n: int)
    | VDec(micros: int)
    | VStr(s: string)
    | VDuration(unit: TimeUnit, count: int)
    | VTerm(head: string, args: seq<Val>)

  /** What functions, infix operators, casts, date parts, comparisons, patterns and
      aggregates compute. Comparison and LIKE are asked only about non-NULL values. */
  datatype Interp = Interp(
    call: (Named<Function>, seq<Val>) -> Val,
    binary: (Named<ArithOp>, Val, Val) -> Val,
    cast: (Type, Val) -> Val,
    extract: (Named<DatePart>, Val) -> Val,
    compare: (CompareOp, Val, Val) -> bool,
    like: (Val, Val) -> bool,
    aggregate: (Named<Aggregator>, bool, seq<Val>) -> Val)

  type Row = (Option<string>, string) -> Val

  /** The row at hand and all rows of its group. */
  datatype Env = Env(row: Row, group: seq<Row>)

  // ------------------------------------------------------------------- three-valued logic

  datatype Truth = True | False | Unknown

  function ToTruth(v: Val): Truth
  {
    match v
    case VBool(b) => Holds(b)
    case _ => Unknown
  }

  function FromTruth(t: Truth): Val
  {
    match t
    case True => VBool(true)
    case False => VBool(false)
    case Unknown => VNull
  }

  function Holds(b: bool): Truth { if b then True else False }

  function Both(a: Truth, b: Truth): Truth
  {
    if a.False? || b.False? then False else if a.True? && b.True? then True else Unknown
  }

  function Either(a: Truth, b: Truth): Truth
  {
    if a.True? || b.True? then True else if a.False? && b.False? then False else Unknown
  }

  function Negation(a: Truth): Truth
  {
    match a
    case True => False
    case False => True
    case Unknown => Unknown
  }

  function NegateIf(negated: bool, a: Truth): Truth { if negated then Negation(a) else a }

  function Compares(I: Interp, cmp: CompareOp, a: Val, b: Val): Truth
  {
    if a.VNull? || b.VNull? then Unknown else Holds(I.compare(cmp, a, b))
  }

  function Matches(I: Interp, a: Val, pattern: Val): Truth
  {
    if a.VNull? || pattern.VNull? then Unknown else Holds(I.like(a, pattern))
  }

  /** v IN (vs): v equals one of them. */
  function AmongThem(I: Interp, v: Val, vs: seq<Val>): Truth
  {
    if vs == [] then False else Either(Compares(I, Equal, v, vs[0]), AmongThem(I, v, vs[1..]))
  }

  // ------------------------------------------------------------------- operations

  function FirstNonNull(vs: seq<Val>): Val
  {
    if vs == [] then VNull else if !vs[0].VNull? then vs[0] else FirstNonNull(vs[1..])
  }

  function EvalValue(I: Interp, v: Value): Val
  {
    match v
    case DurationValue(d) => VDuration(d.unit, d.val)
    case Boolean(b) => VBool(b)
    case Float(negative, micros) => VDec(Signed(negative, micros))
    case Integer(n) => VInt(n)
    case Null => VNull
    case String(s) => VStr(s)
    case Timestamp(seconds) => I.call(Unlisted("to_timestamp"), [VInt(seconds)])
  }

  function EvalLeaf(I: Interp, row: Row, cv: ColumnOrValue): Val
  {
    match cv
    case ColumnRef(c) => row(c.alias, c.name)
    case Literal(v) => EvalValue(I, v)
  }

  /** Combines values from the left. */
  function FoldValues(I: Interp, op: Named<ArithOp>, acc: Val, vs: seq<Val>): Val
    decreases |vs|
  {
    if vs == [] then acc else FoldValues(I, op, I.binary(op, acc, vs[0]), vs[1..])
  }

  function EvalDurations(ds: seq<Duration>): (r: seq<Val>)
    ensures |r| == |ds|
  {
    if ds == [] then [] else [VDuration(ds[0].unit, ds[0].val)] + EvalDurations(ds[1..])
  }

  function Eval(I: Interp, env: Env, o: Operation): Val
    decreases o, 1
  {
    match o
    case Aggregate(agg, val) =>
      I.aggregate(Known(agg), false, EvalOver(I, env.group, env.group, val))
    case Count(counted, distinct) =>
      if counted.None? then VInt(|env.group|)
      else I.aggregate(Unlisted("COUNT"), distinct, ColumnOver(env.group, counted.value))
    case Arith(arith, op1, op2) =>
      I.binary(Known(arith), Eval(I, env, op1), Eval(I, env, op2))
    case Call(fn, ops) =>
      var vs := EvalAll(I, env, ops);
      if fn.Coalesce? then FirstNonNull(vs) else I.call(Known(fn), vs)
    case Cast(operand, targetType) => I.cast(DatabaseType(targetType), Eval(I, env, operand))
    case Concat(parts) =>
      if parts == [] then VNull
      else FoldValues(I, Unlisted("||"), Eval(I, env, parts[0]), EvalAll(I, env, parts[1..]))
    case DatePlusDuration(date, durations) =>
      FoldValues(I, Known(Plus), Eval(I, env, date), EvalDurations(durations))
    case DaysBetween(from, to) =>
      I.binary(Known(Minus), I.cast(Date, Eval(I, env, to)), I.cast(Date, Eval(I, env, from)))
    case Extract(part, timestamp) => I.extract(Known(part), Eval(I, env, timestamp))
    case Log2(arg) => I.call(Unlisted("log"), [VDec(2000000), Eval(I, env, arg)])
    case Operand(leaf) => EvalLeaf(I, env.row, leaf)
  }

  function EvalAll(I: Interp, env: Env, ops: seq<Operation>): (r: seq<Val>)
    ensures |r| == |ops|
    decreases ops, 0
  {
    if ops == [] then [] else [Eval(I, env, ops[0])] + EvalAll(I, env, ops[1..])
  }

  /** The values of an operand on each of the rows. */
  function EvalOver(I: Interp, rows: seq<Row>, group: seq<Row>, o: Operation): (r: seq<Val>)
    ensures |r| == |rows|
    decreases o, 2, |rows|
  {
    if rows == [] then []
    else [Eval(I, Env(rows[0], group), o)] + EvalOver(I, rows[1..], group, o)
  }

  function ColumnOver(rows: seq<Row>, c: Column): (r: seq<Val>)
    ensures |r| == |rows|
  {
    if rows == [] then [] else [rows[0](c.alias, c.name)] + ColumnOver(rows[1..], c)
  }

  // ------------------------------------------------------------------- conditions

  function EvalValues(I: Interp, vs: seq<Value>): (r: seq<Val>)
    ensures |r| == |vs|
  {
    if vs == [] then [] else [EvalValue(I, vs[0])] + EvalValues(I, vs[1..])
  }

  /** Section 8.12 of SQL-92 for AND, OR and NOT; 8.2, 8.4, 8.5 and 8.6 for the predicates. */
  function EvalCondition(I: Interp, env: Env, c: Condition): Truth
  {
    match c
    case And(c1, c2) =>
      var a, b := EvalCondition(I, env, c1), EvalCondition(I, env, c2);
      if a.True? then b else if a.False? || b.False? then False else Unknown
    case Or(c1, c2) =>
      var a, b := EvalCondition(I, env, c1), EvalCondition(I, env, c2);
      if a.False? then b else if a.True? || b.True? then True else Unknown
    case Not(c1) =>
      var a := EvalCondition(I, env, c1);
      if a.True? then False else if a.False? then True else Unknown
    case BooleanColumnOrValue(cv) =>
      var a := EvalLeaf(I, env.row, cv);
      if a == VBool(true) then True else if a == VBool(false) then False else Unknown
    case Compare(cmp, op1, op2) =>
      var a, b := Eval(I, env, op1), Eval(I, env, op2);
      if a == VNull || b == VNull then Unknown else if I.compare(cmp, a, b) then True else False
    case In(op, patterns, negated) =>
      var a := AmongThem(I, Eval(I, env, op), EvalValues(I, patterns));
      if a.Unknown? then Unknown else if a.True? == negated then False else True
    case IsNull(op, negated) =>
      if (Eval(I, env, op) == VNull) == negated then False else True
    case Like(op, pattern, negated) =>
      var a, p := Eval(I, env, op), EvalValue(I, pattern);
      if a == VNull || p == VNull then Unknown else if I.like(a, p) == negated then False else True
  }

  /** IN is TRUE exactly if the value equals one of the list, and FALSE exactly if it differs
      from every one of them; with a NULL on either side it does neither. */
  lemma {:induction false} InIsSomeEqual(I: Interp, v: Val, vs: seq<Val>)
    ensures AmongThem(I, v, vs).True? <==>
            exists i :: 0 <= i < |vs| && v != VNull && vs[i] != VNull && I.compare(Equal, v, vs[i])
    ensures AmongThem(I, v, vs).False? <==>
            forall i :: 0 <= i < |vs| ==> v != VNull && vs[i] != VNull && !I.compare(Equal, v, vs[i])
  {
    if vs != [] {
      InIsSomeEqual(I, v, vs[1..]);
      assert forall i :: 1 <= i < |vs| ==> vs[i] == vs[1..][i - 1];
      assert forall i :: 0 <= i < |vs| - 1 ==> vs[1..][i] == vs[i + 1];
    }
  }
}
