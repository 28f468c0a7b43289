/** Durations.

    SQLite's texts for them (src/sqlgen/sqlite/to_sql.cpp), MySQL's text for adding several to a
    date (src/sqlgen/mysql/to_sql.cpp), and the flattening of repeated date arithmetic by
    operator+ (include/sqlgen/transpilation/Operation.hpp). */
module Durations {
  import opened Wrappers
  import opened Decimal
  import opened SqlTree
  import opened SqlNames
  import opened SqlMeaning
  import Strings

  const INT64_MAX: int := 0x7FFF_FFFF_FFFF_FFFF

  // ------------------------------------------------------------------- SQLite's text

  function Magnitude(n: int): nat { if n < 0 then -n else n }

  /** std::abs and the product with seven must not overflow. */
  predicate Fits(d: Duration)
  {
    Magnitude(d.val) <= INT64_MAX && (d.unit.Weeks? ==> 7 * Magnitude(d.val) <= INT64_MAX)
  }

  /** Hours, minutes, seconds and milliseconds. */
  function ClockText(hours: nat, m: nat, sec: nat, ms: nat): string
  {
    Padded(NatToString(hours), 2) + ":" + Padded(NatToString(m), 2) + ":"
    + Padded(NatToString(sec), 2) + "." + Padded(NatToString(ms), 3)
  }

  function Clock(ms: nat): string
  {
    ClockText(ms / 3600000, ms / 60000 % 60, ms / 1000 % 60, ms % 1000)
  }

  function UnsignedText(unit: TimeUnit, val: nat): string
  {
    match unit
    case Milliseconds => Clock(val)
    case Weeks => NatToString(val * 7) + " days"
    case _ => NatToString(val) + " " + UnitName(unit)
  }

  function SqliteText(d: Duration): string
    requires Fits(d)
  {
    "'" + (if d.val >= 0 then "+" else "-") + UnsignedText(d.unit, Magnitude(d.val)) + "'"
  }

  // ------------------------------------------------------------------- reading it back

  /** A span of time as SQLite counts it: a number of units, none of them weeks. */
  datatype Span = Span(unit: string, count: int)

  predicate IsNumber(s: string) { s != "" && AllDigits(s) }

  /** HH:MM:SS.SSS, the hours of two digits and at most 24, minutes and seconds below 60: the
      form of modifier in section 3 of SQLite's "Date And Time Functions". */
  function ReadClock(s: string): Option<nat>
  {
    if |s| != 12 || s[2] != ':' || s[5] != ':' || s[8] != '.' then None
    else FromParts(s[..2], s[3..5], s[6..8], s[9..])
  }

  function FromParts(h: string, m: string, sec: string, ms: string): Option<nat>
  {
    if !AllDigits(h) || !AllDigits(m) || !AllDigits(sec) || !AllDigits(ms) then None
    else if ReadNat(h) > 24 || ReadNat(m) >= 60 || ReadNat(sec) >= 60 then None
    else Some(((ReadNat(h) * 60 + ReadNat(m)) * 60 + ReadNat(sec)) * 1000 + ReadNat(ms))
  }

  /** A number, a space and a unit. */
  function ReadCount(s: string): Option<Span>
  {
    var i := Strings.Find(s, " ", 0);
    if i == -1 || !IsNumber(s[..i]) then None else Some(Span(s[i + 1..], ReadNat(s[..i])))
  }

  function ReadUnsigned(body: string): Option<Span>
  {
    match ReadClock(body)
    case Some(ms) => Some(Span("milliseconds", ms))
    case None => ReadCount(body)
  }

  function ReadSpan(text: string): Option<Span>
  {
    var n := |text|;
    if n < 3 || text[0] != '\'' || text[n - 1] != '\'' || (text[1] != '+' && text[1] != '-') then None
    else
      match ReadUnsigned(text[2..n - 1])
      case Some(span) => Some(Span(span.unit, Signed(text[1] == '-', span.count)))
      case None => None
  }

  /** What the duration is. */
  function SpanOf(d: Duration): Span
  {
    if d.unit.Weeks? then Span("days", 7 * d.val) else Span(UnitName(d.unit), d.val)
  }

  lemma ReadField(n: nat, width: nat)
    requires (width == 2 && n < 100) || (width == 3 && n < 1000)
    ensures var s := Padded(NatToString(n), width); AllDigits(s) && |s| == width && ReadNat(s) == n
  {
    assert Pow10(1) == 10 && Pow10(2) == 100 && Pow10(3) == 1000;
    ReadPadded(n, width);
  }

  lemma ReadClockText(hours: nat, m: nat, sec: nat, ms: nat)
    requires m < 60 && sec < 60 && ms < 1000
    ensures ReadClock(ClockText(hours, m, sec, ms))
         == if hours <= 24 then Some(((hours * 60 + m) * 60 + sec) * 1000 + ms) else None
  {
    var h := Padded(NatToString(hours), 2);
    ReadField(m, 2);
    ReadField(sec, 2);
    ReadField(ms, 3);
    if hours < 100 {
      ReadField(hours, 2);
      ReadShape(h, Padded(NatToString(m), 2), Padded(NatToString(sec), 2), Padded(NatToString(ms), 3));
    } else {
      LongHours(hours);
    }
  }

  lemma LongHours(hours: nat)
    requires hours >= 100
    ensures |NatToString(hours)| > 2
  {
    assert hours / 10 >= 10 && hours / 10 / 10 >= 1;
    assert |NatToString(hours / 10 / 10)| >= 1;
    assert |NatToString(hours / 10)| >= 2;
  }

  /** The clock is read back if it shows no more than 24 hours, and not at all otherwise. */
  lemma ReadPrintedClock(ms: nat)
    ensures ReadClock(Clock(ms)) == if ms < 25 * 3600000 then Some(ms) else None
  {
    var hours, m, sec, rest := ms / 3600000, ms / 60000 % 60, ms / 1000 % 60, ms % 1000;
    ReadClockText(hours, m, sec, rest);
    ClockAddsUp(ms);
    assert hours <= 24 <==> ms < 25 * 3600000;
  }

  lemma ClockAddsUp(ms: nat)
    ensures ms == ((ms / 3600000 * 60 + ms / 60000 % 60) * 60 + ms / 1000 % 60) * 1000 + ms % 1000
  {
    var sec := ms / 1000;
    var min := sec / 60;
    assert ms / 60000 == min;
    assert ms / 3600000 == min / 60;
  }

  lemma ClockParts(h: string, a: string, b: string, c: string)
    requires |h| == 2 && |a| == 2 && |b| == 2 && |c| == 3
    ensures var s := h + ":" + a + ":" + b + "." + c;
            && |s| == 12 && s[2] == ':' && s[5] == ':' && s[8] == '.'
            && s[..2] == h && s[3..5] == a && s[6..8] == b && s[9..] == c
  {
  }

  lemma ReadShape(h: string, a: string, b: string, c: string)
    requires |h| == 2 && |a| == 2 && |b| == 2 && |c| == 3
    ensures ReadClock(h + ":" + a + ":" + b + "." + c) == FromParts(h, a, b, c)
  {
    ClockParts(h, a, b, c);
  }

  /** A text without a space is no count. */
  lemma NoSpaceNoCount(s: string)
    requires ' ' !in s
    ensures ReadCount(s).None?
  {
    forall i: nat | i < |s| ensures !Strings.OccursAt(s, " ", i) {
      assert s[i..i + 1][0] == s[i] && s[i] in s;
    }
  }

  lemma ClockHasNoSpace(ms: nat)
    ensures ' ' !in Clock(ms)
  {
    NoSpaceInField(ms / 3600000, 2);
    NoSpaceInField(ms / 60000 % 60, 2);
    NoSpaceInField(ms / 1000 % 60, 2);
    NoSpaceInField(ms % 1000, 3);
  }

  lemma NoSpaceInField(n: nat, width: nat)
    ensures ' ' !in Padded(NatToString(n), width)
  {
    ReadPrintedNat(n);
    if |NatToString(n)| < width {
      ReadZeros(width - |NatToString(n)|, NatToString(n));
    }
    assert AllDigits(Padded(NatToString(n), width)) && !IsDigit(' ');
  }

  lemma ReadPrintedCount(n: nat, unit: string)
    ensures ReadCount(NatToString(n) + " " + unit) == Some(Span(unit, n))
  {
    var number := NatToString(n);
    var s := number + " " + unit;
    ReadPrintedNat(n);
    assert Strings.OccursAt(s, " ", |number|);
    forall i: nat | i < |number| ensures !Strings.OccursAt(s, " ", i) {
      assert s[i..i + 1][0] == number[i] && IsDigit(number[i]);
    }
    assert s[..|number|] == number && s[|number| + 1..] == unit;
  }

  /** No counted text reads as a clock: its last characters are the unit's. */
  lemma CountIsNoClock(n: nat, unit: TimeUnit)
    requires !unit.Milliseconds?
    ensures ReadClock(NatToString(n) + " " + UnitName(unit)).None?
  {
    var s := NatToString(n) + " " + UnitName(unit);
    if |s| >= 12 {
      assert s[|s| - 1] == 's';
      assert s[|s| - 3..][2] == 's';
      assert !IsDigit(s[|s| - 3..][2]);
    }
  }

  /** Durations whose text SQLite reads: all but clocks of 25 hours or more. */
  predicate IsRead(d: Duration)
  {
    d.unit.Milliseconds? ==> Magnitude(d.val) < 25 * 3600000
  }

  lemma ReadPrintedMilliseconds(val: nat)
    ensures Clock(val) != ""
    ensures ReadUnsigned(Clock(val)) == if val >= 25 * 3600000 then None else Some(Span("milliseconds", val))
  {
    ReadPrintedClock(val);
    ClockHasNoSpace(val);
    NoSpaceNoCount(Clock(val));
  }

  lemma ReadPrintedUnsigned(unit: TimeUnit, val: nat)
    ensures UnsignedText(unit, val) != ""
    ensures ReadUnsigned(UnsignedText(unit, val)) ==
            if unit.Milliseconds? && val >= 25 * 3600000 then None
            else Some(if unit.Weeks? then Span("days", 7 * val) else Span(UnitName(unit), val))
  {
    match unit
    case Milliseconds => ReadPrintedMilliseconds(val);
    case Weeks =>
      CountIsNoClock(val * 7, Days);
      ReadPrintedCount(val * 7, "days");
      assert NatToString(val * 7) + " " + "days" == NatToString(val * 7) + " days";
    case _ =>
      CountIsNoClock(val, unit);
      ReadPrintedCount(val, UnitName(unit));
  }

  lemma ReadSigned(negative: bool, body: string)
    requires body != ""
    ensures ReadSpan("'" + (if negative then "-" else "+") + body + "'") ==
            match ReadUnsigned(body)
            case Some(span) => Some(Span(span.unit, Signed(negative, span.count)))
            case None => None
  {
    var text := "'" + (if negative then "-" else "+") + body + "'";
    assert text[2..|text| - 1] == body;
  }

  /** The text of a duration denotes the duration, except that SQLite does not read the text of
      25 hours or more in milliseconds. */
  lemma SqliteTextReadsBack(d: Duration)
    requires Fits(d)
    ensures ReadSpan(SqliteText(d)) == if IsRead(d) then Some(SpanOf(d)) else None
  {
    ReadPrintedUnsigned(d.unit, Magnitude(d.val));
    ReadSigned(d.val < 0, UnsignedText(d.unit, Magnitude(d.val)));
  }

  /** The shortest such duration. */
  lemma TwentyFiveHoursAreNotRead()
    ensures ReadSpan(SqliteText(Duration(Milliseconds, 25 * 3600000))).None?
  {
    SqliteTextReadsBack(Duration(Milliseconds, 25 * 3600000));
  }

  // ------------------------------------------------------------------- MySQL's date_add

  /** One date_add around the other, the first duration innermost. */
  function Nested(date: string, durations: seq<string>): string
  {
    if durations == [] then date
    else
      var n := |durations| - 1;
      "date_add(" + Nested(date, durations[..n]) + ", " + durations[n] + ")"
  }

  function Openings(n: nat): seq<string> { if n == 0 then [] else Openings(n - 1) + ["date_add("] }

  /** date_plus_duration_to_sql: all openings, the date, then the durations. */
  function Flat(date: string, durations: seq<string>): string
  {
    Strings.Joined("", Openings(|durations|)) + date + ", " + Strings.Joined("), ", durations) + ")"
  }

  lemma OpeningsSnoc(n: nat)
    ensures Strings.Joined("", Openings(n + 1)) == Strings.Joined("", Openings(n)) + "date_add("
  {
    if n == 0 {
      assert Openings(1) == ["date_add("];
    } else {
      Strings.JoinedSnoc("", Openings(n), "date_add(");
    }
  }

  lemma {:induction false} OneMoreOpening(n: nat)
    ensures Strings.Joined("", Openings(n + 1)) == "date_add(" + Strings.Joined("", Openings(n))
  {
    OpeningsSnoc(n);
    if n > 0 {
      OneMoreOpening(n - 1);
      OpeningsSnoc(n - 1);
    }
  }

  lemma {:induction false} FlatIsNestedFor(date: string, durations: seq<string>)
    requires durations != []
    ensures Flat(date, durations) == Nested(date, durations)
  {
    var n := |durations| - 1;
    var before, last := durations[..n], durations[n];
    assert durations == before + [last];
    OneMoreOpening(n);
    if n == 0 {
      assert Strings.Joined("), ", durations) == last;
      assert Nested(date, before) == date;
      assert Strings.Joined("", Openings(0)) == "";
      assert "date_add(" + "" + date == "date_add(" + date;
    } else {
      FlatIsNestedFor(date, before);
      Strings.JoinedSnoc("), ", before, last);
      FlatShape(Strings.Joined("", Openings(n)), date, Strings.Joined("), ", before), last);
    }
  }

  lemma FlatShape(openings: string, date: string, joined: string, last: string)
    ensures ("date_add(" + openings) + date + ", " + (joined + "), " + last) + ")"
         == "date_add(" + (openings + date + ", " + joined + ")") + ", " + last + ")"
  {
  }

  /** The flat text is the nested one exactly if there is something to add. */
  lemma FlatIsNested(date: string, durations: seq<string>)
    ensures Flat(date, durations) == Nested(date, durations) <==> durations != []
  {
    if durations == [] {
      assert |Flat(date, durations)| > |Nested(date, durations)|;
    } else {
      FlatIsNestedFor(date, durations);
    }
  }

  // ------------------------------------------------------------------- operator+ on dates

  /** operator+ with a duration: onto a sum of a date and durations, one more duration. */
  function PlusDuration(o: Operation, d: Duration): Operation
  {
    if o.DatePlusDuration? then DatePlusDuration(o.date, o.durations + [d]) else DatePlusDuration(o, [d])
  }

  lemma {:induction false} EvalDurationsSnoc(ds: seq<Duration>, d: Duration)
    ensures EvalDurations(ds + [d]) == EvalDurations(ds) + [VDuration(d.unit, d.val)]
  {
    if ds == [] {
      assert [d][1..] == [];
    } else {
      EvalDurationsSnoc(ds[1..], d);
      assert (ds + [d])[1..] == ds[1..] + [d];
    }
  }

  lemma {:induction false} FoldSnoc(I: Interp, op: Named<ArithOp>, acc: Val, vs: seq<Val>, v: Val)
    ensures FoldValues(I, op, acc, vs + [v]) == I.binary(op, FoldValues(I, op, acc, vs), v)
    decreases |vs|
  {
    if vs == [] {
      assert [v][1..] == [];
    } else {
      assert (vs + [v])[1..] == vs[1..] + [v];
      FoldSnoc(I, op, I.binary(op, acc, vs[0]), vs[1..], v);
    }
  }

  function PlusDurations(o: Operation, ds: seq<Duration>): Operation
    decreases |ds|
  {
    if ds == [] then o else PlusDurations(PlusDuration(o, ds[0]), ds[1..])
  }

  /** However many durations are added one by one: there is one sum, of the date first added to,
      and it has those durations behind the ones it had. */
  lemma {:induction false} SumsStayFlat(o: Operation, ds: seq<Duration>)
    requires ds != []
    ensures PlusDurations(o, ds)
         == match o
            case DatePlusDuration(date, before) => DatePlusDuration(date, before + ds)
            case _ => DatePlusDuration(o, ds)
    decreases |ds|
  {
    if |ds| == 1 {
      assert ds == [ds[0]] && ds[1..] == [];
    } else {
      SumsStayFlat(PlusDuration(o, ds[0]), ds[1..]);
      assert ds == [ds[0]] + ds[1..];
      if o.DatePlusDuration? {
        assert o.durations + [ds[0]] + ds[1..] == o.durations + ds;
      }
    }
  }

  /** Flattening does not change the sum, nor the order in which the durations are added; a sum
      keeps its date and its durations. */
  lemma PlusDurationAdds(I: Interp, env: Env, o: Operation, d: Duration)
    ensures Eval(I, env, PlusDuration(o, d)) == I.binary(Known(Plus), Eval(I, env, o), VDuration(d.unit, d.val))
    ensures PlusDuration(o, d).DatePlusDuration?
    ensures o.DatePlusDuration? ==>
              && PlusDuration(o, d).date == o.date
              && PlusDuration(o, d).durations == o.durations + [d]
    ensures !o.DatePlusDuration? ==> PlusDuration(o, d).date == o
  {
    if o.DatePlusDuration? {
      EvalDurationsSnoc(o.durations, d);
      FoldSnoc(I, Known(Plus), Eval(I, env, o.date), EvalDurations(o.durations), VDuration(d.unit, d.val));
    } else {
      EvalDurationsSnoc([], d);
      FoldSnoc(I, Known(Plus), Eval(I, env, o), [], VDuration(d.unit, d.val));
      assert [] + [d] == [d] && [] + [VDuration(d.unit, d.val)] == [VDuration(d.unit, d.val)];
    }
  }
}
