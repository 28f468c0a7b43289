/** Rows sent to PostgreSQL by COPY: the encoder to_buffer (src/sqlgen/postgres/Connection.cpp)
    against the decoder that write_to_sql (src/sqlgen/postgres/to_sql.cpp) asks for. */
module Copy {
  import opened Wrappers
  import opened Rows
  import Strings

  /** The format is CSV with a tab as delimiter, ESC as NULL marker and BEL as quote, which is
      also the escape character. */
  const TAB: char := '\t'
  const LF: char := '\n'
  const CR: char := '\r'
  const BEL: char := '\U{07}'
  const ESC: char := '\U{1B}'

  // ------------------------------------------------------------------- the encoder

  function EditField(field: Option<string>): string
  {
    match field
    case None => [ESC]
    case Some(f) => if TAB in f then [BEL] + f + [BEL] else f
  }

  function EditFields(line: Row): (r: seq<string>)
    ensures |r| == |line|
  {
    if line == [] then [] else [EditField(line[0])] + EditFields(line[1..])
  }

  function ToBuffer(line: Row): string
  {
    Strings.Joined([TAB], EditFields(line)) + [LF]
  }

  /** What write_impl sends for all rows together. */
  function Encode(rows: seq<Row>): string
  {
    if rows == [] then [] else ToBuffer(rows[0]) + Encode(rows[1..])
  }

  lemma {:induction false} EncodeAppend(a: seq<Row>, b: seq<Row>)
    ensures Encode(a + b) == Encode(a) + Encode(b)
  {
    if a == [] {
      assert a + b == b;
    } else {
      EncodeAppend(a[1..], b);
      assert (a + b)[1..] == a[1..] + b;
    }
  }

  // ------------------------------------------------------------------- the decoder

  /** The line ending in use, known from the first line on. */
  datatype Eol = Unknown | Newline | Return | ReturnNewline

  datatype LineResult = Line(text: string, rest: string, eol: Eol) | EndMarker | BadLine

  /** Up to the next line ending outside quotes. */
  function ReadLine(s: string, eol: Eol, inQuote: bool): (r: LineResult)
    ensures r.Line? ==> |r.rest| <= |s| && (s != "" ==> |r.rest| < |s|)
  {
    if s == "" then Line("", "", eol)
    else if s[0] == CR && !inQuote then
      if eol.Newline? then BadLine
      else if eol.Return? then Line("", s[1..], eol)
      else if |s| > 1 && s[1] == LF then Line("", s[2..], ReturnNewline)
      else if eol.ReturnNewline? then BadLine
      else Line("", s[1..], Return)
    else if s[0] == LF && !inQuote then
      if eol.Return? || eol.ReturnNewline? then BadLine else Line("", s[1..], Newline)
    else
      match ReadLine(s[1..], eol, if s[0] == BEL then !inQuote else inQuote)
      case Line(text, rest, eol') => Line([s[0]] + text, rest, eol')
      case other => other
  }

  /** A line of a backslash and a dot alone ends the data. */
  function NextLine(s: string, eol: Eol): (r: LineResult)
    requires s != ""
    ensures r.Line? ==> |r.rest| < |s|
  {
    if |s| > 2 && s[..2] == "\\." && (s[2] == CR || s[2] == LF) then
      if (eol.Newline? && s[2] == CR) || ((eol.Return? || eol.ReturnNewline?) && s[2] == LF) then BadLine
      else EndMarker
    else ReadLine(s, eol, false)
  }

  /** A field without its quotes; whether it had any; and whether another field follows. */
  datatype FieldResult = Field(text: string, sawQuote: bool, more: bool, rest: string) | BadField

  function ReadField(s: string, inQuote: bool): (r: FieldResult)
    ensures r.Field? ==> |r.rest| <= |s| && (r.more ==> |r.rest| < |s|)
    decreases |s|
  {
    if s == "" then if inQuote then BadField else Field("", false, false, "")
    else if !inQuote then
      if s[0] == TAB then Field("", false, true, s[1..])
      else if s[0] == BEL then
        match ReadField(s[1..], true)
        case Field(text, _, more, rest) => Field(text, true, more, rest)
        case BadField => BadField
      else Prepend(s[0], ReadField(s[1..], false))
    else if s[0] != BEL then Prepend(s[0], ReadField(s[1..], true))
    else if |s| > 1 && s[1] == BEL then Prepend(BEL, ReadField(s[2..], true))
    else ReadField(s[1..], false)
  }

  function Prepend(c: char, r: FieldResult): FieldResult
  {
    match r
    case Field(text, sawQuote, more, rest) => Field([c] + text, sawQuote, more, rest)
    case BadField => BadField
  }

  function FieldValue(text: string, sawQuote: bool): Option<string>
  {
    if !sawQuote && text == [ESC] then None else Some(text)
  }

  function ReadFields(s: string): Option<Row>
    decreases |s|
  {
    match ReadField(s, false)
    case BadField => None
    case Field(text, sawQuote, more, rest) =>
      if !more then Some([FieldValue(text, sawQuote)])
      else
        match ReadFields(rest)
        case None => None
        case Some(fields) => Some([FieldValue(text, sawQuote)] + fields)
  }

  /** The rows of a table of n columns; None if COPY fails. */
  function Decode(s: string, n: nat, eol: Eol): Option<seq<Row>>
    decreases |s|
  {
    if s == "" then Some([])
    else
      match NextLine(s, eol)
      case BadLine => None
      case EndMarker => Some([])
      case Line(text, rest, eol') =>
        var fields, rows := ReadFields(text), Decode(rest, n, eol');
        if fields.Some? && |fields.value| == n && rows.Some? then Some([fields.value] + rows.value) else None
  }

  // ------------------------------------------------------------------- which rows are safe

  predicate HasLineBreak(f: string) { CR in f || LF in f }

  /** No BEL; and unless quoted, which only a tab brings about, no line break and not the NULL
      marker. */
  predicate FieldSafe(field: Option<string>)
  {
    field.Some? ==>
      && BEL !in field.value
      && (TAB in field.value || (!HasLineBreak(field.value) && field.value != [ESC]))
  }

  predicate FieldsSafe(line: Row) { line == [] || (FieldSafe(line[0]) && FieldsSafe(line[1..])) }

  predicate IsEndMarker(line: Row) { line == [Some("\\.")] }

  predicate RowsSafe(rows: seq<Row>)
  {
    rows == [] || (FieldsSafe(rows[0]) && !IsEndMarker(rows[0]) && RowsSafe(rows[1..]))
  }

  predicate Rectangular(rows: seq<Row>, n: nat)
  {
    forall k :: 0 <= k < |rows| ==> |rows[k]| == n
  }

  // ------------------------------------------------------------------- safe rows are read back

  /** No line break outside quotes. */
  predicate Quiet(s: string, inQuote: bool)
  {
    s == "" || ((inQuote || (s[0] != CR && s[0] != LF)) && Quiet(s[1..], if s[0] == BEL then !inQuote else inQuote))
  }

  /** Whether we are in quotes after the text. */
  predicate QuoteAfter(s: string, inQuote: bool)
  {
    if s == "" then inQuote else QuoteAfter(s[1..], if s[0] == BEL then !inQuote else inQuote)
  }

  lemma {:induction false} QuietAppend(s: string, t: string, inQuote: bool)
    ensures Quiet(s + t, inQuote) <==> Quiet(s, inQuote) && Quiet(t, QuoteAfter(s, inQuote))
    ensures QuoteAfter(s + t, inQuote) == QuoteAfter(t, QuoteAfter(s, inQuote))
  {
    if s == "" {
      assert s + t == t;
    } else {
      assert (s + t)[1..] == s[1..] + t;
      QuietAppend(s[1..], t, if s[0] == BEL then !inQuote else inQuote);
    }
  }

  lemma {:induction false} ReadQuietLine(s: string, rest: string, eol: Eol, inQuote: bool)
    requires Quiet(s, inQuote) && !QuoteAfter(s, inQuote) && (eol.Unknown? || eol.Newline?)
    ensures ReadLine(s + [LF] + rest, eol, inQuote) == Line(s, rest, Newline)
  {
    var whole := s + [LF] + rest;
    if s == "" {
      assert whole[0] == LF && whole[1..] == rest;
    } else {
      assert whole[0] == s[0] && whole[1..] == s[1..] + [LF] + rest;
      ReadQuietLine(s[1..], rest, eol, if s[0] == BEL then !inQuote else inQuote);
    }
  }

  lemma {:induction false} PlainIsQuiet(s: string, inQuote: bool)
    requires BEL !in s && (inQuote || !HasLineBreak(s))
    ensures Quiet(s, inQuote) && QuoteAfter(s, inQuote) == inQuote
  {
    if s != "" {
      assert forall c :: c in s[1..] ==> c in s;
      PlainIsQuiet(s[1..], inQuote);
    }
  }

  lemma EditedIsQuiet(field: Option<string>)
    requires FieldSafe(field)
    ensures Quiet(EditField(field), false) && !QuoteAfter(EditField(field), false)
  {
    match field
    case None => PlainIsQuiet([ESC], false);
    case Some(f) =>
      if TAB in f {
        PlainIsQuiet(f, true);
        QuietAppend([BEL], f, false);
        QuietAppend([BEL] + f, [BEL], false);
      } else {
        PlainIsQuiet(f, false);
      }
  }

  lemma {:induction false} JoinedIsQuiet(line: Row)
    requires FieldsSafe(line)
    ensures Quiet(Strings.Joined([TAB], EditFields(line)), false)
         && !QuoteAfter(Strings.Joined([TAB], EditFields(line)), false)
  {
    if |line| == 1 {
      EditedIsQuiet(line[0]);
    } else if |line| > 1 {
      EditedIsQuiet(line[0]);
      JoinedIsQuiet(line[1..]);
      var first, tail := EditField(line[0]), Strings.Joined([TAB], EditFields(line[1..]));
      assert EditFields(line)[1..] == EditFields(line[1..]);
      QuietAppend(first, [TAB], false);
      QuietAppend(first + [TAB], tail, false);
    }
  }

  // What reading the fields gives back.

  /** A field's own text is followed by the end of the line or by a tab. */
  predicate FieldEnd(t: string) { t == "" || t[0] == TAB }

  function FieldEnded(text: string, sawQuote: bool, t: string): FieldResult
    requires FieldEnd(t)
  {
    if t == "" then Field(text, sawQuote, false, "") else Field(text, sawQuote, true, t[1..])
  }

  lemma {:induction false} ReadPlainField(f: string, t: string)
    requires BEL !in f && TAB !in f && FieldEnd(t)
    ensures ReadField(f + t, false) == FieldEnded(f, false, t)
  {
    if f == "" {
      assert f + t == t;
    } else {
      assert (f + t)[0] == f[0] && (f + t)[1..] == f[1..] + t;
      assert forall c :: c in f[1..] ==> c in f;
      ReadPlainField(f[1..], t);
    }
  }

  lemma {:induction false} ReadQuotedField(f: string, t: string)
    requires BEL !in f && FieldEnd(t)
    ensures ReadField(f + [BEL] + t, true) == FieldEnded(f, false, t)
  {
    var whole := f + [BEL] + t;
    if f == "" {
      assert whole[0] == BEL && whole[1..] == t;
      ReadPlainField("", t);
      assert "" + t == t;
    } else {
      assert whole[0] == f[0] && whole[1..] == f[1..] + [BEL] + t;
      assert forall c :: c in f[1..] ==> c in f;
      ReadQuotedField(f[1..], t);
    }
  }

  /** A safe field is read back with its value. */
  lemma ReadEditedField(field: Option<string>, t: string)
    requires FieldSafe(field) && FieldEnd(t)
    ensures var r := ReadField(EditField(field) + t, false);
            && r.Field? && FieldValue(r.text, r.sawQuote) == field
            && (if t == "" then !r.more else r.more && r.rest == t[1..])
  {
    match field
    case None => ReadPlainField([ESC], t);
    case Some(f) =>
      if TAB in f {
        var whole := [BEL] + f + [BEL] + t;
        assert whole[1..] == f + [BEL] + t;
        ReadQuotedField(f, t);
      } else {
        ReadPlainField(f, t);
      }
  }

  lemma ReadLastField(field: Option<string>)
    requires FieldSafe(field)
    ensures ReadFields(EditField(field)) == Some([field])
  {
    ReadEditedField(field, "");
    assert EditField(field) + "" == EditField(field);
  }

  lemma ReadNextField(field: Option<string>, tail: string)
    requires FieldSafe(field)
    ensures ReadFields(EditField(field) + [TAB] + tail) ==
            match ReadFields(tail)
            case None => None
            case Some(fields) => Some([field] + fields)
  {
    ReadEditedField(field, [TAB] + tail);
    assert ([TAB] + tail)[1..] == tail;
    assert EditField(field) + ([TAB] + tail) == EditField(field) + [TAB] + tail;
  }

  lemma {:induction false} ReadSafeFields(line: Row)
    requires FieldsSafe(line) && line != []
    ensures ReadFields(Strings.Joined([TAB], EditFields(line))) == Some(line)
  {
    assert EditFields(line)[1..] == EditFields(line[1..]);
    assert line == [line[0]] + line[1..];
    if |line| == 1 {
      assert line == [line[0]] && EditFields(line)[0] == EditField(line[0]);
      ReadLastField(line[0]);
    } else {
      ReadNextField(line[0], Strings.Joined([TAB], EditFields(line[1..])));
      ReadSafeFields(line[1..]);
    }
  }

  /** The encoded row starts like an end marker only if it is one. */
  lemma EndMarkerOnlyAlone(line: Row, rest: string)
    requires FieldsSafe(line) && line != [] && !IsEndMarker(line)
    ensures var s := ToBuffer(line) + rest; !(|s| > 2 && s[..2] == "\\." && (s[2] == CR || s[2] == LF))
  {
    var joined := Strings.Joined([TAB], EditFields(line));
    var s := ToBuffer(line) + rest;
    if |s| > 2 && s[..2] == "\\." && (s[2] == CR || s[2] == LF) {
      JoinedIsQuiet(line);
      assert s[0] == '\\' && s[1] == '.';
      assert forall i :: 0 <= i < |joined| ==> s[i] == joined[i];
      assert s[|joined|] == LF;
      if |joined| > 2 {
        QuietStart(joined);
      }
      assert joined == "\\.";
      ReadPlainField("\\.", "");
      assert "\\." + "" == "\\.";
      ReadSafeFields(line);
    }
  }

  lemma QuietStart(s: string)
    requires |s| > 2 && s[0] == '\\' && s[1] == '.' && Quiet(s, false)
    ensures s[2] != CR && s[2] != LF
  {
    assert s[1..][0] == '.' && s[1..][1..][0] == s[2];
    assert Quiet(s[1..], false) && Quiet(s[1..][1..], false);
  }

  /** A safe row is read back; reading goes on behind it. */
  lemma DecodeSafeRow(line: Row, rest: string, n: nat, eol: Eol)
    requires FieldsSafe(line) && |line| == n > 0 && !IsEndMarker(line) && (eol.Unknown? || eol.Newline?)
    ensures Decode(ToBuffer(line) + rest, n, eol) ==
            match Decode(rest, n, Newline)
            case None => None
            case Some(rows) => Some([line] + rows)
  {
    var joined := Strings.Joined([TAB], EditFields(line));
    JoinedIsQuiet(line);
    ReadQuietLine(joined, rest, eol, false);
    ReadSafeFields(line);
    EndMarkerOnlyAlone(line, rest);
  }

  lemma {:induction false} SafeRowsAreReadBack(rows: seq<Row>, n: nat, eol: Eol)
    requires RowsSafe(rows) && Rectangular(rows, n) && n > 0 && (eol.Unknown? || eol.Newline?)
    ensures Decode(Encode(rows), n, eol) == Some(rows)
  {
    if rows != [] {
      var first, rest := rows[0], rows[1..];
      assert forall k :: 0 <= k < |rest| ==> rest[k] == rows[k + 1];
      SafeRowsAreReadBack(rest, n, Newline);
      SafeRowInFront(first, rest, n, eol);
      assert rows == [first] + rest;
    }
  }

  lemma SafeRowInFront(first: Row, rest: seq<Row>, n: nat, eol: Eol)
    requires FieldsSafe(first) && |first| == n > 0 && !IsEndMarker(first) && (eol.Unknown? || eol.Newline?)
    requires Decode(Encode(rest), n, Newline) == Some(rest)
    ensures Decode(Encode([first] + rest), n, eol) == Some([first] + rest)
  {
    DecodeSafeRow(first, Encode(rest), n, eol);
    assert ([first] + rest)[1..] == rest;
  }

  // ------------------------------------------------------------------- no other rows are

  function Bells(s: string): nat
  {
    if s == "" then 0 else (if s[0] == BEL then 1 else 0) + Bells(s[1..])
  }

  lemma {:induction false} BellsAppend(s: string, t: string)
    ensures Bells(s + t) == Bells(s) + Bells(t)
  {
    if s == "" {
      assert s + t == t;
    } else {
      assert (s + t)[1..] == s[1..] + t;
      BellsAppend(s[1..], t);
    }
  }

  lemma {:induction false} NoBells(s: string)
    ensures Bells(s) == 0 <==> BEL !in s
  {
    if s != "" {
      NoBells(s[1..]);
      assert s == [s[0]] + s[1..];
    }
  }

  /** What the decoder can only produce from a quoted section. */
  predicate NeedsQuote(field: Option<string>)
  {
    field.Some? && (TAB in field.value || HasLineBreak(field.value) || field.value == [ESC])
  }

  /** The bells the decoder must have read to produce a field: two around a quoted section, and
      two for every bell inside. */
  function Cost(field: Option<string>): nat
  {
    (if NeedsQuote(field) then 2 else 0) + (if field.Some? then 2 * Bells(field.value) else 0)
  }

  /** The bells the encoder writes for a field. */
  function Spent(field: Option<string>): nat
  {
    if field.Some? then (if TAB in field.value then 2 else 0) + Bells(field.value) else 0
  }

  function TotalCost(line: Row): nat { if line == [] then 0 else Cost(line[0]) + TotalCost(line[1..]) }

  function TotalSpent(line: Row): nat { if line == [] then 0 else Spent(line[0]) + TotalSpent(line[1..]) }

  function RowsCost(rows: seq<Row>): nat { if rows == [] then 0 else TotalCost(rows[0]) + RowsCost(rows[1..]) }

  function RowsSpent(rows: seq<Row>): nat { if rows == [] then 0 else TotalSpent(rows[0]) + RowsSpent(rows[1..]) }

  lemma {:induction false} JoinedBells(line: Row)
    ensures Bells(Strings.Joined([TAB], EditFields(line))) == TotalSpent(line)
  {
    if line != [] {
      var first := EditField(line[0]);
      FieldBells(line[0]);
      if |line| == 1 {
        assert line[1..] == [];
      } else {
        var tail := Strings.Joined([TAB], EditFields(line[1..]));
        assert EditFields(line)[1..] == EditFields(line[1..]);
        JoinedBells(line[1..]);
        BellsAppend(first, [TAB]);
        BellsAppend(first + [TAB], tail);
      }
    }
  }

  lemma FieldBells(field: Option<string>)
    ensures Bells(EditField(field)) == Spent(field)
  {
    if field.Some? && TAB in field.value {
      BellsAppend([BEL], field.value);
      BellsAppend([BEL] + field.value, [BEL]);
    }
  }

  lemma {:induction false} EncodeBells(rows: seq<Row>)
    ensures Bells(Encode(rows)) == RowsSpent(rows)
  {
    if rows != [] {
      var joined := Strings.Joined([TAB], EditFields(rows[0]));
      JoinedBells(rows[0]);
      EncodeBells(rows[1..]);
      BellsAppend(joined, [LF]);
      BellsAppend(joined + [LF], Encode(rows[1..]));
    }
  }

  /** A line has no line break outside quotes, and takes its bells from the text. */
  lemma {:induction false} LineBells(s: string, eol: Eol, inQuote: bool)
    requires ReadLine(s, eol, inQuote).Line?
    ensures var r := ReadLine(s, eol, inQuote); Quiet(r.text, inQuote) && Bells(s) >= Bells(r.text) + Bells(r.rest)
  {
    if s == "" {
    } else if s[0] == CR && !inQuote {
      if |s| > 1 {
        assert s[1..][1..] == s[2..];
      }
    } else if s[0] == LF && !inQuote {
    } else {
      LineBells(s[1..], eol, if s[0] == BEL then !inQuote else inQuote);
      var r := ReadLine(s[1..], eol, if s[0] == BEL then !inQuote else inQuote);
      assert ([s[0]] + r.text)[1..] == r.text;
    }
  }

  /** A field and the rest of its line account for the bells. */
  lemma {:induction false} FieldCost(s: string, inQuote: bool)
    requires Quiet(s, inQuote) && ReadField(s, inQuote).Field?
    ensures var r := ReadField(s, inQuote);
            && Quiet(r.rest, false)
            && Bells(s) >= (if inQuote then 1 else 0) + (if r.sawQuote then 2 else 0) + 2 * Bells(r.text)
                + Bells(r.rest)
            && (!inQuote && !r.sawQuote ==> TAB !in r.text && !HasLineBreak(r.text))
    decreases |s|
  {
    if s != "" {
      if !inQuote && s[0] != TAB {
        FieldCost(s[1..], s[0] == BEL);
      } else if inQuote && s[0] != BEL {
        FieldCost(s[1..], true);
      } else if inQuote && |s| > 1 && s[1] == BEL {
        assert s[1..][1..] == s[2..];
        FieldCost(s[2..], true);
      } else if inQuote {
        FieldCost(s[1..], false);
      }
      assert forall text: string :: ([s[0]] + text)[1..] == text;
    }
  }

  lemma {:induction false} FieldsCost(s: string)
    requires Quiet(s, false) && ReadFields(s).Some?
    ensures Bells(s) >= TotalCost(ReadFields(s).value)
    decreases |s|
  {
    FieldCost(s, false);
    var r := ReadField(s, false);
    var field := FieldValue(r.text, r.sawQuote);
    assert Bells(s) >= Cost(field) + Bells(r.rest);
    if r.more {
      FieldsCost(r.rest);
      assert ([field] + ReadFields(r.rest).value)[1..] == ReadFields(r.rest).value;
    } else {
      assert [field][1..] == [];
    }
  }

  lemma {:induction false} DecodeCost(s: string, n: nat, eol: Eol)
    requires Decode(s, n, eol).Some?
    ensures Bells(s) >= RowsCost(Decode(s, n, eol).value)
    decreases |s|
  {
    if s != "" {
      match NextLine(s, eol)
      case EndMarker =>
      case Line(text, rest, eol') =>
        LineBells(s, eol, false);
        FieldsCost(text);
        DecodeCost(rest, n, eol');
        var fields, rows := ReadFields(text).value, Decode(rest, n, eol').value;
        assert ([fields] + rows)[1..] == rows;
    }
  }

  /** No field costs less than was spent on it, and only safe ones cost no more. */
  lemma CostCoversSpent(field: Option<string>)
    ensures Spent(field) <= Cost(field) && (Spent(field) == Cost(field) ==> FieldSafe(field))
  {
    if field.Some? {
      NoBells(field.value);
    }
  }

  lemma {:induction false} LineCostCoversSpent(line: Row)
    ensures TotalSpent(line) <= TotalCost(line) && (TotalSpent(line) == TotalCost(line) ==> FieldsSafe(line))
  {
    if line != [] {
      CostCoversSpent(line[0]);
      LineCostCoversSpent(line[1..]);
    }
  }

  predicate AllFieldsSafe(rows: seq<Row>) { rows == [] || (FieldsSafe(rows[0]) && AllFieldsSafe(rows[1..])) }

  lemma {:induction false} RowsCostCoversSpent(rows: seq<Row>)
    ensures RowsSpent(rows) <= RowsCost(rows) && (RowsSpent(rows) == RowsCost(rows) ==> AllFieldsSafe(rows))
  {
    if rows != [] {
      LineCostCoversSpent(rows[0]);
      RowsCostCoversSpent(rows[1..]);
    }
  }

  /** A row that reads as an end marker cuts off what follows. */
  lemma {:induction false} MarkerCutsOff(rows: seq<Row>, n: nat, eol: Eol)
    requires AllFieldsSafe(rows) && !RowsSafe(rows) && Rectangular(rows, n) && n > 0 && (eol.Unknown? || eol.Newline?)
    ensures Decode(Encode(rows), n, eol).Some? && |Decode(Encode(rows), n, eol).value| < |rows|
  {
    if IsEndMarker(rows[0]) {
      var s := Encode(rows);
      assert EditFields([Some("\\.")]) == ["\\."] + EditFields([]);
      assert EditFields(rows[0]) == ["\\."];
      assert ToBuffer(rows[0]) == "\\." + [LF];
      assert s[..2] == "\\." && s[2] == LF;
    } else {
      DecodeSafeRow(rows[0], Encode(rows[1..]), n, eol);
      assert forall k :: 0 <= k < |rows[1..]| ==> rows[1..][k] == rows[k + 1];
      MarkerCutsOff(rows[1..], n, Newline);
    }
  }

  /** COPY gives back exactly the rows that were sent, NULLs included, if and only if every
      field is safe and no row is a lone backslash and dot. */
  lemma CopyRoundTrip(rows: seq<Row>, n: nat)
    requires Rectangular(rows, n) && n > 0
    ensures Decode(Encode(rows), n, Unknown) == Some(rows) <==> RowsSafe(rows)
  {
    if RowsSafe(rows) {
      SafeRowsAreReadBack(rows, n, Unknown);
    } else if Decode(Encode(rows), n, Unknown) == Some(rows) {
      EncodeBells(rows);
      DecodeCost(Encode(rows), n, Unknown);
      RowsCostCoversSpent(rows);
      MarkerCutsOff(rows, n, Unknown);
    }
  }

  // ------------------------------------------------------------------- what becomes of the others

  lemma OneField(f: string)
    requires TAB !in f
    ensures Encode([[Some(f)]]) == f + [LF]
  {
    assert [Some(f)][1..] == [];
    assert EditFields([Some(f)]) == [f];
    assert Encode([[Some(f)]]) == ToBuffer([Some(f)]) + Encode([]);
  }

  /** The text ESC comes back as NULL. */
  lemma EscapeBecomesNull()
    ensures Decode(Encode([[Some([ESC])]]), 1, Unknown) == Some([[None]])
  {
    OneField([ESC]);
    assert EditFields([None]) == [[ESC]] + EditFields([]);
    assert Encode([[None]]) == [ESC] + [LF] + Encode([]);
    SafeRowsAreReadBack([[None]], 1, Unknown);
  }

  /** A line break comes back as the end of the row. */
  lemma LineBreakSplitsRow()
    ensures Decode(Encode([[Some("a\nb")]]), 1, Unknown) == Some([[Some("a")], [Some("b")]])
  {
    var rows: seq<Row> := [[Some("a")], [Some("b")]];
    OneField("a\nb");
    OneField("a");
    OneField("b");
    assert rows == [[Some("a")]] + [[Some("b")]];
    EncodeAppend([[Some("a")]], [[Some("b")]]);
    assert "a\nb" + [LF] == "a" + [LF] + ("b" + [LF]);
    SafeRowsAreReadBack(rows, 1, Unknown);
  }

  /** A BEL opens a quoted section that never ends: COPY fails. */
  lemma BellFails()
    ensures Decode(Encode([[Some([BEL])]]), 1, Unknown) == None
  {
    OneField([BEL]);
    var s := [BEL, LF];
    assert [BEL] + [LF] == s && s[1..] == [LF] && [LF][1..] == "";
    assert ReadLine([LF], Unknown, true) == Line([LF] + "", "", Unknown);
    assert ReadLine(s, Unknown, false) == Line([BEL] + ([LF] + ""), "", Unknown);
    assert [BEL] + ([LF] + "") == s;
    assert ReadField([LF], true) == BadField;
    assert ReadField(s, false) == BadField;
  }
}
