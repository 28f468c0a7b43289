/** A lexer for the SQL expressions the library prints (section 5 of SQL-92; PostgreSQL
    documentation, section 4.1: quoted identifiers, standard-conforming strings, operators
    by longest match). It is the independent reader against which the printed text is
    judged. Lexing is the exact inverse of rendering a separated token list. */
module SqlLexer {
  import opened Wrappers
  import Strings
  import SqlTree

  datatype Token =
    | Word(w: string)
    | QuotedId(name: string)
    | Num(digits: string)
    | Str(value: string)
    | Op(symbol: string)
    | LParen | RParen | Comma | Dot
    | Bad

  /** A token, and whether white space stands before it. */
  datatype Lexeme = Lexeme(spaced: bool, token: Token)

  datatype Lexemes = End | More(head: Lexeme, tail: Lexemes)

  /** Puts a token in front, with or without a space before it. */
  function Tok(t: Token, k: Lexemes): Lexemes { More(Lexeme(false, t), k) }

  function Spc(t: Token, k: Lexemes): Lexemes { More(Lexeme(true, t), k) }

  // ------------------------------------------------------------------- characters

  datatype CharClass = WordClass | NumClass | OpClass

  predicate InClass(k: CharClass, c: char)
  {
    match k
    case WordClass => 'a' <= c <= 'z' || 'A' <= c <= 'Z' || c == '_' || '0' <= c <= '9'
    case NumClass => '0' <= c <= '9' || c == '.'
    case OpClass =>
      c == '+' || c == '-' || c == '*' || c == '/' || c == '<' || c == '>' || c == '=' || c == '!' || c == '|'
  }

  predicate IsWordStart(c: char) { InClass(WordClass, c) && !('0' <= c <= '9') }

  predicate AllIn(k: CharClass, s: string) { forall i :: 0 <= i < |s| ==> InClass(k, s[i]) }

  /** The length of the longest prefix of characters in one class. */
  function RunLength(k: CharClass, s: string): (n: nat)
    ensures n <= |s|
    ensures s != "" && InClass(k, s[0]) ==> n > 0
  {
    if s == "" || !InClass(k, s[0]) then 0 else 1 + RunLength(k, s[1..])
  }

  lemma {:induction false} RunStops(k: CharClass, run: string, rest: string)
    requires AllIn(k, run) && (rest == "" || !InClass(k, rest[0]))
    ensures RunLength(k, run + rest) == |run|
  {
    if run != "" {
      RunStops(k, run[1..], rest);
      assert (run + rest)[1..] == run[1..] + rest;
    } else {
      assert run + rest == rest;
    }
  }

  // ------------------------------------------------------------------- quoting

  /** Reads a quoted body behind its opening quote: a doubled quote stands for one. */
  function ScanQuoted(q: char, s: string): (r: Option<(string, string)>)
    ensures r.Some? ==> |r.value.1| < |s|
  {
    if s == "" then None
    else if s[0] != q then
      match ScanQuoted(q, s[1..])
      case None => None
      case Some(p) => Some(([s[0]] + p.0, p.1))
    else if |s| > 1 && s[1] == q then
      match ScanQuoted(q, s[2..])
      case None => None
      case Some(p) => Some(([q] + p.0, p.1))
    else Some(("", s[1..]))
  }

  lemma {:induction false} ScanPlain(q: char, body: string, rest: string)
    requires q !in body && (rest == "" || rest[0] != q)
    ensures ScanQuoted(q, body + ([q] + rest)) == Some((body, rest))
  {
    var s := body + ([q] + rest);
    if body == "" {
      assert s == [q] + rest && s[1..] == rest;
    } else {
      ScanPlain(q, body[1..], rest);
      assert s[1..] == body[1..] + ([q] + rest);
      assert [body[0]] + body[1..] == body;
    }
  }

  /** escape_single_quote doubles each quote and copies every other character. */
  lemma {:induction false} EscapeHead(c: char, s: string)
    ensures SqlTree.EscapeSingleQuote([c] + s)
         == (if c == '\'' then "''" else [c]) + SqlTree.EscapeSingleQuote(s)
  {
    var t := [c] + s;
    assert t[1..] == s;
    if c == '\'' {
      assert t[0..1] == "'";
      assert Strings.OccursAt(t, "'", 0);
      assert t[..0] == "";
    } else {
      Strings.FindInSuffix(t, "'", 1);
      assert !Strings.OccursAt(t, "'", 0);
      assert Strings.Find(t, "'", 0) == Strings.Find(t, "'", 1);
      var i := Strings.Find(s, "'", 0);
      if i != -1 {
        var tail := Strings.Replaced(s[i + 1..], "'", "''");
        assert t[..i + 1] == [c] + s[..i];
        assert t[i + 2..] == s[i + 1..];
        assert ([c] + s[..i]) + "''" + tail == [c] + (s[..i] + "''" + tail);
      }
    }
  }

  /** A string literal reads back to the string it was printed from, whatever it holds. */
  lemma {:induction false} ScanEscaped(s: string, rest: string)
    requires rest == "" || rest[0] != '\''
    ensures ScanQuoted('\'', SqlTree.EscapeSingleQuote(s) + ("'" + rest)) == Some((s, rest))
  {
    if s == "" {
      assert SqlTree.EscapeSingleQuote(s) == "";
      assert "" + ("'" + rest) == "'" + rest;
      assert ("'" + rest)[1..] == rest;
    } else {
      var c, e := s[0], SqlTree.EscapeSingleQuote(s[1..]);
      assert s == [c] + s[1..];
      EscapeHead(c, s[1..]);
      ScanEscaped(s[1..], rest);
      ScanOne(c, e, rest, s[1..]);
    }
  }

  lemma ScanOne(c: char, e: string, rest: string, tail: string)
    requires ScanQuoted('\'', e + ("'" + rest)) == Some((tail, rest))
    ensures ScanQuoted('\'', (if c == '\'' then "''" else [c]) + e + ("'" + rest)) == Some(([c] + tail, rest))
  {
    var text := (if c == '\'' then "''" else [c]) + e + ("'" + rest);
    if c == '\'' {
      assert text[2..] == e + ("'" + rest);
      assert text[0] == '\'' && text[1] == '\'';
    } else {
      assert text[1..] == e + ("'" + rest);
      assert text[0] == c;
    }
  }

  // ------------------------------------------------------------------- lexing

  function Lex(s: string): Lexemes { LexFrom(false, s) }

  function LexFrom(spaced: bool, s: string): Lexemes
    decreases |s|
  {
    if s == "" then End
    else if s[0] == ' ' then LexFrom(true, s[1..])
    else if s[0] == '(' then More(Lexeme(spaced, LParen), LexFrom(false, s[1..]))
    else if s[0] == ')' then More(Lexeme(spaced, RParen), LexFrom(false, s[1..]))
    else if s[0] == ',' then More(Lexeme(spaced, Comma), LexFrom(false, s[1..]))
    else if s[0] == '.' then More(Lexeme(spaced, Dot), LexFrom(false, s[1..]))
    else if s[0] == '"' then
      match ScanQuoted('"', s[1..])
      case None => More(Lexeme(spaced, Bad), End)
      case Some(p) => More(Lexeme(spaced, QuotedId(p.0)), LexFrom(false, p.1))
    else if s[0] == '\'' then
      match ScanQuoted('\'', s[1..])
      case None => More(Lexeme(spaced, Bad), End)
      case Some(p) => More(Lexeme(spaced, Str(p.0)), LexFrom(false, p.1))
    else if InClass(NumClass, s[0]) then
      var n := RunLength(NumClass, s);
      More(Lexeme(spaced, Num(s[..n])), LexFrom(false, s[n..]))
    else if IsWordStart(s[0]) then
      var n := RunLength(WordClass, s);
      More(Lexeme(spaced, Word(s[..n])), LexFrom(false, s[n..]))
    else if InClass(OpClass, s[0]) then
      var n := RunLength(OpClass, s);
      More(Lexeme(spaced, Op(s[..n])), LexFrom(false, s[n..]))
    else More(Lexeme(spaced, Bad), End)
  }

  // ------------------------------------------------------------------- rendering

  function TokenText(t: Token): string
  {
    match t
    case Word(w) => w
    case QuotedId(name) => SqlTree.WrapInQuotes(name)
    case Num(d) => d
    case Str(s) => "'" + SqlTree.EscapeSingleQuote(s) + "'"
    case Op(symbol) => symbol
    case LParen => "("
    case RParen => ")"
    case Comma => ","
    case Dot => "."
    case Bad => ""
  }

  function Render(ls: Lexemes): string
  {
    if ls.End? then ""
    else (if ls.head.spaced then " " else "") + TokenText(ls.head.token) + Render(ls.tail)
  }

  predicate GoodToken(t: Token)
  {
    match t
    case Word(w) => w != "" && AllIn(WordClass, w) && IsWordStart(w[0])
    case QuotedId(name) => '"' !in name
    case Num(d) => d != "" && AllIn(NumClass, d) && d[0] != '.'
    case Op(symbol) => symbol != "" && AllIn(OpClass, symbol)
    case Bad => false
    case _ => true
  }

  /** Which token may follow which without a space between them. */
  predicate MayTouch(a: Token, b: Token)
  {
    match a
    case Word(_) => !b.Word? && !b.Num? && !b.Str?
    case Num(_) => !b.Word? && !b.Num? && !b.Dot?
    case QuotedId(_) => !b.QuotedId?
    case Str(_) => !b.Str?
    case Op(_) => !b.Op?
    case _ => true
  }

  predicate Follows(a: Token, k: Lexemes)
  {
    k.More? ==> k.head.spaced || MayTouch(a, k.head.token)
  }

  /** No two tokens of the list can merge when it is written out. */
  predicate Separated(ls: Lexemes)
  {
    ls.More? ==> GoodToken(ls.head.token) && Follows(ls.head.token, ls.tail) && Separated(ls.tail)
  }

  /** The first character of a good token, by kind. */
  lemma TokenStart(t: Token)
    requires GoodToken(t)
    ensures TokenText(t) != ""
    ensures InClass(WordClass, TokenText(t)[0]) ==> t.Word? || t.Num?
    ensures InClass(NumClass, TokenText(t)[0]) ==> t.Num? || t.Dot?
    ensures InClass(OpClass, TokenText(t)[0]) ==> t.Op?
    ensures TokenText(t)[0] == '"' ==> t.QuotedId?
    ensures TokenText(t)[0] == '\'' ==> t.Str?
  {
  }

  /** Text that may stand behind a token without becoming part of it. */
  predicate Stops(t: Token, rest: string)
  {
    rest != "" ==>
      && (t.Word? ==> !InClass(WordClass, rest[0]))
      && (t.Num? ==> !InClass(NumClass, rest[0]))
      && (t.Op? ==> !InClass(OpClass, rest[0]))
      && (t.QuotedId? ==> rest[0] != '"')
      && (t.Str? ==> rest[0] != '\'')
  }

  lemma SeparatedStops(a: Token, k: Lexemes)
    requires Separated(k) && Follows(a, k)
    ensures Stops(a, Render(k))
  {
    if k.More? {
      var b := k.head.token;
      TokenStart(b);
      if k.head.spaced {
        assert Render(k)[0] == ' ';
      } else {
        assert Render(k)[0] == TokenText(b)[0];
      }
    }
  }

  /** Lexing undoes rendering: every separated token list is read back token by token. */
  lemma {:induction false} LexRender(ls: Lexemes)
    requires Separated(ls)
    ensures Lex(Render(ls)) == ls
  {
    if ls.More? {
      LexRender(ls.tail);
      SeparatedStops(ls.head.token, ls.tail);
      LexLexeme(ls.head.spaced, ls.head.token, Render(ls.tail));
    }
  }

  lemma LexLexeme(spaced: bool, t: Token, rest: string)
    requires GoodToken(t) && Stops(t, rest)
    ensures LexFrom(false, (if spaced then " " else "") + TokenText(t) + rest)
         == More(Lexeme(spaced, t), LexFrom(false, rest))
  {
    LexOne(spaced, t, rest);
    if spaced {
      LexSpaced(TokenText(t), rest);
    } else {
      assert "" + TokenText(t) + rest == TokenText(t) + rest;
    }
  }

  lemma LexSpaced(text: string, rest: string)
    ensures LexFrom(false, " " + text + rest) == LexFrom(true, text + rest)
  {
    assert (" " + text + rest)[1..] == text + rest;
  }

  /** One token is read off the front of the text. */
  lemma LexOne(spaced: bool, t: Token, rest: string)
    requires GoodToken(t) && Stops(t, rest)
    ensures LexFrom(spaced, TokenText(t) + rest) == More(Lexeme(spaced, t), LexFrom(false, rest))
  {
    match t
    case Word(w) => LexWord(spaced, w, rest);
    case Num(d) => LexNum(spaced, d, rest);
    case Op(symbol) => LexOp(spaced, symbol, rest);
    case QuotedId(name) => LexQuotedId(spaced, name, rest);
    case Str(value) => LexStr(spaced, value, rest);
    case LParen => assert ("(" + rest)[1..] == rest;
    case RParen => assert (")" + rest)[1..] == rest;
    case Comma => assert ("," + rest)[1..] == rest;
    case Dot => assert ("." + rest)[1..] == rest;
  }

  lemma LexWord(spaced: bool, w: string, rest: string)
    requires GoodToken(Word(w)) && Stops(Word(w), rest)
    ensures LexFrom(spaced, w + rest) == More(Lexeme(spaced, Word(w)), LexFrom(false, rest))
  {
    RunStops(WordClass, w, rest);
    var s := w + rest;
    assert s[0] == w[0] && s[..|w|] == w && s[|w|..] == rest;
  }

  lemma LexNum(spaced: bool, d: string, rest: string)
    requires GoodToken(Num(d)) && Stops(Num(d), rest)
    ensures LexFrom(spaced, d + rest) == More(Lexeme(spaced, Num(d)), LexFrom(false, rest))
  {
    RunStops(NumClass, d, rest);
    var s := d + rest;
    assert s[0] == d[0] && s[..|d|] == d && s[|d|..] == rest;
  }

  lemma LexOp(spaced: bool, symbol: string, rest: string)
    requires GoodToken(Op(symbol)) && Stops(Op(symbol), rest)
    ensures LexFrom(spaced, symbol + rest) == More(Lexeme(spaced, Op(symbol)), LexFrom(false, rest))
  {
    RunStops(OpClass, symbol, rest);
    var s := symbol + rest;
    assert s[0] == symbol[0] && s[..|symbol|] == symbol && s[|symbol|..] == rest;
  }

  lemma LexQuotedId(spaced: bool, name: string, rest: string)
    requires GoodToken(QuotedId(name)) && Stops(QuotedId(name), rest)
    ensures LexFrom(spaced, SqlTree.WrapInQuotes(name) + rest)
         == More(Lexeme(spaced, QuotedId(name)), LexFrom(false, rest))
  {
    ScanPlain('"', name, rest);
    var s := SqlTree.WrapInQuotes(name) + rest;
    assert s[0] == '"';
    assert s[1..] == name + (['"'] + rest);
  }

  lemma LexStr(spaced: bool, value: string, rest: string)
    requires Stops(Str(value), rest)
    ensures LexFrom(spaced, TokenText(Str(value)) + rest)
         == More(Lexeme(spaced, Str(value)), LexFrom(false, rest))
  {
    ScanEscaped(value, rest);
    LexLiteral(spaced, SqlTree.EscapeSingleQuote(value), value, rest);
  }

  lemma Regroup(a: string, b: string, c: string, d: string)
    ensures a + b + c + d == a + (b + (c + d))
  {
  }

  lemma LexLiteral(spaced: bool, escaped: string, value: string, rest: string)
    requires ScanQuoted('\'', escaped + ("'" + rest)) == Some((value, rest))
    ensures LexFrom(spaced, "'" + escaped + "'" + rest)
         == More(Lexeme(spaced, Str(value)), LexFrom(false, rest))
  {
    Regroup("'", escaped, "'", rest);
    LexQuote(spaced, escaped + ("'" + rest), value, rest);
  }

  lemma LexQuote(spaced: bool, body: string, value: string, rest: string)
    requires ScanQuoted('\'', body) == Some((value, rest))
    ensures LexFrom(spaced, "'" + body) == More(Lexeme(spaced, Str(value)), LexFrom(false, rest))
  {
    assert ("'" + body)[1..] == body;
  }
}
