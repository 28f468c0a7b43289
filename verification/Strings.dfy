/** The string helpers of src/sqlgen/internal/strings/strings.cpp: join, split and
    replace_all. Each in-place loop is proved against a recursive specification, and the
    three specifications are then related to one another. */
module Strings {

  /** True if `p` occurs in `s` at index `i`. */
  predicate OccursAt(s: string, p: string, i: nat)
  {
    i + |p| <= |s| && s[i..i + |p|] == p
  }

  /** std::string::find: the first occurrence at or after `pos`, or -1 for npos. */
  function Find(s: string, p: string, pos: nat): (r: int)
    ensures r == -1 || (pos <= r && OccursAt(s, p, r))
    ensures r == -1 ==> forall j: nat :: pos <= j ==> !OccursAt(s, p, j)
    ensures r != -1 ==> forall j: nat :: pos <= j < r ==> !OccursAt(s, p, j)
    decreases |s| - pos
  {
    if pos + |p| > |s| then -1
    else if OccursAt(s, p, pos) then pos
    else Find(s, p, pos + 1)
  }

  /** Searching from `pos` is searching the remaining text. */
  lemma {:induction false} FindInSuffix(s: string, p: string, pos: nat)
    requires pos <= |s|
    ensures Find(s, p, pos) == var r := Find(s[pos..], p, 0); if r == -1 then -1 else pos + r
  {
    var t := s[pos..];
    forall j: nat ensures OccursAt(t, p, j) <==> OccursAt(s, p, pos + j) {
      if j + |p| <= |t| {
        assert t[j..j + |p|] == s[pos + j..pos + j + |p|];
      }
    }
    var r, q := Find(t, p, 0), Find(s, p, pos);
    if q != -1 {
      assert OccursAt(t, p, q - pos);
      assert r != -1;
      assert OccursAt(s, p, pos + r);
    }
  }

  // ------------------------------------------------------------------- join

  function Joined(delimiter: string, strings: seq<string>): string
  {
    if strings == [] then ""
    else if |strings| == 1 then strings[0]
    else strings[0] + delimiter + Joined(delimiter, strings[1..])
  }

  lemma {:induction false} JoinedSnoc(delimiter: string, strings: seq<string>, last: string)
    requires strings != []
    ensures Joined(delimiter, strings + [last]) == Joined(delimiter, strings) + delimiter + last
  {
    if |strings| == 1 {
      assert (strings + [last])[1..] == [last];
    } else {
      assert (strings + [last])[1..] == strings[1..] + [last];
      JoinedSnoc(delimiter, strings[1..], last);
      var rest := Joined(delimiter, strings[1..]);
      assert strings[0] + delimiter + (rest + delimiter + last)
          == strings[0] + delimiter + rest + delimiter + last;
    }
  }

  method Join(delimiter: string, strings: seq<string>) returns (res: string)
    ensures res == Joined(delimiter, strings)
  {
    if |strings| == 0 {
      return "";
    }
    res := strings[0];
    for i := 1 to |strings|
      invariant res == Joined(delimiter, strings[..i])
    {
      assert strings[..i + 1] == strings[..i] + [strings[i]];
      JoinedSnoc(delimiter, strings[..i], strings[i]);
      assert res + (delimiter + strings[i]) == res + delimiter + strings[i];
      res := res + (delimiter + strings[i]);
    }
    assert strings[..|strings|] == strings;
  }

  // ------------------------------------------------------------------- split

  function Pieces(s: string, delimiter: string): (r: seq<string>)
    requires delimiter != ""
    ensures r != []
    decreases |s|
  {
    var i := Find(s, delimiter, 0);
    if i == -1 then [s] else [s[..i]] + Pieces(s[i + |delimiter|..], delimiter)
  }

  lemma {:induction false} FirstPiece(str: string, delimiter: string, pos: nat)
    requires delimiter != "" && Find(str, delimiter, 0) == pos
    ensures Pieces(str, delimiter) == [str[..pos]] + Pieces(str[pos + |delimiter|..], delimiter)
  {
  }

  lemma {:induction false} MovePiece(before: seq<string>, piece: string, rest: seq<string>)
    ensures before + ([piece] + rest) == (before + [piece]) + rest
  {
  }

  method Split(s: string, delimiter: string) returns (result: seq<string>)
    requires delimiter != ""
    ensures result == Pieces(s, delimiter)
  {
    var str := s;
    result := [];
    var pos := Find(str, delimiter, 0);
    while pos != -1
      invariant pos == Find(str, delimiter, 0)
      invariant result + Pieces(str, delimiter) == Pieces(s, delimiter)
      decreases |str|
    {
      FirstPiece(str, delimiter, pos);
      MovePiece(result, str[..pos], Pieces(str[pos + |delimiter|..], delimiter));
      result := result + [str[..pos]];
      str := str[pos + |delimiter|..];
      pos := Find(str, delimiter, 0);
    }
    result := result + [str];
  }

  // ------------------------------------------------------------------- replace_all

  function Replaced(s: string, from: string, to: string): string
    requires from != ""
    decreases |s|
  {
    var i := Find(s, from, 0);
    if i == -1 then s else s[..i] + to + Replaced(s[i + |from|..], from, to)
  }

  /** One replacement at `hit` keeps what the finished text will be. */
  lemma {:induction false} ReplaceStep(str: string, from: string, to: string, pos: nat, hit: nat)
    requires from != "" && pos <= |str| && Find(str, from, pos) == hit
    ensures str[..pos] + Replaced(str[pos..], from, to)
         == (str[..hit] + to) + Replaced(str[hit + |from|..], from, to)
  {
    var t, i := str[pos..], hit - pos;
    FindInSuffix(str, from, pos);
    Suffixes(str, pos, hit, |from|);
    var r := ReplacedFirst(t, from, to, i, str[hit + |from|..]);
    Regroup(str[..pos], t[..i], to, r);
  }

  lemma {:induction false} ReplacedFirst(t: string, from: string, to: string, i: nat, rest: string) returns (r: string)
    requires from != "" && Find(t, from, 0) == i && rest == t[i + |from|..]
    ensures r == Replaced(rest, from, to) && Replaced(t, from, to) == t[..i] + to + r
  {
    r := Replaced(rest, from, to);
  }

  lemma Suffixes(str: string, pos: nat, hit: nat, length: nat)
    requires pos <= hit && hit + length <= |str|
    ensures str[..pos] + str[pos..][..hit - pos] == str[..hit]
    ensures str[pos..][hit - pos + length..] == str[hit + length..]
  {
  }

  lemma Regroup(a: string, b: string, c: string, d: string)
    ensures a + (b + c + d) == (a + b + c) + d
  {
  }

  method ReplaceAll(s: string, from: string, to: string) returns (str: string)
    requires from != ""
    ensures str == Replaced(s, from, to)
  {
    str := s;
    var pos := 0;
    assert str[0..] == s;
    var hit := Find(str, from, pos);
    while hit != -1
      invariant 0 <= pos <= |str|
      invariant hit == Find(str, from, pos)
      invariant str[..pos] + Replaced(str[pos..], from, to) == Replaced(s, from, to)
      decreases |str| - pos
    {
      ReplaceStep(str, from, to, pos, hit);
      var next := str[..hit] + to + str[hit + |from|..];
      assert next[..hit + |to|] == str[..hit] + to;
      assert next[hit + |to|..] == str[hit + |from|..];
      str, pos := next, hit + |to|;
      hit := Find(str, from, pos);
    }
    FindInSuffix(str, from, pos);
    assert str[..pos] + str[pos..] == str;
  }

  // ------------------------------------------------------------------- laws

  /** replace_all is join after split, so in particular join undoes split. */
  lemma {:induction false} ReplaceIsJoinOfSplit(s: string, from: string, to: string)
    requires from != ""
    ensures Replaced(s, from, to) == Joined(to, Pieces(s, from))
    decreases |s|
  {
    var i := Find(s, from, 0);
    if i != -1 {
      var rest := s[i + |from|..];
      ReplaceIsJoinOfSplit(rest, from, to);
      assert ([s[..i]] + Pieces(rest, from))[1..] == Pieces(rest, from);
    }
  }

  lemma {:induction false} JoinUndoesSplit(s: string, delimiter: string)
    requires delimiter != ""
    ensures Joined(delimiter, Pieces(s, delimiter)) == s
    decreases |s|
  {
    var i := Find(s, delimiter, 0);
    if i != -1 {
      var rest := s[i + |delimiter|..];
      JoinUndoesSplit(rest, delimiter);
      assert ([s[..i]] + Pieces(rest, delimiter))[1..] == Pieces(rest, delimiter);
      assert s == s[..i] + delimiter + rest;
    }
  }

  /** The piece lists that split can produce: every separator is the first occurrence at or
      after the start of the piece before it, and the last piece contains none. */
  ghost predicate Separable(pieces: seq<string>, delimiter: string)
  {
    pieces != [] &&
    if |pieces| == 1 then Find(pieces[0], delimiter, 0) == -1
    else Find(pieces[0] + delimiter, delimiter, 0) == |pieces[0]| && Separable(pieces[1..], delimiter)
  }

  /** The first occurrence within p + d stays the first one when text is appended. */
  lemma FirstSeparator(p: string, d: string, rest: string)
    ensures (Find(p + d, d, 0) == |p|) <==> (Find(p + d + rest, d, 0) == |p|)
  {
    var short, long := p + d, p + d + rest;
    assert OccursAt(short, d, |p|) && OccursAt(long, d, |p|);
    forall j: nat | j <= |p| ensures OccursAt(short, d, j) <==> OccursAt(long, d, j) {
      assert long[j..j + |d|] == short[j..j + |d|];
    }
    var a, b := Find(short, d, 0), Find(long, d, 0);
    assert a <= |p| && b <= |p|;
    assert a != -1 && OccursAt(long, d, a);
    assert b != -1 && OccursAt(short, d, b);
  }

  /** Splitting a joined text behind its first piece. */
  lemma SplitFirst(p: string, d: string, rest: string)
    requires d != "" && Find(p + d, d, 0) == |p|
    ensures Pieces(p + d + rest, d) == [p] + Pieces(rest, d)
  {
    FirstSeparator(p, d, rest);
    var s := p + d + rest;
    assert s[..|p|] == p && s[|p| + |d|..] == rest;
  }

  lemma SplitElsewhere(p: string, d: string, rest: string)
    requires d != "" && Find(p + d, d, 0) != |p|
    ensures |Pieces(p + d + rest, d)[0]| != |p|
  {
    FirstSeparator(p, d, rest);
    var s := p + d + rest;
    assert OccursAt(s, d, |p|);
  }

  /** Split undoes join exactly on separable piece lists. */
  lemma {:induction false} SplitUndoesJoin(pieces: seq<string>, delimiter: string)
    requires delimiter != ""
    ensures Pieces(Joined(delimiter, pieces), delimiter) == pieces <==> Separable(pieces, delimiter)
  {
    if |pieces| >= 2 {
      SplitUndoesJoin(pieces[1..], delimiter);
      SplitUndoesOne(pieces[0], pieces[1..], delimiter, Joined(delimiter, pieces[1..]));
      assert pieces == [pieces[0]] + pieces[1..];
    }
  }

  lemma SplitUndoesOne(p: string, rest: seq<string>, delimiter: string, tail: string)
    requires delimiter != ""
    ensures Pieces(p + delimiter + tail, delimiter) == [p] + rest
       <==> Find(p + delimiter, delimiter, 0) == |p| && Pieces(tail, delimiter) == rest
  {
    if Find(p + delimiter, delimiter, 0) == |p| {
      SplitFirst(p, delimiter, tail);
      assert ([p] + Pieces(tail, delimiter))[1..] == Pieces(tail, delimiter) && ([p] + rest)[1..] == rest;
    } else {
      SplitElsewhere(p, delimiter, tail);
      assert ([p] + rest)[0] == p;
    }
  }
}
