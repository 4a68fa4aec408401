/** The two character scanners of the policy parser: comments and top-level commas. */
module Scanner {
  import opened Text
  import Json

  /** What both scanners track: the previous character and the quote toggle. */
  datatype Lex = Lex(prev: char, quoted: bool)

  /** A `"` toggles unless the character before it is a backslash. */
  function Next(lex: Lex, c: char): Lex {
    Lex(c, if c == '"' && lex.prev != '\\' then !lex.quoted else lex.quoted)
  }

  function LexAll(lex: Lex, t: string): Lex
    decreases t
  {
    if t == "" then lex else LexAll(Next(lex, t[0]), t[1..])
  }

  /** Any previous character other than a backslash acts like the start of the text. */
  const START := Lex(' ', false)

  // ----- comments -----

  /** A comment that ends just before index `n`. */
  predicate EndsAt(t: string, n: nat) { 2 <= n <= |t| && t[n - 2] == '*' && t[n - 1] == ')' }

  /** Index just after the first `*)`, or `None` for an unclosed comment. */
  function CommentEnd(t: string): (r: Option<nat>)
    ensures r.Some? ==> EndsAt(t, r.value) && forall m :: 0 <= m < r.value ==> !EndsAt(t, m)
    ensures r.None? ==> forall m :: 0 <= m <= |t| ==> !EndsAt(t, m)
  {
    if |t| < 2 then None
    else if t[0] == '*' && t[1] == ')' then Some(2)
    else
      assert forall m :: 0 <= m <= |t| ==> (EndsAt(t, m) <==> m > 2 && EndsAt(t[1..], m - 1));
      match CommentEnd(t[1..])
      case None => None
      case Some(n) => Some(n + 1)
  }

  function Strip(lex: Lex, t: string): string
    decreases |t|
  {
    if t == "" then ""
    else if !lex.quoted && t[0] == '(' && |t| > 1 && t[1] == '*' then
      match CommentEnd(t[2..])
      case None => " "
      case Some(n) => " " + Strip(Lex(')', false), t[2 + n..])
    else [t[0]] + Strip(Next(lex, t[0]), t[1..])
  }

  /** The scanner's state at index `i` of the text it reads. */
  function At(source: string, i: nat, quoted: bool): Lex
    requires i <= |source|
  {
    Lex(if i == 0 then ' ' else source[i - 1], quoted)
  }

  predicate CommentAt(source: string, i: nat, quoted: bool) {
    !quoted && i + 1 < |source| && source[i] == '(' && source[i + 1] == '*'
  }

  lemma StripComment(source: string, i: nat)
    requires CommentAt(source, i, false)
    ensures match CommentEnd(source[i + 2..])
      case None => Strip(At(source, i, false), source[i..]) == " "
      case Some(n) =>
        Strip(At(source, i, false), source[i..]) == " " + Strip(At(source, i + 2 + n, false), source[i + 2 + n..])
  {
    var t := source[i..];
    assert t[0] == '(' && t[1] == '*' && t[2..] == source[i + 2..];
    var end := CommentEnd(t[2..]);
    if end.Some? {
      assert t[2 + end.value..] == source[i + 2 + end.value..];
      assert t[2..][end.value - 1] == source[i + 1 + end.value];
    }
  }

  lemma StripChar(source: string, i: nat, quoted: bool)
    requires i < |source| && !CommentAt(source, i, quoted)
    ensures Strip(At(source, i, quoted), source[i..])
         == [source[i]] + Strip(Next(At(source, i, quoted), source[i]), source[i + 1..])
  {
    var t := source[i..];
    assert t[0] == source[i] && t[1..] == source[i + 1..];
    assert |t| > 1 ==> t[1] == source[i + 1];
  }

  /** The text still to come at index `i`. */
  function StripFrom(source: string, i: nat, quoted: bool): string
    requires i <= |source|
    decreases |source| - i
  {
    if i == |source| then ""
    else if CommentAt(source, i, quoted) then
      match CommentEnd(source[i + 2..])
      case None => " "
      case Some(n) => " " + StripFrom(source, i + 2 + n, quoted)
    else [source[i]] + StripFrom(source, i + 1, Next(At(source, i, quoted), source[i]).quoted)
  }

  lemma {:induction false} StripFromIsStrip(source: string, i: nat, quoted: bool)
    requires i <= |source|
    ensures StripFrom(source, i, quoted) == Strip(At(source, i, quoted), source[i..])
    decreases |source| - i
  {
    if i < |source| {
      if CommentAt(source, i, quoted) {
        StripComment(source, i);
        match CommentEnd(source[i + 2..])
        case None =>
        case Some(n) => StripFromIsStrip(source, i + 2 + n, quoted);
      } else {
        StripChar(source, i, quoted);
        StripFromIsStrip(source, i + 1, Next(At(source, i, quoted), source[i]).quoted);
      }
    }
  }

  method StripComments(source: string) returns (result: string)
    ensures result == Strip(START, source)
  {
    result := "";
    var i := 0;
    var inString := false;
    ghost var want, todo := StripFrom(source, 0, false), StripFrom(source, 0, false);
    while i < |source|
      invariant 0 <= i <= |source|
      invariant todo == StripFrom(source, i, inString)
      invariant result + todo == want
    {
      var c := source[i];
      if !inString && c == '(' && i + 1 < |source| && source[i + 1] == '*' {
        var end := CommentEnd(source[i + 2..]);
        if end.None? {
          result := result + " ";
          todo := "";
          break;
        }
        i := i + 2 + end.value;
        todo := StripFrom(source, i, inString);
        Assoc(result, " ", todo);
        result := result + " ";
      } else {
        inString := if c == '"' && (i == 0 || source[i - 1] != '\\') then !inString else inString;
        i := i + 1;
        todo := StripFrom(source, i, inString);
        Assoc(result, [c], todo);
        result := result + [c];
      }
    }
    assert result + "" == result;
    StripFromIsStrip(source, 0, false);
    assert source[0..] == source;
  }

  // ----- top-level commas -----

  datatype Scan = Scan(lex: Lex, special: bool, depth: int)

  function Step(s: Scan, c: char): Scan {
    var lex := Next(s.lex, c);
    var special := if !lex.quoted && c == '?' then !s.special else s.special;
    var depth :=
      if lex.quoted || special then s.depth
      else if c == '(' then s.depth + 1
      else if c == ')' then s.depth - 1
      else s.depth;
    Scan(lex, special, depth)
  }

  predicate Cuts(s: Scan, c: char) {
    c == ',' && !s.lex.quoted && !s.special && s.depth == 0
  }

  /** The untrimmed pieces between top-level commas: never empty. */
  function Fields(s: Scan, t: string): (r: seq<string>)
    ensures |r| > 0
    decreases t
  {
    if t == "" then [""]
    else
      var rest := Fields(Step(s, t[0]), t[1..]);
      if Cuts(s, t[0]) then [""] + rest else Glue([t[0]], rest)
  }

  /** Puts text in front of the first piece. */
  function Glue(a: string, pieces: seq<string>): (r: seq<string>)
    requires |pieces| > 0
    ensures |r| == |pieces|
  {
    [a + pieces[0]] + pieces[1..]
  }

  function TrimAll(pieces: seq<string>): seq<string> {
    if pieces == [] then [] else [Trim(pieces[0])] + TrimAll(pieces[1..])
  }

  lemma FieldsCut(rhs: string, start: nat, i: nat, s: Scan)
    requires start <= i < |rhs| && Cuts(s, rhs[i])
    ensures TrimAll(Glue(rhs[start..i], Fields(s, rhs[i..])))
         == [Trim(rhs[start..i])] + TrimAll(Glue(rhs[i + 1..i + 1], Fields(Step(s, rhs[i]), rhs[i + 1..])))
  {
    assert rhs[i..][0] == rhs[i] && rhs[i..][1..] == rhs[i + 1..];
    var rest := Fields(Step(s, rhs[i]), rhs[i + 1..]);
    GlueEmpty(rest);
    assert rhs[i + 1..i + 1] == "" && rhs[start..i] + "" == rhs[start..i];
    assert ([rhs[start..i]] + rest)[1..] == rest;
  }

  lemma FieldsKept(rhs: string, start: nat, i: nat, s: Scan)
    requires start <= i < |rhs| && !Cuts(s, rhs[i])
    ensures Glue(rhs[start..i], Fields(s, rhs[i..])) == Glue(rhs[start..i + 1], Fields(Step(s, rhs[i]), rhs[i + 1..]))
  {
    assert rhs[i..][0] == rhs[i] && rhs[i..][1..] == rhs[i + 1..];
    assert rhs[start..i + 1] == rhs[start..i] + [rhs[i]];
    GlueGlue(rhs[start..i], [rhs[i]], Fields(Step(s, rhs[i]), rhs[i + 1..]));
  }

  /** The trimmed pieces still to come at index `i`, the current one having begun at `start`. */
  function Pieces(rhs: string, start: nat, i: nat, s: Scan): seq<string>
    requires start <= i <= |rhs|
    decreases |rhs| - i
  {
    if i == |rhs| then [Trim(rhs[start..])]
    else if Cuts(s, rhs[i]) then [Trim(rhs[start..i])] + Pieces(rhs, i + 1, i + 1, Step(s, rhs[i]))
    else Pieces(rhs, start, i + 1, Step(s, rhs[i]))
  }

  lemma {:induction false} PiecesAreFields(rhs: string, start: nat, i: nat, s: Scan)
    requires start <= i <= |rhs|
    ensures Pieces(rhs, start, i, s) == TrimAll(Glue(rhs[start..i], Fields(s, rhs[i..])))
    decreases |rhs| - i
  {
    if i == |rhs| {
      assert rhs[start..i] + "" == rhs[start..];
    } else if Cuts(s, rhs[i]) {
      FieldsCut(rhs, start, i, s);
      PiecesAreFields(rhs, i + 1, i + 1, Step(s, rhs[i]));
    } else {
      FieldsKept(rhs, start, i, s);
      PiecesAreFields(rhs, start, i + 1, Step(s, rhs[i]));
    }
  }

  lemma PiecesStart(rhs: string, s: Scan)
    ensures Pieces(rhs, 0, 0, s) == TrimAll(Fields(s, rhs))
  {
    PiecesAreFields(rhs, 0, 0, s);
    assert rhs[0..] == rhs && rhs[0..0] == "";
    GlueEmpty(Fields(s, rhs));
  }

  /** The flag updates of one loop turn. */
  method Track(rhs: string, i: nat, quoted0: bool, special0: bool, depth0: int)
    returns (quoted: bool, special: bool, depth: int)
    requires i < |rhs|
    ensures Scan(At(rhs, i + 1, quoted), special, depth) == Step(Scan(At(rhs, i, quoted0), special0, depth0), rhs[i])
  {
    quoted, special, depth := quoted0, special0, depth0;
    var c := rhs[i];
    if c == '"' && (i == 0 || rhs[i - 1] != '\\') {
      quoted := !quoted;
    }
    if !quoted && c == '?' {
      special := !special;
    }
    if !quoted && !special {
      if c == '(' { depth := depth + 1; }
      if c == ')' { depth := depth - 1; }
    }
  }

  method SplitPredicates(rhs: string) returns (out: seq<string>)
    ensures out == TrimAll(Fields(Scan(START, false, 0), rhs))
  {
    out := [];
    var start, i := 0, 0;
    var quoted, special, depth := false, false, 0;
    ghost var want := Pieces(rhs, 0, 0, Scan(START, false, 0));
    while i < |rhs|
      invariant 0 <= start <= i <= |rhs|
      invariant out + Pieces(rhs, start, i, Scan(At(rhs, i, quoted), special, depth)) == want
    {
      quoted, special, depth := Track(rhs, i, quoted, special, depth);
      if !quoted && !special && rhs[i] == ',' && depth == 0 {
        out := out + [Trim(rhs[start..i])];
        start := i + 1;
      }
      i := i + 1;
    }
    out := out + [Trim(rhs[start..])];
    PiecesStart(rhs, Scan(START, false, 0));
  }

  lemma GlueEmpty(pieces: seq<string>)
    requires |pieces| > 0
    ensures Glue("", pieces) == pieces
  {
    assert "" + pieces[0] == pieces[0];
  }

  lemma GlueGlue(a: string, b: string, pieces: seq<string>)
    requires |pieces| > 0
    ensures Glue(a, Glue(b, pieces)) == Glue(a + b, pieces)
  {
    Assoc(a, b, pieces[0]);
  }

  // ----- what the scanners do on a stretch of text -----

  /** No character outside quotes is one of `bad`. */
  predicate Avoids(lex: Lex, t: string, bad: set<char>)
    decreases t
  {
    t == "" || ((lex.quoted || t[0] !in bad) && Avoids(Next(lex, t[0]), t[1..], bad))
  }

  /** No comma of `t` cuts. */
  predicate Uncut(s: Scan, t: string)
    decreases t
  {
    t == "" || (!Cuts(s, t[0]) && Uncut(Step(s, t[0]), t[1..]))
  }

  function Run(s: Scan, t: string): Scan
    decreases t
  {
    if t == "" then s else Run(Step(s, t[0]), t[1..])
  }

  lemma {:induction false} LexConcat(lex: Lex, a: string, b: string)
    ensures LexAll(lex, a + b) == LexAll(LexAll(lex, a), b)
    decreases a
  {
    if a == "" {
      assert a + b == b;
    } else {
      assert (a + b)[0] == a[0] && (a + b)[1..] == a[1..] + b;
      LexConcat(Next(lex, a[0]), a[1..], b);
    }
  }

  lemma {:induction false} AvoidsConcat(lex: Lex, a: string, b: string, bad: set<char>)
    requires Avoids(lex, a, bad) && Avoids(LexAll(lex, a), b, bad)
    ensures Avoids(lex, a + b, bad)
    decreases a
  {
    if a == "" {
      assert a + b == b;
    } else {
      assert (a + b)[0] == a[0] && (a + b)[1..] == a[1..] + b;
      AvoidsConcat(Next(lex, a[0]), a[1..], b, bad);
    }
  }

  lemma {:induction false} RunConcat(s: Scan, a: string, b: string)
    ensures Run(s, a + b) == Run(Run(s, a), b)
    decreases a
  {
    if a == "" {
      assert a + b == b;
    } else {
      assert (a + b)[0] == a[0] && (a + b)[1..] == a[1..] + b;
      RunConcat(Step(s, a[0]), a[1..], b);
    }
  }

  lemma {:induction false} UncutConcat(s: Scan, a: string, b: string)
    requires Uncut(s, a) && Uncut(Run(s, a), b)
    ensures Uncut(s, a + b)
    decreases a
  {
    if a == "" {
      assert a + b == b;
    } else {
      assert (a + b)[0] == a[0] && (a + b)[1..] == a[1..] + b;
      UncutConcat(Step(s, a[0]), a[1..], b);
    }
  }

  /** Text with no `*` outside quotes loses nothing to the comment scanner. */
  lemma {:induction false} StripIdentity(lex: Lex, t: string)
    requires Avoids(lex, t, {'*'})
    ensures Strip(lex, t) == t
    decreases t
  {
    if t != "" {
      if |t| > 1 {
        assert t[1..][0] == t[1];
      }
      StripIdentity(Next(lex, t[0]), t[1..]);
      assert [t[0]] + t[1..] == t;
    }
  }

  /** A stretch without cuts stays in one piece. */
  lemma {:induction false} FieldsUncut(s: Scan, t: string, rest: string)
    requires Uncut(s, t)
    ensures Fields(s, t + rest) == Glue(t, Fields(Run(s, t), rest))
    decreases t
  {
    if t == "" {
      assert t + rest == rest;
      GlueEmpty(Fields(s, rest));
    } else {
      assert (t + rest)[0] == t[0] && (t + rest)[1..] == t[1..] + rest;
      FieldsUncut(Step(s, t[0]), t[1..], rest);
      GlueGlue([t[0]], t[1..], Fields(Run(s, t), rest));
      assert [t[0]] + t[1..] == t;
    }
  }

  const MARKS := {'?', '(', ')', ','}

  /** Away from the scanner's own marks only the quote state moves. */
  lemma {:induction false} RunPlain(s: Scan, t: string)
    requires Avoids(s.lex, t, if s.special then {'?'} else MARKS)
    ensures Uncut(s, t) && Run(s, t) == s.(lex := LexAll(s.lex, t))
    decreases t
  {
    if t != "" {
      RunPlain(Step(s, t[0]), t[1..]);
    }
  }

  // ----- quoted strings -----

  predicate EndsInBackslash(s: string) { s != "" && s[|s| - 1] == '\\' }

  lemma EscapeCharShape(c: char)
    ensures var e := Json.EscapeChar(c);
      || (|e| == 1 && e[0] == c && c != '"' && c != '\\')
      || (e[0] == '\\' && |e| == 2 && (e[1] == '\\' <==> c == '\\') && (e[1] == '"' <==> c == '"'))
      || (e[0] == '\\' && |e| == 6 && (forall i :: 1 <= i < 6 ==> e[i] != '\\' && e[i] != '"') && c != '\\' && c != '"')
  {
    if Json.ShortEscape(c).None? && c as int < 32 {
      assert Json.HexDigit(c as nat / 16) != '"' && Json.HexDigit(c as nat / 16) != '\\';
      assert Json.HexDigit(c as nat % 16) != '"' && Json.HexDigit(c as nat % 16) != '\\';
    }
  }

  /** Without quotes or backslashes nothing toggles. */
  lemma {:induction false} PlainRun(lex: Lex, t: string)
    requires forall i :: 0 <= i < |t| ==> t[i] != '"' && t[i] != '\\'
    ensures LexAll(lex, t) == if t == "" then lex else Lex(t[|t| - 1], lex.quoted)
    decreases t
  {
    if t != "" {
      PlainRun(Next(lex, t[0]), t[1..]);
    }
  }

  lemma {:induction false} PlainAvoids(lex: Lex, t: string, bad: set<char>)
    requires forall i :: 0 <= i < |t| ==> t[i] != '"' && t[i] != '\\' && (lex.quoted || t[i] !in bad)
    ensures Avoids(lex, t, bad)
    decreases t
  {
    if t != "" {
      PlainAvoids(Next(lex, t[0]), t[1..], bad);
    }
  }

  /** Inside quotes, the escape of one character leaves the scanner inside quotes. */
  lemma QuotedChar(prev: char, c: char, bad: set<char>)
    ensures var r := LexAll(Lex(prev, true), Json.EscapeChar(c));
      r.quoted && (r.prev == '\\' <==> c == '\\')
    ensures Avoids(Lex(prev, true), Json.EscapeChar(c), bad)
  {
    var e := Json.EscapeChar(c);
    EscapeCharShape(c);
    var lex := Lex(prev, true);
    if |e| == 1 {
      PlainRun(lex, e);
      PlainAvoids(lex, e, bad);
    } else {
      var mid := Next(lex, e[0]);
      if |e| == 2 {
        assert e[1..] == [e[1]];
        assert LexAll(mid, e[1..]) == Next(mid, e[1]);
        assert Avoids(mid, e[1..], bad);
      } else {
        PlainRun(mid, e[1..]);
        PlainAvoids(mid, e[1..], bad);
      }
    }
  }

  lemma {:induction false} EscapedRun(prev: char, s: string, bad: set<char>)
    ensures var r := LexAll(Lex(prev, true), Json.Escaped(s));
      r.quoted && (s == "" ==> r.prev == prev) && (s != "" ==> (r.prev == '\\' <==> EndsInBackslash(s)))
    ensures Avoids(Lex(prev, true), Json.Escaped(s), bad)
    decreases s
  {
    if s != "" {
      var e := Json.EscapeChar(s[0]);
      QuotedChar(prev, s[0], bad);
      var mid := LexAll(Lex(prev, true), e);
      EscapedRun(mid.prev, s[1..], bad);
      LexConcat(Lex(prev, true), e, Json.Escaped(s[1..]));
      AvoidsConcat(Lex(prev, true), e, Json.Escaped(s[1..]), bad);
      if |s| > 1 {
        assert s[1..][|s[1..]| - 1] == s[|s| - 1];
      }
    }
  }

  /** A quoted string not ending in a backslash is scanned as one quoted run. */
  lemma QuoteRun(lex: Lex, s: string, bad: set<char>)
    requires !lex.quoted && lex.prev != '\\' && !EndsInBackslash(s) && '"' !in bad
    ensures LexAll(lex, Json.Quote(s)) == Lex('"', false)
    ensures Avoids(lex, Json.Quote(s), bad)
  {
    var inside := Lex('"', true);
    assert Next(lex, '"') == inside;
    EscapedRun('"', s, bad);
    assert LexAll(lex, "\"") == inside;
    LexConcat(lex, "\"", Json.Escaped(s));
    LexConcat(lex, "\"" + Json.Escaped(s), "\"");
    AvoidsConcat(lex, "\"", Json.Escaped(s), bad);
    AvoidsConcat(lex, "\"" + Json.Escaped(s), "\"", bad);
  }
}
