/** Where the round trip of the policy format ends: separators inside strings and trailing backslashes. */
module EbnfLimits {
  import opened Text
  import Json
  import opened Scanner
  import opened Ebnf
  import opened EbnfDocument
  import opened EbnfRoundTrip

  /** A lexer state at which printed text may begin. */
  predicate Calm(lex: Lex) { !lex.quoted && lex.prev != '\\' }

  /** Text that stops inside a quoted string. */
  predicate Open(lex: Lex, t: string) { Calm(lex) && LexAll(lex, t).quoted }

  lemma PrefixCases(t: string, a: string, b: string)
    requires t <= a + b
    ensures |t| < |a| ==> t <= a
    ensures |t| >= |a| ==> t == a + t[|a|..] && t[|a|..] <= b
  {
    if |t| < |a| {
      assert t == (a + b)[..|t|] == a[..|t|];
    } else {
      assert t[..|a|] == (a + b)[..|a|] == a;
      assert t[|a|..] == (a + b)[|a|..|t|] == b[..|t| - |a|];
    }
  }

  lemma JsonBalanced(v: Json.Value)
    requires Json.Valid(v) && JsonStrings(v, Closes)
    ensures Balanced(Json.Print(v), {})
  {
    CarriesBalanced({});
    hide Carries;
    GoodJson(v, Closes, BalancedIn({}));
  }

  lemma ItemsBalanced(items: seq<Json.Value>)
    requires Json.ValidItems(items) && ItemStrings(items, Closes)
    ensures Balanced(Json.PrintItems(items), {})
  {
    CarriesBalanced({});
    hide Carries;
    GoodItems(items, Closes, BalancedIn({}));
  }

  lemma MemberBalanced(member: (string, Json.Value))
    requires Json.ValidMember(member) && MemberStringsOf(member, Closes)
    ensures Balanced(Json.PrintMember(member), {})
  {
    CarriesBalanced({});
    hide Carries;
    GoodMember(member, Closes, BalancedIn({}));
  }

  lemma MembersBalanced(members: seq<(string, Json.Value)>)
    requires Json.ValidMembers(members) && MemberStrings(members, Closes)
    ensures Balanced(Json.PrintMembers(members), {})
  {
    CarriesBalanced({});
    hide Carries;
    GoodMembers(members, Closes, BalancedIn({}));
  }

  lemma {:induction false} AnyAction(parts: seq<string>)
    requires AllStrings(parts, true, Closes)
    ensures AllStrings(parts, false, Closes)
  {
    forall i | 0 <= i < |parts| ensures Closes(parts[i], false) { assert Closes(parts[i], true); }
  }

  // ----- an unfinished string -----

  lemma EscapeCharCut(c: char, u: string)
    requires u < Json.EscapeChar(c)
    ensures LiteralRest(u) == None && Json.ReadString(u) == None
  {
    var e := Json.EscapeChar(c);
    EscapeCharShape(c);
    if u != "" {
      assert u[0] == e[0] == '\\';
      if |u| > 1 {
        assert u[1] == e[1] && |e| == 6;
        assert e[1] == 'u';
        LiteralPlain(u[2..], "");
        assert u[2..] + "" == u[2..];
      }
    }
  }

  lemma {:induction false} EscapedCut(s: string, u: string)
    requires u <= Json.Escaped(s)
    ensures LiteralRest(u) == None && Json.ReadString(u) == None
  {
    if u != "" {
      var e, more := Json.EscapeChar(s[0]), Json.Escaped(s[1..]);
      PrefixCases(u, e, more);
      if |u| < |e| {
        EscapeCharCut(s[0], u);
      } else {
        EscapedCut(s[1..], u[|e|..]);
        LiteralChar(s[0], u[|e|..]);
        Json.ReadEscapedChar(s[0], u[|e|..]);
      }
    }
  }

  lemma ValueOfCutQuote(q: string)
    requires q != "" && q[0] == '"' && Json.ReadString(q[1..]) == None
    ensures Json.ParseValue(q) == None
  {
    assert Json.SkipWs(q) == q;
  }

  /** A string cut short is neither a literal nor JSON. */
  lemma QuoteCut(s: string, q: string)
    requires q != "" && q < Json.Quote(s)
    ensures q[0] == '"' && LiteralLength(q) == None && ParseString(q).Err?
    ensures Json.ReadString(q[1..]) == None && Json.ParseValue(q) == None
  {
    var body := "\"" + Json.Escaped(s);
    assert q <= body by {
      PrefixCases(q, body, "\"");
      assert |q| < |Json.Quote(s)|;
      assert |q| == |body| ==> q[|body|..] == "";
    }
    PrefixCases(q, "\"", Json.Escaped(s));
    assert q[1..] <= Json.Escaped(s);
    EscapedCut(s, q[1..]);
    ValueOfCutQuote(q);
  }

  /** An open prefix of a quoted string is a proper, non-empty one. */
  lemma OpenQuote(lex: Lex, s: string, q: string)
    requires Open(lex, q) && q <= Json.Quote(s) && Closes(s, false)
    ensures q != "" && q < Json.Quote(s)
  {
    QuoteRun(lex, s, {});
    var whole := Json.Quote(s);
    assert !Open(lex, "") && !Open(lex, whole);
    hide Open, Json.Quote;
    assert |q| == |whole| ==> q == whole;
  }

  /** Moving past a balanced stretch keeps the rest open. */
  lemma OpenAfter(lex: Lex, a: string, t: string)
    requires Open(lex, a + t) && Balanced(a, {})
    ensures Open(LexAll(lex, a), t)
  {
    LexConcat(lex, a, t);
    assert Avoids(lex, a, {}) && Calm(LexAll(lex, a));
  }

  /** Nothing is open at the end of balanced text. */
  lemma NotOpen(lex: Lex, a: string)
    requires Balanced(a, {}) && Calm(lex)
    ensures !Open(lex, a)
  {
    assert Avoids(lex, a, {});
  }

  /** Dropping a last character other than a quote leaves the text open. */
  lemma OpenShorter(lex: Lex, t: string)
    requires Open(lex, t) && t != "" && t[|t| - 1] != '"'
    ensures Open(lex, t[..|t| - 1])
  {
    var u, c := t[..|t| - 1], t[|t| - 1];
    assert t == u + [c];
    LexConcat(lex, u, [c]);
    assert [c][1..] == "";
  }

  lemma {:induction false} OpenTrimmed(lex: Lex, t: string)
    requires Open(lex, t)
    ensures Open(lex, TrimEnd(t)) && TrimEnd(t) <= t && TrimEnd(t) != "" && !IsSpace(TrimEnd(t)[|TrimEnd(t)| - 1])
    decreases |t|
  {
    assert t != "";
    if IsSpace(t[|t| - 1]) {
      OpenShorter(lex, t);
      OpenTrimmed(lex, t[..|t| - 1]);
    }
  }

  /** A character that printed text only has inside strings is met inside a string. */
  lemma {:induction false} OpenAt(lex: Lex, t: string, k: nat, c: char)
    requires k < |t| && t[k] == c && Avoids(lex, t, {c})
    ensures LexAll(lex, t[..k]).quoted
    decreases k
  {
    if k > 0 {
      assert t[..k][0] == t[0] && t[..k][1..] == t[1..][..k - 1];
      OpenAt(Next(lex, t[0]), t[1..], k - 1, c);
    }
  }

  /** Text without quotes or backslashes. */
  predicate Unquoted(t: string) {
    forall i :: 0 <= i < |t| ==> t[i] != '"' && t[i] != '\\'
  }

  lemma UnquotedNotOpen(lex: Lex, t: string)
    requires Unquoted(t) && Calm(lex)
    ensures !Open(lex, t) && Balanced(t, {})
  {
    PlainRun(lex, t);
    BalancedPlain(t, {});
  }

  lemma PrefixOf(t: string, a: string, b: string)
    requires t <= a + b
    ensures t <= a || (t == a + t[|a|..] && t[|a|..] <= b && t[|a|..] != "")
  {
    PrefixCases(t, a, b);
    if |t| == |a| {
      assert t == a;
    }
  }

  /** Where a list of printed parts breaks off: inside the first part or after it. */
  lemma OpenInList(lex: Lex, first: string, sep: string, more: string, t: string) returns (t': string)
    requires Balanced(first, {}) && Unquoted(sep)
    requires Open(lex, t) && t <= first + sep + more
    ensures t < first || (t == first + sep + t' && t' <= more && Open(LexAll(lex, first + sep), t'))
  {
    t' := "";
    Assoc(first, sep, more);
    PrefixOf(t, first, sep + more);
    NotOpen(lex, first);
    hide Balanced, Open, Unquoted;
    assert t <= first ==> |t| == |first| ==> t == first;
    if !(t <= first) {
      var z := t[|first|..];
      OpenAfter(lex, first, z);
      t' := PastSep(lex, first, sep, more, z);
    }
  }

  lemma PastSep(lex: Lex, first: string, sep: string, more: string, z: string) returns (t': string)
    requires Unquoted(sep) && Balanced(first, {}) && Calm(lex)
    requires Open(LexAll(lex, first), z) && z <= sep + more
    ensures first + z == first + sep + t' && t' <= more && Open(LexAll(lex, first + sep), t')
  {
    var lex1 := LexAll(lex, first);
    PrefixOf(z, sep, more);
    UnquotedNotOpen(lex1, sep);
    if z <= sep {
      UnquotedNotOpen(lex1, z);
      assert false;
    }
    t' := z[|sep|..];
    OpenAfter(lex1, sep, t');
    LexConcat(lex, first, sep);
    Assoc(first, sep, t');
  }

  // ----- JSON cut inside a string -----

  lemma {:induction false} ValueCut(lex: Lex, v: Json.Value, w: string)
    requires Json.Valid(v) && JsonStrings(v, Closes) && Open(lex, w) && w <= Json.Print(v)
    ensures Json.ParseValue(w) == None
    decreases v, 1
  {
    hide Balanced;
    match v
    case Str(s) =>
      OpenQuote(lex, s, w);
      QuoteCut(s, w);
    case Array(items) => ArrayCut(lex, items, w);
    case Object(members) => ObjectCut(lex, members, w);
    case _ => AtomNotOpen(lex, v, w);
  }

  lemma AtomNotOpen(lex: Lex, v: Json.Value, w: string)
    requires Json.Valid(v) && (v.Null? || v.Bool? || v.Number?) && Calm(lex) && w <= Json.Print(v)
    ensures !Open(lex, w)
  {
    forall i | 0 <= i < |w| ensures w[i] != '"' && w[i] != '\\' {
      assert w[i] == Json.Print(v)[i] && Json.Print(v)[i] in Json.Print(v);
    }
    PlainRun(lex, w);
  }

  /** Between brackets, open text is a prefix of the body. */
  lemma OpenInBrackets(lex: Lex, open: string, body: string, close: string, w: string) returns (w1: string)
    requires Unquoted(open) && Unquoted(close) && Balanced(body, {})
    requires Open(lex, w) && w <= open + body + close
    ensures w == open + w1 && w1 <= body && w1 != "" && Open(LexAll(lex, open), w1)
  {
    assert Balanced("", {}) by { UnquotedNotOpen(lex, ""); }
    Assoc(open, body, close);
    hide Open, Unquoted, Balanced;
    assert "" + open == open;
    w1 := OpenInList(lex, "", open, body + close, w);
    BeforeClose(LexAll(lex, open), body, close, w1);
  }

  lemma BeforeClose(lex: Lex, body: string, close: string, w: string)
    requires Unquoted(close) && Balanced(body, {})
    requires Open(lex, w) && w <= body + close
    ensures w <= body && w != ""
  {
    assert w != "";
    PrefixOf(w, body, close);
    if !(w <= body) {
      var z := w[|body|..];
      OpenAfter(lex, body, z);
      UnquotedNotOpen(LexAll(lex, body), z);
      assert false;
    }
  }

  lemma ArrayNone(w1: string)
    requires w1 != "" && !Json.IsWs(w1[0]) && w1[0] != ']' && Json.ParseItems(w1) == None
    ensures Json.ParseValue("[" + w1) == None
  {
    var w := "[" + w1;
    assert w[1..] == w1 && Json.SkipWs(w) == w && Json.SkipWs(w1) == w1;
    hide Json.ParseItems;
  }

  lemma ObjectNone(w1: string)
    requires w1 != "" && w1[0] == '"' && Json.ParseMembers(w1) == None
    ensures Json.ParseValue("{" + w1) == None
  {
    var w := "{" + w1;
    assert w[1..] == w1 && Json.SkipWs(w) == w && Json.SkipWs(w1) == w1;
    hide Json.ParseMembers;
  }

  lemma ItemsNone(w: string, item: Json.Value, w2: string)
    requires Json.ParseValue(w) == Some((item, "," + w2)) && Json.ParseItems(w2) == None
    ensures Json.ParseItems(w) == None
  {
    var u := "," + w2;
    assert u[1..] == w2 && Json.SkipWs(u) == u;
    hide Json.ParseValue;
  }

  lemma MembersNone(w: string, member: (string, Json.Value), w2: string)
    requires Json.ParseMember(w) == Some((member, "," + w2)) && Json.ParseMembers(w2) == None
    ensures Json.ParseMembers(w) == None
  {
    var u := "," + w2;
    assert u[1..] == w2 && Json.SkipWs(u) == u;
    hide Json.ParseMember;
  }

  lemma MemberNone(w: string, key: string, w2: string)
    requires w != "" && w[0] == '"' && Json.ReadString(w[1..]) == Some((key, ":" + w2)) && Json.ParseValue(w2) == None
    ensures Json.ParseMember(w) == None
  {
    var u := ":" + w2;
    assert u[1..] == w2 && Json.SkipWs(u) == u && Json.SkipWs(w) == w;
    hide Json.ParseValue, Json.ReadString;
  }

  lemma {:induction false} ArrayCut(lex: Lex, items: seq<Json.Value>, w: string)
    requires Json.ValidItems(items) && ItemStrings(items, Closes)
    requires Open(lex, w) && w <= "[" + Json.PrintItems(items) + "]"
    ensures Json.ParseValue(w) == None
    decreases items, 1
  {
    hide Balanced, Json.ParseValue, Json.ParseItems, Open;
    ItemsBalanced(items);
    var w1 := OpenInBrackets(lex, "[", Json.PrintItems(items), "]", w);
    assert items != [];
    ItemsFirst(items);
    assert w1[0] == Json.PrintItems(items)[0];
    ItemsCut(LexAll(lex, "["), items, w1);
    ArrayNone(w1);
  }

  lemma ItemsFirst(items: seq<Json.Value>)
    requires items != [] && Json.ValidItems(items)
    ensures var t := Json.PrintItems(items); t != "" && !Json.IsWs(t[0]) && t[0] != ']'
  {
    Json.PrintFirst(items[0]);
    hide Json.Print, Json.Valid;
  }

  lemma {:induction false} ItemsCut(lex: Lex, items: seq<Json.Value>, w: string)
    requires items != [] && Json.ValidItems(items) && ItemStrings(items, Closes)
    requires Open(lex, w) && w <= Json.PrintItems(items)
    ensures Json.ParseItems(w) == None
    decreases items, 0
  {
    hide Balanced, Open, Json.ParseValue;
    if |items| == 1 {
      ValueCut(lex, items[0], w);
    } else {
      var first, more := Json.Print(items[0]), Json.PrintItems(items[1..]);
      assert w <= first + "," + more;
      JsonBalanced(items[0]);
      hide Json.Print, Json.PrintItems;
      var w2 := OpenInList(lex, first, ",", more, w);
      if w < first {
        ValueCut(lex, items[0], w);
      } else {
        ItemsCut(LexAll(lex, first + ","), items[1..], w2);
        hide Json.ParseItems;
        ItemsCutAfter(items[0], w2);
      }
    }
  }

  lemma ItemsCutAfter(item: Json.Value, w2: string)
    requires Json.Valid(item) && Json.ParseItems(w2) == None
    ensures Json.ParseItems(Json.Print(item) + "," + w2) == None
  {
    hide Json.Print, Json.ParseItems, Json.ParseValue, Json.Valid;
    Assoc(Json.Print(item), ",", w2);
    Json.ParsePrint(item, "," + w2);
    ItemsNone(Json.Print(item) + "," + w2, item, w2);
  }

  lemma {:induction false} ObjectCut(lex: Lex, members: seq<(string, Json.Value)>, w: string)
    requires Json.ValidMembers(members) && MemberStrings(members, Closes)
    requires Open(lex, w) && w <= "{" + Json.PrintMembers(members) + "}"
    ensures Json.ParseValue(w) == None
    decreases members, 1
  {
    hide Balanced, Json.ParseValue, Json.ParseMembers, Open;
    MembersBalanced(members);
    var w1 := OpenInBrackets(lex, "{", Json.PrintMembers(members), "}", w);
    assert members != [];
    Json.MembersFirst(members);
    assert w1[0] == Json.PrintMembers(members)[0];
    MembersCut(LexAll(lex, "{"), members, w1);
    ObjectNone(w1);
  }

  lemma {:induction false} MemberCut(lex: Lex, member: (string, Json.Value), w: string)
    requires Json.ValidMember(member) && MemberStringsOf(member, Closes)
    requires Open(lex, w) && w <= Json.PrintMember(member)
    ensures Json.ParseMember(w) == None
    decreases member, 0
  {
    hide Balanced, Open, Json.ParseValue, Json.Quote, Json.Print, Json.ParseMember;
    var q := Json.Quote(member.0);
    BalancedQuote(member.0, {});
    var w2 := OpenInList(lex, q, ":", Json.Print(member.1), w);
    if w < q {
      OpenQuote(lex, member.0, w);
      KeyCut(member.0, w);
    } else {
      ValueCut(LexAll(lex, q + ":"), member.1, w2);
      MemberCutAfter(member.0, w2);
    }
  }

  lemma KeyCut(key: string, w: string)
    requires w != "" && w < Json.Quote(key)
    ensures Json.ParseMember(w) == None
  {
    QuoteCut(key, w);
    assert Json.SkipWs(w) == w;
    hide Json.ReadString, Json.Quote;
  }

  lemma MemberCutAfter(key: string, w2: string)
    requires Json.ParseValue(w2) == None
    ensures Json.ParseMember(Json.Quote(key) + ":" + w2) == None
  {
    hide Json.Quote, Json.ParseMember, Json.ParseValue, Json.ReadString;
    Assoc(Json.Quote(key), ":", w2);
    Json.ReadQuote(key, ":" + w2);
    MemberNone(Json.Quote(key) + ":" + w2, key, w2);
  }

  lemma {:induction false} MembersCut(lex: Lex, members: seq<(string, Json.Value)>, w: string)
    requires members != [] && Json.ValidMembers(members) && MemberStrings(members, Closes)
    requires Open(lex, w) && w <= Json.PrintMembers(members)
    ensures Json.ParseMembers(w) == None
    decreases members, 0
  {
    hide Balanced, Open, Json.ParseMember, Json.PrintMember;
    if |members| == 1 {
      MemberCut(lex, members[0], w);
    } else {
      var first, more := Json.PrintMember(members[0]), Json.PrintMembers(members[1..]);
      assert w <= first + "," + more;
      MemberBalanced(members[0]);
      hide Json.PrintMembers;
      var w2 := OpenInList(lex, first, ",", more, w);
      if w < first {
        MemberCut(lex, members[0], w);
      } else {
        MembersCut(LexAll(lex, first + ","), members[1..], w2);
        hide Json.ParseMembers;
        MembersCutAfter(members[0], w2);
      }
    }
  }

  lemma MembersCutAfter(member: (string, Json.Value), w2: string)
    requires Json.ValidMember(member) && Json.ParseMembers(w2) == None
    ensures Json.ParseMembers(Json.PrintMember(member) + "," + w2) == None
  {
    hide Json.PrintMember, Json.ParseMember, Json.ParseMembers, Json.ValidMember;
    Assoc(Json.PrintMember(member), ",", w2);
    Json.ParsePrintMember(member, "," + w2);
    MembersNone(Json.PrintMember(member) + "," + w2, member, w2);
  }

  // ----- tokens cut inside a string -----

  lemma FirstTokenCut(s: string, t: string)
    requires t != "" && t < Json.Quote(s)
    ensures Tokens(t) != [] && ParseString(Tokens(t)[0]).Err?
  {
    QuoteCut(s, t);
    assert "true"[0] == 't' && "false"[0] == 'f' && "null"[0] == 'n';
    assert Json.NumberLength(t) == 0;
    var n := TokenLength(t);
    assert t[..n] <= t;
    QuoteCut(s, t[..n]);
    hide ParseString, TokenLength;
  }

  lemma {:induction false} TokensCut(lex: Lex, parts: seq<string>, t: string)
    requires parts != [] && AllStrings(parts, false, Closes) && Open(lex, t) && t <= Join(Quotes(parts), " ")
    ensures Tokens(t) != [] && ParseStrings(Tokens(t)).Err?
    decreases parts
  {
    hide Balanced, Open, Json.Quote;
    var q := Json.Quote(parts[0]);
    assert Closes(parts[0], false);
    BalancedQuote(parts[0], {});
    if |parts| == 1 {
      OpenQuote(lex, parts[0], t);
      FirstTokenCut(parts[0], t);
    } else {
      var more := Join(Quotes(parts[1..]), " ");
      var t' := OpenInList(lex, q, " ", more, t);
      if t < q {
        OpenQuote(lex, parts[0], t);
        FirstTokenCut(parts[0], t);
      } else {
        TokensCutAfter(parts[0], t');
        forall i | 0 <= i < |parts[1..]| ensures Closes(parts[1..][i], false) { assert Closes(parts[i + 1], false); }
        TokensCut(LexAll(lex, q + " "), parts[1..], t');
      }
    }
  }

  lemma TokensCutAfter(s: string, t': string)
    ensures Tokens(Json.Quote(s) + " " + t') == [Json.Quote(s)] + Tokens(t')
    ensures ParseString(Json.Quote(s)).Ok?
  {
    hide Json.Quote, Tokens;
    Assoc(Json.Quote(s), " ", t');
    TokensQuote(s, " " + t');
    TokensSpace(t');
    ParseQuote(s);
  }

  /** A word followed by quoted strings, cut inside one of them. */
  lemma WordListCut(lex: Lex, word: string, parts: seq<string>, b: string) returns (rest: seq<string>)
    requires IsWord(word) && Unquoted(word) && parts != [] && AllStrings(parts, false, Closes)
    requires Open(lex, b) && b <= word + " " + Join(Quotes(parts), " ")
    ensures Tokens(b) == [word] + rest && rest != [] && ParseStrings(rest).Err?
  {
    assert Balanced(word, {}) by { UnquotedNotOpen(lex, word); }
    hide Balanced, Open;
    var t := OpenInList(lex, word, " ", Join(Quotes(parts), " "), b);
    if b < word {
      OpenCalm(lex, b);
      UnquotedNotOpen(lex, b);
      assert false;
    }
    TokensCut(LexAll(lex, word + " "), parts, t);
    rest := Tokens(t);
    hide Tokens;
    Assoc(word, " ", t);
    TokensWord(word, " " + t);
    TokensSpace(t);
  }

  lemma OpenCalm(lex: Lex, t: string)
    requires Open(lex, t)
    ensures Calm(lex)
  {
  }

  // ----- conditions cut inside a string -----

  lemma OwnerText(subject: string, resource: string)
    ensures ConditionBody(Owner(subject, resource)) == "owner" + " " + Join(Quotes([subject, resource]), " ")
  {
    var parts := [subject, resource];
    assert parts[1..] == [resource] && Quotes(parts[1..]) == [Json.Quote(resource)];
    hide Json.Quote;
    assert Quotes(parts) == [Json.Quote(subject), Json.Quote(resource)];
    assert Quotes(parts)[1..] == [Json.Quote(resource)];
    assert "owner" + " " == "owner ";
    Assoc4("owner ", Json.Quote(subject), " ", Json.Quote(resource));
    Assoc(Json.Quote(subject), " ", Json.Quote(resource));
  }

  lemma OwnerTokensCut(b: string, rest: seq<string>)
    requires Tokens(b) == ["owner"] + rest && rest != [] && ParseStrings(rest).Err?
    ensures ParseBody(b).Err?
  {
    hide Tokens, ParseString, IsSafePath;
    if |rest| == 2 {
      assert rest == [rest[0]] + [rest[1]];
      assert ParseStrings(rest[1..][1..]) == Ok([]);
    }
  }

  lemma OwnerCut(lex: Lex, subject: string, resource: string, b: string)
    requires IsSafePath(subject) && IsSafePath(resource)
    requires Open(lex, b) && b <= ConditionBody(Owner(subject, resource))
    ensures ParseBody(b).Err?
  {
    SafePathChars(subject);
    SafePathChars(resource);
    hide IsSafePath, Open, Tokens, ConditionBody, Quotes, Join, ParseBody, ParseStrings;
    OwnerText(subject, resource);
    var rest := WordListCut(lex, "owner", [subject, resource], b);
    OwnerTokensCut(b, rest);
  }

  lemma EqualsPathCut(path: string, q: string)
    requires q != "" && q < Json.Quote(path)
    ensures ParseEquals(Trim(" " + q)).Err?
  {
    QuoteCut(path, q);
    assert (" " + q)[1..] == q && TrimStart(" " + q) == q;
    TrimEndPrefix(q);
    QuoteCut(path, TrimEnd(q));
    hide TrimStart, Json.Quote;
  }

  /** Trimming the end of text that starts solid leaves a non-empty prefix. */
  lemma {:induction false} TrimEndPrefix(t: string)
    requires t != "" && !IsSpace(t[0])
    ensures TrimEnd(t) <= t && TrimEnd(t) != ""
    decreases |t|
  {
    if IsSpace(t[|t| - 1]) {
      TrimEndPrefix(t[..|t| - 1]);
    }
  }

  lemma {:induction false} TrimEndAppend(a: string, b: string)
    requires b != "" && !IsSpace(b[0])
    ensures TrimEnd(a + b) == a + TrimEnd(b)
    decreases |b|
  {
    assert (a + b)[|a + b| - 1] == b[|b| - 1];
    if IsSpace(b[|b| - 1]) {
      assert (a + b)[..|a + b| - 1] == a + b[..|b| - 1];
      TrimEndAppend(a, b[..|b| - 1]);
    }
  }

  lemma EqualsValueCut(lex: Lex, path: string, v: Json.Value, w: string)
    requires IsSafePath(path) && Json.Valid(v) && JsonStrings(v, Closes) && Open(lex, w) && w <= Json.Print(v)
    ensures ParseEquals(Trim(" " + (Json.Quote(path) + " " + w))).Err?
  {
    hide IsSafePath, JsonStrings, Json.Valid;
    PrintEnds(v);
    assert !Open(lex, "");
    assert w[0] == Json.Print(v)[0];
    var q, w' := Json.Quote(path), TrimEnd(w);
    OpenTrimmed(lex, w);
    ValueCut(lex, v, w');
    var text := q + " " + w;
    QuoteShape(path);
    assert TrimStart(" " + text) == text by { TrimStartSolid(text); }
    assert TrimEnd(text) == q + " " + w' by { TrimEndAppend(q + " ", w); }
    EqualsNone(path, w');
  }

  lemma EqualsNone(path: string, w: string)
    requires w != "" && !IsSpace(w[0]) && Json.ParseValue(w) == None
    ensures ParseEquals(Json.Quote(path) + " " + w).Err?
  {
    var q := Json.Quote(path);
    var text := q + (" " + w);
    Assoc(q, " ", w);
    LiteralQuote(path, " " + w);
    assert text[..|q|] == q && text[|q|..] == " " + w && text[|q|] == ' ';
    TrimStartSolid(w);
    hide Json.ParseValue, Json.Quote, LiteralLength, TrimStart;
  }

  lemma EqualsText(path: string, v: Json.Value)
    ensures ConditionBody(Equals(path, v)) == "equals" + " " + (Json.Quote(path) + " " + Json.Print(v))
  {
    hide Json.Quote, Json.Print;
    assert "equals" + " " == "equals ";
    Assoc4("equals ", Json.Quote(path), " ", Json.Print(v));
    Assoc(Json.Quote(path), " ", Json.Print(v));
  }

  lemma EqualsRestCut(lex: Lex, path: string, v: Json.Value, t: string)
    requires IsSafePath(path) && Json.Valid(v) && JsonStrings(v, Closes)
    requires Open(lex, t) && t <= Json.Quote(path) + " " + Json.Print(v)
    ensures ParseEquals(Trim(" " + t)).Err?
  {
    var q := Json.Quote(path);
    SafePathChars(path);
    BalancedQuote(path, {});
    hide Balanced, Json.Print, IsSafePath, Json.Valid, JsonStrings, Open, Json.Quote, ParseEquals, Trim;
    var w := OpenInList(lex, q, " ", Json.Print(v), t);
    if t < q {
      OpenQuote(lex, path, t);
      EqualsPathCut(path, t);
    } else {
      EqualsValueCut(LexAll(lex, q + " "), path, v, w);
    }
  }

  lemma EqualsCut(lex: Lex, path: string, v: Json.Value, b: string)
    requires IsSafePath(path) && Json.Valid(v) && JsonStrings(v, Closes)
    requires Open(lex, b) && b <= ConditionBody(Equals(path, v))
    ensures ParseBody(b).Err?
  {
    hide Balanced, Json.Print, Json.Quote, ConditionBody, IsSafePath, Json.Valid, JsonStrings, ParseBody, ParseEquals,
      Trim;
    EqualsText(path, v);
    assert Balanced("equals", {}) by { UnquotedNotOpen(lex, "equals"); }
    var t := OpenInList(lex, "equals", " ", Json.Quote(path) + " " + Json.Print(v), b);
    if b < "equals" {
      UnquotedNotOpen(lex, b);
      assert false;
    }
    EqualsKind(t, b);
    EqualsRestCut(LexAll(lex, "equals" + " "), path, v, t);
  }

  lemma EqualsKind(t: string, b: string)
    requires b == "equals" + " " + t
    ensures ParseBody(b) == ParseEquals(Trim(" " + t))
  {
    hide Tokens, ParseEquals, Trim, ParseStrings, ParseOwner;
    Assoc("equals", " ", t);
    TokensWord("equals", " " + t);
    assert b[6..] == " " + t;
  }

  lemma BodyCut(lex: Lex, c: Condition, b: string)
    requires WfCondition(c) && ConditionStrings(c, Closes) && Open(lex, b) && b <= ConditionBody(c)
    ensures ParseBody(b).Err?
  {
    hide Open, Tokens, ParseStrings, IsSafePath, Json.Valid, JsonStrings, Quotes, Join;
    match c
    case Owner(subject, resource) => OwnerCut(lex, subject, resource, b);
    case HasRole(roles) =>
      assert "has-role" + " " == "has-role ";
      var rest := WordListCut(lex, "has-role", roles, b);
      assert (["has-role"] + rest)[1..] == rest;
    case HasScope(scopes) =>
      assert "has-scope" + " " == "has-scope ";
      var rest := WordListCut(lex, "has-scope", scopes, b);
      assert (["has-scope"] + rest)[1..] == rest;
    case Equals(path, value) => EqualsCut(lex, path, value, b);
  }

  /** The text between the question marks, when the cut fell on a question mark. */
  lemma InsideCut(lex: Lex, c: Condition, b: string)
    requires WfCondition(c) && ConditionStrings(c, Closes) && Open(lex, b) && b <= ConditionBody(c)
    requires b[|b| - 1] == '?'
    ensures ParseBody(Trim(" " + b[..|b| - 1])).Err?
  {
    BodyTrimmed(c);
    hide WfCondition, ConditionStrings, ConditionBody, ParseBody;
    var b1 := b[..|b| - 1];
    OpenShorter(lex, b);
    OpenNonEmpty(lex, b1);
    hide Open;
    assert b1[0] == ConditionBody(c)[0];
    TrimStartSolid(b1);
    OpenTrimmed(lex, b1);
    hide TrimStart, TrimEnd;
    BodyCut(lex, c, TrimEnd(b1));
  }

  lemma InsideText(g: string, b: string)
    requires g == "? " + b && b != "" && b[|b| - 1] == '?'
    ensures g[0] == '?' && g[|g| - 1] == '?' && Inside(g) == " " + b[..|b| - 1]
  {
  }

  lemma ConditionCut(lex: Lex, c: Condition, g: string)
    requires WfCondition(c) && ConditionStrings(c, Closes) && Open(lex, g) && g <= PrintCondition(c)
    ensures ParseCondition(g).Err?
  {
    hide Balanced, WfCondition, ConditionStrings, ConditionBody, ParseBody, Open, Trim, Inside;
    BodyBalanced(c, {});
    assert Unquoted("? ") && Unquoted(" ?");
    hide Unquoted;
    var b := OpenInBrackets(lex, "? ", ConditionBody(c), " ?", g);
    if b[|b| - 1] == '?' {
      InsideText(g, b);
      InsideCut(LexAll(lex, "? "), c, b);
    } else {
      assert g[|g| - 1] == b[|b| - 1];
    }
  }

  lemma OpenNonEmpty(lex: Lex, t: string)
    requires Open(lex, t)
    ensures t != ""
  {
  }

  // ----- actions: cut inside a string, or holding their separator -----

  predicate NoBars(parts: seq<string>) {
    forall i :: 0 <= i < |parts| ==> '|' !in parts[i]
  }

  predicate NotBar(c: char) { c != '|' }

  lemma {:induction false} FirstPiece(t: string)
    ensures Split(t, '|')[0] == t[..Span(t, NotBar)]
  {
    if t != "" && t[0] != '|' {
      FirstPiece(t[1..]);
      assert t[..Span(t, NotBar)] == [t[0]] + t[1..][..Span(t[1..], NotBar)];
    }
  }

  lemma {:induction false} SpanLead(lead: string, t: string)
    requires lead == "" || lead == " "
    ensures (lead + t)[..Span(lead + t, NotBar)] == lead + t[..Span(t, NotBar)]
  {
    if lead == "" {
      assert lead + t == t;
    } else {
      assert (lead + t)[0] == ' ' && (lead + t)[1..] == t;
    }
  }

  /** A piece that is a proper part of a quoted string makes the list malformed. */
  lemma BadPiece(s: string, lead: string, t: string)
    requires lead == "" || lead == " "
    requires var p := t[..Span(t, NotBar)]; p != "" && p < Json.Quote(s)
    ensures ParseStrings(TrimAll(Split(lead + t, '|'))).Err?
  {
    var p := t[..Span(t, NotBar)];
    FirstPiece(lead + t);
    SpanLead(lead, t);
    QuoteCut(s, p);
    assert lead == "" ==> lead + p == p;
    TrimStartSolid(p);
    TrimEndPrefix(p);
    QuoteCut(s, TrimEnd(p));
    hide Json.Quote, Split, TrimStart, TrimEnd, ParseString;
    assert Trim(lead + p) == TrimEnd(p);
  }

  lemma {:induction false} SpanStops(t: string, k: nat, p: char -> bool)
    requires k < |t| && !p(t[k])
    ensures Span(t, p) <= k
  {
    if k > 0 && p(t[0]) {
      SpanStops(t[1..], k - 1, p);
    }
  }

  /** Text that starts with a quoted string holding a bar has a bad first piece. */
  lemma BarInside(s: string, lead: string, t: string)
    requires (lead == "" || lead == " ") && '|' in s && Json.Quote(s) <= t
    ensures ParseStrings(TrimAll(Split(lead + t, '|'))).Err?
  {
    var q := Json.Quote(s);
    QuoteKeeps(s, '|');
    QuoteShape(s);
    var k :| 0 <= k < |q| && q[k] == '|';
    assert t[k] == '|' && t[0] == '"';
    SpanStops(t, k, NotBar);
    var n := Span(t, NotBar);
    assert n > 0;
    assert t[..n] == q[..n];
    hide Json.Quote;
    BadPiece(s, lead, t);
  }

  lemma QuoteCutPiece(s: string, lead: string, t: string)
    requires (lead == "" || lead == " ") && t != "" && t < Json.Quote(s)
    ensures ParseStrings(TrimAll(Split(lead + t, '|'))).Err?
  {
    QuoteCut(s, t);
    hide Json.Quote;
    assert Span(t, NotBar) > 0;
    assert t[..Span(t, NotBar)] <= t;
    BadPiece(s, lead, t);
  }

  lemma PieceAfter(s: string, lead: string, t': string)
    requires (lead == "" || lead == " ") && '|' !in s
    requires ParseStrings(TrimAll(Split(" " + t', '|'))).Err?
    ensures ParseStrings(TrimAll(Split(lead + (Json.Quote(s) + " | " + t'), '|'))).Err?
  {
    var q := Json.Quote(s);
    SplitBar(lead, s, " " + t');
    ParseQuote(s);
    hide Json.Quote, Split, TrimAll, ParseString;
    SpacedBar(lead, q, t');
    var pieces := TrimAll(Split(" " + t', '|'));
    assert ([q] + pieces)[0] == q && ([q] + pieces)[1..] == pieces;
  }

  lemma SpacedBar(lead: string, q: string, t': string)
    ensures lead + (q + " | " + t') == lead + q + " |" + (" " + t')
  {
    assert " | " == " |" + " ";
  }

  lemma {:induction false} BarPieces(lex: Lex, parts: seq<string>, t: string, lead: string)
    requires parts != [] && AllStrings(parts, false, Closes) && Open(lex, t) && (lead == "" || lead == " ")
    requires t <= Join(Quotes(parts), " | ")
    ensures ParseStrings(TrimAll(Split(lead + t, '|'))).Err?
    decreases parts
  {
    hide Json.Quote, Open, ParseStrings, TrimAll, Split;
    var q := Json.Quote(parts[0]);
    assert Closes(parts[0], false);
    if t < q {
      OpenNonEmpty(lex, t);
      QuoteCutPiece(parts[0], lead, t);
    } else if '|' in parts[0] {
      assert q <= t by { FirstQuote(parts, t); }
      BarInside(parts[0], lead, t);
    } else {
      var t' := BarPiecesRest(lex, parts, t);
      forall i | 0 <= i < |parts[1..]| ensures Closes(parts[1..][i], false) { assert Closes(parts[i + 1], false); }
      BarPieces(LexAll(lex, q + " | "), parts[1..], t', " ");
      PieceAfter(parts[0], lead, t');
    }
  }

  function AfterFirst(parts: seq<string>): string
    requires parts != []
  {
    if |parts| == 1 then "" else " | " + Join(Quotes(parts[1..]), " | ")
  }

  lemma JoinQuotes(parts: seq<string>)
    requires parts != []
    ensures Join(Quotes(parts), " | ") == Json.Quote(parts[0]) + AfterFirst(parts)
  {
    hide Json.Quote;
    if |parts| == 1 {
      assert Json.Quote(parts[0]) + "" == Json.Quote(parts[0]);
    } else {
      assert Quotes(parts)[1..] == Quotes(parts[1..]);
      Assoc(Json.Quote(parts[0]), " | ", Join(Quotes(parts[1..]), " | "));
    }
  }

  lemma PrefixNotShort(t: string, q: string, rest: string)
    requires t <= q + rest && !(t < q)
    ensures q <= t
    ensures rest == "" ==> t == q
  {
    PrefixCases(t, q, rest);
  }

  lemma FirstQuote(parts: seq<string>, t: string)
    requires parts != [] && t <= Join(Quotes(parts), " | ") && !(t < Json.Quote(parts[0]))
    ensures Json.Quote(parts[0]) <= t
    ensures |parts| == 1 ==> t == Json.Quote(parts[0])
  {
    hide Json.Quote, Join, Quotes;
    JoinQuotes(parts);
    PrefixNotShort(t, Json.Quote(parts[0]), AfterFirst(parts));
  }

  /** Past a first action without a bar, the rest is still open. */
  lemma BarPiecesRest(lex: Lex, parts: seq<string>, t: string) returns (t': string)
    requires parts != [] && AllStrings(parts, false, Closes) && Open(lex, t)
    requires t <= Join(Quotes(parts), " | ") && !(t < Json.Quote(parts[0]))
    ensures |parts| > 1 && t == Json.Quote(parts[0]) + " | " + t' && t' <= Join(Quotes(parts[1..]), " | ")
    ensures Open(LexAll(lex, Json.Quote(parts[0]) + " | "), t')
  {
    var q := Json.Quote(parts[0]);
    assert Closes(parts[0], false);
    BalancedQuote(parts[0], {});
    OpenCalm(lex, t);
    NotOpen(lex, q);
    FirstQuote(parts, t);
    hide Json.Quote, Open, Balanced;
    if |parts| == 1 {
      assert false;
    }
    t' := OpenInList(lex, q, " | ", Join(Quotes(parts[1..]), " | "), t);
  }

  /** A bar inside one of the strings, and the pieces are not all strings. */
  lemma {:induction false} BarredPieces(parts: seq<string>, lead: string)
    requires parts != [] && !NoBars(parts) && (lead == "" || lead == " ")
    ensures ParseStrings(TrimAll(Split(lead + Join(Quotes(parts), " | "), '|'))).Err?
    decreases parts
  {
    hide Json.Quote, ParseStrings, TrimAll, Split;
    var t := Join(Quotes(parts), " | ");
    JoinQuotes(parts);
    assert Json.Quote(parts[0]) <= t;
    if '|' in parts[0] {
      BarInside(parts[0], lead, t);
    } else {
      var i :| 0 <= i < |parts| && '|' in parts[i];
      assert parts[1..][i - 1] == parts[i];
      BarredPieces(parts[1..], " ");
      PieceAfter(parts[0], lead, Join(Quotes(parts[1..]), " | "));
      Assoc(Json.Quote(parts[0]), " | ", Join(Quotes(parts[1..]), " | "));
    }
  }

  lemma ParenString(t: string)
    requires t != "" && t[0] == '('
    ensures ParseString(t).Err?
  {
    assert Json.SkipWs(t) == t;
    assert !Json.IsNumber(t[..Span(t, Json.IsNumberChar)]);
  }

  lemma ParenPiece(g: string)
    requires g != "" && g[0] == '('
    ensures ParseStrings(TrimAll(Split(g, '|'))).Err?
  {
    FirstPiece(g);
    var p := g[..Span(g, NotBar)];
    assert p != "" && p[0] == '(';
    TrimStartSolid(p);
    TrimEndPrefix(p);
    ParenString(TrimEnd(p));
    hide ParseString, TrimEnd, TrimStart, Split;
  }

  lemma InsideParens(g: string, g1: string)
    requires g == "(" + g1 && g1 != "" && g1[|g1| - 1] == ')'
    ensures ActionBody(g) == g1[..|g1| - 1]
  {
  }

  lemma OneActionCut(lex: Lex, actions: seq<string>, g: string)
    requires |actions| == 1 && AllStrings(actions, false, Closes) && Open(lex, g) && g <= PrintActions(actions)
    ensures ParseActions(g).Err?
  {
    OpenCalm(lex, g);
    OpenNonEmpty(lex, g);
    QuoteShape(actions[0]);
    hide Open, Json.Quote, TrimAll, Split, ParseStrings;
    BarPieces(lex, actions, g, "");
    assert g[0] == Json.Quote(actions[0])[0] && "" + g == g;
  }

  lemma ListedActionsCut(lex: Lex, actions: seq<string>, g1: string)
    requires actions != [] && AllStrings(actions, false, Closes) && Open(lex, g1)
    requires g1 <= Join(Quotes(actions), " | ")
    ensures ParseActions("(" + g1).Err?
  {
    OpenNonEmpty(lex, g1);
    hide TrimAll, Split, ParseStrings, Quotes, Join, ActionBody;
    var g := "(" + g1;
    if g1[|g1| - 1] == ')' {
      InsideParens(g, g1);
      var g2 := g1[..|g1| - 1];
      OpenShorter(lex, g1);
      OpenCalm(lex, g2);
      BarPieces(lex, actions, g2, "");
      assert "" + g2 == g2;
    } else {
      assert ActionBody(g) == g by { NotClosed(g, g1); }
      ParenPiece(g);
    }
  }

  lemma NotClosed(g: string, g1: string)
    requires g == "(" + g1 && g1 != "" && g1[|g1| - 1] != ')'
    ensures ActionBody(g) == g
  {
  }

  lemma ActionsCut(lex: Lex, actions: seq<string>, g: string)
    requires actions != [] && AllStrings(actions, true, Closes) && Open(lex, g) && g <= PrintActions(actions)
    ensures ParseActions(g).Err?
  {
    AnyAction(actions);
    hide Open, Json.Quote, ParseActions, Quotes, Join;
    if |actions| == 1 {
      OneActionCut(lex, actions, g);
    } else {
      SeparatedActions(actions);
      var g1 := OpenInBrackets(lex, "(", Join(Quotes(actions), " | "), ")", g);
      ListedActionsCut(LexAll(lex, "("), actions, g1);
    }
  }

  lemma SeparatedActions(actions: seq<string>)
    requires AllStrings(actions, false, Closes)
    ensures Balanced(Join(Quotes(actions), " | "), {})
  {
    BalancedPlain(" | ", {});
    BalancedQuotes(actions, false, " | ", {});
    hide Balanced;
  }

  /** A bar inside an action splits the action: the list does not parse. */
  lemma BarredActions(actions: seq<string>)
    requires actions != [] && !NoBars(actions)
    ensures ParseActions(PrintActions(actions)).Err?
  {
    var joined := Join(Quotes(actions), " | ");
    BarredPieces(actions, "");
    JoinEnds(actions, " | ");
    assert "" + joined == joined;
    hide Json.Quote, TrimAll, Split, ParseStrings, NoBars;
    if |actions| > 1 {
      assert Inside("(" + joined + ")") == joined;
    }
  }
}
