/** Parsing a printed policy document gives the document back, sorted. */
module EbnfRoundTrip {
  import opened Text
  import Json
  import opened Scanner
  import Sorting
  import opened Ebnf
  import opened EbnfDocument

  // ----- splitting at commas -----

  predicate Neutral(s: Scan) {
    !s.lex.quoted && s.lex.prev != '\\' && !s.special && s.depth == 0
  }

  /** A field the comma scanner passes over without cutting and leaves as it entered. */
  ghost predicate Whole(f: string) {
    forall s: Scan :: Neutral(s) ==> Uncut(s, f) && Neutral(Run(s, f))
  }

  lemma WholeBalanced(f: string)
    requires Balanced(f, MARKS)
    ensures Whole(f)
  {
    forall s: Scan | Neutral(s) ensures Uncut(s, f) && Neutral(Run(s, f)) {
      assert Avoids(s.lex, f, MARKS);
      RunPlain(s, f);
    }
  }

  lemma StepAlone(s: Scan, c: char)
    requires !Cuts(s, c)
    ensures Uncut(s, [c]) && Run(s, [c]) == Step(s, c)
  {
    var t := [c];
    assert t != "" && t[0] == c && t[1..] == "";
    assert Uncut(Step(s, t[0]), t[1..]) && Run(Step(s, t[0]), t[1..]) == Step(s, c);
    assert !Cuts(s, t[0]);
    assert Uncut(s, t);
  }

  /** One opening mark, a stretch that only moves the quotes, one closing mark. */
  lemma WrappedRun(s: Scan, open: char, body: string, close: char)
    requires Neutral(s) && ((open == '(' && close == ')') || (open == '?' && close == '?'))
    requires Balanced(body, if open == '?' then {'?'} else MARKS)
    ensures var f := [open] + body + [close]; Uncut(s, f) && Neutral(Run(s, f))
  {
    var s1 := Step(s, open);
    StepAlone(s, open);
    var bad := if open == '?' then {'?'} else MARKS;
    assert s1.special == (open == '?') && !s1.lex.quoted && s1.lex.prev == open;
    assert Avoids(s1.lex, body, bad) && !LexAll(s1.lex, body).quoted && LexAll(s1.lex, body).prev != '\\';
    RunPlain(s1, body);
    var s2 := Run(s1, body);
    StepAlone(s2, close);
    assert Neutral(Step(s2, close));
    hide Balanced, Avoids;
    RunConcat(s, [open], body);
    UncutConcat(s, [open], body);
    RunConcat(s, [open] + body, [close]);
    UncutConcat(s, [open] + body, [close]);
  }

  lemma WholeWrapped(open: char, body: string, close: char)
    requires (open == '(' && close == ')') || (open == '?' && close == '?')
    requires Balanced(body, if open == '?' then {'?'} else MARKS)
    ensures Whole([open] + body + [close])
  {
    hide Balanced;
    forall s: Scan | Neutral(s)
      ensures Uncut(s, [open] + body + [close]) && Neutral(Run(s, [open] + body + [close]))
    {
      WrappedRun(s, open, body, close);
    }
  }

  predicate Lead(lead: string) { lead == "" || lead == "\n  " }

  lemma WholeLead(lead: string, f: string, s: Scan)
    requires Lead(lead) && Whole(f) && Neutral(s)
    ensures Uncut(s, lead + f) && Neutral(Run(s, lead + f))
  {
    BalancedPlain(lead, MARKS);
    WholeBalanced(lead);
    assert Uncut(s, lead) && Neutral(Run(s, lead));
    assert Uncut(Run(s, lead), f) && Neutral(Run(Run(s, lead), f));
    hide Whole;
    hide Balanced;
    RunConcat(s, lead, f);
    UncutConcat(s, lead, f);
  }

  predicate Bodies(fs: seq<string>) {
    forall i :: 0 <= i < |fs| ==> fs[i] != "" && Trimmed(fs[i])
  }

  ghost predicate Wholes(fs: seq<string>) {
    forall i :: 0 <= i < |fs| ==> Whole(fs[i])
  }

  lemma FieldTrim(lead: string, f: string)
    requires Lead(lead) && Trimmed(f)
    ensures Trim(lead + f) == f
  {
    TrimAround(lead, f, "");
    assert lead + f + "" == lead + f;
  }

  /** A whole field followed by a comma: cut off, and the scanner starts afresh. */
  lemma FieldThenComma(lead: string, f: string, rest: string, s: Scan) returns (s': Scan)
    requires Whole(f) && f != "" && Trimmed(f) && Lead(lead) && Neutral(s)
    ensures Neutral(s')
    ensures TrimAll(Fields(s, lead + f + "," + rest)) == [f] + TrimAll(Fields(s', rest))
  {
    var head := lead + f;
    WholeLead(lead, f, s);
    FieldTrim(lead, f);
    var s1 := Run(s, head);
    s' := Step(s1, ',');
    hide Whole, Trim;
    Assoc(head, ",", rest);
    FieldsUncut(s, head, "," + rest);
    assert ("," + rest)[0] == ',' && ("," + rest)[1..] == rest;
    assert Glue(head, [""] + Fields(s', rest)) == [head] + Fields(s', rest) by { assert head + "" == head; }
  }

  lemma FieldAlone(lead: string, f: string, s: Scan)
    requires Uncut(s, lead + f) && Trimmed(f) && Lead(lead)
    ensures TrimAll(Fields(s, lead + f)) == [f]
  {
    var head := lead + f;
    FieldTrim(lead, f);
    FieldsUncut(s, head, "");
    hide Trim;
    assert head + "" == head && Glue(head, [""]) == [head];
  }

  /** `splitPredicates` undoes the comma join. */
  lemma {:induction false} FieldsJoin(fs: seq<string>, lead: string, s: Scan)
    requires fs != [] && Wholes(fs) && Bodies(fs) && Lead(lead) && Neutral(s)
    ensures TrimAll(Fields(s, lead + Join(fs, ",\n  "))) == fs
    decreases fs
  {
    hide Whole, Fields, TrimAll, Trimmed;
    if |fs| == 1 {
      WholeLead(lead, fs[0], s);
      FieldAlone(lead, fs[0], s);
    } else {
      var more := Join(fs[1..], ",\n  ");
      assert lead + Join(fs, ",\n  ") == lead + fs[0] + "," + ("\n  " + more) by {
        assert ",\n  " == "," + "\n  ";
      }
      var s' := FieldThenComma(lead, fs[0], "\n  " + more, s);
      FieldsJoin(fs[1..], "\n  ", s');
      assert fs == [fs[0]] + fs[1..];
    }
  }

  // ----- quoted strings, actions -----

  lemma ParseQuote(s: string)
    ensures ParseString(Json.Quote(s)) == Ok(s)
  {
    Json.RoundTrip(Json.Str(s));
  }

  lemma {:induction false} ParseQuotes(parts: seq<string>)
    ensures ParseStrings(Quotes(parts)) == Ok(parts)
  {
    if parts != [] {
      ParseQuote(parts[0]);
      ParseQuotes(parts[1..]);
      assert [parts[0]] + parts[1..] == parts;
    }
  }

  lemma SplitBar(lead: string, s: string, rest: string)
    requires (lead == "" || lead == " ") && '|' !in s
    ensures TrimAll(Split(lead + Json.Quote(s), '|')) == [Json.Quote(s)]
    ensures TrimAll(Split(lead + Json.Quote(s) + " |" + rest, '|')) == [Json.Quote(s)] + TrimAll(Split(rest, '|'))
  {
    var q := Json.Quote(s);
    QuoteShape(s);
    QuoteKeeps(s, '|');
    assert Trim(lead + q) == q by {
      TrimAround(lead, q, "");
      assert lead + q + "" == lead + q;
    }
    TrimAround(lead, q, " ");
    hide Json.Quote, Trim, Trimmed;
    SplitNone(lead + q, '|');
    assert lead + q + " |" + rest == lead + q + " " + ['|'] + rest by { assert " |" == " " + ['|']; }
    SplitHead(lead + q + " ", '|', rest);
    hide Split;
  }

  lemma {:induction false} SplitBars(parts: seq<string>, lead: string)
    requires parts != [] && (lead == "" || lead == " ")
    requires forall i :: 0 <= i < |parts| ==> '|' !in parts[i]
    ensures TrimAll(Split(lead + Join(Quotes(parts), " | "), '|')) == Quotes(parts)
    decreases parts
  {
    hide Json.Quote, TrimAll, Split;
    var q := Json.Quote(parts[0]);
    if |parts| == 1 {
      SplitBar(lead, parts[0], "");
    } else {
      var more := Join(Quotes(parts[1..]), " | ");
      assert lead + Join(Quotes(parts), " | ") == lead + q + " |" + (" " + more) by {
        assert " | " == " |" + " ";
      }
      SplitBar(lead, parts[0], " " + more);
      SplitBars(parts[1..], " ");
    }
  }

  lemma ActionsParse(actions: seq<string>)
    requires actions != [] && forall i :: 0 <= i < |actions| ==> '|' !in actions[i]
    ensures ParseActions(PrintActions(actions)) == Ok(actions)
  {
    SplitBars(actions, "");
    ParseQuotes(actions);
    var joined := Join(Quotes(actions), " | ");
    assert "" + joined == joined;
    if |actions| > 1 {
      assert Inside("(" + joined + ")") == joined;
    }
  }

  // ----- tokens and conditions -----

  lemma {:induction false} LiteralPlain(a: string, rest: string)
    requires forall i :: 0 <= i < |a| ==> a[i] != '"' && a[i] != '\\'
    ensures LiteralRest(a + rest) == match LiteralRest(rest) case None => None case Some(n) => Some(n + |a|)
  {
    if a == "" {
      assert a + rest == rest;
    } else {
      assert (a + rest)[0] == a[0] && (a + rest)[1..] == a[1..] + rest;
      LiteralPlain(a[1..], rest);
    }
  }

  lemma LiteralChar(c: char, rest: string)
    ensures var e := Json.EscapeChar(c);
      LiteralRest(e + rest) == match LiteralRest(rest) case None => None case Some(n) => Some(n + |e|)
  {
    var e := Json.EscapeChar(c);
    var t := e + rest;
    EscapeCharShape(c);
    if |e| == 1 {
      LiteralPlain(e, rest);
    } else {
      assert t[0] == '\\' && t[1] == e[1] && !IsLineEnd(e[1]);
      assert t[2..] == e[2..] + rest;
      LiteralPlain(e[2..], rest);
    }
  }

  lemma {:induction false} LiteralEscaped(s: string, rest: string)
    ensures LiteralRest(Json.Escaped(s) + "\"" + rest) == Some(|Json.Escaped(s)| + 1)
  {
    if s == "" {
      assert Json.Escaped(s) + "\"" + rest == "\"" + rest;
    } else {
      LiteralEscaped(s[1..], rest);
      LiteralChar(s[0], Json.Escaped(s[1..]) + "\"" + rest);
      Assoc4(Json.EscapeChar(s[0]), Json.Escaped(s[1..]), "\"", rest);
      Assoc(Json.Escaped(s[1..]), "\"", rest);
    }
  }

  lemma LiteralQuote(s: string, rest: string)
    ensures LiteralLength(Json.Quote(s) + rest) == Some(|Json.Quote(s)|)
  {
    LiteralEscaped(s, rest);
    assert (Json.Quote(s) + rest)[1..] == Json.Escaped(s) + "\"" + rest;
  }

  lemma TokensQuote(s: string, rest: string)
    ensures Tokens(Json.Quote(s) + rest) == [Json.Quote(s)] + Tokens(rest)
  {
    var q := Json.Quote(s);
    LiteralQuote(s, rest);
    assert (q + rest)[0] == '"' && (q + rest)[..|q|] == q && (q + rest)[|q|..] == rest;
  }

  lemma TokensSpace(rest: string)
    ensures Tokens(" " + rest) == Tokens(rest)
  {
    assert (" " + rest)[1..] == rest;
  }

  /** A word no other alternative of the token pattern matches. */
  predicate IsWord(word: string) {
    word != "" && (word[0] == 'o' || word[0] == 'h' || word[0] == 'e') &&
    forall c <- word :: Solid(c)
  }

  lemma TokensWord(word: string, rest: string)
    requires IsWord(word) && rest != "" && IsSpace(rest[0])
    ensures Tokens(word + rest) == [word] + Tokens(rest)
  {
    var t := word + rest;
    assert t[0] == word[0] && t[..|word|] == word && t[|word|..] == rest;
    SpanAppend(word, rest, Solid);
    assert "true"[0] == 't' && "false"[0] == 'f' && "null"[0] == 'n';
    assert Json.NumberLength(t) == 0;
    assert TokenLength(t) == |word|;
  }

  lemma {:induction false} TokensQuotes(parts: seq<string>)
    ensures Tokens(Join(Quotes(parts), " ")) == Quotes(parts)
  {
    if |parts| == 1 {
      TokensQuote(parts[0], "");
      assert Json.Quote(parts[0]) + "" == Json.Quote(parts[0]);
    } else if |parts| > 1 {
      var rest := Join(Quotes(parts[1..]), " ");
      Assoc(Json.Quote(parts[0]), " ", rest);
      TokensQuote(parts[0], " " + rest);
      TokensSpace(rest);
      TokensQuotes(parts[1..]);
    }
  }

  lemma ParsePathQuote(path: string)
    requires IsSafePath(path)
    ensures ParsePath(Json.Quote(path)) == Ok(path)
  {
    ParseQuote(path);
  }

  lemma PrintEnds(v: Json.Value)
    requires Json.Valid(v)
    ensures var t := Json.Print(v); t != "" && Trimmed(t)
  {
    hide Json.PrintItems, Json.PrintMembers, Json.IsNumber;
    match v
    case Number(lexeme) => NumberEnds(lexeme);
    case Str(s) => QuoteShape(s);
    case _ =>
  }

  lemma NumberEnds(lexeme: string)
    requires Json.IsNumber(lexeme)
    ensures lexeme != "" && Trimmed(lexeme)
  {
    var a, z := lexeme[0], lexeme[|lexeme| - 1];
    assert a in lexeme && z in lexeme;
    assert Json.IsNumberChar(a) && Json.IsNumberChar(z);
    hide Json.IsNumber;
  }

  lemma {:induction false} JoinEnds(parts: seq<string>, sep: string)
    requires parts != []
    ensures var t := Join(Quotes(parts), sep); |t| > 1 && t[0] == '"' && t[|t| - 1] == '"'
  {
    QuoteShape(parts[0]);
    if |parts| > 1 {
      JoinEnds(parts[1..], sep);
    }
  }

  lemma BodyTrimmed(c: Condition)
    requires WfCondition(c)
    ensures var t := ConditionBody(c); t != "" && Trimmed(t)
  {
    match c
    case Owner(subject, resource) => QuoteShape(resource);
    case HasRole(roles) => JoinEnds(roles, " ");
    case HasScope(scopes) => JoinEnds(scopes, " ");
    case Equals(path, value) => PrintEnds(value);
  }

  lemma OwnerTokens(subject: string, resource: string)
    ensures Tokens(ConditionBody(Owner(subject, resource))) == ["owner", Json.Quote(subject), Json.Quote(resource)]
  {
    var qs, qr := Json.Quote(subject), Json.Quote(resource);
    var tail := qs + (" " + qr);
    assert ConditionBody(Owner(subject, resource)) == "owner" + (" " + tail);
    assert Tokens("") == [];
    hide Json.Quote;
    TokensWord("owner", " " + tail);
    TokensSpace(tail);
    TokensQuote(subject, " " + qr);
    TokensSpace(qr);
    TokensQuote(resource, "");
    assert qr + "" == qr;
    hide Tokens;
  }

  lemma OwnerParse(subject: string, resource: string)
    requires IsSafePath(subject) && IsSafePath(resource)
    ensures ParseBody(ConditionBody(Owner(subject, resource))) == Ok(Owner(subject, resource))
  {
    hide Tokens, ParsePath, IsSafePath, Json.Quote;
    OwnerTokens(subject, resource);
    ParsePathQuote(subject);
    ParsePathQuote(resource);
  }

  lemma ListParse(word: string, parts: seq<string>)
    requires IsWord(word) && parts != []
    ensures Tokens(word + " " + Join(Quotes(parts), " ")) == [word] + Quotes(parts)
    ensures ParseStrings(Quotes(parts)) == Ok(parts)
  {
    var tail := Join(Quotes(parts), " ");
    Assoc(word, " ", tail);
    TokensWord(word, " " + tail);
    TokensSpace(tail);
    TokensQuotes(parts);
    ParseQuotes(parts);
  }

  lemma TrimStartSolid(t: string)
    requires t != "" && !IsSpace(t[0])
    ensures TrimStart(t) == t && TrimStart(" " + t) == t
  {
    assert (" " + t)[1..] == t;
  }

  lemma EqualsParse(path: string, value: Json.Value)
    requires IsSafePath(path) && Json.Valid(value)
    ensures ParseEquals(Json.Quote(path) + " " + Json.Print(value)) == Ok(Equals(path, value))
  {
    var q, v := Json.Quote(path), Json.Print(value);
    var text := q + (" " + v);
    Assoc(q, " ", v);
    LiteralQuote(path, " " + v);
    assert text[..|q|] == q && text[|q|..] == " " + v && text[|q|] == ' ';
    PrintEnds(value);
    TrimStartSolid(v);
    ParsePathQuote(path);
    Json.RoundTrip(value);
  }

  lemma EqualsBodyParse(path: string, value: Json.Value)
    requires IsSafePath(path) && Json.Valid(value)
    ensures ParseBody(ConditionBody(Equals(path, value))) == Ok(Equals(path, value))
  {
    hide Tokens, ParseEquals, IsSafePath, Json.Quote, Json.Print, Trim;
    var tail := Json.Quote(path) + " " + Json.Print(value);
    var body := ConditionBody(Equals(path, value));
    assert body == "equals" + (" " + tail);
    TokensWord("equals", " " + tail);
    assert body[6..] == " " + tail;
    PrintEnds(value);
    QuoteShape(path);
    assert tail[0] == '"' && tail[|tail| - 1] == Json.Print(value)[|Json.Print(value)| - 1];
    TrimAround(" ", tail, "");
    assert " " + tail + "" == " " + tail;
    EqualsParse(path, value);
  }

  lemma BodyParse(c: Condition)
    requires WfCondition(c)
    ensures ParseBody(ConditionBody(c)) == Ok(c)
  {
    hide Tokens, ParseStrings, ParseEquals, ParseOwner, IsSafePath, Quotes;
    match c
    case Owner(subject, resource) => OwnerParse(subject, resource);
    case HasRole(roles) =>
      ListParse("has-role", roles);
      assert "has-role" + " " == "has-role ";
      assert (["has-role"] + Quotes(roles))[1..] == Quotes(roles);
    case HasScope(scopes) =>
      ListParse("has-scope", scopes);
      assert "has-scope" + " " == "has-scope ";
      assert (["has-scope"] + Quotes(scopes))[1..] == Quotes(scopes);
    case Equals(path, value) => EqualsBodyParse(path, value);
  }

  lemma ConditionParse(c: Condition)
    requires WfCondition(c)
    ensures ParseCondition(PrintCondition(c)) == Ok(c)
  {
    hide ConditionBody, Trim, ParseBody, WfCondition;
    var body := ConditionBody(c);
    assert Inside(PrintCondition(c)) == " " + body + " ";
    BodyTrimmed(c);
    TrimAround(" ", body, " ");
    BodyParse(c);
  }

  lemma {:induction false} ConditionsParse(cs: seq<Condition>)
    requires forall i :: 0 <= i < |cs| ==> WfCondition(cs[i])
    ensures ParseConditions(PrintConditions(cs)) == Ok(cs)
  {
    hide WfCondition, PrintCondition, ParseCondition;
    if cs != [] {
      ConditionParse(cs[0]);
      ConditionsParse(cs[1..]);
      assert [cs[0]] + cs[1..] == cs;
    }
  }

  // ----- the printed pieces as the scanners see them -----

  lemma BodyBalanced(c: Condition, bad: set<char>)
    requires WfCondition(c) && ConditionStrings(c, Closes) && JsonSafe(bad)
    ensures Balanced(ConditionBody(c), bad)
  {
    hide WfCondition, ConditionStrings, ConditionBody;
    CarriesBalanced(bad);
    GoodBody(c, Closes, BalancedIn(bad));
  }

  lemma {:induction false} BalancedQuotes(parts: seq<string>, action: bool, sep: string, bad: set<char>)
    requires AllStrings(parts, action, Closes) && '"' !in bad
    requires Balanced(sep, bad)
    ensures Balanced(Join(Quotes(parts), sep), bad)
  {
    hide Balanced;
    if |parts| == 0 {
      BalancedPlain("", bad);
    } else {
      assert Closes(parts[0], action);
      BalancedQuote(parts[0], bad);
      if |parts| > 1 {
        forall i | 0 <= i < |parts[1..]| ensures Closes(parts[1..][i], action) { assert Closes(parts[i + 1], action); }
        BalancedQuotes(parts[1..], action, sep, bad);
        BalancedConcat(Json.Quote(parts[0]), sep, bad);
        BalancedConcat(Json.Quote(parts[0]) + sep, Join(Quotes(parts[1..]), sep), bad);
      }
    }
  }

  /** What the comma scanner needs of a field, and what makes it one again. */
  ghost predicate FieldOk(t: string) {
    t != "" && Trimmed(t) && Whole(t) && Balanced(t, {})
  }

  ghost predicate FieldsOk(fs: seq<string>) {
    forall i :: 0 <= i < |fs| ==> FieldOk(fs[i])
  }

  lemma Wrapping()
    ensures Balanced(" ", {'?'}) && Balanced("? ", {}) && Balanced(" ?", {}) && Balanced("(", {}) && Balanced(")", {})
  {
    BalancedPlain(" ", {'?'});
    BalancedPlain("? ", {});
    BalancedPlain(" ?", {});
    BalancedPlain("(", {});
    BalancedPlain(")", {});
    hide Balanced;
  }

  lemma ConditionField(c: Condition)
    requires WfCondition(c) && ConditionStrings(c, Closes)
    ensures FieldOk(PrintCondition(c))
  {
    hide ConditionBody, WfCondition, ConditionStrings, Balanced, Whole;
    var body := ConditionBody(c);
    BodyTrimmed(c);
    Wrapping();
    BodyBalanced(c, {'?'});
    BodyBalanced(c, {});
    BalancedConcat(" ", body, {'?'});
    BalancedConcat(" " + body, " ", {'?'});
    WholeWrapped('?', " " + body + " ", '?');
    assert PrintCondition(c) == ['?'] + (" " + body + " ") + ['?'];
    BalancedConcat("? ", body, {});
    BalancedConcat("? " + body, " ?", {});
  }

  lemma ActionsField(actions: seq<string>)
    requires actions != [] && AllStrings(actions, true, Closes)
    ensures FieldOk(PrintActions(actions))
  {
    hide FieldOk, Json.Quote, Join, Quotes;
    if |actions| == 1 {
      assert Closes(actions[0], true);
      OneField(actions[0]);
    } else {
      ListField(actions);
    }
  }

  lemma OneField(action: string)
    requires Closes(action, true)
    ensures FieldOk(Json.Quote(action))
  {
    BalancedQuote(action, MARKS);
    BalancedQuote(action, {});
    QuoteShape(action);
    hide Balanced, Whole, Json.Quote;
    WholeBalanced(Json.Quote(action));
  }

  lemma ListField(actions: seq<string>)
    requires AllStrings(actions, true, Closes)
    ensures FieldOk("(" + Join(Quotes(actions), " | ") + ")")
  {
    var joined := Join(Quotes(actions), " | ");
    BalancedPlain(" | ", MARKS);
    BalancedPlain(" | ", {});
    Wrapping();
    hide Balanced, Whole, Join, Quotes;
    BalancedQuotes(actions, true, " | ", MARKS);
    BalancedQuotes(actions, true, " | ", {});
    WholeWrapped('(', joined, ')');
    BalancedConcat("(", joined, {});
    BalancedConcat("(" + joined, ")", {});
  }

  lemma {:induction false} ConditionFields(cs: seq<Condition>)
    requires forall i :: 0 <= i < |cs| ==> WfCondition(cs[i]) && ConditionStrings(cs[i], Closes)
    ensures FieldsOk(PrintConditions(cs))
  {
    hide FieldOk, PrintCondition;
    if cs != [] {
      ConditionField(cs[0]);
      ConditionFields(cs[1..]);
    }
  }

  lemma RuleFields(name: string, rule: Rule)
    requires WfRule(name, rule) && RuleStrings(rule, Closes)
    ensures FieldsOk(RhsFields(rule))
  {
    hide FieldOk, PrintActions;
    ActionsField(rule.actions);
    ConditionFields(rule.conditions);
    var fs := RhsFields(rule);
    forall i | 0 <= i < |fs| ensures FieldOk(fs[i]) {
      assert i > 0 ==> fs[i] == PrintConditions(rule.conditions)[i - 1];
    }
  }

  lemma {:induction false} JoinedFields(fs: seq<string>)
    requires fs != [] && Bodies(fs)
    ensures var t := Join(fs, ",\n  "); t != "" && Trimmed(t) && t[0] == fs[0][0]
  {
    assert fs[0] != "" && Trimmed(fs[0]);
    if |fs| > 1 {
      var more := Join(fs[1..], ",\n  ");
      JoinedFields(fs[1..]);
      var t := fs[0] + ",\n  " + more;
      assert t[0] == fs[0][0] && t[|t| - 1] == more[|more| - 1];
    }
  }

  lemma {:induction false} ConditionBodies(cs: seq<Condition>)
    requires forall i :: 0 <= i < |cs| ==> WfCondition(cs[i])
    ensures Bodies(PrintConditions(cs))
  {
    hide ConditionBody, WfCondition;
    if cs != [] {
      assert PrintCondition(cs[0])[0] == '?';
      ConditionBodies(cs[1..]);
    }
  }

  /** A right-hand side starts and ends with a mark or a quote. */
  lemma RhsTrimmed(name: string, rule: Rule)
    requires WfRule(name, rule)
    ensures PrintRhs(rule) != "" && Trimmed(PrintRhs(rule))
  {
    hide WfCondition, ConditionBody, Json.Quote, Join;
    assert PrintActions(rule.actions) != "" && Trimmed(PrintActions(rule.actions)) by {
      QuoteShape(rule.actions[0]);
    }
    ConditionBodies(rule.conditions);
    hide PrintActions, Trimmed;
    var fs := RhsFields(rule);
    assert fs[1..] == PrintConditions(rule.conditions);
    JoinedFields(fs);
  }

  /** A rule whose strings all end otherwise than in a backslash, or that consists of one action. */
  predicate Readable(rule: Rule) {
    RuleStrings(rule, Closes) || (|rule.actions| == 1 && rule.conditions == [])
  }

  /** A quoted string that ends in a backslash leaves the scanners inside quotes. */
  lemma StuckRun(lex: Lex, s: string, bad: set<char>)
    requires !lex.quoted && lex.prev != '\\' && EndsInBackslash(s) && '"' !in bad
    ensures LexAll(lex, Json.Quote(s)) == Lex('"', true) && Avoids(lex, Json.Quote(s), bad)
  {
    var inside := Lex('"', true);
    assert Next(lex, '"') == inside;
    EscapedRun('"', s, bad);
    assert LexAll(lex, "\"") == inside;
    LexConcat(lex, "\"", Json.Escaped(s));
    LexConcat(lex, "\"" + Json.Escaped(s), "\"");
    AvoidsConcat(lex, "\"", Json.Escaped(s), bad);
    AvoidsConcat(lex, "\"" + Json.Escaped(s), "\"", bad);
  }

  /** One quoted string, whatever it holds, is one field. */
  lemma QuoteField(s: string)
    ensures TrimAll(Fields(TOP, Json.Quote(s))) == [Json.Quote(s)]
  {
    var q := Json.Quote(s);
    assert Avoids(START, q, MARKS) by {
      if EndsInBackslash(s) { StuckRun(START, s, MARKS); } else { QuoteRun(START, s, MARKS); }
    }
    QuoteShape(s);
    hide Json.Quote;
    RunPlain(TOP, q);
    assert "" + q == q;
    FieldAlone("", q, TOP);
  }

  /** The comma scanner gives back the fields of a readable rule. */
  lemma RhsShape(name: string, rule: Rule)
    requires WfRule(name, rule) && Readable(rule)
    ensures TrimAll(Fields(TOP, PrintRhs(rule))) == RhsFields(rule)
  {
    var fs := RhsFields(rule);
    if RuleStrings(rule, Closes) {
      RuleFields(name, rule);
      hide Balanced, Whole, PrintActions, PrintConditions, RhsFields;
      assert "" + Join(fs, ",\n  ") == Join(fs, ",\n  ");
      FieldsJoin(fs, "", TOP);
    } else {
      QuoteField(rule.actions[0]);
      hide Json.Quote, Fields, TrimAll;
    }
  }

  // ----- statement headers -----

  lemma TakeName(name: string, rest: string)
    requires IsIdent(name) && rest != "" && !IsIdentPart(rest[0])
    ensures TakeIdent(name + rest) == Some((name, rest))
  {
    SpanAppend(name, rest, IsIdentPart);
    assert (name + rest)[0] == name[0] && (name + rest)[..|name|] == name && (name + rest)[|name|..] == rest;
  }

  lemma AfterWordOf(word: string, t: string)
    requires t != "" && !IsSpace(t[0])
    ensures AfterWord(word + " " + t, word) == Some(t)
  {
    var text := word + " " + t;
    assert text[..|word|] == word && text[|word|..] == " " + t && text[|word|] == ' ';
    TrimStartSolid(t);
  }

  lemma AfterEqualsOf(before: string, after: string, t: string)
    requires Blank(before) && Blank(after) && t != "" && !IsSpace(t[0])
    ensures AfterEquals(before + "=" + after + t) == Some(t)
  {
    var u := "=" + after + t;
    assert before + "=" + after + t == before + u;
    TrimStartBlank(before, u);
    assert u[0] == '=' && u[1..] == after + t;
    TrimStartBlank(after, t);
    TrimStartSolid(t);
  }

  lemma PolicyStatementWord(p: Policy)
    ensures PolicyStatement(p) == "policy" + " " + (p.name + (" " + "=" + " " + Json.Quote(p.resource)))
  {
    hide Json.Quote;
  }

  lemma PolicyHeaderOf(p: Policy)
    requires IsIdent(p.name)
    ensures PolicyHeader(PolicyStatement(p)) == Some((p.name, Json.Quote(p.resource)))
  {
    var q := Json.Quote(p.resource);
    var rest := " " + "=" + " " + q;
    PolicyStatementWord(p);
    hide PolicyStatement, AfterWord, TakeIdent, AfterEquals, LiteralLength;
    assert AfterWord("policy" + " " + (p.name + rest), "policy") == Some(p.name + rest) by {
      IdentChars(p.name);
      AfterWordOf("policy", p.name + rest);
    }
    TakeName(p.name, rest);
    assert AfterEquals(rest) == Some(q) by {
      QuoteShape(p.resource);
      AfterEqualsOf(" ", " ", q);
    }
    assert LiteralLength(q) == Some(|q|) by {
      LiteralQuote(p.resource, "");
      assert q + "" == q;
    }
    hide Json.Quote;
  }

  lemma HeaderRestOf(effect: Effect, name: string, verb: string, rhs: string)
    requires IsIdent(name) && IsIdent(verb) && rhs != "" && !IsSpace(rhs[0])
    ensures HeaderRest(effect, name + " " + verb + " =\n  " + rhs) == Some(Header(effect, name, verb, rhs))
  {
    var tail := " " + "=" + "\n  " + rhs;
    var more := verb + tail;
    hide TakeIdent, AfterEquals, TrimStart;
    assert name + " " + verb + " =\n  " + rhs == name + (" " + more) by {
      assert " =\n  " == " " + "=" + "\n  ";
    }
    TakeName(name, " " + more);
    assert TrimStart(" " + more) == more by {
      IdentChars(verb);
      TrimStartSolid(more);
    }
    TakeName(verb, tail);
    assert AfterEquals(tail) == Some(rhs) by { AfterEqualsOf(" ", "\n  ", rhs); }
  }

  lemma RuleStatementWord(name: string, rule: Rule)
    ensures RuleStatement(name, rule)
         == EffectName(rule.effect) + " " + (name + " " + MethodName(rule.id) + " =\n  " + PrintRhs(rule))
  {
    hide PrintRhs, MethodName;
  }

  lemma RuleHeaderText(effect: Effect, name: string, m: string, rhs: string)
    requires IsIdent(name) && IsIdent(m) && rhs != "" && !IsSpace(rhs[0])
    ensures var st := EffectName(effect) + " " + (name + " " + m + " =\n  " + rhs);
      PolicyHeader(st) == None && RuleHeader(st) == Some(Header(effect, name, m, rhs))
  {
    var tail := name + " " + m + " =\n  " + rhs;
    IdentChars(name);
    var word := EffectName(effect);
    var st := word + " " + tail;
    assert tail[0] == name[0] && st[0] == word[0];
    AfterWordOf(word, tail);
    assert AfterWord(st, "policy") == None by { assert "policy"[0] == 'p'; }
    assert effect.Deny? ==> AfterWord(st, "allow") == None by { assert "allow"[0] == 'a'; }
    HeaderRestOf(effect, name, m, rhs);
    hide AfterWord, HeaderRest;
  }

  lemma RuleHeaderOf(name: string, rule: Rule)
    requires IsIdent(name) && IsIdent(MethodName(rule.id))
    requires PrintRhs(rule) != "" && !IsSpace(PrintRhs(rule)[0])
    ensures PolicyHeader(RuleStatement(name, rule)) == None
    ensures RuleHeader(RuleStatement(name, rule)) ==
      Some(Header(rule.effect, name, MethodName(rule.id), PrintRhs(rule)))
  {
    RuleStatementWord(name, rule);
    hide PrintRhs, MethodName, RuleStatement, PolicyHeader, RuleHeader;
    RuleHeaderText(rule.effect, name, MethodName(rule.id), PrintRhs(rule));
  }

  // ----- one statement at a time -----

  /** A statement that the split at semicolons gives back. */
  predicate Unbroken(t: string) { t != "" && Trimmed(t) && ';' !in t }

  lemma TrimmedConcat(a: string, b: string)
    requires a != "" && !IsSpace(a[0]) && b != "" && Trimmed(b)
    ensures a + b != "" && Trimmed(a + b)
  {
    assert (a + b)[0] == a[0] && (a + b)[|a + b| - 1] == b[|b| - 1];
  }

  lemma PolicyTrimmed(p: Policy)
    ensures PolicyStatement(p) != "" && Trimmed(PolicyStatement(p))
  {
    var head := "policy " + p.name + " = ";
    assert head[0] == 'p';
    QuoteShape(p.resource);
    hide Json.Quote;
    TrimmedConcat(head, Json.Quote(p.resource));
  }

  lemma RuleTrimmed(name: string, rule: Rule)
    requires WfRule(name, rule)
    ensures RuleStatement(name, rule) != "" && Trimmed(RuleStatement(name, rule))
  {
    RuleStatementText(name, rule);
    RhsTrimmed(name, rule);
    assert RuleHead(name, rule)[0] == EffectName(rule.effect)[0];
    hide RuleHead, PrintRhs, Trimmed;
    TrimmedConcat(RuleHead(name, rule), PrintRhs(rule));
  }

  lemma PolicyUnbroken(p: Policy)
    requires IsIdent(p.name) && Unseparated(p.resource, false)
    ensures Unbroken(PolicyStatement(p))
  {
    PolicyTrimmed(p);
    hide PolicyStatement, IsIdent, Unseparated, Trimmed;
    CarriesLacks();
    GoodPolicy(p, Unseparated, Lacks(';'));
  }

  lemma RuleUnbroken(name: string, rule: Rule)
    requires IsIdent(name) && WfRule(name, rule) && RuleStrings(rule, Unseparated)
    ensures Unbroken(RuleStatement(name, rule))
  {
    RuleTrimmed(name, rule);
    hide RuleStatement, WfRule, RuleStrings, IsIdent, Trimmed;
    CarriesLacks();
    GoodRule(name, rule, Unseparated, Lacks(';'));
  }

  lemma PolicyExec(st: State, p: Policy)
    requires IsIdent(p.name) && !Clashes(st.policies, p.name, p.resource)
    ensures Exec(st, PolicyStatement(p)) == Ok(st.(policies := st.policies + [p.(rules := [])]))
  {
    PolicyHeaderOf(p);
    ParseQuote(p.resource);
    hide PolicyHeader, PolicyStatement, Json.Quote, ParseString;
  }

  /** The rules a policy has gathered so far. */
  function WithRules(p: Policy, n: nat): Policy
    requires n <= |p.rules|
  {
    p.(rules := p.rules[..n])
  }

  function IdsOf(rules: seq<Rule>): set<string> { set r <- rules :: r.id }

  predicate NoName(policies: seq<Policy>, name: string) {
    forall i :: 0 <= i < |policies| ==> policies[i].name != name
  }

  lemma {:induction false} LookupLast(policies: seq<Policy>, p: Policy)
    requires NoName(policies, p.name)
    ensures Lookup(policies + [p], p.name) == Some(|policies|)
  {
    if policies != [] {
      assert (policies + [p])[0] == policies[0] && (policies + [p])[1..] == policies[1..] + [p];
      LookupLast(policies[1..], p);
    }
  }

  lemma ParseRuleOf(name: string, rule: Rule)
    requires WfRule(name, rule) && Readable(rule) && AllStrings(rule.actions, true, Unseparated)
    ensures ParseRule(Header(rule.effect, name, MethodName(rule.id), PrintRhs(rule))) == Ok(rule)
  {
    RhsShape(name, rule);
    forall i | 0 <= i < |rule.actions| ensures '|' !in rule.actions[i] { assert Unseparated(rule.actions[i], true); }
    ActionsParse(rule.actions);
    ConditionsParse(rule.conditions);
    hide Balanced, PrintRhs, PrintActions, PrintConditions, ParseActions, ParseConditions, Fields, TrimAll;
    assert RhsFields(rule)[1..] == PrintConditions(rule.conditions);
  }

  lemma AddRuleOf(before: seq<Policy>, p: Policy, n: nat, ids: set<string>, h: Header)
    requires n < |p.rules| && NoName(before, p.name) && h.policy == p.name
    requires p.rules[n].id == h.policy + "." + h.verb && p.rules[n].id !in ids
    requires TrimAll(Fields(TOP, h.rhs))[0] != "" && ParseRule(h) == Ok(p.rules[n])
    ensures AddRule(State(before + [WithRules(p, n)], ids), h)
         == Ok(State(before + [WithRules(p, n + 1)], ids + {p.rules[n].id}))
  {
    hide Fields, TrimAll, ParseRule;
    LookupLast(before, WithRules(p, n));
    var table := before + [WithRules(p, n)];
    assert table[|before|] == WithRules(p, n);
    assert p.rules[..n] + [p.rules[n]] == p.rules[..n + 1];
    assert table[|before| := WithRules(p, n + 1)] == before + [WithRules(p, n + 1)];
    hide Lookup;
  }

  lemma RuleExec(before: seq<Policy>, p: Policy, n: nat, ids: set<string>)
    requires WfPolicy(p) && n < |p.rules| && NoName(before, p.name)
    requires Readable(p.rules[n]) && RuleStrings(p.rules[n], Unseparated)
    requires p.rules[n].id !in ids
    ensures Exec(State(before + [WithRules(p, n)], ids), RuleStatement(p.name, p.rules[n]))
         == Ok(State(before + [WithRules(p, n + 1)], ids + {p.rules[n].id}))
  {
    var rule := p.rules[n];
    assert WfRule(p.name, rule);
    RhsShape(p.name, rule);
    RhsTrimmed(p.name, rule);
    hide PrintRhs, MethodName, PolicyHeader, RuleHeader, RuleStatement, Fields, TrimAll, Readable;
    RuleHeaderOf(p.name, rule);
    ParseRuleOf(p.name, rule);
    assert PrintActions(rule.actions) != "" by { QuoteShape(rule.actions[0]); }
    hide ParseRule, PrintActions, PrintConditions, AddRule;
    AddRuleOf(before, p, n, ids, Header(rule.effect, p.name, MethodName(rule.id), PrintRhs(rule)));
  }

  // ----- all statements of a document -----

  lemma {:induction false} ExecAllConcat(st: State, a: seq<string>, b: seq<string>)
    ensures ExecAll(st, a + b) == match ExecAll(st, a) case Err(e) => Err(e) case Ok(st') => ExecAll(st', b)
    decreases a
  {
    hide Exec;
    if a == [] {
      assert a + b == b;
    } else {
      assert (a + b)[0] == a[0] && (a + b)[1..] == a[1..] + b;
      match Exec(st, a[0])
      case Err(_) =>
      case Ok(st') => ExecAllConcat(st', a[1..], b);
    }
  }

  predicate FreshIds(rules: seq<Rule>, ids: set<string>) {
    forall i :: 0 <= i < |rules| ==> rules[i].id !in ids
  }

  ghost predicate RulesStorable(p: Policy) {
    forall i :: 0 <= i < |p.rules| ==> Readable(p.rules[i]) && RuleStrings(p.rules[i], Unseparated)
  }

  lemma FreshRest(p: Policy, n: nat, ids: set<string>)
    requires DistinctIds(p.rules) && n < |p.rules| && FreshIds(p.rules[n..], ids)
    ensures p.rules[n].id !in ids && FreshIds(p.rules[n + 1..], ids + {p.rules[n].id})
  {
    var now, more := p.rules[n..], p.rules[n + 1..];
    assert now[0] == p.rules[n];
    forall i | 0 <= i < |more| ensures more[i].id !in ids + {p.rules[n].id} {
      assert more[i] == now[i + 1] == p.rules[n + 1 + i];
      assert now[i + 1].id !in ids && p.rules[n].id != p.rules[n + 1 + i].id;
    }
  }

  lemma {:induction false} RulesExec(before: seq<Policy>, p: Policy, n: nat, ids: set<string>)
    requires WfPolicy(p) && n <= |p.rules| && NoName(before, p.name) && RulesStorable(p)
    requires FreshIds(p.rules[n..], ids)
    ensures ExecAll(State(before + [WithRules(p, n)], ids), RuleStatements(p.name, p.rules[n..]))
         == Ok(State(before + [p], ids + IdsOf(p.rules[n..])))
    decreases |p.rules| - n
  {
    hide Exec, RuleStatement, WfRule, RuleStrings;
    var rest := p.rules[n..];
    if n == |p.rules| {
      assert WithRules(p, n) == p;
      assert ids + IdsOf(rest) == ids;
    } else {
      assert rest[0] == p.rules[n] && rest[1..] == p.rules[n + 1..];
      assert p.rules[n].id !in ids by { FreshRest(p, n, ids); }
      RuleExec(before, p, n, ids);
      var ids' := ids + {rest[0].id};
      FreshRest(p, n, ids);
      RulesExec(before, p, n + 1, ids');
      assert rest == [rest[0]] + rest[1..];
      assert ids' + IdsOf(rest[1..]) == ids + IdsOf(rest);
      hide IdsOf, FreshIds, WithRules;
    }
  }

  /** No rule id of the policy called `name` has been seen. */
  ghost predicate FreshName(ids: set<string>, name: string) {
    forall m: string :: name + "." + m !in ids
  }

  /** The name can be read off a rule id: identifiers hold no dot. */
  lemma IdName(name: string, m: string)
    requires IsIdent(name)
    ensures Span(name + "." + m, c => c != '.') == |name|
  {
    IdentChars(name);
    forall c | c in name ensures c != '.' {
      var i :| 0 <= i < |name| && name[i] == c;
    }
    SpanAppend(name, "." + m, c => c != '.');
    Assoc(name, ".", m);
  }

  lemma DistinctNamesDistinctIds(a: string, m: string, b: string, n: string)
    requires IsIdent(a) && IsIdent(b) && a + "." + m == b + "." + n
    ensures a == b
  {
    IdName(a, m);
    IdName(b, n);
    assert (a + "." + m)[..|a|] == a && (b + "." + n)[..|b|] == b;
  }

  lemma StillFresh(ids: set<string>, p: Policy, name: string)
    requires WfPolicy(p) && IsIdent(name) && p.name != name && FreshName(ids, name)
    ensures FreshName(ids + IdsOf(p.rules), name)
  {
    forall m: string ensures name + "." + m !in ids + IdsOf(p.rules) {
      if name + "." + m in IdsOf(p.rules) {
        var r :| r in p.rules && r.id == name + "." + m;
        assert WfRule(p.name, r);
        DistinctNamesDistinctIds(name, m, p.name, MethodName(r.id));
      }
    }
  }

  lemma PolicyFresh(p: Policy, ids: set<string>)
    requires WfPolicy(p) && FreshName(ids, p.name)
    ensures FreshIds(p.rules, ids)
  {
    forall i | 0 <= i < |p.rules| ensures p.rules[i].id !in ids {
      assert WfRule(p.name, p.rules[i]);
    }
  }

  lemma OnePolicyExec(before: seq<Policy>, p: Policy, ids: set<string>)
    requires WfPolicy(p) && NoName(before, p.name) && !Clashes(before, p.name, p.resource)
    requires RulesStorable(p) && FreshIds(p.rules, ids)
    ensures ExecAll(State(before, ids), [PolicyStatement(p)] + RuleStatements(p.name, p.rules))
         == Ok(State(before + [p], ids + IdsOf(p.rules)))
  {
    PolicyExec(State(before, ids), p);
    hide Exec, PolicyStatement, WfPolicy;
    var st := State(before + [WithRules(p, 0)], ids);
    assert p.rules[0..] == p.rules;
    RulesExec(before, p, 0, ids);
    ExecAllConcat(State(before, ids), [PolicyStatement(p)], RuleStatements(p.name, p.rules));
    assert [PolicyStatement(p)][1..] == [];
    assert ExecAll(st, []) == Ok(st);
  }

  ghost predicate PoliciesStorable(policies: seq<Policy>) {
    forall i :: 0 <= i < |policies| ==> WfPolicy(policies[i]) && RulesStorable(policies[i])
  }

  lemma {:induction false} PoliciesExec(policies: seq<Policy>, k: nat, ids: set<string>)
    requires k <= |policies| && DistinctPolicies(policies) && PoliciesStorable(policies)
    requires forall j :: k <= j < |policies| ==> FreshName(ids, policies[j].name)
    ensures ExecAll(State(policies[..k], ids), Statements(policies[k..])).Ok?
    ensures ExecAll(State(policies[..k], ids), Statements(policies[k..])).value.policies == policies
    decreases |policies| - k
  {
    hide WfPolicy, RulesStorable, FreshName, Exec, PolicyStatement, RuleStatements;
    if k == |policies| {
      assert policies[..k] == policies && policies[k..] == [];
    } else {
      var p, before, rest := policies[k], policies[..k], policies[k..];
      assert rest[0] == p && rest[1..] == policies[k + 1..] && policies[..k + 1] == before + [p];
      assert WfPolicy(p) && FreshName(ids, p.name);
      PolicyFresh(p, ids);
      OnePolicyExec(before, p, ids);
      var ids' := ids + IdsOf(p.rules);
      forall j | k + 1 <= j < |policies| ensures FreshName(ids', policies[j].name) {
        assert WfPolicy(policies[j]) && p.name != policies[j].name;
        PolicyName(policies[j]);
        StillFresh(ids, p, policies[j].name);
      }
      PoliciesExec(policies, k + 1, ids');
      ExecAllConcat(State(before, ids), [PolicyStatement(p)] + RuleStatements(p.name, p.rules), Statements(rest[1..]));
    }
  }

  lemma PolicyName(p: Policy)
    requires WfPolicy(p)
    ensures IsIdent(p.name)
  {
  }

  // ----- from text to statements -----

  predicate Unbrokens(statements: seq<string>) {
    forall i :: 0 <= i < |statements| ==> Unbroken(statements[i])
  }

  function TextOf(statements: seq<string>): string { Join(Blocks(statements), "\n\n") + "\n" }

  ghost predicate Goods(statements: seq<string>, good: string -> bool) {
    forall i :: 0 <= i < |statements| ==> good(statements[i])
  }

  lemma {:induction false} GoodBlocks(statements: seq<string>, ok: StringTest, good: string -> bool)
    requires Carries(ok, good) && Goods(statements, good) && good(" ;")
    ensures Goods(Blocks(statements), good)
  {
    hide Carries;
    if statements != [] {
      Both(statements[0], " ;", ok, good);
      GoodBlocks(statements[1..], ok, good);
    }
  }

  /** What all statements inherit, the whole text does. */
  lemma GoodText(statements: seq<string>, ok: StringTest, good: string -> bool)
    requires Carries(ok, good) && Goods(statements, good) && good(" ;")
    ensures good(TextOf(statements))
  {
    hide Carries, Join, Blocks;
    GoodBlocks(statements, ok, good);
    Plain("\n\n", ok, good);
    Plain("\n", ok, good);
    GoodJoin(Blocks(statements), "\n\n", ok, good);
    Both(Join(Blocks(statements), "\n\n"), "\n", ok, good);
  }

  lemma {:induction false} GoodRules(name: string, rules: seq<Rule>, ok: StringTest, good: string -> bool)
    requires Carries(ok, good) && Marked(good) && IsIdent(name)
    requires forall i :: 0 <= i < |rules| ==> WfRule(name, rules[i]) && RuleStrings(rules[i], ok)
    ensures Goods(RuleStatements(name, rules), good)
  {
    hide Carries, Marked, RuleStatement, WfRule, RuleStrings;
    if rules != [] {
      GoodRule(name, rules[0], ok, good);
      GoodRules(name, rules[1..], ok, good);
    }
  }

  lemma GoodsConcat(a: seq<string>, b: seq<string>, good: string -> bool)
    requires Goods(a, good) && Goods(b, good)
    ensures Goods(a + b, good)
  {
  }

  lemma {:induction false} GoodStatements(policies: seq<Policy>, ok: StringTest, good: string -> bool)
    requires Carries(ok, good) && Marked(good)
    requires forall i :: 0 <= i < |policies| ==> WfPolicy(policies[i]) && PolicyStrings(policies[i], ok)
    ensures Goods(Statements(policies), good)
  {
    hide Carries, Marked, PolicyStatement, RuleStatements, RuleStrings, WfRule, DistinctIds;
    if policies != [] {
      hide Goods;
      var p := policies[0];
      assert WfPolicy(p) && PolicyStrings(p, ok);
      GoodPolicy(p, ok, good);
      GoodRules(p.name, p.rules, ok, good);
      hide WfPolicy, PolicyStrings;
      GoodStatements(policies[1..], ok, good);
      assert Goods([PolicyStatement(p)], good) by { OneGood(PolicyStatement(p), good); }
      GoodsConcat([PolicyStatement(p)], RuleStatements(p.name, p.rules), good);
      GoodsConcat([PolicyStatement(p)] + RuleStatements(p.name, p.rules), Statements(policies[1..]), good);
    }
  }

  lemma OneGood(t: string, good: string -> bool)
    requires good(t)
    ensures Goods([t], good)
  {
  }

  lemma SplitLast(blank: string)
    requires Blank(blank) && ';' !in blank
    ensures SplitStatements(blank) == []
  {
    SplitNone(blank, ';');
    TrimAround(blank, "", "");
    assert blank + "" + "" == blank;
    assert TrimAll([blank]) == [""] && NonEmpty([""]) == [];
  }

  lemma SplitFirst(lead: string, st: string, rest: string)
    requires Blank(lead) && ';' !in lead && st != "" && Trimmed(st) && ';' !in st
    ensures SplitStatements(lead + st + " ;" + rest) == [st] + SplitStatements(rest)
  {
    var piece := lead + st + " ";
    assert lead + st + " ;" + rest == piece + [';'] + rest by { assert " ;" == " " + [';']; }
    SplitHead(piece, ';', rest);
    TrimAround(lead, st, " ");
    hide Trim, Split;
  }

  lemma TextFirst(statements: seq<string>)
    requires statements != []
    ensures TextOf(statements)
         == statements[0] + " ;" + (if |statements| == 1 then "\n" else "\n\n" + TextOf(statements[1..]))
  {
    if |statements| > 1 {
      Assoc4(statements[0] + " ;", "\n\n", Join(Blocks(statements[1..]), "\n\n"), "\n");
    }
  }

  lemma {:induction false} SplitText(statements: seq<string>, lead: string)
    requires Unbrokens(statements) && (lead == "" || lead == "\n\n")
    ensures SplitStatements(lead + TextOf(statements)) == statements
    decreases statements
  {
    assert Blank(lead) && ';' !in lead;
    hide SplitStatements, Blank, Trimmed;
    if statements == [] {
      assert lead + TextOf(statements) == lead + "\n";
      SplitLast(lead + "\n");
    } else {
      var st, more := statements[0], statements[1..];
      assert Unbroken(st);
      var rest := if more == [] then "\n" else "\n\n" + TextOf(more);
      TextFirst(statements);
      hide TextOf;
      assert lead + TextOf(statements) == lead + st + " ;" + rest by {
        Assoc(lead, st + " ;", rest);
        Assoc(lead, st, " ;");
      }
      SplitFirst(lead, st, rest);
      if more == [] {
        SplitLast("\n");
      } else {
        forall i | 0 <= i < |more| ensures Unbroken(more[i]) { assert Unbroken(statements[i + 1]); }
        SplitText(more, "\n\n");
      }
      assert statements == [st] + more;
    }
  }

  /** Balanced text holds no comment. */
  lemma StripBalanced(text: string)
    requires Balanced(text, {'*'})
    ensures Strip(START, text) == text
  {
    assert Avoids(START, text, {'*'});
    StripIdentity(START, text);
  }

  /** Text without the mark that opens a comment is left alone in every state of the quotes. */
  lemma {:induction false} StripClean(lex: Lex, text: string)
    requires NoOpening(text)
    ensures Strip(lex, text) == text
    decreases text
  {
    if text != "" {
      var more := text[1..];
      assert |text| > 1 && text[0] == '(' ==> text[1] != '*';
      assert NoOpening(more) by {
        forall i | 0 < i < |more| ensures !(more[i] == '*' && more[i - 1] == '(') { assert more[i] == text[i + 1]; }
      }
      StripClean(Next(lex, text[0]), more);
      assert [text[0]] + more == text;
    }
  }

  lemma StatementsOfText(statements: seq<string>)
    requires Unbrokens(statements) && Strip(START, TextOf(statements)) == TextOf(statements)
    ensures SplitStatements(Strip(START, TextOf(statements))) == statements
  {
    hide Unbrokens, SplitStatements, Strip, TextOf;
    SplitText(statements, "");
    assert "" + TextOf(statements) == TextOf(statements);
  }

  lemma StarMarks()
    ensures Marked(BalancedIn({'*'})) && Balanced(" ;", {'*'})
  {
    BalancedPlain("? ", {'*'});
    BalancedPlain(" ?", {'*'});
    BalancedPlain("(", {'*'});
    BalancedPlain(")", {'*'});
    BalancedPlain(" | ", {'*'});
    BalancedPlain(" ;", {'*'});
    hide Balanced;
  }

  /** Either no string ends in a backslash, or none holds the mark of a comment. */
  ghost predicate Calming(d: Document) {
    DocumentStrings(d, Closes) || DocumentStrings(d, Uncommented)
  }

  /** The comment scanner leaves the printed text of such a document alone. */
  lemma StripPrinted(d: Document)
    requires WfDocument(d) && Calming(d)
    ensures Strip(START, PrintDocument(d)) == PrintDocument(d)
  {
    hide WfPolicy, PolicyStrings, DistinctPolicies, Balanced, Carries, Goods, Statements, Strip, TextOf, PrintDocument;
    assert PrintDocument(d) == TextOf(Statements(d.policies)) by { PrintedText(d); }
    if DocumentStrings(d, Closes) {
      CarriesBalanced({'*'});
      StarMarks();
      hide Marked;
      GoodStatements(d.policies, Closes, BalancedIn({'*'}));
      GoodText(Statements(d.policies), Closes, BalancedIn({'*'}));
      StripBalanced(PrintDocument(d));
    } else {
      CarriesClean();
      assert Marked(Clean);
      hide Marked;
      GoodStatements(d.policies, Uncommented, Clean);
      GoodText(Statements(d.policies), Uncommented, Clean);
      StripClean(START, PrintDocument(d));
    }
  }

  lemma PrintedText(d: Document)
    ensures PrintDocument(d) == TextOf(Statements(d.policies))
  {
  }

  // ----- the document -----

  lemma {:induction false} RulesUnbroken(name: string, rules: seq<Rule>)
    requires IsIdent(name)
    requires forall i :: 0 <= i < |rules| ==> WfRule(name, rules[i]) && RuleStrings(rules[i], Unseparated)
    ensures Unbrokens(RuleStatements(name, rules))
  {
    hide Unbroken, RuleStatement, WfRule, RuleStrings;
    if rules != [] {
      RuleUnbroken(name, rules[0]);
      RulesUnbroken(name, rules[1..]);
    }
  }

  lemma UnbrokensConcat(a: seq<string>, b: seq<string>)
    requires Unbrokens(a) && Unbrokens(b)
    ensures Unbrokens(a + b)
  {
    hide Unbroken;
  }

  lemma {:induction false} DocumentUnbroken(policies: seq<Policy>)
    requires forall i :: 0 <= i < |policies| ==> WfPolicy(policies[i]) && PolicyStrings(policies[i], Unseparated)
    ensures Unbrokens(Statements(policies))
  {
    if policies != [] {
      var p := policies[0];
      assert WfPolicy(p) && PolicyStrings(p, Unseparated);
      PolicyUnbroken(p);
      RulesUnbroken(p.name, p.rules);
      hide Unbroken, WfPolicy, PolicyStrings, PolicyStatement, RuleStatements;
      DocumentUnbroken(policies[1..]);
      UnbrokensConcat([PolicyStatement(p)], RuleStatements(p.name, p.rules));
      UnbrokensConcat([PolicyStatement(p)] + RuleStatements(p.name, p.rules), Statements(policies[1..]));
    }
  }

  predicate PolicyRules(p: Policy, test: Rule -> bool) {
    forall i :: 0 <= i < |p.rules| ==> test(p.rules[i])
  }

  predicate EveryRule(d: Document, test: Rule -> bool) {
    forall i :: 0 <= i < |d.policies| ==> PolicyRules(d.policies[i], test)
  }

  lemma DocumentParts(d: Document)
    requires WfDocument(d) && EveryRule(d, Readable) && DocumentStrings(d, Unseparated)
    ensures PoliciesStorable(d.policies)
    ensures forall i :: 0 <= i < |d.policies| ==> PolicyStrings(d.policies[i], Unseparated)
  {
    hide WfPolicy, RuleStrings, Readable;
    forall i | 0 <= i < |d.policies| ensures RulesStorable(d.policies[i]) {
      assert PolicyStrings(d.policies[i], Unseparated) && PolicyRules(d.policies[i], Readable);
    }
  }

  /** A document whose policies and rules are already in order comes back as it was. */
  lemma ParsePrinted(d: Document)
    requires WfDocument(d) && EveryRule(d, Readable) && Calming(d) && DocumentStrings(d, Unseparated)
    ensures Parse(PrintDocument(d)) == Ok(d)
  {
    DocumentParts(d);
    StripPrinted(d);
    PrintedText(d);
    hide DocumentStrings, PolicyStrings, EveryRule, PrintDocument, Strip;
    DocumentUnbroken(d.policies);
    hide PoliciesStorable, Unbrokens;
    StatementsOfText(Statements(d.policies));
    forall j | 0 <= j < |d.policies| ensures FreshName({}, d.policies[j].name) {}
    PoliciesExec(d.policies, 0, {});
    assert d.policies[..0] == [] && d.policies[0..] == d.policies;
  }
}
