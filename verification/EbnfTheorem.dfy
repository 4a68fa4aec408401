/** The round trip of policy documents, with the exact condition under which it holds. */
module EbnfTheorem {
  import opened Text
  import Json
  import opened Scanner
  import Sorting
  import opened Ebnf
  import opened EbnfDocument
  import opened EbnfRoundTrip
  import opened EbnfLimits

  // ----- rules cut inside a string, or with a barred action -----

  lemma {:induction false} UncutPrefix(s: Scan, a: string, b: string)
    requires Uncut(s, a + b)
    ensures Uncut(s, a)
    decreases a
  {
    if a != "" {
      assert (a + b)[0] == a[0] && (a + b)[1..] == a[1..] + b;
      UncutPrefix(Step(s, a[0]), a[1..], b);
    }
  }

  /** The scanner keeps the beginning of a field in one piece. */
  lemma FieldStart(lead: string, f: string, r: string, s: Scan)
    requires FieldOk(f) && Lead(lead) && Neutral(s)
    requires r != "" && r <= f && !IsSpace(r[|r| - 1])
    ensures TrimAll(Fields(s, lead + r)) == [r]
  {
    WholeLead(lead, f, s);
    assert lead + f == (lead + r) + f[|r|..] by {
      assert f == r + f[|r|..];
      Assoc(lead, r, f[|r|..]);
    }
    UncutPrefix(s, lead + r, f[|r|..]);
    assert r[0] == f[0];
    hide FieldOk, Whole, Balanced;
    FieldAlone(lead, r, s);
  }

  lemma FieldFacts(f: string)
    requires FieldOk(f)
    ensures Whole(f) && f != "" && Trimmed(f) && Balanced(f, {})
  {
  }

  /** A right-hand side cut inside a string: whole fields, then one that is open. */
  lemma {:induction false} FieldsCut(lex: Lex, fs: seq<string>, s: Scan, lead: string, r: string)
    returns (j: nat, g: string, lex': Lex)
    requires fs != [] && FieldsOk(fs) && Lead(lead) && Neutral(s)
    requires Open(lex, r) && r <= Join(fs, ",\n  ") && !IsSpace(r[|r| - 1])
    ensures j < |fs| && g <= fs[j] && Open(lex', g)
    ensures TrimAll(Fields(s, lead + r)) == fs[..j] + [g]
    decreases fs
  {
    hide FieldOk, Balanced, Whole, Open, Fields, TrimAll;
    assert FieldOk(fs[0]);
    FieldFacts(fs[0]);
    if |fs| == 1 || r < fs[0] {
      OpenNonEmpty(lex, r);
      FieldStart(lead, fs[0], r, s);
      j, g, lex' := 0, r, lex;
      assert fs[..0] + [r] == [r];
    } else {
      var more := Join(fs[1..], ",\n  ");
      var r' := OpenInList(lex, fs[0], ",\n  ", more, r);
      OpenNonEmpty(LexAll(lex, fs[0] + ",\n  "), r');
      assert r[|r| - 1] == r'[|r'| - 1];
      var s' := FieldThenComma(lead, fs[0], "\n  " + r', s);
      assert lead + r == lead + fs[0] + "," + ("\n  " + r') by { SepText(lead, fs[0], r'); }
      var k;
      k, g, lex' := FieldsCut(LexAll(lex, fs[0] + ",\n  "), fs[1..], s', "\n  ", r');
      j := k + 1;
      assert fs[..j] + [g] == [fs[0]] + (fs[1..][..k] + [g]);
    }
  }

  lemma SepText(lead: string, f: string, r: string)
    ensures lead + (f + ",\n  " + r) == lead + f + "," + ("\n  " + r)
  {
    assert ",\n  " == "," + "\n  ";
  }

  lemma {:induction false} BadCondition(raws: seq<string>, bad: string)
    requires ParseCondition(bad).Err?
    ensures ParseConditions(raws + [bad]).Err?
  {
    hide ParseCondition;
    if raws == [] {
      assert (raws + [bad])[0] == bad;
    } else {
      assert (raws + [bad])[0] == raws[0] && (raws + [bad])[1..] == raws[1..] + [bad];
      BadCondition(raws[1..], bad);
    }
  }

  lemma {:induction false} ConditionAt(cs: seq<Condition>, i: nat)
    requires i < |cs|
    ensures PrintConditions(cs)[i] == PrintCondition(cs[i])
  {
    hide PrintCondition;
    if i > 0 {
      ConditionAt(cs[1..], i - 1);
    }
  }

  /** An open field makes the rule malformed, whichever field it is. */
  lemma OpenField(lex: Lex, name: string, rule: Rule, j: nat, g: string, h: Header)
    requires WfRule(name, rule) && RuleStrings(rule, Closes)
    requires j < |RhsFields(rule)| && g <= RhsFields(rule)[j] && Open(lex, g)
    requires TrimAll(Fields(TOP, h.rhs)) == RhsFields(rule)[..j] + [g]
    ensures ParseRule(h).Err?
  {
    var fs := RhsFields(rule);
    hide Open, Fields, TrimAll, ParseActions, ParseConditions, PrintActions;
    if j == 0 {
      ActionsCut(lex, rule.actions, g);
      assert (fs[..0] + [g])[0] == g;
    } else {
      OpenCondition(lex, name, rule, j, g);
      assert (fs[..j] + [g])[1..] == fs[1..j] + [g];
    }
  }

  lemma OpenCondition(lex: Lex, name: string, rule: Rule, j: nat, g: string)
    requires WfRule(name, rule) && RuleStrings(rule, Closes)
    requires 0 < j < |RhsFields(rule)| && g <= RhsFields(rule)[j] && Open(lex, g)
    ensures ParseConditions(RhsFields(rule)[1..j] + [g]).Err?
  {
    var c := rule.conditions[j - 1];
    hide Open, PrintActions, PrintCondition, WfCondition, ConditionStrings, ParseCondition, ParseConditions;
    ConditionFields(rule.conditions);
    assert WfCondition(c) && ConditionStrings(c, Closes);
    assert RhsFields(rule)[j] == PrintCondition(c) by { ConditionAt(rule.conditions, j - 1); }
    ghost var raws := RhsFields(rule)[1..j];
    hide PrintConditions, RhsFields, WfRule, RuleStrings;
    ConditionCut(lex, c, g);
    BadCondition(raws, g);
  }

  lemma RhsCut(lex: Lex, name: string, rule: Rule, r: string, h: Header)
    requires WfRule(name, rule) && RuleStrings(rule, Closes)
    requires Open(lex, r) && r <= PrintRhs(rule) && !IsSpace(r[|r| - 1]) && h.rhs == r
    ensures ParseRule(h).Err?
  {
    RuleFields(name, rule);
    assert PrintRhs(rule) == Join(RhsFields(rule), ",\n  ");
    hide FieldsOk, Open, Fields, TrimAll, ParseRule, RhsFields, PrintRhs, WfRule, RuleStrings;
    assert "" + r == r;
    var j, g, lex' := FieldsCut(lex, RhsFields(rule), TOP, "", r);
    OpenField(lex', name, rule, j, g, h);
  }

  // ----- statements no state accepts -----

  ghost predicate Breaks(t: string) {
    forall st: State :: Exec(st, t).Err?
  }

  predicate NotSemicolon(c: char) { c != ';' }

  /** The text before the first semicolon, as the statement loop sees it. */
  function Cut(t: string): string { TrimEnd(t[..Span(t, NotSemicolon)]) }

  /** Cut at a semicolon inside it, the statement is not one any more. */
  ghost predicate Cuttable(t: string) {
    t != "" && Trimmed(t) && (';' in t ==> Breaks(Cut(t)) && Cut(t) != "")
  }

  /** The first semicolon of balanced text that keeps them inside strings. */
  lemma CutOpen(t: string)
    requires ';' in t && Balanced(t, {';'})
    ensures Open(START, Cut(t)) && Cut(t) <= t && Cut(t) != "" && !IsSpace(Cut(t)[|Cut(t)| - 1])
  {
    var k := Span(t, NotSemicolon);
    var i :| 0 <= i < |t| && t[i] == ';';
    SpanStops(t, i, NotSemicolon);
    assert Avoids(START, t, {';'});
    OpenAt(START, t, k, ';');
    OpenTrimmed(START, t[..k]);
  }

  lemma AddRuleErr(st: State, h: Header)
    requires ParseRule(h).Err?
    ensures AddRule(st, h).Err?
  {
    hide ParseRule;
  }

  lemma BadRuleBreaks(effect: Effect, name: string, m: string, rhs: string)
    requires IsIdent(name) && IsIdent(m) && rhs != "" && !IsSpace(rhs[0])
    requires ParseRule(Header(effect, name, m, rhs)).Err?
    ensures Breaks(EffectName(effect) + " " + (name + " " + m + " =\n  " + rhs))
  {
    RuleHeaderText(effect, name, m, rhs);
    var t := EffectName(effect) + " " + (name + " " + m + " =\n  " + rhs);
    hide PolicyHeader, RuleHeader, ParseRule, AddRule;
    forall st: State ensures Exec(st, t).Err? {
      AddRuleErr(st, Header(effect, name, m, rhs));
    }
  }

  lemma RuleHeadText(name: string, rule: Rule, rhs: string)
    ensures EffectName(rule.effect) + " " + (name + " " + MethodName(rule.id) + " =\n  " + rhs) ==
      RuleHead(name, rule) + rhs
  {
    hide MethodName;
  }

  lemma RuleHeadUnquoted(name: string, rule: Rule)
    requires IsIdent(name) && IsIdent(MethodName(rule.id))
    ensures Unquoted(RuleHead(name, rule)) && ';' !in RuleHead(name, rule)
  {
    IdentChars(name);
    IdentChars(MethodName(rule.id));
    hide MethodName, IsIdent;
    var a, m := name, MethodName(rule.id);
    assert ';' !in a && ';' !in m;
    assert Unquoted(a + " " + m + " =\n  ");
  }

  lemma SemicolonMarks()
    ensures Marked(BalancedIn({';'}))
  {
    BalancedPlain("? ", {';'});
    BalancedPlain(" ?", {';'});
    BalancedPlain("(", {';'});
    BalancedPlain(")", {';'});
    BalancedPlain(" | ", {';'});
    hide Balanced;
  }

  /** Semicolons of a rule whose strings close are all inside strings. */
  lemma RuleSemicolons(name: string, rule: Rule)
    requires IsIdent(name) && WfRule(name, rule) && RuleStrings(rule, Closes)
    ensures Balanced(RuleStatement(name, rule), {';'})
  {
    CarriesBalanced({';'});
    SemicolonMarks();
    hide Carries, Marked, Balanced, RuleStatement, WfRule, RuleStrings, IsIdent;
    GoodRule(name, rule, Closes, BalancedIn({';'}));
  }

  /** Open text that goes past its unquoted head. */
  lemma PastHead(head: string, rhs: string, t: string) returns (r: string)
    requires Unquoted(head) && Open(START, t) && t <= head + rhs
    ensures t == head + r && r <= rhs && r != "" && Open(LexAll(START, head), r)
    ensures r[|r| - 1] == t[|t| - 1] && r[0] == rhs[0]
  {
    hide Open, Unquoted;
    assert Balanced("", {}) by { BalancedPlain("", {}); }
    hide Balanced;
    assert "" + head == head;
    r := OpenInList(START, "", head, rhs, t);
    OpenNonEmpty(LexAll(START, head), r);
  }

  lemma CutRuleBreaks(name: string, rule: Rule, t: string)
    requires IsIdent(name) && WfRule(name, rule) && RuleStrings(rule, Closes)
    requires PrintRhs(rule) != "" && !IsSpace(PrintRhs(rule)[0])
    requires Open(START, t) && t <= RuleHead(name, rule) + PrintRhs(rule) && t != "" && !IsSpace(t[|t| - 1])
    ensures Breaks(t)
  {
    RuleHeadUnquoted(name, rule);
    hide Open, RuleHead, PrintRhs, Breaks, RuleStrings, ParseRule, Unquoted;
    var r := PastHead(RuleHead(name, rule), PrintRhs(rule), t);
    RhsCut(LexAll(START, RuleHead(name, rule)), name, rule, r, Header(rule.effect, name, MethodName(rule.id), r));
    BadRuleBreaks(rule.effect, name, MethodName(rule.id), r);
    RuleHeadText(name, rule, r);
  }

  /** The first semicolon of text that keeps them inside one string at its end. */
  lemma CutInQuote(head: string, s: string) returns (w: string)
    requires ';' !in head && ';' in head + Json.Quote(s)
    ensures Cut(head + Json.Quote(s)) == head + w && w != "" && w < Json.Quote(s)
  {
    var q := Json.Quote(s);
    QuoteShape(s);
    hide Json.Quote;
    var t := head + q;
    var i :| 0 <= i < |t| && t[i] == ';';
    SpanStops(t, i, NotSemicolon);
    var k := Span(t, NotSemicolon);
    assert forall j :: 0 <= j < |head| ==> t[j] == head[j];
    assert t[|head|] == q[0] && k > |head|;
    var piece := q[..k - |head|];
    assert t[..k] == head + piece;
    TrimEndAppend(head, piece);
    TrimEndPrefix(piece);
    w := TrimEnd(piece);
  }

  lemma RuleCut(name: string, rule: Rule)
    requires IsIdent(name) && WfRule(name, rule) && Decided(rule)
    ensures Cuttable(RuleStatement(name, rule))
  {
    RuleTrimmed(name, rule);
    RuleStatementText(name, rule);
    RhsTrimmed(name, rule);
    var t := RuleStatement(name, rule);
    hide Balanced, RuleStatement, RuleHead, PrintRhs, Breaks, Open, Cut, WfRule, RuleStrings, Stuck;
    if ';' in t {
      if RuleStrings(rule, Closes) {
        RuleSemicolons(name, rule);
        CutOpen(t);
        CutRuleBreaks(name, rule, Cut(t));
      } else {
        LoneCut(name, rule);
      }
    }
  }

  /**
   * The same for a rule with one action that is followed by nothing, or by conditions its backslash keeps from being
   * read.
   */
  lemma LoneCut(name: string, rule: Rule)
    requires IsIdent(name) && WfRule(name, rule) && ';' in RuleStatement(name, rule)
    requires Stuck(rule) || (|rule.actions| == 1 && rule.conditions == [])
    ensures var c := Cut(RuleStatement(name, rule)); c != "" && Breaks(c)
  {
    RuleIdent(name, rule);
    if Stuck(rule) {
      var rest := StuckStatement(name, rule);
      hide Stuck, RuleStatement, StuckHead, WfRule, Breaks;
      var t := StuckHead(name, rule) + rest;
      var i :| 0 <= i < |t| && t[i] == ';';
      SpanStops(t, i, NotSemicolon);
      var first := StuckPiece(name, rule, rest, Span(t, NotSemicolon));
    } else {
      RuleStatementText(name, rule);
      RuleHeadUnquoted(name, rule);
      hide RuleStatement, RuleHead, Breaks, Cut, Json.Quote, WfRule, MethodName;
      var w := CutInQuote(RuleHead(name, rule), rule.actions[0]);
      StuckCutBreaks(name, rule, w);
    }
  }

  lemma BarredRuleBreaks(name: string, rule: Rule)
    requires IsIdent(name) && WfRule(name, rule) && Readable(rule) && !NoBars(rule.actions)
    ensures Breaks(RuleStatement(name, rule))
  {
    RhsShape(name, rule);
    RhsTrimmed(name, rule);
    BarredActions(rule.actions);
    hide PrintRhs, Fields, TrimAll, ParseActions, ParseConditions, PrintActions, Readable, Trimmed;
    var h := Header(rule.effect, name, MethodName(rule.id), PrintRhs(rule));
    assert RhsFields(rule)[0] == PrintActions(rule.actions);
    assert ParseRule(h).Err?;
    assert !IsSpace(PrintRhs(rule)[0]) by { RhsFront(name, rule); }
    hide ParseRule, RuleStatement, Breaks;
    BadRuleBreaks(rule.effect, name, MethodName(rule.id), PrintRhs(rule));
    RuleStatementWord(name, rule);
  }

  lemma RhsFront(name: string, rule: Rule)
    requires WfRule(name, rule)
    ensures PrintRhs(rule) != "" && !IsSpace(PrintRhs(rule)[0])
  {
    RhsTrimmed(name, rule);
  }

  lemma PolicyHead(p: Policy)
    requires IsIdent(p.name)
    ensures var head := "policy " + p.name + " = "; Unquoted(head) && ';' !in head && '*' !in head
  {
    IdentChars(p.name);
  }

  /** A policy header with an unfinished literal is no header. */
  lemma PolicyCutBreaks(name: string, q: string)
    requires IsIdent(name) && q != "" && q[0] == '"' && LiteralLength(q) == None
    ensures Breaks("policy " + name + " = " + q)
  {
    var rest := " " + "=" + " " + q;
    var t := "policy" + " " + (name + rest);
    assert "policy " + name + " = " + q == t by { assert "policy " == "policy" + " "; }
    assert RuleHeader(t) == None by { assert t[0] == 'p' && "allow"[0] == 'a' && "deny"[0] == 'd'; }
    hide AfterWord, TakeIdent, AfterEquals, LiteralLength, RuleHeader;
    assert AfterWord(t, "policy") == Some(name + rest) by {
      IdentChars(name);
      AfterWordOf("policy", name + rest);
    }
    TakeName(name, rest);
    assert AfterEquals(rest) == Some(q) by { AfterEqualsOf(" ", " ", q); }
    assert PolicyHeader(t) == None;
    hide PolicyHeader;
    forall st: State ensures Exec(st, t).Err? {
    }
  }

  lemma PolicyCut(p: Policy)
    requires IsIdent(p.name)
    ensures Cuttable(PolicyStatement(p))
  {
    PolicyTrimmed(p);
    PolicyHead(p);
    hide Json.Quote, Unquoted, Breaks, Cut, IsIdent, Trimmed;
    if ';' in PolicyStatement(p) {
      var w := CutInQuote("policy " + p.name + " = ", p.resource);
      QuoteCut(p.resource, w);
      PolicyCutBreaks(p.name, w);
    }
  }

  // ----- a trailing backslash -----

  /** After a quoted string that ends in a backslash the scanners still think they are inside it. */
  /** The comma after such an action does not cut, so the first field runs on past it. */
  lemma StuckField(action: string, rest: string) returns (tail: string)
    requires EndsInBackslash(action)
    ensures Fields(TOP, Json.Quote(action) + "," + rest)[0] == Json.Quote(action) + "," + tail
  {
    var q := Json.Quote(action);
    StuckRun(START, action, MARKS);
    RunPlain(TOP, q);
    var s1 := Run(TOP, q);
    assert s1.lex.quoted;
    FieldsUncut(TOP, q, "," + rest);
    assert ("," + rest)[0] == ',' && ("," + rest)[1..] == rest;
    var more := Fields(Step(s1, ','), rest);
    assert Fields(s1, "," + rest) == Glue([','], more);
    Assoc(q, ",", rest);
    tail := more[0];
    Assoc(q, ",", tail);
  }

  /** Text that goes on after a quoted string is not a list of actions. */
  lemma RunOnActions(action: string, tail: string)
    ensures ParseActions(Trim(Json.Quote(action) + "," + tail)).Err?
  {
    var q := Json.Quote(action);
    QuoteShape(action);
    var t := q + "," + tail;
    TrimStartSolid(t);
    Assoc(q, ",", tail);
    TrimEndAppend(q, "," + tail);
    var z := TrimEnd("," + tail);
    TrimEndPrefix("," + tail);
    assert z != "" && z[0] == ',';
    var body := q + z;
    assert Trim(t) == body && ActionBody(body) == body;
    hide Trim, TrimStart, TrimEnd;
    FirstPiece(body);
    if '|' in action {
      BarInside(action, "", body);
      assert "" + body == body;
    } else {
      QuoteKeeps(action, '|');
      RunOnPiece(action, z);
    }
  }

  lemma {:induction false} SpanPast(a: string, b: string, p: char -> bool)
    requires forall i :: 0 <= i < |a| ==> p(a[i])
    ensures Span(a + b, p) == |a| + Span(b, p)
  {
    if a == "" {
      assert a + b == b;
    } else {
      assert (a + b)[0] == a[0] && (a + b)[1..] == a[1..] + b;
      SpanPast(a[1..], b, p);
    }
  }

  lemma RunOnPiece(action: string, z: string)
    requires '|' !in Json.Quote(action) && z != "" && z[0] == ','
    ensures ParseStrings(TrimAll(Split(Json.Quote(action) + z, '|'))).Err?
  {
    var q := Json.Quote(action);
    var body := q + z;
    QuoteShape(action);
    SpanPast(q, z, NotBar);
    var n := Span(z, NotBar);
    assert n > 0;
    var piece := q + z[..n];
    assert body[..Span(body, NotBar)] == piece;
    FirstPiece(body);
    TrimStartSolid(piece);
    TrimEndAppend(q, z[..n]);
    TrimEndPrefix(z[..n]);
    var w := TrimEnd(z[..n]);
    assert w[0] == ',';
    Json.StringFront(action, w);
    assert Json.SkipWs(w) == w != "";
    hide Json.Quote, Split, TrimStart, TrimEnd;
    assert ParseString(q + w).Err?;
  }

  lemma RhsOfOne(rule: Rule)
    requires |rule.actions| == 1 && rule.conditions != []
    ensures PrintRhs(rule)
         == Json.Quote(rule.actions[0]) + "," + ("\n  " + Join(PrintConditions(rule.conditions), ",\n  "))
  {
    hide Json.Quote, PrintCondition;
    var q, more := Json.Quote(rule.actions[0]), Join(PrintConditions(rule.conditions), ",\n  ");
    assert ([q] + PrintConditions(rule.conditions))[1..] == PrintConditions(rule.conditions);
    assert ",\n  " == "," + "\n  ";
    Assoc4(q, ",", "\n  ", more);
    Assoc(",", "\n  ", more);
    Assoc(q, ",", "\n  " + more);
  }

  /** A rule with one action that ends in a backslash, and at least one condition behind it. */
  predicate Stuck(rule: Rule) { |rule.actions| == 1 && EndsInBackslash(rule.actions[0]) && rule.conditions != [] }

  /** Its statement up to the comma behind the action. */
  function StuckHead(name: string, rule: Rule): string
    requires |rule.actions| == 1
  {
    RuleHead(name, rule) + (Json.Quote(rule.actions[0]) + ",")
  }

  /**
   * Whatever follows that comma: it takes the closing quote for an escaped one and the comma for a part of the action.
   */
  lemma StuckBreaks(name: string, rule: Rule, rest: string)
    requires IsIdent(name) && IsIdent(MethodName(rule.id)) && |rule.actions| == 1 && EndsInBackslash(rule.actions[0])
    ensures Breaks(StuckHead(name, rule) + rest)
  {
    var q := Json.Quote(rule.actions[0]);
    QuoteShape(rule.actions[0]);
    hide MethodName, Fields, ParseActions, Breaks, EndsInBackslash, Json.Quote, Trim, Trimmed;
    var h := Header(rule.effect, name, MethodName(rule.id), q + "," + rest);
    var tail := StuckField(rule.actions[0], rest);
    RunOnActions(rule.actions[0], tail);
    assert ParseRule(h).Err?;
    assert (q + "," + rest)[0] == '"';
    hide ParseRule;
    BadRuleBreaks(rule.effect, name, MethodName(rule.id), q + "," + rest);
    RuleHeadText(name, rule, q + "," + rest);
    hide RuleHead;
    Assoc(RuleHead(name, rule), q + ",", rest);
  }

  /** Nor is it a statement when a semicolon inside the action cuts it. */
  lemma StuckCutBreaks(name: string, rule: Rule, w: string)
    requires IsIdent(name) && IsIdent(MethodName(rule.id)) && |rule.actions| == 1
    requires w != "" && w < Json.Quote(rule.actions[0])
    ensures Breaks(RuleHead(name, rule) + w)
  {
    var action := rule.actions[0];
    QuoteShape(action);
    CutStaysOpen(action, w);
    hide MethodName, Breaks, RuleHead;
    var h := Header(rule.effect, name, MethodName(rule.id), w);
    assert Fields(TOP, w) == [w] by {
      hide Json.Quote;
      RunPlain(TOP, w);
      FieldsUncut(TOP, w, "");
      assert w + "" == w;
      assert Fields(Run(TOP, w), "") == [""];
    }
    assert w[0] == '"';
    hide Fields, Json.Quote;
    CutAction(action, w);
    assert ParseRule(h).Err?;
    hide ParseRule;
    BadRuleBreaks(rule.effect, name, MethodName(rule.id), w);
    RuleHeadText(name, rule, w);
  }

  lemma CutAction(action: string, w: string)
    requires w != "" && w < Json.Quote(action)
    ensures w[0] == '"' && ParseActions(Trim(w)).Err?
  {
    QuoteShape(action);
    hide Json.Quote;
    TrimStartSolid(w);
    TrimEndPrefix(w);
    var u := Trim(w);
    assert u != "" && u <= w && u[0] == '"';
    QuoteCutPiece(action, "", u);
    assert "" + u == u && ActionBody(u) == u;
  }

  /** A quoted string cut before its end holds no mark outside quotes. */
  lemma CutStaysOpen(action: string, w: string)
    requires w != "" && w < Json.Quote(action)
    ensures Avoids(START, w, MARKS)
  {
    var body := "\"" + Json.Escaped(action);
    EscapedRun('"', action, MARKS);
    assert Next(START, '"') == Lex('"', true);
    assert body[0] == '"' && body[1..] == Json.Escaped(action);
    assert Avoids(START, body, MARKS);
    assert w <= body by { PrefixCases(w, body, "\""); }
    assert body == w + body[|w|..];
    AvoidsFront(START, w, body[|w|..], MARKS);
  }

  lemma {:induction false} AvoidsFront(lex: Lex, a: string, b: string, bad: set<char>)
    requires Avoids(lex, a + b, bad)
    ensures Avoids(lex, a, bad)
    decreases a
  {
    if a != "" {
      assert (a + b)[0] == a[0] && (a + b)[1..] == a[1..] + b;
      AvoidsFront(Next(lex, a[0]), a[1..], b, bad);
    }
  }

  /**
   * A rule with one action that ends in a backslash and at least one condition does not parse back: the comma scanner
   * takes the closing quote for an escaped one and never sees the comma after it.
   */
  lemma BackslashFails(name: string, rule: Rule)
    requires IsIdent(name) && WfRule(name, rule) && Stuck(rule)
    ensures Breaks(RuleStatement(name, rule))
  {
    var rest := StuckStatement(name, rule);
    hide RuleStatement, Breaks, StuckHead;
    StuckBreaks(name, rule, rest);
  }

  lemma StuckStatement(name: string, rule: Rule) returns (rest: string)
    requires Stuck(rule)
    ensures RuleStatement(name, rule) == StuckHead(name, rule) + rest
  {
    RhsOfOne(rule);
    RuleStatementText(name, rule);
    rest := "\n  " + Join(PrintConditions(rule.conditions), ",\n  ");
    hide RuleStatement, RuleHead, PrintRhs, PrintConditions, Json.Quote;
    Assoc(RuleHead(name, rule), Json.Quote(rule.actions[0]) + ",", rest);
  }

  /** The stuck statement, from its front up to the first semicolon, wherever that is. */
  lemma StuckPiece(name: string, rule: Rule, rest: string, m: nat) returns (first: string)
    requires IsIdent(name) && WfRule(name, rule) && Stuck(rule)
    requires var t := StuckHead(name, rule) + rest; m <= |t| && (m < |t| ==> t[m] == ';')
    ensures first == TrimEnd((StuckHead(name, rule) + rest)[..m]) && first != "" && Breaks(first)
  {
    hide RuleHead, Json.Quote, MethodName, Breaks, Unquoted, TrimEnd, Stuck, WfRule, Trimmed;
    StuckMeans(rule);
    RuleIdent(name, rule);
    var head, q := RuleHead(name, rule), Json.Quote(rule.actions[0]);
    RuleHeadUnquoted(name, rule);
    QuoteShape(rule.actions[0]);
    first := TrimEnd((StuckHead(name, rule) + rest)[..m]);
    PieceAt(head, q, rest, m);
    if m <= |head| + |q| {
      var w := q[..m - |head|];
      TrimEndAppend(head, w);
      TrimEndPrefix(w);
      StuckCutBreaks(name, rule, TrimEnd(w));
    } else {
      var z := "," + rest[..m - |head| - |q| - 1];
      TrimEndAppend(head + q, z);
      TrimEndPrefix(z);
      var y := TrimEnd(z)[1..];
      assert TrimEnd(z) == "," + y;
      StuckBreaks(name, rule, y);
      Regroup(head, q, y);
    }
  }

  lemma StuckMeans(rule: Rule)
    ensures Stuck(rule) ==> |rule.actions| == 1 && EndsInBackslash(rule.actions[0])
  {
  }

  lemma RuleIdent(name: string, rule: Rule)
    requires WfRule(name, rule)
    ensures IsIdent(MethodName(rule.id))
  {
  }

  lemma Regroup(head: string, q: string, y: string)
    ensures head + q + ("," + y) == head + (q + ",") + y
  {
  }

  /** Where the first semicolon of the text can be, and what is before it. */
  lemma PieceAt(head: string, q: string, rest: string, m: nat)
    requires var t := head + (q + ",") + rest; m <= |t| && (m < |t| ==> t[m] == ';')
    requires ';' !in head && q != "" && q[0] != ';'
    ensures m > |head| && m != |head| + |q|
    ensures var t := head + (q + ",") + rest;
      if m <= |head| + |q| then t[..m] == head + q[..m - |head|]
      else t[..m] == head + q + ("," + rest[..m - |head| - |q| - 1])
  {
    var t := head + (q + ",") + rest;
    assert forall k :: 0 <= k < |head| ==> t[k] == head[k];
    assert t[|head|] == q[0] && t[|head| + |q|] == ',';
    if m <= |head| + |q| {
      assert t[..m] == head + q[..m - |head|];
    } else {
      assert t[..m] == head + q + ("," + rest[..m - |head| - |q| - 1]);
    }
  }

  // ----- the whole text -----

  /** A statement that is cut, or that no state accepts. */
  ghost predicate Bad(t: string) { ';' in t || Breaks(t) }

  lemma TrimLead(lead: string, t: string)
    requires Blank(lead) && t != "" && !IsSpace(t[0])
    ensures Trim(lead + t) == TrimEnd(t)
  {
    TrimStartBlank(lead, t);
    TrimStartSolid(t);
  }

  /** The first statement of the text when a semicolon inside a string cuts it. */
  lemma SplitCut(lead: string, t: string, rest: string) returns (more: seq<string>)
    requires Blank(lead) && ';' !in lead && ';' in t && t != "" && !IsSpace(t[0]) && Cut(t) != ""
    ensures SplitStatements(lead + t + rest) == [Cut(t)] + more
  {
    var i :| 0 <= i < |t| && t[i] == ';';
    SpanStops(t, i, NotSemicolon);
    var k := Span(t, NotSemicolon);
    var piece, after := t[..k], t[k + 1..] + rest;
    assert piece != "" by { assert k > 0; }
    assert piece[0] == t[0];
    assert ';' !in piece;
    assert lead + t + rest == (lead + piece) + [';'] + after by {
      assert t == piece + [';'] + t[k + 1..];
    }
    SplitHead(lead + piece, ';', after);
    TrimLead(lead, piece);
    hide Trim, Split;
    more := NonEmpty(TrimAll(Split(after, ';')));
  }

  ghost predicate Cuttables(statements: seq<string>) {
    forall i :: 0 <= i < |statements| ==> Cuttable(statements[i])
  }

  /** One statement off the front of the text: whole, or cut and refused. */
  lemma FrontStatement(t: string, lead: string, rest: string, st: State)
    requires Cuttable(t) && (lead == "" || lead == "\n\n")
    ensures ';' in t ==> ExecAll(st, SplitStatements(lead + t + " ;" + rest)).Err?
    ensures ';' !in t ==> SplitStatements(lead + t + " ;" + rest) == [t] + SplitStatements(rest)
  {
    assert Blank(lead) && ';' !in lead;
    hide SplitStatements, Exec, Balanced, Cut, Blank;
    if ';' in t {
      Assoc(lead + t, " ;", rest);
      var tail := SplitCut(lead, t, " ;" + rest);
      assert Exec(st, Cut(t)).Err?;
    } else {
      SplitFirst(lead, t, rest);
    }
  }

  lemma FrontOfText(statements: seq<string>, lead: string, st: State)
    requires statements != [] && Cuttables(statements) && (lead == "" || lead == "\n\n")
    ensures var t := statements[0];
      var rest := if |statements| == 1 then "\n" else "\n\n" + TextOf(statements[1..]);
      (';' in t ==> ExecAll(st, SplitStatements(lead + TextOf(statements))).Err?) &&
      (';' !in t ==> SplitStatements(lead + TextOf(statements)) == [t] + SplitStatements(rest))
  {
    var t := statements[0];
    var rest := if |statements| == 1 then "\n" else "\n\n" + TextOf(statements[1..]);
    assert Cuttable(t);
    TextFirst(statements);
    hide TextOf, SplitStatements, Cuttable, ExecAll;
    FrontStatement(t, lead, rest, st);
    Assoc(lead, t + " ;", rest);
    Assoc(lead, t, " ;");
  }

  /** Text with a bad statement is refused, whatever was read before it. */
  lemma {:induction false} BadTextFails(statements: seq<string>, lead: string, st: State, k: nat)
    requires Cuttables(statements) && k < |statements| && Bad(statements[k])
    requires lead == "" || lead == "\n\n"
    ensures ExecAll(st, SplitStatements(lead + TextOf(statements))).Err?
    decreases statements
  {
    hide TextOf, SplitStatements, Exec, Cuttable;
    FrontOfText(statements, lead, st);
    var t, more := statements[0], statements[1..];
    if ';' !in t && Exec(st, t).Ok? {
      assert k > 0;
      assert more[k - 1] == statements[k];
      hide Breaks;
      BadTextFails(more, "\n\n", Exec(st, t).value, k - 1);
    }
  }

  lemma BadDocumentFails(statements: seq<string>, k: nat)
    requires Cuttables(statements) && k < |statements| && Bad(statements[k])
    requires Strip(START, TextOf(statements)) == TextOf(statements)
    ensures Finish(ExecAll(State([], {}), SplitStatements(Strip(START, TextOf(statements))))).Err?
  {
    hide Bad, SplitStatements, TextOf, Cuttables, Strip;
    BadTextFails(statements, "", State([], {}), k);
    assert "" + TextOf(statements) == TextOf(statements);
  }

  // ----- from strings to statements -----

  lemma {:induction false} SeparatorInQuotes(parts: seq<string>, sep: string, k: nat)
    requires k < |parts| && ';' in parts[k]
    ensures ';' in Join(Quotes(parts), sep)
  {
    if k == 0 {
      QuoteKeeps(parts[0], ';');
    } else {
      SeparatorInQuotes(parts[1..], sep, k - 1);
    }
    hide Json.Quote;
  }

  lemma {:induction false} SeparatorInJson(v: Json.Value)
    requires !JsonStrings(v, Unseparated)
    ensures ';' in Json.Print(v)
    decreases v, 1
  {
    match v
    case Str(s) => QuoteKeeps(s, ';');
    case Array(items) => SeparatorInItems(items);
    case Object(members) => SeparatorInMembers(members);
  }

  lemma {:induction false} SeparatorInItems(items: seq<Json.Value>)
    requires !ItemStrings(items, Unseparated)
    ensures ';' in Json.PrintItems(items)
    decreases items, 0
  {
    if !JsonStrings(items[0], Unseparated) {
      SeparatorInJson(items[0]);
    } else {
      SeparatorInItems(items[1..]);
    }
  }

  lemma {:induction false} SeparatorInMember(member: (string, Json.Value))
    requires !MemberStringsOf(member, Unseparated)
    ensures ';' in Json.PrintMember(member)
    decreases member, 0
  {
    QuoteKeeps(member.0, ';');
    if !JsonStrings(member.1, Unseparated) {
      SeparatorInJson(member.1);
    }
  }

  lemma {:induction false} SeparatorInMembers(members: seq<(string, Json.Value)>)
    requires !MemberStrings(members, Unseparated)
    ensures ';' in Json.PrintMembers(members)
    decreases members, 0
  {
    if !MemberStringsOf(members[0], Unseparated) {
      SeparatorInMember(members[0]);
    } else {
      SeparatorInMembers(members[1..]);
    }
  }

  lemma SeparatorInCondition(c: Condition)
    requires !ConditionStrings(c, Unseparated)
    ensures ';' in PrintCondition(c)
  {
    match c
    case HasRole(roles) =>
      var k :| 0 <= k < |roles| && !Unseparated(roles[k], false);
      SeparatorInQuotes(roles, " ", k);
      hide Join, Quotes;
    case HasScope(scopes) =>
      var k :| 0 <= k < |scopes| && !Unseparated(scopes[k], false);
      SeparatorInQuotes(scopes, " ", k);
      hide Join, Quotes;
    case Equals(_, value) =>
      SeparatorInJson(value);
      hide Json.Print, Json.Quote;
  }

  lemma {:induction false} JoinKeeps(parts: seq<string>, sep: string, k: nat, c: char)
    requires k < |parts| && c in parts[k]
    ensures c in Join(parts, sep)
  {
    if k > 0 {
      JoinKeeps(parts[1..], sep, k - 1, c);
    }
  }

  /** A separator in a string of a rule makes its statement bad. */
  lemma BadRule(name: string, rule: Rule)
    requires IsIdent(name) && WfRule(name, rule) && Decided(rule)
    requires !RuleStrings(rule, Unseparated) || !Readable(rule)
    ensures Bad(RuleStatement(name, rule))
  {
    if !Readable(rule) {
      BackslashFails(name, rule);
    } else {
      SeparatedRule(name, rule);
    }
  }

  lemma SeparatedRule(name: string, rule: Rule)
    requires IsIdent(name) && WfRule(name, rule) && Readable(rule) && !RuleStrings(rule, Unseparated)
    ensures Bad(RuleStatement(name, rule))
  {
    var fs := RhsFields(rule);
    hide Breaks, Join, Readable;
    if !NoBars(rule.actions) {
      BarredRuleBreaks(name, rule);
    } else if !AllStrings(rule.actions, true, Unseparated) {
      var k :| 0 <= k < |rule.actions| && !Unseparated(rule.actions[k], true);
      ActionSeparator(rule.actions, k);
      JoinKeeps(fs, ",\n  ", 0, ';');
      RhsInStatement(name, rule);
    } else {
      var k :| 0 <= k < |rule.conditions| && !ConditionStrings(rule.conditions[k], Unseparated);
      SeparatorInCondition(rule.conditions[k]);
      ConditionAt(rule.conditions, k);
      assert fs[k + 1] == PrintConditions(rule.conditions)[k];
      JoinKeeps(fs, ",\n  ", k + 1, ';');
      RhsInStatement(name, rule);
    }
  }

  lemma ActionSeparator(actions: seq<string>, k: nat)
    requires k < |actions| && ';' in actions[k]
    ensures ';' in PrintActions(actions)
  {
    SeparatorInQuotes(actions, " | ", k);
    QuoteKeeps(actions[0], ';');
    hide Json.Quote, Join, Quotes;
  }

  lemma RhsInStatement(name: string, rule: Rule)
    requires ';' in PrintRhs(rule)
    ensures ';' in RuleStatement(name, rule)
  {
    hide PrintRhs, MethodName;
  }

  /** Every printed statement is cuttable. */
  lemma {:induction false} RulesCuttable(name: string, rules: seq<Rule>)
    requires IsIdent(name) && forall i :: 0 <= i < |rules| ==> WfRule(name, rules[i]) && Decided(rules[i])
    ensures Cuttables(RuleStatements(name, rules))
  {
    hide Cuttable, RuleStatement, WfRule, Decided;
    if rules != [] {
      RuleCut(name, rules[0]);
      RulesCuttable(name, rules[1..]);
    }
  }

  lemma {:induction false} RuleAt(name: string, rules: seq<Rule>, k: nat)
    requires k < |rules|
    ensures |RuleStatements(name, rules)| == |rules| && RuleStatements(name, rules)[k] == RuleStatement(name, rules[k])
  {
    hide RuleStatement;
    if k > 0 {
      RuleAt(name, rules[1..], k - 1);
    } else if |rules| > 1 {
      RuleAt(name, rules[1..], 0);
    }
  }

  /** A rule the project tells whether it is read back: yes when readable, no when stuck. */
  predicate Decided(rule: Rule) { Readable(rule) || Stuck(rule) }

  ghost predicate Deciding(policies: seq<Policy>) {
    forall i :: 0 <= i < |policies| ==> WfPolicy(policies[i]) && PolicyRules(policies[i], Decided)
  }

  lemma {:induction false} AllCuttable(policies: seq<Policy>)
    requires Deciding(policies)
    ensures Cuttables(Statements(policies))
  {
    if policies != [] {
      var p := policies[0];
      assert WfPolicy(p) && PolicyRules(p, Decided);
      OwnCuttable(p);
      hide Cuttable, Cuttables, WfPolicy, PolicyRules, PolicyStatement, RuleStatements;
      AllCuttable(policies[1..]);
      ConcatCuttable([PolicyStatement(p)] + RuleStatements(p.name, p.rules), Statements(policies[1..]));
    }
  }

  lemma OwnCuttable(p: Policy)
    requires WfPolicy(p) && PolicyRules(p, Decided)
    ensures Cuttables([PolicyStatement(p)] + RuleStatements(p.name, p.rules))
  {
    PolicyCut(p);
    RulesCuttable(p.name, p.rules);
    hide Cuttable, WfPolicy, PolicyRules, PolicyStatement, RuleStatements;
    ConcatCuttable([PolicyStatement(p)], RuleStatements(p.name, p.rules));
  }

  lemma ConcatCuttable(a: seq<string>, b: seq<string>)
    requires Cuttables(a) && Cuttables(b)
    ensures Cuttables(a + b)
  {
    hide Cuttable;
  }

  /** A string holds a separator, or a rule is not readable. */
  predicate Wanting(p: Policy) { !PolicyStrings(p, Unseparated) || !PolicyRules(p, Readable) }

  lemma BadPolicy(p: Policy) returns (k: nat)
    requires WfPolicy(p) && PolicyRules(p, Decided) && Wanting(p)
    ensures var own := [PolicyStatement(p)] + RuleStatements(p.name, p.rules); k < |own| && Bad(own[k])
  {
    hide Breaks;
    if !Unseparated(p.resource, false) {
      k := 0;
      QuoteKeeps(p.resource, ';');
    } else {
      var i :| 0 <= i < |p.rules| && (!RuleStrings(p.rules[i], Unseparated) || !Readable(p.rules[i]));
      assert WfRule(p.name, p.rules[i]) && Decided(p.rules[i]);
      hide WfRule, RuleStrings, RuleStatement, Readable, Decided;
      BadRule(p.name, p.rules[i]);
      RuleAt(p.name, p.rules, i);
      k := i + 1;
    }
  }

  lemma {:induction false} BadPolicies(policies: seq<Policy>, j: nat) returns (k: nat)
    requires Deciding(policies) && j < |policies| && Wanting(policies[j])
    ensures k < |Statements(policies)| && Bad(Statements(policies)[k])
  {
    hide Bad, WfPolicy, PolicyRules, PolicyStatement, RuleStatements;
    var p := policies[0];
    var own := [PolicyStatement(p)] + RuleStatements(p.name, p.rules);
    if j == 0 {
      k := BadPolicy(p);
      assert Statements(policies)[k] == own[k];
    } else {
      var k' := BadPolicies(policies[1..], j - 1);
      k := |own| + k';
      assert Statements(policies)[k] == Statements(policies[1..])[k'];
    }
  }

  /** A separator in a string, or a stuck rule, and the printed document is refused. */
  lemma SeparatorsFail(d: Document)
    requires WfDocument(d) && Calming(d) && EveryRule(d, Decided)
    requires !DocumentStrings(d, Unseparated) || !EveryRule(d, Readable)
    ensures Parse(PrintDocument(d)).Err?
  {
    StripPrinted(d);
    PrintedText(d);
    hide WfPolicy, PolicyStrings, PolicyRules, Cuttable, Bad, Strip, PrintDocument;
    assert Deciding(d.policies);
    var j :| 0 <= j < |d.policies| && Wanting(d.policies[j]);
    var k := BadPolicies(d.policies, j);
    AllCuttable(d.policies);
    hide Deciding, Cuttables, Statements, TextOf;
    BadDocumentFails(Statements(d.policies), k);
  }

  // ----- sorting keeps the document -----

  lemma SortedRulesPolicy(p: Policy, order: Order, ok: StringTest, test: Rule -> bool)
    requires WfPolicy(p)
    ensures var rules := Sorting.Sort(p.rules, (a: Rule, b: Rule) => order(a.id, b.id));
      && WfPolicy(p.(rules := rules))
      && (PolicyStrings(p.(rules := rules), ok) <==> PolicyStrings(p, ok))
      && (PolicyRules(p.(rules := rules), test) <==> PolicyRules(p, test))
  {
    hide WfRule, RuleStrings;
    var le := (a: Rule, b: Rule) => order(a.id, b.id);
    var rules := Sorting.Sort(p.rules, le);
    Sorting.SortMembers(p.rules, le);
    SortDistinctIds(p.rules, le);
    hide Sorting.Sort, DistinctIds;
    SameRules(p.rules, rules, (r: Rule) => WfRule(p.name, r));
    SameRules(p.rules, rules, (r: Rule) => RuleStrings(r, ok));
    SameRules(p.rules, rules, test);
  }

  lemma SameRules(a: seq<Rule>, b: seq<Rule>, test: Rule -> bool)
    requires forall r :: r in b <==> r in a
    ensures (forall i :: 0 <= i < |b| ==> test(b[i])) <==> (forall i :: 0 <= i < |a| ==> test(a[i]))
  {
    assert (forall i :: 0 <= i < |b| ==> test(b[i])) <==> (forall r :: r in b ==> test(r));
    assert (forall i :: 0 <= i < |a| ==> test(a[i])) <==> (forall r :: r in a ==> test(r));
  }

  lemma {:induction false} SortDistinctIds(rules: seq<Rule>, le: (Rule, Rule) -> bool)
    requires DistinctIds(rules)
    ensures DistinctIds(Sorting.Sort(rules, le))
  {
    if rules != [] {
      SortDistinctIds(rules[1..], le);
      Sorting.SortMembers(rules[1..], le);
      InsertDistinctIds(rules[0], Sorting.Sort(rules[1..], le), le);
    }
  }

  lemma {:induction false} InsertDistinctIds(x: Rule, rules: seq<Rule>, le: (Rule, Rule) -> bool)
    requires DistinctIds(rules) && forall r :: r in rules ==> r.id != x.id
    ensures DistinctIds(Sorting.Insert(x, rules, le))
  {
    if rules == [] || le(x, rules[0]) {
    } else {
      InsertDistinctIds(x, rules[1..], le);
      Sorting.InsertElements(x, rules[1..], le);
      var tail := Sorting.Insert(x, rules[1..], le);
      forall r | r in tail ensures r.id != rules[0].id {
        assert r in multiset(tail);
        assert r == x || r in rules[1..];
      }
    }
  }

  lemma {:induction false} SortDistinctPolicies(policies: seq<Policy>, le: (Policy, Policy) -> bool)
    requires DistinctPolicies(policies)
    ensures DistinctPolicies(Sorting.Sort(policies, le))
  {
    if policies != [] {
      SortDistinctPolicies(policies[1..], le);
      Sorting.SortMembers(policies[1..], le);
      InsertDistinctPolicies(policies[0], Sorting.Sort(policies[1..], le), le);
    }
  }

  lemma {:induction false} InsertDistinctPolicies(x: Policy, policies: seq<Policy>, le: (Policy, Policy) -> bool)
    requires DistinctPolicies(policies)
    requires forall p :: p in policies ==> p.name != x.name && p.resource != x.resource
    ensures DistinctPolicies(Sorting.Insert(x, policies, le))
  {
    if policies == [] || le(x, policies[0]) {
    } else {
      InsertDistinctPolicies(x, policies[1..], le);
      Sorting.InsertElements(x, policies[1..], le);
      var tail := Sorting.Insert(x, policies[1..], le);
      forall p | p in tail ensures p.name != policies[0].name && p.resource != policies[0].resource {
        assert p in multiset(tail);
        assert p == x || p in policies[1..];
      }
    }
  }

  lemma {:induction false} SortRulesAt(policies: seq<Policy>, order: Order, i: nat)
    requires i < |policies|
    ensures SortRules(policies, order)[i]
         == policies[i].(rules := Sorting.Sort(policies[i].rules, (a: Rule, b: Rule) => order(a.id, b.id)))
  {
    if i > 0 {
      SortRulesAt(policies[1..], order, i - 1);
    }
  }

  lemma SortedPolicies(policies: seq<Policy>, le: (Policy, Policy) -> bool, ok: StringTest, test: Rule -> bool)
    requires DistinctPolicies(policies) && forall i :: 0 <= i < |policies| ==> WfPolicy(policies[i])
    ensures var sorted := Sorting.Sort(policies, le);
      && |sorted| == |policies| && DistinctPolicies(sorted)
      && (forall i :: 0 <= i < |sorted| ==> WfPolicy(sorted[i]))
      && (DocumentStrings(Document(sorted), ok) <==> DocumentStrings(Document(policies), ok))
      && (EveryRule(Document(sorted), test) <==> EveryRule(Document(policies), test))
  {
    hide WfPolicy, PolicyStrings, PolicyRules;
    var sorted := Sorting.Sort(policies, le);
    Sorting.SortMembers(policies, le);
    SortDistinctPolicies(policies, le);
    hide DistinctPolicies;
    forall i | 0 <= i < |sorted| ensures WfPolicy(sorted[i]) {
      assert sorted[i] in sorted;
      var j :| 0 <= j < |policies| && policies[j] == sorted[i];
    }
    assert DocumentStrings(Document(policies), ok) <==> forall p :: p in policies ==> PolicyStrings(p, ok);
    assert DocumentStrings(Document(sorted), ok) <==> forall p :: p in sorted ==> PolicyStrings(p, ok);
    assert EveryRule(Document(policies), test) <==> forall p :: p in policies ==> PolicyRules(p, test);
    assert EveryRule(Document(sorted), test) <==> forall p :: p in sorted ==> PolicyRules(p, test);
  }

  lemma SortedRules(policies: seq<Policy>, order: Order, ok: StringTest, test: Rule -> bool)
    requires DistinctPolicies(policies) && forall i :: 0 <= i < |policies| ==> WfPolicy(policies[i])
    ensures var out := SortRules(policies, order);
      && DistinctPolicies(out)
      && (forall i :: 0 <= i < |out| ==> WfPolicy(out[i]))
      && (DocumentStrings(Document(out), ok) <==> DocumentStrings(Document(policies), ok))
      && (EveryRule(Document(out), test) <==> EveryRule(Document(policies), test))
  {
    hide WfPolicy, PolicyStrings, PolicyRules;
    var out := SortRules(policies, order);
    forall i | 0 <= i < |out|
      ensures out[i].name == policies[i].name && out[i].resource == policies[i].resource
      ensures WfPolicy(out[i]) && (PolicyStrings(out[i], ok) <==> PolicyStrings(policies[i], ok))
      ensures PolicyRules(out[i], test) <==> PolicyRules(policies[i], test)
    {
      SortRulesAt(policies, order, i);
      SortedRulesPolicy(policies[i], order, ok, test);
    }
    hide SortRules;
  }

  /** A sorted document is as well formed as the original and holds the same strings and rules. */
  lemma SortedDocument(d: Document, order: Order, ok: StringTest, test: Rule -> bool)
    requires WfDocument(d)
    ensures WfDocument(SortDocument(d, order))
    ensures DocumentStrings(SortDocument(d, order), ok) <==> DocumentStrings(d, ok)
    ensures EveryRule(SortDocument(d, order), test) <==> EveryRule(d, test)
  {
    hide WfPolicy, PolicyStrings, DistinctPolicies, DocumentStrings, EveryRule;
    var le := (a: Policy, b: Policy) => order(a.name, b.name);
    SortedPolicies(d.policies, le, ok, test);
    SortedRules(Sorting.Sort(d.policies, le), order, ok, test);
    assert Document(d.policies) == d;
  }

  // ----- the theorems -----

  /**
   * Printing and parsing a well-formed document gives it back, sorted, exactly when no string holds a semicolon, no
   * action a bar and no rule is stuck; otherwise the parser refuses the text. Trailing backslashes are allowed wherever
   * a resource or the one action of a rule ends, as long as no string holds the mark of a comment.
   */
  lemma RoundTrip(d: Document, order: Order)
    requires WfDocument(d) && Calming(d) && EveryRule(d, Decided)
    ensures DocumentStrings(d, Unseparated) && EveryRule(d, Readable) ==>
      Parse(PrintPolicies(d, order)) == Ok(SortDocument(d, order))
    ensures !(DocumentStrings(d, Unseparated) && EveryRule(d, Readable)) ==> Parse(PrintPolicies(d, order)).Err?
  {
    hide WfDocument, DocumentStrings, EveryRule, SortDocument, Parse, PrintDocument;
    SortedDocument(d, order, Closes, Decided);
    SortedDocument(d, order, Uncommented, Readable);
    SortedDocument(d, order, Unseparated, Readable);
    if DocumentStrings(d, Unseparated) && EveryRule(d, Readable) {
      ParsePrinted(SortDocument(d, order));
    } else {
      SeparatorsFail(SortDocument(d, order));
    }
  }

  /** Documents none of whose strings ends in a backslash are among them, and all their rules are readable. */
  lemma ClosingDecided(d: Document)
    requires DocumentStrings(d, Closes)
    ensures Calming(d) && EveryRule(d, Decided) && EveryRule(d, Readable)
  {
    hide RuleStrings, Stuck;
    forall i, j | 0 <= i < |d.policies| && 0 <= j < |d.policies[i].rules|
      ensures Readable(d.policies[i].rules[j])
    {
      assert PolicyStrings(d.policies[i], Closes);
    }
  }

  lemma {:induction false} SortRulesAgain(policies: seq<Policy>, order: Order)
    requires forall i :: 0 <= i < |policies| ==>
      Sorting.Sorted(policies[i].rules, (a: Rule, b: Rule) => order(a.id, b.id))
    ensures SortRules(policies, order) == policies
  {
    if policies != [] {
      Sorting.SortOfSorted(policies[0].rules, (a: Rule, b: Rule) => order(a.id, b.id));
      SortRulesAgain(policies[1..], order);
    }
  }

  /** Comparing by a key inherits totality and transitivity. */
  lemma KeyOrder<T(!new)>(order: Order, key: T -> string, le: (T, T) -> bool)
    requires Sorting.TotalPreorder(order)
    requires forall a, b :: le(a, b) == order(key(a), key(b))
    ensures Sorting.TotalPreorder(le)
  {
    forall a, b ensures le(a, b) || le(b, a) {
      assert order(key(a), key(b)) || order(key(b), key(a));
    }
    forall a, b, c | le(a, b) && le(b, c) ensures le(a, c) {
      assert order(key(a), key(b)) && order(key(b), key(c));
    }
  }

  /** Sorting a sorted document changes nothing. */
  lemma SortIdempotent(d: Document, order: Order)
    requires Sorting.TotalPreorder(order)
    ensures SortDocument(SortDocument(d, order), order) == SortDocument(d, order)
  {
    var byName := (a: Policy, b: Policy) => order(a.name, b.name);
    var byId := (a: Rule, b: Rule) => order(a.id, b.id);
    KeyOrder(order, (p: Policy) => p.name, byName);
    KeyOrder(order, (r: Rule) => r.id, byId);
    var sorted := Sorting.Sort(d.policies, byName);
    Sorting.SortSorted(d.policies, byName);
    var out := SortRules(sorted, order);
    forall i | 0 <= i < |out| ensures out[i].name == sorted[i].name && Sorting.Sorted(out[i].rules, byId) {
      SortRulesAt(sorted, order, i);
      Sorting.SortSorted(sorted[i].rules, byId);
    }
    forall i, j | 0 <= i < j < |out| ensures byName(out[i], out[j]) {
      assert byName(sorted[i], sorted[j]);
    }
    Sorting.SortOfSorted(out, byName);
    SortRulesAgain(out, order);
  }

  /** The printed text is stable: parsing it and printing again gives the same text. */
  lemma PrintStable(d: Document, order: Order)
    requires WfDocument(d) && Calming(d) && EveryRule(d, Readable) && DocumentStrings(d, Unseparated)
    requires Sorting.TotalPreorder(order)
    ensures var text := PrintPolicies(d, order);
      Parse(text).Ok? && PrintPolicies(Parse(text).value, order) == text
  {
    assert EveryRule(d, Decided) by {
      forall i | 0 <= i < |d.policies| ensures PolicyRules(d.policies[i], Decided) {
        assert PolicyRules(d.policies[i], Readable);
      }
    }
    hide WfDocument, DocumentStrings, EveryRule, SortDocument, Parse, PrintDocument;
    RoundTrip(d, order);
    SortIdempotent(d, order);
  }

  // ----- a document that holds such a rule -----

  /** Statements printed one after the other, each with what separates it from the next one. */
  function Front(statements: seq<string>): string {
    if statements == [] then "" else statements[0] + " ;" + "\n\n" + Front(statements[1..])
  }

  lemma {:induction false} TextFront(before: seq<string>, t: string, after: seq<string>) returns (rest: string)
    ensures TextOf(before + [t] + after) == Front(before) + (t + rest)
    decreases |before|
  {
    var all := before + [t] + after;
    TextFirst(all);
    if before == [] {
      rest := " ;" + if |all| == 1 then "\n" else "\n\n" + TextOf(all[1..]);
      hide TextOf;
      Assoc(t, " ;", if |all| == 1 then "\n" else "\n\n" + TextOf(all[1..]));
      assert Front(before) == "" && "" + (t + rest) == t + rest;
    } else {
      assert all[1..] == before[1..] + [t] + after && all[0] == before[0];
      hide TextOf;
      rest := TextFront(before[1..], t, after);
      Assoc4(before[0] + " ;", "\n\n", Front(before[1..]), t + rest);
    }
  }

  lemma {:induction false} GoodFront(before: seq<string>, ok: StringTest, good: string -> bool)
    requires Carries(ok, good) && Goods(before, good) && good(" ;")
    ensures good(Front(before))
  {
    hide Carries;
    Plain("", ok, good);
    Plain("\n\n", ok, good);
    if before != [] {
      GoodFront(before[1..], ok, good);
      Three(before[0], " ;", "\n\n", ok, good);
      Both(before[0] + " ;" + "\n\n", Front(before[1..]), ok, good);
    }
  }

  lemma FrontBalanced(before: seq<string>)
    requires Goods(before, BalancedIn({'*'}))
    ensures Balanced(Front(before), {'*'})
  {
    CarriesBalanced({'*'});
    StarMarks();
    hide Carries, Balanced;
    GoodFront(before, Closes, BalancedIn({'*'}));
  }

  /** What a document has printed so far: cuttable statements without a comment. */
  ghost predicate Printed(statements: seq<string>) {
    Cuttables(statements) && Goods(statements, BalancedIn({'*'}))
  }

  lemma PrintedConcat(a: seq<string>, b: seq<string>)
    requires Printed(a) && Printed(b)
    ensures Printed(a + b)
  {
    ConcatCuttable(a, b);
    GoodsConcat(a, b, BalancedIn({'*'}));
    hide Cuttables, Goods;
  }

  lemma RulesPrinted(name: string, rules: seq<Rule>)
    requires IsIdent(name) && forall i :: 0 <= i < |rules| ==> WfRule(name, rules[i]) && RuleStrings(rules[i], Closes)
    ensures Printed(RuleStatements(name, rules))
  {
    hide Cuttables, Goods, WfRule, RuleStrings, RuleStatements, IsIdent, Carries, Marked, Balanced, Stuck;
    RulesCuttable(name, rules);
    CarriesBalanced({'*'});
    StarMarks();
    GoodRules(name, rules, Closes, BalancedIn({'*'}));
  }

  lemma PolicyPrinted(p: Policy)
    requires IsIdent(p.name) && Closes(p.resource, false)
    ensures Printed([PolicyStatement(p)])
  {
    hide PolicyStatement, IsIdent, Carries, Balanced, Cuttable;
    PolicyCut(p);
    CarriesBalanced({'*'});
    GoodPolicy(p, Closes, BalancedIn({'*'}));
  }

  /** Comments are looked for only behind text that holds no star outside quotes. */
  lemma {:induction false} StripFront(lex: Lex, a: string, b: string)
    requires Avoids(lex, a, {'*'}) && (a != "" ==> a[|a| - 1] != '(')
    ensures Strip(lex, a + b) == a + Strip(LexAll(lex, a), b)
    decreases a
  {
    if a == "" {
      assert a + b == b;
    } else {
      var t := a + b;
      assert t[0] == a[0] && t[1..] == a[1..] + b;
      if |a| > 1 {
        assert t[1] == a[1] && a[1..][0] == a[1];
      }
      StripFront(Next(lex, a[0]), a[1..], b);
      Assoc([a[0]], a[1..], Strip(LexAll(lex, a), b));
      assert [a[0]] + a[1..] == a;
    }
  }

  lemma HeadFront(name: string, rule: Rule)
    ensures RuleHead(name, rule) != "" && !IsSpace(RuleHead(name, rule)[0])
  {
    assert RuleHead(name, rule)[0] == EffectName(rule.effect)[0];
  }

  lemma {:induction false} WholeSpan(t: string)
    requires ';' !in t
    ensures Span(t, NotSemicolon) == |t|
  {
    if t != "" {
      WholeSpan(t[1..]);
    }
  }

  lemma SplitWhole(lead: string, t: string)
    requires Blank(lead) && ';' !in lead + t && t != "" && !IsSpace(t[0])
    ensures SplitStatements(lead + t) == [TrimEnd(t)]
  {
    SplitNone(lead + t, ';');
    TrimLead(lead, t);
    TrimEndPrefix(t);
    hide Trim, TrimEnd;
    assert TrimAll([lead + t]) == [TrimEnd(t)];
    assert NonEmpty([TrimEnd(t)]) == [TrimEnd(t)];
  }

  /** The first statement of the text when the stuck rule comes first. */
  lemma StuckFront(lead: string, name: string, rule: Rule, rest: string) returns (first: string, more: seq<string>)
    requires (lead == "" || lead == "\n\n") && IsIdent(name) && WfRule(name, rule) && Stuck(rule)
    ensures SplitStatements(lead + (StuckHead(name, rule) + rest)) == [first] + more && Breaks(first)
  {
    assert Blank(lead) && ';' !in lead;
    var head, q := RuleHead(name, rule), Json.Quote(rule.actions[0]);
    RuleHeadUnquoted(name, rule);
    HeadFront(name, rule);
    QuoteShape(rule.actions[0]);
    hide RuleHead, Json.Quote, MethodName, Breaks, Blank, Unquoted, SplitStatements;
    var t := StuckHead(name, rule) + rest;
    assert t[0] == head[0];
    var n := Span(t, NotSemicolon);
    assert n < |t| ==> t[n] == ';';
    first := StuckPiece(name, rule, rest, n);
    if ';' in t {
      more := SplitCut(lead, t, "");
      assert lead + t + "" == lead + t;
    } else {
      WholeSpan(t);
      assert t[..n] == t;
      SplitWhole(lead, t);
      more := [];
    }
  }

  /** Statements before a stuck one are read or refused; the stuck one is refused. */
  lemma {:induction false} StuckTextFails(
      before: seq<string>, lead: string, name: string, rule: Rule, rest: string, st: State)
    requires Cuttables(before) && (lead == "" || lead == "\n\n") && IsIdent(name) && WfRule(name, rule) && Stuck(rule)
    ensures ExecAll(st, SplitStatements(lead + (Front(before) + (StuckHead(name, rule) + rest)))).Err?
    decreases |before|
  {
    hide SplitStatements, Exec, Cuttable, WfRule, IsIdent, RuleHead, Json.Quote;
    var t := StuckHead(name, rule) + rest;
    if before == [] {
      assert Front(before) + t == t;
      var first, more := StuckFront(lead, name, rule, rest);
      assert Exec(st, first).Err?;
    } else {
      var s, later := before[0], Front(before[1..]) + t;
      assert Cuttable(s);
      FrontStatement(s, lead, "\n\n" + later, st);
      assert lead + (Front(before) + t) == lead + s + " ;" + ("\n\n" + later) by {
        Assoc4(s, " ;", "\n\n", Front(before[1..]));
        Assoc(s + " ;" + "\n\n", Front(before[1..]), t);
        Assoc(s + " ;", "\n\n", later);
        Assoc(lead, s + " ;", "\n\n" + later);
        Assoc(lead, s, " ;");
      }
      hide Front, Breaks;
      if ';' !in s && Exec(st, s).Ok? {
        StuckTextFails(before[1..], "\n\n", name, rule, rest, Exec(st, s).value);
      }
    }
  }

  /** The rule's statement among those of its policy, and the statements before it. */
  lemma OwnStuckAt(p: Policy, j: nat) returns (before: seq<string>)
    requires WfPolicy(p) && j < |p.rules| && Closes(p.resource, false) &&
      forall m :: 0 <= m < j ==> RuleStrings(p.rules[m], Closes)
    ensures [PolicyStatement(p)] + RuleStatements(p.name, p.rules) ==
      before + [RuleStatement(p.name, p.rules[j])] + RuleStatements(p.name, p.rules[j + 1..])
    ensures Printed(before)
  {
    hide PolicyStatement, RuleStatement, RuleStatements, RuleStrings, WfRule, Printed, IsIdent, DistinctIds;
    var own, rules := [PolicyStatement(p)], p.rules[..j];
    PolicyPrinted(p);
    RulesPrinted(p.name, rules);
    RulesSplit(p.name, p.rules, j);
    PrintedConcat(own, RuleStatements(p.name, rules));
    before := own + RuleStatements(p.name, rules);
  }

  lemma OwnPrinted(p: Policy)
    requires WfPolicy(p) && PolicyStrings(p, Closes)
    ensures Printed([PolicyStatement(p)] + RuleStatements(p.name, p.rules))
  {
    PolicyPrinted(p);
    RulesPrinted(p.name, p.rules);
    hide Printed, WfPolicy, PolicyStrings, PolicyStatement, RuleStatements;
    PrintedConcat([PolicyStatement(p)], RuleStatements(p.name, p.rules));
  }

  /** The same among those of the document. */
  lemma {:induction false} StuckAt(policies: seq<Policy>, i: nat, j: nat)
    returns (before: seq<string>, after: seq<string>)
    requires i < |policies| && WfPolicy(policies[i]) && j < |policies[i].rules|
    requires forall k :: 0 <= k < i ==> WfPolicy(policies[k]) && PolicyStrings(policies[k], Closes)
    requires Closes(policies[i].resource, false) && forall m :: 0 <= m < j ==> RuleStrings(policies[i].rules[m], Closes)
    ensures Statements(policies) == before + [RuleStatement(policies[i].name, policies[i].rules[j])] + after
    ensures Printed(before)
  {
    hide Printed, PolicyStatement, RuleStatements, RuleStatement, RuleStrings, WfPolicy, PolicyStrings;
    var p := policies[0];
    if i == 0 {
      before := OwnStuckAt(p, j);
      after := RuleStatements(p.name, p.rules[j + 1..]) + Statements(policies[1..]);
    } else {
      OwnPrinted(p);
      var own, b := [PolicyStatement(p)] + RuleStatements(p.name, p.rules), [];
      b, after := StuckAt(policies[1..], i - 1, j);
      PrintedConcat(own, b);
      before := own + b;
    }
  }

  lemma {:induction false} RulesSplit(name: string, rules: seq<Rule>, j: nat)
    requires j < |rules|
    ensures RuleStatements(name, rules) ==
      RuleStatements(name, rules[..j]) + [RuleStatement(name, rules[j])] + RuleStatements(name, rules[j + 1..])
  {
    hide RuleStatement;
    if j > 0 {
      RulesSplit(name, rules[1..], j - 1);
      assert rules[1..][..j - 1] == rules[..j][1..] && rules[1..][j..] == rules[j + 1..];
    }
  }

  /**
   * A document is refused when its first string that ends in a backslash is
   * the one action of a rule with conditions, whatever else it holds.
   */
  lemma BackslashDocumentFails(d: Document, i: nat, j: nat)
    requires WfDocument(d) && i < |d.policies| && j < |d.policies[i].rules| && Stuck(d.policies[i].rules[j])
    requires forall k :: 0 <= k < i ==> PolicyStrings(d.policies[k], Closes)
    requires Closes(d.policies[i].resource, false) &&
      forall m :: 0 <= m < j ==> RuleStrings(d.policies[i].rules[m], Closes)
    ensures Parse(PrintDocument(d)).Err?
  {
    var name, rule := d.policies[i].name, d.policies[i].rules[j];
    assert WfPolicy(d.policies[i]) && WfRule(name, rule);
    hide WfPolicy, PolicyStrings, RuleStrings, Printed, Stuck, WfRule;
    var before, after := StuckAt(d.policies, i, j);
    var rest := StuckStatement(name, rule);
    hide RuleStatement, Statements, TextOf, StuckHead, SplitStatements, Front;
    var more := TextFront(before, RuleStatement(name, rule), after);
    Assoc(StuckHead(name, rule), rest, more);
    StuckStripped(before, name, rule, rest + more);
    var left := Strip(LexAll(START, Front(before) + StuckHead(name, rule)), rest + more);
    StuckTextFails(before, "", name, rule, left, State([], {}));
    assert "" + (Front(before) + (StuckHead(name, rule) + left)) == Front(before) + (StuckHead(name, rule) + left);
  }

  lemma HeadBalanced(name: string, rule: Rule)
    requires IsIdent(name) && IsIdent(MethodName(rule.id))
    ensures Balanced(RuleHead(name, rule), {'*'})
  {
    HeadStructural(name, rule);
    CarriesBalanced({'*'});
    hide RuleHead, Carries, Balanced, MethodName, IsIdent;
    Plain(RuleHead(name, rule), Closes, BalancedIn({'*'}));
  }

  lemma StuckStripped(before: seq<string>, name: string, rule: Rule, rest: string)
    requires Printed(before) && IsIdent(name) && WfRule(name, rule) && Stuck(rule)
    ensures Strip(START, Front(before) + (StuckHead(name, rule) + rest))
         == Front(before) + (StuckHead(name, rule) + Strip(LexAll(START, Front(before) + StuckHead(name, rule)), rest))
  {
    var head, q := RuleHead(name, rule), Json.Quote(rule.actions[0]);
    FrontBalanced(before);
    HeadBalanced(name, rule);
    hide RuleHead, Json.Quote, Front, Printed, MethodName, Strip, LexAll, Avoids;
    BalancedConcat(Front(before), head, {'*'});
    var a := Front(before) + head;
    assert Avoids(START, a, {'*'}) && Calm(LexAll(START, a));
    hide Balanced;
    StuckStar(a, rule.actions[0]);
    var f := a + q + ",";
    StripFront(START, f, rest);
    assert f == Front(before) + StuckHead(name, rule) by {
      Assoc(Front(before), head, q + ",");
      Assoc(a, q, ",");
    }
    Assoc(Front(before), StuckHead(name, rule), rest);
    Assoc(Front(before), StuckHead(name, rule), Strip(LexAll(START, f), rest));
  }

  lemma StuckStar(a: string, action: string)
    requires Avoids(START, a, {'*'}) && Calm(LexAll(START, a)) && EndsInBackslash(action)
    ensures Avoids(START, a + Json.Quote(action) + ",", {'*'})
  {
    var q := Json.Quote(action);
    StuckRun(LexAll(START, a), action, {'*'});
    AvoidsConcat(START, a, q, {'*'});
    AvoidsConcat(START, a + q, ",", {'*'});
  }

  // ----- a document that comes back different -----

  /** Text that a quoted string shows as it is. */
  predicate Shown(t: string) { Structural(t) && forall c <- t :: c as int >= 32 }

  lemma {:induction false} ShownEscaped(t: string, rest: string)
    requires Shown(t)
    ensures Json.Escaped(t + rest) == t + Json.Escaped(rest)
  {
    if t == "" {
      assert t + rest == rest;
    } else {
      assert t[0] in t && Json.EscapeChar(t[0]) == [t[0]];
      assert forall c <- t[1..] :: c in t;
      assert (t + rest)[0] == t[0] && (t + rest)[1..] == t[1..] + rest;
      ShownEscaped(t[1..], rest);
      assert t == [t[0]] + t[1..];
    }
  }

  lemma {:induction false} CommentEndAt(v: string, rest: string)
    requires '*' !in v
    ensures CommentEnd(v + ("*)" + rest)) == Some(|v| + 2)
  {
    var t := v + ("*)" + rest);
    if v == "" {
      assert t == "*)" + rest;
    } else {
      assert t[0] == v[0] && t[1..] == v[1..] + ("*)" + rest);
      CommentEndAt(v[1..], rest);
    }
  }

  /** A policy with one rule that has one action and no condition. */
  function OneAction(name: string, resource: string, rule: Rule, action: string): Document {
    Document([Policy(name, resource, [rule.(actions := [action])])])
  }

  function Commented(u: string, v: string, w: string): string { u + ("(*" + v + ("*)" + w)) }

  /** What is printed before the action's own characters. */
  function Before(name: string, resource: string, rule: Rule): string {
    PolicyStatement(Policy(name, resource, [])) + (" ;\n\n" + RuleHead(name, rule)) + "\""
  }

  lemma OneActionText(name: string, resource: string, rule: Rule, action: string)
    requires rule.conditions == []
    ensures PrintDocument(OneAction(name, resource, rule, action))
         == Before(name, resource, rule) + (Json.Escaped(action) + "\" ;\n")
  {
    var p := Policy(name, resource, [rule.(actions := [action])]);
    var a, b := PolicyStatement(p), RuleStatement(name, p.rules[0]);
    RuleStatementText(name, p.rules[0]);
    assert PrintRhs(p.rules[0]) == Json.Quote(action);
    assert RuleHead(name, p.rules[0]) == RuleHead(name, rule);
    assert RuleStatements(name, p.rules) == [b] by { assert p.rules[1..] == []; }
    assert Statements([p]) == [a] + [b] by { assert [p][1..] == []; }
    hide RuleStatement, PolicyStatement, RuleHead, Json.Escaped, PrintRhs;
    assert Blocks([a] + [b]) == [a + " ;", b + " ;"] by {
      assert ([a] + [b])[1..] == [b] && [b][1..] == [];
    }
    assert Join([a + " ;", b + " ;"], "\n\n") == a + " ;" + "\n\n" + (b + " ;");
    hide Statements, Blocks, Join;
    OneActionPieces(a, RuleHead(name, rule), Json.Escaped(action));
  }

  lemma OneActionPieces(a: string, head: string, e: string)
    ensures a + " ;" + "\n\n" + (head + ("\"" + e + "\"") + " ;") + "\n" ==
      a + (" ;\n\n" + head) + "\"" + (e + "\" ;\n")
  {
    assert " ;\n\n" == " ;" + "\n\n" && "\" ;\n" == "\"" + " ;" + "\n";
  }

  /** Behind the resource the quotes count the wrong way round: the action's own characters are outside them. */
  lemma Inverted(name: string, resource: string, rule: Rule, u: string)
    requires IsIdent(name) && IsIdent(MethodName(rule.id)) && EndsInBackslash(resource) && Shown(u)
    ensures var a := Before(name, resource, rule) + u;
      Avoids(START, a, {'*'}) && !LexAll(START, a).quoted && a != "" && a[|a| - 1] != '('
  {
    var head, q, mid := "policy " + name + " = ", Json.Quote(resource), " ;\n\n" + RuleHead(name, rule);
    IdentStructural(name);
    HeadStructural(name, rule);
    assert forall i :: 0 <= i < |head| ==> head[i] in head;
    assert Structural(head);
    assert mid[|mid| - 1] == ' ';
    hide Json.Quote, RuleHead, MethodName, IsIdent;
    PlainStretch(START, head);
    var l1 := LexAll(START, head);
    StuckRun(l1, resource, {'*'});
    AvoidsConcat(START, head, q, {'*'});
    LexConcat(START, head, q);
    var l2 := Lex('"', true);
    forall i | 0 <= i < |mid| ensures mid[i] != '"' && mid[i] != '\\' && mid[i] != '*' {
      assert i >= 4 ==> mid[i] == RuleHead(name, rule)[i - 4] && mid[i] in RuleHead(name, rule);
    }
    PlainRun(l2, mid);
    PlainAvoids(l2, mid, {'*'});
    AvoidsConcat(START, head + q, mid, {'*'});
    LexConcat(START, head + q, mid);
    var l3 := Lex(' ', true);
    QuoteTurns(START, head + q + mid, u);
    assert Before(name, resource, rule) == head + q + mid + "\"";
  }

  lemma PlainStretch(lex: Lex, t: string)
    requires Structural(t)
    ensures Avoids(lex, t, {'*'})
    ensures LexAll(lex, t).quoted == lex.quoted && (lex.prev != '\\' ==> LexAll(lex, t).prev != '\\')
  {
    forall i | 0 <= i < |t| ensures t[i] != '"' && t[i] != '\\' && t[i] != '*' { assert t[i] in t; }
    PlainRun(lex, t);
    PlainAvoids(lex, t, {'*'});
  }

  lemma QuoteTurns(lex: Lex, t: string, u: string)
    requires Avoids(lex, t, {'*'}) && LexAll(lex, t).quoted && LexAll(lex, t).prev != '\\' && Structural(u)
    ensures var a := t + "\"" + u; Avoids(lex, a, {'*'}) && !LexAll(lex, a).quoted && a != "" && a[|a| - 1] != '('
  {
    var l := LexAll(lex, t);
    assert "\""[1..] == "";
    assert LexAll(l, "\"") == Lex('"', false) && Avoids(l, "\"", {'*'});
    AvoidsConcat(lex, t, "\"", {'*'});
    LexConcat(lex, t, "\"");
    PlainStretch(Lex('"', false), u);
    AvoidsConcat(lex, t + "\"", u, {'*'});
    LexConcat(lex, t + "\"", u);
    if u != "" {
      assert u[|u| - 1] in u && (t + "\"" + u)[|t| + |u|] == u[|u| - 1];
    }
  }

  /** The comment inside the action goes, and a blank is left. */
  lemma CommentStripped(name: string, resource: string, rule: Rule, u: string, v: string, w: string)
    requires IsIdent(name) && IsIdent(MethodName(rule.id)) && rule.conditions == [] && EndsInBackslash(resource)
    requires Shown(u) && Shown(v) && Shown(w)
    ensures Strip(START, PrintDocument(OneAction(name, resource, rule, Commented(u, v, w))))
         == PrintDocument(OneAction(name, resource, rule, u + (" " + w)))
  {
    OneActionText(name, resource, rule, Commented(u, v, w));
    OneActionText(name, resource, rule, u + (" " + w));
    CommentedEscaped(u, v, w);
    Inverted(name, resource, rule, u);
    hide PrintDocument, OneAction, Before, Json.Escaped, MethodName, IsIdent, Structural;
    var front, end := Before(name, resource, rule), "\" ;\n";
    var a, rest := front + u, w + end;
    var b := "(*" + v + ("*)" + rest);
    assert front + (u + ("(*" + v + ("*)" + w)) + end) == a + b by { CommentPieces(front, u, "(*" + v, w, end); }
    assert front + (u + (" " + w) + end) == a + (" " + rest) by { BlankPieces(front, u, w, end); }
    StripFront(START, a, b);
    StripOne(LexAll(START, a), v, w);
  }

  lemma CommentPieces(front: string, u: string, x: string, w: string, end: string)
    ensures front + (u + (x + ("*)" + w)) + end) == front + u + (x + ("*)" + (w + end)))
  {
  }

  lemma BlankPieces(front: string, u: string, w: string, end: string)
    ensures front + (u + (" " + w) + end) == front + u + (" " + (w + end))
  {
  }

  lemma ShownWhole(t: string)
    requires Shown(t)
    ensures Json.Escaped(t) == t
  {
    ShownEscaped(t, "");
    assert t + "" == t;
  }

  lemma CommentedEscaped(u: string, v: string, w: string)
    requires Shown(u) && Shown(v) && Shown(w)
    ensures Json.Escaped(Commented(u, v, w)) == u + ("(*" + v + ("*)" + w))
    ensures Json.Escaped(u + (" " + w)) == u + (" " + w)
  {
    assert Shown(" ");
    hide Json.Escaped, Shown;
    ShownWhole(w);
    MarkEscaped("*)", w);
    ShownEscaped(v, "*)" + w);
    MarkEscaped("(*", v + ("*)" + w));
    Assoc("(*", v, "*)" + w);
    ShownEscaped(u, "(*" + v + ("*)" + w));
    ShownEscaped(u, " " + w);
    ShownEscaped(" ", w);
  }

  lemma MarkEscaped(mark: string, rest: string)
    requires mark == "(*" || mark == "*)"
    ensures Json.Escaped(mark + rest) == mark + Json.Escaped(rest)
  {
    var t := mark + rest;
    assert t[1..][0] == mark[1] && t[1..][1..] == rest;
    assert Json.EscapeChar('(') == "(" && Json.EscapeChar(')') == ")" && Json.EscapeChar('*') == "*";
    assert Json.Escaped(t) == [t[0]] + ([t[1]] + Json.Escaped(rest));
  }

  lemma StripOne(lex: Lex, v: string, w: string)
    requires !lex.quoted && Shown(v) && Shown(w)
    ensures var rest := w + "\" ;\n"; Strip(lex, "(*" + v + ("*)" + rest)) == " " + rest
  {
    var rest := w + "\" ;\n";
    var t := "(*" + v + ("*)" + rest);
    assert t[0] == '(' && t[1] == '*' && t[2..] == v + ("*)" + rest);
    CommentEndAt(v, rest);
    assert t[2 + (|v| + 2)..] == rest;
    forall i | 0 <= i < |rest| ensures rest[i] != '*' {
      if i < |w| { assert rest[i] == w[i] && w[i] in w; } else { assert rest[i] == "\" ;\n"[i - |w|]; }
    }
    StripClean(Lex(')', false), rest);
  }

  /**
   * Behind a resource that ends in a backslash, a comment inside an action is taken for one: the document reads back
   * without an error, as a different document.
   */
  lemma CommentLost(name: string, resource: string, rule: Rule, u: string, v: string, w: string)
    requires EndsInBackslash(resource) && NoOpening(resource) && ';' !in resource
    requires Shown(u) && Shown(v) && Shown(w)
    requires WfDocument(OneAction(name, resource, rule, "")) && rule.conditions == []
    ensures var d, other := OneAction(name, resource, rule, Commented(u, v, w)),
      OneAction(name, resource, rule, u + (" " + w));
      WfDocument(d) && d != other && Parse(PrintDocument(d)) == Ok(other)
  {
    var d, other := OneAction(name, resource, rule, Commented(u, v, w)), OneAction(name, resource, rule, u + (" " + w));
    assert WfPolicy(OneAction(name, resource, rule, "").policies[0]);
    assert WfRule(name, OneAction(name, resource, rule, "").policies[0].rules[0]);
    assert WfDocument(d) && WfDocument(other);
    assert d != other by {
      assert |d.policies[0].rules[0].actions[0]| > |other.policies[0].rules[0].actions[0]|;
    }
    hide PrintDocument, Strip, SplitStatements, ExecAll, WfDocument;
    assert IsIdent(name) && IsIdent(MethodName(rule.id));
    CommentStripped(name, resource, rule, u, v, w);
    OtherPlain(name, resource, rule, u + (" " + w));
    hide OneAction, Commented, Shown, IsIdent, MethodName, NoOpening;
    StripPrinted(other);
    ParsePrinted(other);
  }

  lemma OtherPlain(name: string, resource: string, rule: Rule, action: string)
    requires NoOpening(resource) && ';' !in resource && rule.conditions == [] && Structural(action)
    ensures var d := OneAction(name, resource, rule, action);
      Calming(d) && EveryRule(d, Readable) && DocumentStrings(d, Unseparated)
  {
    assert forall i :: 0 <= i < |action| ==> action[i] in action;
    assert NoOpening(action);
    var d := OneAction(name, resource, rule, action);
    assert PolicyStrings(d.policies[0], Uncommented) && PolicyStrings(d.policies[0], Unseparated);
  }
}
