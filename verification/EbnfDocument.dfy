/**
 * Policy documents: which are well formed, what their strings hold, and what every printed piece inherits from them.
 */
module EbnfDocument {
  import opened Text
  import Json
  import opened Scanner
  import opened Ebnf

  // ----- which documents -----

  predicate WfCondition(c: Condition) {
    match c
    case Owner(subject, resource) => IsSafePath(subject) && IsSafePath(resource)
    case HasRole(roles) => roles != []
    case HasScope(scopes) => scopes != []
    case Equals(path, value) => IsSafePath(path) && Json.Valid(value)
  }

  predicate WfRule(name: string, rule: Rule) {
    && IsIdent(MethodName(rule.id))
    && rule.id == name + "." + MethodName(rule.id)
    && rule.actions != []
    && forall i :: 0 <= i < |rule.conditions| ==> WfCondition(rule.conditions[i])
  }

  predicate DistinctIds(rules: seq<Rule>) {
    forall i, j :: 0 <= i < j < |rules| ==> rules[i].id != rules[j].id
  }

  predicate WfPolicy(p: Policy) {
    && IsIdent(p.name)
    && DistinctIds(p.rules)
    && forall i :: 0 <= i < |p.rules| ==> WfRule(p.name, p.rules[i])
  }

  predicate DistinctPolicies(policies: seq<Policy>) {
    forall i, j :: 0 <= i < j < |policies| ==>
      policies[i].name != policies[j].name && policies[i].resource != policies[j].resource
  }

  /** What the types and decorators promise of a policy document. */
  predicate WfDocument(d: Document) {
    && d.policies != []
    && DistinctPolicies(d.policies)
    && forall i :: 0 <= i < |d.policies| ==> WfPolicy(d.policies[i])
  }

  /** A condition on every string of a document; the flag marks actions. */
  type StringTest = (string, bool) -> bool

  predicate AllStrings(parts: seq<string>, action: bool, ok: StringTest) {
    forall i :: 0 <= i < |parts| ==> ok(parts[i], action)
  }

  predicate JsonStrings(v: Json.Value, ok: StringTest)
    decreases v, 1
  {
    match v
    case Str(s) => ok(s, false)
    case Array(items) => ItemStrings(items, ok)
    case Object(members) => MemberStrings(members, ok)
    case _ => true
  }

  predicate ItemStrings(items: seq<Json.Value>, ok: StringTest)
    decreases items, 0
  {
    items == [] || (JsonStrings(items[0], ok) && ItemStrings(items[1..], ok))
  }

  predicate MemberStringsOf(member: (string, Json.Value), ok: StringTest)
    decreases member, 0
  {
    ok(member.0, false) && JsonStrings(member.1, ok)
  }

  predicate MemberStrings(members: seq<(string, Json.Value)>, ok: StringTest)
    decreases members, 0
  {
    members == [] || (MemberStringsOf(members[0], ok) && MemberStrings(members[1..], ok))
  }

  predicate ConditionStrings(c: Condition, ok: StringTest) {
    match c
    case Owner(_, _) => true // a safe path holds none of the characters in question
    case HasRole(roles) => AllStrings(roles, false, ok)
    case HasScope(scopes) => AllStrings(scopes, false, ok)
    case Equals(_, value) => JsonStrings(value, ok)
  }

  predicate RuleStrings(rule: Rule, ok: StringTest) {
    AllStrings(rule.actions, true, ok) &&
    forall i :: 0 <= i < |rule.conditions| ==> ConditionStrings(rule.conditions[i], ok)
  }

  predicate PolicyStrings(p: Policy, ok: StringTest) {
    ok(p.resource, false) && forall i :: 0 <= i < |p.rules| ==> RuleStrings(p.rules[i], ok)
  }

  predicate DocumentStrings(d: Document, ok: StringTest) {
    forall i :: 0 <= i < |d.policies| ==> PolicyStrings(d.policies[i], ok)
  }

  /** No string ends in a backslash, which the scanners take for an escaped quote. */
  predicate Closes(s: string, action: bool) { !EndsInBackslash(s) }

  /** No string holds the statement separator, and no action the separator of actions. */
  predicate Unseparated(s: string, action: bool) { ';' !in s && (action ==> '|' !in s) }

  /** No `(*`, the mark that opens a comment. */
  predicate NoOpening(t: string) {
    forall i :: 0 < i < |t| ==> !(t[i] == '*' && t[i - 1] == '(')
  }

  /** No string holds the mark of a comment. */
  predicate Uncommented(s: string, action: bool) { NoOpening(s) }

  // ----- the characters of names, paths and quoted strings -----

  lemma IdentChars(name: string)
    requires IsIdent(name)
    ensures forall i :: 0 <= i < |name| ==>
      IsIdentPart(name[i]) && !IsSpace(name[i]) && name[i] !in {'"', '\\', '*', ';', '.', '='}
  {
    forall i | 0 <= i < |name| ensures IsIdentPart(name[i]) { assert name[i] in name; }
  }

  lemma QuoteShape(s: string)
    ensures var q := Json.Quote(s); |q| > 1 && q[0] == '"' && q[|q| - 1] == '"' && Trimmed(q)
  {
  }

  /** The characters that separate statements and actions are never part of an escape. */
  lemma {:induction false} QuoteKeeps(s: string, c: char)
    requires c == ';' || c == '|'
    ensures c in Json.Quote(s) <==> c in s
  {
    EscapedKeeps(s, c);
  }

  lemma {:induction false} EscapedKeeps(s: string, c: char)
    requires c == ';' || c == '|'
    ensures c in Json.Escaped(s) <==> c in s
  {
    if s != "" {
      EscapedKeeps(s[1..], c);
      EscapeCharKeeps(s[0], c);
      assert s == [s[0]] + s[1..];
    }
  }

  lemma EscapeCharKeeps(x: char, c: char)
    requires c == ';' || c == '|'
    ensures c in Json.EscapeChar(x) <==> c == x
  {
    if Json.ShortEscape(x).None? && x as int < 32 {
      assert Json.HexDigit(x as nat / 16) != c && Json.HexDigit(x as nat % 16) != c;
    }
  }
  lemma {:induction false} PathTailChars(t: string, i: nat)
    requires IsPathTail(t) && i < |t|
    ensures IsPathPart(t[i]) || t[i] == '.'
    decreases |t|
  {
    var n := 2 + Span(t[2..], IsPathPart);
    if i >= n {
      assert t[n..][i - n] == t[i];
      PathTailChars(t[n..], i - n);
    } else if i >= 2 {
      assert t[2..][i - 2] == t[i];
    }
  }

  /** Safe paths hold none of the characters the scanners react to. */
  lemma SafePathChars(path: string)
    requires IsSafePath(path)
    ensures Closes(path, false) && Unseparated(path, false) && Uncommented(path, false)
  {
    if "subject" <= path && path[7..] != "" && IsPathTail(path[7..]) {
      PathChars("subject", path[7..]);
      assert path == "subject" + path[7..];
    } else {
      PathChars("resource", path[8..]);
      assert path == "resource" + path[8..];
    }
  }

  lemma PathChars(root: string, t: string)
    requires (root == "subject" || root == "resource") && IsPathTail(t)
    ensures ';' !in root + t && '*' !in root + t && !EndsInBackslash(root + t)
  {
    forall i | 0 <= i < |t| ensures t[i] !in {'\\', ';', '*'} { PathTailChars(t, i); }
    hide IsPathTail;
    assert ';' !in root && ';' !in t && '*' !in root && '*' !in t;
  }
  // ----- text that leaves the quote state as it found it -----

  ghost predicate Balanced(t: string, bad: set<char>) {
    forall lex: Lex :: !lex.quoted && lex.prev != '\\' ==>
      Avoids(lex, t, bad) && !LexAll(lex, t).quoted && LexAll(lex, t).prev != '\\'
  }

  lemma BalancedConcat(a: string, b: string, bad: set<char>)
    requires Balanced(a, bad) && Balanced(b, bad)
    ensures Balanced(a + b, bad)
  {
    forall lex: Lex | !lex.quoted && lex.prev != '\\'
      ensures Avoids(lex, a + b, bad) && !LexAll(lex, a + b).quoted && LexAll(lex, a + b).prev != '\\'
    {
      LexConcat(lex, a, b);
      AvoidsConcat(lex, a, b, bad);
    }
  }

  lemma BalancedPlain(t: string, bad: set<char>)
    requires forall i :: 0 <= i < |t| ==> t[i] != '"' && t[i] != '\\' && t[i] !in bad
    ensures Balanced(t, bad)
  {
    forall lex: Lex | !lex.quoted && lex.prev != '\\'
      ensures Avoids(lex, t, bad) && !LexAll(lex, t).quoted && LexAll(lex, t).prev != '\\'
    {
      PlainRun(lex, t);
      PlainAvoids(lex, t, bad);
    }
  }

  lemma BalancedQuote(s: string, bad: set<char>)
    requires Closes(s, false) && '"' !in bad
    ensures Balanced(Json.Quote(s), bad)
  {
    forall lex: Lex | !lex.quoted && lex.prev != '\\'
      ensures Avoids(lex, Json.Quote(s), bad) && LexAll(lex, Json.Quote(s)) == Lex('"', false)
    {
      QuoteRun(lex, s, bad);
    }
  }

  // ----- what every printed piece inherits -----

  /** Text without quotes, backslashes or the marks that the scanners react to. */
  predicate Structural(t: string) {
    forall c <- t :: c !in {'"', '\\', '*', '?', ';', '|', '(', ')'}
  }

  lemma IdentStructural(name: string)
    requires IsIdent(name)
    ensures Structural(name)
  {
  }

  /** `good` is passed on from the quoted strings that `ok` admits to everything printed around them. */
  ghost predicate Carries(ok: StringTest, good: string -> bool) {
    && (forall a, b {:trigger good(a + b)} :: good(a) && good(b) ==> good(a + b))
    && (forall t {:trigger good(t)} :: Structural(t) ==> good(t))
    && (forall s, action {:trigger ok(s, action)} :: ok(s, action) ==> good(Json.Quote(s)))
    && (forall path {:trigger IsSafePath(path)} :: IsSafePath(path) ==> good(Json.Quote(path)))
  }

  lemma Both(a: string, b: string, ok: StringTest, good: string -> bool)
    requires Carries(ok, good) && good(a) && good(b)
    ensures good(a + b)
  {
  }

  lemma Three(a: string, b: string, c: string, ok: StringTest, good: string -> bool)
    requires Carries(ok, good) && good(a) && good(b) && good(c)
    ensures good(a + b + c)
  {
    hide Carries;
    Both(a, b, ok, good);
    Both(a + b, c, ok, good);
  }

  lemma Plain(t: string, ok: StringTest, good: string -> bool)
    requires Carries(ok, good) && Structural(t)
    ensures good(t)
  {
  }

  lemma Quoted(s: string, action: bool, ok: StringTest, good: string -> bool)
    requires Carries(ok, good) && ok(s, action)
    ensures good(Json.Quote(s))
  {
    hide Json.Quote;
  }

  lemma QuotedPath(path: string, ok: StringTest, good: string -> bool)
    requires Carries(ok, good) && IsSafePath(path)
    ensures good(Json.Quote(path))
  {
    hide Json.Quote;
  }

  lemma {:induction false} GoodJoin(parts: seq<string>, sep: string, ok: StringTest, good: string -> bool)
    requires Carries(ok, good) && good(sep) && forall i :: 0 <= i < |parts| ==> good(parts[i])
    ensures good(Join(parts, sep))
  {
    hide Carries;
    if |parts| == 0 {
      Plain("", ok, good);
    } else if |parts| > 1 {
      GoodJoin(parts[1..], sep, ok, good);
      Three(parts[0], sep, Join(parts[1..], sep), ok, good);
    }
  }

  lemma {:induction false} GoodQuotes(parts: seq<string>, action: bool, ok: StringTest, good: string -> bool)
    requires Carries(ok, good) && AllStrings(parts, action, ok)
    ensures forall i :: 0 <= i < |parts| ==> good(Quotes(parts)[i])
  {
    hide Carries, Json.Quote;
    if parts != [] {
      assert ok(parts[0], action);
      Quoted(parts[0], action, ok, good);
      forall i | 0 <= i < |parts[1..]| ensures ok(parts[1..][i], action) { assert ok(parts[i + 1], action); }
      GoodQuotes(parts[1..], action, ok, good);
    }
  }

  lemma GoodList(parts: seq<string>, action: bool, sep: string, ok: StringTest, good: string -> bool)
    requires Carries(ok, good) && AllStrings(parts, action, ok) && good(sep)
    ensures good(Join(Quotes(parts), sep))
  {
    hide Carries;
    GoodQuotes(parts, action, ok, good);
    GoodJoin(Quotes(parts), sep, ok, good);
  }

  lemma {:induction false} GoodJson(v: Json.Value, ok: StringTest, good: string -> bool)
    requires Carries(ok, good) && Json.Valid(v) && JsonStrings(v, ok)
    ensures good(Json.Print(v))
    decreases v, 1
  {
    hide Carries, Json.Quote;
    match v
    case Null => Plain("null", ok, good);
    case Bool(b) => Plain(if b then "true" else "false", ok, good);
    case Number(lexeme) => GoodNumber(lexeme, ok, good);
    case Str(s) => Quoted(s, false, ok, good);
    case Array(items) =>
      GoodItems(items, ok, good);
      Brackets(ok, good);
      Three("[", Json.PrintItems(items), "]", ok, good);
    case Object(members) =>
      GoodMembers(members, ok, good);
      Brackets(ok, good);
      Three("{", Json.PrintMembers(members), "}", ok, good);
  }

  lemma GoodNumber(lexeme: string, ok: StringTest, good: string -> bool)
    requires Carries(ok, good) && Json.IsNumber(lexeme)
    ensures good(lexeme)
  {
    hide Carries;
    assert forall c <- lexeme :: Json.IsNumberChar(c);
    Plain(lexeme, ok, good);
  }

  lemma Brackets(ok: StringTest, good: string -> bool)
    requires Carries(ok, good)
    ensures good("") && good(",") && good(":") && good("[") && good("]") && good("{") && good("}")
  {
    hide Carries;
    Plain("", ok, good);
    Plain(",", ok, good);
    Plain(":", ok, good);
    Plain("[", ok, good);
    Plain("]", ok, good);
    Plain("{", ok, good);
    Plain("}", ok, good);
  }

  lemma {:induction false} GoodItems(items: seq<Json.Value>, ok: StringTest, good: string -> bool)
    requires Carries(ok, good) && Json.ValidItems(items) && ItemStrings(items, ok)
    ensures good(Json.PrintItems(items))
    decreases items, 0
  {
    hide Carries;
    Brackets(ok, good);
    if items != [] {
      GoodJson(items[0], ok, good);
      if |items| > 1 {
        GoodItems(items[1..], ok, good);
        Three(Json.Print(items[0]), ",", Json.PrintItems(items[1..]), ok, good);
      }
    }
  }

  lemma {:induction false} GoodMember(member: (string, Json.Value), ok: StringTest, good: string -> bool)
    requires Carries(ok, good) && Json.ValidMember(member) && MemberStringsOf(member, ok)
    ensures good(Json.PrintMember(member))
    decreases member, 0
  {
    hide Carries, Json.Quote;
    Brackets(ok, good);
    Quoted(member.0, false, ok, good);
    GoodJson(member.1, ok, good);
    Three(Json.Quote(member.0), ":", Json.Print(member.1), ok, good);
  }

  lemma {:induction false} GoodMembers(members: seq<(string, Json.Value)>, ok: StringTest, good: string -> bool)
    requires Carries(ok, good) && Json.ValidMembers(members) && MemberStrings(members, ok)
    ensures good(Json.PrintMembers(members))
    decreases members, 0
  {
    hide Carries;
    Brackets(ok, good);
    if members != [] {
      GoodMember(members[0], ok, good);
      if |members| > 1 {
        GoodMembers(members[1..], ok, good);
        Three(Json.PrintMember(members[0]), ",", Json.PrintMembers(members[1..]), ok, good);
      }
    }
  }

  lemma GoodBody(c: Condition, ok: StringTest, good: string -> bool)
    requires Carries(ok, good) && WfCondition(c) && ConditionStrings(c, ok)
    ensures good(ConditionBody(c))
  {
    hide Carries, Json.Quote, Json.Print, Join, Quotes, IsSafePath, Json.Valid, JsonStrings;
    Plain(" ", ok, good);
    match c
    case Owner(subject, resource) =>
      Plain("owner ", ok, good);
      QuotedPath(subject, ok, good);
      QuotedPath(resource, ok, good);
      Three("owner ", Json.Quote(subject), " ", ok, good);
      Both("owner " + Json.Quote(subject) + " ", Json.Quote(resource), ok, good);
    case HasRole(roles) =>
      Plain("has-role ", ok, good);
      GoodList(roles, false, " ", ok, good);
      Both("has-role ", Join(Quotes(roles), " "), ok, good);
    case HasScope(scopes) =>
      Plain("has-scope ", ok, good);
      GoodList(scopes, false, " ", ok, good);
      Both("has-scope ", Join(Quotes(scopes), " "), ok, good);
    case Equals(path, value) =>
      Plain("equals ", ok, good);
      QuotedPath(path, ok, good);
      GoodJson(value, ok, good);
      Three("equals ", Json.Quote(path), " ", ok, good);
      Both("equals " + Json.Quote(path) + " ", Json.Print(value), ok, good);
  }

  /** The marks a right-hand side has outside its strings. */
  ghost predicate Marked(good: string -> bool) {
    good("? ") && good(" ?") && good("(") && good(")") && good(" | ")
  }

  lemma {:induction false} GoodConditions(cs: seq<Condition>, ok: StringTest, good: string -> bool)
    requires Carries(ok, good) && Marked(good)
    requires forall i :: 0 <= i < |cs| ==> WfCondition(cs[i]) && ConditionStrings(cs[i], ok)
    ensures forall i :: 0 <= i < |cs| ==> good(PrintConditions(cs)[i])
  {
    hide Carries, ConditionBody, WfCondition, ConditionStrings;
    if cs != [] {
      GoodBody(cs[0], ok, good);
      Three("? ", ConditionBody(cs[0]), " ?", ok, good);
      GoodConditions(cs[1..], ok, good);
    }
  }

  lemma GoodActions(actions: seq<string>, ok: StringTest, good: string -> bool)
    requires Carries(ok, good) && Marked(good) && AllStrings(actions, true, ok)
    ensures good(PrintActions(actions))
  {
    hide Carries, Json.Quote, Quotes, Join;
    if |actions| == 1 {
      assert ok(actions[0], true);
      Quoted(actions[0], true, ok, good);
    } else {
      GoodList(actions, true, " | ", ok, good);
      Three("(", Join(Quotes(actions), " | "), ")", ok, good);
    }
  }

  function RhsFields(rule: Rule): seq<string> {
    [PrintActions(rule.actions)] + PrintConditions(rule.conditions)
  }

  lemma GoodRhs(name: string, rule: Rule, ok: StringTest, good: string -> bool)
    requires Carries(ok, good) && Marked(good) && WfRule(name, rule) && RuleStrings(rule, ok)
    ensures good(PrintRhs(rule))
  {
    hide Carries, PrintActions, WfCondition, ConditionStrings, IsIdent, MethodName, Marked, Join;
    GoodActions(rule.actions, ok, good);
    GoodConditions(rule.conditions, ok, good);
    hide PrintConditions;
    var fs := RhsFields(rule);
    forall i | 0 <= i < |fs| ensures good(fs[i]) {
      assert i > 0 ==> fs[i] == PrintConditions(rule.conditions)[i - 1];
    }
    Plain(",\n  ", ok, good);
    GoodJoin(fs, ",\n  ", ok, good);
  }

  /** The part of a rule statement before its right-hand side. */
  function RuleHead(name: string, rule: Rule): string {
    EffectName(rule.effect) + " " + (name + " " + MethodName(rule.id) + " =\n  ")
  }

  lemma RuleStatementText(name: string, rule: Rule)
    ensures RuleStatement(name, rule) == RuleHead(name, rule) + PrintRhs(rule)
  {
    hide MethodName, PrintRhs;
    var word, m, rhs := EffectName(rule.effect), MethodName(rule.id), PrintRhs(rule);
    Assoc(word, " ", name + " " + m + " =\n  ");
    assert word + " " + name + " " + m + " =\n  " == word + " " + (name + " " + m + " =\n  ");
  }

  lemma HeadStructural(name: string, rule: Rule)
    requires IsIdent(name) && IsIdent(MethodName(rule.id))
    ensures Structural(RuleHead(name, rule))
  {
    var m := MethodName(rule.id);
    hide MethodName, IsIdent;
    IdentStructural(name);
    IdentStructural(m);
    assert Structural(name + " " + m + " =\n  ");
    assert Structural(EffectName(rule.effect));
  }

  lemma GoodRule(name: string, rule: Rule, ok: StringTest, good: string -> bool)
    requires Carries(ok, good) && Marked(good) && IsIdent(name) && WfRule(name, rule) && RuleStrings(rule, ok)
    ensures good(RuleStatement(name, rule))
  {
    RuleStatementText(name, rule);
    assert IsIdent(MethodName(rule.id));
    hide Carries, Marked, PrintRhs, RuleStrings, MethodName, RuleStatement, IsIdent, RuleHead;
    HeadStructural(name, rule);
    Plain(RuleHead(name, rule), ok, good);
    GoodRhs(name, rule, ok, good);
    Both(RuleHead(name, rule), PrintRhs(rule), ok, good);
  }

  lemma GoodPolicy(p: Policy, ok: StringTest, good: string -> bool)
    requires Carries(ok, good) && IsIdent(p.name) && ok(p.resource, false)
    ensures good(PolicyStatement(p))
  {
    hide Carries, Json.Quote, IsIdent;
    IdentStructural(p.name);
    var head := "policy " + p.name + " = ";
    assert Structural(head);
    Plain(head, ok, good);
    Quoted(p.resource, false, ok, good);
    Both(head, Json.Quote(p.resource), ok, good);
  }

  // ----- three things that are inherited -----

  /** Marks the scanners count outside strings, as far as printed conditions avoid them there. */
  predicate JsonSafe(bad: set<char>) {
    bad <= {'*', '?', ';', '|', '(', ')'}
  }

  ghost function BalancedIn(bad: set<char>): string -> bool { (t: string) => Balanced(t, bad) }

  lemma CarriesBalanced(bad: set<char>)
    requires JsonSafe(bad)
    ensures Carries(Closes, BalancedIn(bad))
  {
    forall a: string, b: string | Balanced(a, bad) && Balanced(b, bad) ensures Balanced(a + b, bad) {
      BalancedConcat(a, b, bad);
    }
    forall t: string | Structural(t) ensures Balanced(t, bad) {
      forall i | 0 <= i < |t| ensures t[i] != '"' && t[i] != '\\' && t[i] !in bad { assert t[i] in t; }
      BalancedPlain(t, bad);
    }
    forall s: string, action: bool | Closes(s, action) ensures Balanced(Json.Quote(s), bad) {
      BalancedQuote(s, bad);
    }
    forall path: string | IsSafePath(path) ensures Balanced(Json.Quote(path), bad) {
      SafePathChars(path);
      BalancedQuote(path, bad);
    }
    hide Balanced, Json.Quote, Closes, IsSafePath, Structural;
  }

  function Lacks(c: char): string -> bool { (t: string) => c !in t }

  lemma CarriesLacks()
    ensures Carries(Unseparated, Lacks(';'))
  {
    forall s: string, action: bool | Unseparated(s, action) ensures ';' !in Json.Quote(s) {
      QuoteKeeps(s, ';');
    }
    forall path: string | IsSafePath(path) ensures ';' !in Json.Quote(path) {
      SafePathChars(path);
      QuoteKeeps(path, ';');
    }
    hide Json.Quote, Unseparated, IsSafePath;
  }

  /** No comment opens in the text, nor where it is joined to text before it. */
  predicate Clean(t: string) { NoOpening(t) && (t == "" || t[0] != '*') }

  lemma EscapeCharOpening(c: char)
    ensures var e := Json.EscapeChar(c);
      (forall i :: 0 <= i < |e| && e[i] == '*' ==> i == 0 && c == '*') && (e[0] == '*' <==> c == '*') &&
        (e[|e| - 1] == '(' ==> c == '(')
  {
    if Json.ShortEscape(c).None? && c as int < 32 {
      assert Json.HexDigit(c as nat / 16) !in {'*', '('} && Json.HexDigit(c as nat % 16) !in {'*', '('};
    }
  }

  lemma {:induction false} EscapedOpening(s: string)
    requires NoOpening(s)
    ensures var t := Json.Escaped(s); NoOpening(t) && (t != "" ==> s != "" && (t[0] == '*' <==> s[0] == '*'))
  {
    if s != "" {
      var e, more := Json.EscapeChar(s[0]), Json.Escaped(s[1..]);
      EscapeCharOpening(s[0]);
      assert NoOpening(s[1..]) by {
        forall i | 0 < i < |s[1..]|
          ensures !(s[1..][i] == '*' && s[1..][i - 1] == '(')
        {
          assert s[1..][i] == s[i + 1];
        }
      }
      EscapedOpening(s[1..]);
      assert more != "" && more[0] == '*' ==> s[1] == '*';
      hide Json.EscapeChar;
      OpeningConcat(e, more);
    }
  }

  lemma OpeningConcat(a: string, b: string)
    requires NoOpening(a) && NoOpening(b) && (a == "" || b == "" || a[|a| - 1] != '(' || b[0] != '*')
    ensures NoOpening(a + b)
  {
    var t := a + b;
    forall i | 0 < i < |t| ensures !(t[i] == '*' && t[i - 1] == '(') {
      if i > |a| {
        assert t[i] == b[i - |a|] && t[i - 1] == b[i - |a| - 1];
      }
    }
  }

  lemma CleanQuote(s: string)
    requires NoOpening(s)
    ensures Clean(Json.Quote(s))
  {
    EscapedOpening(s);
    OpeningConcat("\"", Json.Escaped(s));
    OpeningConcat("\"" + Json.Escaped(s), "\"");
  }

  lemma CarriesClean()
    ensures Carries(Uncommented, Clean)
  {
    forall a: string, b: string | Clean(a) && Clean(b) ensures Clean(a + b) {
      OpeningConcat(a, b);
    }
    forall t: string | Structural(t) ensures Clean(t) {
      forall i | 0 <= i < |t| ensures t[i] != '*' { assert t[i] in t; }
    }
    forall s: string, action: bool | Uncommented(s, action) ensures Clean(Json.Quote(s)) {
      CleanQuote(s);
    }
    forall path: string | IsSafePath(path) ensures Clean(Json.Quote(path)) {
      SafePathChars(path);
      CleanQuote(path);
    }
    hide Clean, Json.Quote, Uncommented, IsSafePath, Structural;
  }
}
