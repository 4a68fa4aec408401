/** What the policy parser accepts: the texts of each production, and only well-formed documents. */
module EbnfSound {
  import opened Text
  import Json
  import opened Scanner
  import opened Ebnf
  import opened EbnfDocument
  import opened EbnfRoundTrip

  // ----- safe paths -----

  predicate PathStart(c: char) { 'A' <= c <= 'Z' || 'a' <= c <= 'z' || c == '_' || c == '$' }

  /** A part of a path: a letter, `_` or `$`, then any of these and digits. */
  predicate PathPart(part: string) {
    part != "" && PathStart(part[0]) && forall c <- part :: PathStart(c) || '0' <= c <= '9'
  }

  predicate PathParts(parts: seq<string>) { forall i :: 0 <= i < |parts| ==> PathPart(parts[i]) }

  predicate NotDot(c: char) { c != '.' }

  /** The first piece of a split, and the rest of it. */
  lemma {:induction false} SplitAtDot(t: string)
    ensures var n := Span(t, NotDot);
      Split(t, '.') == if n == |t| then [t] else [t[..n]] + Split(t[n + 1..], '.')
  {
    if t != "" && t[0] != '.' {
      var u := t[1..];
      SplitAtDot(u);
      var n := Span(u, NotDot);
      assert t == [t[0]] + u && t[..n + 1] == [t[0]] + u[..n];
      if n < |u| {
        assert u[n + 1..] == t[n + 2..];
        assert Split(u, '.')[0] == u[..n] && Split(u, '.')[1..] == Split(u[n + 1..], '.');
      }
    } else if t != "" {
      assert t[..0] == "";
    }
  }

  lemma SpanParts(t: string, n: nat)
    requires n <= |t| && PathPart(t[..n]) && (n < |t| ==> t[n] == '.')
    ensures Span(t, NotDot) == n && n > 0 && IsPathStart(t[0]) && Span(t[1..], IsPathPart) == n - 1
  {
    var part := t[..n];
    forall i | 0 <= i < n ensures NotDot(t[i]) && IsPathPart(t[i]) { assert part[i] in part && part[i] == t[i]; }
    SpanIs(t, n, NotDot);
    assert t[0] == part[0];
    SpanIs(t[1..], n - 1, IsPathPart);
  }

  lemma {:induction false} SpanIs(t: string, n: nat, p: char -> bool)
    requires n <= |t| && (forall i :: 0 <= i < n ==> p(t[i])) && (n < |t| ==> !p(t[n]))
    ensures Span(t, p) == n
  {
    if n > 0 {
      SpanIs(t[1..], n - 1, p);
    }
  }

  /** The tail of a safe path is a dot before each of its parts. */
  lemma {:induction false} TailExactly(t: string)
    ensures IsPathTail(t) <==> t == "" || (t[0] == '.' && PathParts(Split(t[1..], '.')))
    decreases |t|
  {
    hide PathPart, Split;
    if t != "" && t[0] == '.' {
      var u := t[1..];
      SplitAtDot(u);
      var n := Span(u, NotDot);
      if IsPathTail(t) {
        var m := 1 + Span(t[2..], IsPathPart);
        var rest := t[m + 1..];
        assert t[2 + Span(t[2..], IsPathPart)..] == rest;
        TailExactly(rest);
        PartOf(u, m);
        SpanParts(u, m);
        assert rest != "" ==> u[m] == rest[0];
        assert n == m;
        assert m < |u| ==> rest[1..] == u[m + 1..];
        assert rest == "" ==> u[..n] == u;
      }
      if PathParts(Split(u, '.')) {
        assert u[..n] == Split(u, '.')[0];
        SpanParts(u, n);
        assert u[1..] == t[2..];
        var rest := t[n + 1..];
        TailExactly(rest);
        if n < |u| {
          assert rest[0] == u[n] && rest[1..] == u[n + 1..];
          assert Split(u, '.')[1..] == Split(u[n + 1..], '.');
          assert forall i :: 0 <= i < |Split(u, '.')[1..]| ==> Split(u, '.')[1..][i] == Split(u, '.')[i + 1];
        }
        assert t[1] == u[0] && t[2 + Span(t[2..], IsPathPart)..] == rest;
      }
    }
  }

  /** A dotted prefix of path characters that starts right is a part. */
  lemma PartOf(u: string, m: nat)
    requires 0 < m <= |u| && IsPathStart(u[0]) && m == 1 + Span(u[1..], IsPathPart)
    ensures PathPart(u[..m])
    ensures m < |u| ==> !IsPathPart(u[m])
  {
    forall c | c in u[..m] ensures PathStart(c) || '0' <= c <= '9' {
      var i :| 0 <= i < m && u[i] == c;
      if i > 0 {
        assert u[1..][i - 1] == c;
      }
    }
    assert m < |u| ==> u[1..][m - 1] == u[m];
  }

  /** `subject` or `resource`, and then at least one part. */
  lemma SafePathExactly(path: string)
    ensures IsSafePath(path) <==>
      var parts := Split(path, '.');
      |parts| > 1 && parts[0] in {"subject", "resource"} && PathParts(parts[1..])
  {
    hide IsPathTail, Split, PathParts;
    RootExactly("subject", path);
    RootExactly("resource", path);
  }

  lemma RootExactly(root: string, path: string)
    requires root == "subject" || root == "resource"
    ensures root <= path && path[|root|..] != "" && IsPathTail(path[|root|..]) <==>
      var parts := Split(path, '.');
      |parts| > 1 && parts[0] == root && PathParts(parts[1..])
  {
    hide IsPathTail, Split, PathParts;
    SplitAtDot(path);
    var n := Span(path, NotDot);
    assert '.' !in root;
    if root <= path {
      var t := path[|root|..];
      TailExactly(t);
      assert path == root + t;
      if t != "" && t[0] == '.' {
        SpanAppend(root, t, NotDot);
        assert path[n + 1..] == t[1..] && path[..n] == root;
        assert Split(path, '.')[1..] == Split(t[1..], '.');
      }
    }
    if |Split(path, '.')| > 1 && Split(path, '.')[0] == root {
      assert path[..n] == root && path[n] == '.';
      assert Split(path, '.')[1..] == Split(path[n + 1..], '.');
      assert path[|root|..][1..] == path[n + 1..];
    }
  }

  // ----- only well-formed documents -----

  /** A letter or `_`, then letters, digits and `_`. */
  predicate Name(s: string) {
    && s != "" && !('0' <= s[0] <= '9')
    && forall c <- s :: 'A' <= c <= 'Z' || 'a' <= c <= 'z' || '0' <= c <= '9' || c == '_'
  }

  lemma TakenIdent(t: string)
    ensures TakeIdent(t).Some? ==> IsIdent(TakeIdent(t).value.0) && t == TakeIdent(t).value.0 + TakeIdent(t).value.1
  {
    if TakeIdent(t).Some? {
      var n := Span(t, IsIdentPart);
      assert IsIdentPart(t[0]);
      assert n > 0;
      forall c | c in t[..n] ensures IsIdentPart(c) {
        var i :| 0 <= i < n && t[i] == c;
      }
    }
  }

  lemma PolicyHeaderName(t: string)
    ensures PolicyHeader(t).Some? ==> IsIdent(PolicyHeader(t).value.0)
  {
    hide TakeIdent, AfterWord, AfterEquals, LiteralLength;
    match AfterWord(t, "policy")
    case None =>
    case Some(u) => TakenIdent(u);
  }

  lemma HeaderRestNames(effect: Effect, t: string)
    ensures HeaderRest(effect, t).Some? ==>
      IsIdent(HeaderRest(effect, t).value.policy) && IsIdent(HeaderRest(effect, t).value.verb)
  {
    hide TakeIdent, AfterEquals, TrimStart;
    TakenIdent(t);
    match TakeIdent(t)
    case None =>
    case Some((policy, u)) => TakenIdent(TrimStart(u));
  }

  lemma RuleHeaderNames(t: string)
    ensures RuleHeader(t).Some? ==> IsIdent(RuleHeader(t).value.policy) && IsIdent(RuleHeader(t).value.verb)
  {
    hide HeaderRest, AfterWord;
    match AfterWord(t, "allow")
    case Some(u) => HeaderRestNames(Allow, u);
    case None =>
      match AfterWord(t, "deny")
      case Some(u) => HeaderRestNames(Deny, u);
      case None =>
  }

  lemma {:induction false} StringsCount(raws: seq<string>)
    ensures ParseStrings(raws).Ok? ==> |ParseStrings(raws).value| == |raws|
  {
    hide ParseString;
    if raws != [] {
      StringsCount(raws[1..]);
    }
  }

  lemma PathSafe(raw: string)
    ensures ParsePath(raw).Ok? ==> IsSafePath(ParsePath(raw).value)
  {
    hide ParseString, IsSafePath;
  }

  lemma EqualsSound(text: string)
    ensures ParseEquals(text).Ok? ==> WfCondition(ParseEquals(text).value)
  {
    hide LiteralLength, ParsePath, Json.Parse, Json.Valid, IsSafePath;
    match LiteralLength(text)
    case None =>
    case Some(n) =>
      PathSafe(text[..n]);
      JsonSound(TrimStart(text[n..]));
  }

  lemma JsonSound(text: string)
    ensures Json.Parse(text).Some? ==> Json.Valid(Json.Parse(text).value)
  {
    hide Json.ParseValue, Json.Valid, Json.SkipWs;
    Json.ReadValid(text);
  }

  lemma BodySound(body: string)
    ensures ParseBody(body).Ok? ==> WfCondition(ParseBody(body).value)
  {
    hide Tokens, ParseStrings, ParseEquals, ParsePath, IsSafePath, Trim, Json.Valid;
    var parts := Tokens(body);
    if parts != [] {
      StringsCount(parts[1..]);
      EqualsSound(Trim(if |body| < 6 then "" else body[6..]));
      if |parts| == 3 {
        PathSafe(parts[1]);
        PathSafe(parts[2]);
      }
    }
  }

  lemma {:induction false} ConditionsSound(raws: seq<string>)
    ensures match ParseConditions(raws)
      case Err(_) => true
      case Ok(cs) => forall i :: 0 <= i < |cs| ==> WfCondition(cs[i])
  {
    hide ParseCondition, WfCondition;
    if raws != [] {
      ConditionSound(raws[0]);
      ConditionsSound(raws[1..]);
      if ParseConditions(raws).Ok? {
        assert ParseConditions(raws).value == [ParseCondition(raws[0]).value] + ParseConditions(raws[1..]).value;
      }
    }
  }

  lemma ConditionSound(raw: string)
    ensures ParseCondition(raw).Ok? ==> WfCondition(ParseCondition(raw).value)
  {
    hide ParseBody, WfCondition, Trim, Inside;
    BodySound(Trim(Inside(raw)));
  }

  lemma RuleSound(h: Header)
    requires IsIdent(h.policy) && IsIdent(h.verb)
    ensures ParseRule(h).Ok? ==>
      WfRule(h.policy, ParseRule(h).value) && ParseRule(h).value.id == h.policy + "." + h.verb
  {
    hide Fields, ParseActions, ParseConditions, WfCondition, TrimAll, MethodName, IsIdent;
    var fields := TrimAll(Fields(TOP, h.rhs));
    TrimAllCount(Fields(TOP, h.rhs));
    ActionsSome(fields[0]);
    ConditionsSound(fields[1..]);
    MethodOf(h.policy, h.verb);
    if ParseRule(h).Ok? {
      var rule := ParseRule(h).value;
      assert rule.id == h.policy + "." + h.verb;
      assert MethodName(rule.id) == h.verb;
      assert rule.actions != [];
      assert ParseConditions(fields[1..]) == Ok(rule.conditions);
    }
  }

  lemma ActionsSome(raw: string)
    ensures ParseActions(raw).Ok? ==> ParseActions(raw).value != []
  {
    hide ParseStrings, ActionBody, TrimAll;
    TrimAllCount(Split(ActionBody(raw), '|'));
    StringsCount(TrimAll(Split(ActionBody(raw), '|')));
  }

  lemma MethodOf(policy: string, verb: string)
    requires IsIdent(policy)
    ensures MethodName(policy + "." + verb) == verb
  {
    IdName(policy, verb);
    assert (policy + "." + verb)[|policy| + 1..] == verb;
  }

  lemma {:induction false} TrimAllCount(pieces: seq<string>)
    ensures |TrimAll(pieces)| == |pieces|
  {
    if pieces != [] {
      TrimAllCount(pieces[1..]);
    }
  }

  /** What the statements read so far have made: a document but for being empty, with all its ids remembered. */
  ghost predicate Sound(st: State) {
    && DistinctPolicies(st.policies)
    && (forall i :: 0 <= i < |st.policies| ==> WfPolicy(st.policies[i]))
    && forall i, r :: 0 <= i < |st.policies| && r in st.policies[i].rules ==> r.id in st.ids
  }

  lemma AddPolicySound(st: State, name: string, literal: string)
    requires Sound(st) && IsIdent(name)
    ensures AddPolicy(st, name, literal).Ok? ==> Sound(AddPolicy(st, name, literal).value)
  {
    hide ParseString, IsIdent, WfRule;
    if AddPolicy(st, name, literal).Ok? {
      var p := Policy(name, ParseString(literal).value, []);
      var more := st.policies + [p];
      assert forall i :: 0 <= i < |st.policies| ==> more[i] == st.policies[i] && st.policies[i] in st.policies;
      assert more[|st.policies|] == p && WfPolicy(p);
    }
  }

  lemma {:induction false} AddRuleSound(st: State, h: Header)
    requires Sound(st) && IsIdent(h.policy) && IsIdent(h.verb)
    ensures AddRule(st, h).Ok? ==> Sound(AddRule(st, h).value)
  {
    hide ParseRule, Fields, TrimAll, IsIdent, WfRule;
    RuleSound(h);
    if AddRule(st, h).Ok? {
      var k, rule := Lookup(st.policies, h.policy).value, ParseRule(h).value;
      hide Lookup;
      var owner := st.policies[k];
      var rules := owner.rules + [rule];
      assert WfPolicy(owner);
      assert rule.id !in st.ids;
      RuleAdded(owner, rule, st.ids);
      SoundReplaced(st, k, owner.(rules := rules), rule.id);
    }
  }

  lemma RuleAdded(owner: Policy, rule: Rule, ids: set<string>)
    requires WfPolicy(owner) && WfRule(owner.name, rule) && rule.id !in ids
    requires forall r :: r in owner.rules ==> r.id in ids
    ensures WfPolicy(owner.(rules := owner.rules + [rule]))
  {
    hide WfRule, IsIdent;
    var rules := owner.rules + [rule];
    assert forall i :: 0 <= i < |owner.rules| ==> rules[i] == owner.rules[i] && owner.rules[i] in owner.rules;
    assert rules[|owner.rules|] == rule;
  }

  lemma SoundReplaced(st: State, k: nat, p: Policy, id: string)
    requires Sound(st) && k < |st.policies| && WfPolicy(p)
    requires p.name == st.policies[k].name && p.resource == st.policies[k].resource
    requires forall r :: r in p.rules ==> r.id in st.ids || r.id == id
    ensures Sound(State(st.policies[k := p], st.ids + {id}))
  {
    hide WfPolicy;
  }

  lemma ExecSound(st: State, statement: string)
    requires Sound(st)
    ensures Exec(st, statement).Ok? ==> Sound(Exec(st, statement).value)
  {
    hide PolicyHeader, RuleHeader, AddPolicy, AddRule, Sound, IsIdent;
    PolicyHeaderName(statement);
    RuleHeaderNames(statement);
    match PolicyHeader(statement)
    case Some((name, literal)) => AddPolicySound(st, name, literal);
    case None =>
      match RuleHeader(statement)
      case None =>
      case Some(h) => AddRuleSound(st, h);
  }

  lemma {:induction false} ExecAllSound(st: State, statements: seq<string>)
    requires Sound(st)
    ensures ExecAll(st, statements).Ok? ==> Sound(ExecAll(st, statements).value)
    decreases |statements|
  {
    hide Exec, Sound;
    if statements != [] {
      ExecSound(st, statements[0]);
      if Exec(st, statements[0]).Ok? {
        ExecAllSound(Exec(st, statements[0]).value, statements[1..]);
      }
    }
  }

  /**
   * Whatever text is read, the document is well formed: distinct policies and
   * resources, distinct rule ids under their policy's name, names of word
   * characters, safe paths, no empty list.
   */
  lemma ParseSound(source: string)
    requires Parse(source).Ok?
    ensures WfDocument(Parse(source).value)
    ensures forall p :: p in Parse(source).value.policies ==> Name(p.name)
  {
    hide SplitStatements, Strip, ExecAll, WfPolicy;
    var start := State([], {});
    assert Sound(start);
    ExecAllSound(start, SplitStatements(Strip(START, source)));
    forall p | p in Parse(source).value.policies ensures Name(p.name) {
      var i :| 0 <= i < |Parse(source).value.policies| && Parse(source).value.policies[i] == p;
      PolicyNamed(p);
    }
  }

  lemma PolicyNamed(p: Policy)
    requires WfPolicy(p)
    ensures Name(p.name)
  {
  }

  /** The parser as it runs: one pass over the statements, updating the table. */
  method ParsePolicies(source: string) returns (r: Result<Document>)
    ensures r == Parse(source)
    ensures r.Ok? ==> WfDocument(r.value)
  {
    hide WfDocument;
    if Parse(source).Ok? {
      ParseSound(source);
    }
    var clean := StripComments(source);
    var statements := SplitStatements(clean);
    var byName: seq<Policy> := [];
    var ids: set<string> := {};
    var i := 0;
    while i < |statements|
      invariant 0 <= i <= |statements|
      invariant ExecAll(State([], {}), statements) == ExecAll(State(byName, ids), statements[i..])
    {
      var statement := statements[i];
      assert statements[i..][0] == statement && statements[i..][1..] == statements[i + 1..];
      var policy := PolicyHeader(statement);
      if policy.Some? {
        var name := policy.value.0;
        var resource := ParseString(policy.value.1);
        if resource.Err? {
          return Err(resource.error);
        }
        if Clashes(byName, name, resource.value) {
          return Err(DuplicatePolicy);
        }
        byName := byName + [Policy(name, resource.value, [])];
      } else {
        var rule := RuleHeader(statement);
        if rule.None? {
          return Err(MalformedProduction);
        }
        var h := rule.value;
        var k := Lookup(byName, h.policy);
        if k.None? {
          return Err(UnknownPolicy);
        }
        var fields := SplitPredicates(h.rhs);
        if fields[0] == "" {
          return Err(EmptyRule);
        }
        var id := h.policy + "." + h.verb;
        if id in ids {
          return Err(DuplicateRule);
        }
        ids := ids + {id};
        var actions := ParseActions(fields[0]);
        if actions.Err? {
          return Err(actions.error);
        }
        var conditions := ParseConditions(fields[1..]);
        if conditions.Err? {
          return Err(conditions.error);
        }
        var owner := byName[k.value];
        byName := byName[k.value := owner.(rules := owner.rules +
          [Rule(id, h.effect, actions.value, conditions.value)])];
      }
      i := i + 1;
    }
    assert statements[i..] == [];
    if byName == [] {
      return Err(EmptyDocument);
    }
    return Ok(Document(byName));
  }

  // ----- the texts of the statements -----

  predicate IsLiteral(l: string) { LiteralLength(l) == Some(|l|) }

  /** `policy`, a name, `=` and a literal, with white space between them where it is needed and where it is not. */
  ghost predicate PolicyText(t: string, name: string, literal: string) {
    && IsIdent(name) && IsLiteral(literal)
    && exists a, b, c ::
      Blank(a) && a != "" && Blank(b) && Blank(c) && t == "policy" + (a + (name + (b + ("=" + (c + literal)))))
  }

  /** A word and what follows the white space behind it. */
  lemma AfterWordExactly(t: string, word: string, rest: string)
    ensures AfterWord(t, word) == Some(rest) <==>
      (rest == "" || !IsSpace(rest[0])) && exists a :: Blank(a) && a != "" && t == word + (a + rest)
  {
    if AfterWord(t, word) == Some(rest) {
      var u := t[|word|..];
      var n := TrimStartSuffix(u);
      TrimStartStops(u);
      assert u == u[..n] + rest && t == word + u;
      assert n > 0;
    }
    if (rest == "" || !IsSpace(rest[0])) && exists a :: Blank(a) && a != "" && t == word + (a + rest) {
      var a :| Blank(a) && a != "" && t == word + (a + rest);
      assert t[|word|..] == a + rest && t[|word|] == a[0];
      TrimStartBlank(a, rest);
      StartsSolid(rest);
    }
  }

  lemma StartsSolid(t: string)
    requires t == "" || !IsSpace(t[0])
    ensures TrimStart(t) == t
  {
  }

  lemma AfterEqualsExactly(t: string, rest: string)
    ensures AfterEquals(t) == Some(rest) <==>
      (rest == "" || !IsSpace(rest[0])) && exists b, c :: Blank(b) && Blank(c) && t == b + ("=" + (c + rest))
  {
    if AfterEquals(t) == Some(rest) {
      EqualsFound(t, rest);
    }
    if (rest == "" || !IsSpace(rest[0])) && exists b, c :: Blank(b) && Blank(c) && t == b + ("=" + (c + rest)) {
      var b, c :| Blank(b) && Blank(c) && t == b + ("=" + (c + rest));
      TrimStartBlank(b, "=" + (c + rest));
      StartsSolid("=" + (c + rest));
      assert ("=" + (c + rest))[1..] == c + rest;
      TrimStartBlank(c, rest);
      StartsSolid(rest);
    }
  }

  lemma EqualsFound(t: string, rest: string)
    requires AfterEquals(t) == Some(rest)
    ensures rest == "" || !IsSpace(rest[0])
    ensures exists b, c :: Blank(b) && Blank(c) && t == b + ("=" + (c + rest))
  {
    var n := TrimStartSuffix(t);
    var u := TrimStart(t);
    var m := TrimStartSuffix(u[1..]);
    TrimStartStops(u[1..]);
    hide TrimStart;
    var b, c := t[..n], u[1..][..m];
    assert t == b + u && u == "=" + u[1..] && u[1..] == c + rest;
  }

  lemma TakeIdentExactly(t: string, name: string, rest: string)
    ensures TakeIdent(t) == Some((name, rest)) <==>
      IsIdent(name) && t == name + rest && (rest == "" || !IsIdentPart(rest[0]))
  {
    TakenIdent(t);
    if IsIdent(name) && t == name + rest && (rest == "" || !IsIdentPart(rest[0])) {
      SpanAppend(name, rest, IsIdentPart);
      assert t[0] == name[0] && t[..|name|] == name && t[|name|..] == rest;
    }
  }

  lemma GapEnds(b: string, rest: string)
    requires Blank(b) && (b != "" || (rest != "" && rest[0] == '='))
    ensures b + rest != "" && !IsIdentPart((b + rest)[0])
  {
    if b != "" {
      assert b[0] in b && (b + rest)[0] == b[0];
    }
  }

  /** The policy pattern matches exactly these texts. */
  lemma PolicyHeaderExactly(t: string, name: string, literal: string)
    ensures PolicyHeader(t) == Some((name, literal)) <==> PolicyText(t, name, literal)
  {
    hide AfterWord, AfterEquals, TakeIdent, LiteralLength, IsIdent, Blank;
    if PolicyHeader(t) == Some((name, literal)) {
      var u := AfterWord(t, "policy").value;
      var v := TakeIdent(u).value.1;
      AfterWordExactly(t, "policy", u);
      TakeIdentExactly(u, name, v);
      AfterEqualsExactly(v, literal);
      var a :| Blank(a) && a != "" && t == "policy" + (a + u);
      var b, c :| Blank(b) && Blank(c) && v == b + ("=" + (c + literal));
      assert t == "policy" + (a + (name + (b + ("=" + (c + literal)))));
    }
    if PolicyText(t, name, literal) {
      var a, b, c :|
        Blank(a) && a != "" && Blank(b) && Blank(c) && t == "policy" + (a + (name + (b + ("=" + (c + literal)))));
      var v := b + ("=" + (c + literal));
      LiteralFront(literal);
      AfterEqualsExactly(v, literal);
      GapEnds(b, "=" + (c + literal));
      TakeIdentExactly(name + v, name, v);
      IdentFront(name, v);
      AfterWordExactly(t, "policy", name + v);
    }
  }

  lemma LiteralFront(l: string)
    requires IsLiteral(l)
    ensures |l| > 1 && l[0] == '"' && !IsSpace(l[0])
  {
  }

  lemma IdentFront(name: string, rest: string)
    requires IsIdent(name)
    ensures name + rest != "" && !IsSpace((name + rest)[0])
  {
  }

  /** Two names, `=` and something. */
  ghost predicate RestText(t: string, h: Header) {
    && IsIdent(h.policy) && IsIdent(h.verb) && h.rhs != "" && !IsSpace(h.rhs[0])
    && exists b, c, d ::
      Blank(b) && b != "" && Blank(c) && Blank(d) && t == h.policy + (b + (h.verb + (c + ("=" + (d + h.rhs)))))
  }

  /** `allow` or `deny` and the rest. */
  ghost predicate RuleText(t: string, h: Header) {
    exists a, u :: Blank(a) && a != "" && t == EffectName(h.effect) + (a + u) && RestText(u, h)
  }

  lemma HeaderRestExactly(t: string, h: Header)
    ensures HeaderRest(h.effect, t) == Some(h) <==> RestText(t, h)
  {
    hide AfterEquals, TakeIdent, IsIdent, Blank, TrimStart;
    if HeaderRest(h.effect, t) == Some(h) {
      var u := TakeIdent(t).value.1;
      TakeIdentExactly(t, h.policy, u);
      var b, w := SpaceFront(u);
      var v := TakeIdent(w).value.1;
      TakeIdentExactly(w, h.verb, v);
      AfterEqualsExactly(v, h.rhs);
      var c, d :| Blank(c) && Blank(d) && v == c + ("=" + (d + h.rhs));
      assert t == h.policy + (b + (h.verb + (c + ("=" + (d + h.rhs)))));
    }
    if RestText(t, h) {
      var b, c, d :| Blank(b) && b != "" && Blank(c) && Blank(d) &&
        t == h.policy + (b + (h.verb + (c + ("=" + (d + h.rhs)))));
      var v := c + ("=" + (d + h.rhs));
      AfterEqualsExactly(v, h.rhs);
      GapEnds(c, "=" + (d + h.rhs));
      TakeIdentExactly(h.verb + v, h.verb, v);
      IdentFront(h.verb, v);
      GapEnds(b, h.verb + v);
      TakeIdentExactly(t, h.policy, b + (h.verb + v));
      SpaceGap(b, h.verb + v);
    }
  }

  lemma SpaceFront(u: string) returns (b: string, w: string)
    requires u != "" && IsSpace(u[0])
    ensures Blank(b) && b != "" && u == b + w && w == TrimStart(u)
  {
    var n := TrimStartSuffix(u);
    b, w := u[..n], u[n..];
    assert n > 0 by { TrimStartStops(u); }
  }

  lemma SpaceGap(b: string, w: string)
    requires Blank(b) && b != "" && w != "" && !IsSpace(w[0])
    ensures IsSpace((b + w)[0]) && TrimStart(b + w) == w
  {
    assert b[0] in b && (b + w)[0] == b[0];
    TrimStartBlank(b, w);
    StartsSolid(w);
  }

  /** The rule pattern matches exactly these texts. */
  lemma RuleHeaderExactly(t: string, h: Header)
    ensures RuleHeader(t) == Some(h) <==> RuleText(t, h)
  {
    hide AfterWord, HeaderRest, RestText, Blank;
    if AfterWord(t, "allow").Some? {
      OneWord(t);
    }
    if RuleHeader(t) == Some(h) {
      var e := if AfterWord(t, "allow").Some? then Allow else Deny;
      var u := AfterWord(t, EffectName(e)).value;
      HeaderEffect(e, u);
      HeaderRestExactly(u, h);
      AfterWordExactly(t, EffectName(h.effect), u);
    }
    if RuleText(t, h) {
      var a, u :| Blank(a) && a != "" && t == EffectName(h.effect) + (a + u) && RestText(u, h);
      HeaderRestExactly(u, h);
      RestFront(u, h);
      AfterWordExactly(t, EffectName(h.effect), u);
    }
  }

  lemma RestFront(u: string, h: Header)
    requires RestText(u, h)
    ensures u != "" && !IsSpace(u[0])
  {
    var b, c, d :| Blank(b) && b != "" && Blank(c) && Blank(d) &&
      u == h.policy + (b + (h.verb + (c + ("=" + (d + h.rhs)))));
    IdentFront(h.policy, b + (h.verb + (c + ("=" + (d + h.rhs)))));
  }

  lemma OneWord(t: string)
    requires AfterWord(t, "allow").Some?
    ensures AfterWord(t, "deny").None?
  {
    assert t[0] == "allow"[0] == 'a';
    assert "deny"[0] == 'd';
  }

  lemma HeaderEffect(e: Effect, u: string)
    ensures HeaderRest(e, u).Some? ==> HeaderRest(e, u).value.effect == e
  {
    hide TakeIdent, AfterEquals, TrimStart;
  }

  // ----- the texts of the conditions -----

  /** What comes behind a literal does not change where it ends. */
  lemma {:induction false} LiteralRestStays(x: string, y: string)
    requires LiteralRest(x).Some?
    ensures LiteralRest(x + y) == LiteralRest(x)
  {
    assert (x + y)[0] == x[0];
    if x[0] == '"' {
    } else if x[0] == '\\' {
      assert (x + y)[1] == x[1] && (x + y)[2..] == x[2..] + y;
      LiteralRestStays(x[2..], y);
    } else {
      assert (x + y)[1..] == x[1..] + y;
      LiteralRestStays(x[1..], y);
    }
  }

  lemma {:induction false} LiteralRestPrefix(x: string, n: nat)
    requires LiteralRest(x) == Some(n)
    ensures n <= |x| && LiteralRest(x[..n]) == Some(n)
  {
    if x[0] == '"' {
    } else if x[0] == '\\' {
      LiteralRestPrefix(x[2..], n - 2);
      assert x[..n][2..] == x[2..][..n - 2];
    } else {
      LiteralRestPrefix(x[1..], n - 1);
      assert x[..n][1..] == x[1..][..n - 1];
    }
  }

  lemma LiteralStays(l: string, rest: string)
    requires IsLiteral(l)
    ensures LiteralLength(l + rest) == Some(|l|)
  {
    assert (l + rest)[1..] == l[1..] + rest;
    LiteralRestStays(l[1..], rest);
  }

  lemma LiteralPrefix(t: string, n: nat)
    requires LiteralLength(t) == Some(n)
    ensures 1 < n <= |t| && IsLiteral(t[..n])
  {
    LiteralRestPrefix(t[1..], n - 1);
    assert t[..n][1..] == t[1..][..n - 1];
  }

  /** A text that is read as a JSON string is a literal. */
  lemma {:induction false} ReadLiteral(x: string)
    requires Json.ReadString(x).Some?
    ensures LiteralRest(x) == Some(|x| - |Json.ReadString(x).value.1|)
  {
    if x[0] == '"' {
    } else if x[0] == '\\' && x[1] == 'u' {
      ReadLiteral(x[6..]);
      var hex := x[2..6];
      assert x[2..] == hex + x[6..];
      forall i | 0 <= i < |hex| ensures hex[i] != '"' && hex[i] != '\\' {
        assert Json.HexValue(x[2..][i]).Some? && x[2..][i] == hex[i];
      }
      LiteralPlain(hex, x[6..]);
    } else if x[0] == '\\' {
      ReadLiteral(x[2..]);
    } else {
      ReadLiteral(x[1..]);
    }
  }

  lemma ParsedString(w: string)
    requires w != "" && !IsSpace(w[0]) && ParseString(w).Ok?
    ensures LiteralLength(w).Some?
  {
    assert !Json.IsWs(w[0]);
    assert Json.SkipWs(w) == w;
    StringFirst(w);
    ReadLiteral(w[1..]);
  }

  lemma StringFirst(w: string)
    requires w != "" && Json.SkipWs(w) == w && ParseString(w).Ok?
    ensures w[0] == '"' && Json.ReadString(w[1..]).Some?
  {
    hide Json.ParseItems, Json.ParseMembers, Json.IsNumber, Json.ReadString;
  }

  /** A token that reads as a string is a literal, and ends where it does. */
  lemma StringToken(t: string)
    requires t != "" && !IsSpace(t[0]) && ParseString(t[..TokenLength(t)]).Ok?
    ensures LiteralLength(t) == Some(TokenLength(t)) && IsLiteral(t[..TokenLength(t)])
  {
    hide ParseString, Json.NumberLength;
    var n := TokenLength(t);
    var w := t[..n];
    if LiteralLength(t).None? {
      ParsedString(w);
      assert t == w + t[n..];
      assert (w + t[n..])[1..] == w[1..] + t[n..];
      LiteralRestStays(w[1..], t[n..]);
      assert false;
    }
    LiteralPrefix(t, n);
  }

  /** Literals that read as these strings, with white space around them where there is any. */
  ghost predicate LiteralsText(t: string, parts: seq<string>)
    decreases |parts|
  {
    if parts == [] then Blank(t)
    else
      exists a, l, u ::
        Blank(a) && IsLiteral(l) && ParseString(l) == Ok(parts[0]) && t == a + (l + u) && LiteralsText(u, parts[1..])
  }

  lemma LiteralsSpace(t: string, parts: seq<string>)
    requires t != "" && IsSpace(t[0])
    ensures LiteralsText(t, parts) <==> LiteralsText(t[1..], parts)
  {
    hide ParseString, LiteralLength;
    assert t == [t[0]] + t[1..];
    if parts == [] {
      assert forall c <- t :: c == t[0] || c in t[1..];
    } else {
      if LiteralsText(t, parts) {
        var a, l, u :| Blank(a) && IsLiteral(l) && ParseString(l) == Ok(parts[0]) && t == a + (l + u) &&
          LiteralsText(u, parts[1..]);
        LiteralFront(l);
        assert a != "";
        assert t[1..] == a[1..] + (l + u);
        assert forall c <- a[1..] :: c in a;
      }
      if LiteralsText(t[1..], parts) {
        var a, l, u :| Blank(a) && IsLiteral(l) && ParseString(l) == Ok(parts[0]) && t[1..] == a + (l + u) &&
          LiteralsText(u, parts[1..]);
        assert t == ([t[0]] + a) + (l + u);
        assert Blank([t[0]] + a);
      }
    }
  }

  lemma BlankFirst(a: string, u: string)
    requires Blank(a)
    ensures a != "" ==> a + u != "" && IsSpace((a + u)[0])
  {
    if a != "" {
      assert a[0] in a && (a + u)[0] == a[0];
    }
  }

  lemma LiteralsFront(t: string, parts: seq<string>)
    requires t != "" && !IsSpace(t[0])
    ensures LiteralsText(t, parts) <==>
      parts != [] && LiteralLength(t).Some? && ParseString(t[..LiteralLength(t).value]) == Ok(parts[0]) &&
      LiteralsText(t[LiteralLength(t).value..], parts[1..])
  {
    hide ParseString, LiteralLength;
    assert t[0] in t;
    if parts != [] {
      if LiteralsText(t, parts) {
        var a, l, u :| Blank(a) && IsLiteral(l) && ParseString(l) == Ok(parts[0]) && t == a + (l + u) &&
          LiteralsText(u, parts[1..]);
        BlankFirst(a, l + u);
        LiteralStays(l, u);
        assert t == l + u && t[..|l|] == l && t[|l|..] == u;
      }
      if LiteralLength(t).Some? {
        var n := LiteralLength(t).value;
        LiteralPrefix(t, n);
        assert t == "" + (t[..n] + t[n..]);
      }
    }
  }

  /** The tokens are strings exactly when the text is that of their literals. */
  lemma {:induction false} TokensExactly(t: string, parts: seq<string>)
    ensures ParseStrings(Tokens(t)) == Ok(parts) <==> LiteralsText(t, parts)
    decreases |t|
  {
    hide ParseString, LiteralLength, TokenLength;
    if t == "" {
      NothingLiteral(parts);
    } else if IsSpace(t[0]) {
      TokensExactly(t[1..], parts);
      LiteralsSpace(t, parts);
    } else {
      var n := TokenLength(t);
      LiteralsFront(t, parts);
      if ParseString(t[..n]).Ok? {
        StringToken(t);
      }
      TokenOf(t);
      assert ([t[..n]] + Tokens(t[n..]))[1..] == Tokens(t[n..]);
      if parts != [] {
        TokensExactly(t[n..], parts[1..]);
        assert parts == [parts[0]] + parts[1..];
      }
    }
  }

  lemma TokenOf(t: string)
    requires t != "" && !IsSpace(t[0])
    ensures LiteralLength(t).Some? ==> LiteralLength(t).value == TokenLength(t)
  {
  }

  lemma LiteralsSome(t: string, parts: seq<string>)
    requires parts != [] && LiteralsText(t, parts)
    ensures t != ""
  {
    hide ParseString, LiteralLength;
    var a, l, u :|
      Blank(a) && IsLiteral(l) && ParseString(l) == Ok(parts[0]) && t == a + (l + u) && LiteralsText(u, parts[1..]);
    LiteralFront(l);
    assert |t| >= |l|;
  }

  lemma NothingLiteral(parts: seq<string>)
    ensures LiteralsText("", parts) <==> parts == []
  {
    if parts != [] && LiteralsText("", parts) {
      LiteralsSome("", parts);
    }
  }

  /** A word, then literals behind white space. */
  ghost predicate ListText(body: string, word: string, parts: seq<string>) {
    word <= body && (|body| == |word| || IsSpace(body[|word|])) && LiteralsText(body[|word|..], parts)
  }

  lemma FirstWord(body: string, word: string)
    requires IsWord(word) && word != "" && body != "" && !IsSpace(body[0])
    ensures Tokens(body) != []
    ensures Tokens(body)[0] == word <==> word <= body && (|body| == |word| || IsSpace(body[|word|]))
    ensures Tokens(body)[0] == word ==> Tokens(body) == [word] + Tokens(body[|word|..])
  {
    hide TokenLength, IsWord, Json.NumberLength, LiteralLength;
    var n := TokenLength(body);
    assert Tokens(body) == [body[..n]] + Tokens(body[n..]);
    assert word <= body ==> body[0] == word[0];
    if body[0] == word[0] {
      WordLength(body, word);
      if word <= body && (|body| == |word| || IsSpace(body[|word|])) {
        WordSpan(body, word);
      }
      assert body[..n] == word ==> word <= body && |word| == n;
    } else {
      assert body[..n][0] == body[0];
    }
  }

  lemma WordLength(body: string, word: string)
    requires IsWord(word) && body != "" && !IsSpace(body[0]) && body[0] == word[0]
    ensures TokenLength(body) == Span(body, Solid)
  {
    assert "true"[0] == 't' && "false"[0] == 'f' && "null"[0] == 'n';
    assert Json.NumberLength(body) == 0;
  }

  lemma WordSpan(body: string, word: string)
    requires IsWord(word) && word <= body && (|body| == |word| || IsSpace(body[|word|]))
    ensures Span(body, Solid) == |word|
  {
    assert body == word + body[|word|..];
    SpanAppend(word, body[|word|..], Solid);
  }

  /** What follows the word `equals`. */
  ghost predicate EqualsTail(t: string, path: string, value: Json.Value) {
    exists a, l, b, v ::
      && Blank(a) && a != "" && Blank(b) && b != "" && t == a + (l + (b + v))
      && IsLiteral(l) && ParseString(l) == Ok(path) && v != "" && !IsSpace(v[0]) && Json.Parse(v) == Some(value)
  }

  /** The texts of a condition, between its question marks. */
  ghost predicate BodyText(body: string, c: Condition) {
    match c
    case Owner(subject, resource) =>
      IsSafePath(subject) && IsSafePath(resource) && ListText(body, "owner", [subject, resource])
    case HasRole(roles) => roles != [] && ListText(body, "has-role", roles)
    case HasScope(scopes) => scopes != [] && ListText(body, "has-scope", scopes)
    case Equals(path, value) => IsSafePath(path) && "equals" <= body && EqualsTail(body[6..], path, value)
  }

  lemma ParsePathExactly(raw: string, path: string)
    ensures ParsePath(raw) == Ok(path) <==> ParseString(raw) == Ok(path) && IsSafePath(path)
  {
    hide ParseString, IsSafePath;
  }

  lemma SolidEnd(t: string)
    requires t != "" && !IsSpace(t[|t| - 1])
    ensures Trim(t) == TrimStart(t)
  {
    var n := TrimStartSuffix(t);
    NotBlank(t);
    assert t[..|t|] == t;
    assert t[n..][|t[n..]| - 1] == t[|t| - 1];
  }

  lemma NotBlank(t: string)
    requires t != "" && !IsSpace(t[|t| - 1])
    ensures !Blank(t)
  {
    assert t[|t| - 1] in t;
  }

  lemma EqualsTailExactly(t: string, path: string, value: Json.Value)
    requires t != "" && IsSpace(t[0]) && !IsSpace(t[|t| - 1])
    ensures ParseEquals(Trim(t)) == Ok(Equals(path, value)) <==> IsSafePath(path) && EqualsTail(t, path, value)
  {
    hide ParseString, LiteralLength, IsSafePath, Json.Parse, ParsePath;
    SolidEnd(t);
    var a, text := SpaceFront(t);
    hide Trim;
    if ParseEquals(text) == Ok(Equals(path, value)) {
      var n := LiteralLength(text).value;
      LiteralPrefix(text, n);
      ParsePathExactly(text[..n], path);
      var b, v := SpaceFront(text[n..]);
      TrimStartStops(text[n..]);
      assert t == a + (text[..n] + (b + v));
    }
    if IsSafePath(path) && EqualsTail(t, path, value) {
      var a', l, b, v :|
        && Blank(a') && a' != "" && Blank(b) && b != "" && t == a' + (l + (b + v))
        && IsLiteral(l) && ParseString(l) == Ok(path) && v != "" && !IsSpace(v[0]) && Json.Parse(v) == Some(value);
      LiteralFront(l);
      SpaceGap(a', l + (b + v));
      LiteralStays(l, b + v);
      SpaceGap(b, v);
      assert text == l + (b + v) && text[..|l|] == l && text[|l|..] == b + v;
      assert text[|l|] == (b + v)[0];
      ParsePathExactly(l, path);
    }
  }

  lemma OwnerExactly(raws: seq<string>, subject: string, resource: string)
    ensures |raws| == 2 && ParseOwner(raws[0], raws[1]) == Ok(Owner(subject, resource)) <==>
      IsSafePath(subject) && IsSafePath(resource) && ParseStrings(raws) == Ok([subject, resource])
  {
    hide ParseString, IsSafePath, ParsePath;
    StringsCount(raws);
    if |raws| == 2 {
      ParsePathExactly(raws[0], subject);
      ParsePathExactly(raws[1], resource);
      assert raws[1..][0] == raws[1] && raws[1..][1..] == [];
      hide ParseStrings;
      TwoStrings(raws, subject, resource);
    }
  }

  lemma TwoStrings(raws: seq<string>, a: string, b: string)
    requires |raws| == 2
    ensures ParseStrings(raws) == Ok([a, b]) <==> ParseString(raws[0]) == Ok(a) && ParseString(raws[1]) == Ok(b)
  {
    hide ParseString;
    var last := raws[1..];
    assert last[0] == raws[1] && last[1..] == [] && ParseStrings([]) == Ok([]);
    if ParseString(raws[1]).Ok? {
      var second := ParseString(raws[1]).value;
      assert [second] + [] == [second];
      assert ParseStrings(last) == Ok([second]);
      if ParseString(raws[0]).Ok? {
        var first := ParseString(raws[0]).value;
        assert ParseStrings(raws) == Ok([first] + [second]);
        assert ([first] + [second])[0] == first && ([first] + [second])[1] == second;
        assert [first] + [second] == [first, second];
      }
    }
  }

  lemma Words()
    ensures IsWord("owner") && IsWord("has-role") && IsWord("has-scope") && IsWord("equals")
  {
  }

  /** The word comes first and strings behind it. */
  lemma ListExactly(body: string, word: string, parts: seq<string>)
    requires IsWord(word) && word != "" && body != "" && !IsSpace(body[0])
    ensures Tokens(body) != []
    ensures Tokens(body)[0] == word && ParseStrings(Tokens(body)[1..]) == Ok(parts) <==> ListText(body, word, parts)
  {
    hide Tokens, ParseStrings, LiteralsText, IsWord;
    FirstWord(body, word);
    if word <= body {
      TokensExactly(body[|word|..], parts);
      assert Tokens(body)[0] == word ==> Tokens(body)[1..] == Tokens(body[|word|..]);
    }
  }

  lemma OwnerBody(body: string, subject: string, resource: string)
    requires body != "" && !IsSpace(body[0])
    ensures ParseBody(body) == Ok(Owner(subject, resource)) <==> BodyText(body, Owner(subject, resource))
  {
    hide Tokens, ParseStrings, ParseEquals, ParseOwner, IsSafePath, ListText, IsWord, Trim;
    Words();
    ListExactly(body, "owner", [subject, resource]);
    OwnerExactly(Tokens(body)[1..], subject, resource);
    Kinds(body);
    StringsCount(Tokens(body)[1..]);
    var parts := Tokens(body);
    assert |parts| == 3 ==> parts[1..][0] == parts[1] && parts[1..][1] == parts[2];
  }

  /** Only `equals` gives an equality. */
  lemma Kinds(body: string)
    ensures var r := ParseEquals(Trim(if |body| < 6 then "" else body[6..])); r.Ok? ==> r.value.Equals?
  {
    hide LiteralLength, ParsePath, Json.Parse, Trim, TrimStart;
  }

  lemma OwnerKind(subject: string, resource: string)
    ensures var r := ParseOwner(subject, resource); r.Ok? ==> r.value.Owner?
  {
    hide ParsePath;
  }

  lemma ListBody(body: string, roles: seq<string>)
    requires body != "" && !IsSpace(body[0])
    ensures ParseBody(body) == Ok(HasRole(roles)) <==> BodyText(body, HasRole(roles))
    ensures ParseBody(body) == Ok(HasScope(roles)) <==> BodyText(body, HasScope(roles))
  {
    hide Tokens, ParseStrings, ParseEquals, ParseOwner, IsSafePath, ListText, IsWord, Trim;
    Words();
    ListExactly(body, "has-role", roles);
    ListExactly(body, "has-scope", roles);
    var parts := Tokens(body);
    Kinds(body);
    if |parts| == 3 {
      OwnerKind(parts[1], parts[2]);
    }
    StringsCount(parts[1..]);
  }

  lemma EqualsBody(body: string, path: string, value: Json.Value)
    requires body != "" && Trimmed(body)
    ensures ParseBody(body) == Ok(Equals(path, value)) <==> BodyText(body, Equals(path, value))
  {
    hide Tokens, ParseStrings, ParseEquals, ParseOwner, IsSafePath, EqualsTail, IsWord, Trim;
    Words();
    FirstWord(body, "equals");
    var parts := Tokens(body);
    if |parts| == 3 {
      OwnerKind(parts[1], parts[2]);
    }
    if "equals" <= body {
      EqualsRest(body, path, value);
    }
  }

  lemma EqualsRest(body: string, path: string, value: Json.Value)
    requires "equals" <= body && Trimmed(body)
    ensures IsSafePath(path) && EqualsTail(body[6..], path, value) ==> |body| > 6 && IsSpace(body[6])
    ensures |body| == 6 || IsSpace(body[6]) ==>
      (ParseEquals(Trim(body[6..])) == Ok(Equals(path, value)) <==>
        IsSafePath(path) && EqualsTail(body[6..], path, value))
  {
    hide ParseEquals, IsSafePath, Trim, EqualsTail;
    var t := body[6..];
    if EqualsTail(t, path, value) {
      TailFront(t, path, value);
    }
    if t == "" {
      NoEquals();
    } else {
      assert t[|t| - 1] == body[|body| - 1] && t[0] == body[6];
      if IsSpace(body[6]) {
        EqualsTailExactly(t, path, value);
      }
    }
  }

  lemma NoEquals()
    ensures ParseEquals(Trim("")).Err?
  {
  }

  lemma TailFront(t: string, path: string, value: Json.Value)
    requires EqualsTail(t, path, value)
    ensures t != "" && IsSpace(t[0])
  {
    hide ParseString, LiteralLength, Json.Parse;
    var a, l, b, v :|
      && Blank(a) && a != "" && Blank(b) && b != "" && t == a + (l + (b + v))
      && IsLiteral(l) && ParseString(l) == Ok(path) && v != "" && !IsSpace(v[0]) && Json.Parse(v) == Some(value);
    BlankFirst(a, l + (b + v));
  }

  /** Exactly these texts are read as a condition. */
  lemma BodyExactly(body: string, c: Condition)
    requires Trimmed(body)
    ensures ParseBody(body) == Ok(c) <==> BodyText(body, c)
  {
    if body == "" {
      NoBody(c);
    } else {
      hide ParseBody, BodyText;
      match c
      case Owner(subject, resource) => OwnerBody(body, subject, resource);
      case HasRole(roles) => ListBody(body, roles);
      case HasScope(scopes) => ListBody(body, scopes);
      case Equals(path, value) => EqualsBody(body, path, value);
    }
  }

  lemma NoBody(c: Condition)
    ensures ParseBody("").Err? && !BodyText("", c)
  {
    hide IsSafePath, LiteralsText, EqualsTail;
    assert Tokens("") == [];
  }

  /** A condition: its text between question marks, with white space around it or not. */
  ghost predicate ConditionText(raw: string, c: Condition) {
    exists a, body, b ::
      Blank(a) && Blank(b) && Trimmed(body) && raw == "?" + (a + body + b) + "?" && BodyText(body, c)
  }

  /** The parser reads a condition from exactly the texts of that condition. */
  lemma ConditionExactly(raw: string, c: Condition)
    ensures ParseCondition(raw) == Ok(c) <==> ConditionText(raw, c)
  {
    hide ParseBody, BodyText, Trim, Blank, Trimmed;
    if ParseCondition(raw) == Ok(c) {
      var a, b := TrimParts(Inside(raw));
      BodyExactly(Trim(Inside(raw)), c);
      TwoMarks(raw, c);
      assert raw == "?" + Inside(raw) + "?";
    }
    if ConditionText(raw, c) {
      var a, body, b :| Blank(a) && Blank(b) && Trimmed(body) && raw == "?" + (a + body + b) + "?" && BodyText(body, c);
      assert Inside(raw) == a + body + b;
      TrimAround(a, body, b);
      BodyExactly(body, c);
    }
  }

  lemma TwoMarks(raw: string, c: Condition)
    requires ParseCondition(raw) == Ok(c)
    ensures |raw| > 1
  {
    NoBody(c);
    hide ParseBody, BodyText;
    assert Trim("") == "";
  }

  // ----- the texts of the actions -----

  lemma {:induction false} SkipsAll(t: string)
    requires Json.SkipWs(t) == ""
    ensures Blank(t)
  {
    if t != "" {
      SkipsAll(t[1..]);
      assert t == [t[0]] + t[1..];
    }
  }

  /** A trimmed text reads as a string exactly when it is a literal of that string. */
  lemma TrimmedLiteral(w: string)
    requires w != "" && Trimmed(w) && ParseString(w).Ok?
    ensures IsLiteral(w)
  {
    assert !Json.IsWs(w[0]);
    assert Json.SkipWs(w) == w;
    StringFirst(w);
    ReadLiteral(w[1..]);
    var rest := Json.ReadString(w[1..]).value.1;
    RestBlank(w);
    ReadSuffix(w[1..]);
    assert rest == w[|w| - |rest|..];
    BlankLast(rest);
  }

  lemma BlankLast(t: string)
    requires Blank(t)
    ensures t != "" ==> IsSpace(t[|t| - 1])
  {
    if t != "" {
      assert t[|t| - 1] in t;
    }
  }

  lemma RestBlank(w: string)
    requires w != "" && Json.SkipWs(w) == w && w[0] == '"' && ParseString(w).Ok? && Json.ReadString(w[1..]).Some?
    ensures Blank(Json.ReadString(w[1..]).value.1)
  {
    hide Json.ReadString;
    SkipsAll(Json.ReadString(w[1..]).value.1);
  }

  lemma {:induction false} ReadSuffix(x: string)
    requires Json.ReadString(x).Some?
    ensures var rest := Json.ReadString(x).value.1; |rest| < |x| && rest == x[|x| - |rest|..]
  {
    if x[0] == '"' {
    } else if x[0] == '\\' && x[1] == 'u' {
      ReadSuffix(x[6..]);
    } else if x[0] == '\\' {
      ReadSuffix(x[2..]);
    } else {
      ReadSuffix(x[1..]);
    }
  }

  lemma PieceExactly(piece: string, action: string)
    ensures ParseString(Trim(piece)) == Ok(action) <==> LiteralsText(piece, [action])
  {
    hide ParseString, LiteralLength, Trim, Trimmed;
    var a, b := TrimParts(piece);
    var w := Trim(piece);
    assert [action][1..] == [];
    if ParseString(w) == Ok(action) {
      NoString();
      TrimmedLiteral(w);
      assert piece == a + (w + b);
      assert LiteralsText(b, []);
    }
    if LiteralsText(piece, [action]) {
      var c, l, u :| Blank(c) && IsLiteral(l) && ParseString(l) == Ok(action) && piece == c + (l + u) &&
        LiteralsText(u, [action][1..]);
      LiteralFront(l);
      LiteralEnd(l);
      assert piece == c + l + u;
      TrimAround(c, l, u);
    }
  }

  lemma NoString()
    ensures ParseString("").Err?
  {
    assert Json.SkipWs("") == "";
  }

  lemma LiteralEnd(l: string)
    requires IsLiteral(l)
    ensures Trimmed(l)
  {
    LiteralRestEnd(l[1..]);
  }

  lemma {:induction false} LiteralRestEnd(x: string)
    requires LiteralRest(x) == Some(|x|)
    ensures x != "" && x[|x| - 1] == '"'
  {
    if x[0] == '"' {
    } else if x[0] == '\\' {
      LiteralRestEnd(x[2..]);
    } else {
      LiteralRestEnd(x[1..]);
    }
  }

  predicate BarFree(pieces: seq<string>) { forall i :: 0 <= i < |pieces| ==> '|' !in pieces[i] }

  lemma {:induction false} SplitPieces(t: string)
    ensures var pieces := Split(t, '|'); pieces != [] && BarFree(pieces) && Join(pieces, "|") == t
  {
    if t != "" {
      SplitPieces(t[1..]);
      var rest := Split(t[1..], '|');
      var pieces := Split(t, '|');
      if t[0] == '|' {
        assert pieces[1..] == rest;
        assert Join(pieces, "|") == "" + "|" + t[1..];
        assert "|" == [t[0]];
      } else {
        assert pieces[0] == [t[0]] + rest[0] && pieces[1..] == rest[1..];
        if |rest| > 1 {
          Assoc4([t[0]], rest[0], "|", Join(rest[1..], "|"));
          Assoc(rest[0], "|", Join(rest[1..], "|"));
        }
      }
      assert t == [t[0]] + t[1..];
    }
  }

  /** Each piece is the literal of its action, in white space or not. */
  ghost predicate Pieces(pieces: seq<string>, actions: seq<string>) {
    |pieces| == |actions| && forall i :: 0 <= i < |pieces| ==> LiteralsText(pieces[i], [actions[i]])
  }

  lemma {:induction false} PiecesExactly(pieces: seq<string>, actions: seq<string>)
    ensures ParseStrings(TrimAll(pieces)) == Ok(actions) <==> Pieces(pieces, actions)
    decreases |pieces|
  {
    hide ParseString, Trim, LiteralsText;
    TrimAllCount(pieces);
    StringsCount(TrimAll(pieces));
    if pieces != [] && actions != [] {
      PieceExactly(pieces[0], actions[0]);
      PiecesExactly(pieces[1..], actions[1..]);
      assert TrimAll(pieces)[1..] == TrimAll(pieces[1..]);
      assert actions == [actions[0]] + actions[1..];
      PiecesFirst(pieces, actions);
    }
  }

  lemma PiecesFirst(pieces: seq<string>, actions: seq<string>)
    requires pieces != [] && actions != []
    ensures Pieces(pieces, actions) <==> LiteralsText(pieces[0], [actions[0]]) && Pieces(pieces[1..], actions[1..])
  {
    hide LiteralsText;
    assert forall i :: 0 <= i < |pieces[1..]| ==> pieces[1..][i] == pieces[i + 1];
    assert forall i :: 0 <= i < |actions[1..]| ==> actions[1..][i] == actions[i + 1];
    assert forall i :: 0 < i < |pieces| ==> pieces[i] == pieces[1..][i - 1];
    assert forall i :: 0 < i < |actions| ==> actions[i] == actions[1..][i - 1];
  }

  predicate Parenthesised(raw: string) { raw != "" && raw[0] == '(' && raw[|raw| - 1] == ')' }

  /** Pieces with bars between them, in parentheses or not. */
  ghost predicate ActionsText(raw: string, actions: seq<string>) {
    exists pieces ::
      && pieces != [] && BarFree(pieces) && Pieces(pieces, actions)
      && (if Parenthesised(raw) then raw == "(" + Join(pieces, "|") + ")" else raw == Join(pieces, "|"))
  }

  /** The parser reads actions from exactly the texts of those actions. */
  lemma ActionsExactly(raw: string, actions: seq<string>)
    ensures ParseActions(raw) == Ok(actions) <==> ActionsText(raw, actions)
  {
    hide ParseStrings, TrimAll, Pieces, Split, Join;
    var pieces := Split(ActionBody(raw), '|');
    PiecesExactly(pieces, actions);
    SplitPieces(ActionBody(raw));
    if ParseActions(raw) == Ok(actions) {
      if Parenthesised(raw) {
        assert raw == "(" + Inside(raw) + ")";
      }
      assert ActionsText(raw, actions);
    }
    if ActionsText(raw, actions) {
      var ps :|
        && ps != [] && BarFree(ps) && Pieces(ps, actions)
        && (if Parenthesised(raw) then raw == "(" + Join(ps, "|") + ")" else raw == Join(ps, "|"));
      assert ActionBody(raw) == Join(ps, "|");
      assert "|" == ['|'];
      SplitJoin(ps, '|');
    }
  }
}
