/** The policy text format: printer and parser of `ebnf.ts`. */
module Ebnf {
  import opened Text
  import Json
  import opened Scanner
  import Sorting

  datatype Effect = Allow | Deny

  datatype Condition =
    | Owner(subjectPath: string, resourcePath: string)
    | HasRole(roles: seq<string>)
    | HasScope(scopes: seq<string>)
    | Equals(path: string, value: Json.Value)

  datatype Rule = Rule(id: string, effect: Effect, actions: seq<string>, conditions: seq<Condition>)

  datatype Policy = Policy(name: string, resource: string, rules: seq<Rule>)

  datatype Document = Document(policies: seq<Policy>)

  /** The `SyntaxError`s the parser throws. */
  datatype Error =
    | MalformedString
    | UnsafePath
    | ExpectedPredicate
    | UnsupportedPredicate
    | MalformedEquals
    | MalformedJson
    | DuplicatePolicy
    | MalformedProduction
    | UnknownPolicy
    | EmptyRule
    | DuplicateRule
    | EmptyDocument

  datatype Result<+T> = Ok(value: T) | Err(error: Error)

  // ----- printer -----

  function Quotes(parts: seq<string>): (r: seq<string>)
    ensures |r| == |parts|
  {
    if parts == [] then [] else [Json.Quote(parts[0])] + Quotes(parts[1..])
  }

  function ConditionBody(c: Condition): string {
    match c
    case Owner(subject, resource) => "owner " + Json.Quote(subject) + " " + Json.Quote(resource)
    case HasRole(roles) => "has-role " + Join(Quotes(roles), " ")
    case HasScope(scopes) => "has-scope " + Join(Quotes(scopes), " ")
    case Equals(path, value) => "equals " + Json.Quote(path) + " " + Json.Print(value)
  }

  function PrintCondition(c: Condition): string { "? " + ConditionBody(c) + " ?" }

  function PrintConditions(cs: seq<Condition>): (r: seq<string>)
    ensures |r| == |cs|
  {
    if cs == [] then [] else [PrintCondition(cs[0])] + PrintConditions(cs[1..])
  }

  function PrintActions(actions: seq<string>): string {
    if |actions| == 1 then Json.Quote(actions[0]) else "(" + Join(Quotes(actions), " | ") + ")"
  }

  function PrintRhs(rule: Rule): string {
    Join([PrintActions(rule.actions)] + PrintConditions(rule.conditions), ",\n  ")
  }

  /** The rule id after its first dot, or all of it when there is none. */
  function MethodName(id: string): string {
    var n := Span(id, c => c != '.');
    if n == |id| then id else id[n + 1..]
  }

  function EffectName(effect: Effect): string { if effect.Allow? then "allow" else "deny" }

  function PolicyStatement(p: Policy): string { "policy " + p.name + " = " + Json.Quote(p.resource) }

  function RuleStatement(name: string, rule: Rule): string {
    EffectName(rule.effect) + " " + name + " " + MethodName(rule.id) + " =\n  " + PrintRhs(rule)
  }

  function RuleStatements(name: string, rules: seq<Rule>): seq<string> {
    if rules == [] then [] else [RuleStatement(name, rules[0])] + RuleStatements(name, rules[1..])
  }

  function Statements(policies: seq<Policy>): seq<string> {
    if policies == [] then []
    else
      [PolicyStatement(policies[0])] + RuleStatements(policies[0].name, policies[0].rules) + Statements(policies[1..])
  }

  function Blocks(statements: seq<string>): (r: seq<string>)
    ensures |r| == |statements|
  {
    if statements == [] then [] else [statements[0] + " ;"] + Blocks(statements[1..])
  }

  /** The order `localeCompare` puts strings in: `order(a, b)` when `a` does not come after `b`. */
  type Order = (string, string) -> bool

  function SortRules(policies: seq<Policy>, order: Order): (r: seq<Policy>)
    ensures |r| == |policies|
  {
    if policies == [] then []
    else
      var rules := Sorting.Sort(policies[0].rules, (a: Rule, b: Rule) => order(a.id, b.id));
      [policies[0].(rules := rules)] + SortRules(policies[1..], order)
  }

  /** Policies by name and, inside each, rules by id. */
  function SortDocument(document: Document, order: Order): Document {
    Document(SortRules(Sorting.Sort(document.policies, (a: Policy, b: Policy) => order(a.name, b.name)), order))
  }

  function PrintDocument(document: Document): string {
    Join(Blocks(Statements(document.policies)), "\n\n") + "\n"
  }

  function PrintPolicies(document: Document, order: Order): string {
    PrintDocument(SortDocument(document, order))
  }

  // ----- parser: strings, actions, conditions -----

  function ParseString(raw: string): Result<string> {
    match Json.Parse(raw)
    case Some(Str(s)) => Ok(s)
    case _ => Err(MalformedString)
  }

  function ParseStrings(raws: seq<string>): Result<seq<string>> {
    if raws == [] then Ok([])
    else
      match ParseString(raws[0])
      case Err(e) => Err(e)
      case Ok(s) =>
        match ParseStrings(raws[1..])
        case Err(e) => Err(e)
        case Ok(rest) => Ok([s] + rest)
  }

  /** `slice(1, -1)`. */
  function Inside(s: string): string { if |s| < 2 then "" else s[1..|s| - 1] }

  function ActionBody(raw: string): string {
    if raw != "" && raw[0] == '(' && raw[|raw| - 1] == ')' then Inside(raw) else raw
  }

  function ParseActions(raw: string): Result<seq<string>> {
    ParseStrings(TrimAll(Split(ActionBody(raw), '|')))
  }

  predicate IsLineEnd(c: char) { c == '\n' || c == '\r' || c as int == 0x2028 || c as int == 0x2029 }

  /** Length of `(?:\\.|[^"\\])*"` at the front of `t`. */
  function LiteralRest(t: string): (r: Option<nat>)
    ensures r.Some? ==> 0 < r.value <= |t|
  {
    if t == "" then None
    else if t[0] == '"' then Some(1)
    else if t[0] == '\\' then
      if |t| < 2 || IsLineEnd(t[1]) then None
      else
        match LiteralRest(t[2..])
        case None => None
        case Some(n) => Some(n + 2)
    else
      match LiteralRest(t[1..])
      case None => None
      case Some(n) => Some(n + 1)
  }

  /** Length of `"(?:\\.|[^"\\])*"` at the front of `t`. */
  function LiteralLength(t: string): (r: Option<nat>)
    ensures r.Some? ==> 1 < r.value <= |t|
  {
    if t == "" || t[0] != '"' then None
    else
      match LiteralRest(t[1..])
      case None => None
      case Some(n) => Some(n + 1)
  }

  predicate Solid(c: char) { !IsSpace(c) }

  /** Length of the token at the front of `t`, which does not start with white space. */
  function TokenLength(t: string): (n: nat)
    requires t != "" && !IsSpace(t[0])
    ensures 0 < n <= |t|
  {
    var literal := LiteralLength(t);
    if literal.Some? then literal.value
    else if "true" <= t then 4
    else if "false" <= t then 5
    else if "null" <= t then 4
    else
      var number := Json.NumberLength(t);
      if number > 0 then number else Span(t, Solid)
  }

  function Tokens(t: string): seq<string> {
    if t == "" then []
    else if IsSpace(t[0]) then Tokens(t[1..])
    else
      var n := TokenLength(t);
      [t[..n]] + Tokens(t[n..])
  }

  predicate IsPathStart(c: char) { IsIdentStart(c) || c == '$' }

  predicate IsPathPart(c: char) { IsIdentPart(c) || c == '$' }

  /** `(\.[A-Za-z_$][\w$]*)*`, the whole string. */
  predicate IsPathTail(t: string)
    decreases |t|
  {
    t == "" || (|t| > 1 && t[0] == '.' && IsPathStart(t[1]) && IsPathTail(t[2 + Span(t[2..], IsPathPart)..]))
  }

  /** `^(subject|resource)(\.[A-Za-z_$][\w$]*)+$`. */
  predicate IsSafePath(path: string) {
    ("subject" <= path && path[7..] != "" && IsPathTail(path[7..])) ||
    ("resource" <= path && path[8..] != "" && IsPathTail(path[8..]))
  }

  function ParsePath(raw: string): Result<string> {
    match ParseString(raw)
    case Err(e) => Err(e)
    case Ok(path) => if IsSafePath(path) then Ok(path) else Err(UnsafePath)
  }

  function ParseOwner(subject: string, resource: string): Result<Condition> {
    match ParsePath(subject)
    case Err(e) => Err(e)
    case Ok(s) =>
      match ParsePath(resource)
      case Err(e) => Err(e)
      case Ok(r) => Ok(Owner(s, r))
  }

  /** `text` is what follows the word `equals`, trimmed. */
  function ParseEquals(text: string): Result<Condition> {
    match LiteralLength(text)
    case None => Err(MalformedEquals)
    case Some(n) =>
      var value := TrimStart(text[n..]);
      if n == |text| || !IsSpace(text[n]) || value == "" then Err(MalformedEquals)
      else
        match ParsePath(text[..n])
        case Err(e) => Err(e)
        case Ok(path) =>
          match Json.Parse(value)
          case None => Err(MalformedJson)
          case Some(v) => Ok(Equals(path, v))
  }

  function ParseBody(body: string): Result<Condition> {
    var parts := Tokens(body);
    if parts == [] then Err(UnsupportedPredicate)
    else if parts[0] == "owner" && |parts| == 3 then ParseOwner(parts[1], parts[2])
    else if parts[0] == "has-role" && |parts| > 1 then
      match ParseStrings(parts[1..])
      case Err(e) => Err(e)
      case Ok(roles) => Ok(HasRole(roles))
    else if parts[0] == "has-scope" && |parts| > 1 then
      match ParseStrings(parts[1..])
      case Err(e) => Err(e)
      case Ok(scopes) => Ok(HasScope(scopes))
    else if parts[0] == "equals" then ParseEquals(Trim(if |body| < 6 then "" else body[6..]))
    else Err(UnsupportedPredicate)
  }

  function ParseCondition(raw: string): Result<Condition> {
    if raw == "" || raw[0] != '?' || raw[|raw| - 1] != '?' then Err(ExpectedPredicate)
    else ParseBody(Trim(Inside(raw)))
  }

  function ParseConditions(raws: seq<string>): Result<seq<Condition>> {
    if raws == [] then Ok([])
    else
      match ParseCondition(raws[0])
      case Err(e) => Err(e)
      case Ok(c) =>
        match ParseConditions(raws[1..])
        case Err(e) => Err(e)
        case Ok(rest) => Ok([c] + rest)
  }

  // ----- parser: statements -----

  /** `word\s+` at the front; what follows. */
  function AfterWord(t: string, word: string): Option<string> {
    if word <= t && |word| < |t| && IsSpace(t[|word|]) then Some(TrimStart(t[|word|..])) else None
  }

  /** An identifier at the front and what follows it. */
  function TakeIdent(t: string): Option<(string, string)> {
    if t == "" || !IsIdentStart(t[0]) then None
    else
      var n := Span(t, IsIdentPart);
      Some((t[..n], t[n..]))
  }

  /** `\s*=\s*` at the front; what follows. */
  function AfterEquals(t: string): Option<string> {
    var u := TrimStart(t);
    if u != "" && u[0] == '=' then Some(TrimStart(u[1..])) else None
  }

  /** `^policy\s+(IDENT)\s*=\s*(STRING)$`. */
  function PolicyHeader(statement: string): Option<(string, string)> {
    match AfterWord(statement, "policy")
    case None => None
    case Some(t) =>
      match TakeIdent(t)
      case None => None
      case Some((name, u)) =>
        match AfterEquals(u)
        case None => None
        case Some(literal) => if LiteralLength(literal) == Some(|literal|) then Some((name, literal)) else None
  }

  datatype Header = Header(effect: Effect, policy: string, verb: string, rhs: string)

  /** `(IDENT)\s+(IDENT)\s*=\s*([\s\S]+)$`. A trimmed statement leaves no all-blank right-hand side to match. */
  function HeaderRest(effect: Effect, t: string): Option<Header> {
    match TakeIdent(t)
    case None => None
    case Some((policy, u)) =>
      if u == "" || !IsSpace(u[0]) then None
      else
        match TakeIdent(TrimStart(u))
        case None => None
        case Some((verb, v)) =>
          match AfterEquals(v)
          case None => None
          case Some(rhs) => if rhs == "" then None else Some(Header(effect, policy, verb, rhs))
  }

  function RuleHeader(statement: string): Option<Header> {
    match AfterWord(statement, "allow")
    case Some(t) => HeaderRest(Allow, t)
    case None =>
      match AfterWord(statement, "deny")
      case Some(t) => HeaderRest(Deny, t)
      case None => None
  }

  /** What the loop over statements has gathered; policies in insertion order. */
  datatype State = State(policies: seq<Policy>, ids: set<string>)

  function Lookup(policies: seq<Policy>, name: string): (r: Option<nat>)
    ensures r.Some? ==> r.value < |policies| && policies[r.value].name == name
  {
    if policies == [] then None
    else if policies[0].name == name then Some(0)
    else
      match Lookup(policies[1..], name)
      case None => None
      case Some(k) => Some(k + 1)
  }

  predicate Clashes(policies: seq<Policy>, name: string, resource: string) {
    exists p <- policies :: p.name == name || p.resource == resource
  }

  function AddPolicy(st: State, name: string, literal: string): Result<State> {
    match ParseString(literal)
    case Err(e) => Err(e)
    case Ok(resource) =>
      if Clashes(st.policies, name, resource) then Err(DuplicatePolicy)
      else Ok(st.(policies := st.policies + [Policy(name, resource, [])]))
  }

  const TOP := Scan(START, false, 0)

  function ParseRule(h: Header): Result<Rule> {
    var fields := TrimAll(Fields(TOP, h.rhs));
    match ParseActions(fields[0])
    case Err(e) => Err(e)
    case Ok(actions) =>
      match ParseConditions(fields[1..])
      case Err(e) => Err(e)
      case Ok(conditions) => Ok(Rule(h.policy + "." + h.verb, h.effect, actions, conditions))
  }

  function AddRule(st: State, h: Header): Result<State> {
    match Lookup(st.policies, h.policy)
    case None => Err(UnknownPolicy)
    case Some(k) =>
      var id := h.policy + "." + h.verb;
      if TrimAll(Fields(TOP, h.rhs))[0] == "" then Err(EmptyRule)
      else if id in st.ids then Err(DuplicateRule)
      else
        match ParseRule(h)
        case Err(e) => Err(e)
        case Ok(rule) =>
          var owner := st.policies[k];
          Ok(State(st.policies[k := owner.(rules := owner.rules + [rule])], st.ids + {id}))
  }

  function Exec(st: State, statement: string): Result<State> {
    match PolicyHeader(statement)
    case Some((name, literal)) => AddPolicy(st, name, literal)
    case None =>
      match RuleHeader(statement)
      case None => Err(MalformedProduction)
      case Some(h) => AddRule(st, h)
  }

  function ExecAll(st: State, statements: seq<string>): Result<State>
    decreases statements
  {
    if statements == [] then Ok(st)
    else
      match Exec(st, statements[0])
      case Err(e) => Err(e)
      case Ok(st') => ExecAll(st', statements[1..])
  }

  function NonEmpty(parts: seq<string>): seq<string> {
    if parts == [] then []
    else if parts[0] == "" then NonEmpty(parts[1..])
    else [parts[0]] + NonEmpty(parts[1..])
  }

  function SplitStatements(clean: string): seq<string> {
    NonEmpty(TrimAll(Split(clean, ';')))
  }

  function Finish(r: Result<State>): Result<Document> {
    match r
    case Err(e) => Err(e)
    case Ok(st) => if st.policies == [] then Err(EmptyDocument) else Ok(Document(st.policies))
  }

  function Parse(source: string): Result<Document> {
    Finish(ExecAll(State([], {}), SplitStatements(Strip(START, source))))
  }
}
