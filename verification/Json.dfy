/** JSON text as `JSON.stringify` writes it and `JSON.parse` reads it, and the proof that they undo each other. */
module Json {
  import opened Text

  /** A JSON tree. A number is the decimal text ECMAScript prints for it; an object is its entries in order. */
  datatype Value =
    | Null
    | Bool(b: bool)
    | Number(lexeme: string)
    | Str(s: string)
    | Array(items: seq<Value>)
    | Object(members: seq<(string, Value)>)

  // ----- strings -----

  function HexDigit(d: nat): (c: char)
    requires d < 16
  {
    if d < 10 then '0' + d as char else 'a' + (d - 10) as char
  }

  function HexValue(c: char): Option<nat> {
    if '0' <= c <= '9' then Some(c as nat - '0' as nat)
    else if 'a' <= c <= 'f' then Some(c as nat - 'a' as nat + 10)
    else if 'A' <= c <= 'F' then Some(c as nat - 'A' as nat + 10)
    else None
  }

  /** The letter after the backslash for the control characters with a short escape. */
  function ShortEscape(c: char): Option<char> {
    if c == '"' then Some('"')
    else if c == '\\' then Some('\\')
    else if c as int == 8 then Some('b')
    else if c as int == 9 then Some('t')
    else if c as int == 10 then Some('n')
    else if c as int == 12 then Some('f')
    else if c as int == 13 then Some('r')
    else None
  }

  function ShortUnescape(c: char): Option<char> {
    if c == '"' || c == '\\' || c == '/' then Some(c)
    else if c == 'b' then Some(8 as char)
    else if c == 't' then Some(9 as char)
    else if c == 'n' then Some(10 as char)
    else if c == 'f' then Some(12 as char)
    else if c == 'r' then Some(13 as char)
    else None
  }

  function EscapeChar(c: char): (e: string)
    ensures |e| > 0
  {
    match ShortEscape(c)
    case Some(x) => ['\\', x]
    case None =>
      if c as int < 32 then ['\\', 'u', '0', '0', HexDigit(c as nat / 16), HexDigit(c as nat % 16)]
      else [c]
  }

  function Escaped(s: string): string {
    if s == "" then "" else EscapeChar(s[0]) + Escaped(s[1..])
  }

  function Quote(s: string): string { "\"" + Escaped(s) + "\"" }

  /** Four hexadecimal digits at the front of `t`. Surrogate code units have no `char`. */
  function ReadHex(t: string): (r: Option<char>)
    ensures r.Some? ==> |t| >= 4
  {
    if |t| < 4 then None
    else
      match (HexValue(t[0]), HexValue(t[1]), HexValue(t[2]), HexValue(t[3]))
      case (Some(a), Some(b), Some(c), Some(d)) =>
        var n := ((a * 16 + b) * 16 + c) * 16 + d;
        if n < 0xD800 || 0xE000 <= n < 0x10000 then Some(n as char) else None
      case _ => None
  }

  /** Decodes up to the closing quote; the opening quote is already read. */
  function ReadString(t: string): (r: Option<(string, string)>)
    ensures r.Some? ==> |r.value.1| < |t|
  {
    if t == "" then None
    else if t[0] == '"' then Some(("", t[1..]))
    else if t[0] == '\\' then
      if |t| < 2 then None
      else if t[1] == 'u' then
        match ReadHex(t[2..])
        case None => None
        case Some(c) => Prepend(c, ReadString(t[6..]))
      else
        match ShortUnescape(t[1])
        case None => None
        case Some(c) => Prepend(c, ReadString(t[2..]))
    else if t[0] as int < 32 then None
    else Prepend(t[0], ReadString(t[1..]))
  }

  function Prepend(c: char, r: Option<(string, string)>): Option<(string, string)> {
    match r
    case None => None
    case Some(p) => Some(([c] + p.0, p.1))
  }

  lemma HexRoundTrip(d: nat)
    requires d < 16
    ensures HexValue(HexDigit(d)) == Some(d)
  {
  }

  lemma ReadControl(c: char, rest: string)
    requires c as int < 32
    ensures ReadHex(['0', '0', HexDigit(c as nat / 16), HexDigit(c as nat % 16)] + rest) == Some(c)
  {
    HexRoundTrip(0);
    HexRoundTrip(c as nat / 16);
    HexRoundTrip(c as nat % 16);
  }

  lemma ReadEscapedChar(c: char, rest: string)
    ensures ReadString(EscapeChar(c) + rest) == Prepend(c, ReadString(rest))
  {
    var e := EscapeChar(c);
    var t := e + rest;
    assert t[|e|..] == rest && t[0] == e[0];
    if ShortEscape(c).Some? {
      assert t[1] == e[1] != 'u';
    } else if c as int < 32 {
      assert t[1] == 'u';
      assert t[2..] == e[2..] + rest;
      ReadControl(c, rest);
    }
  }

  /** Reading a quoted string gives it back and stops right after the closing quote. */
  lemma {:induction false} ReadEscaped(s: string, rest: string)
    ensures ReadString(Escaped(s) + "\"" + rest) == Some((s, rest))
  {
    if s == "" {
      assert Escaped(s) + "\"" + rest == "\"" + rest;
    } else {
      ReadEscaped(s[1..], rest);
      assert Escaped(s) + "\"" + rest == EscapeChar(s[0]) + (Escaped(s[1..]) + "\"" + rest);
      ReadEscapedChar(s[0], Escaped(s[1..]) + "\"" + rest);
      assert [s[0]] + s[1..] == s;
    }
  }

  /** The same, from the opening quote. */
  lemma ReadQuote(s: string, rest: string)
    ensures var t := Quote(s) + rest; t[0] == '"' && ReadString(t[1..]) == Some((s, rest))
  {
    assert (Quote(s) + rest)[1..] == Escaped(s) + "\"" + rest;
    ReadEscaped(s, rest);
  }

  // ----- numbers -----

  predicate IsNumberChar(c: char) { IsDigit(c) || c == '-' || c == '+' || c == '.' || c == 'e' || c == 'E' }

  /** The optional fraction and exponent of a JSON number, as the lengths they match at the front of `t`. */
  function FractionLength(t: string): (n: nat)
    ensures n <= |t|
  {
    if t != "" && t[0] == '.' then
      var d := Span(t[1..], IsDigit);
      if d > 0 then 1 + d else 0
    else 0
  }

  function ExponentLength(t: string): (n: nat)
    ensures n <= |t|
  {
    if t != "" && (t[0] == 'e' || t[0] == 'E') then
      var sign := if |t| > 1 && (t[1] == '+' || t[1] == '-') then 1 else 0;
      var d := Span(t[1 + sign..], IsDigit);
      if d > 0 then 1 + sign + d else 0
    else 0
  }

  /** Length of `-?(?:0|[1-9]\d*)(?:\.\d+)?(?:[eE][+-]?\d+)?` at the front of `t`; 0 when it does not match. */
  function NumberLength(t: string): (n: nat)
    ensures n <= |t|
  {
    var sign := if t != "" && t[0] == '-' then 1 else 0;
    if sign == |t| || !IsDigit(t[sign]) then 0
    else
      var whole := if t[sign] == '0' then 1 else Span(t[sign..], IsDigit);
      var fraction := FractionLength(t[sign + whole..]);
      sign + whole + fraction + ExponentLength(t[sign + whole + fraction..])
  }

  predicate IsNumber(t: string) {
    t != "" && NumberLength(t) == |t| && forall c <- t :: IsNumberChar(c)
  }

  // ----- values -----

  function Print(v: Value): string
    decreases v, 1
  {
    match v
    case Null => "null"
    case Bool(b) => if b then "true" else "false"
    case Number(lexeme) => lexeme
    case Str(s) => Quote(s)
    case Array(items) => "[" + PrintItems(items) + "]"
    case Object(members) => "{" + PrintMembers(members) + "}"
  }

  function PrintItems(items: seq<Value>): string
    decreases items, 0
  {
    if |items| == 0 then ""
    else if |items| == 1 then Print(items[0])
    else Print(items[0]) + "," + PrintItems(items[1..])
  }

  function PrintMember(member: (string, Value)): string
    decreases member, 0
  {
    Quote(member.0) + ":" + Print(member.1)
  }

  function PrintMembers(members: seq<(string, Value)>): string
    decreases members, 0
  {
    if |members| == 0 then ""
    else if |members| == 1 then PrintMember(members[0])
    else PrintMember(members[0]) + "," + PrintMembers(members[1..])
  }

  predicate IsWs(c: char) { c as int == 32 || c as int == 9 || c as int == 10 || c as int == 13 }

  function SkipWs(t: string): (r: string)
    ensures |r| <= |t|
  {
    if t != "" && IsWs(t[0]) then SkipWs(t[1..]) else t
  }

  /** Assigning an entry the way an object literal does: the last value wins, in the first place. */
  function Assign(members: seq<(string, Value)>, key: string, v: Value): seq<(string, Value)> {
    if members == [] then [(key, v)]
    else if members[0].0 == key then [(key, v)] + members[1..]
    else [members[0]] + Assign(members[1..], key, v)
  }

  function AssignAll(members: seq<(string, Value)>, more: seq<(string, Value)>): seq<(string, Value)>
    decreases more
  {
    if more == [] then members else AssignAll(Assign(members, more[0].0, more[0].1), more[1..])
  }

  function ReadWord(word: string, v: Value, t: string): (r: Option<(Value, string)>)
    ensures r.Some? ==> word <= t && r.value == (v, t[|word|..])
  {
    if word <= t then Some((v, t[|word|..])) else None
  }

  function ParseValue(text: string): (r: Option<(Value, string)>)
    ensures r.Some? ==> |r.value.1| < |text|
    decreases |text|, 1
  {
    var t := SkipWs(text);
    if t == "" then None
    else if t[0] == 'n' then ReadWord("null", Null, t)
    else if t[0] == 't' then ReadWord("true", Bool(true), t)
    else if t[0] == 'f' then ReadWord("false", Bool(false), t)
    else if t[0] == '"' then
      match ReadString(t[1..])
      case None => None
      case Some(p) => Some((Str(p.0), p.1))
    else if t[0] == '[' then
      var u := SkipWs(t[1..]);
      if u != "" && u[0] == ']' then Some((Array([]), u[1..]))
      else
        match ParseItems(u)
        case None => None
        case Some(p) => Some((Array(p.0), p.1))
    else if t[0] == '{' then
      var u := SkipWs(t[1..]);
      if u != "" && u[0] == '}' then Some((Object([]), u[1..]))
      else
        match ParseMembers(u)
        case None => None
        case Some(p) => Some((Object(AssignAll([], p.0)), p.1))
    else
      var n := Span(t, IsNumberChar);
      if IsNumber(t[..n]) then Some((Number(t[..n]), t[n..])) else None
  }

  /** One or more elements and the closing bracket. */
  function ParseItems(t: string): (r: Option<(seq<Value>, string)>)
    ensures r.Some? ==> |r.value.1| < |t|
    decreases |t|, 2
  {
    match ParseValue(t)
    case None => None
    case Some((v, after)) =>
      var u := SkipWs(after);
      if u == "" then None
      else if u[0] == ']' then Some(([v], u[1..]))
      else if u[0] == ',' then
        match ParseItems(u[1..])
        case None => None
        case Some(p) => Some(([v] + p.0, p.1))
      else None
  }

  function ParseMember(text: string): (r: Option<((string, Value), string)>)
    ensures r.Some? ==> |r.value.1| < |text|
    decreases |text|, 2
  {
    var t := SkipWs(text);
    if t == "" || t[0] != '"' then None
    else
      match ReadString(t[1..])
      case None => None
      case Some((key, after)) =>
        var u := SkipWs(after);
        if u == "" || u[0] != ':' then None
        else
          match ParseValue(u[1..])
          case None => None
          case Some(p) => Some(((key, p.0), p.1))
  }

  /** One or more members and the closing brace. */
  function ParseMembers(t: string): (r: Option<(seq<(string, Value)>, string)>)
    ensures r.Some? ==> |r.value.1| < |t|
    decreases |t|, 3
  {
    match ParseMember(t)
    case None => None
    case Some((member, after)) =>
      var u := SkipWs(after);
      if u == "" then None
      else if u[0] == '}' then Some(([member], u[1..]))
      else if u[0] == ',' then
        match ParseMembers(u[1..])
        case None => None
        case Some(p) => Some(([member] + p.0, p.1))
      else None
  }

  /** `JSON.parse`; `None` stands for the exception. */
  function Parse(text: string): Option<Value> {
    match ParseValue(text)
    case None => None
    case Some((v, rest)) => if SkipWs(rest) == "" then Some(v) else None
  }

  // ----- round trip -----

  /** Trees a program value can be: number texts are numbers and keys are distinct. */
  predicate Valid(v: Value)
    decreases v, 1
  {
    match v
    case Null => true
    case Bool(_) => true
    case Number(lexeme) => IsNumber(lexeme)
    case Str(_) => true
    case Array(items) => ValidItems(items)
    case Object(members) => ValidMembers(members) && DistinctKeys(members)
  }

  predicate ValidItems(items: seq<Value>)
    decreases items, 0
  {
    items == [] || (Valid(items[0]) && ValidItems(items[1..]))
  }

  predicate ValidMembers(members: seq<(string, Value)>)
    decreases members, 0
  {
    members == [] || (ValidMember(members[0]) && ValidMembers(members[1..]))
  }

  predicate ValidMember(member: (string, Value))
    decreases member, 0
  {
    Valid(member.1)
  }

  predicate DistinctKeys(members: seq<(string, Value)>) {
    forall i, j :: 0 <= i < j < |members| ==> members[i].0 != members[j].0
  }

  lemma {:induction false} AssignFresh(members: seq<(string, Value)>, key: string, v: Value)
    requires forall i :: 0 <= i < |members| ==> members[i].0 != key
    ensures Assign(members, key, v) == members + [(key, v)]
  {
    if members != [] {
      AssignFresh(members[1..], key, v);
    }
  }

  lemma {:induction false} AssignAllDistinct(members: seq<(string, Value)>, more: seq<(string, Value)>)
    requires DistinctKeys(members + more)
    ensures AssignAll(members, more) == members + more
    decreases more
  {
    if more == [] {
      assert members + more == members;
    } else {
      forall i | 0 <= i < |members| ensures members[i].0 != more[0].0 {
        assert (members + more)[i] == members[i] && (members + more)[|members|] == more[0];
      }
      AssignFresh(members, more[0].0, more[0].1);
      assert (more[0].0, more[0].1) == more[0];
      assert members + [more[0]] + more[1..] == members + more;
      AssignAllDistinct(members + [more[0]], more[1..]);
    }
  }

  /** The text after a number must not continue it. */
  predicate Stops(rest: string) { rest == "" || !IsNumberChar(rest[0]) }

  lemma NumberFront(lexeme: string, rest: string)
    requires IsNumber(lexeme) && Stops(rest)
    ensures ParseValue(lexeme + rest) == Some((Number(lexeme), rest))
  {
    var t := lexeme + rest;
    assert t[0] == lexeme[0] && IsNumberChar(lexeme[0]);
    assert IsDigit(lexeme[0]) || lexeme[0] == '-';
    SpanAppend(lexeme, rest, IsNumberChar);
    assert t[..|lexeme|] == lexeme && t[|lexeme|..] == rest;
  }

  lemma StringFront(s: string, rest: string)
    ensures ParseValue(Quote(s) + rest) == Some((Str(s), rest))
  {
    ReadQuote(s, rest);
  }

  lemma PrintFirst(v: Value)
    requires Valid(v)
    ensures Print(v) != "" && !IsWs(Print(v)[0]) && Print(v)[0] != ']'
  {
    match v
    case Number(lexeme) => assert IsNumberChar(lexeme[0]);
    case _ =>
  }

  lemma WordFront(v: Value, rest: string)
    requires v.Null? || v.Bool?
    ensures ParseValue(Print(v) + rest) == Some((v, rest))
  {
    var word := Print(v);
    var t := word + rest;
    assert t[0] == word[0] && word <= t && t[|word|..] == rest;
  }

  lemma ArrayFront(items: seq<Value>, body: string, rest: string)
    requires body != "" && !IsWs(body[0]) && body[0] != ']'
    requires ParseItems(body) == Some((items, rest))
    ensures ParseValue("[" + body) == Some((Array(items), rest))
  {
    assert ("[" + body)[1..] == body;
  }

  lemma ObjectFront(members: seq<(string, Value)>, body: string, rest: string)
    requires body != "" && body[0] == '"'
    requires ParseMembers(body) == Some((members, rest))
    ensures ParseValue("{" + body) == Some((Object(AssignAll([], members)), rest))
  {
    assert ("{" + body)[1..] == body;
  }

  /** `JSON.parse` undoes `JSON.stringify`, whatever text follows. */
  lemma {:induction false} ParsePrint(v: Value, rest: string)
    requires Valid(v) && Stops(rest)
    ensures ParseValue(Print(v) + rest) == Some((v, rest))
    decreases v, 1
  {
    match v
    case Null => WordFront(v, rest);
    case Bool(b) => WordFront(v, rest);
    case Number(lexeme) => NumberFront(lexeme, rest);
    case Str(s) => StringFront(s, rest);
    case Array(items) => if items == [] { EmptyFront(rest); } else { ParsePrintArray(items, rest); }
    case Object(members) => if members == [] { EmptyFront(rest); } else { ParsePrintObject(members, rest); }
  }

  lemma EmptyFront(rest: string)
    ensures ParseValue(Print(Array([])) + rest) == Some((Array([]), rest))
    ensures ParseValue(Print(Object([])) + rest) == Some((Object([]), rest))
  {
    var t, u := Print(Array([])) + rest, Print(Object([])) + rest;
    assert t[1..] == "]" + rest && t[1..][1..] == rest;
    assert u[1..] == "}" + rest && u[1..][1..] == rest;
  }

  lemma {:induction false} ParsePrintArray(items: seq<Value>, rest: string)
    requires items != [] && ValidItems(items)
    ensures ParseValue(Print(Array(items)) + rest) == Some((Array(items), rest))
    decreases items, 1
  {
    var body := PrintItems(items) + "]" + rest;
    PrintFirst(items[0]);
    assert body[0] == Print(items[0])[0];
    ParsePrintItems(items, rest);
    ArrayFront(items, body, rest);
    assert Print(Array(items)) + rest == "[" + body;
  }

  lemma {:induction false} ParsePrintObject(members: seq<(string, Value)>, rest: string)
    requires members != [] && ValidMembers(members) && DistinctKeys(members)
    ensures ParseValue(Print(Object(members)) + rest) == Some((Object(members), rest))
    decreases members, 1
  {
    var body := PrintMembers(members) + "}" + rest;
    MembersFirst(members);
    ParsePrintMembers(members, rest);
    ObjectFront(members, body, rest);
    assert [] + members == members;
    AssignAllDistinct([], members);
    Assoc4("{", PrintMembers(members), "}", rest);
    Assoc(PrintMembers(members), "}", rest);
  }

  lemma MembersFirst(members: seq<(string, Value)>)
    requires members != []
    ensures PrintMembers(members) != "" && PrintMembers(members)[0] == '"'
  {
    assert PrintMember(members[0])[0] == '"';
  }

  lemma ItemsFront(text: string, item: Value, more: seq<Value>, u: string, rest: string)
    requires ParseValue(text) == Some((item, u))
    requires more == [] ==> u == "]" + rest
    requires more != [] ==> u != "" && u[0] == ',' && ParseItems(u[1..]) == Some((more, rest))
    ensures ParseItems(text) == Some(([item] + more, rest))
  {
    assert u != "" && SkipWs(u) == u;
    if more == [] {
      assert u[1..] == rest && [item] + more == [item];
    }
  }

  lemma {:induction false} ParsePrintItems(items: seq<Value>, rest: string)
    requires items != [] && ValidItems(items)
    ensures ParseItems(PrintItems(items) + "]" + rest) == Some((items, rest))
    decreases items, 0
  {
    var more := items[1..];
    var tail := PrintItems(more) + "]" + rest;
    var u := if more == [] then "]" + rest else "," + tail;
    assert PrintItems(items) + "]" + rest == Print(items[0]) + u;
    ParsePrint(items[0], u);
    if more != [] {
      ParsePrintItems(more, rest);
      assert u[1..] == tail;
    }
    ItemsFront(Print(items[0]) + u, items[0], more, u, rest);
    assert [items[0]] + more == items;
  }

  lemma MemberFront(t: string, key: string, u: string, v: Value, rest: string)
    requires t != "" && t[0] == '"' && ReadString(t[1..]) == Some((key, u))
    requires u != "" && u[0] == ':' && ParseValue(u[1..]) == Some((v, rest))
    ensures ParseMember(t) == Some(((key, v), rest))
  {
    assert SkipWs(t) == t && SkipWs(u) == u;
  }

  lemma MemberText(key: string, text: string, v: Value, rest: string)
    requires ParseValue(text + rest) == Some((v, rest))
    ensures ParseMember(Quote(key) + ":" + text + rest) == Some(((key, v), rest))
  {
    var u := ":" + (text + rest);
    ReadQuote(key, u);
    assert u[1..] == text + rest;
    MemberFront(Quote(key) + u, key, u, v, rest);
    Assoc4(Quote(key), ":", text, rest);
  }

  lemma {:induction false} ParsePrintMember(member: (string, Value), rest: string)
    requires ValidMember(member) && Stops(rest)
    ensures ParseMember(PrintMember(member) + rest) == Some((member, rest))
    decreases member, 0
  {
    ParsePrint(member.1, rest);
    MemberText(member.0, Print(member.1), member.1, rest);
  }

  lemma MembersFront(text: string, member: (string, Value), more: seq<(string, Value)>, u: string, rest: string)
    requires ParseMember(text) == Some((member, u))
    requires more == [] ==> u == "}" + rest
    requires more != [] ==> u != "" && u[0] == ',' && ParseMembers(u[1..]) == Some((more, rest))
    ensures ParseMembers(text) == Some(([member] + more, rest))
  {
    assert u != "" && SkipWs(u) == u;
    if more == [] {
      assert u[1..] == rest && [member] + more == [member];
    }
  }

  lemma {:induction false} ParsePrintMembers(members: seq<(string, Value)>, rest: string)
    requires members != [] && ValidMembers(members)
    ensures ParseMembers(PrintMembers(members) + "}" + rest) == Some((members, rest))
    decreases members, 0
  {
    var more := members[1..];
    var tail := PrintMembers(more) + "}" + rest;
    var u := if more == [] then "}" + rest else "," + tail;
    assert PrintMembers(members) + "}" + rest == PrintMember(members[0]) + u;
    ParsePrintMember(members[0], u);
    if more != [] {
      ParsePrintMembers(more, rest);
      assert u[1..] == tail;
    }
    MembersFront(PrintMember(members[0]) + u, members[0], more, u, rest);
    assert [members[0]] + more == members;
  }

  lemma RoundTrip(v: Value)
    requires Valid(v)
    ensures Parse(Print(v)) == Some(v)
  {
    assert Print(v) + "" == Print(v);
    ParsePrint(v, "");
  }

  // ----- what is read is a tree a program value can be -----

  predicate HasKey(members: seq<(string, Value)>, key: string) {
    exists i :: 0 <= i < |members| && members[i].0 == key
  }

  lemma DistinctFirst(members: seq<(string, Value)>)
    requires members != []
    ensures DistinctKeys(members) <==> DistinctKeys(members[1..]) && !HasKey(members[1..], members[0].0)
  {
    assert forall i :: 0 <= i < |members[1..]| ==> members[1..][i] == members[i + 1];
    assert forall i :: 0 < i < |members| ==> members[i] == members[1..][i - 1];
  }

  lemma KeysFirst(members: seq<(string, Value)>, key: string)
    requires members != []
    ensures HasKey(members, key) <==> members[0].0 == key || HasKey(members[1..], key)
  {
    assert forall i :: 0 <= i < |members[1..]| ==> members[1..][i] == members[i + 1];
    assert forall i :: 0 < i < |members| ==> members[i] == members[1..][i - 1];
  }

  /** Assigning keeps keys distinct and adds the key that is assigned. */
  lemma {:induction false} AssignKeeps(members: seq<(string, Value)>, key: string, v: Value)
    requires ValidMembers(members) && DistinctKeys(members) && Valid(v)
    ensures ValidMembers(Assign(members, key, v)) && DistinctKeys(Assign(members, key, v))
    ensures forall k :: HasKey(Assign(members, key, v), k) <==> k == key || HasKey(members, k)
  {
    hide DistinctKeys, HasKey, Valid;
    var r := Assign(members, key, v);
    if members == [] {
      OneMember(key, v);
    } else {
      DistinctFirst(members);
      if members[0].0 == key {
        assert r[1..] == members[1..] && r[0] == (key, v);
      } else {
        AssignKeeps(members[1..], key, v);
        assert r[1..] == Assign(members[1..], key, v) && r[0] == members[0];
      }
      DistinctFirst(r);
      forall k ensures HasKey(r, k) <==> k == key || HasKey(members, k) {
        KeysFirst(members, k);
        KeysFirst(r, k);
      }
    }
  }

  lemma OneMember(key: string, v: Value)
    ensures DistinctKeys([]) && DistinctKeys([(key, v)])
    ensures forall k :: !HasKey([], k) && (HasKey([(key, v)], k) <==> k == key)
    ensures ValidMembers([(key, v)]) <==> Valid(v)
  {
    hide Valid;
    var one := [(key, v)];
    assert one[0] == (key, v) && one[1..] == [];
    assert ValidMember(one[0]) <==> Valid(v);
  }

  lemma {:induction false} AssignAllKeeps(members: seq<(string, Value)>, more: seq<(string, Value)>)
    requires ValidMembers(members) && DistinctKeys(members) && ValidMembers(more)
    ensures ValidMembers(AssignAll(members, more)) && DistinctKeys(AssignAll(members, more))
    decreases more
  {
    hide DistinctKeys, Valid, Assign;
    if more != [] {
      AssignKeeps(members, more[0].0, more[0].1);
      AssignAllKeeps(Assign(members, more[0].0, more[0].1), more[1..]);
    }
  }

  /** Number texts are numbers and keys are distinct in whatever is read. */
  lemma {:induction false} ReadValid(text: string)
    ensures ParseValue(text).Some? ==> Valid(ParseValue(text).value.0)
    decreases |text|, 1
  {
    hide IsNumber, ReadString, ParseItems, ParseMembers, AssignAll, DistinctKeys;
    var t := SkipWs(text);
    if t != "" && t[0] == '[' {
      var u := SkipWs(t[1..]);
      ReadItemsValid(u);
    } else if t != "" && t[0] == '{' {
      var u := SkipWs(t[1..]);
      ReadMembersValid(u);
      OneMember("", Null);
      if ParseMembers(u).Some? {
        AssignAllKeeps([], ParseMembers(u).value.0);
      }
    }
  }

  lemma {:induction false} ReadItemsValid(t: string)
    ensures ParseItems(t).Some? ==> ValidItems(ParseItems(t).value.0)
    decreases |t|, 2
  {
    hide ParseValue, Valid;
    ReadValid(t);
    match ParseValue(t)
    case None =>
    case Some((v, after)) =>
      var u := SkipWs(after);
      if u != "" && u[0] == ',' {
        ReadItemsValid(u[1..]);
      }
  }

  lemma {:induction false} ReadMemberValid(text: string)
    ensures ParseMember(text).Some? ==> ValidMember(ParseMember(text).value.0)
    decreases |text|, 2
  {
    hide ParseValue, Valid, ReadString;
    var t := SkipWs(text);
    if t != "" && t[0] == '"' {
      match ReadString(t[1..])
      case None =>
      case Some((key, after)) =>
        var u := SkipWs(after);
        if u != "" && u[0] == ':' {
          ReadValid(u[1..]);
        }
    }
  }

  lemma {:induction false} ReadMembersValid(t: string)
    ensures ParseMembers(t).Some? ==> ValidMembers(ParseMembers(t).value.0)
    decreases |t|, 3
  {
    hide ParseMember, ValidMember;
    ReadMemberValid(t);
    match ParseMember(t)
    case None =>
    case Some((member, after)) =>
      var u := SkipWs(after);
      if u != "" && u[0] == ',' {
        ReadMembersValid(u[1..]);
      }
  }
}
