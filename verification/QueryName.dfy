/**
 * Derived queries: a repository method name read as a query plan, and the
 * names that are read back as the plan they were written for.
 */
module QueryName {
  import opened Text
  import opened Keywords
  import Numerals

  datatype Kind = Query | Exists | Count | Delete

  datatype Condition = Condition(property: string, operator: Operator, ignoreCase: bool, argCount: nat)

  datatype Combinator = And | Or

  datatype Order = Order(property: string, descending: bool)

  datatype Subject = Subject(kind: Kind, distinct: bool, limit: Option<nat>, singleResult: bool)

  datatype Predicate = Predicate(conditions: seq<Condition>, combinators: seq<Combinator>)

  datatype Plan = Plan(subject: Subject, matching: Predicate, orderBy: seq<Order>)

  /** `InvalidLimit` is the error thrown for `First0` and the like, `NotDerivable` the null result. */
  datatype Result<T> = Parsed(value: T) | NotDerivable | InvalidLimit

  // ----- finding words -----

  predicate At(s: string, w: string, i: nat) { i + |w| <= |s| && s[i..i + |w|] == w }

  /** A character a new word can start with. */
  predicate IsHump(c: char) { IsUpper(c) || c == '_' }

  predicate WordAt(s: string, w: string, i: nat) { At(s, w, i) && i + |w| < |s| && IsHump(s[i + |w|]) }

  predicate LastWordAt(s: string, w: string, i: nat) { At(s, w, i) && (i + |w| < |s| ==> IsHump(s[i + |w|])) }

  function FindWord(s: string, w: string, from: nat): int
    decreases |s| - from
  {
    if from >= |s| then -1 else if WordAt(s, w, from) then from else FindWord(s, w, from + 1)
  }

  function Conn(c: Combinator): string { match c case And => "And" case Or => "Or" }

  function FindConnective(s: string, from: nat): int
    decreases |s| - from
  {
    if from >= |s| then -1
    else if WordAt(s, "And", from) || WordAt(s, "Or", from) then from
    else FindConnective(s, from + 1)
  }

  // ----- the subject -----

  function Introduced(s: string): Option<(Kind, string)> {
    if At(s, "find", 0) then Some((Query, s[4..]))
    else if At(s, "read", 0) then Some((Query, s[4..]))
    else if At(s, "get", 0) then Some((Query, s[3..]))
    else if At(s, "query", 0) then Some((Query, s[5..]))
    else if At(s, "search", 0) then Some((Query, s[6..]))
    else if At(s, "stream", 0) then Some((Query, s[6..]))
    else if At(s, "exists", 0) then Some((Exists, s[6..]))
    else if At(s, "count", 0) then Some((Count, s[5..]))
    else if At(s, "delete", 0) then Some((Delete, s[6..]))
    else if At(s, "remove", 0) then Some((Delete, s[6..]))
    else None
  }

  /**
   * The next `Distinct`, `First` or `Top` token at the start of `s`: its length, and its limit unless it is `Distinct`.
   */
  function TokenAt(s: string): (r: Option<(nat, Option<nat>)>)
    ensures r.Some? ==> 0 < r.value.0 <= |s|
  {
    if At(s, "Distinct", 0) then Some((8, None))
    else if At(s, "First", 0) then Some((5 + Span(s[5..], IsDigit), Some(LimitOf(s[5..]))))
    else if At(s, "Top", 0) then Some((3 + Span(s[3..], IsDigit), Some(LimitOf(s[3..]))))
    else None
  }

  /** The number at the start of `s`, one if there is none. */
  function LimitOf(s: string): nat {
    var n := Span(s, IsDigit);
    if n == 0 then 1 else Numerals.FromDigits(s[..n])
  }

  /** What the tokens of `rest` add to the subject read so far. */
  function SubjectTokens(rest: string, subject: Subject): Result<Subject>
    decreases |rest|
  {
    if rest == "" then Parsed(subject)
    else match TokenAt(rest)
      case None => SubjectTokens(rest[1..], subject)
      case Some((length, None)) => SubjectTokens(rest[length..], subject.(distinct := true))
      case Some((length, Some(n))) =>
        if n < 1 then InvalidLimit
        else SubjectTokens(rest[length..], subject.(limit := Some(n), singleResult := subject.singleResult || n == 1))
  }

  function ParseSubject(text: string): Result<Subject> {
    match Introduced(text)
    case None => NotDerivable
    case Some((kind, rest)) =>
      match SubjectTokens(rest, Subject(kind, false, None, false))
      case Parsed(subject) => Parsed(if kind == Query then subject else subject.(singleResult := false))
      case other => other
  }

  lemma SubjectStep(rest: string, i: nat, subject: Subject)
    requires i < |rest|
    ensures var token := TokenAt(rest[i..]);
      match token
      case None => SubjectTokens(rest[i..], subject) == SubjectTokens(rest[i + 1..], subject)
      case Some((length, None)) =>
        SubjectTokens(rest[i..], subject) == SubjectTokens(rest[i + length..], subject.(distinct := true))
      case Some((length, Some(n))) =>
        if n < 1 then SubjectTokens(rest[i..], subject) == InvalidLimit
        else
          SubjectTokens(rest[i..], subject) ==
            SubjectTokens(rest[i + length..],
            subject.(limit := Some(n), singleResult := subject.singleResult || n == 1))
  {
    hide TokenAt;
    assert rest[i..][1..] == rest[i + 1..];
    match TokenAt(rest[i..])
    case None =>
    case Some((length, limit)) => assert rest[i..][length..] == rest[i + length..];
  }

  method ReadSubject(text: string) returns (r: Result<Subject>)
    ensures r == ParseSubject(text)
  {
    var intro := Introduced(text);
    if intro.None? {
      return NotDerivable;
    }
    var (kind, rest) := intro.value;
    hide TokenAt, SubjectTokens, Introduced;
    var subject := Subject(kind, false, None, false);
    ghost var all := SubjectTokens(rest, subject);
    var i := 0;
    assert rest[0..] == rest;
    while i < |rest|
      invariant i <= |rest| && SubjectTokens(rest[i..], subject) == all
    {
      SubjectStep(rest, i, subject);
      var token := TokenAt(rest[i..]);
      match token {
        case None =>
          i := i + 1;
        case Some((length, None)) =>
          subject := subject.(distinct := true);
          i := i + length;
        case Some((length, Some(n))) =>
          if n < 1 {
            return InvalidLimit;
          }
          subject := subject.(limit := Some(n), singleResult := subject.singleResult || n == 1);
          i := i + length;
      }
    }
    NoTokens(rest[i..], subject);
    return Parsed(if kind == Query then subject else subject.(singleResult := false));
  }

  lemma NoTokens(rest: string, subject: Subject)
    requires rest == ""
    ensures SubjectTokens(rest, subject) == Parsed(subject)
  {
  }

  // ----- property paths -----

  function Uncapitalize(s: string): string {
    if s != "" && IsUpper(s[0]) then [(s[0] as int + 32) as char] + s[1..] else s
  }

  function Capitalize(s: string): string {
    if s != "" && IsLower(s[0]) then [(s[0] as int - 32) as char] + s[1..] else s
  }

  function PathParts(parts: seq<string>): seq<string> {
    if parts == [] then [] else (if parts[0] == "" then [] else [Uncapitalize(parts[0])]) + PathParts(parts[1..])
  }

  /** `LastName` is `lastName`, `Address_ZipCode` is `address.zipCode`. */
  function PropertyPath(raw: string): string { Join(PathParts(Split(raw, '_')), ".") }

  // ----- conditions -----

  function Unsuffixed(s: string, suffix: string): string
    requires EndsWith(s, suffix)
  {
    s[..|s| - |suffix|]
  }

  function ParseCondition(segment: string, all: bool): Condition {
    if EndsWith(segment, "IgnoreCase") then KeywordCondition(Unsuffixed(segment, "IgnoreCase"), true)
    else if EndsWith(segment, "IgnoringCase") then KeywordCondition(Unsuffixed(segment, "IgnoringCase"), true)
    else KeywordCondition(segment, all)
  }

  function KeywordCondition(s: string, ignoreCase: bool): Condition {
    var k := FirstMatch(s, 0);
    if k < 0 then Condition(PropertyPath(s), Eq, ignoreCase, 1)
    else
      FirstMatchIs(s, 0);
      var keyword := KeywordAt(k);
      Condition(PropertyPath(Unsuffixed(s, keyword.suffix)), keyword.operator, ignoreCase, keyword.argCount)
  }

  // ----- the predicate -----

  /** The text without its `AllIgnoreCase` and `AllIgnoringCase`. */
  function Unflag(s: string): string {
    if s == "" then ""
    else if At(s, "AllIgnoreCase", 0) then Unflag(s[13..])
    else if At(s, "AllIgnoringCase", 0) then Unflag(s[15..])
    else [s[0]] + Unflag(s[1..])
  }

  predicate Flagged(s: string) {
    s != "" && (At(s, "AllIgnoreCase", 0) || At(s, "AllIgnoringCase", 0) || Flagged(s[1..]))
  }

  datatype Pieces = Pieces(segments: seq<string>, combinators: seq<Combinator>)

  function Put(segment: string, c: Combinator, rest: Pieces): Pieces {
    Pieces([segment] + rest.segments, [c] + rest.combinators)
  }

  /** The connective that starts at `i`. */
  function ConnectiveAt(text: string, i: nat): Combinator { if WordAt(text, "And", i) then And else Or }

  /** Where the text goes on behind the connective at `i`. */
  function Behind(text: string, i: nat): nat { i + |Conn(ConnectiveAt(text, i))| }

  function SplitAndOr(text: string): Pieces
    decreases |text|
  {
    var i := FindConnective(text, 0);
    if i < 0 then Pieces([text], [])
    else
      FindConnectiveIs(text, 0);
      Put(Slice(text, 0, i), ConnectiveAt(text, i), SplitAndOr(From(text, Behind(text, i))))
  }

  lemma {:induction false} FindConnectiveIs(s: string, from: nat)
    ensures var i := FindConnective(s, from);
      && (i == -1 || (from <= i < |s| && (WordAt(s, "And", i) || WordAt(s, "Or", i))))
      && forall j: nat :: from <= j < (if i == -1 then |s| else i) ==> !WordAt(s, "And", j) && !WordAt(s, "Or", j)
    decreases |s| - from
  {
    hide WordAt;
    if from < |s| && !WordAt(s, "And", from) && !WordAt(s, "Or", from) {
      FindConnectiveIs(s, from + 1);
    }
  }

  /** From a position on, searching the whole text is searching the rest of it. */
  lemma {:induction false} FindConnectiveLater(s: string, last: nat, from: nat)
    requires last + from <= |s|
    ensures FindConnective(s, last + from) ==
      (if FindConnective(From(s, last), from) < 0 then -1 else last + FindConnective(From(s, last), from))
    decreases |s| - from
  {
    if last + from < |s| {
      WordLater(s, "And", last, from);
      WordLater(s, "Or", last, from);
      FindConnectiveLater(s, last, from + 1);
    }
  }

  lemma BehindFits(s: string, from: nat)
    ensures var i := FindConnective(s, from); i == -1 || (from <= i < Behind(s, i) <= |s|)
  {
    FindConnectiveIs(s, from);
  }

  lemma AtLater(s: string, w: string, last: nat, i: nat)
    requires last + i <= |s|
    ensures At(s[last..], w, i) == At(s, w, last + i)
  {
    if last + i + |w| <= |s| {
      assert s[last..][i..i + |w|] == s[last + i..last + i + |w|];
    }
  }

  lemma WordLater(s: string, w: string, last: nat, i: nat)
    requires last + i <= |s|
    ensures WordAt(s[last..], w, i) == WordAt(s, w, last + i)
  {
    AtLater(s, w, last, i);
  }

  lemma SplitUnfold(t: string)
    ensures var m := FindConnective(t, 0);
      if m < 0 then SplitAndOr(t) == Pieces([t], [])
      else
        Behind(t, m) <= |t| &&
          SplitAndOr(t) == Put(Slice(t, 0, m), ConnectiveAt(t, m), SplitAndOr(From(t, Behind(t, m))))
  {
    FindConnectiveIs(t, 0);
  }

  lemma NextSegment(text: string, last: nat)
    requires last <= |text| && FindConnective(text, last) >= 0
    ensures var m := FindConnective(text, last);
      && last <= m < Behind(text, m) <= |text|
      && SplitAndOr(From(text, last)) ==
          Put(Slice(text, last, m), ConnectiveAt(text, m), SplitAndOr(From(text, Behind(text, m))))
  {
    hide *;
    var t := From(text, last);
    SplitUnfold(t);
    FindConnectiveLater(text, last, 0);
    BehindFits(t, 0);
    var i: nat := FindConnective(t, 0);
    ConnectiveLater(text, last, i);
    Drops(text, last, i, Behind(t, i) - i);
  }

  lemma LastSegment(text: string, last: nat)
    requires last <= |text| && FindConnective(text, last) < 0
    ensures SplitAndOr(From(text, last)) == Pieces([From(text, last)], [])
  {
    SplitUnfold(From(text, last));
    FindConnectiveLater(text, last, 0);
    hide FindConnective, SplitAndOr, From;
  }

  lemma ConnectiveLater(text: string, last: nat, i: nat)
    requires last + i <= |text|
    ensures ConnectiveAt(From(text, last), i) == ConnectiveAt(text, last + i)
    ensures Behind(text, last + i) == last + Behind(From(text, last), i)
  {
    WordLater(text, "And", last, i);
    hide WordAt;
  }

  lemma Drops(s: string, a: nat, b: nat, n: nat)
    requires a + b + n <= |s|
    ensures Slice(From(s, a), 0, b) == Slice(s, a, a + b) && From(From(s, a), b + n) == From(s, a + b + n)
  {
  }

  /** What has been split off, in front of what is still to be split. */
  function Before(segments: seq<string>, combinators: seq<Combinator>, rest: Pieces): Pieces {
    Pieces(segments + rest.segments, combinators + rest.combinators)
  }

  lemma PutBefore(segments: seq<string>, combinators: seq<Combinator>, segment: string, c: Combinator, rest: Pieces)
    ensures Before(segments, combinators, Put(segment, c, rest)) ==
      Before(segments + [segment], combinators + [c], rest)
  {
    Move(segments, segment, rest.segments);
    Move(combinators, c, rest.combinators);
  }

  method Segments(text: string) returns (pieces: Pieces)
    ensures pieces == SplitAndOr(text)
  {
    var segments: seq<string>, combinators: seq<Combinator> := [], [];
    var last := 0;
    assert From(text, 0) == text;
    assert Before([], [], SplitAndOr(text)) == SplitAndOr(text);
    hide SplitAndOr, FindConnective, ConnectiveAt, Behind, From, Slice, Before, Put;
    var m := FindConnective(text, 0);
    while m >= 0
      invariant last <= |text| && m == FindConnective(text, last)
      invariant Before(segments, combinators, SplitAndOr(From(text, last))) == SplitAndOr(text)
      decreases |text| - last
    {
      NextSegment(text, last);
      PutBefore(segments, combinators, Slice(text, last, m), ConnectiveAt(text, m),
        SplitAndOr(From(text, Behind(text, m))));
      segments := segments + [Slice(text, last, m)];
      combinators := combinators + [ConnectiveAt(text, m)];
      last := Behind(text, m);
      m := FindConnective(text, last);
    }
    LastSegment(text, last);
    LastBefore(segments, combinators, From(text, last));
    return Pieces(segments + [From(text, last)], combinators);
  }

  lemma LastBefore(segments: seq<string>, combinators: seq<Combinator>, segment: string)
    ensures Before(segments, combinators, Pieces([segment], [])) == Pieces(segments + [segment], combinators)
  {
    NothingLeft(combinators);
  }

  /** Empty segments are passed over, though the connective beside them is kept. */
  function ParseConditions(segments: seq<string>, all: bool): seq<Condition> {
    if segments == [] then []
    else (if segments[0] == "" then [] else [ParseCondition(segments[0], all)]) + ParseConditions(segments[1..], all)
  }

  lemma ConditionsStep(segments: seq<string>, n: nat, all: bool)
    requires n <= |segments|
    ensures ParseConditions(segments[n..], all) ==
      if n == |segments| then [] else if segments[n] == "" then ParseConditions(segments[n + 1..], all)
      else [ParseCondition(segments[n], all)] + ParseConditions(segments[n + 1..], all)
  {
    hide ParseCondition;
    if n < |segments| {
      assert segments[n..][1..] == segments[n + 1..];
    }
  }

  method ReadConditions(segments: seq<string>, all: bool) returns (conditions: seq<Condition>)
    ensures conditions == ParseConditions(segments, all)
  {
    hide ParseCondition, ParseConditions;
    conditions := [];
    var n := 0;
    assert segments[0..] == segments;
    while n < |segments|
      invariant n <= |segments|
      invariant conditions + ParseConditions(segments[n..], all) == ParseConditions(segments, all)
    {
      ConditionsStep(segments, n, all);
      if segments[n] != "" {
        Move(conditions, ParseCondition(segments[n], all), ParseConditions(segments[n + 1..], all));
        conditions := conditions + [ParseCondition(segments[n], all)];
      }
      n := n + 1;
    }
    ConditionsStep(segments, n, all);
    NothingLeft(conditions);
  }

  function ParsePredicate(text: string): Predicate {
    if text == "" then Predicate([], [])
    else
      var pieces := SplitAndOr(Unflag(text));
      Predicate(ParseConditions(pieces.segments, Flagged(text)), pieces.combinators)
  }

  // ----- the order -----

  /** The direction word at `i`, if any: whether it is descending, and its length. */
  function DirectionAt(text: string, i: nat): (r: Option<(bool, nat)>)
    ensures r.Some? ==> 0 < r.value.1 <= |text| - i
  {
    if LastWordAt(text, "Desc", i) then Some((true, 4))
    else if LastWordAt(text, "Asc", i) then Some((false, 3))
    else None
  }

  /** The orders read from `text`, whose first `i` characters hold no direction word that ends a property. */
  function Orders(text: string, i: nat): seq<Order>
    decreases |text|, |text| - i
  {
    if i >= |text| then []
    else match DirectionAt(text, i)
      case Some((descending, length)) =>
        if i > 0 then [Order(PropertyPath(Slice(text, 0, i)), descending)] + Orders(From(text, i + length), 0)
        else Orders(text, i + 1)
      case None => Orders(text, i + 1)
  }

  function ParseOrderBy(text: string): seq<Order> {
    if text == "" then [] else if Orders(text, 0) == [] then [Order(PropertyPath(text), false)] else Orders(text, 0)
  }

  lemma DirectionLater(text: string, start: nat, i: nat)
    requires start + i <= |text|
    ensures DirectionAt(text[start..], i) == DirectionAt(text, start + i)
  {
    AtLater(text, "Desc", start, i);
    AtLater(text, "Asc", start, i);
  }

  lemma OrdersSkip(text: string, start: nat, i: nat)
    requires start <= i < |text| && (DirectionAt(text, i).None? || i == start)
    ensures Orders(From(text, start), i - start) == Orders(From(text, start), i + 1 - start)
  {
    hide DirectionAt, PropertyPath, LastWordAt, At;
    DirectionLater(text, start, i - start);
  }

  lemma OrdersTake(text: string, start: nat, i: nat)
    requires start < i < |text| && DirectionAt(text, i).Some?
    ensures var (descending, length) := DirectionAt(text, i).value;
      && i + length <= |text|
      && Orders(From(text, start), i - start) ==
          [Order(PropertyPath(Slice(text, start, i)), descending)] + Orders(From(text, i + length), 0)
  {
    hide DirectionAt, PropertyPath, LastWordAt, At;
    DirectionLater(text, start, i - start);
    var length := DirectionAt(text, i).value.1;
    Drops(text, start, i - start, length);
  }

  method OrderSpecs(text: string) returns (specs: seq<Order>)
    ensures specs == ParseOrderBy(text)
  {
    hide DirectionAt, LastWordAt, At, PropertyPath;
    if text == "" {
      return [];
    }
    specs := [];
    var start: nat, i: nat := 0, 0;
    assert From(text, 0) == text;
    hide Orders, From, Slice;
    while i < |text|
      invariant start <= i <= |text|
      invariant specs + Orders(From(text, start), i - start) == Orders(text, 0)
    {
      var direction := DirectionAt(text, i);
      if direction.Some? && i > start {
        OrdersTake(text, start, i);
        var order := Order(PropertyPath(Slice(text, start, i)), direction.value.0);
        i := i + direction.value.1;
        Move(specs, order, Orders(From(text, i), 0));
        specs := specs + [order];
        start := i;
      } else {
        OrdersSkip(text, start, i);
        i := i + 1;
      }
    }
    OrdersEnd(text, start, i);
    NothingLeft(specs);
    if specs == [] {
      specs := [Order(PropertyPath(text), false)];
    }
  }

  lemma OrdersEnd(text: string, start: nat, i: nat)
    requires start <= i == |text|
    ensures Orders(From(text, start), i - start) == []
  {
  }

  // ----- the whole name -----

  function SplitOrderBy(afterBy: string): (string, seq<Order>) {
    var i := FindWord(afterBy, "OrderBy", 0);
    if i < 0 || i + 7 > |afterBy| then (afterBy, []) else (afterBy[..i], ParseOrderBy(afterBy[i + 7..]))
  }

  function ParseName(name: string): Result<Plan> {
    var byIndex := FindWord(name, "By", 0);
    if byIndex <= 0 || byIndex + 2 >= |name| then NotDerivable
    else
      match ParseSubject(name[..byIndex])
      case Parsed(subject) =>
        var (text, orderBy) := SplitOrderBy(name[byIndex + 2..]);
        Parsed(Plan(subject, ParsePredicate(text), orderBy))
      case NotDerivable => NotDerivable
      case InvalidLimit => InvalidLimit
  }

  /** `parseQueryMethod`, with the loops of its parts. */
  method ParseQueryMethod(name: string) returns (r: Result<Plan>)
    ensures r == ParseName(name)
  {
    hide FindWord, ParseSubject, ParseCondition, ParseOrderBy, Unflag, Flagged, SplitAndOr;
    var byIndex := FindWord(name, "By", 0);
    if byIndex <= 0 || byIndex + 2 >= |name| {
      return NotDerivable;
    }
    var subject := ReadSubject(name[..byIndex]);
    if subject.NotDerivable? {
      return NotDerivable;
    }
    if subject.InvalidLimit? {
      return InvalidLimit;
    }
    var afterBy := name[byIndex + 2..];
    var i := FindWord(afterBy, "OrderBy", 0);
    var text, orderBy := afterBy, [];
    if 0 <= i && i + 7 <= |afterBy| {
      text := afterBy[..i];
      orderBy := OrderSpecs(afterBy[i + 7..]);
    }
    if text == "" {
      return Parsed(Plan(subject.value, Predicate([], []), orderBy));
    }
    var pieces := Segments(Unflag(text));
    var conditions := ReadConditions(pieces.segments, Flagged(text));
    return Parsed(Plan(subject.value, Predicate(conditions, pieces.combinators), orderBy));
  }
}
