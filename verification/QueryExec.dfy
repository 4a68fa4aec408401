/**
 * Running a derived query over entities: conditions folded from the left,
 * the comparator sort, distinctness by JSON text, and the limit.
 */
module QueryExec {
  import opened Text
  import opened Keywords
  import opened QueryName
  import opened Sorting
  import Numerals

  datatype Id = IdText(text: string) | IdNumber(number: int)

  /** A number, or none for NaN. */
  type Numeric = Option<real>

  /** A date whose text could not be read has NaN for its time. */
  datatype Value = Undefined | Null | Bool(bool) | Number(Numeric) | String(string) | Date(time: Numeric)
                 | List(items: seq<Value>) | Record(fields: map<string, Value>)

  datatype Entity = Entity(id: Id, data: Value)

  /**
   * String conversion, lower-casing, date reading, pattern matching and JSON text, as the language runtime does them.
   */
  datatype Host = Host(show: Value -> string, lower: string -> string, time: Value -> Numeric,
                       like: (string, string) -> bool, json: Entity -> string)

  // ----- values -----

  function Get(v: Value, path: seq<string>): Value
    decreases |path|
  {
    if path == [] then v
    else match v
      case Record(fields) => if path[0] in fields then Get(fields[path[0]], path[1..]) else Undefined
      case List(items) => if path[0] == "length" then Get(Number(Some(|items| as real)), path[1..]) else Undefined
      case _ => Undefined
  }

  function Property(e: Entity, path: string): Value { Get(e.data, Split(path, '.')) }

  lemma {:induction false} GetJoined(v: Value, p: seq<string>, q: seq<string>)
    ensures Get(v, p + q) == Get(Get(v, p), q)
    decreases |p|
  {
    if p == [] {
      assert p + q == q;
    } else {
      assert (p + q)[0] == p[0] && (p + q)[1..] == p[1..] + q;
      match v
      case Record(fields) => GetJoined(if p[0] in fields then fields[p[0]] else Undefined, p[1..], q);
      case List(items) => GetJoined(if p[0] == "length" then Number(Some(|items| as real)) else Undefined, p[1..], q);
      case _ => NothingBelow(p[1..] + q);
    }
    NothingBelow(p);
    NothingBelow(q);
    NothingBelow(p + q);
  }

  lemma NothingBelow(path: seq<string>)
    ensures Get(Undefined, path) == Undefined
  {
  }

  /**
   * A dotted property is read part by part: the last part is a key of what the
   * parts before it lead to, or the length of a list; nothing else has parts.
   */
  lemma PropertyByParts(e: Entity, parts: seq<string>, last: string)
    requires '.' !in last && forall i :: 0 <= i < |parts| ==> '.' !in parts[i]
    ensures var holder := if parts == [] then e.data else Property(e, Join(parts, "."));
      Property(e, Join(parts + [last], ".")) == match holder
        case Record(fields) => if last in fields then fields[last] else Undefined
        case List(items) => if last == "length" then Number(Some(|items| as real)) else Undefined
        case _ => Undefined
  {
    hide Split, Join;
    assert "." == ['.'];
    if parts != [] {
      SplitJoin(parts, '.');
    }
    SplitJoin(parts + [last], '.');
    GetJoined(e.data, parts, [last]);
    assert [last][1..] == [];
  }

  predicate SameNumber(a: Numeric, b: Numeric) { a.Some? && b.Some? && a.value == b.value }

  predicate Above(a: Numeric, b: Numeric) { a.Some? && b.Some? && a.value > b.value }

  /** NaN is neither equal to anything nor above it, and so comes out as below. */
  function CompareNumbers(a: Numeric, b: Numeric): int { if SameNumber(a, b) then 0 else if Above(a, b) then 1 else -1 }

  predicate TextLess(a: string, b: string) {
    b != "" && (a == "" || a[0] < b[0] || (a[0] == b[0] && TextLess(a[1..], b[1..])))
  }

  function CompareTexts(a: string, b: string): int { if a == b then 0 else if TextLess(b, a) then 1 else -1 }

  function TimeOf(h: Host, v: Value): Numeric { if v.Date? then v.time else h.time(v) }

  function CompareOrdered(h: Host, a: Value, b: Value): int {
    if a.Date? || b.Date? then CompareNumbers(TimeOf(h, a), TimeOf(h, b))
    else match (a, b)
      case (Number(x), Number(y)) => CompareNumbers(x, y)
      case _ => CompareTexts(h.show(a), h.show(b))
  }

  predicate CompareEqual(h: Host, a: Value, b: Value) {
    match (a, b)
    case (Number(x), Number(y)) => SameNumber(x, y)
    case (Date(t), Date(u)) => SameNumber(t, u)
    case (Date(t), String(_)) => SameNumber(t, h.time(b))
    case (Date(t), Number(_)) => SameNumber(t, h.time(b))
    case _ => a == b && !a.List? && !a.Record?
  }

  function Norm(h: Host, ignoreCase: bool, v: Value): Value {
    match v case String(s) => if ignoreCase then String(h.lower(s)) else v case _ => v
  }

  function TextOf(h: Host, v: Value): string { if v.Undefined? || v.Null? then "" else h.show(v) }

  predicate IsEmptyValue(v: Value) {
    v.Undefined? || v.Null? || v == String("") || v == List([])
  }

  predicate Contains(s: string, part: string)
    decreases |s|
  {
    part <= s || (s != "" && Contains(s[1..], part))
  }

  predicate Listed(h: Host, ignoreCase: bool, raw: Value, list: Value) {
    list.List? && exists i ::
      0 <= i < |list.items| && CompareEqual(h, Norm(h, ignoreCase, raw), Norm(h, ignoreCase, list.items[i]))
  }

  /** `evaluateCondition` on the argument values bound to the condition. */
  predicate Satisfies(h: Host, e: Entity, c: Condition, first: Value, second: Value) {
    var raw := Property(e, c.property);
    var left, right := TextOf(h, Norm(h, c.ignoreCase, raw)), TextOf(h, Norm(h, c.ignoreCase, first));
    match c.operator
    case Eq => CompareEqual(h, Norm(h, c.ignoreCase, raw), Norm(h, c.ignoreCase, first))
    case Neq => !CompareEqual(h, Norm(h, c.ignoreCase, raw), Norm(h, c.ignoreCase, first))
    case Gt => CompareOrdered(h, raw, first) > 0
    case Gte => CompareOrdered(h, raw, first) >= 0
    case Lt => CompareOrdered(h, raw, first) < 0
    case Lte => CompareOrdered(h, raw, first) <= 0
    case Between => CompareOrdered(h, raw, first) >= 0 && CompareOrdered(h, raw, second) <= 0
    case In => Listed(h, c.ignoreCase, raw, first)
    case NotIn => !Listed(h, c.ignoreCase, raw, first)
    case Containing => Contains(left, right)
    case NotContaining => !Contains(left, right)
    case StartingWith => right <= left
    case EndingWith => EndsWith(left, right)
    case Like => h.like(left, right)
    case NotLike => !h.like(left, right)
    case IsNull => raw.Undefined? || raw.Null?
    case IsNotNull => !raw.Undefined? && !raw.Null?
    case IsTrue => raw == Bool(true)
    case IsFalse => raw == Bool(false)
    case IsEmpty => IsEmptyValue(raw)
    case IsNotEmpty => !IsEmptyValue(raw)
  }

  // ----- what the operators mean -----

  /** The condition with another operator. */
  predicate By(h: Host, e: Entity, c: Condition, op: Operator, first: Value, second: Value) {
    Satisfies(h, e, c.(operator := op), first, second)
  }

  lemma Ordered(h: Host, e: Entity, c: Condition, first: Value, second: Value)
    ensures By(h, e, c, Lt, first, second) <==> CompareOrdered(h, Property(e, c.property), first) < 0
    ensures By(h, e, c, Gt, first, second) <==> CompareOrdered(h, Property(e, c.property), first) > 0
  {
    hide CompareOrdered, CompareEqual, Listed, Contains, IsEmptyValue, Property, Norm, TextOf, EndsWith;
  }

  /** At index `n` the texts part: one ends there and is a prefix of the other, or has the smaller character. */
  predicate LessAt(a: string, b: string, n: nat) {
    n <= |a| && n < |b| && a[..n] == b[..n] && (n == |a| || a[n] < b[n])
  }

  lemma {:induction false} TextLessExactly(a: string, b: string)
    ensures TextLess(a, b) <==> exists n :: LessAt(a, b, n)
  {
    if b != "" && (a == "" || a[0] < b[0]) {
      assert LessAt(a, b, 0);
    } else if a != "" && b != "" {
      TextLessExactly(a[1..], b[1..]);
      if n: nat :| LessAt(a[1..], b[1..], n) {
        if a[0] == b[0] {
          assert a[..n + 1] == [a[0]] + a[1..][..n] && b[..n + 1] == [b[0]] + b[1..][..n];
          assert LessAt(a, b, n + 1);
        }
      }
      if n: nat :| LessAt(a, b, n) {
        if n > 0 {
          assert a[0] == a[..n][0] && b[0] == b[..n][0];
          assert a[1..][..n - 1] == a[..n][1..] && b[1..][..n - 1] == b[..n][1..];
          assert LessAt(a[1..], b[1..], n - 1);
        }
      }
    }
  }

  /**
   * Comparing goes by time where either value is a date, by number where both
   * are, and by text otherwise; what is not above or the same is below, NaN and
   * dates that cannot be read included.
   */
  lemma Comparisons(h: Host, e: Entity, c: Condition, first: Value, second: Value)
    ensures
      var raw := Property(e, c.property);
      var less, more := By(h, e, c, Lt, first, second), By(h, e, c, Gt, first, second);
      if raw.Date? || first.Date? then
        var t, u := TimeOf(h, raw), TimeOf(h, first);
        less == (t.None? || u.None? || t.value < u.value) && more == (t.Some? && u.Some? && t.value > u.value)
      else match (raw, first)
        case (Number(x), Number(y)) =>
          less == (x.None? || y.None? || x.value < y.value) && more == (x.Some? && y.Some? && x.value > y.value)
        case _ =>
          less == TextLess(h.show(raw), h.show(first)) && more == TextLess(h.show(first), h.show(raw))
  {
    hide By, TextLess, Property, TimeOf;
    var raw := Property(e, c.property);
    Ordered(h, e, c, first, second);
    TextOrder(h.show(raw), h.show(first), "");
    TextOrder(h.show(first), h.show(raw), "");
  }

  predicate PartAt(s: string, part: string, i: nat) { i + |part| <= |s| && s[i..i + |part|] == part }

  lemma {:induction false} ContainsExactly(s: string, part: string)
    ensures Contains(s, part) <==> exists i :: PartAt(s, part, i)
    decreases |s|
  {
    assert part <= s <==> PartAt(s, part, 0);
    if s != "" {
      ContainsExactly(s[1..], part);
      forall i: nat ensures PartAt(s[1..], part, i) <==> PartAt(s, part, i + 1) {
        if i + 1 + |part| <= |s| {
          assert s[1..][i..i + |part|] == s[i + 1..i + 1 + |part|];
        }
      }
      if i: nat :| PartAt(s, part, i) {
        assert i > 0 ==> PartAt(s[1..], part, i - 1);
      }
    } else if i: nat :| PartAt(s, part, i) {
      assert i == 0;
    }
  }

  /**
   * Containing is having the text somewhere; starting and ending with it is
   * having it at that end; a pattern is matched against the text. Null values
   * are the empty text, and case is dropped from texts where it is ignored.
   */
  lemma Parts(h: Host, e: Entity, c: Condition, first: Value, second: Value)
    ensures
      var left := match Property(e, c.property)
        case Undefined => ""
        case Null => ""
        case String(text) => h.show(String(if c.ignoreCase then h.lower(text) else text))
        case other => h.show(other);
      var right := match first
        case Undefined => ""
        case Null => ""
        case String(text) => h.show(String(if c.ignoreCase then h.lower(text) else text))
        case other => h.show(other);
      && (By(h, e, c, Containing, first, second) <==> exists i :: PartAt(left, right, i))
      && (By(h, e, c, StartingWith, first, second) <==> PartAt(left, right, 0))
      && (By(h, e, c, EndingWith, first, second) <==> |right| <= |left| && PartAt(left, right, |left| - |right|))
      && (By(h, e, c, Like, first, second) <==> h.like(left, right))
  {
    hide Satisfies, By, TextOf, Norm, Property, PartAt, Contains, EndsWith;
    TextRead(h, c.ignoreCase, Property(e, c.property));
    TextRead(h, c.ignoreCase, first);
    OnTexts(h, e, c, first, second);
    PartsOf(TextOf(h, Norm(h, c.ignoreCase, Property(e, c.property))), TextOf(h, Norm(h, c.ignoreCase, first)));
  }

  lemma TextRead(h: Host, ignoreCase: bool, v: Value)
    ensures TextOf(h, Norm(h, ignoreCase, v)) == match v
      case Undefined => ""
      case Null => ""
      case String(text) => h.show(String(if ignoreCase then h.lower(text) else text))
      case other => h.show(other)
  {
  }

  lemma OnTexts(h: Host, e: Entity, c: Condition, first: Value, second: Value)
    ensures var left, right := TextOf(h, Norm(h, c.ignoreCase, Property(e, c.property))),
      TextOf(h, Norm(h, c.ignoreCase, first));
      && (By(h, e, c, Containing, first, second) <==> Contains(left, right))
      && (By(h, e, c, StartingWith, first, second) <==> right <= left)
      && (By(h, e, c, EndingWith, first, second) <==> EndsWith(left, right))
      && (By(h, e, c, Like, first, second) <==> h.like(left, right))
  {
    hide CompareOrdered, CompareEqual, Listed, Contains, IsEmptyValue, Property, Norm, TextOf, EndsWith;
  }

  lemma PartsOf(left: string, right: string)
    ensures Contains(left, right) <==> exists i :: PartAt(left, right, i)
    ensures right <= left <==> PartAt(left, right, 0)
    ensures EndsWith(left, right) <==> |right| <= |left| && PartAt(left, right, |left| - |right|)
  {
    ContainsExactly(left, right);
    hide Contains;
    assert |right| <= |left| ==> left[|left| - |right|..] == left[|left| - |right|..|left| - |right| + |right|];
  }

  // ----- the predicate -----

  /** Where the arguments of the `n`th condition start. */
  function ArgIndex(conditions: seq<Condition>, n: nat): nat
    requires n <= |conditions|
  {
    if n == 0 then 0 else ArgIndex(conditions, n - 1) + conditions[n - 1].argCount
  }

  function Arg(args: seq<Value>, i: nat): Value { if i < |args| then args[i] else Undefined }

  predicate HoldsAt(h: Host, e: Entity, p: Predicate, args: seq<Value>, n: nat)
    requires n < |p.conditions|
  {
    var i := ArgIndex(p.conditions, n);
    var count := p.conditions[n].argCount;
    Satisfies(h, e, p.conditions[n],
      if count > 0 then Arg(args, i) else Undefined, if count > 1 then Arg(args, i + 1) else Undefined)
  }

  /** The values given for each condition, one list after the other. */
  function Joined(values: seq<seq<Value>>): seq<Value> {
    if values == [] then [] else Joined(values[..|values| - 1]) + values[|values| - 1]
  }

  lemma {:induction false} JoinedAt(conditions: seq<Condition>, values: seq<seq<Value>>, n: nat, i: nat)
    requires |values| == |conditions| && n < |values| && i < |values[n]|
    requires forall k :: 0 <= k < |values| ==> |values[k]| == conditions[k].argCount
    ensures Arg(Joined(values), ArgIndex(conditions, n) + i) == values[n][i]
    decreases |values|
  {
    var last := |values| - 1;
    JoinedLength(conditions[..last], values[..last]);
    ArgIndexFront(conditions, last, last);
    if n < last {
      JoinedAt(conditions[..last], values[..last], n, i);
      JoinedLength(conditions[..n], values[..n]);
      ArgIndexFront(conditions, last, n);
      ArgIndexGrows(conditions[..last], n);
    }
  }

  lemma {:induction false} JoinedLength(conditions: seq<Condition>, values: seq<seq<Value>>)
    requires |values| == |conditions| && forall k :: 0 <= k < |values| ==> |values[k]| == conditions[k].argCount
    ensures |Joined(values)| == ArgIndex(conditions, |conditions|)
    decreases |values|
  {
    if values != [] {
      var last := |values| - 1;
      JoinedLength(conditions[..last], values[..last]);
      ArgIndexFront(conditions, last, last);
    }
  }

  lemma {:induction false} ArgIndexFront(conditions: seq<Condition>, m: nat, n: nat)
    requires n <= m <= |conditions|
    ensures ArgIndex(conditions[..m], n) == ArgIndex(conditions, n)
  {
    if n > 0 {
      ArgIndexFront(conditions, m, n - 1);
    }
  }

  lemma {:induction false} ArgIndexGrows(conditions: seq<Condition>, n: nat)
    requires n < |conditions|
    ensures ArgIndex(conditions, n) + conditions[n].argCount <= ArgIndex(conditions, |conditions|)
    decreases |conditions|
  {
    var last := |conditions| - 1;
    if n < last {
      ArgIndexGrows(conditions[..last], n);
      ArgIndexFront(conditions, last, n);
      ArgIndexFront(conditions, last, last);
    }
  }

  /** Each condition gets the values given for it, however many the ones before it take. */
  lemma ArgumentsBound(h: Host, e: Entity, p: Predicate, values: seq<seq<Value>>, n: nat)
    requires |values| == |p.conditions| && n < |values|
    requires forall k :: 0 <= k < |values| ==> |values[k]| == p.conditions[k].argCount
    ensures HoldsAt(h, e, p, Joined(values), n) <==>
      Satisfies(h, e, p.conditions[n], Arg(values[n], 0), Arg(values[n], 1))
  {
    hide Satisfies;
    forall i | 0 <= i < |values[n]| ensures Arg(Joined(values), ArgIndex(p.conditions, n) + i) == values[n][i] {
      JoinedAt(p.conditions, values, n, i);
    }
  }

  function CombinatorAt(p: Predicate, n: nat): Combinator {
    if 0 < n <= |p.combinators| then p.combinators[n - 1] else And
  }

  /** The first `n + 1` conditions folded from the left, `and` and `or` alike. */
  predicate Folded(h: Host, e: Entity, p: Predicate, args: seq<Value>, n: nat)
    requires n < |p.conditions|
  {
    if n == 0 then HoldsAt(h, e, p, args, 0)
    else if CombinatorAt(p, n) == Or then Folded(h, e, p, args, n - 1) || HoldsAt(h, e, p, args, n)
    else Folded(h, e, p, args, n - 1) && HoldsAt(h, e, p, args, n)
  }

  predicate Matches(h: Host, e: Entity, p: Predicate, args: seq<Value>) {
    p.conditions == [] || Folded(h, e, p, args, |p.conditions| - 1)
  }

  /**
   * A condition that opens the predicate or follows `or`, holds, and is followed only by `and` conditions that hold.
   */
  ghost predicate Carries(h: Host, e: Entity, p: Predicate, args: seq<Value>, k: nat, n: nat)
    requires k <= n < |p.conditions|
  {
    && (k == 0 || CombinatorAt(p, k) == Or) && HoldsAt(h, e, p, args, k)
    && forall j :: k < j <= n ==> CombinatorAt(p, j) == Or || HoldsAt(h, e, p, args, j)
  }

  /** What the left fold means: there is no precedence, a later `and` binds everything before it. */
  lemma {:induction false} FoldMeaning(h: Host, e: Entity, p: Predicate, args: seq<Value>, n: nat)
    requires n < |p.conditions|
    ensures Folded(h, e, p, args, n) <==> exists k: nat :: k <= n && Carries(h, e, p, args, k, n)
  {
    hide HoldsAt, CombinatorAt;
    if n == 0 {
      assert Folded(h, e, p, args, 0) ==> Carries(h, e, p, args, 0, 0);
    } else {
      FoldMeaning(h, e, p, args, n - 1);
      if Folded(h, e, p, args, n) {
        if Folded(h, e, p, args, n - 1) {
          var k: nat :| k <= n - 1 && Carries(h, e, p, args, k, n - 1);
          assert Carries(h, e, p, args, k, n);
        } else {
          assert Carries(h, e, p, args, n, n);
        }
      }
      if k: nat :| k <= n && Carries(h, e, p, args, k, n) {
        if k < n {
          assert Carries(h, e, p, args, k, n - 1);
        }
      }
    }
  }

  // ----- predicates that say the same -----

  /** The operator that holds exactly when the given one does not. */
  function Opposite(op: Operator): (r: Option<Operator>)
    ensures r.None? <==> op in {StartingWith, EndingWith, Between, IsTrue, IsFalse}
  {
    match op
    case Eq => Some(Neq)
    case Neq => Some(Eq)
    case Gt => Some(Lte)
    case Lte => Some(Gt)
    case Lt => Some(Gte)
    case Gte => Some(Lt)
    case In => Some(NotIn)
    case NotIn => Some(In)
    case Containing => Some(NotContaining)
    case NotContaining => Some(Containing)
    case Like => Some(NotLike)
    case NotLike => Some(Like)
    case IsNull => Some(IsNotNull)
    case IsNotNull => Some(IsNull)
    case IsEmpty => Some(IsNotEmpty)
    case IsNotEmpty => Some(IsEmpty)
    case _ => None
  }

  predicate Negatable(p: Predicate) { forall i :: 0 <= i < |p.conditions| ==> Opposite(p.conditions[i].operator).Some? }

  /** Every operator replaced by its opposite, and `and` and `or` swapped. */
  function Negated(p: Predicate): (r: Predicate)
    requires Negatable(p) && p.conditions != []
    ensures |r.conditions| == |p.conditions| && |r.combinators| == |p.conditions| - 1
  {
    Predicate(
      seq(|p.conditions|, i requires 0 <= i < |p.conditions| =>
        p.conditions[i].(operator := Opposite(p.conditions[i].operator).value)),
      seq(|p.conditions| - 1, i requires 0 <= i < |p.conditions| - 1 =>
        if CombinatorAt(p, i + 1) == Or then And else Or))
  }

  lemma Opposed(h: Host, e: Entity, c: Condition, first: Value, second: Value)
    requires Opposite(c.operator).Some?
    ensures Satisfies(h, e, c.(operator := Opposite(c.operator).value), first, second) <==>
      !Satisfies(h, e, c, first, second)
  {
    hide CompareOrdered, CompareEqual, Listed, Contains, IsEmptyValue, Property, Norm, TextOf, EndsWith;
  }

  lemma {:induction false} SameArgIndex(p: Predicate, n: nat)
    requires Negatable(p) && p.conditions != [] && n <= |p.conditions|
    ensures ArgIndex(Negated(p).conditions, n) == ArgIndex(p.conditions, n)
  {
    if n > 0 {
      SameArgIndex(p, n - 1);
    }
  }

  lemma {:induction false} FoldNegated(h: Host, e: Entity, p: Predicate, args: seq<Value>, n: nat)
    requires Negatable(p) && n < |p.conditions|
    ensures Folded(h, e, Negated(p), args, n) <==> !Folded(h, e, p, args, n)
  {
    hide Satisfies;
    SameArgIndex(p, n);
    var i, count := ArgIndex(p.conditions, n), p.conditions[n].argCount;
    Opposed(h, e, p.conditions[n],
      if count > 0 then Arg(args, i) else Undefined, if count > 1 then Arg(args, i + 1) else Undefined);
    assert HoldsAt(h, e, Negated(p), args, n) <==> !HoldsAt(h, e, p, args, n);
    if n > 0 {
      hide HoldsAt;
      FoldNegated(h, e, p, args, n - 1);
      assert CombinatorAt(Negated(p), n) == Or <==> CombinatorAt(p, n) != Or;
    }
  }

  /** The negated predicate matches exactly the entities that the predicate does not, whatever its arguments. */
  lemma NegatedMatches(h: Host, e: Entity, p: Predicate, args: seq<Value>)
    requires Negatable(p) && p.conditions != []
    ensures Matches(h, e, Negated(p), args) <==> !Matches(h, e, p, args)
  {
    FoldNegated(h, e, p, args, |p.conditions| - 1);
  }

  /** One equality for each item of a list, joined by `or`. */
  function Ors(property: string, ignoreCase: bool, n: nat): Predicate
    requires n > 0
  {
    Predicate(seq(n, _ => Condition(property, Eq, ignoreCase, 1)), seq(n - 1, _ => Or))
  }

  lemma {:induction false} OrsIndex(property: string, ignoreCase: bool, n: nat, m: nat)
    requires 0 < n && m <= n
    ensures ArgIndex(Ors(property, ignoreCase, n).conditions, m) == m
  {
    if m > 0 {
      OrsIndex(property, ignoreCase, n, m - 1);
    }
  }

  lemma {:induction false} OrsFold(h: Host, e: Entity, property: string, ignoreCase: bool, items: seq<Value>, m: nat)
    requires m < |items|
    ensures Folded(h, e, Ors(property, ignoreCase, |items|), items, m) <==>
      exists i :: 0 <= i <= m && Satisfies(h, e, Condition(property, Eq, ignoreCase, 1), items[i], Undefined)
  {
    hide Satisfies;
    var p := Ors(property, ignoreCase, |items|);
    OrsIndex(property, ignoreCase, |items|, m);
    assert HoldsAt(h, e, p, items, m) <==> Satisfies(h, e, Condition(property, Eq, ignoreCase, 1), items[m], Undefined);
    if m > 0 {
      hide HoldsAt;
      OrsFold(h, e, property, ignoreCase, items, m - 1);
      assert CombinatorAt(p, m) == Or;
    }
  }

  /**
   * `in` a list is being equal to one of its items: the same as equalities joined by `or`, one argument for each item.
   */
  lemma InAsOrs(h: Host, e: Entity, property: string, ignoreCase: bool, items: seq<Value>)
    requires items != []
    ensures Satisfies(h, e, Condition(property, In, ignoreCase, 1), List(items), Undefined) <==>
      Matches(h, e, Ors(property, ignoreCase, |items|), items)
  {
    OrsFold(h, e, property, ignoreCase, items, |items| - 1);
    hide Folded, CompareEqual, Contains, CompareOrdered, Property, Norm, TextOf, EndsWith;
    forall i | 0 <= i < |items|
      ensures Satisfies(h, e, Condition(property, Eq, ignoreCase, 1), items[i], Undefined) <==>
        CompareEqual(h, Norm(h, ignoreCase, Property(e, property)), Norm(h, ignoreCase, items[i]))
    {
    }
  }

  /**
   * Which values are equal: numbers by value, dates with dates, texts and
   * numbers by time, and otherwise values that are the same and hold no other
   * ones; texts without regard to case when the condition says so.
   */
  lemma EqualExactly(h: Host, e: Entity, c: Condition, first: Value, second: Value)
    ensures
      var raw := Property(e, c.property);
      By(h, e, c, Eq, first, second) <==>
        match (raw, first)
        case (Number(x), Number(y)) => x.Some? && x == y
        case (Date(t), Date(u)) => t.Some? && t == u
        case (Date(t), Number(_)) => t.Some? && t == h.time(first)
        case (Date(t), String(text)) => t.Some? && t == h.time(String(if c.ignoreCase then h.lower(text) else text))
        case (String(left), String(right)) => if c.ignoreCase then h.lower(left) == h.lower(right) else left == right
        case (Bool(a), Bool(b)) => a == b
        case _ => raw == first && (raw.Undefined? || raw.Null?)
  {
  }

  /** Being true, false or null is being equal to that value. */
  lemma UnaryAsEq(h: Host, e: Entity, c: Condition, first: Value, second: Value)
    ensures By(h, e, c, IsTrue, first, second) <==> By(h, e, c, Eq, Bool(true), second)
    ensures By(h, e, c, IsFalse, first, second) <==> By(h, e, c, Eq, Bool(false), second)
    ensures By(h, e, c, IsNull, first, second) <==>
      By(h, e, c, Eq, Undefined, second) || By(h, e, c, Eq, Null, second)
  {
    hide CompareOrdered, Listed, Contains, TextOf, EndsWith, Property, IsEmptyValue;
  }

  lemma EmptyExactly(h: Host, e: Entity, c: Condition, first: Value, second: Value)
    ensures By(h, e, c, IsEmpty, first, second) <==>
      By(h, e, c, IsNull, first, second) || Property(e, c.property) in {String(""), List([])}
  {
    hide CompareOrdered, CompareEqual, Norm, Listed, Contains, TextOf, EndsWith, Property;
  }

  /** `between` two values is `and` of two comparisons, with one argument each. */
  lemma BetweenAsAnd(h: Host, e: Entity, property: string, ignoreCase: bool, low: Value, high: Value)
    ensures Satisfies(h, e, Condition(property, Between, ignoreCase, 2), low, high) <==>
      Matches(h, e,
        Predicate([Condition(property, Gte, ignoreCase, 1), Condition(property, Lte, ignoreCase, 1)], [And]),
        [low, high])
  {
    hide CompareOrdered, CompareEqual, Listed, Contains, IsEmptyValue, Property, Norm, TextOf, EndsWith;
    var conditions := [Condition(property, Gte, ignoreCase, 1), Condition(property, Lte, ignoreCase, 1)];
    var p := Predicate(conditions, [And]);
    assert ArgIndex(conditions, 0) == 0 && ArgIndex(conditions, 1) == 1;
    assert HoldsAt(h, e, p, [low, high], 0) <==> CompareOrdered(h, Property(e, property), low) >= 0;
    assert HoldsAt(h, e, p, [low, high], 1) <==> CompareOrdered(h, Property(e, property), high) <= 0;
    hide HoldsAt;
    assert Folded(h, e, p, [low, high], 0) <==> HoldsAt(h, e, p, [low, high], 0);
    assert CombinatorAt(p, 1) == And;
  }

  function Filter(h: Host, entities: seq<Entity>, p: Predicate, args: seq<Value>): seq<Entity> {
    Select(entities, e => Matches(h, e, p, args))
  }

  method EvaluateAll(h: Host, e: Entity, p: Predicate, args: seq<Value>) returns (result: bool)
    requires p.conditions != []
    ensures result == Matches(h, e, p, args)
  {
    hide HoldsAt, CombinatorAt;
    result := HoldsAt(h, e, p, args, 0);
    var i := 1;
    while i < |p.conditions|
      invariant 1 <= i <= |p.conditions| && result == Folded(h, e, p, args, i - 1)
    {
      var next := HoldsAt(h, e, p, args, i);
      result := if CombinatorAt(p, i) == Or then result || next else result && next;
      i := i + 1;
    }
  }

  lemma {:induction false} SelectAll<T>(s: seq<T>, p: T -> bool)
    requires forall x :: x in s ==> p(x)
    ensures Select(s, p) == s
  {
    if s != [] {
      SelectAll(s[1..], p);
    }
  }

  method FilterEntities(h: Host, entities: seq<Entity>, p: Predicate, args: seq<Value>) returns (matched: seq<Entity>)
    ensures matched == Filter(h, entities, p, args)
  {
    hide Folded;
    var test := e => Matches(h, e, p, args);
    if p.conditions == [] {
      SelectAll(entities, test);
      return entities;
    }
    matched := [];
    assert entities[0..] == entities;
    var i := 0;
    while i < |entities|
      invariant i <= |entities| && matched + Select(entities[i..], test) == Select(entities, test)
    {
      var holds := EvaluateAll(h, entities[i], p, args);
      assert entities[i..][1..] == entities[i + 1..];
      if holds {
        Move(matched, entities[i], Select(entities[i + 1..], test));
        matched := matched + [entities[i]];
      }
      i := i + 1;
    }
    assert Select(entities[i..], test) == [];
  }

  // ----- distinct -----

  /** What `distinctByJson` keeps of `s` when the texts of `seen` have been met. */
  function DistinctFrom(h: Host, s: seq<Entity>, seen: set<string>): seq<Entity> {
    if s == [] then []
    else if h.json(s[0]) in seen then DistinctFrom(h, s[1..], seen)
    else [s[0]] + DistinctFrom(h, s[1..], seen + {h.json(s[0])})
  }

  method DistinctByJson(h: Host, s: seq<Entity>) returns (out: seq<Entity>)
    ensures out == DistinctFrom(h, s, {})
  {
    var seen: set<string> := {};
    out := [];
    assert s[0..] == s;
    var i := 0;
    while i < |s|
      invariant i <= |s| && out + DistinctFrom(h, s[i..], seen) == DistinctFrom(h, s, {})
    {
      assert s[i..][1..] == s[i + 1..];
      var key := h.json(s[i]);
      if key !in seen {
        Move(out, s[i], DistinctFrom(h, s[i + 1..], seen + {key}));
        seen := seen + {key};
        out := out + [s[i]];
      }
      i := i + 1;
    }
    assert DistinctFrom(h, s[i..], seen) == [];
  }

  ghost predicate UniqueIds(s: seq<Entity>) {
    forall i, j :: 0 <= i < j < |s| ==> s[i].id != s[j].id
  }

  /** JSON text shows the id: parsing it back would return it. */
  ghost predicate ShowsId(h: Host) {
    forall a, b: Entity :: h.json(a) == h.json(b) ==> a.id == b.id
  }

  /** Entities with different ids are all kept. */
  lemma {:induction false} DistinctKeepsAll(h: Host, s: seq<Entity>, seen: set<string>)
    requires ShowsId(h) && UniqueIds(s)
    requires forall i :: 0 <= i < |s| ==> h.json(s[i]) !in seen
    ensures DistinctFrom(h, s, seen) == s
  {
    if s != [] {
      forall i | 0 <= i < |s[1..]| ensures h.json(s[1..][i]) !in seen + {h.json(s[0])} {
        assert s[1..][i] == s[i + 1];
      }
      DistinctKeepsAll(h, s[1..], seen + {h.json(s[0])});
    }
  }

  // ----- order -----

  function CompareEntities(h: Host, specs: seq<Order>, a: Entity, b: Entity): int {
    if specs == [] then 0
    else
      var c := CompareOrdered(h, Property(a, specs[0].property), Property(b, specs[0].property));
      if c != 0 then (if specs[0].descending then -c else c) else CompareEntities(h, specs[1..], a, b)
  }

  function Comparator(h: Host, specs: seq<Order>): (Entity, Entity) -> bool {
    (a, b) => CompareEntities(h, specs, a, b) <= 0
  }

  /** Values the comparator orders among themselves: dates, numbers, and everything compared as text; 3 is for NaN. */
  function Column(v: Value): nat {
    match v
    case Date(t) => if t.Some? then 0 else 3
    case Number(x) => if x.Some? then 1 else 3
    case _ => 2
  }

  /** Every sorted property has values of one column, and no NaN. */
  ghost predicate Typed(s: seq<Entity>, specs: seq<Order>) {
    forall i, a, b :: 0 <= i < |specs| && a in s && b in s ==>
      Column(Property(a, specs[i].property)) == Column(Property(b, specs[i].property)) < 3
  }

  /** The same comparison, with values of different columns kept apart so that it is an order on all values. */
  function CompareColumns(h: Host, a: Value, b: Value): int {
    if Column(a) != Column(b) then Column(a) - Column(b) else if Column(a) == 3 then 0 else CompareOrdered(h, a, b)
  }

  function CompareTotal(h: Host, specs: seq<Order>, a: Entity, b: Entity): int {
    if specs == [] then 0
    else
      var c := CompareColumns(h, Property(a, specs[0].property), Property(b, specs[0].property));
      if c != 0 then (if specs[0].descending then -c else c) else CompareTotal(h, specs[1..], a, b)
  }

  lemma {:induction false} TextOrder(a: string, b: string, c: string)
    ensures a == b || TextLess(a, b) || TextLess(b, a)
    ensures !TextLess(a, a) && !(TextLess(a, b) && TextLess(b, a))
    ensures TextLess(a, b) && TextLess(b, c) ==> TextLess(a, c)
  {
    if a != "" && b != "" {
      TextOrder(a[1..], b[1..], if c == "" then "" else c[1..]);
      assert a[0] == b[0] && a[1..] == b[1..] ==> a == b by {
        if a[0] == b[0] && a[1..] == b[1..] {
          assert a == [a[0]] + a[1..] && b == [b[0]] + b[1..];
        }
      }
    } else if a != "" {
      TextOrder(a[1..], "", "");
    }
  }

  lemma TextsCompare(a: string, b: string, c: string)
    ensures (CompareTexts(a, b) < 0 <==> CompareTexts(b, a) > 0) && (CompareTexts(a, b) == 0 <==> a == b)
    ensures CompareTexts(a, b) <= 0 && CompareTexts(b, c) <= 0 ==> CompareTexts(a, c) <= 0
  {
    hide TextLess;
    TextOrder(a, b, c);
    TextOrder(b, c, a);
    TextOrder(c, a, b);
  }

  lemma ColumnsCompare(h: Host, a: Value, b: Value, c: Value)
    ensures CompareColumns(h, a, b) < 0 <==> CompareColumns(h, b, a) > 0
    ensures CompareColumns(h, a, b) <= 0 && CompareColumns(h, b, c) <= 0 ==> CompareColumns(h, a, c) <= 0
  {
    hide CompareTexts;
    TextsCompare(h.show(a), h.show(b), h.show(c));
  }

  lemma {:induction false} TotalCompare(h: Host, specs: seq<Order>, a: Entity, b: Entity, c: Entity)
    ensures CompareTotal(h, specs, a, b) < 0 <==> CompareTotal(h, specs, b, a) > 0
    ensures CompareTotal(h, specs, a, b) <= 0 && CompareTotal(h, specs, b, c) <= 0 ==> CompareTotal(h, specs, a, c) <= 0
  {
    hide Property, CompareColumns;
    if specs != [] {
      var x, y, z := Property(a, specs[0].property), Property(b, specs[0].property), Property(c, specs[0].property);
      ColumnsCompare(h, x, y, z);
      ColumnsCompare(h, y, x, z);
      ColumnsCompare(h, y, z, x);
      ColumnsCompare(h, z, x, y);
      ColumnsCompare(h, z, y, x);
      ColumnsCompare(h, x, z, y);
      TotalCompare(h, specs[1..], a, b, c);
    }
  }

  function TotalComparator(h: Host, specs: seq<Order>): (Entity, Entity) -> bool {
    (a, b) => CompareTotal(h, specs, a, b) <= 0
  }

  lemma ComparatorTotal(h: Host, specs: seq<Order>)
    ensures TotalPreorder(TotalComparator(h, specs))
  {
    hide CompareTotal;
    var le := TotalComparator(h, specs);
    forall a, b, c ensures le(a, b) || le(b, a) ensures le(a, b) && le(b, c) ==> le(a, c) {
      TotalCompare(h, specs, a, b, c);
    }
  }

  lemma {:induction false} ComparatorsAgree(h: Host, s: seq<Entity>, specs: seq<Order>, a: Entity, b: Entity)
    requires Typed(s, specs) && a in s && b in s
    ensures CompareEntities(h, specs, a, b) == CompareTotal(h, specs, a, b)
  {
    hide CompareOrdered, Property, Column;
    if specs != [] {
      assert Column(Property(a, specs[0].property)) == Column(Property(b, specs[0].property));
      forall i | 0 <= i < |specs[1..]| ensures specs[1..][i] == specs[i + 1] {}
      ComparatorsAgree(h, s, specs[1..], a, b);
    }
  }

  /** A sort looks at its elements only. */
  lemma {:induction false} SortAgree<T>(s: seq<T>, le: (T, T) -> bool, le': (T, T) -> bool)
    requires forall a, b :: a in s && b in s ==> le(a, b) == le'(a, b)
    ensures Sort(s, le) == Sort(s, le')
  {
    if s != [] {
      SortAgree(s[1..], le, le');
      SortMembers(s[1..], le);
      InsertAgree(s[0], Sort(s[1..], le), le, le');
    }
  }

  lemma {:induction false} InsertAgree<T>(x: T, s: seq<T>, le: (T, T) -> bool, le': (T, T) -> bool)
    requires forall a, b :: (a == x || a in s) && (b == x || b in s) ==> le(a, b) == le'(a, b)
    ensures Insert(x, s, le) == Insert(x, s, le')
  {
    if s != [] {
      InsertAgree(x, s[1..], le, le');
    }
  }

  lemma {:induction false} SelectAgree<T>(s: seq<T>, p: T -> bool, q: T -> bool)
    requires forall x :: x in s ==> p(x) == q(x)
    ensures Select(s, p) == Select(s, q)
  {
    if s != [] {
      SelectAgree(s[1..], p, q);
    }
  }

  lemma SortedStably(h: Host, s: seq<Entity>, specs: seq<Order>, k: Entity)
    requires Typed(s, specs)
    ensures var le := Comparator(h, specs); var r := Sort(s, le);
      Sorted(r, le) && multiset(r) == multiset(s) &&
      (k in s ==> Select(r, y => Ties(k, y, le)) == Select(s, y => Ties(k, y, le)))
  {
    hide CompareEntities, CompareTotal, Insert;
    var le, total := Comparator(h, specs), TotalComparator(h, specs);
    forall a, b | a in s && b in s ensures le(a, b) == total(a, b) {
      ComparatorsAgree(h, s, specs, a, b);
    }
    SortAgree(s, le, total);
    SortElements(s, le);
    SortMembers(s, le);
    ComparatorTotal(h, specs);
    SortSorted(s, total);
    SortStable(k, s, total);
    var r := Sort(s, le);
    forall i, j | 0 <= i < j < |r| ensures le(r[i], r[j]) {
      assert r[i] in r && r[j] in r;
    }
    hide Sort;
    if k in s {
      SelectAgree(r, y => Ties(k, y, le), y => Ties(k, y, total));
      SelectAgree(s, y => Ties(k, y, le), y => Ties(k, y, total));
    }
  }

  // ----- what an order means -----

  /** By time for dates, by value for numbers, by text otherwise. */
  predicate Smaller(h: Host, a: Value, b: Value) {
    match (a, b)
    case (Date(t), Date(u)) => t.Some? && u.Some? && t.value < u.value
    case (Number(x), Number(y)) => x.Some? && y.Some? && x.value < y.value
    case _ => TextLess(h.show(a), h.show(b))
  }

  /** Neither of the two values is the smaller one. */
  predicate Level(h: Host, a: Value, b: Value) { !Smaller(h, a, b) && !Smaller(h, b, a) }

  /** The first `n` orders do not tell the entities apart. */
  ghost predicate LevelTo(h: Host, specs: seq<Order>, a: Entity, b: Entity, n: nat)
    requires n <= |specs|
  {
    forall k :: 0 <= k < n ==> Level(h, Property(a, specs[k].property), Property(b, specs[k].property))
  }

  /**
   * At the first order that tells the two apart, the first has the smaller
   * value if the order ascends, and the greater one if it descends.
   */
  ghost predicate InOrder(h: Host, specs: seq<Order>, a: Entity, b: Entity) {
    forall n :: 0 <= n < |specs| && LevelTo(h, specs, a, b, n) ==>
      var x, y := Property(a, specs[n].property), Property(b, specs[n].property);
      if specs[n].descending then !Smaller(h, x, y) else !Smaller(h, y, x)
  }

  lemma SmallerCompares(h: Host, a: Value, b: Value)
    requires Column(a) == Column(b) < 3
    ensures CompareOrdered(h, a, b) < 0 <==> Smaller(h, a, b)
    ensures CompareOrdered(h, a, b) > 0 <==> Smaller(h, b, a)
  {
    hide TextLess;
    TextOrder(h.show(a), h.show(b), "");
    TextOrder(h.show(b), h.show(a), "");
  }

  lemma LevelLater(h: Host, specs: seq<Order>, a: Entity, b: Entity, n: nat)
    requires specs != [] && n <= |specs| - 1
    ensures LevelTo(h, specs, a, b, n + 1) <==>
      Level(h, Property(a, specs[0].property), Property(b, specs[0].property)) && LevelTo(h, specs[1..], a, b, n)
  {
    hide Level, Property;
    assert forall k :: 0 <= k < n ==> specs[1..][k] == specs[k + 1];
    assert forall k :: 0 < k < n + 1 ==> specs[k] == specs[1..][k - 1];
  }

  lemma InOrderLater(h: Host, specs: seq<Order>, a: Entity, b: Entity)
    requires specs != []
    ensures var x, y := Property(a, specs[0].property), Property(b, specs[0].property);
      InOrder(h, specs, a, b) <==>
        (if specs[0].descending then !Smaller(h, x, y) else !Smaller(h, y, x)) &&
        (Level(h, x, y) ==> InOrder(h, specs[1..], a, b))
  {
    hide Level, Smaller, Property, LevelTo;
    var x, y := Property(a, specs[0].property), Property(b, specs[0].property);
    NothingBefore(h, specs, a, b);
    forall n | 0 <= n < |specs| - 1
      ensures LevelTo(h, specs, a, b, n + 1) <==> Level(h, x, y) && LevelTo(h, specs[1..], a, b, n)
    {
      LevelLater(h, specs, a, b, n);
    }
    assert forall n :: 0 <= n < |specs| - 1 ==> specs[1..][n] == specs[n + 1];
    if InOrder(h, specs, a, b) && Level(h, x, y) {
      forall n | 0 <= n < |specs[1..]| && LevelTo(h, specs[1..], a, b, n)
        ensures var v, w := Property(a, specs[1..][n].property), Property(b, specs[1..][n].property);
          if specs[1..][n].descending then !Smaller(h, v, w) else !Smaller(h, w, v)
      {
        assert LevelTo(h, specs, a, b, n + 1);
      }
    }
    if (if specs[0].descending then !Smaller(h, x, y) else !Smaller(h, y, x)) &&
      (Level(h, x, y) ==> InOrder(h, specs[1..], a, b)) {
      forall n | 0 <= n < |specs| && LevelTo(h, specs, a, b, n)
        ensures var v, w := Property(a, specs[n].property), Property(b, specs[n].property);
          if specs[n].descending then !Smaller(h, v, w) else !Smaller(h, w, v)
      {
        if n > 0 {
          LevelLater(h, specs, a, b, n - 1);
          assert specs[1..][n - 1] == specs[n];
        }
      }
    }
  }

  lemma NothingBefore(h: Host, specs: seq<Order>, a: Entity, b: Entity)
    ensures LevelTo(h, specs, a, b, 0)
  {
  }

  /** The comparator says the same as the words. */
  lemma {:induction false} ComparesInOrder(h: Host, s: seq<Entity>, specs: seq<Order>, a: Entity, b: Entity)
    requires Typed(s, specs) && a in s && b in s
    ensures CompareEntities(h, specs, a, b) <= 0 <==> InOrder(h, specs, a, b)
    ensures CompareEntities(h, specs, a, b) == 0 <==> LevelTo(h, specs, a, b, |specs|)
  {
    hide CompareOrdered, Property, Column, Smaller, InOrder, LevelTo;
    if specs == [] {
      NothingBefore(h, specs, a, b);
      NothingToOrder(h, a, b);
    } else {
      var x, y := Property(a, specs[0].property), Property(b, specs[0].property);
      assert Column(x) == Column(y) < 3;
      forall i | 0 <= i < |specs[1..]| ensures specs[1..][i] == specs[i + 1] {}
      SmallerCompares(h, x, y);
      InOrderLater(h, specs, a, b);
      LevelLater(h, specs, a, b, |specs| - 1);
      ComparesInOrder(h, s, specs[1..], a, b);
    }
  }

  lemma NothingToOrder(h: Host, a: Entity, b: Entity)
    ensures InOrder(h, [], a, b)
  {
  }

  /**
   * Typed entities come out permuted, each two of them in the order asked for,
   * and those that no order tells apart in the order they went in.
   */
  lemma OrderedStably(h: Host, s: seq<Entity>, specs: seq<Order>, k: Entity)
    requires Typed(s, specs)
    ensures var r := Sort(s, Comparator(h, specs));
      && multiset(r) == multiset(s)
      && (forall i, j :: 0 <= i < j < |r| ==> InOrder(h, specs, r[i], r[j]))
      && (k in s ==>
          Select(r, y => LevelTo(h, specs, k, y, |specs|)) == Select(s, y => LevelTo(h, specs, k, y, |specs|)))
  {
    hide CompareEntities, InOrder, LevelTo, Sort;
    var le := Comparator(h, specs);
    var r := Sort(s, le);
    SortedStably(h, s, specs, k);
    SortMembers(s, le);
    forall i, j | 0 <= i < j < |r| ensures InOrder(h, specs, r[i], r[j]) {
      assert r[i] in r && r[j] in r && le(r[i], r[j]);
      ComparesInOrder(h, s, specs, r[i], r[j]);
    }
    if k in s {
      forall y | y in s ensures Ties(k, y, le) <==> LevelTo(h, specs, k, y, |specs|) {
        TiesAreLevel(h, s, specs, k, y);
      }
      SelectAgree(r, y => Ties(k, y, le), y => LevelTo(h, specs, k, y, |specs|));
      SelectAgree(s, y => Ties(k, y, le), y => LevelTo(h, specs, k, y, |specs|));
    }
  }

  lemma TiesAreLevel(h: Host, s: seq<Entity>, specs: seq<Order>, a: Entity, b: Entity)
    requires Typed(s, specs) && a in s && b in s
    ensures Ties(a, b, Comparator(h, specs)) <==> LevelTo(h, specs, a, b, |specs|)
  {
    hide CompareEntities, CompareTotal, InOrder, LevelTo;
    ComparesInOrder(h, s, specs, a, b);
    ComparatorsAgree(h, s, specs, a, b);
    ComparatorsAgree(h, s, specs, b, a);
    TotalCompare(h, specs, a, b, a);
    TotalCompare(h, specs, b, a, b);
  }

  // ----- the matched entities -----

  function Limited(s: seq<Entity>, limit: Option<nat>): seq<Entity> {
    if limit.Some? && limit.value < |s| then s[..limit.value] else s
  }

  function Arranged(h: Host, plan: Plan, entities: seq<Entity>, args: seq<Value>): seq<Entity> {
    var matched := Filter(h, entities, plan.matching, args);
    var distinct := if plan.subject.distinct then DistinctFrom(h, matched, {}) else matched;
    if plan.orderBy != [] then Sort(distinct, Comparator(h, plan.orderBy)) else distinct
  }

  function Matched(h: Host, plan: Plan, entities: seq<Entity>, args: seq<Value>): seq<Entity> {
    Limited(Arranged(h, plan, entities, args), plan.subject.limit)
  }

  lemma {:induction false} SelectMembers<T>(s: seq<T>, p: T -> bool)
    ensures forall x :: x in Select(s, p) <==> x in s && p(x)
    ensures |Select(s, p)| <= |s|
  {
    if s != [] {
      SelectMembers(s[1..], p);
    }
  }

  lemma {:induction false} SelectUnique(s: seq<Entity>, p: Entity -> bool)
    requires UniqueIds(s)
    ensures UniqueIds(Select(s, p))
  {
    if s != [] {
      SelectUnique(s[1..], p);
      SelectMembers(s[1..], p);
      var r := Select(s[1..], p);
      forall j | 0 <= j < |r| ensures r[j].id != s[0].id {
        assert r[j] in r;
        var n :| 0 <= n < |s[1..]| && s[1..][n] == r[j];
      }
    }
  }

  /** `Distinct` in a name changes nothing when ids are unique. */
  lemma DistinctChangesNothing(h: Host, plan: Plan, entities: seq<Entity>, args: seq<Value>)
    requires ShowsId(h) && UniqueIds(entities)
    ensures Matched(h, plan, entities, args) ==
      Matched(h, plan.(subject := plan.subject.(distinct := false)), entities, args)
  {
    hide Matches, Select;
    SelectUnique(entities, e => Matches(h, e, plan.matching, args));
    DistinctKeepsAll(h, Filter(h, entities, plan.matching, args), {});
  }

  /** A limited query is a prefix of the unlimited one, of the length asked for if there are so many. */
  lemma LimitIsPrefix(h: Host, plan: Plan, entities: seq<Entity>, args: seq<Value>, n: nat)
    requires plan.subject.limit == Some(n)
    ensures var all := Matched(h, plan.(subject := plan.subject.(limit := None)), entities, args);
      Matched(h, plan, entities, args) <= all && |Matched(h, plan, entities, args)| == if n < |all| then n else |all|
  {
    hide Filter, DistinctFrom, Sort;
  }

  /** What a query finds is in the order its name asks for, as far as the found entities are typed. */
  lemma MatchedInOrder(h: Host, plan: Plan, entities: seq<Entity>, args: seq<Value>)
    requires Typed(Filter(h, entities, plan.matching, args), plan.orderBy)
    ensures var found := Matched(h, plan, entities, args);
      forall i, j :: 0 <= i < j < |found| ==> InOrder(h, plan.orderBy, found[i], found[j])
  {
    hide Matches, Select, Sort, Comparator, InOrder, Column, Property;
    var matched := Filter(h, entities, plan.matching, args);
    DistinctSubset(h, matched, {});
    var distinct := if plan.subject.distinct then DistinctFrom(h, matched, {}) else matched;
    assert Typed(distinct, plan.orderBy);
    var all := Arranged(h, plan, entities, args);
    forall i, j | 0 <= i < j < |all| ensures InOrder(h, plan.orderBy, all[i], all[j]) {
      if plan.orderBy == [] {
        NothingToOrder(h, all[i], all[j]);
      } else {
        OrderedStably(h, distinct, plan.orderBy, all[i]);
      }
    }
  }

  lemma {:induction false} DistinctSubset(h: Host, s: seq<Entity>, seen: set<string>)
    ensures forall e :: e in DistinctFrom(h, s, seen) ==> e in s
  {
    if s != [] {
      DistinctSubset(h, s[1..], seen);
      DistinctSubset(h, s[1..], seen + {h.json(s[0])});
    }
  }

  /** Apart from the limit, exactly the entities the predicate matches, each once. */
  lemma MatchedMembers(h: Host, plan: Plan, entities: seq<Entity>, args: seq<Value>)
    requires ShowsId(h) && UniqueIds(entities)
    ensures UniqueIds(Matched(h, plan, entities, args))
    ensures forall e :: e in Matched(h, plan, entities, args) ==> e in entities && Matches(h, e, plan.matching, args)
    ensures plan.subject.limit == None ==> forall e :: e in entities && Matches(h, e, plan.matching, args) ==>
      e in Matched(h, plan, entities, args)
    ensures plan.subject.limit == None ==>
      |Matched(h, plan, entities, args)| == |Filter(h, entities, plan.matching, args)|
  {
    hide Matches, Select, Sort, Comparator;
    var test := e => Matches(h, e, plan.matching, args);
    var matched := Filter(h, entities, plan.matching, args);
    SelectUnique(entities, test);
    SelectMembers(entities, test);
    DistinctKeepsAll(h, matched, {});
    SortMembers(matched, Comparator(h, plan.orderBy));
    SortUnique(matched, Comparator(h, plan.orderBy));
  }

  lemma SortUnique(s: seq<Entity>, le: (Entity, Entity) -> bool)
    requires UniqueIds(s)
    ensures UniqueIds(Sort(s, le))
  {
    hide Sort;
    var r := Sort(s, le);
    SortElements(s, le);
    SortMembers(s, le);
    ReorderNoRepeats(r, s);
    forall i, j | 0 <= i < j < |r| ensures r[i].id != r[j].id {
      assert r[i] in r && r[j] in r && r[i] != r[j];
      var m :| 0 <= m < |s| && s[m] == r[i];
      var n :| 0 <= n < |s| && s[n] == r[j];
      assert m != n;
    }
  }
}
