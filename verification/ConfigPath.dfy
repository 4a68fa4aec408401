/**
 * Configuration trees: merging one into another, listing every dotted path,
 * and reading and writing at a path. An object is its entries in order.
 */
module ConfigPath {
  import opened Text
  import Sorting

  type Fields = seq<(string, Value)>

  /** Anything that is not an object is kept as it is; lists are never looked into. */
  datatype Value = Scalar(text: string) | List(items: seq<Value>) | Record(fields: Fields)

  datatype Result<T> = Ok(value: T) | TooDeep

  predicate IsSafeKey(key: string) { key != "__proto__" && key != "prototype" && key != "constructor" }

  // ----- objects -----

  function Get(o: Fields, key: string): Option<Value> {
    if o == [] then None else if o[0].0 == key then Some(o[0].1) else Get(o[1..], key)
  }

  /** `o[key] = value`: in place when the key is there, else at the end. */
  function Put(o: Fields, key: string, value: Value): Fields {
    if o == [] then [(key, value)]
    else if o[0].0 == key then [(key, value)] + o[1..]
    else [o[0]] + Put(o[1..], key, value)
  }

  ghost predicate DistinctKeys(o: Fields) { forall i, j :: 0 <= i < j < |o| ==> o[i].0 != o[j].0 }

  lemma {:induction false} PutGet(o: Fields, key: string, value: Value, k: string)
    ensures Get(Put(o, key, value), k) == if k == key then Some(value) else Get(o, k)
  {
    if o != [] && o[0].0 != key {
      PutGet(o[1..], key, value, k);
      assert ([o[0]] + Put(o[1..], key, value))[1..] == Put(o[1..], key, value);
    } else if o != [] {
      assert ([(key, value)] + o[1..])[1..] == o[1..];
    }
  }

  /** Putting what is there already changes nothing. */
  lemma {:induction false} PutSame(o: Fields, key: string, value: Value)
    requires Get(o, key) == Some(value)
    ensures Put(o, key, value) == o
  {
    if o[0].0 != key {
      PutSame(o[1..], key, value);
    }
    assert o == [o[0]] + o[1..];
  }

  lemma {:induction false} GetIn(o: Fields, key: string)
    ensures Get(o, key).Some? <==> exists i :: 0 <= i < |o| && o[i].0 == key
  {
    if o != [] && o[0].0 != key {
      GetIn(o[1..], key);
      if i :| 0 <= i < |o| && o[i].0 == key {
        assert o[1..][i - 1].0 == key;
      }
      if i :| 0 <= i < |o[1..]| && o[1..][i].0 == key {
        assert o[i + 1].0 == key;
      }
    }
  }

  lemma TailDistinct(o: Fields)
    requires o != [] && DistinctKeys(o)
    ensures DistinctKeys(o[1..]) && Get(o[1..], o[0].0) == None
  {
    GetIn(o[1..], o[0].0);
    assert forall i :: 0 <= i < |o[1..]| ==> o[1..][i] == o[i + 1];
  }

  /** No object deeper than the limit, counted from `depth`, under safe keys. */
  predicate Fits(o: Fields, depth: nat, max: nat)
    decreases max + 1 - depth
  {
    depth <= max && forall i :: 0 <= i < |o| && IsSafeKey(o[i].0) && o[i].1.Record? ==>
      Fits(o[i].1.fields, depth + 1, max)
  }

  // ----- merging -----

  function FieldsOf(v: Option<Value>): Fields { if v.Some? && v.value.Record? then v.value.fields else [] }

  /** What a key of the source becomes over what the target has there. */
  function Over(existing: Option<Value>, value: Value): Value
    decreases value, 1
  {
    match value
    case Record(fields) => Record(Merged(FieldsOf(existing), fields))
    case _ => value
  }

  function Merged(target: Fields, source: Fields): Fields
    decreases source, 0
  {
    if source == [] then target else Merged(MergedField(target, source[0]), source[1..])
  }

  function MergedField(target: Fields, field: (string, Value)): Fields
    decreases field, 1
  {
    if IsSafeKey(field.0) then Put(target, field.0, Over(Get(target, field.0), field.1)) else target
  }

  /** `deepMerge`, with its loop over the source's entries. */
  method DeepMerge(target: Fields, source: Fields, depth: nat, max: nat) returns (r: Result<Fields>)
    ensures r == if Fits(source, depth, max) then Ok(Merged(target, source)) else TooDeep
    decreases max + 1 - depth
  {
    if depth > max {
      return TooDeep;
    }
    var out := target;
    var i := 0;
    assert source[0..] == source;
    while i < |source|
      invariant i <= |source| && Merged(out, source[i..]) == Merged(target, source)
      invariant forall j :: 0 <= j < i && IsSafeKey(source[j].0) && source[j].1.Record? ==>
        Fits(source[j].1.fields, depth + 1, max)
    {
      hide Put, Get, Merged;
      MergedStep(out, source, i);
      var (key, value) := source[i];
      if IsSafeKey(key) {
        if value.Record? {
          var nested := DeepMerge(FieldsOf(Get(out, key)), value.fields, depth + 1, max);
          if nested.TooDeep? {
            return TooDeep;
          }
          out := Put(out, key, Record(nested.value));
        } else {
          out := Put(out, key, value);
        }
      }
      i := i + 1;
    }
    NothingMerged(out, source[i..]);
    return Ok(out);
  }

  lemma MergedStep(out: Fields, source: Fields, i: nat)
    requires i < |source|
    ensures Merged(out, source[i..]) == Merged(MergedField(out, source[i]), source[i + 1..])
  {
    hide MergedField;
    assert source[i..][0] == source[i] && source[i..][1..] == source[i + 1..];
  }

  lemma NothingMerged(out: Fields, source: Fields)
    requires source == []
    ensures Merged(out, source) == out
  {
  }

  /** One key of a merge. */
  lemma {:induction false} MergedGet(target: Fields, source: Fields, k: string)
    requires DistinctKeys(source)
    ensures Get(Merged(target, source), k) ==
      match Get(source, k)
      case Some(value) => if IsSafeKey(k) then Some(Over(Get(target, k), value)) else Get(target, k)
      case None => Get(target, k)
    decreases |source|
  {
    hide Over, Put;
    if source != [] {
      var (key, value) := source[0];
      TailDistinct(source);
      var next := MergedField(target, source[0]);
      PutGet(target, key, Over(Get(target, key), value), k);
      MergedGet(next, source[1..], k);
    }
  }

  /** Keys are distinct at every level. */
  ghost predicate Proper(o: Fields)
    decreases o, 0
  {
    DistinctKeys(o) && forall i :: 0 <= i < |o| ==> ProperField(o[i])
  }

  ghost predicate ProperField(field: (string, Value))
    decreases field, 0
  {
    ProperValue(field.1)
  }

  ghost predicate ProperValue(v: Value)
    decreases v, 0
  {
    v.Record? ==> Proper(v.fields)
  }

  lemma {:induction false} ProperGet(o: Fields, k: string)
    requires Proper(o) && Get(o, k).Some? && Get(o, k).value.Record?
    ensures Proper(Get(o, k).value.fields)
    decreases |o|
  {
    assert ProperField(o[0]);
    assert ProperValue(o[0].1);
    if o[0].0 != k {
      ProperTail(o);
      ProperGet(o[1..], k);
    }
  }

  lemma TailAt(o: Fields)
    requires o != [] && DistinctKeys(o)
    ensures DistinctKeys(o[1..])
  {
    TailDistinct(o);
  }

  lemma ProperTail(o: Fields)
    requires Proper(o) && o != []
    ensures Proper(o[1..]) && DistinctKeys(o)
  {
    hide ProperField;
    TailAt(o);
    assert Proper(o[1..]) by {
      forall i | 0 <= i < |o[1..]| ensures ProperField(o[1..][i]) {
        assert o[1..][i] == o[i + 1];
      }
    }
  }

  // ----- what is at a path -----

  function Lookup(o: Fields, path: seq<string>): Option<Value>
    requires path != []
    decreases |path|
  {
    match Get(o, path[0])
    case None => None
    case Some(v) => if |path| == 1 then Some(v) else if v.Record? then Lookup(v.fields, path[1..]) else None
  }

  /** The same, through safe keys only. */
  function SafeLookup(o: Fields, path: seq<string>): Option<Value>
    requires path != []
  {
    if forall i :: 0 <= i < |path| ==> IsSafeKey(path[i]) then Lookup(o, path) else None
  }

  /** The source has something other than an object on the way to `path`. */
  ghost predicate Blocks(o: Fields, path: seq<string>) {
    exists n :: 0 < n < |path| && SafeLookup(o, path[..n]).Some? && !SafeLookup(o, path[..n]).value.Record?
  }

  /**
   * The path-wise, right-biased union: the source's value where it has one, an
   * object there merged over the target's; nothing below a source value that
   * is no object; the target's value on every path the source does not cover.
   */
  lemma {:induction false} MergedLookup(target: Fields, source: Fields, path: seq<string>)
    requires path != [] && Proper(source)
    ensures Lookup(Merged(target, source), path) ==
      match SafeLookup(source, path)
      case Some(Record(fields)) => Some(Record(Merged(FieldsOf(Lookup(target, path)), fields)))
      case Some(value) => Some(value)
      case None => if Blocks(source, path) then None else Lookup(target, path)
    decreases |path|
  {
    hide Merged, Get, Proper;
    var k := path[0];
    ProperDistinct(source);
    MergedGet(target, source, k);
    var s := Get(source, k);
    if |path| == 1 {
      assert !Blocks(source, path);
    } else if IsSafeKey(k) && s.Some? {
      if s.value.Record? {
        ProperGet(source, k);
        MergedLookup(FieldsOf(Get(target, k)), s.value.fields, path[1..]);
        StepIn(source, path, s.value.fields);
        EmptyLookup(path[1..]);
      } else {
        BlockedAtOnce(source, path);
      }
    } else {
      NotCovered(source, path);
    }
  }

  lemma ProperDistinct(o: Fields)
    requires Proper(o)
    ensures DistinctKeys(o)
  {
  }

  lemma EmptyLookup(path: seq<string>)
    requires path != []
    ensures Lookup([], path) == None
  {
  }

  /** Looking below a key the source has an object at. */
  lemma StepIn(o: Fields, path: seq<string>, fields: Fields)
    requires |path| > 1 && IsSafeKey(path[0]) && Get(o, path[0]) == Some(Record(fields))
    ensures SafeLookup(o, path) == SafeLookup(fields, path[1..]) && (Blocks(o, path) <==> Blocks(fields, path[1..]))
  {
    hide Get, IsSafeKey;
    var rest := path[1..];
    assert path == [path[0]] + rest;
    assert (forall i :: 0 <= i < |path| ==> IsSafeKey(path[i])) <==>
      forall i :: 0 <= i < |rest| ==> IsSafeKey(rest[i]) by {
      assert forall i :: 0 <= i < |rest| ==> rest[i] == path[i + 1];
    }
    forall n | 0 < n < |rest| ensures SafeLookup(o, path[..n + 1]) == SafeLookup(fields, rest[..n]) {
      StepPrefix(o, path, fields, n);
    }
    assert path[..1] == [path[0]];
    if Blocks(o, path) {
      var n :| 0 < n < |path| && SafeLookup(o, path[..n]).Some? && !SafeLookup(o, path[..n]).value.Record?;
      assert n > 1;
      assert SafeLookup(o, path[..(n - 1) + 1]) == SafeLookup(fields, rest[..n - 1]);
    }
    if Blocks(fields, rest) {
      var n :| 0 < n < |rest| && SafeLookup(fields, rest[..n]).Some? && !SafeLookup(fields, rest[..n]).value.Record?;
      assert SafeLookup(o, path[..n + 1]) == SafeLookup(fields, rest[..n]);
    }
  }

  lemma StepPrefix(o: Fields, path: seq<string>, fields: Fields, n: nat)
    requires 0 < n < |path| - 1 && IsSafeKey(path[0]) && Get(o, path[0]) == Some(Record(fields))
    ensures SafeLookup(o, path[..n + 1]) == SafeLookup(fields, path[1..][..n])
  {
    hide Get, IsSafeKey;
    var p, q := path[..n + 1], path[1..][..n];
    assert p[1..] == q && p[0] == path[0];
    assert (forall i :: 0 <= i < |p| ==> IsSafeKey(p[i])) <==> forall i :: 0 <= i < |q| ==> IsSafeKey(q[i]) by {
      assert forall i :: 0 <= i < |q| ==> q[i] == p[i + 1];
    }
  }

  lemma BlockedAtOnce(o: Fields, path: seq<string>)
    requires |path| > 1 && IsSafeKey(path[0]) && Get(o, path[0]).Some? && !Get(o, path[0]).value.Record?
    ensures Blocks(o, path) && SafeLookup(o, path) == None
  {
    hide Get;
    assert path[..1] == [path[0]];
    assert SafeLookup(o, path[..1]) == Get(o, path[0]);
  }

  lemma NotCovered(o: Fields, path: seq<string>)
    requires path != [] && (!IsSafeKey(path[0]) || Get(o, path[0]) == None)
    ensures !Blocks(o, path) && SafeLookup(o, path) == None
  {
    hide Get, IsSafeKey;
    forall n | 0 < n < |path| ensures SafeLookup(o, path[..n]) == None {
      assert path[..n][0] == path[0];
    }
  }

  // ----- merging twice -----

  lemma {:induction false} OverTwice(existing: Option<Value>, value: Value)
    requires ProperValue(value)
    ensures Over(Some(Over(existing, value)), value) == Over(existing, value)
    decreases value, 1
  {
    hide Merged, Proper;
    if value.Record? {
      MergedTwice(FieldsOf(existing), value.fields);
    }
  }

  /** Merging the same source again changes nothing, not even the order of keys. */
  lemma {:induction false} MergedTwice(target: Fields, source: Fields)
    requires Proper(source)
    ensures Merged(Merged(target, source), source) == Merged(target, source)
    decreases source, 0
  {
    hide Proper, Over, Get;
    var once := Merged(target, source);
    ProperDistinct(source);
    forall i | 0 <= i < |source| && IsSafeKey(source[i].0)
      ensures Get(once, source[i].0) == Some(Over(Get(once, source[i].0), source[i].1))
    {
      MergedGet(target, source, source[i].0);
      GetAt(source, i);
      ProperAt(source, i);
      OverTwiceField(Get(target, source[i].0), source[i]);
    }
    Settled(once, source);
  }

  lemma {:induction false} OverTwiceField(existing: Option<Value>, field: (string, Value))
    requires ProperField(field)
    ensures Over(Some(Over(existing, field.1)), field.1) == Over(existing, field.1)
    decreases field, 0
  {
    hide Over;
    OverTwice(existing, field.1);
  }

  lemma ProperAt(o: Fields, i: nat)
    requires Proper(o) && i < |o|
    ensures ProperField(o[i])
  {
  }

  lemma {:induction false} GetAt(o: Fields, i: nat)
    requires DistinctKeys(o) && i < |o|
    ensures Get(o, o[i].0) == Some(o[i].1)
  {
    if i > 0 {
      TailDistinct(o);
      assert o[1..][i - 1] == o[i];
      GetAt(o[1..], i - 1);
    }
  }

  /** A target every key of which already is what the merge would put there. */
  lemma {:induction false} Settled(target: Fields, source: Fields)
    requires forall i :: 0 <= i < |source| && IsSafeKey(source[i].0) ==>
      Get(target, source[i].0) == Some(Over(Get(target, source[i].0), source[i].1))
    ensures Merged(target, source) == target
    decreases |source|
  {
    hide Over, Get, Put;
    if source != [] {
      if IsSafeKey(source[0].0) {
        PutSame(target, source[0].0, Over(Get(target, source[0].0), source[0].1));
      }
      assert forall i :: 0 <= i < |source[1..]| ==> source[1..][i] == source[i + 1];
      Settled(target, source[1..]);
    }
  }

  // ----- reading and writing at a dotted path -----

  function NonEmpty(parts: seq<string>): seq<string> {
    if parts == [] then [] else (if parts[0] == "" then [] else [parts[0]]) + NonEmpty(parts[1..])
  }

  function Parts(path: string): seq<string> { NonEmpty(Split(path, '.')) }

  function GetParts(v: Value, parts: seq<string>): Option<Value>
    decreases |parts|
  {
    if parts == [] then Some(v)
    else if !IsSafeKey(parts[0]) || !v.Record? then None
    else match Get(v.fields, parts[0]) case Some(w) => GetParts(w, parts[1..]) case None => None
  }

  /** `getByPath`; `None` is undefined. */
  method GetByPath(v: Value, path: string) returns (r: Option<Value>)
    ensures r == if path == "" then Some(v) else GetParts(v, Parts(path))
  {
    if path == "" {
      return Some(v);
    }
    var parts := Parts(path);
    var cur := v;
    var i := 0;
    assert parts[0..] == parts;
    while i < |parts|
      invariant i <= |parts| && GetParts(cur, parts[i..]) == GetParts(v, parts)
    {
      hide Get, Parts;
      assert parts[i..][1..] == parts[i + 1..] && parts[i..][0] == parts[i];
      if !IsSafeKey(parts[i]) {
        return None;
      }
      if !cur.Record? {
        return None;
      }
      var next := Get(cur.fields, parts[i]);
      if next.None? {
        return None;
      }
      cur := next.value;
      i := i + 1;
    }
    return Some(cur);
  }

  /** What `setByPath` makes of an object, for a path of safe parts. */
  function SetParts(o: Fields, parts: seq<string>, value: Value): Fields
    requires parts != []
    decreases |parts|
  {
    if |parts| == 1 then Put(o, parts[0], value)
    else Put(o, parts[0], Record(SetParts(FieldsOf(Get(o, parts[0])), parts[1..], value)))
  }

  /** The value written is the value read there, and a path that leaves the written one reads as before. */
  lemma {:induction false} SetThenGet(o: Fields, parts: seq<string>, value: Value, other: seq<string>)
    requires parts != [] && forall i :: 0 <= i < |parts| ==> IsSafeKey(parts[i])
    ensures GetParts(Record(SetParts(o, parts, value)), parts) == Some(value)
    ensures !(parts <= other) && !(other <= parts) ==>
      GetParts(Record(SetParts(o, parts, value)), other) == GetParts(Record(o), other)
    decreases |parts|
  {
    hide Get, Put, IsSafeKey;
    var inner := if |parts| == 1 then value else Record(SetParts(FieldsOf(Get(o, parts[0])), parts[1..], value));
    PutGet(o, parts[0], inner, parts[0]);
    if |parts| > 1 {
      SetThenGet(FieldsOf(Get(o, parts[0])), parts[1..], value, if other == [] then [] else other[1..]);
    }
    if other != [] {
      PutGet(o, parts[0], inner, other[0]);
      if other[0] == parts[0] && !(parts <= other) && !(other <= parts) {
        assert parts == [parts[0]] + parts[1..] && other == [other[0]] + other[1..];
        assert !(parts[1..] <= other[1..]) && !(other[1..] <= parts[1..]);
        LeftEmpty(o, parts[0], other[1..]);
      }
    }
  }

  /** `setByPath`: an empty path, and one with a reserved name in it, write nothing. */
  function SetByPath(o: Fields, path: string, value: Value): Fields {
    var parts := Parts(path);
    if parts == [] || exists i :: 0 <= i < |parts| && !IsSafeKey(parts[i]) then o else SetParts(o, parts, value)
  }

  /** Some part is a name that leads to what all objects share. */
  predicate Reserved(parts: seq<string>) {
    "__proto__" in parts || "prototype" in parts || "constructor" in parts
  }

  lemma ReservedExactly(parts: seq<string>)
    ensures Reserved(parts) <==> exists i :: 0 <= i < |parts| && !IsSafeKey(parts[i])
  {
    assert forall i :: 0 <= i < |parts| ==> parts[i] in parts;
  }

  /** A written value is read back where the path has a part and no reserved name; any other path writes nothing. */
  lemma WriteThenRead(o: Fields, path: string, value: Value)
    ensures var parts := Parts(path);
      if parts != [] && !Reserved(parts) then GetParts(Record(SetByPath(o, path, value)), parts) == Some(value)
      else SetByPath(o, path, value) == o
  {
    hide SetParts, Parts, Reserved, IsSafeKey, GetParts;
    var parts := Parts(path);
    ReservedExactly(parts);
    if parts != [] && !Reserved(parts) {
      SetThenGet(o, parts, value, []);
    }
  }

  /** Nothing is read behind a reserved name, and a merge takes nothing from there. */
  lemma ReservedUntouched(target: Fields, source: Fields, path: seq<string>, v: Value)
    requires Reserved(path) && Proper(source)
    ensures GetParts(v, path) == None
    ensures Lookup(Merged(target, source), path) in {None, Lookup(target, path)}
  {
    hide Lookup, Merged, Reserved, Proper, IsSafeKey;
    assert path != [] by { ReservedSome(path); }
    ReservedExactly(path);
    MergedLookup(target, source, path);
    var i :| 0 <= i < |path| && !IsSafeKey(path[i]);
    UnsafeUnread(v, path, i);
  }

  lemma ReservedSome(path: seq<string>)
    requires Reserved(path)
    ensures path != []
  {
  }

  lemma {:induction false} UnsafeUnread(v: Value, path: seq<string>, i: nat)
    requires i < |path| && !IsSafeKey(path[i])
    ensures GetParts(v, path) == None
    decreases |path|
  {
    hide IsSafeKey, Get;
    if i > 0 && v.Record? {
      match Get(v.fields, path[0])
      case None =>
      case Some(w) => UnsafeUnread(w, path[1..], i - 1);
    }
  }

  lemma LeftEmpty(o: Fields, key: string, rest: seq<string>)
    requires rest != []
    ensures Get(o, key).None? || !Get(o, key).value.Record? ==> GetParts(Record(FieldsOf(Get(o, key))), rest) == None
  {
  }

  // ----- listing every path -----

  type Entry = (seq<string>, Value)

  /** Every safe path below an object with what is there, depth first. */
  function Paths(o: Fields, at: seq<string>): seq<Entry>
    decreases o, 0
  {
    if o == [] then [] else Below(o[0], at) + Paths(o[1..], at)
  }

  function Below(field: (string, Value), at: seq<string>): seq<Entry>
    decreases field, 1
  {
    if !IsSafeKey(field.0) then []
    else
      var here := at + [field.0];
      [(here, field.1)] + PathsIn(field.1, here)
  }

  function PathsIn(v: Value, at: seq<string>): seq<Entry>
    decreases v, 0
  {
    if v.Record? then Paths(v.fields, at) else []
  }

  /** A stack frame of the walk, with the keys its prefix is made of. */
  datatype Frame = Frame(fields: Fields, path: seq<string>, depth: nat)

  /** The path text of a key below a prefix. */
  function PathText(prefix: string, key: string): string { if prefix != "" then prefix + "." + key else key }

  /** The prefix a frame at `path` has when the walk starts from `prefix`. */
  function DottedFrom(prefix: string, path: seq<string>): string {
    if path == [] then prefix else PathText(DottedFrom(prefix, path[..|path| - 1]), path[|path| - 1])
  }

  function Dotted(path: seq<string>): string { DottedFrom("", path) }

  /** What the frames on the stack will list. */
  ghost function Pending(stack: seq<Frame>): multiset<Entry> {
    if stack == [] then multiset{}
    else Pending(stack[..|stack| - 1]) + multiset(Paths(stack[|stack| - 1].fields, stack[|stack| - 1].path))
  }

  ghost predicate AllFit(stack: seq<Frame>, max: nat) {
    forall i :: 0 <= i < |stack| ==> Fits(stack[i].fields, stack[i].depth, max)
  }

  function Weight(o: Fields): nat
    decreases o, 0
  {
    if o == [] then 0 else WeightIn(o[0]) + Weight(o[1..])
  }

  function WeightIn(field: (string, Value)): nat
    decreases field, 0
  {
    WeightOf(field.1)
  }

  function WeightOf(v: Value): nat
    decreases v, 1
  {
    match v case Record(fields) => 2 + Weight(fields) case _ => 1
  }

  function StackWeight(stack: seq<Frame>): nat {
    if stack == [] then 0 else StackWeight(stack[..|stack| - 1]) + 1 + Weight(stack[|stack| - 1].fields)
  }

  lemma PendingPush(stack: seq<Frame>, f: Frame)
    ensures Pending(stack + [f]) == Pending(stack) + multiset(Paths(f.fields, f.path))
    ensures StackWeight(stack + [f]) == StackWeight(stack) + 1 + Weight(f.fields)
  {
    assert (stack + [f])[..|stack|] == stack;
  }

  lemma PathsConcat(a: seq<Entry>, b: seq<Entry>)
    ensures multiset(a + b) == multiset(a) + multiset(b)
  {
  }

  lemma PathsRest(o: Fields, at: seq<string>, i: nat)
    requires i < |o|
    ensures multiset(Paths(o[i..], at)) == multiset(Below(o[i], at)) + multiset(Paths(o[i + 1..], at))
    ensures Weight(o[i..]) == WeightOf(o[i].1) + Weight(o[i + 1..])
  {
    hide Below, WeightOf;
    assert o[i..][0] == o[i] && o[i..][1..] == o[i + 1..];
    PathsConcat(Below(o[i], at), Paths(o[i + 1..], at));
  }

  lemma BelowOne(field: (string, Value), at: seq<string>)
    ensures multiset(Below(field, at)) ==
      if !IsSafeKey(field.0) then multiset{}
      else
        multiset{(at + [field.0], field.1)} + if field.1.Record? then multiset(Paths(field.1.fields, at + [field.0]))
          else multiset{}
  {
    hide Paths, IsSafeKey;
    if IsSafeKey(field.0) && field.1.Record? {
      PathsConcat([(at + [field.0], field.1)], Paths(field.1.fields, at + [field.0]));
    }
  }

  /** The objects among one field are within the limit. */
  ghost predicate FieldFits(field: (string, Value), depth: nat, max: nat) {
    IsSafeKey(field.0) && field.1.Record? ==> Fits(field.1.fields, depth + 1, max)
  }

  /** One entry of a frame: it is listed, and pushed if it is an object. */
  method ExpandField(field: (string, Value), frame: Frame, stack: seq<Frame>, done: seq<Entry>, ghost max: nat)
    returns (stack': seq<Frame>, done': seq<Entry>)
    ensures multiset(done') + Pending(stack') == multiset(done) + Pending(stack) + multiset(Below(field, frame.path))
    ensures AllFit(stack', max) <==> AllFit(stack, max) && FieldFits(field, frame.depth, max)
    ensures StackWeight(stack') <= StackWeight(stack) + WeightOf(field.1)
  {
    hide Paths, Below, Weight, WeightOf, Pending, StackWeight, Fits, AllFit, IsSafeKey;
    BelowOne(field, frame.path);
    WeightSome(field.1);
    stack', done' := stack, done;
    if IsSafeKey(field.0) {
      var here := frame.path + [field.0];
      assert multiset(done + [(here, field.1)]) == multiset(done) + multiset{(here, field.1)};
      done' := done + [(here, field.1)];
      if field.1.Record? {
        var next := Frame(field.1.fields, here, frame.depth + 1);
        FitTop(stack, next, max);
        PendingPush(stack, next);
        stack' := stack + [next];
      }
    }
  }

  /** The entries of one frame, in order. */
  method Expand(frame: Frame, stack: seq<Frame>, done: seq<Entry>, ghost max: nat)
    returns (stack': seq<Frame>, done': seq<Entry>)
    requires frame.depth <= max
    ensures multiset(done') + Pending(stack') ==
      multiset(done) + Pending(stack) + multiset(Paths(frame.fields, frame.path))
    ensures AllFit(stack', max) <==> AllFit(stack, max) && Fits(frame.fields, frame.depth, max)
    ensures StackWeight(stack') <= StackWeight(stack) + Weight(frame.fields)
  {
    hide Paths, Below, Weight, WeightOf, Pending, StackWeight, Fits, AllFit, FieldFits;
    var o := frame.fields;
    stack', done' := stack, done;
    var i := 0;
    assert o[0..] == o;
    while i < |o|
      invariant i <= |o|
      invariant multiset(done') + Pending(stack') + multiset(Paths(o[i..], frame.path)) ==
        multiset(done) + Pending(stack) + multiset(Paths(o, frame.path))
      invariant AllFit(stack', max) <==>
        AllFit(stack, max) && forall j :: 0 <= j < i ==> FieldFits(o[j], frame.depth, max)
      invariant StackWeight(stack') + Weight(o[i..]) <= StackWeight(stack) + Weight(o)
    {
      PathsRest(o, frame.path, i);
      stack', done' := ExpandField(o[i], frame, stack', done', max);
      i := i + 1;
    }
    NoPaths(o[i..], frame.path);
    FitsNow(o, frame.depth, max);
  }

  lemma WeightSome(v: Value)
    ensures WeightOf(v) == if v.Record? then 2 + Weight(v.fields) else 1
  {
  }

  lemma NoPaths(o: Fields, at: seq<string>)
    requires o == []
    ensures Paths(o, at) == [] && Weight(o) == 0
  {
  }

  lemma FitsNow(o: Fields, depth: nat, max: nat)
    requires depth <= max
    ensures Fits(o, depth, max) <==> forall j :: 0 <= j < |o| ==> FieldFits(o[j], depth, max)
  {
  }

  /** `flattenEntries`: every safe path once, behind the prefix, or the depth error. */
  method FlattenEntries(o: Fields, prefix: string, max: nat) returns (r: Result<seq<(string, Value)>>)
    ensures r.Ok? <==> Fits(o, 0, max)
    ensures r.Ok? ==>
      exists done: seq<Entry> :: multiset(done) == multiset(Paths(o, [])) && r.value == DottedEntries(prefix, done)
    ensures r.Ok? && Proper(o) && PlainKeys(o) ==>
      exists bare :: Flattened(o, bare) && r.value == Prefixed(prefix, bare)
  {
    hide Paths, Fits, Pending, StackWeight, Weight, DottedEntries, Prefixed, Proper, PlainKeys, Flattened;
    var stack := [Frame(o, [], 0)];
    var done: seq<Entry> := [];
    Start(o, max);
    while stack != []
      invariant multiset(done) + Pending(stack) == multiset(Paths(o, []))
      invariant AllFit(stack, max) <==> Fits(o, 0, max)
      decreases StackWeight(stack)
    {
      var top := |stack| - 1;
      var frame := stack[top];
      assert stack == stack[..top] + [frame];
      PendingPush(stack[..top], frame);
      FitTop(stack[..top], frame, max);
      if frame.depth > max {
        DeepFails(frame.fields, frame.depth, max);
        return TooDeep;
      }
      stack, done := Expand(frame, stack[..top], done, max);
    }
    NothingPending(stack);
    if Proper(o) && PlainKeys(o) {
      FlattenedExactly(o, done, DottedEntries("", done));
      PrefixedExactly(o, done, prefix);
    }
    return Ok(DottedEntries(prefix, done));
  }

  lemma Start(o: Fields, max: nat)
    ensures Pending([Frame(o, [], 0)]) == multiset(Paths(o, []))
    ensures (AllFit([Frame(o, [], 0)], max) <==> Fits(o, 0, max))
  {
    hide Paths, Fits, Pending;
    PendingPush([], Frame(o, [], 0));
    NothingPending([]);
    assert [] + [Frame(o, [], 0)] == [Frame(o, [], 0)];
    assert [Frame(o, [], 0)][0] == Frame(o, [], 0);
  }

  lemma NothingPending(stack: seq<Frame>)
    requires stack == []
    ensures Pending(stack) == multiset{}
  {
  }

  lemma FitTop(stack: seq<Frame>, f: Frame, max: nat)
    ensures AllFit(stack + [f], max) <==> AllFit(stack, max) && Fits(f.fields, f.depth, max)
  {
    hide Fits;
    var more := stack + [f];
    assert more[|stack|] == f && forall i :: 0 <= i < |stack| ==> more[i] == stack[i];
  }

  lemma DeepFails(o: Fields, depth: nat, max: nat)
    requires depth > max
    ensures !Fits(o, depth, max)
  {
  }

  function DottedEntries(prefix: string, done: seq<Entry>): (r: seq<(string, Value)>)
    ensures |r| == |done| && forall i :: 0 <= i < |done| ==> r[i] == (DottedFrom(prefix, done[i].0), done[i].1)
  {
    seq(|done|, i requires 0 <= i < |done| => (DottedFrom(prefix, done[i].0), done[i].1))
  }

  /** Entries with a prefix put before their paths. */
  function Prefixed(prefix: string, bare: seq<(string, Value)>): (r: seq<(string, Value)>)
    ensures |r| == |bare| && forall i :: 0 <= i < |bare| ==> r[i] == (PathText(prefix, bare[i].0), bare[i].1)
  {
    seq(|bare|, i requires 0 <= i < |bare| => (PathText(prefix, bare[i].0), bare[i].1))
  }

  // ----- what the list holds -----

  predicate SafePath(path: seq<string>) { forall i :: 0 <= i < |path| ==> IsSafeKey(path[i]) }

  /**
   * A listed path extends the one it was listed from, by safe keys, and has the value found there; all such paths are
   * listed.
   */
  lemma {:induction false} PathsAre(o: Fields, at: seq<string>, e: Entry)
    requires Proper(o)
    ensures e in Paths(o, at) <==>
      at <= e.0 && |at| < |e.0| && SafePath(e.0[|at|..]) && Lookup(o, e.0[|at|..]) == Some(e.1)
    decreases o, 0
  {
    hide Below, SafePath, Lookup, Proper;
    if o == [] {
      if at <= e.0 && |at| < |e.0| {
        EmptyLookup(e.0[|at|..]);
      }
    } else {
      ProperTail(o);
      ProperAt(o, 0);
      BelowAre(o[0], at, e);
      PathsAre(o[1..], at, e);
      if at <= e.0 && |at| < |e.0| {
        LookupFirst(o, e.0[|at|..]);
      }
    }
  }

  /** An entry below one field is one whose next key is that field's. */
  lemma {:induction false} BelowAre(field: (string, Value), at: seq<string>, e: Entry)
    requires ProperField(field)
    ensures e in Below(field, at) <==>
      at <= e.0 && |at| < |e.0| && SafePath(e.0[|at|..]) && e.0[|at|] == field.0 &&
        Lookup([field], e.0[|at|..]) == Some(e.1)
    decreases field, 1
  {
    hide Paths, Proper;
    var here := at + [field.0];
    PathsInAre(field.1, here, e);
    if at <= e.0 && |at| < |e.0| {
      var rest := e.0[|at|..];
      SafeSplit(rest);
      assert rest[0] == e.0[|at|];
      if rest[0] == field.0 {
        assert here <= e.0;
        assert rest[1..] == e.0[|here|..];
        assert |rest| == 1 ==> e.0 == here;
      }
    }
    if here <= e.0 {
      assert e.0[|at|] == field.0 && at <= e.0;
    }
  }

  lemma {:induction false} PathsInAre(v: Value, at: seq<string>, e: Entry)
    requires ProperValue(v)
    ensures e in PathsIn(v, at) <==>
      v.Record? && at <= e.0 && |at| < |e.0| && SafePath(e.0[|at|..]) && Lookup(v.fields, e.0[|at|..]) == Some(e.1)
    decreases v, 0
  {
    hide Paths, Proper;
    if v.Record? {
      PathsAre(v.fields, at, e);
    }
  }

  lemma SafeSplit(path: seq<string>)
    requires path != []
    ensures SafePath(path) <==> IsSafeKey(path[0]) && SafePath(path[1..])
  {
    hide IsSafeKey;
    assert forall i :: 0 <= i < |path[1..]| ==> path[1..][i] == path[i + 1];
  }

  lemma LookupFirst(o: Fields, path: seq<string>)
    requires o != [] && path != [] && DistinctKeys(o)
    ensures Lookup(o, path) == if path[0] == o[0].0 then Lookup([o[0]], path) else Lookup(o[1..], path)
    ensures path[0] == o[0].0 ==> Lookup(o[1..], path) == None
  {
    TailDistinct(o);
    assert [o[0]][1..] == [];
  }

  ghost predicate NoRepeats(s: seq<Entry>) { forall i, j :: 0 <= i < j < |s| ==> s[i].0 != s[j].0 }

  lemma {:induction false} PathsOnce(o: Fields, at: seq<string>)
    requires Proper(o)
    ensures NoRepeats(Paths(o, at))
    decreases o, 0
  {
    hide Below, Proper, Lookup, SafePath;
    if o != [] {
      ProperTail(o);
      ProperAt(o, 0);
      BelowOnce(o[0], at);
      PathsOnce(o[1..], at);
      var a, b := Below(o[0], at), Paths(o[1..], at);
      forall i, j | 0 <= i < |a| && 0 <= j < |b| ensures a[i].0 != b[j].0 {
        BelowAre(o[0], at, a[i]);
        PathsAre(o[1..], at, b[j]);
        assert a[i] in a && b[j] in b;
        LookupFirst(o, b[j].0[|at|..]);
      }
    }
  }

  lemma {:induction false} BelowOnce(field: (string, Value), at: seq<string>)
    requires ProperField(field)
    ensures NoRepeats(Below(field, at))
    decreases field, 1
  {
    hide PathsIn, ProperValue, Lookup, SafePath;
    var here := at + [field.0];
    PathsInOnce(field.1, here);
    var b := PathsIn(field.1, here);
    forall j | 0 <= j < |b| ensures b[j].0 != here {
      PathsInAre(field.1, here, b[j]);
      assert b[j] in b;
    }
  }

  lemma {:induction false} PathsInOnce(v: Value, at: seq<string>)
    requires ProperValue(v)
    ensures NoRepeats(PathsIn(v, at))
    decreases v, 0
  {
    hide Paths, Proper;
    if v.Record? {
      PathsOnce(v.fields, at);
    }
  }

  // ----- dotted paths -----

  /** Keys that can be told apart in a dotted path. */
  ghost predicate Plain(path: seq<string>) { forall i :: 0 <= i < |path| ==> path[i] != "" && '.' !in path[i] }

  lemma {:induction false} JoinLast(path: seq<string>, key: string)
    requires path != []
    ensures Join(path + [key], ".") == Join(path, ".") + "." + key
  {
    assert (path + [key])[1..] == path[1..] + [key] && (path + [key])[0] == path[0];
    if |path| > 1 {
      JoinLast(path[1..], key);
      Assoc4(path[0] + ".", Join(path[1..], "."), ".", key);
      Assoc(path[0] + ".", Join(path[1..], "."), "." + key);
      Assoc(path[0] + "." + Join(path[1..], "."), ".", key);
      Assoc(Join(path[1..], "."), ".", key);
    } else {
      assert (path[1..] + [key]) == [key];
    }
  }

  lemma {:induction false} DottedJoins(path: seq<string>)
    requires path != [] && Plain(path)
    ensures Dotted(path) == Join(path, ".") && Dotted(path) != ""
  {
    hide Join;
    var last := |path| - 1;
    assert path == path[..last] + [path[last]];
    if last == 0 {
      assert path[..0] == [] && DottedFrom("", path[..0]) == "";
      JoinOne(path);
    } else {
      DottedJoins(path[..last]);
      JoinLast(path[..last], path[last]);
    }
  }

  lemma JoinOne(path: seq<string>)
    requires |path| == 1
    ensures Join(path, ".") == path[0]
  {
  }

  lemma {:induction false} PlainParts(path: seq<string>)
    requires Plain(path)
    ensures NonEmpty(path) == path
  {
    if path != [] {
      PlainParts(path[1..]);
      assert path == [path[0]] + path[1..];
    }
  }

  lemma DottedParts(path: seq<string>)
    requires path != [] && Plain(path)
    ensures Split(Dotted(path), '.') == path && NonEmpty(path) == path && Dotted(path) != ""
  {
    hide Split, Join, Dotted, NonEmpty;
    DottedJoins(path);
    PlainParts(path);
    assert "." == ['.'];
    SplitJoin(path, '.');
  }

  /** Two plain paths with one dotted form are the same path. */
  lemma DottedInjective(a: seq<string>, b: seq<string>)
    requires a != [] && b != [] && Plain(a) && Plain(b) && Dotted(a) == Dotted(b)
    ensures a == b
  {
    DottedParts(a);
    DottedParts(b);
  }

  lemma {:induction false} LookupParts(o: Fields, path: seq<string>)
    requires path != [] && SafePath(path)
    ensures GetParts(Record(o), path) == Lookup(o, path)
    decreases |path|
  {
    hide Get, IsSafeKey;
    match Get(o, path[0])
    case None =>
    case Some(v) =>
      if |path| > 1 {
        SafeSplit(path);
        if v.Record? {
          LookupParts(v.fields, path[1..]);
        }
      }
  }

  /** Keys at every level are plain. */
  ghost predicate PlainKeys(o: Fields) {
    forall path: seq<string> :: path != [] && Lookup(o, path).Some? ==> Plain(path)
  }

  /**
   * Each dotted path is listed once, reading it gives the value listed, and every safe path of the object is listed.
   */
  ghost predicate Flattened(o: Fields, entries: seq<(string, Value)>) {
    && (forall i, j :: 0 <= i < j < |entries| ==> entries[i].0 != entries[j].0)
    && (forall i :: 0 <= i < |entries| ==>
        entries[i].0 != "" && GetParts(Record(o), Parts(entries[i].0)) == Some(entries[i].1))
    && (forall path: seq<string> :: path != [] && SafePath(path) && Lookup(o, path).Some? ==>
        (Dotted(path), Lookup(o, path).value) in entries)
  }

  lemma BareEntries(done: seq<Entry>)
    ensures forall i :: 0 <= i < |done| ==> DottedEntries("", done)[i] == (Dotted(done[i].0), done[i].1)
  {
    hide DottedFrom;
  }

  lemma ListedPaths(o: Fields, done: seq<Entry>)
    requires Proper(o) && PlainKeys(o) && multiset(done) == multiset(Paths(o, []))
    ensures forall i :: 0 <= i < |done| ==>
      done[i].0 != [] && SafePath(done[i].0) && Lookup(o, done[i].0) == Some(done[i].1) && Plain(done[i].0)
  {
    hide Paths, Lookup, Proper, Plain, SafePath;
    forall i | 0 <= i < |done|
      ensures done[i].0 != [] && SafePath(done[i].0) && Lookup(o, done[i].0) == Some(done[i].1) && Plain(done[i].0)
    {
      assert done[i] in multiset(done);
      PathsAre(o, [], done[i]);
      assert done[i].0[0..] == done[i].0;
    }
  }

  lemma {:induction false} DottedAfter(prefix: string, path: seq<string>)
    requires path != [] && Plain(path)
    ensures DottedFrom(prefix, path) == PathText(prefix, Dotted(path)) && Dotted(path) != ""
  {
    var last := |path| - 1;
    if last > 0 {
      DottedAfter(prefix, path[..last]);
      var above := Dotted(path[..last]);
      assert Dotted(path) == above + "." + path[last];
      if prefix != "" {
        Assoc4(prefix + ".", above, ".", path[last]);
        Assoc(above, ".", path[last]);
      }
    } else {
      assert path[..0] == [] && DottedFrom(prefix, path[..0]) == prefix && DottedFrom("", path[..0]) == "";
    }
  }

  lemma PrefixedExactly(o: Fields, done: seq<Entry>, prefix: string)
    requires Proper(o) && PlainKeys(o) && multiset(done) == multiset(Paths(o, []))
    ensures DottedEntries(prefix, done) == Prefixed(prefix, DottedEntries("", done))
  {
    hide Paths, Lookup, Proper, PlainKeys, Plain, SafePath, DottedFrom, PathText;
    ListedPaths(o, done);
    forall i | 0 <= i < |done|
      ensures DottedEntries(prefix, done)[i] == Prefixed(prefix, DottedEntries("", done))[i]
    {
      DottedAfter(prefix, done[i].0);
    }
  }

  lemma FlattenedExactly(o: Fields, done: seq<Entry>, entries: seq<(string, Value)>)
    requires Proper(o) && PlainKeys(o) && multiset(done) == multiset(Paths(o, [])) && entries == DottedEntries("", done)
    ensures Flattened(o, entries)
  {
    hide Paths, Lookup, GetParts, Proper, Plain, Dotted, DottedFrom, SafePath;
    assert forall i :: 0 <= i < |entries| ==> entries[i] == (Dotted(done[i].0), done[i].1) by { BareEntries(done); }
    ListedPaths(o, done);
    PathsOnce(o, []);
    OnceEither(done, Paths(o, []));
    forall i, j | 0 <= i < j < |entries| ensures entries[i].0 != entries[j].0 {
      if Dotted(done[i].0) == Dotted(done[j].0) {
        DottedInjective(done[i].0, done[j].0);
        assert false;
      }
    }
    forall i | 0 <= i < |entries|
      ensures entries[i].0 != "" && GetParts(Record(o), Parts(entries[i].0)) == Some(entries[i].1)
    {
      DottedParts(done[i].0);
      LookupParts(o, done[i].0);
    }
    forall path: seq<string> | path != [] && SafePath(path) && Lookup(o, path).Some?
      ensures (Dotted(path), Lookup(o, path).value) in entries
    {
      var e := (path, Lookup(o, path).value);
      assert path[0..] == path;
      PathsAre(o, [], e);
      assert e in multiset(Paths(o, []));
      assert e in multiset(done);
      var i :| 0 <= i < |done| && done[i] == e;
      assert entries[i] == (Dotted(path), Lookup(o, path).value);
    }
  }

  /** A reordering of a list without repeated paths has none either. */
  lemma OnceEither(a: seq<Entry>, b: seq<Entry>)
    requires multiset(a) == multiset(b) && NoRepeats(b)
    ensures NoRepeats(a)
  {
    Sorting.ReorderNoRepeats(a, b);
    forall i, j | 0 <= i < j < |a| ensures a[i].0 != a[j].0 {
      assert a[i] in multiset(b) && a[j] in multiset(b) && a[i] != a[j];
      var m :| 0 <= m < |b| && b[m] == a[i];
      var n :| 0 <= n < |b| && b[n] == a[j];
      assert m != n;
    }
  }
}
