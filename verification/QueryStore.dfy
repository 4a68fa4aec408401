/**
 * The in-memory repository, a map from normalized id to entity in insertion
 * order, and derived queries run against it.
 */
module QueryStore {
  import opened Text
  import opened QueryName
  import opened QueryExec
  import opened Sorting
  import Numerals

  datatype Entry = Entry(key: string, entity: Entity)

  /** `normalizeId`: ids are compared by their text. */
  function Normal(id: Id): string {
    match id case IdText(s) => s case IdNumber(n) => Numerals.IntText(n)
  }

  /** Two ids share a key exactly when they are equal, or one is the decimal text of the other. */
  lemma SameKey(a: Id, b: Id)
    ensures Normal(a) == Normal(b) <==>
      match (a, b)
      case (IdText(s), IdText(t)) => s == t
      case (IdNumber(m), IdNumber(n)) => m == n
      case (IdText(s), IdNumber(n)) => s == Numerals.IntText(n)
      case (IdNumber(m), IdText(t)) => Numerals.IntText(m) == t
  {
    if a.IdNumber? && b.IdNumber? {
      Numerals.IntRoundTrip(a.number);
      Numerals.IntRoundTrip(b.number);
    }
  }

  ghost predicate UniqueKeys(items: seq<Entry>) {
    forall i, j :: 0 <= i < j < |items| ==> items[i].key != items[j].key
  }

  /** Every entity is stored under its own id. */
  ghost predicate Keyed(items: seq<Entry>) {
    forall i :: 0 <= i < |items| ==> items[i].key == Normal(items[i].entity.id)
  }

  function Values(items: seq<Entry>): (r: seq<Entity>)
    ensures |r| == |items| && forall i :: 0 <= i < |items| ==> r[i] == items[i].entity
  {
    seq(|items|, i requires 0 <= i < |items| => items[i].entity)
  }

  function Find(items: seq<Entry>, key: string): (n: nat)
    ensures n <= |items| && (n < |items| ==> items[n].key == key)
    ensures forall i :: 0 <= i < n ==> items[i].key != key
  {
    if items == [] || items[0].key == key then 0 else 1 + Find(items[1..], key)
  }

  predicate Has(items: seq<Entry>, key: string) { Find(items, key) < |items| }

  /** `Map.set`: in place when the key is there, else at the end. */
  function Stored(items: seq<Entry>, key: string, entity: Entity): seq<Entry> {
    var n := Find(items, key);
    if n < |items| then items[n := Entry(key, entity)] else items + [Entry(key, entity)]
  }

  function Remove(items: seq<Entry>, key: string): seq<Entry> {
    var n := Find(items, key);
    if n < |items| then items[..n] + items[n + 1..] else items
  }

  /** The deletes of a query one after the other, and how many of them found something. */
  function RemoveAll(items: seq<Entry>, keys: seq<string>): seq<Entry> {
    if keys == [] then items else RemoveAll(Remove(items, keys[0]), keys[1..])
  }

  function Removed(items: seq<Entry>, keys: seq<string>): nat {
    if keys == [] then 0 else (if Has(items, keys[0]) then 1 else 0) + Removed(Remove(items, keys[0]), keys[1..])
  }

  function Ids(entities: seq<Entity>): (r: seq<string>)
    ensures |r| == |entities| && forall i :: 0 <= i < |entities| ==> r[i] == Normal(entities[i].id)
  {
    seq(|entities|, i requires 0 <= i < |entities| => Normal(entities[i].id))
  }

  lemma PutKeeps(items: seq<Entry>, key: string, entity: Entity)
    requires UniqueKeys(items)
    ensures UniqueKeys(Stored(items, key, entity))
    ensures Keyed(items) ==> (Keyed(Stored(items, key, entity)) <==> key == Normal(entity.id))
  {
    var n := Find(items, key);
    var r := Stored(items, key, entity);
    assert n <= |r| - 1 && r[n] == Entry(key, entity);
  }

  lemma RemoveKeeps(items: seq<Entry>, key: string)
    requires UniqueKeys(items)
    ensures UniqueKeys(Remove(items, key)) && (Keyed(items) ==> Keyed(Remove(items, key)))
    ensures forall e: Entry :: e in Remove(items, key) <==> e in items && e.key != key
  {
    var n := Find(items, key);
    var r := Remove(items, key);
    forall e: Entry | e in items && e.key != key ensures e in r {
      var i :| 0 <= i < |items| && items[i] == e;
      assert i < n || (i > n && r[i - 1] == e);
      assert i < n ==> r[i] == e;
    }
  }

  lemma RemoveLater(items: seq<Entry>, key: string)
    requires items != [] && items[0].key != key
    ensures Remove(items, key) == [items[0]] + Remove(items[1..], key)
  {
    var n := Find(items[1..], key);
    if n < |items[1..]| {
      assert items[..n + 1] == [items[0]] + items[1..][..n] && items[n + 2..] == items[1..][n + 1..];
    }
  }

  /** Removing one key is keeping the others, in order. */
  lemma {:induction false} RemoveSelects(items: seq<Entry>, key: string)
    requires UniqueKeys(items)
    ensures Remove(items, key) == Select(items, (e: Entry) => e.key != key)
  {
    if items != [] {
      if items[0].key == key {
        assert Remove(items, key) == items[1..];
        SelectAll(items[1..], (e: Entry) => e.key != key);
      } else {
        RemoveSelects(items[1..], key);
        RemoveLater(items, key);
      }
    }
  }

  lemma {:induction false} SelectTwice<T>(s: seq<T>, p: T -> bool, q: T -> bool, both: T -> bool)
    requires forall x :: both(x) == (p(x) && q(x))
    ensures Select(Select(s, p), q) == Select(s, both)
  {
    if s != [] {
      SelectTwice(s[1..], p, q, both);
      if p(s[0]) {
        assert Select(s, p)[1..] == Select(s[1..], p);
      }
    }
  }

  ghost predicate UniqueTexts(keys: seq<string>) { forall i, j :: 0 <= i < j < |keys| ==> keys[i] != keys[j] }

  ghost predicate AllHeld(items: seq<Entry>, keys: seq<string>) { forall i :: 0 <= i < |keys| ==> Has(items, keys[i]) }

  /**
   * Deleting keys one after the other keeps exactly the entries with other
   * keys, in order, and counts every delete exactly when the keys are distinct
   * and all there.
   */
  lemma {:induction false} RemoveAllExactly(items: seq<Entry>, keys: seq<string>)
    requires UniqueKeys(items)
    ensures RemoveAll(items, keys) == Select(items, (e: Entry) => e.key !in keys)
    ensures Removed(items, keys) <= |keys|
    ensures Removed(items, keys) == |keys| <==> UniqueTexts(keys) && AllHeld(items, keys)
    decreases |keys|
  {
    hide Has, Remove;
    if keys == [] {
      SelectAll(items, (e: Entry) => e.key !in keys);
    } else {
      var rest, tail := Remove(items, keys[0]), keys[1..];
      RemoveKeeps(items, keys[0]);
      RemoveAllExactly(rest, tail);
      RemoveSelects(items, keys[0]);
      SelectTwice(items, (e: Entry) => e.key != keys[0], (e: Entry) => e.key !in tail, (e: Entry) => e.key !in keys);
      HeldRest(items, keys);
    }
  }

  /** The keys after the first one are distinct and there once it is gone exactly when all of them are. */
  lemma HeldRest(items: seq<Entry>, keys: seq<string>)
    requires UniqueKeys(items) && keys != []
    ensures Has(items, keys[0]) && UniqueTexts(keys[1..]) && AllHeld(Remove(items, keys[0]), keys[1..]) <==>
      UniqueTexts(keys) && AllHeld(items, keys)
  {
    hide Has, Remove;
    var tail := keys[1..];
    forall i | 0 <= i < |tail|
      ensures tail[i] == keys[i + 1]
      ensures (Has(Remove(items, keys[0]), tail[i]) <==> Has(items, keys[i + 1]) && keys[i + 1] != keys[0])
    {
      HasRest(items, keys[0], keys[i + 1]);
    }
    assert forall i :: 0 < i < |keys| ==> keys[i] == tail[i - 1];
  }

  lemma HasIn(items: seq<Entry>, key: string)
    ensures Has(items, key) <==> exists e :: e in items && e.key == key
  {
    if Has(items, key) {
      assert items[Find(items, key)] in items;
    }
  }

  lemma HasRest(items: seq<Entry>, key: string, other: string)
    requires UniqueKeys(items)
    ensures Has(Remove(items, key), other) <==> Has(items, other) && key != other
  {
    hide Has, Remove;
    RemoveKeeps(items, key);
    HasIn(items, other);
    HasIn(Remove(items, key), other);
  }

  lemma KeyedUnique(items: seq<Entry>)
    requires UniqueKeys(items) && Keyed(items)
    ensures UniqueIds(Values(items))
  {
  }

  // ----- what a query does to the items -----

  datatype Answer = Entities(found: seq<Entity>) | Single(entity: Option<Entity>) | Flag(value: bool) | Amount(n: nat)

  function AnswerOf(subject: Subject, matched: seq<Entity>, removed: nat): Answer {
    match subject.kind
    case Query =>
      if subject.singleResult then Single(if matched == [] then None else Some(matched[0])) else Entities(matched)
    case Exists => Flag(|matched| > 0)
    case Count => Amount(|matched|)
    case Delete => Amount(removed)
  }

  /** The answer and the items afterwards. */
  function Outcome(h: Host, plan: Plan, items: seq<Entry>, args: seq<Value>): (Answer, seq<Entry>) {
    var matched := Matched(h, plan, Values(items), args);
    if plan.subject.kind == Delete then
      (AnswerOf(plan.subject, matched, Removed(items, Ids(matched))), RemoveAll(items, Ids(matched)))
    else (AnswerOf(plan.subject, matched, 0), items)
  }

  /**
   * A query for one entity answers with none exactly when none matches, else
   * with a matching one that no other matching one goes before.
   */
  lemma SingleAnswer(h: Host, plan: Plan, items: seq<Entry>, args: seq<Value>)
    requires plan.subject.kind == Query && plan.subject.singleResult
    requires plan.subject.limit.None? || plan.subject.limit.value > 0
    requires ShowsId(h) && UniqueIds(Values(items))
    requires Typed(Filter(h, Values(items), plan.matching, args), plan.orderBy)
    ensures match Outcome(h, plan, items, args).0
      case Single(None) => forall e :: e in Values(items) ==> !Matches(h, e, plan.matching, args)
      case Single(Some(e)) =>
        && e in Values(items) && Matches(h, e, plan.matching, args)
        && forall other :: other in Values(items) && Matches(h, other, plan.matching, args) && other != e ==>
          InOrder(h, plan.orderBy, e, other)
      case _ => false
    ensures Outcome(h, plan, items, args).1 == items
  {
    hide Matches, Select, Sort, DistinctFrom, InOrder, Typed, Comparator, Filter;
    var all := plan.(subject := plan.subject.(limit := None));
    var entities := Values(items);
    MatchedMembers(h, all, entities, args);
    MatchedInOrder(h, all, entities, args);
    if plan.subject.limit.Some? {
      LimitIsPrefix(h, plan, entities, args, plan.subject.limit.value);
    }
    var found := Matched(h, all, entities, args);
    var answered := Matched(h, plan, entities, args);
    assert answered == [] <==> found == [];
    if found != [] {
      assert answered[0] == found[0];
      forall other | other in entities && Matches(h, other, plan.matching, args) && other != found[0]
        ensures InOrder(h, plan.orderBy, found[0], other)
      {
        var j :| 0 <= j < |found| && found[j] == other;
      }
    }
  }

  /** A query for all answers with what it finds, and changes nothing. */
  lemma ManyAnswer(h: Host, plan: Plan, items: seq<Entry>, args: seq<Value>)
    requires plan.subject.kind == Query && !plan.subject.singleResult && plan.subject.limit.None?
    requires ShowsId(h) && UniqueIds(Values(items))
    ensures var (answer, after) := Outcome(h, plan, items, args);
      && answer.Entities? && after == items && UniqueIds(answer.found)
      && forall e :: e in answer.found <==> e in Values(items) && Matches(h, e, plan.matching, args)
  {
    hide Matches, Select, Sort, DistinctFrom, Comparator, Filter;
    MatchedMembers(h, plan, Values(items), args);
  }

  function As(plan: Plan, kind: Kind, limit: Option<nat>): Plan {
    plan.(subject := plan.subject.(kind := kind, limit := limit))
  }

  /** `exists…` is true exactly when `count…` of the same predicate is not zero. */
  lemma ExistsIffCounted(h: Host, plan: Plan, items: seq<Entry>, args: seq<Value>)
    ensures Outcome(h, As(plan, Exists, plan.subject.limit), items, args).0 ==
      Flag(Outcome(h, As(plan, Count, plan.subject.limit), items, args).0.n > 0)
  {
    hide Matches, Select, Sort, DistinctFrom;
  }

  /**
   * The ids of the matched entities are, each once, the keys of the entries
   * whose entities satisfy `p`.
   */
  ghost predicate Owned(items: seq<Entry>, matched: seq<Entity>, p: Entity -> bool) {
    && UniqueTexts(Ids(matched)) && AllHeld(items, Ids(matched))
    && forall n :: 0 <= n < |items| ==> (items[n].key in Ids(matched) <==> p(items[n].entity))
  }

  lemma OwnedExactly(items: seq<Entry>, matched: seq<Entity>, p: Entity -> bool)
    requires UniqueKeys(items)
    ensures Owned(items, matched, p) <==>
      Removed(items, Ids(matched)) == |matched| &&
        RemoveAll(items, Ids(matched)) == Select(items, (e: Entry) => !p(e.entity))
  {
    hide Removed, RemoveAll, Select, UniqueTexts, AllHeld, Ids;
    var keys := Ids(matched);
    assert |keys| == |matched| by { IdsLength(matched); }
    RemoveAllExactly(items, keys);
    SelectMembers(items, (e: Entry) => e.key !in keys);
    SelectMembers(items, (e: Entry) => !p(e.entity));
    if Owned(items, matched, p) {
      SelectAgree(items, (e: Entry) => e.key !in keys, (e: Entry) => !p(e.entity));
    }
    if Select(items, (e: Entry) => e.key !in keys) == Select(items, (e: Entry) => !p(e.entity)) {
      forall n | 0 <= n < |items| ensures items[n].key in keys <==> p(items[n].entity) {
        assert items[n] in items;
      }
    }
  }

  /**
   * A delete removes exactly what it matched, keeps the rest in order and
   * returns how many that was exactly when the ids of the matched entities
   * are, each once, the keys of the entries that hold them.
   */
  lemma DeleteExactly(h: Host, plan: Plan, items: seq<Entry>, args: seq<Value>)
    requires plan.subject.kind == Delete && UniqueKeys(items)
    ensures var matched := Matched(h, plan, Values(items), args);
      Owned(items, matched, e => e in matched) <==>
        Outcome(h, plan, items, args) == (Amount(|matched|), Select(items, (e: Entry) => e.entity !in matched))
  {
    hide Matched, Select, RemoveAll, Removed, Owned;
    var matched := Matched(h, plan, Values(items), args);
    OwnedExactly(items, matched, e => e in matched);
    SelectAgree(items, (e: Entry) => e.entity !in matched, (e: Entry) => !((x: Entity) => x in matched)(e.entity));
  }

  lemma IdsLength(entities: seq<Entity>)
    ensures |Ids(entities)| == |entities|
  {
  }

  /**
   * Without a limit a delete returns the prior count and keeps everything that
   * does not match and nothing that does exactly when the ids of the matched
   * entities are, each once, the keys of the entries that match.
   */
  lemma DeleteWithoutLimit(h: Host, plan: Plan, items: seq<Entry>, args: seq<Value>)
    requires UniqueKeys(items)
    ensures var (answer, rest) := Outcome(h, As(plan, Delete, None), items, args);
      && (Owned(items, Matched(h, As(plan, Delete, None), Values(items), args),
          e => Matches(h, e, plan.matching, args)) <==>
            answer == Outcome(h, As(plan, Count, None), items, args).0 &&
              rest == Select(items, (e: Entry) => !Matches(h, e.entity, plan.matching, args)))
      && (rest == Select(items, (e: Entry) => !Matches(h, e.entity, plan.matching, args)) ==>
          Outcome(h, As(plan, Count, None), rest, args).0 == Amount(0))
  {
    hide Select, Matches, Matched, Owned, RemoveAll, Removed;
    var delete, count := As(plan, Delete, None), As(plan, Count, None);
    var matched := Matched(h, delete, Values(items), args);
    SameMatched(h, plan, items, args);
    OwnedExactly(items, matched, e => Matches(h, e, plan.matching, args));
    SelectAgree(items, (e: Entry) => !Matches(h, e.entity, plan.matching, args),
      (e: Entry) => !((x: Entity) => Matches(h, x, plan.matching, args))(e.entity));
    NothingMatches(h, count, items, args);
  }

  lemma SameMatched(h: Host, plan: Plan, items: seq<Entry>, args: seq<Value>)
    ensures Matched(h, As(plan, Delete, None), Values(items), args) ==
      Matched(h, As(plan, Count, None), Values(items), args)
  {
    hide Filter, Sort, DistinctFrom;
  }

  lemma NothingMatches(h: Host, count: Plan, items: seq<Entry>, args: seq<Value>)
    requires count.subject.kind == Count
    ensures Outcome(h, count, Select(items, (e: Entry) => !Matches(h, e.entity, count.matching, args)), args).0 ==
      Amount(0)
  {
    hide Matches, Select;
    var test := (e: Entry) => !Matches(h, e.entity, count.matching, args);
    var rest := Select(items, test);
    SelectMembers(items, test);
    forall e | e in Values(rest) ensures !Matches(h, e, count.matching, args) {
      var i :| 0 <= i < |rest| && Values(rest)[i] == e;
      assert rest[i] in rest && test(rest[i]);
    }
    SelectNone(Values(rest), e => Matches(h, e, count.matching, args));
    assert Filter(h, Values(rest), count.matching, args) == [];
  }

  lemma {:induction false} SelectNone<T>(s: seq<T>, p: T -> bool)
    requires forall x :: x in s ==> !p(x)
    ensures Select(s, p) == []
  {
    if s != [] {
      SelectNone(s[1..], p);
    }
  }

  // ----- entities stored under their own ids -----

  /** An entity is matched exactly when an entry with its id is deleted. */
  lemma SameKeys(items: seq<Entry>, matched: seq<Entity>, n: nat)
    requires UniqueKeys(items) && Keyed(items) && n < |items| && forall m :: m in matched ==> m in Values(items)
    ensures items[n].key in Ids(matched) <==> items[n].entity in matched
  {
    hide Normal;
    if items[n].key in Ids(matched) {
      var i :| 0 <= i < |matched| && Ids(matched)[i] == items[n].key;
      assert matched[i] in Values(items);
      var j :| 0 <= j < |items| && Values(items)[j] == matched[i];
      assert items[j].key == items[n].key;
    }
    if items[n].entity in matched {
      var i :| 0 <= i < |matched| && matched[i] == items[n].entity;
      assert Ids(matched)[i] == items[n].key;
    }
  }

  lemma DistinctIds(items: seq<Entry>, matched: seq<Entity>)
    requires UniqueKeys(items) && Keyed(items) && UniqueIds(matched) && forall m :: m in matched ==> m in Values(items)
    ensures UniqueTexts(Ids(matched)) && AllHeld(items, Ids(matched))
  {
    forall i | 0 <= i < |matched| ensures Has(items, Ids(matched)[i]) {
      assert matched[i] in matched;
      var j :| 0 <= j < |items| && Values(items)[j] == matched[i];
    }
    forall i, j | 0 <= i < j < |matched| ensures Ids(matched)[i] != Ids(matched)[j] {
      assert matched[i] in matched && matched[j] in matched;
      var m :| 0 <= m < |items| && Values(items)[m] == matched[i];
      var n :| 0 <= n < |items| && Values(items)[n] == matched[j];
      assert m != n;
    }
  }

  /** While entities are stored under their own ids, every delete meets its condition. */
  lemma KeyedOwns(h: Host, plan: Plan, items: seq<Entry>, args: seq<Value>)
    requires ShowsId(h) && UniqueKeys(items) && Keyed(items)
    ensures var matched := Matched(h, plan, Values(items), args);
      && Owned(items, matched, e => e in matched)
      && (plan.subject.limit == None ==> Owned(items, matched, e => Matches(h, e, plan.matching, args)))
  {
    hide Matched, Matches, Ids, Has, Normal;
    var matched := Matched(h, plan, Values(items), args);
    KeyedUnique(items);
    MatchedMembers(h, plan, Values(items), args);
    DistinctIds(items, matched);
    forall n | 0 <= n < |items| ensures items[n].key in Ids(matched) <==> items[n].entity in matched {
      SameKeys(items, matched, n);
    }
    forall n | 0 <= n < |items| && plan.subject.limit == None
      ensures items[n].entity in matched <==> Matches(h, items[n].entity, plan.matching, args)
    {
      assert Values(items)[n] == items[n].entity;
    }
  }

  lemma RemoveStep(items: seq<Entry>, matched: seq<Entity>, i: nat)
    requires i < |matched| == |Ids(matched)|
    ensures var key := Normal(matched[i].id);
      && RemoveAll(items, Ids(matched)[i..]) == RemoveAll(Remove(items, key), Ids(matched)[i + 1..])
      && Removed(items, Ids(matched)[i..]) ==
          (if Has(items, key) then 1 else 0) + Removed(Remove(items, key), Ids(matched)[i + 1..])
  {
    hide Remove, Has, Normal;
    assert Ids(matched)[i..][1..] == Ids(matched)[i + 1..];
  }

  lemma NothingToRemove(items: seq<Entry>, keys: seq<string>)
    requires keys == []
    ensures RemoveAll(items, keys) == items && Removed(items, keys) == 0
  {
  }

  // ----- the repository -----

  class InMemoryRepository {
    var items: seq<Entry>

    ghost predicate Valid()
      reads this
    {
      UniqueKeys(items)
    }

    constructor ()
      ensures Valid() && items == []
    {
      items := [];
    }

    method FindAll() returns (entities: seq<Entity>)
      ensures entities == Values(items)
    {
      return Values(items);
    }

    method Save(entity: Entity)
      requires Valid()
      modifies this
      ensures Valid() && items == Stored(old(items), Normal(entity.id), entity) && (old(Keyed(items)) ==> Keyed(items))
    {
      PutKeeps(items, Normal(entity.id), entity);
      items := Stored(items, Normal(entity.id), entity);
    }

    method SaveIfAbsent(entity: Entity) returns (saved: bool)
      requires Valid()
      modifies this
      ensures Valid() && saved == !Has(old(items), Normal(entity.id)) && (old(Keyed(items)) ==> Keyed(items))
      ensures items == if saved then old(items) + [Entry(Normal(entity.id), entity)] else old(items)
    {
      PutKeeps(items, Normal(entity.id), entity);
      if Has(items, Normal(entity.id)) {
        return false;
      }
      items := Stored(items, Normal(entity.id), entity);
      return true;
    }

    /** Entities stay under their own ids exactly when the mutation keeps the id it was called for. */
    method CompareAndSwap(id: Id, mutate: Option<Entity> -> Option<Entity>) returns (swapped: bool)
      requires Valid()
      modifies this
      ensures Valid()
      ensures var key := Normal(id); var n := Find(old(items), key);
        var next := mutate(if n < |old(items)| then Some(old(items)[n].entity) else None);
        && swapped == next.Some?
        && items == (if next.Some? then Stored(old(items), key, next.value) else old(items))
        && (old(Keyed(items)) ==> (Keyed(items) <==> next.None? || Normal(next.value.id) == key))
    {
      var key := Normal(id);
      var n := Find(items, key);
      var next := mutate(if n < |items| then Some(items[n].entity) else None);
      if next.None? {
        return false;
      }
      PutKeeps(items, key, next.value);
      items := Stored(items, key, next.value);
      return true;
    }

    method Delete(id: Id) returns (found: bool)
      requires Valid()
      modifies this
      ensures Valid() && found == Has(old(items), Normal(id)) && items == Remove(old(items), Normal(id))
      ensures old(Keyed(items)) ==> Keyed(items)
    {
      RemoveKeeps(items, Normal(id));
      found := Has(items, Normal(id));
      items := Remove(items, Normal(id));
    }

    method DeleteEach(matched: seq<Entity>) returns (n: nat)
      requires Valid()
      modifies this
      ensures Valid() && (old(Keyed(items)) ==> Keyed(items))
      ensures items == RemoveAll(old(items), Ids(matched)) && n == Removed(old(items), Ids(matched))
    {
      hide RemoveAll, Removed, Remove, Has, Ids, Normal;
      n := 0;
      var i := 0;
      assert Ids(matched)[0..] == Ids(matched);
      while i < |matched|
        invariant i <= |matched| && Valid() && (old(Keyed(items)) ==> Keyed(items))
        invariant RemoveAll(items, Ids(matched)[i..]) == RemoveAll(old(items), Ids(matched))
        invariant n + Removed(items, Ids(matched)[i..]) == Removed(old(items), Ids(matched))
      {
        RemoveStep(items, matched, i);
        var ok := Delete(matched[i].id);
        if ok {
          n := n + 1;
        }
        i := i + 1;
      }
      NothingToRemove(items, Ids(matched)[i..]);
    }

    /** `executeDerivedQuery` against this repository. */
    method Execute(h: Host, plan: Plan, args: seq<Value>) returns (answer: Answer)
      requires Valid()
      modifies this
      ensures Valid() && (old(Keyed(items)) ==> Keyed(items))
      ensures (answer, items) == Outcome(h, plan, old(items), args)
    {
      hide Filter, DistinctFrom, Sort, RemoveAll, Removed;
      var all := FindAll();
      var matched := FilterEntities(h, all, plan.matching, args);
      if plan.subject.distinct {
        matched := DistinctByJson(h, matched);
      }
      if plan.orderBy != [] {
        matched := Sort(matched, Comparator(h, plan.orderBy));
      }
      matched := Limited(matched, plan.subject.limit);
      assert matched == Matched(h, plan, Values(items), args);
      match plan.subject.kind {
        case Query =>
          return if plan.subject.singleResult then Single(if matched == [] then None else Some(matched[0]))
            else Entities(matched);
        case Exists =>
          return Flag(|matched| > 0);
        case Count =>
          return Amount(|matched|);
        case Delete =>
          var n := DeleteEach(matched);
          return Amount(n);
      }
    }
  }

  /**
   * Two entities saved, the second then swapped for one with the id of the
   * first, which the predicate matches like the first: a delete of both finds
   * the first one twice, counts it once, and leaves a match behind.
   */
  method SwappedId(h: Host, first: Entity, second: Entity, swapped: Entity, plan: Plan, args: seq<Value>)
    returns (repository: InMemoryRepository, answer: Answer)
    requires Normal(first.id) != Normal(second.id) && Normal(swapped.id) == Normal(first.id)
    requires Matches(h, first, plan.matching, args) && Matches(h, swapped, plan.matching, args)
    requires !plan.subject.distinct
    ensures fresh(repository) && repository.Valid()
    ensures Outcome(h, As(plan, Count, None), [Entry(Normal(first.id), first), Entry(Normal(second.id), swapped)],
      args).0 == Amount(2)
    ensures answer == Amount(1) && repository.items == [Entry(Normal(second.id), swapped)]
  {
    hide Matches, Normal;
    repository := new InMemoryRepository();
    repository.Save(first);
    repository.Save(second);
    var done := repository.CompareAndSwap(second.id, _ => Some(swapped));
    assert repository.items == [Entry(Normal(first.id), first), Entry(Normal(second.id), swapped)];
    BothMatched(h, As(plan, Delete, None), first, swapped, Normal(second.id), args);
    BothMatched(h, As(plan, Count, None), first, swapped, Normal(second.id), args);
    RemoveFirstTwice(first, swapped, Normal(second.id));
    answer := repository.Execute(h, As(plan, Delete, None), args);
  }

  lemma BothMatched(h: Host, plan: Plan, first: Entity, swapped: Entity, key: string, args: seq<Value>)
    requires Matches(h, first, plan.matching, args) && Matches(h, swapped, plan.matching, args)
    requires !plan.subject.distinct && plan.subject.limit == None && Normal(swapped.id) == Normal(first.id)
    ensures var matched := Matched(h, plan, Values([Entry(Normal(first.id), first), Entry(key, swapped)]), args);
      |matched| == 2 && Ids(matched) == [Normal(first.id), Normal(first.id)]
  {
    hide Matches, Normal, Sort, Comparator;
    var entities := Values([Entry(Normal(first.id), first), Entry(key, swapped)]);
    assert entities == [first, swapped];
    SelectAll(entities, e => Matches(h, e, plan.matching, args));
    SortMembers(entities, Comparator(h, plan.orderBy));
    var matched := Matched(h, plan, entities, args);
    hide Matched, DistinctFrom, Select;
    assert forall e :: e in matched ==> e == first || e == swapped;
    assert matched[0] in matched && matched[1] in matched;
  }

  lemma RemoveFirstTwice(first: Entity, swapped: Entity, key: string)
    requires key != Normal(first.id)
    ensures var items := [Entry(Normal(first.id), first), Entry(key, swapped)];
      var keys := [Normal(first.id), Normal(first.id)];
      RemoveAll(items, keys) == [Entry(key, swapped)] && Removed(items, keys) == 1
  {
    hide Normal;
    var items := [Entry(Normal(first.id), first), Entry(key, swapped)];
    assert items[1..] == [Entry(key, swapped)];
    assert Remove(items, Normal(first.id)) == [Entry(key, swapped)];
    var k, left := Normal(first.id), [Entry(key, swapped)];
    assert [k, k][1..] == [k] && [k][1..] == [] && left[1..] == [];
    assert Find(left, k) == 1 && Remove(left, k) == left;
    assert RemoveAll(left, [k]) == left && Removed(left, [k]) == 0;
  }
}
