/**
 * The text under which batched calls share a loader: JSON with the entries of
 * every object sorted by key. Equal texts mean equal trees up to key order.
 */
module StableJson {
  import opened Text
  import opened Json
  import opened Sorting

  type Member = (string, Value)

  /** `localeCompare`, as far as sorting uses it. */
  type KeyOrder = (string, string) -> bool

  function ByKey(le: KeyOrder): (Member, Member) -> bool { (a: Member, b: Member) => le(a.0, b.0) }

  const MAX_DEPTH := 64

  // ----- the recursion of the source -----

  /** `stableStringify`; `None` is its depth error. */
  function Stable(le: KeyOrder, v: Value, depth: nat): Option<string>
    decreases 65 - depth, 1, 0
  {
    if depth > MAX_DEPTH then None
    else match v
      case Array(items) =>
        (match StableItems(le, items, depth + 1)
          case Some(texts) => Some("[" + Join(texts, ",") + "]")
          case None => None)
      case Object(members) =>
        (match StableMembers(le, Sort(members, ByKey(le)), depth + 1)
          case Some(texts) => Some("{" + Join(texts, ",") + "}")
          case None => None)
      case _ => Some(Print(v))
  }

  function StableItems(le: KeyOrder, items: seq<Value>, depth: nat): Option<seq<string>>
    decreases 65 - depth, 2, |items|
  {
    if items == [] then Some([])
    else match (Stable(le, items[0], depth), StableItems(le, items[1..], depth))
      case (Some(text), Some(texts)) => Some([text] + texts)
      case _ => None
  }

  function StableMembers(le: KeyOrder, members: seq<Member>, depth: nat): Option<seq<string>>
    decreases 65 - depth, 2, |members|
  {
    if members == [] then Some([])
    else match (Stable(le, members[0].1, depth), StableMembers(le, members[1..], depth))
      case (Some(text), Some(texts)) => Some([Quote(members[0].0) + ":" + text] + texts)
      case _ => None
  }

  /** Nothing in `v` lies deeper than the limit, counted from `depth`. */
  predicate Fits(v: Value, depth: nat)
    decreases 65 - depth
  {
    && depth <= MAX_DEPTH
    && (v.Array? ==> forall i :: 0 <= i < |v.items| ==> Fits(v.items[i], depth + 1))
    && (v.Object? ==> forall i :: 0 <= i < |v.members| ==> Fits(v.members[i].1, depth + 1))
  }

  // ----- the sorted tree -----

  function Normal(le: KeyOrder, v: Value): Value
    decreases v, 1
  {
    match v
    case Array(items) => Array(NormalItems(le, items))
    case Object(members) => Object(Sort(NormalMembers(le, members), ByKey(le)))
    case _ => v
  }

  function NormalItems(le: KeyOrder, items: seq<Value>): (r: seq<Value>)
    ensures |r| == |items|
    decreases items, 0
  {
    if items == [] then [] else [Normal(le, items[0])] + NormalItems(le, items[1..])
  }

  function NormalMembers(le: KeyOrder, members: seq<Member>): (r: seq<Member>)
    ensures |r| == |members| && forall i :: 0 <= i < |members| ==> r[i].0 == members[i].0
    decreases members, 0
  {
    if members == [] then [] else [NormalMember(le, members[0])] + NormalMembers(le, members[1..])
  }

  function NormalMember(le: KeyOrder, member: Member): (r: Member)
    ensures r.0 == member.0
    decreases member, 0
  {
    (member.0, Normal(le, member.1))
  }

  lemma {:induction false} InsertNormal(le: KeyOrder, x: Member, s: seq<Member>)
    ensures NormalMembers(le, Insert(x, s, ByKey(le))) == Insert(NormalMember(le, x), NormalMembers(le, s), ByKey(le))
    decreases |s|
  {
    hide NormalMember;
    if s == [] || le(x.0, s[0].0) {
      assert ([x] + s)[1..] == s;
    } else {
      InsertNormal(le, x, s[1..]);
      var r := Insert(x, s[1..], ByKey(le));
      assert ([s[0]] + r)[1..] == r;
      assert NormalMembers(le, s)[1..] == NormalMembers(le, s[1..]);
    }
  }

  /** Normalising the values and sorting the keys commute. */
  lemma {:induction false} SortNormal(le: KeyOrder, s: seq<Member>)
    ensures NormalMembers(le, Sort(s, ByKey(le))) == Sort(NormalMembers(le, s), ByKey(le))
    decreases |s|
  {
    hide NormalMember, Insert;
    if s != [] {
      SortNormal(le, s[1..]);
      InsertNormal(le, s[0], Sort(s[1..], ByKey(le)));
      assert NormalMembers(le, s)[1..] == NormalMembers(le, s[1..]);
    }
  }

  // ----- the text is the sorted tree's JSON, or the depth error -----

  lemma {:induction false} StableIs(le: KeyOrder, v: Value, depth: nat)
    ensures Stable(le, v, depth) == if Fits(v, depth) then Some(Print(Normal(le, v))) else None
    decreases 65 - depth, 1, 0
  {
    hide Sort, NormalItems, NormalMembers, PrintItems, PrintMembers, Join, StableItems, StableMembers;
    if depth <= MAX_DEPTH {
      match v
      case Array(items) => StableItemsIs(le, items, depth + 1);
      case Object(members) =>
        var sorted := Sort(members, ByKey(le));
        StableMembersIs(le, sorted, depth + 1);
        SortNormal(le, members);
        SortFits(members, ByKey(le), depth + 1);
      case _ =>
    }
  }

  lemma SortFits(members: seq<Member>, le: (Member, Member) -> bool, depth: nat)
    ensures var r := Sort(members, le);
      (forall i :: 0 <= i < |r| ==> Fits(r[i].1, depth)) <==>
        (forall i :: 0 <= i < |members| ==> Fits(members[i].1, depth))
  {
    hide Sort, Fits;
    SortMembers(members, le);
    var r := Sort(members, le);
    if forall i :: 0 <= i < |r| ==> Fits(r[i].1, depth) {
      forall i | 0 <= i < |members| ensures Fits(members[i].1, depth) {
        assert members[i] in r;
      }
    }
    if forall i :: 0 <= i < |members| ==> Fits(members[i].1, depth) {
      forall i | 0 <= i < |r| ensures Fits(r[i].1, depth) {
        assert r[i] in members;
      }
    }
  }

  lemma {:induction false} StableItemsIs(le: KeyOrder, items: seq<Value>, depth: nat)
    ensures var fits := forall i :: 0 <= i < |items| ==> Fits(items[i], depth);
      && (StableItems(le, items, depth).Some? <==> fits)
      && (fits ==> Join(StableItems(le, items, depth).value, ",") == PrintItems(NormalItems(le, items)))
      && (fits ==> |StableItems(le, items, depth).value| == |items|)
    decreases 65 - depth, 2, |items|
  {
    hide Stable, Fits, Normal, Print;
    if items != [] {
      StableIs(le, items[0], depth);
      StableItemsIs(le, items[1..], depth);
      assert forall i :: 0 < i < |items| ==> items[i] == items[1..][i - 1];
      assert NormalItems(le, items)[1..] == NormalItems(le, items[1..]);
      if StableItems(le, items, depth).Some? {
        var texts := StableItems(le, items, depth).value;
        assert texts[1..] == StableItems(le, items[1..], depth).value;
      }
    }
  }

  lemma {:induction false} StableMembersIs(le: KeyOrder, members: seq<Member>, depth: nat)
    ensures var fits := forall i :: 0 <= i < |members| ==> Fits(members[i].1, depth);
      && (StableMembers(le, members, depth).Some? <==> fits)
      && (fits ==> Join(StableMembers(le, members, depth).value, ",") == PrintMembers(NormalMembers(le, members)))
      && (fits ==> |StableMembers(le, members, depth).value| == |members|)
    decreases 65 - depth, 2, |members|
  {
    hide Stable, Fits, Normal, Print, Quote;
    if members != [] {
      StableIs(le, members[0].1, depth);
      StableMembersIs(le, members[1..], depth);
      assert forall i :: 0 < i < |members| ==> members[i] == members[1..][i - 1];
      assert NormalMembers(le, members)[1..] == NormalMembers(le, members[1..]);
      if StableMembers(le, members, depth).Some? {
        var texts := StableMembers(le, members, depth).value;
        assert texts[1..] == StableMembers(le, members[1..], depth).value;
      }
    }
  }

  // ----- trees without key order -----

  datatype Tree = Leaf(value: Value) | Branch(items: seq<Tree>) | Keyed(entries: map<string, Tree>)

  function ToTree(v: Value): Tree
    decreases v, 1
  {
    match v
    case Array(items) => Branch(ToTrees(items))
    case Object(members) => Keyed(ToEntries(members))
    case _ => Leaf(v)
  }

  function ToTrees(items: seq<Value>): (r: seq<Tree>)
    ensures |r| == |items|
    decreases items, 0
  {
    if items == [] then [] else [ToTree(items[0])] + ToTrees(items[1..])
  }

  function ToEntries(members: seq<Member>): map<string, Tree>
    decreases members, 0
  {
    if members == [] then map[] else ToEntries(members[1..])[members[0].0 := MemberTree(members[0])]
  }

  function MemberTree(member: Member): Tree
    decreases member, 0
  {
    ToTree(member.1)
  }

  lemma {:induction false} EntriesAre(members: seq<Member>)
    requires DistinctKeys(members)
    ensures forall i :: 0 <= i < |members| ==>
      members[i].0 in ToEntries(members) && ToEntries(members)[members[i].0] == MemberTree(members[i])
    ensures forall k :: k in ToEntries(members) ==> exists i :: 0 <= i < |members| && members[i].0 == k
    decreases |members|
  {
    hide MemberTree;
    if members != [] {
      EntriesAre(members[1..]);
      forall i | 0 < i < |members|
        ensures members[i].0 in ToEntries(members) && ToEntries(members)[members[i].0] == MemberTree(members[i])
      {
        assert members[1..][i - 1] == members[i];
      }
      forall k | k in ToEntries(members) && k != members[0].0
        ensures exists i :: 0 <= i < |members| && members[i].0 == k
      {
        var i :| 0 <= i < |members[1..]| && members[1..][i].0 == k;
        assert members[i + 1].0 == k;
      }
    }
  }

  lemma SortDistinct(members: seq<Member>, le: (Member, Member) -> bool)
    requires DistinctKeys(members)
    ensures DistinctKeys(Sort(members, le))
  {
    hide Sort;
    var r := Sort(members, le);
    SortElements(members, le);
    SortMembers(members, le);
    ReorderNoRepeats(r, members);
    forall i, j | 0 <= i < j < |r| ensures r[i].0 != r[j].0 {
      assert r[i] in r && r[j] in r && r[i] != r[j];
      var m :| 0 <= m < |members| && members[m] == r[i];
      var n :| 0 <= n < |members| && members[n] == r[j];
      assert m != n;
    }
  }

  /** Sorting entries does not change what they map to. */
  lemma SortEntries(members: seq<Member>, le: (Member, Member) -> bool)
    requires DistinctKeys(members)
    ensures ToEntries(Sort(members, le)) == ToEntries(members)
  {
    hide Sort, MemberTree, ToEntries;
    var r := Sort(members, le);
    SortMembers(members, le);
    SortDistinct(members, le);
    EntriesAre(members);
    EntriesAre(r);
    forall k ensures k in ToEntries(r) <==> k in ToEntries(members) {
      if k in ToEntries(r) {
        var i :| 0 <= i < |r| && r[i].0 == k;
        assert r[i] in members;
      }
      if k in ToEntries(members) {
        var i :| 0 <= i < |members| && members[i].0 == k;
        assert members[i] in r;
      }
    }
    forall k | k in ToEntries(members) ensures ToEntries(r)[k] == ToEntries(members)[k] {
      var i :| 0 <= i < |members| && members[i].0 == k;
      assert members[i] in r;
      var j :| 0 <= j < |r| && r[j] == members[i];
    }
  }

  /** Normalising keeps the tree. */
  lemma {:induction false} NormalTree(le: KeyOrder, v: Value)
    requires Valid(v)
    ensures ToTree(Normal(le, v)) == ToTree(v) && Valid(Normal(le, v))
    decreases v, 1
  {
    hide Sort, ToEntries, ValidItems, ValidMembers;
    match v
    case Array(items) => NormalTreeItems(le, items);
    case Object(members) =>
      NormalTreeMembers(le, members);
      var ms := NormalMembers(le, members);
      assert DistinctKeys(ms);
      SortEntries(ms, ByKey(le));
      SortDistinct(ms, ByKey(le));
      SortMembers(ms, ByKey(le));
      ValidAll(ms);
      SortValid(ms, ByKey(le));
    case _ =>
  }

  lemma {:induction false} NormalTreeItems(le: KeyOrder, items: seq<Value>)
    requires ValidItems(items)
    ensures ToTrees(NormalItems(le, items)) == ToTrees(items) && ValidItems(NormalItems(le, items))
    decreases items, 0
  {
    hide ToTree, Normal, Valid;
    if items != [] {
      NormalTree(le, items[0]);
      NormalTreeItems(le, items[1..]);
      assert NormalItems(le, items)[1..] == NormalItems(le, items[1..]);
    }
  }

  lemma {:induction false} NormalTreeMembers(le: KeyOrder, members: seq<Member>)
    requires ValidMembers(members)
    ensures ToEntries(NormalMembers(le, members)) == ToEntries(members) && ValidMembers(NormalMembers(le, members))
    decreases members, 0
  {
    hide ToTree, Normal, Valid;
    if members != [] {
      NormalTreeMember(le, members[0]);
      NormalTreeMembers(le, members[1..]);
      assert NormalMembers(le, members)[1..] == NormalMembers(le, members[1..]);
    }
  }

  lemma {:induction false} NormalTreeMember(le: KeyOrder, member: Member)
    requires ValidMember(member)
    ensures MemberTree(NormalMember(le, member)) == MemberTree(member) && ValidMember(NormalMember(le, member))
    decreases member, 0
  {
    NormalTree(le, member.1);
  }

  lemma {:induction false} ValidAll(members: seq<Member>)
    ensures ValidMembers(members) <==> forall i :: 0 <= i < |members| ==> ValidMember(members[i])
    decreases |members|
  {
    hide ValidMember;
    if members != [] {
      ValidAll(members[1..]);
      assert forall i :: 0 < i < |members| ==> members[i] == members[1..][i - 1];
    }
  }

  lemma SortValid(members: seq<Member>, le: (Member, Member) -> bool)
    requires ValidMembers(members)
    ensures ValidMembers(Sort(members, le))
  {
    hide Sort, ValidMembers, ValidMember;
    ValidAll(members);
    ValidAll(Sort(members, le));
    SortMembers(members, le);
    var r := Sort(members, le);
    forall i | 0 <= i < |r| ensures ValidMember(r[i]) {
      assert r[i] in r;
      var j :| 0 <= j < |members| && members[j] == r[i];
    }
  }

  /** Different trees never share a text, whatever order the keys are compared in. */
  lemma StableInjective(le: KeyOrder, a: Value, b: Value)
    requires Valid(a) && Valid(b) && Stable(le, a, 0).Some? && Stable(le, a, 0) == Stable(le, b, 0)
    ensures ToTree(a) == ToTree(b)
  {
    hide Stable, Fits, Normal, Print, Parse, ToTree, Valid;
    StableIs(le, a, 0);
    StableIs(le, b, 0);
    NormalTree(le, a);
    NormalTree(le, b);
    RoundTrip(Normal(le, a));
    RoundTrip(Normal(le, b));
  }

  // ----- one text per tree, under a strict order of keys -----

  lemma ByKeyTotal(le: KeyOrder)
    requires TotalPreorder(le)
    ensures TotalPreorder(ByKey(le))
  {
    var compare := ByKey(le);
    forall a: Member, b: Member, c: Member
      ensures compare(a, b) || compare(b, a) ensures compare(a, b) && compare(b, c) ==> compare(a, c)
    {
      assert le(a.0, b.0) || le(b.0, a.0);
      assert le(a.0, b.0) && le(b.0, c.0) ==> le(a.0, c.0);
    }
  }

  lemma OneMember(s: seq<Member>, m: Member, n: Member)
    requires DistinctKeys(s) && m in s && n in s && m.0 == n.0
    ensures m == n
  {
  }

  /** Two sorted entry lists that hold the same entries are the same list. */
  lemma {:induction false} SameEntries(le: KeyOrder, x: seq<Member>, y: seq<Member>)
    requires StrictOrder(le) && Sorted(x, ByKey(le)) && Sorted(y, ByKey(le)) && DistinctKeys(x) && DistinctKeys(y)
    requires forall m :: m in x <==> m in y
    ensures x == y
    decreases |x|
  {
    HasHead(x);
    HasHead(y);
    if x != [] {
      ByKeyTotal(le);
      HeadLeast(x, y[0], ByKey(le));
      HeadLeast(y, x[0], ByKey(le));
      OneMember(y, x[0], y[0]);
      forall m ensures m in x[1..] <==> m in y[1..] {
        TailMembers(x, m);
        TailMembers(y, m);
      }
      SameEntries(le, x[1..], y[1..]);
      assert x == [x[0]] + x[1..] && y == [y[0]] + y[1..];
    }
  }

  lemma {:induction false} SameTreeNormal(le: KeyOrder, a: Value, b: Value)
    requires StrictOrder(le) && Valid(a) && Valid(b) && ToTree(a) == ToTree(b)
    ensures Normal(le, a) == Normal(le, b)
    decreases a, 1
  {
    hide Sort, StrictOrder, ToEntries, ToTrees, NormalMembers, NormalItems, ValidItems, ValidMembers;
    match a
    case Array(items) => SameTreeItems(le, items, b.items);
    case Object(members) =>
      var x, y := NormalMembers(le, members), NormalMembers(le, b.members);
      SameTreeMembers(le, members, b.members, members);
      SameNormal(le, x, y);
    case _ =>
  }

  lemma SortMember(s: seq<Member>, le: (Member, Member) -> bool, m: Member)
    ensures m in Sort(s, le) <==> m in s
  {
    SortMembers(s, le);
  }

  lemma SameNormal(le: KeyOrder, x: seq<Member>, y: seq<Member>)
    requires StrictOrder(le) && DistinctKeys(x) && DistinctKeys(y) && forall m :: m in x <==> m in y
    ensures Sort(x, ByKey(le)) == Sort(y, ByKey(le))
  {
    hide Sort;
    ByKeyTotal(le);
    SortSorted(x, ByKey(le));
    SortSorted(y, ByKey(le));
    SortDistinct(x, ByKey(le));
    SortDistinct(y, ByKey(le));
    forall m: Member ensures m in Sort(x, ByKey(le)) <==> m in Sort(y, ByKey(le)) {
      SortMember(x, ByKey(le), m);
      SortMember(y, ByKey(le), m);
    }
    SameEntries(le, Sort(x, ByKey(le)), Sort(y, ByKey(le)));
  }

  lemma {:induction false} SameTreeItems(le: KeyOrder, a: seq<Value>, b: seq<Value>)
    requires StrictOrder(le) && ValidItems(a) && ValidItems(b) && ToTrees(a) == ToTrees(b)
    ensures NormalItems(le, a) == NormalItems(le, b)
    decreases a, 0
  {
    hide StrictOrder, ToTree, Normal, Valid;
    assert |a| == |ToTrees(a)| == |b|;
    if a != [] {
      assert ToTrees(a)[0] == ToTrees(b)[0] && ToTrees(a)[1..] == ToTrees(b)[1..];
      SameTreeNormal(le, a[0], b[0]);
      SameTreeItems(le, a[1..], b[1..]);
    }
  }

  /** Entries of `part` are, normalised, entries of both lists. */
  lemma {:induction false} SameTreeMembers(le: KeyOrder, a: seq<Member>, b: seq<Member>, part: seq<Member>)
    requires StrictOrder(le) && ValidMembers(a) && ValidMembers(b) && DistinctKeys(a) && DistinctKeys(b)
    requires ToEntries(a) == ToEntries(b)
    requires part == a
    ensures DistinctKeys(NormalMembers(le, a)) && DistinctKeys(NormalMembers(le, b))
    ensures forall m :: m in NormalMembers(le, a) <==> m in NormalMembers(le, b)
    decreases part, 0
  {
    hide StrictOrder, ToEntries, NormalMembers, MemberTree, ValidMembers, ValidMember, NormalMember;
    EntriesAre(a);
    EntriesAre(b);
    ValidAll(a);
    ValidAll(b);
    var x, y := NormalMembers(le, a), NormalMembers(le, b);
    NormalAt(le, a);
    NormalAt(le, b);
    forall m ensures m in x <==> m in y {
      if m in x {
        var i :| 0 <= i < |x| && x[i] == m;
        var j :| 0 <= j < |b| && b[j].0 == a[i].0;
        SameTreeMember(le, a[i], b[j]);
        assert y[j] == m;
      }
      if m in y {
        var j :| 0 <= j < |y| && y[j] == m;
        var i :| 0 <= i < |a| && a[i].0 == b[j].0;
        SameTreeMember(le, a[i], b[j]);
        assert x[i] == m;
      }
    }
  }

  lemma {:induction false} NormalAt(le: KeyOrder, members: seq<Member>)
    ensures forall i :: 0 <= i < |members| ==> NormalMembers(le, members)[i] == NormalMember(le, members[i])
    decreases |members|
  {
    hide NormalMember;
    if members != [] {
      NormalAt(le, members[1..]);
    }
  }

  lemma {:induction false} SameTreeMember(le: KeyOrder, a: Member, b: Member)
    requires StrictOrder(le) && ValidMember(a) && ValidMember(b) && a.0 == b.0 && MemberTree(a) == MemberTree(b)
    ensures NormalMember(le, a) == NormalMember(le, b)
    decreases a, 0
  {
    SameTreeNormal(le, a.1, b.1);
  }

  /** Calls share a text exactly when their arguments are the same tree up to key order. */
  lemma StableExactly(le: KeyOrder, a: Value, b: Value)
    requires StrictOrder(le) && Valid(a) && Valid(b) && Fits(a, 0) && Fits(b, 0)
    ensures Stable(le, a, 0) == Stable(le, b, 0) <==> ToTree(a) == ToTree(b)
  {
    hide Stable, Fits, Normal, Print, ToTree, Valid, StrictOrder;
    StableIs(le, a, 0);
    StableIs(le, b, 0);
    if ToTree(a) == ToTree(b) {
      SameTreeNormal(le, a, b);
    }
    if Stable(le, a, 0) == Stable(le, b, 0) {
      StableInjective(le, a, b);
    }
  }

  // ----- the key of a loader -----

  function LoaderKey(target: string, property: string, args: string): string {
    target + ("." + (property + ("::" + args)))
  }

  lemma Cut(a: string, c: char, x: string, b: string, y: string)
    requires c !in a && c !in b && a + ([c] + x) == b + ([c] + y)
    ensures a == b && x == y
  {
    Assoc(a, [c], x);
    Assoc(b, [c], y);
    SplitHead(a, c, x);
    SplitHead(b, c, y);
    assert ([a] + Split(x, c))[0] == a && ([b] + Split(y, c))[0] == b;
    assert x == (a + ([c] + x))[|a| + 1..] && y == (b + ([c] + y))[|b| + 1..];
  }

  /** Two fields share a loader only under the same class name, property and argument text. */
  lemma LoaderKeyInjective(
      target: string, property: string, args: string, target': string, property': string, args': string)
    requires '.' !in target && '.' !in target' && ':' !in property && ':' !in property'
    requires LoaderKey(target, property, args) == LoaderKey(target', property', args')
    ensures target == target' && property == property' && args == args'
  {
    var p, q := property + ("::" + args), property' + ("::" + args');
    Cut(target, '.', p, target', q);
    assert "::" + args == [':'] + (":" + args) && "::" + args' == [':'] + (":" + args');
    Cut(property, ':', ":" + args, property', ":" + args');
    assert (":" + args)[1..] == args && (":" + args')[1..] == args';
  }
}
