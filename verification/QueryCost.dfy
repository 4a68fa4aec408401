/**
 * The depth and complexity a GraphQL document is limited by. Fragment spreads
 * are walked through, except into a fragment that is being walked already.
 */
module QueryCost {
  datatype Selection = Field(selections: seq<Selection>) | Inline(selections: seq<Selection>) | Spread(name: string)

  type Selections = seq<Selection>

  datatype Definition = Fragment(name: string, selections: Selections) | Operation(selections: Selections)

  type Fragments = map<string, Selections>

  datatype Cost = Cost(depth: nat, complexity: nat)

  function Max(a: nat, b: nat): nat { if a > b then a else b }

  function Join(a: Cost, b: Cost): Cost { Cost(Max(a.depth, b.depth), a.complexity + b.complexity) }

  // ----- what a selection without spreads costs -----

  function Height(s: Selections): nat { if s == [] then 0 else Max(HeightOne(s[0]), Height(s[1..])) }

  function HeightOne(x: Selection): nat {
    match x case Field(t) => 1 + Height(t) case Inline(t) => Height(t) case Spread(_) => 0
  }

  function Fields(s: Selections): nat { if s == [] then 0 else FieldsOne(s[0]) + Fields(s[1..]) }

  function FieldsOne(x: Selection): nat {
    match x case Field(t) => 1 + Fields(t) case Inline(t) => Fields(t) case Spread(_) => 0
  }

  // ----- the walk -----

  /** `walk`: it ends because every spread it enters leaves one fragment less to enter. */
  function Walk(f: Fragments, s: Selections, active: set<string>, level: nat): Cost
    decreases f.Keys - active, s
  {
    if s == [] then Cost(level, 0) else Join(WalkOne(f, s[0], active, level), Walk(f, s[1..], active, level))
  }

  function WalkOne(f: Fragments, x: Selection, active: set<string>, level: nat): Cost
    decreases f.Keys - active, x
  {
    match x
    case Spread(name) =>
      if name in active || name !in f then Cost(level, 0)
      else
        assert f.Keys - (active + {name}) < f.Keys - active by { assert name in f.Keys - active; }
        Walk(f, f[name], active + {name}, level)
    case Inline(t) => Walk(f, t, active, level)
    case Field(t) => Join(Cost(level, 1), Walk(f, t, active, level + 1))
  }

  lemma {:induction false} DepthBelow(f: Fragments, s: Selections, active: set<string>, level: nat)
    ensures Walk(f, s, active, level).depth >= level
  {
    hide WalkOne;
    if s != [] {
      DepthBelow(f, s[1..], active, level);
    }
  }

  method WalkSelections(f: Fragments, s: Selections, active: set<string>, level: nat) returns (cost: Cost)
    ensures cost == Walk(f, s, active, level)
    decreases f.Keys - active, s
  {
    var depth: nat, complexity: nat := level, 0;
    assert s[0..] == s;
    DepthBelow(f, s, active, level);
    var i := 0;
    while i < |s|
      invariant i <= |s|
      invariant Join(Cost(depth, complexity), Walk(f, s[i..], active, level)) == Walk(f, s, active, level)
      invariant depth >= level
    {
      hide Walk;
      WalkStep(f, s, active, level, i);
      var nested: Cost;
      match s[i] {
        case Spread(name) =>
          if name in active || name !in f {
            nested := Cost(level, 0);
          } else {
            assert f.Keys - (active + {name}) < f.Keys - active by { assert name in f.Keys - active; }
            nested := WalkSelections(f, f[name], active + {name}, level);
          }
        case Inline(t) =>
          nested := WalkSelections(f, t, active, level);
        case Field(t) =>
          complexity := complexity + 1;
          nested := WalkSelections(f, t, active, level + 1);
      }
      depth := Max(depth, nested.depth);
      complexity := complexity + nested.complexity;
      i := i + 1;
    }
    assert s[i..] == [];
    return Cost(depth, complexity);
  }

  lemma WalkStep(f: Fragments, s: Selections, active: set<string>, level: nat, i: nat)
    requires i < |s|
    ensures Walk(f, s[i..], active, level) == Join(WalkOne(f, s[i], active, level), Walk(f, s[i + 1..], active, level))
  {
    hide WalkOne;
    assert s[i..][1..] == s[i + 1..];
  }

  // ----- inlining -----

  /** Every spread replaced by its fragment's selections, except inside that fragment; unknown ones disappear. */
  function Unfolded(f: Fragments, s: Selections, active: set<string>): Selections
    decreases f.Keys - active, s
  {
    if s == [] then [] else [UnfoldedOne(f, s[0], active)] + Unfolded(f, s[1..], active)
  }

  function UnfoldedOne(f: Fragments, x: Selection, active: set<string>): Selection
    decreases f.Keys - active, x
  {
    match x
    case Spread(name) =>
      if name in active || name !in f then Inline([])
      else
        assert f.Keys - (active + {name}) < f.Keys - active by { assert name in f.Keys - active; }
        Inline(Unfolded(f, f[name], active + {name}))
    case Inline(t) => Inline(Unfolded(f, t, active))
    case Field(t) => Field(Unfolded(f, t, active))
  }

  function Costs(s: Selections, level: nat): Cost { Cost(level + Height(s), Fields(s)) }

  lemma Single(x: Selection)
    ensures Height([x]) == HeightOne(x) && Fields([x]) == FieldsOne(x)
  {
    hide HeightOne, FieldsOne;
    assert [x][0] == x && [x][1..] == [];
    assert Height([]) == 0 && Fields([]) == 0;
  }

  lemma CostsJoin(x: Selection, s: Selections, level: nat)
    ensures Costs([x] + s, level) == Join(Costs([x], level), Costs(s, level))
  {
    hide HeightOne, FieldsOne;
    Single(x);
    var xs := [x] + s;
    assert xs[0] == x && xs[1..] == s;
    assert Height(xs) == Max(HeightOne(x), Height(s)) && Fields(xs) == FieldsOne(x) + Fields(s);
  }

  lemma CostsOne(x: Selection, level: nat)
    ensures Costs([x], level) == match x
      case Field(t) => Join(Cost(level, 1), Costs(t, level + 1))
      case Inline(t) => Costs(t, level)
      case Spread(_) => Cost(level, 0)
  {
    hide Height, Fields;
    Single(x);
  }

  /** For every document, cyclic or not: the walk costs what the unfolded selections cost. */
  lemma {:induction false} WalkIsUnfolded(f: Fragments, s: Selections, active: set<string>, level: nat)
    ensures Walk(f, s, active, level) == Costs(Unfolded(f, s, active), level)
    decreases f.Keys - active, s
  {
    hide Height, Fields, Costs, WalkOne, UnfoldedOne;
    if s == [] {
      NoCost(level);
    } else {
      WalkOneIsUnfolded(f, s[0], active, level);
      WalkIsUnfolded(f, s[1..], active, level);
      CostsJoin(UnfoldedOne(f, s[0], active), Unfolded(f, s[1..], active), level);
    }
  }

  lemma NoCost(level: nat)
    ensures Costs([], level) == Cost(level, 0)
  {
  }

  lemma {:induction false} WalkOneIsUnfolded(f: Fragments, x: Selection, active: set<string>, level: nat)
    ensures WalkOne(f, x, active, level) == Costs([UnfoldedOne(f, x, active)], level)
    decreases f.Keys - active, x
  {
    hide Height, Fields, Costs, Walk, Unfolded;
    CostsOne(UnfoldedOne(f, x, active), level);
    match x
    case Spread(name) =>
      if name in active || name !in f {
        NoCost(level);
      } else {
        assert f.Keys - (active + {name}) < f.Keys - active by { assert name in f.Keys - active; }
        WalkIsUnfolded(f, f[name], active + {name}, level);
      }
    case Inline(t) => WalkIsUnfolded(f, t, active, level);
    case Field(t) => WalkIsUnfolded(f, t, active, level + 1);
  }

  // ----- acyclic documents -----

  /** Every known spread in `s` has a rank below `n`. */
  predicate Below(f: Fragments, rank: string -> nat, s: Selections, n: nat) {
    forall i :: 0 <= i < |s| ==>
      match s[i]
      case Spread(name) => name in f ==> rank(name) < n
      case Inline(t) => Below(f, rank, t, n)
      case Field(t) => Below(f, rank, t, n)
  }

  /** Fragments spread only fragments of lower rank: none reaches itself. */
  ghost predicate Acyclic(f: Fragments, rank: string -> nat) {
    forall name :: name in f ==> Below(f, rank, f[name], rank(name))
  }

  /** All spreads replaced by their fragments, with nothing kept of which are being replaced. */
  ghost function Inlined(f: Fragments, rank: string -> nat, s: Selections, n: nat): Selections
    requires Acyclic(f, rank) && Below(f, rank, s, n)
    decreases n, s
  {
    if s == [] then [] else [InlinedOne(f, rank, s[0], n)] + Inlined(f, rank, s[1..], n)
  }

  ghost function InlinedOne(f: Fragments, rank: string -> nat, x: Selection, n: nat): Selection
    requires Acyclic(f, rank) && Below(f, rank, [x], n)
    decreases n, x
  {
    assert [x][0] == x;
    match x
    case Spread(name) => if name in f then Inline(Inlined(f, rank, f[name], rank(name))) else Inline([])
    case Inline(t) => Inline(Inlined(f, rank, t, n))
    case Field(t) => Field(Inlined(f, rank, t, n))
  }

  /** On an acyclic document no spread is ever cut off. */
  lemma {:induction false} UnfoldedInlines(
      f: Fragments, rank: string -> nat, s: Selections, active: set<string>, n: nat)
    requires Acyclic(f, rank) && Below(f, rank, s, n) && forall name :: name in active ==> rank(name) >= n
    ensures Unfolded(f, s, active) == Inlined(f, rank, s, n)
    decreases n, s
  {
    hide InlinedOne, UnfoldedOne, Acyclic;
    if s != [] {
      assert [s[0]][0] == s[0];
      UnfoldedOneInlines(f, rank, s[0], active, n);
      UnfoldedInlines(f, rank, s[1..], active, n);
    }
  }

  lemma {:induction false} UnfoldedOneInlines(
      f: Fragments, rank: string -> nat, x: Selection, active: set<string>, n: nat)
    requires Acyclic(f, rank) && Below(f, rank, [x], n) && forall name :: name in active ==> rank(name) >= n
    ensures UnfoldedOne(f, x, active) == InlinedOne(f, rank, x, n)
    decreases n, x
  {
    hide Inlined, Unfolded;
    assert [x][0] == x;
    match x
    case Spread(name) =>
      if name in f {
        UnfoldedInlines(f, rank, f[name], active + {name}, rank(name));
      }
    case Inline(t) => UnfoldedInlines(f, rank, t, active, n);
    case Field(t) => UnfoldedInlines(f, rank, t, active, n);
  }

  /** On an acyclic document the walk's depth and complexity are those of the query with every fragment inlined. */
  lemma WalkIsInlined(f: Fragments, rank: string -> nat, s: Selections, n: nat, level: nat)
    requires Acyclic(f, rank) && Below(f, rank, s, n)
    ensures Walk(f, s, {}, level) == Cost(level + Height(Inlined(f, rank, s, n)), Fields(Inlined(f, rank, s, n)))
  {
    hide Walk, Unfolded, Inlined, Height, Fields, Below;
    WalkIsUnfolded(f, s, {}, level);
    UnfoldedInlines(f, rank, s, {}, n);
  }

  // ----- documents in which no fragment reaches itself -----

  /** The names spread anywhere in a selection. */
  function Spreads(s: Selections): set<string> { if s == [] then {} else SpreadsOne(s[0]) + Spreads(s[1..]) }

  function SpreadsOne(x: Selection): set<string> {
    match x case Spread(name) => {name} case Inline(t) => Spreads(t) case Field(t) => Spreads(t)
  }

  /** Each fragment spreads the next one. */
  ghost predicate Chain(f: Fragments, path: seq<string>) {
    && (forall i :: 0 <= i < |path| ==> path[i] in f)
    && forall i :: 0 <= i < |path| - 1 ==> path[i + 1] in Spreads(f[path[i]])
  }

  ghost predicate NoneReachesItself(f: Fragments) {
    forall path :: Chain(f, path) && |path| > 1 ==> path[0] != path[|path| - 1]
  }

  ghost predicate HasChain(f: Fragments, name: string, n: nat) {
    exists path :: Chain(f, path) && |path| == n && n > 0 && path[0] == name
  }

  /** The length of the longest chain from a fragment, of at most `n`. */
  ghost function Longest(f: Fragments, name: string, n: nat): nat {
    if n == 0 || HasChain(f, name, n) then n else Longest(f, name, n - 1)
  }

  ghost function RankOf(f: Fragments): string -> nat { (name: string) => Longest(f, name, |f|) }

  lemma {:induction false} LongestIs(f: Fragments, name: string, n: nat)
    ensures var r := Longest(f, name, n);
      r <= n && (r > 0 ==> HasChain(f, name, r)) && forall m: nat :: r < m <= n ==> !HasChain(f, name, m)
  {
    hide HasChain;
    if n > 0 && !HasChain(f, name, n) {
      LongestIs(f, name, n - 1);
    }
  }

  /** A chain repeats no fragment, so there is none longer than the document has fragments. */
  lemma ChainShort(f: Fragments, path: seq<string>)
    requires NoneReachesItself(f) && Chain(f, path)
    ensures |path| <= |f|
  {
    hide Spreads;
    forall i, j | 0 <= i < j < |path| ensures path[i] != path[j] {
      var part := path[i..j + 1];
      assert forall k :: 0 <= k < |part| ==> part[k] == path[i + k];
      assert Chain(f, part) && part[0] == path[i] && part[|part| - 1] == path[j];
    }
    NoRepeatShort(path, f.Keys);
  }

  lemma {:induction false} NoRepeatShort(path: seq<string>, names: set<string>)
    requires (forall i :: 0 <= i < |path| ==> path[i] in names) &&
      forall i, j :: 0 <= i < j < |path| ==> path[i] != path[j]
    ensures |path| <= |names|
    decreases |path|
  {
    if path != [] {
      NoRepeatShort(path[1..], names - {path[0]});
    }
  }

  /** The longest chain from a fragment is longer than that from any it spreads. */
  lemma RankFalls(f: Fragments, name: string, next: string)
    requires NoneReachesItself(f) && name in f && next in f && next in Spreads(f[name])
    ensures RankOf(f)(next) < RankOf(f)(name)
  {
    hide Spreads, Longest, NoneReachesItself;
    LongestIs(f, next, |f|);
    LongestIs(f, name, |f|);
    assert f.Keys != {};
    assert Chain(f, [next]);
    assert HasChain(f, next, 1);
    var r := RankOf(f)(next);
    var path :| Chain(f, path) && |path| == r && r > 0 && path[0] == next;
    var longer := [name] + path;
    assert Chain(f, longer);
    ChainShort(f, longer);
    assert HasChain(f, name, r + 1);
  }

  lemma {:induction false} SpreadsBelow(f: Fragments, rank: string -> nat, s: Selections, n: nat)
    ensures Below(f, rank, s, n) <==> forall name :: name in Spreads(s) && name in f ==> rank(name) < n
    decreases s
  {
    if s != [] {
      SpreadsOneBelow(f, rank, s[0], n);
      SpreadsBelow(f, rank, s[1..], n);
      BelowFirst(f, rank, s, n);
    }
  }

  lemma BelowFirst(f: Fragments, rank: string -> nat, s: Selections, n: nat)
    requires s != []
    ensures Below(f, rank, s, n) <==> Below(f, rank, [s[0]], n) && Below(f, rank, s[1..], n)
  {
    assert forall i :: 0 <= i < |s[1..]| ==> s[1..][i] == s[i + 1];
    assert forall i :: 0 < i < |s| ==> s[i] == s[1..][i - 1];
    assert [s[0]][0] == s[0];
  }

  lemma {:induction false} SpreadsOneBelow(f: Fragments, rank: string -> nat, x: Selection, n: nat)
    ensures Below(f, rank, [x], n) <==> forall name :: name in SpreadsOne(x) && name in f ==> rank(name) < n
    decreases x
  {
    assert [x][0] == x;
    match x
    case Spread(_) =>
    case Inline(t) => SpreadsBelow(f, rank, t, n);
    case Field(t) => SpreadsBelow(f, rank, t, n);
  }

  /** No fragment reaches itself exactly when the fragments can be ranked. */
  lemma RankedExactly(f: Fragments)
    ensures NoneReachesItself(f) <==> exists rank: string -> nat :: Acyclic(f, rank)
    ensures NoneReachesItself(f) ==> Acyclic(f, RankOf(f))
  {
    hide Spreads, Below;
    if NoneReachesItself(f) {
      forall name | name in f ensures Below(f, RankOf(f), f[name], RankOf(f)(name)) {
        SpreadsBelow(f, RankOf(f), f[name], RankOf(f)(name));
        forall next | next in Spreads(f[name]) && next in f ensures RankOf(f)(next) < RankOf(f)(name) {
          RankFalls(f, name, next);
        }
      }
      assert Acyclic(f, RankOf(f));
    }
    if rank: string -> nat :| Acyclic(f, rank) {
      forall path | Chain(f, path) && |path| > 1 ensures path[0] != path[|path| - 1] {
        ChainFalls(f, rank, path, |path| - 1);
      }
    }
  }

  lemma {:induction false} ChainFalls(f: Fragments, rank: string -> nat, path: seq<string>, i: nat)
    requires Acyclic(f, rank) && Chain(f, path) && 0 < i < |path|
    ensures rank(path[i]) < rank(path[0])
    decreases i
  {
    hide Below, Spreads;
    SpreadsBelow(f, rank, f[path[i - 1]], rank(path[i - 1]));
    assert path[(i - 1) + 1] in Spreads(f[path[i - 1]]);
    if i > 1 {
      ChainFalls(f, rank, path, i - 1);
    }
  }

  /** Where no fragment reaches itself, the walk costs what the query costs with every fragment inlined. */
  lemma WalkOfAcyclic(f: Fragments, s: Selections, level: nat)
    requires NoneReachesItself(f)
    ensures Acyclic(f, RankOf(f)) && Below(f, RankOf(f), s, |f| + 1)
    ensures var inlined := Inlined(f, RankOf(f), s, |f| + 1);
      Walk(f, s, {}, level) == Cost(level + Height(inlined), Fields(inlined))
  {
    hide Walk, Inlined, Height, Fields, Below, Spreads, Longest, HasChain;
    RankedExactly(f);
    SpreadsBelow(f, RankOf(f), s, |f| + 1);
    forall name ensures RankOf(f)(name) < |f| + 1 {
      LongestIs(f, name, |f|);
    }
    WalkIsInlined(f, RankOf(f), s, |f| + 1, level);
  }

  // ----- depth and complexity by position -----

  /** A chain of `n` fields, each inside the one before, without entering a fragment inside itself. */
  ghost predicate Nested(f: Fragments, s: Selections, active: set<string>, n: nat)
    decreases f.Keys - active, s
  {
    n == 0 || exists i :: 0 <= i < |s| && NestedOne(f, s[i], active, n)
  }

  ghost predicate NestedOne(f: Fragments, x: Selection, active: set<string>, n: nat)
    decreases f.Keys - active, x
  {
    match x
    case Field(t) => n == 0 || Nested(f, t, active, n - 1)
    case Inline(t) => Nested(f, t, active, n)
    case Spread(name) =>
      n == 0 || (name in f && name !in active &&
        (assert f.Keys - (active + {name}) < f.Keys - active by { assert name in f.Keys - active; }
         Nested(f, f[name], active + {name}, n)))
  }

  /** The indexes lead to a field, again without entering a fragment inside itself. */
  ghost predicate FieldAt(f: Fragments, s: Selections, active: set<string>, path: seq<nat>)
    decreases f.Keys - active, s
  {
    path != [] && path[0] < |s| && FieldBelow(f, s[path[0]], active, path[1..])
  }

  ghost predicate FieldBelow(f: Fragments, x: Selection, active: set<string>, path: seq<nat>)
    decreases f.Keys - active, x
  {
    match x
    case Field(t) => path == [] || FieldAt(f, t, active, path)
    case Inline(t) => FieldAt(f, t, active, path)
    case Spread(name) =>
      name in f && name !in active &&
        (assert f.Keys - (active + {name}) < f.Keys - active by { assert name in f.Keys - active; }
         FieldAt(f, f[name], active + {name}, path))
  }

  lemma {:induction false} HeightReaches(s: Selections, n: nat)
    ensures Height(s) >= n <==> n == 0 || exists i :: 0 <= i < |s| && HeightOne(s[i]) >= n
  {
    hide HeightOne;
    if s != [] {
      HeightReaches(s[1..], n);
      assert forall i :: 0 <= i < |s[1..]| ==> s[1..][i] == s[i + 1];
      assert forall i :: 0 < i < |s| ==> s[i] == s[1..][i - 1];
    }
  }

  lemma {:induction false} UnfoldedAt(f: Fragments, s: Selections, active: set<string>)
    ensures |Unfolded(f, s, active)| == |s|
    ensures forall i :: 0 <= i < |s| ==> Unfolded(f, s, active)[i] == UnfoldedOne(f, s[i], active)
    decreases s
  {
    hide UnfoldedOne;
    if s != [] {
      UnfoldedAt(f, s[1..], active);
    }
  }

  /** The height of the unfolded selections is the length of the longest chain of fields. */
  lemma {:induction false} NestedExactly(f: Fragments, s: Selections, active: set<string>, n: nat)
    ensures Height(Unfolded(f, s, active)) >= n <==> Nested(f, s, active, n)
    decreases f.Keys - active, s
  {
    hide Height, HeightOne, Unfolded, UnfoldedOne, NestedOne;
    UnfoldedAt(f, s, active);
    HeightReaches(Unfolded(f, s, active), n);
    forall i | 0 <= i < |s| ensures HeightOne(UnfoldedOne(f, s[i], active)) >= n <==> NestedOne(f, s[i], active, n) {
      NestedOneExactly(f, s[i], active, n);
    }
  }

  lemma {:induction false} NestedOneExactly(f: Fragments, x: Selection, active: set<string>, n: nat)
    ensures HeightOne(UnfoldedOne(f, x, active)) >= n <==> NestedOne(f, x, active, n)
    decreases f.Keys - active, x
  {
    hide Height, Unfolded, Nested;
    assert Height([]) == 0 by { HeightReaches([], 1); }
    match x
    case Field(t) => if n > 0 { NestedExactly(f, t, active, n - 1); }
    case Inline(t) => NestedExactly(f, t, active, n);
    case Spread(name) =>
      if name in f && name !in active {
        assert f.Keys - (active + {name}) < f.Keys - active by { assert name in f.Keys - active; }
        NestedExactly(f, f[name], active + {name}, n);
        assert n == 0 ==> NestedOne(f, x, active, n);
      }
  }

  lemma {:induction false} ImageSize(a: set<seq<nat>>, g: seq<nat> -> seq<nat>)
    requires forall p, q :: p in a && q in a && g(p) == g(q) ==> p == q
    ensures |set p | p in a :: g(p)| == |a|
    decreases a
  {
    if a != {} {
      var p :| p in a;
      var less := a - {p};
      ImageSize(less, g);
      assert (set q | q in a :: g(q)) == (set q | q in less :: g(q)) + {g(p)};
    }
  }

  /** A place below the first selection, and one among the selections behind it, as places among all. */
  function Under(p: seq<nat>): seq<nat> { [0] + p }

  function Behind(p: seq<nat>): seq<nat> { if p == [] then [] else [p[0] + 1] + p[1..] }

  /** The places of all fields: as many as the unfolded selections have. */
  lemma {:induction false} FieldPlaces(f: Fragments, s: Selections, active: set<string>) returns (places: set<seq<nat>>)
    ensures forall p :: p in places <==> FieldAt(f, s, active, p)
    ensures |places| == Fields(Unfolded(f, s, active))
    decreases f.Keys - active, s
  {
    hide FieldsOne, UnfoldedOne, FieldBelow;
    if s == [] {
      places := {};
    } else {
      var below := PlacesBelow(f, s[0], active);
      var later := FieldPlaces(f, s[1..], active);
      var first, rest := set p | p in below :: Under(p), set p | p in later :: Behind(p);
      FirstSize(below);
      LaterSize(later);
      places := first + rest;
      Apart(below, later);
      var u, us := UnfoldedOne(f, s[0], active), Unfolded(f, s[1..], active);
      assert ([u] + us)[1..] == us && Fields([u] + us) == FieldsOne(u) + Fields(us);
      forall p ensures p in places <==> FieldAt(f, s, active, p) {
        PlacesSplit(f, s, active, below, later, p);
      }
    }
  }

  lemma Apart(below: set<seq<nat>>, later: set<seq<nat>>)
    requires [] !in later
    ensures (set p | p in below :: Under(p)) !! (set p | p in later :: Behind(p))
  {
    forall p, q | p in below && q in later ensures Under(p) != Behind(q) {
      assert Under(p)[0] == 0 && Behind(q)[0] > 0;
    }
  }

  lemma FirstSize(below: set<seq<nat>>)
    ensures |set p | p in below :: Under(p)| == |below|
  {
    forall p, q | p in below && q in below && Under(p) == Under(q) ensures p == q {
      assert Under(p)[1..] == p && Under(q)[1..] == q;
    }
    var g := (p: seq<nat>) => Under(p);
    ImageSize(below, g);
    assert (set p | p in below :: Under(p)) == (set p | p in below :: g(p));
  }

  lemma LaterSize(later: set<seq<nat>>)
    requires [] !in later
    ensures |set p | p in later :: Behind(p)| == |later|
  {
    forall p, q | p in later && q in later && Behind(p) == Behind(q) ensures p == q {
      assert Behind(p)[1..] == p[1..] && Behind(q)[1..] == q[1..];
      assert Behind(p)[0] == p[0] + 1 && Behind(q)[0] == q[0] + 1;
      assert p == [p[0]] + p[1..] && q == [q[0]] + q[1..];
    }
    var g := (p: seq<nat>) => Behind(p);
    ImageSize(later, g);
    assert (set p | p in later :: Behind(p)) == (set p | p in later :: g(p));
  }

  lemma PlacesSplit(
      f: Fragments, s: Selections, active: set<string>, below: set<seq<nat>>, later: set<seq<nat>>, p: seq<nat>)
    requires s != []
    requires forall q :: q in below <==> FieldBelow(f, s[0], active, q)
    requires forall q :: q in later <==> FieldAt(f, s[1..], active, q)
    ensures p in (set q | q in below :: Under(q)) + (set q | q in later :: Behind(q)) <==>
      FieldAt(f, s, active, p)
  {
    hide FieldBelow;
    if p != [] {
      assert p == [p[0]] + p[1..];
      assert p[0] == 0 ==> p == Under(p[1..]);
      if p[0] > 0 {
        var q := [(p[0] - 1) as nat] + p[1..];
        assert q[0] + 1 == p[0] && q[1..] == p[1..];
        assert FieldAt(f, s, active, p) <==> FieldAt(f, s[1..], active, q);
        assert p == Behind(q);
      }
    }
  }

  lemma {:induction false} PlacesBelow(f: Fragments, x: Selection, active: set<string>) returns (places: set<seq<nat>>)
    ensures forall p :: p in places <==> FieldBelow(f, x, active, p)
    ensures |places| == FieldsOne(UnfoldedOne(f, x, active))
    decreases f.Keys - active, x
  {
    hide Unfolded, FieldAt;
    match x
    case Field(t) =>
      var inside := FieldPlaces(f, t, active);
      assert [] !in inside by { NoPlace(f, t, active); }
      places := inside + {[]};
    case Inline(t) => places := FieldPlaces(f, t, active);
    case Spread(name) =>
      if name in f && name !in active {
        assert f.Keys - (active + {name}) < f.Keys - active by { assert name in f.Keys - active; }
        places := FieldPlaces(f, f[name], active + {name});
      } else {
        places := {};
        assert Fields([]) == 0;
      }
  }

  lemma NoPlace(f: Fragments, s: Selections, active: set<string>)
    ensures !FieldAt(f, s, active, [])
  {
  }

  // ----- the document -----

  function FragmentsOf(d: seq<Definition>): Fragments {
    if d == [] then map[]
    else
      var rest, last := FragmentsOf(d[..|d| - 1]), d[|d| - 1];
      if last.Fragment? then rest[last.name := last.selections] else rest
  }

  /** The most any operation costs, measured on the selections unfolded. */
  function CostOf(f: Fragments, d: seq<Definition>): Cost {
    if d == [] then Cost(0, 0)
    else
      var rest, last := CostOf(f, d[..|d| - 1]), d[|d| - 1];
      if last.Fragment? then rest
      else
        var s := Unfolded(f, last.selections, {});
        Cost(Max(rest.depth, Height(s)), Max(rest.complexity, Fields(s)))
  }

  /** Definition `i` is the last fragment of its name. */
  ghost predicate LastOfName(d: seq<Definition>, i: nat) {
    && i < |d| && d[i].Fragment?
    && forall j :: i < j < |d| && d[j].Fragment? ==> d[j].name != d[i].name
  }

  /** A fragment for each name that is defined: the last one defined. */
  ghost predicate FragmentsAre(f: Fragments, d: seq<Definition>) {
    && (forall name :: name in f <==> exists i :: 0 <= i < |d| && d[i].Fragment? && d[i].name == name)
    && forall i: nat :: LastOfName(d, i) ==> d[i].name in f && f[d[i].name] == d[i].selections
  }

  lemma {:induction false} FragmentsExactly(d: seq<Definition>)
    ensures FragmentsAre(FragmentsOf(d), d)
  {
    if d != [] {
      var n := |d| - 1;
      FragmentsExactly(d[..n]);
      var rest, f := FragmentsOf(d[..n]), FragmentsOf(d);
      assert forall i :: 0 <= i < n ==> d[..n][i] == d[i];
      forall i: nat | LastOfName(d, i) ensures d[i].name in f && f[d[i].name] == d[i].selections {
        if i < n {
          assert LastOfName(d[..n], i);
        }
      }
    }
  }

  ghost predicate FieldsAt(f: Fragments, s: Selections, places: set<seq<nat>>) {
    forall p :: p in places <==> FieldAt(f, s, {}, p)
  }

  ghost predicate FieldCount(f: Fragments, s: Selections, n: nat) {
    exists places :: FieldsAt(f, s, places) && |places| == n
  }

  ghost predicate DepthReached(f: Fragments, d: seq<Definition>, n: nat) {
    n == 0 || exists i :: 0 <= i < |d| && d[i].Operation? && Nested(f, d[i].selections, {}, n)
  }

  ghost predicate Counted(f: Fragments, d: seq<Definition>, i: nat, n: nat) {
    i < |d| && d[i].Operation? && FieldCount(f, d[i].selections, n)
  }

  /** Each part of the cost is the most that any operation of the document has. */
  ghost predicate MostOf(f: Fragments, d: seq<Definition>, cost: Cost) {
    && (forall n: nat :: DepthReached(f, d, n) <==> n <= cost.depth)
    && (forall i: nat, n: nat :: Counted(f, d, i, n) ==> n <= cost.complexity)
    && (cost.complexity == 0 || exists i: nat :: Counted(f, d, i, cost.complexity))
  }

  lemma {:induction false} CostExactly(f: Fragments, d: seq<Definition>)
    ensures MostOf(f, d, CostOf(f, d))
  {
    hide Height, Fields, Unfolded, Nested, FieldCount, MostOf;
    if d == [] {
      NoneOf(f);
    } else {
      var less, last := d[..|d| - 1], d[|d| - 1];
      CostExactly(f, less);
      assert d == less + [last];
      if last.Operation? {
        CostMore(f, less, last.selections, CostOf(f, less));
        assert last == Operation(last.selections);
      } else {
        MostSame(f, less, last, CostOf(f, less));
      }
    }
  }

  lemma NoneOf(f: Fragments)
    ensures MostOf(f, [], Cost(0, 0))
  {
  }

  lemma MostSame(f: Fragments, less: seq<Definition>, last: Definition, cost: Cost)
    requires last.Fragment? && MostOf(f, less, cost)
    ensures MostOf(f, less + [last], cost)
  {
    hide Nested, FieldCount;
    var d := less + [last];
    assert forall i :: 0 <= i < |less| ==> less[i] == d[i];
    forall n: nat ensures DepthReached(f, d, n) <==> DepthReached(f, less, n) {}
    forall i: nat, n: nat ensures Counted(f, d, i, n) <==> Counted(f, less, i, n) {}
  }

  lemma CostMore(f: Fragments, less: seq<Definition>, s: Selections, cost: Cost)
    requires MostOf(f, less, cost)
    ensures var u := Unfolded(f, s, {});
      MostOf(f, less + [Operation(s)], Cost(Max(cost.depth, Height(u)), Max(cost.complexity, Fields(u))))
  {
    hide Height, Fields, Unfolded, Nested, FieldCount;
    var d, u := less + [Operation(s)], Unfolded(f, s, {});
    assert forall i :: 0 <= i < |less| ==> d[i] == less[i];
    assert d[|less|] == Operation(s);
    CountOf(f, s);
    forall n: nat ensures DepthReached(f, d, n) <==> DepthReached(f, less, n) || n <= Height(u) {
      NestedExactly(f, s, {}, n);
      assert Nested(f, d[|less|].selections, {}, n) ==> DepthReached(f, d, n);
    }
    forall i: nat, n: nat ensures Counted(f, d, i, n) <==> Counted(f, less, i, n) || (i == |less| && n == Fields(u)) {
      if FieldCount(f, s, n) {
        CountsAgree(f, s, n, Fields(u));
      }
    }
    assert Counted(f, d, |less|, Fields(u));
    if cost.complexity > Fields(u) {
      var i: nat :| Counted(f, less, i, cost.complexity);
      assert Counted(f, d, i, cost.complexity);
    }
  }

  lemma CountsAgree(f: Fragments, s: Selections, m: nat, n: nat)
    requires FieldCount(f, s, m) && FieldCount(f, s, n)
    ensures m == n
  {
    hide FieldAt;
    var a :| FieldsAt(f, s, a) && |a| == m;
    var b :| FieldsAt(f, s, b) && |b| == n;
    assert a == b;
  }

  lemma CountOf(f: Fragments, s: Selections)
    ensures FieldCount(f, s, Fields(Unfolded(f, s, {})))
  {
    hide Fields, Unfolded, FieldAt;
    var places := FieldPlaces(f, s, {});
    assert FieldsAt(f, s, places);
  }

  method Measure(d: seq<Definition>) returns (result: Cost)
    ensures result == CostOf(FragmentsOf(d), d)
    ensures exists f :: FragmentsAre(f, d) && MostOf(f, d, result)
  {
    hide Walk, Unfolded, Height, Fields, FragmentsAre, MostOf;
    FragmentsExactly(d);
    CostExactly(FragmentsOf(d), d);
    var fragments: Fragments := map[];
    var i := 0;
    while i < |d|
      invariant i <= |d| && fragments == FragmentsOf(d[..i])
    {
      assert d[..i + 1][..i] == d[..i];
      if d[i].Fragment? {
        fragments := fragments[d[i].name := d[i].selections];
      }
      i := i + 1;
    }
    assert d[..|d|] == d;
    result := Cost(0, 0);
    i := 0;
    while i < |d|
      invariant i <= |d| && result == CostOf(fragments, d[..i])
    {
      assert d[..i + 1][..i] == d[..i];
      if d[i].Operation? {
        var current := WalkSelections(fragments, d[i].selections, {}, 0);
        WalkIsUnfolded(fragments, d[i].selections, {}, 0);
        result := Cost(Max(result.depth, current.depth), Max(result.complexity, current.complexity));
      }
      i := i + 1;
    }
  }
}
