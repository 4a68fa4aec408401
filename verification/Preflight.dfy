/**
 * The startup check of an application context: bean tokens are unique, their
 * dependencies known, and a depth-first walk puts the factories in an order
 * in which every bean follows the beans it needs.
 */
module Preflight {
  import opened Text
  import opened Resolution

  datatype Bean = Bean(token: Key, dependencies: seq<Key>)

  datatype Plan =
    | Ordered(factories: seq<Bean>)
    | Duplicate(token: Key)
    | Absent(dependency: Key, token: Key)
    | Cyclic(path: seq<Key>)

  type Beans = map<Key, Bean>

  function Tokens(beans: seq<Bean>): set<Key> { set i | 0 <= i < |beans| :: beans[i].token }

  ghost predicate UniqueTokens(beans: seq<Bean>) {
    forall i, j :: 0 <= i < j < |beans| ==> beans[i].token != beans[j].token
  }

  ghost predicate Unclaimed(beans: seq<Bean>, known: set<Key>) {
    UniqueTokens(beans) && Tokens(beans) !! known
  }

  /** Every dependency is a bean or already in the container. */
  ghost predicate Known(beans: seq<Bean>, known: set<Key>) {
    forall i, j :: 0 <= i < |beans| && 0 <= j < |beans[i].dependencies| ==>
      beans[i].dependencies[j] in Tokens(beans) + known
  }

  function ByToken(beans: seq<Bean>): Beans {
    if beans == [] then map[] else ByToken(beans[..|beans| - 1])[beans[|beans| - 1].token := beans[|beans| - 1]]
  }

  ghost predicate Keyed(beans: Beans) { forall t :: t in beans ==> beans[t].token == t }

  /** A walk along dependencies that are beans themselves. */
  ghost predicate Chain(beans: Beans, path: seq<Key>) {
    && (forall i :: 0 <= i < |path| ==> path[i] in beans)
    && forall i :: 0 <= i < |path| - 1 ==> path[i + 1] in beans[path[i]].dependencies
  }

  ghost predicate Acyclic(beans: Beans) {
    forall path :: Chain(beans, path) ==> Distinct(path)
  }

  /** The last token of the reported path occurs on it before. */
  ghost predicate EndsInCycle(beans: Beans, path: seq<Key>) {
    Chain(beans, path) && |path| > 1 && path[|path| - 1] in path[..|path| - 1]
  }

  ghost predicate DependenciesFirst(beans: Beans, ordered: seq<Bean>) {
    forall i, j :: 0 <= i < |ordered| && 0 <= j < |ordered[i].dependencies| && ordered[i].dependencies[j] in beans
                   ==> ordered[i].dependencies[j] in Tokens(ordered[..i])
  }

  ghost predicate Placed(beans: Beans, ordered: seq<Bean>) {
    && UniqueTokens(ordered)
    && (forall i :: 0 <= i < |ordered| ==> ordered[i].token in beans && beans[ordered[i].token] == ordered[i])
    && DependenciesFirst(beans, ordered)
  }

  lemma TokensAppend(beans: seq<Bean>, b: Bean)
    ensures Tokens(beans + [b]) == Tokens(beans) + {b.token}
  {
    forall t | t in Tokens(beans) ensures t in Tokens(beans + [b]) {
      var i :| 0 <= i < |beans| && beans[i].token == t;
      assert (beans + [b])[i].token == t;
    }
    assert (beans + [b])[|beans|].token == b.token;
  }

  lemma PlacedAppend(beans: Beans, ordered: seq<Bean>, b: Bean)
    requires Placed(beans, ordered) && b.token in beans && beans[b.token] == b && b.token !in Tokens(ordered)
    requires forall j :: 0 <= j < |b.dependencies| && b.dependencies[j] in beans ==>
      b.dependencies[j] in Tokens(ordered)
    ensures Placed(beans, ordered + [b])
  {
    var more := ordered + [b];
    forall i, j | 0 <= i < |more| && 0 <= j < |more[i].dependencies| && more[i].dependencies[j] in beans
      ensures more[i].dependencies[j] in Tokens(more[..i])
    {
      if i == |ordered| {
        assert more[..i] == ordered;
      } else {
        assert more[..i] == ordered[..i];
      }
    }
  }

  class Walk {
    const beans: Beans
    var visiting: set<Key>
    var visited: set<Key>
    var ordered: seq<Bean>

    ghost predicate Valid()
      reads this
    {
      Keyed(beans) && Placed(beans, ordered) && visited == Tokens(ordered) && visited !! visiting &&
        visiting <= beans.Keys
    }

    constructor (beans: Beans)
      requires Keyed(beans)
      ensures this.beans == beans && visiting == {} && ordered == [] && Valid()
    {
      this.beans, visiting, visited, ordered := beans, {}, {}, [];
    }

    /** `visit`: the tokens of `path` are those being visited, and it leads to `token`. */
    method Visit(token: Key, path: seq<Key>) returns (cycle: Option<seq<Key>>)
      requires Valid() && Chain(beans, path + [token]) && visiting == (set t | t in path)
      modifies this
      ensures cycle.None? ==> Valid() && visiting == old(visiting) && old(ordered) <= ordered && token in visited
      ensures cycle.Some? ==> EndsInCycle(beans, cycle.value)
      decreases beans.Keys - visiting
    {
      if token in visited {
        return None;
      }
      if token in visiting {
        assert (path + [token])[..|path|] == path;
        return Some(path + [token]);
      }
      assert (path + [token])[|path|] == token;
      visiting := visiting + {token};
      var factory := beans[token];
      var i := 0;
      while i < |factory.dependencies|
        invariant Valid() && visiting == old(visiting) + {token} && old(ordered) <= ordered
        invariant i <= |factory.dependencies|
        invariant forall j :: 0 <= j < i && factory.dependencies[j] in beans ==>
          factory.dependencies[j] in Tokens(ordered)
      {
        var dependency := factory.dependencies[i];
        if dependency in beans {
          ghost var before := ordered;
          assert Chain(beans, (path + [token]) + [dependency]);
          cycle := Visit(dependency, path + [token]);
          if cycle.Some? {
            return;
          }
          TokensGrow(before, ordered);
        }
        i := i + 1;
      }
      PlacedAppend(beans, ordered, factory);
      TokensAppend(ordered, factory);
      ordered := ordered + [factory];
      visiting := visiting - {token};
      visited := visited + {token};
      assert visiting == old(visiting);
      return None;
    }
  }

  lemma TokensGrow(a: seq<Bean>, b: seq<Bean>)
    requires a <= b
    ensures Tokens(a) <= Tokens(b)
  {
    forall t | t in Tokens(a) ensures t in Tokens(b) {
      var i :| 0 <= i < |a| && a[i].token == t;
      assert b[i].token == t;
    }
  }

  // ----- what an order proves -----

  function Position(ordered: seq<Bean>, t: Key): nat
    requires t in Tokens(ordered)
  {
    if ordered[|ordered| - 1].token == t then |ordered| - 1 else
      assert t in Tokens(ordered[..|ordered| - 1]) by {
        assert ordered == ordered[..|ordered| - 1] + [ordered[|ordered| - 1]];
        TokensAppend(ordered[..|ordered| - 1], ordered[|ordered| - 1]);
      }
      Position(ordered[..|ordered| - 1], t)
  }

  lemma {:induction false} PositionIs(ordered: seq<Bean>, t: Key)
    requires t in Tokens(ordered)
    ensures Position(ordered, t) < |ordered| && ordered[Position(ordered, t)].token == t
  {
    var last := |ordered| - 1;
    if ordered[last].token != t {
      assert ordered == ordered[..last] + [ordered[last]];
      TokensAppend(ordered[..last], ordered[last]);
      PositionIs(ordered[..last], t);
    }
  }

  /** Along a chain the position falls. */
  lemma PositionFalls(beans: Beans, ordered: seq<Bean>, t: Key, d: Key)
    requires Placed(beans, ordered) && Tokens(ordered) == beans.Keys && t in beans && d in beans
    requires d in beans[t].dependencies
    ensures Position(ordered, d) < Position(ordered, t)
  {
    PositionIs(ordered, t);
    PositionIs(ordered, d);
    var i := Position(ordered, t);
    var j :| 0 <= j < |ordered[i].dependencies| && ordered[i].dependencies[j] == d;
    assert d in Tokens(ordered[..i]);
    var n :| 0 <= n < i && ordered[..i][n].token == d;
    assert ordered[n].token == d;
  }

  lemma {:induction false} ChainFalls(beans: Beans, ordered: seq<Bean>, path: seq<Key>, i: nat, j: nat)
    requires Placed(beans, ordered) && Tokens(ordered) == beans.Keys && Chain(beans, path) && i < j < |path|
    ensures Position(ordered, path[j]) < Position(ordered, path[i])
    decreases j
  {
    PositionFalls(beans, ordered, path[j - 1], path[j]);
    if i < j - 1 {
      ChainFalls(beans, ordered, path, i, j - 1);
    }
  }

  lemma OrderedAcyclic(beans: Beans, ordered: seq<Bean>)
    requires Placed(beans, ordered) && Tokens(ordered) == beans.Keys
    ensures Acyclic(beans)
  {
    forall path | Chain(beans, path) ensures Distinct(path) {
      forall i, j | 0 <= i < j < |path| ensures path[i] != path[j] {
        ChainFalls(beans, ordered, path, i, j);
      }
    }
  }

  lemma CyclicNotAcyclic(beans: Beans, path: seq<Key>)
    requires EndsInCycle(beans, path)
    ensures !Acyclic(beans)
  {
    assert !Distinct(path);
  }

  lemma {:induction false} ByTokenIs(beans: seq<Bean>)
    requires UniqueTokens(beans)
    ensures ByToken(beans).Keys == Tokens(beans) && Keyed(ByToken(beans))
    ensures forall i :: 0 <= i < |beans| ==> ByToken(beans)[beans[i].token] == beans[i]
  {
    if beans != [] {
      var last := |beans| - 1;
      ByTokenIs(beans[..last]);
      assert beans == beans[..last] + [beans[last]];
      TokensAppend(beans[..last], beans[last]);
    }
  }

  lemma {:induction false} Counted(beans: seq<Bean>, b: Bean)
    requires UniqueTokens(beans)
    ensures multiset(beans)[b] == if b in beans then 1 else 0
  {
    if beans != [] {
      var last := |beans| - 1;
      assert beans == beans[..last] + [beans[last]];
      Counted(beans[..last], b);
    }
  }

  /** An order that places exactly the declared beans is a permutation of them. */
  lemma Permutation(beans: seq<Bean>, ordered: seq<Bean>)
    requires UniqueTokens(beans) && Placed(ByToken(beans), ordered) && Tokens(ordered) == Tokens(beans)
    ensures multiset(ordered) == multiset(beans)
  {
    ByTokenIs(beans);
    forall b ensures multiset(ordered)[b] == multiset(beans)[b] {
      Counted(ordered, b);
      Counted(beans, b);
      if b in beans {
        var i :| 0 <= i < |beans| && beans[i] == b;
        assert b.token in Tokens(beans);
        PositionIs(ordered, b.token);
        assert ordered[Position(ordered, b.token)] == b;
      }
      if b in ordered {
        var i :| 0 <= i < |ordered| && ordered[i] == b;
        assert b.token in Tokens(ordered);
        PositionIs(beans, b.token);
        assert beans[Position(beans, b.token)] == b;
      }
    }
  }

  // ----- the checks in order -----

  method FirstClash(beans: seq<Bean>, known: set<Key>) returns (clash: Option<Key>)
    ensures clash.None? <==> Unclaimed(beans, known)
  {
    var definitions: set<Key> := {};
    var i := 0;
    assert beans[..0] == [];
    while i < |beans|
      invariant i <= |beans| && definitions == Tokens(beans[..i]) && Unclaimed(beans[..i], known)
    {
      var token := beans[i].token;
      assert beans[..i + 1] == beans[..i] + [beans[i]];
      TokensAppend(beans[..i], beans[i]);
      if token in definitions || token in known {
        assert token in Tokens(beans);
        if token in definitions {
          var j :| 0 <= j < i && beans[..i][j].token == token;
          assert beans[j].token == beans[i].token;
        }
        return Some(token);
      }
      definitions := definitions + {token};
      i := i + 1;
    }
    assert beans[..|beans|] == beans;
    return None;
  }

  method FirstAbsent(beans: seq<Bean>, known: set<Key>) returns (absent: Option<(Key, Key)>)
    ensures absent.None? <==> Known(beans, known)
  {
    var definitions := Tokens(beans);
    var i := 0;
    while i < |beans|
      invariant i <= |beans|
      invariant forall k, j :: 0 <= k < i && 0 <= j < |beans[k].dependencies| ==>
        beans[k].dependencies[j] in definitions + known
    {
      var n := 0;
      while n < |beans[i].dependencies|
        invariant n <= |beans[i].dependencies|
        invariant forall j :: 0 <= j < n ==> beans[i].dependencies[j] in definitions + known
      {
        var dependency := beans[i].dependencies[n];
        if dependency !in definitions && dependency !in known {
          return Some((dependency, beans[i].token));
        }
        n := n + 1;
      }
      i := i + 1;
    }
    return None;
  }

  /** `preflight`: which outcome it has, and what the order it returns guarantees. */
  method Run(beans: seq<Bean>, known: set<Key>) returns (plan: Plan)
    ensures plan.Duplicate? <==> !Unclaimed(beans, known)
    ensures plan.Absent? <==> Unclaimed(beans, known) && !Known(beans, known)
    ensures plan.Ordered? <==> Unclaimed(beans, known) && Known(beans, known) && Acyclic(ByToken(beans))
    ensures plan.Ordered? ==>
      multiset(plan.factories) == multiset(beans) && DependenciesFirst(ByToken(beans), plan.factories)
    ensures plan.Cyclic? ==> EndsInCycle(ByToken(beans), plan.path)
  {
    var clash := FirstClash(beans, known);
    if clash.Some? {
      return Duplicate(clash.value);
    }
    var absent := FirstAbsent(beans, known);
    if absent.Some? {
      return Absent(absent.value.0, absent.value.1);
    }
    ByTokenIs(beans);
    var walk := new Walk(ByToken(beans));
    var i := 0;
    while i < |beans|
      invariant i <= |beans| && walk.Valid() && walk.visiting == {}
      invariant forall j :: 0 <= j < i ==> beans[j].token in Tokens(walk.ordered)
    {
      ghost var before := walk.ordered;
      assert beans[i].token in Tokens(beans);
      assert Chain(walk.beans, [] + [beans[i].token]);
      var cycle := walk.Visit(beans[i].token, []);
      if cycle.Some? {
        CyclicNotAcyclic(walk.beans, cycle.value);
        return Cyclic(cycle.value);
      }
      TokensGrow(before, walk.ordered);
      i := i + 1;
    }
    assert Tokens(walk.ordered) == Tokens(beans);
    OrderedAcyclic(walk.beans, walk.ordered);
    Permutation(beans, walk.ordered);
    return Ordered(walk.ordered);
  }
}
