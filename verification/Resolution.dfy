/**
 * When a dependency graph can be resolved. The graph is what the container's
 * registrations say about constructor parameters; property injection is not
 * in it, because its failures are swallowed.
 */
module Resolution {
  datatype Key = Name(name: string) | Ctor(id: nat)

  /** One constructor parameter: the key it is resolved through, none at all, or nothing registered for its type. */
  datatype Edge = To(key: Key) | Blank | Missing

  type Graph = map<Key, seq<Edge>>

  /** `k` resolves within depth `n`, using cached instances and never entering the keys of `stack`. */
  ghost predicate Good(g: Graph, stack: set<Key>, cached: set<Key>, k: Key, n: nat)
    decreases n, 0
  {
    k !in stack && k in g && (k in cached || (n > 0 && GoodEdges(g, stack, cached, g[k], n - 1)))
  }

  ghost predicate GoodEdges(g: Graph, stack: set<Key>, cached: set<Key>, es: seq<Edge>, n: nat)
    decreases n, 1
  {
    forall i :: 0 <= i < |es| ==> !es[i].Missing? && (es[i].To? ==> Good(g, stack, cached, es[i].key, n))
  }

  ghost predicate Resolvable(g: Graph, stack: set<Key>, cached: set<Key>, k: Key) {
    exists n: nat :: Good(g, stack, cached, k, n)
  }

  ghost predicate EdgeResolvable(g: Graph, stack: set<Key>, cached: set<Key>, e: Edge) {
    !e.Missing? && (e.To? ==> Resolvable(g, stack, cached, e.key))
  }

  ghost predicate AllResolvable(g: Graph, stack: set<Key>, cached: set<Key>, es: seq<Edge>) {
    forall i :: 0 <= i < |es| ==> EdgeResolvable(g, stack, cached, es[i])
  }

  // ----- monotonicity -----

  lemma {:induction false} GoodDeeper(
      g: Graph, stack: set<Key>, stack': set<Key>, cached: set<Key>, cached': set<Key>, k: Key, n: nat, m: nat)
    requires Good(g, stack, cached, k, n) && n <= m && stack' <= stack && cached <= cached'
    ensures Good(g, stack', cached', k, m)
    decreases n
  {
    if k !in cached {
      forall i | 0 <= i < |g[k]| && g[k][i].To? ensures Good(g, stack', cached', g[k][i].key, m - 1) {
        GoodDeeper(g, stack, stack', cached, cached', g[k][i].key, n - 1, m - 1);
      }
    }
  }

  /** One depth serves finitely many edges. */
  lemma {:induction false} CommonDepth(g: Graph, stack: set<Key>, cached: set<Key>, es: seq<Edge>) returns (n: nat)
    requires AllResolvable(g, stack, cached, es)
    ensures GoodEdges(g, stack, cached, es, n)
  {
    n := 0;
    if es != [] {
      var last := |es| - 1;
      var m := CommonDepth(g, stack, cached, es[..last]);
      assert EdgeResolvable(g, stack, cached, es[last]);
      n := m;
      if es[last].To? {
        var d: nat :| Good(g, stack, cached, es[last].key, d);
        n := if m < d then d else m;
        GoodDeeper(g, stack, stack, cached, cached, es[last].key, d, n);
      }
      forall i | 0 <= i < |es| && es[i].To? ensures Good(g, stack, cached, es[i].key, n) {
        if i < last {
          assert es[..last][i] == es[i];
          GoodDeeper(g, stack, stack, cached, cached, es[i].key, m, n);
        }
      }
      forall i | 0 <= i < |es| ensures !es[i].Missing? {
        assert i < last ==> es[..last][i] == es[i];
      }
    }
  }

  /** An uncached key resolves when its parameters do. */
  lemma ResolvableUnfold(g: Graph, stack: set<Key>, cached: set<Key>, k: Key)
    requires k in g && k !in stack && k !in cached
    ensures Resolvable(g, stack, cached, k) <==> AllResolvable(g, stack, cached, g[k])
  {
    if AllResolvable(g, stack, cached, g[k]) {
      var n := CommonDepth(g, stack, cached, g[k]);
      assert Good(g, stack, cached, k, n + 1);
    }
    if Resolvable(g, stack, cached, k) {
      var n: nat :| Good(g, stack, cached, k, n);
      assert GoodEdges(g, stack, cached, g[k], n - 1);
      forall i | 0 <= i < |g[k]| ensures EdgeResolvable(g, stack, cached, g[k][i]) {
        assert g[k][i].To? ==> Good(g, stack, cached, g[k][i].key, n - 1);
      }
    }
  }

  // ----- the stack -----

  /** Below its own depth a key is not needed again. */
  lemma {:induction false} AvoidsHigher(g: Graph, stack: set<Key>, cached: set<Key>, k: Key, p: Key, m: nat)
    requires Good(g, stack, cached, p, m) && !Good(g, stack, cached, k, m)
    ensures Good(g, stack + {k}, cached, p, m)
    decreases m
  {
    if p !in cached {
      if Good(g, stack, cached, k, m - 1) {
        GoodDeeper(g, stack, stack, cached, cached, k, m - 1, m);
      }
      forall i | 0 <= i < |g[p]| && g[p][i].To? ensures Good(g, stack + {k}, cached, g[p][i].key, m - 1) {
        AvoidsHigher(g, stack, cached, k, g[p][i].key, m - 1);
      }
    }
  }

  lemma {:induction false} LeastDepth(g: Graph, stack: set<Key>, cached: set<Key>, k: Key, n: nat) returns (m: nat)
    requires Good(g, stack, cached, k, n) && k !in cached
    ensures 0 < m <= n && Good(g, stack, cached, k, m) && !Good(g, stack, cached, k, m - 1)
  {
    if Good(g, stack, cached, k, n - 1) {
      m := LeastDepth(g, stack, cached, k, n - 1);
    } else {
      m := n;
    }
  }

  /** Putting a key on the stack does not change which of its own parameters resolve, if they all do. */
  lemma StackedParameters(g: Graph, stack: set<Key>, cached: set<Key>, k: Key)
    requires k in g && k !in stack && k !in cached
    ensures Resolvable(g, stack, cached, k) <==> AllResolvable(g, stack + {k}, cached, g[k])
  {
    if Resolvable(g, stack, cached, k) {
      var n: nat :| Good(g, stack, cached, k, n);
      var m := LeastDepth(g, stack, cached, k, n);
      forall i | 0 <= i < |g[k]| ensures EdgeResolvable(g, stack + {k}, cached, g[k][i]) {
        if g[k][i].To? {
          AvoidsHigher(g, stack, cached, k, g[k][i].key, m - 1);
        }
      }
    }
    if AllResolvable(g, stack + {k}, cached, g[k]) {
      var n := CommonDepth(g, stack + {k}, cached, g[k]);
      forall i | 0 <= i < |g[k]| && g[k][i].To? ensures Good(g, stack, cached, g[k][i].key, n) {
        GoodDeeper(g, stack + {k}, stack, cached, cached, g[k][i].key, n, n);
      }
      assert Good(g, stack, cached, k, n + 1);
    }
  }

  // ----- the cache -----

  /** Whatever was added to the cache resolved before it was added. */
  ghost predicate Earned(g: Graph, stack: set<Key>, cached: set<Key>, cached': set<Key>) {
    cached <= cached' && forall y :: y in cached' - cached ==> Resolvable(g, stack, cached, y)
  }

  /** Caching what resolves changes nothing about what resolves. */
  lemma {:induction false} EarnedDepth(g: Graph, stack: set<Key>, cached: set<Key>, cached': set<Key>, k: Key, n: nat)
    requires Earned(g, stack, cached, cached') && Good(g, stack, cached', k, n)
    ensures Resolvable(g, stack, cached, k)
    decreases n
  {
    if k in cached' - cached {
    } else if k in cached {
      assert Good(g, stack, cached, k, 0);
    } else {
      forall i | 0 <= i < |g[k]| ensures EdgeResolvable(g, stack, cached, g[k][i]) {
        if g[k][i].To? {
          EarnedDepth(g, stack, cached, cached', g[k][i].key, n - 1);
        }
      }
      ResolvableUnfold(g, stack, cached, k);
    }
  }

  lemma EarnedSame(g: Graph, stack: set<Key>, cached: set<Key>, cached': set<Key>, k: Key)
    requires Earned(g, stack, cached, cached')
    ensures Resolvable(g, stack, cached, k) <==> Resolvable(g, stack, cached', k)
  {
    if Resolvable(g, stack, cached, k) {
      var n: nat :| Good(g, stack, cached, k, n);
      GoodDeeper(g, stack, stack, cached, cached', k, n, n);
    }
    if Resolvable(g, stack, cached', k) {
      var n: nat :| Good(g, stack, cached', k, n);
      EarnedDepth(g, stack, cached, cached', k, n);
    }
  }

  lemma EarnedEdge(g: Graph, stack: set<Key>, cached: set<Key>, cached': set<Key>, e: Edge)
    requires Earned(g, stack, cached, cached')
    ensures EdgeResolvable(g, stack, cached, e) <==> EdgeResolvable(g, stack, cached', e)
  {
    hide Resolvable, Earned;
    if e.To? {
      EarnedSame(g, stack, cached, cached', e.key);
    }
  }

  lemma EarnedTrans(g: Graph, stack: set<Key>, a: set<Key>, b: set<Key>, c: set<Key>)
    requires Earned(g, stack, a, b) && Earned(g, stack, b, c)
    ensures Earned(g, stack, a, c)
  {
    forall y | y in c - a ensures Resolvable(g, stack, a, y) {
      EarnedSame(g, stack, a, b, y);
    }
  }

  lemma StackBlocks(g: Graph, stack: set<Key>, cached: set<Key>, k: Key)
    requires k in stack
    ensures !Resolvable(g, stack, cached, k)
  {
  }

  lemma Unregistered(g: Graph, stack: set<Key>, cached: set<Key>, k: Key)
    requires k !in g
    ensures !Resolvable(g, stack, cached, k)
  {
  }

  lemma FromCache(g: Graph, stack: set<Key>, cached: set<Key>, k: Key)
    requires k in g && k in cached && k !in stack
    ensures Resolvable(g, stack, cached, k)
  {
    assert Good(g, stack, cached, k, 0);
  }

  /** A key on the stack is not cached meanwhile. */
  lemma NotEarned(g: Graph, stack: set<Key>, a: set<Key>, b: set<Key>, k: Key)
    requires Earned(g, stack, a, b) && k in stack && k !in a
    ensures k !in b
  {
    StackBlocks(g, stack, a, k);
    assert k in b ==> k in b - a;
    hide Resolvable;
  }

  /** What was cached below a key was resolvable without it, and the key may join if it resolves. */
  lemma EarnedWithKey(g: Graph, stack: set<Key>, a: set<Key>, b: set<Key>, k: Key)
    requires Earned(g, stack + {k}, a, b)
    ensures Earned(g, stack, a, b)
    ensures Resolvable(g, stack, a, k) ==> Earned(g, stack, a, b + {k})
  {
    EarnedSmallerStack(g, stack + {k}, stack, a, b);
    hide Resolvable;
  }

  lemma EarnedSmallerStack(g: Graph, stack: set<Key>, stack': set<Key>, a: set<Key>, b: set<Key>)
    requires Earned(g, stack, a, b) && stack' <= stack
    ensures Earned(g, stack', a, b)
  {
    forall y | y in b - a ensures Resolvable(g, stack', a, y) {
      var n: nat :| Good(g, stack, a, y, n);
      GoodDeeper(g, stack, stack', a, a, y, n, n);
    }
  }

  // ----- the same thing said with paths -----

  /** A path along the parameters of keys that still have to be instantiated. */
  ghost predicate Path(g: Graph, cached: set<Key>, path: seq<Key>) {
    && path != []
    && forall i :: 0 <= i < |path| - 1 ==> path[i] in g && path[i] !in cached && To(path[i + 1]) in g[path[i]]
  }

  ghost predicate Distinct(path: seq<Key>) {
    forall i, j :: 0 <= i < j < |path| ==> path[i] != path[j]
  }

  /** A key that can be taken from the cache or instantiated as far as its own registration goes. */
  ghost predicate Registered(g: Graph, cached: set<Key>, k: Key) {
    k in g && (k in cached || Missing !in g[k])
  }

  /** No path from `k` repeats a key or leaves the registered ones. */
  ghost predicate AcyclicFrom(g: Graph, cached: set<Key>, k: Key) {
    forall path :: Path(g, cached, path) && path[0] == k ==> Distinct(path) && Registered(g, cached, path[|path| - 1])
  }

  lemma {:induction false} GoodPath(g: Graph, cached: set<Key>, k: Key, n: nat, path: seq<Key>)
    requires Good(g, {}, cached, k, n) && Path(g, cached, path) && path[0] == k
    ensures Distinct(path) && Registered(g, cached, path[|path| - 1])
    decreases |path|
  {
    if |path| > 1 {
      var m := LeastDepth(g, {}, cached, k, n);
      var i :| 0 <= i < |g[k]| && g[k][i] == To(path[1]);
      GoodPath(g, cached, path[1], m - 1, path[1..]);
      forall j | 0 < j < |path| ensures path[j] != k {
        DepthAlong(g, cached, path[1], m - 1, path[1..], j - 1);
      }
    }
  }

  /** Every key on a path is at most as deep as its start. */
  lemma {:induction false} DepthAlong(g: Graph, cached: set<Key>, k: Key, n: nat, path: seq<Key>, j: nat)
    requires Good(g, {}, cached, k, n) && Path(g, cached, path) && path[0] == k && j < |path|
    ensures Good(g, {}, cached, path[j], n)
    decreases j
  {
    if j > 0 {
      var i :| 0 <= i < |g[k]| && g[k][i] == To(path[1]);
      DepthAlong(g, cached, path[1], n - 1, path[1..], j - 1);
      GoodDeeper(g, {}, {}, cached, cached, path[j], n - 1, n);
    }
  }

  lemma Extend(g: Graph, cached: set<Key>, path: seq<Key>, next: Key)
    requires Path(g, cached, path)
    requires var last := path[|path| - 1]; last in g && last !in cached && To(next) in g[last]
    ensures Path(g, cached, path + [next])
  {
  }

  /** With no bad path left, the last key of a path is good: the keys not yet on the path bound its depth. */
  lemma {:induction false} PathsGood(g: Graph, cached: set<Key>, path: seq<Key>, free: set<Key>) returns (n: nat)
    requires Path(g, cached, path) && AcyclicFrom(g, cached, path[0])
    requires forall k :: k in g ==> k in free || k in path
    ensures Good(g, {}, cached, path[|path| - 1], n)
    decreases free
  {
    var last := path[|path| - 1];
    n := 0;
    if last !in cached {
      forall i | 0 <= i < |g[last]| ensures EdgeResolvable(g, {}, cached, g[last][i]) {
        if g[last][i].To? {
          var next := g[last][i].key;
          Extend(g, cached, path, next);
          assert Distinct(path + [next]) && (path + [next])[|path|] == next;
          assert forall j :: 0 <= j < |path| ==> path[j] == (path + [next])[j] != next;
          assert next in free;
          var m := PathsGood(g, cached, path + [next], free - {next});
        }
      }
      var m := CommonDepth(g, {}, cached, g[last]);
      n := m + 1;
    }
  }

  /**
   * A key resolves from an empty stack exactly when the uncached parameter graph below it is acyclic and registered.
   */
  lemma ResolvableIffAcyclic(g: Graph, cached: set<Key>, k: Key)
    ensures Resolvable(g, {}, cached, k) <==> AcyclicFrom(g, cached, k)
  {
    if Resolvable(g, {}, cached, k) {
      var n: nat :| Good(g, {}, cached, k, n);
      forall path | Path(g, cached, path) && path[0] == k
        ensures Distinct(path) && Registered(g, cached, path[|path| - 1])
      {
        GoodPath(g, cached, k, n, path);
      }
    }
    if AcyclicFrom(g, cached, k) {
      assert Path(g, cached, [k]);
      var n := PathsGood(g, cached, [k], g.Keys);
    }
  }
}
