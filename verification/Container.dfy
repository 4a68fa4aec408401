/**
 * The dependency-injection container: registrations, recursive resolution
 * with a resolution stack, singleton caching and property injection whose
 * failures are swallowed. Constructors and factories neither throw nor call
 * back into the container.
 */
module Container {
  import opened Text
  import opened Resolution

  /** What a constructor parameter is known by: an injection target, a declared class, or nothing. */
  datatype Param = Inject(key: Key) | Typed(cls: nat, name: string) | Untyped

  datatype ServiceType = Class(params: seq<Param>, props: seq<Key>) | Factory(make: nat -> int)

  datatype Value = Undefined | Built(id: nat) | Foreign(value: int)

  /** An instance made by a constructor call, with what it was given. */
  datatype Instance = Instance(params: seq<Param>, args: seq<Value>, props: seq<Key>, injected: seq<Option<Value>>)

  datatype Error = Circular(key: Key) | NotRegistered(key: Key) | Unresolvable(param: Param)

  datatype Outcome = Ok(value: Value) | Err(error: Error)

  class Definition {
    const service: ServiceType
    const singleton: bool
    var instance: Value
    var hasInstance: bool

    constructor (service: ServiceType, singleton: bool)
      ensures this.service == service && this.singleton == singleton && !hasInstance
    {
      this.service, this.singleton, instance, hasInstance := service, singleton, Undefined, false;
    }

    constructor Holding(value: int)
      ensures this.service.Factory? && singleton && hasInstance && instance == Foreign(value)
    {
      service, singleton, instance, hasInstance := Factory(_ => value), true, Foreign(value), true;
    }
  }

  /** How `instantiate` finds the key of a parameter among the registered ones. */
  function EdgeOf(registered: set<Key>, p: Param): (e: Edge)
    ensures p.Typed? && e.To? ==> e.key in registered && (e.key == Ctor(p.cls) || Ctor(p.cls) !in registered)
    ensures p.Typed? ==> (e.Missing? <==> Ctor(p.cls) !in registered && Name(p.name) !in registered)
  {
    match p
    case Inject(key) => To(key)
    case Typed(cls, name) =>
      if Ctor(cls) in registered then To(Ctor(cls))
      else if Name(name) in registered then To(Name(name)) else Missing
    case Untyped => Blank
  }

  function EdgesOf(registered: set<Key>, params: seq<Param>): (es: seq<Edge>)
    ensures |es| == |params| && forall i :: 0 <= i < |params| ==> es[i] == EdgeOf(registered, params[i])
  {
    if params == [] then [] else [EdgeOf(registered, params[0])] + EdgesOf(registered, params[1..])
  }

  function ServiceEdges(registered: set<Key>, service: ServiceType): seq<Edge> {
    match service
    case Class(params, props) => EdgesOf(registered, params)
    case Factory(make) => []
  }

  /**
   * A class leads where its parameters do: to the key that is injected; by
   * type to the class if it is registered, else to its name if that is; past
   * a parameter without information. A factory leads nowhere.
   */
  lemma EdgesLead(registered: set<Key>, service: ServiceType)
    ensures service.Factory? ==> ServiceEdges(registered, service) == []
    ensures service.Class? ==>
      var es := ServiceEdges(registered, service);
      |es| == |service.params| && forall i :: 0 <= i < |es| ==>
        match service.params[i]
        case Inject(key) => es[i] == To(key)
        case Untyped => es[i] == Blank
        case Typed(cls, name) =>
          if Ctor(cls) in registered then es[i] == To(Ctor(cls))
          else es[i] == if Name(name) in registered then To(Name(name)) else Missing
  {
  }

  /** What a singleton key stands for, as far as it has been made. */
  type Instances = map<Key, Value>

  ghost predicate Grows(a: Instances, b: Instances) {
    a.Keys <= b.Keys && forall k :: k in a ==> b[k] == a[k]
  }

  /** The registrations that resolution reads but never changes. */
  datatype Registry = Registry(keys: set<Key>, singletons: set<Key>, classes: set<Key>)

  /** What a key that is no singleton gives: an instance of its class, or what its factory made. */
  ghost predicate Fits(g: Registry, k: Key, v: Value) {
    if k in g.classes then v.Built? else v.Foreign?
  }

  /** The value `v` given for `k` is the one instance of a singleton, or else fits `k`. */
  ghost predicate Shared(g: Registry, made: Instances, k: Key, v: Value) {
    k in g.keys && if k in g.singletons then k in made && made[k] == v else Fits(g, k, v)
  }

  /**
   * The parameters an argument is pushed for. Nothing is pushed for one
   * without information, so the arguments behind it arrive one place early.
   */
  function Supplied(params: seq<Param>): seq<Param> {
    if params == [] then []
    else Supplied(params[..|params| - 1]) + if params[|params| - 1].Untyped? then [] else [params[|params| - 1]]
  }

  /** The place where the argument for parameter `i` arrives. */
  function Place(params: seq<Param>, i: nat): nat
    requires i < |params|
  {
    |Supplied(params[..i])|
  }

  /** An argument reaches its own parameter exactly when no parameter before that one is without information. */
  lemma ArgumentArrives(params: seq<Param>, i: nat)
    requires i < |params| && !params[i].Untyped?
    ensures Place(params, i) < |Supplied(params)| && Supplied(params)[Place(params, i)] == params[i]
    ensures Place(params, i) == i <==> forall j :: 0 <= j < i ==> !params[j].Untyped?
  {
    SuppliedNext(params, i);
    SuppliedPrefix(params, i + 1);
    SuppliedCount(params[..i]);
  }

  lemma SuppliedNext(params: seq<Param>, i: nat)
    requires i < |params|
    ensures Supplied(params[..i + 1]) == Supplied(params[..i]) + if params[i].Untyped? then [] else [params[i]]
  {
    assert params[..i + 1][..i] == params[..i];
  }

  lemma {:induction false} SuppliedPrefix(params: seq<Param>, n: nat)
    requires n <= |params|
    ensures Supplied(params[..n]) <= Supplied(params)
  {
    if n == |params| {
      assert params[..n] == params;
    } else {
      SuppliedPrefix(params[..|params| - 1], n);
      assert params[..|params| - 1][..n] == params[..n];
    }
  }

  lemma {:induction false} SuppliedCount(params: seq<Param>)
    ensures |Supplied(params)| <= |params|
    ensures |Supplied(params)| == |params| <==> forall j :: 0 <= j < |params| ==> !params[j].Untyped?
  {
    if params != [] {
      SuppliedCount(params[..|params| - 1]);
    }
  }

  ghost predicate WiredArg(g: Registry, made: Instances, p: Param, v: Value) {
    var e := EdgeOf(g.keys, p);
    e.To? && Shared(g, made, e.key, v)
  }

  ghost predicate WiredArgs(g: Registry, made: Instances, params: seq<Param>, args: seq<Value>) {
    |args| <= |Supplied(params)| && forall i :: 0 <= i < |args| ==> WiredArg(g, made, Supplied(params)[i], args[i])
  }

  ghost predicate WiredProps(g: Registry, made: Instances, props: seq<Key>, injected: seq<Option<Value>>) {
    |injected| <= |props| &&
      forall i :: 0 <= i < |injected| && injected[i].Some? ==> Shared(g, made, props[i], injected[i].value)
  }

  /** Every singleton an instance was given is the instance cached under that key. */
  ghost predicate Wired(g: Registry, made: Instances, b: Instance) {
    WiredArgs(g, made, b.params, b.args) && WiredProps(g, made, b.props, b.injected)
  }

  /** Exactly those properties are injected whose targets resolve. */
  ghost predicate Chosen(g: Graph, stack: set<Key>, cached: set<Key>, props: seq<Key>, injected: seq<Option<Value>>) {
    |injected| <= |props| &&
      forall i :: 0 <= i < |injected| ==> (injected[i].Some? <==> Resolvable(g, stack, cached, props[i]))
  }

  /** The instance of a class, with all of its parameters supplied and all of its properties tried. */
  ghost predicate Assembled(g: Graph, stack: set<Key>, cached: set<Key>, service: ServiceType, b: Instance) {
    && service == Class(b.params, b.props) && |b.args| == |Supplied(b.params)| && |b.injected| == |b.props|
    && Chosen(g, stack, cached, b.props, b.injected)
  }

  ghost predicate AllWired(g: Registry, made: Instances, built: seq<Instance>, from: nat) {
    forall id :: from <= id < |built| ==> Wired(g, made, built[id])
  }

  lemma WiredGrows(g: Registry, a: Instances, b: Instances, instance: Instance)
    requires Grows(a, b) && Wired(g, a, instance)
    ensures Wired(g, b, instance)
  {
    WiredArgsGrow(g, a, b, instance.params, instance.args);
  }

  lemma WiredArgsGrow(g: Registry, a: Instances, b: Instances, params: seq<Param>, args: seq<Value>)
    requires Grows(a, b) && WiredArgs(g, a, params, args)
    ensures WiredArgs(g, b, params, args)
  {
    var supplied := Supplied(params);
    forall i | 0 <= i < |args| ensures WiredArg(g, b, supplied[i], args[i]) {
      assert WiredArg(g, a, supplied[i], args[i]);
    }
  }

  lemma WiredInject(g: Registry, made: Instances, b: Instance, r: Outcome)
    requires Wired(g, made, b) && |b.injected| < |b.props|
    requires r.Ok? ==> Shared(g, made, b.props[|b.injected|], r.value)
    ensures Wired(g, made, b.(injected := b.injected + [if r.Ok? then Some(r.value) else None]))
  {
  }

  /** What resolution reads: the graph, the registrations and the keys being resolved. */
  datatype Context = Context(graph: Graph, registry: Registry, stack: set<Key>)

  /** What it changes: the instances cached and the instances built. */
  datatype State = State(made: Instances, built: seq<Instance>)

  /**
   * One or more resolutions took the container from `a` to `b`: cached
   * instances stayed, newly cached keys were resolvable before, earlier
   * instances are untouched, the new ones hold the cached singletons, and
   * each newly cached class has an instance of its own.
   */
  ghost predicate Advance(c: Context, a: State, b: State) {
    && Grows(a.made, b.made)
    && Earned(c.graph, c.stack, a.made.Keys, b.made.Keys)
    && a.built <= b.built
    && AllWired(c.registry, b.made, b.built, |a.built|)
    && Later(c.registry, a.made, b.made, |a.built|, |b.built|)
    && Separate(c.registry, a.made, b.made)
  }

  /** Classes cached between `a` and `b` hold instances numbered from `n` up to `m`. */
  ghost predicate Later(g: Registry, a: Instances, b: Instances, n: nat, m: nat) {
    forall k :: k in b && k !in a && k in g.classes ==> b[k].Built? && n <= b[k].id < m
  }

  /** No two of them hold the same one. */
  ghost predicate Separate(g: Registry, a: Instances, b: Instances) {
    forall j, k :: j in b && j !in a && k in b && k !in a && j in g.classes && k in g.classes && j != k ==> b[j] != b[k]
  }

  /** `v` is not the instance of any class cached between `a` and `b`. */
  ghost predicate Unused(g: Registry, a: Instances, b: Instances, v: Value) {
    forall k :: k in b && k !in a && k in g.classes ==> b[k] != v
  }

  lemma UnusedSo(g: Registry, a: Instances, b: Instances, z: Instances, id: nat, m: nat)
    requires Later(g, a, b, 0, id) && Grows(b, z) && Later(g, b, z, id + 1, m)
    ensures Unused(g, a, z, Built(id))
  {
  }

  lemma LaterTrans(g: Registry, a: Instances, b: Instances, z: Instances, n: nat, m: nat, o: nat)
    requires Later(g, a, b, n, m) && Grows(b, z) && Later(g, b, z, m, o) && n <= m <= o
    ensures Later(g, a, z, n, o)
    ensures Separate(g, a, b) && Separate(g, b, z) ==> Separate(g, a, z)
  {
  }

  lemma AdvanceRefl(c: Context, a: State)
    ensures Advance(c, a, a)
  {
  }

  lemma AdvanceTrans(c: Context, x: State, y: State, z: State)
    requires Advance(c, x, y) && Advance(c, y, z)
    ensures Advance(c, x, z)
  {
    EarnedTrans(c.graph, c.stack, x.made.Keys, y.made.Keys, z.made.Keys);
    LaterTrans(c.registry, x.made, y.made, z.made, |x.built|, |y.built|, |z.built|);
    hide Earned, Wired, Later, Separate;
    forall id | |x.built| <= id < |z.built| ensures Wired(c.registry, z.made, z.built[id]) {
      if id < |y.built| {
        WiredGrows(c.registry, y.made, z.made, y.built[id]);
      }
    }
  }

  /** An instance built on the way may still be filled in, as long as it stays wired. */
  lemma AdvanceReplace(c: Context, a: State, b: State, id: nat, instance: Instance)
    requires Advance(c, a, b) && |a.built| <= id < |b.built| && Wired(c.registry, b.made, instance)
    ensures Advance(c, a, b.(built := b.built[id := instance]))
  {
    hide Earned, Wired, Later, Separate;
  }

  lemma AdvanceBuild(c: Context, a: State, b: State, instance: Instance)
    requires Advance(c, a, b) && Wired(c.registry, b.made, instance)
    ensures Advance(c, a, b.(built := b.built + [instance]))
  {
    hide Earned, Wired;
  }

  lemma AdvanceEdge(c: Context, a: State, b: State, e: Edge)
    requires Advance(c, a, b)
    ensures EdgeResolvable(c.graph, c.stack, a.made.Keys, e) <==> EdgeResolvable(c.graph, c.stack, b.made.Keys, e)
  {
    hide Resolvable, EdgeResolvable, AllWired;
    EarnedEdge(c.graph, c.stack, a.made.Keys, b.made.Keys, e);
  }

  /** The first `i` parameters resolve, and `args` are their arguments. */
  ghost predicate Gathered(
      c: Context, cached: set<Key>, made: Instances, params: seq<Param>, i: nat, args: seq<Value>) {
    && i <= |params| && |args| == |Supplied(params[..i])| && WiredArgs(c.registry, made, params[..i], args)
    && forall j :: 0 <= j < i ==> EdgeResolvable(c.graph, c.stack, cached, EdgeOf(c.registry.keys, params[j]))
  }

  lemma GatheredNext(c: Context, a: State, b: State, z: State, params: seq<Param>, i: nat, args: seq<Value>, arg: Value)
    requires Advance(c, a, b) && Advance(c, b, z) && i < |params| && !params[i].Untyped?
    requires Gathered(c, a.made.Keys, b.made, params, i, args) && WiredArg(c.registry, z.made, params[i], arg)
    requires EdgeResolvable(c.graph, c.stack, b.made.Keys, EdgeOf(c.registry.keys, params[i]))
    ensures Gathered(c, a.made.Keys, z.made, params, i + 1, args + [arg])
  {
    AdvanceEdge(c, a, b, EdgeOf(c.registry.keys, params[i]));
    WiredArgsGrow(c.registry, b.made, z.made, params[..i], args);
    SuppliedNext(params, i);
    hide EdgeResolvable, Resolvable, Advance, WiredArg, Supplied;
  }

  lemma GatheredSkip(c: Context, cached: set<Key>, made: Instances, params: seq<Param>, i: nat, args: seq<Value>)
    requires i < |params| && params[i].Untyped? && Gathered(c, cached, made, params, i, args)
    ensures Gathered(c, cached, made, params, i + 1, args)
  {
    SuppliedNext(params, i);
    hide Resolvable, WiredArg, Supplied;
  }

  lemma GatheredAll(c: Context, cached: set<Key>, made: Instances, params: seq<Param>, args: seq<Value>)
    requires Gathered(c, cached, made, params, |params|, args)
    ensures AllResolvable(c.graph, c.stack, cached, EdgesOf(c.registry.keys, params))
    ensures |args| == |Supplied(params)| && WiredArgs(c.registry, made, params, args)
  {
    assert params[..|params|] == params;
    hide EdgeResolvable, WiredArgs, Supplied;
  }

  lemma AdvanceChosen(c: Context, a: State, b: State, props: seq<Key>, injected: seq<Option<Value>>, r: Outcome)
    requires Advance(c, a, b) && |injected| < |props| && Chosen(c.graph, c.stack, a.made.Keys, props, injected)
    requires r.Ok? <==> Resolvable(c.graph, c.stack, b.made.Keys, props[|injected|])
    ensures Chosen(c.graph, c.stack, a.made.Keys, props, injected + [if r.Ok? then Some(r.value) else None])
  {
    AdvanceEdge(c, a, b, To(props[|injected|]));
    hide Resolvable, Advance;
  }

  /** The keys that resolved are those whose uncached parameter graph is acyclic and registered. */
  ghost predicate Answered(g: Graph, cached: set<Key>, keys: seq<Key>, rs: seq<Outcome>) {
    |rs| <= |keys| && forall i :: 0 <= i < |rs| ==> (rs[i].Ok? <==> AcyclicFrom(g, cached, keys[i]))
  }

  /** Every answer for a singleton key is the instance cached under it. */
  ghost predicate Consistent(g: Registry, made: Instances, keys: seq<Key>, rs: seq<Outcome>) {
    |rs| <= |keys| && forall i :: 0 <= i < |rs| && rs[i].Ok? ==> Shared(g, made, keys[i], rs[i].value)
  }

  lemma AdvanceRun(c: Context, x: State, y: State, z: State, keys: seq<Key>, rs: seq<Outcome>, r: Outcome)
    requires Advance(c, x, y) && Advance(c, y, z) && |rs| < |keys| && c.stack == {}
    requires Answered(c.graph, x.made.Keys, keys, rs) && Consistent(c.registry, y.made, keys, rs)
    requires r.Ok? <==> Resolvable(c.graph, {}, y.made.Keys, keys[|rs|])
    requires r.Ok? ==> Shared(c.registry, z.made, keys[|rs|], r.value)
    ensures Advance(c, x, z)
    ensures Answered(c.graph, x.made.Keys, keys, rs + [r]) && Consistent(c.registry, z.made, keys, rs + [r])
  {
    AdvanceTrans(c, x, y, z);
    AdvanceEdge(c, x, y, To(keys[|rs|]));
    ResolvableIffAcyclic(c.graph, x.made.Keys, keys[|rs|]);
    hide AcyclicFrom, Resolvable, Earned, AllWired, Later, Separate;
  }

  /** Leaving a key: what happened while it was on the stack counts without it. */
  lemma AdvanceOut(c: Context, a: State, b: State, k: Key)
    requires Advance(c.(stack := c.stack + {k}), a, b) && k !in a.made
    ensures Advance(c, a, b) && k !in b.made
  {
    hide Earned, AllWired, Resolvable;
    NotEarned(c.graph, c.stack + {k}, a.made.Keys, b.made.Keys, k);
    EarnedWithKey(c.graph, c.stack, a.made.Keys, b.made.Keys, k);
  }

  /** A key that resolves may be cached. */
  lemma AdvanceCache(c: Context, a: State, b: State, k: Key, v: Value)
    requires Advance(c, a, b) && k !in b.made && Resolvable(c.graph, c.stack, a.made.Keys, k)
    requires k in c.registry.classes ==>
      v.Built? && |a.built| <= v.id < |b.built| && Unused(c.registry, a.made, b.made, v)
    ensures Advance(c, a, b.(made := b.made[k := v]))
  {
    hide Resolvable, Wired;
    var made := b.made[k := v];
    assert made.Keys == b.made.Keys + {k};
    forall id | |a.built| <= id < |b.built| ensures Wired(c.registry, made, b.built[id]) {
      WiredGrows(c.registry, b.made, made, b.built[id]);
    }
  }

  class Container {
    var services: map<Key, Definition>
    var resolutionStack: set<Key>
    var built: seq<Instance>

    /** Two keys share a definition only when it already holds its instance. */
    ghost predicate Valid()
      reads this`services, services.Values
    {
      && (forall j, k :: j in services && k in services && j != k && services[j] == services[k] ==>
          services[j].hasInstance)
      && (forall k :: k in services && services[k].hasInstance ==> services[k].singleton)
    }

    ghost function Graph(): Graph
      reads this`services
    {
      map k | k in services :: ServiceEdges(services.Keys, services[k].service)
    }

    ghost function Registered(): Registry
      reads this`services
    {
      Registry(services.Keys, set k | k in services && services[k].singleton, set k | k in services &&
        services[k].service.Class?)
    }

    ghost function Made(): Instances
      reads this`services, services.Values
    {
      map k | k in services && services[k].hasInstance :: services[k].instance
    }

    ghost function Reading(): Context
      reads this`services, this`resolutionStack
    {
      Context(Graph(), Registered(), resolutionStack)
    }

    ghost function Now(): State
      reads this`services, this`built, services.Values
    {
      State(Made(), built)
    }

    /** `v` is an instance built since there were `n`. */
    ghost predicate New(n: nat, v: Value)
      reads this`built
    {
      v.Built? && n <= v.id < |built|
    }

    /** Registrations and the stack are as before. */
    twostate predicate Kept()
      reads this, services.Values
    {
      services == old(services) && resolutionStack == old(resolutionStack) && Valid()
    }

    constructor ()
      ensures Valid() && services == map[] && resolutionStack == {} && built == []
    {
      services, resolutionStack, built := map[], {}, [];
    }

    // ----- registration -----

    method Register(cls: nat, name: string, service: ServiceType, singleton: bool)
      requires Valid() && service.Class?
      modifies this
      ensures Valid() && resolutionStack == old(resolutionStack) && built == old(built)
      ensures services.Keys == old(services.Keys) + {Name(name), Ctor(cls)}
      ensures forall k :: k in old(services) && k != Name(name) && k != Ctor(cls) ==> services[k] == old(services[k])
      ensures services[Name(name)] != services[Ctor(cls)]
      ensures fresh(services[Name(name)]) && services[Name(name)].service == service
      ensures services[Name(name)].singleton == singleton && !services[Name(name)].hasInstance
      ensures fresh(services[Ctor(cls)]) && services[Ctor(cls)].service == service
      ensures services[Ctor(cls)].singleton == singleton && !services[Ctor(cls)].hasInstance
    {
      var byName := new Definition(service, singleton);
      services := services[Name(name) := byName];
      var byClass := new Definition(service, singleton);
      services := services[Ctor(cls) := byClass];
    }

    method RegisterValue(key: Key, name: Option<string>, value: int)
      requires Valid() && (key.Ctor? <==> name.Some?)
      modifies this
      ensures Valid() && resolutionStack == old(resolutionStack) && built == old(built)
      ensures services.Keys == old(services.Keys) + {key} + (if name.Some? then {Name(name.value)} else {})
      ensures forall k :: k in old(services) && k != key && !(name.Some? && k == Name(name.value)) ==>
        services[k] == old(services[k])
      ensures services[key].singleton && services[key].hasInstance && services[key].instance == Foreign(value)
      ensures name.Some? ==> services[Name(name.value)] == services[key]
    {
      var definition := new Definition.Holding(value);
      services := services[key := definition];
      if name.Some? {
        services := services[Name(name.value) := definition];
      }
    }

    // ----- resolution -----

    method Resolve(key: Key) returns (r: Outcome)
      requires Valid()
      modifies this, services.Values
      ensures Kept() && Advance(Reading(), old(Now()), Now())
      ensures r.Ok? <==> Resolvable(Graph(), resolutionStack, old(Made().Keys), key)
      ensures resolutionStack == {} ==> (r.Ok? <==> AcyclicFrom(Graph(), old(Made().Keys), key))
      ensures r.Ok? ==> Shared(Registered(), Made(), key, r.value)
      ensures r.Ok? && key !in old(Made()) && services[key].service.Class? ==>
        New(old(|built|), r.value) &&
          Assembled(Graph(), resolutionStack + {key}, old(Made().Keys), services[key].service, built[r.value.id])
      ensures key in old(Made()) && key !in resolutionStack ==> r == Ok(old(Made())[key]) && Now() == old(Now())
      decreases services.Keys - resolutionStack, 1
    {
      AdvanceRefl(Reading(), Now());
      if resolutionStack == {} {
        ResolvableIffAcyclic(Graph(), Made().Keys, key);
      }
      hide Resolvable, AcyclicFrom;
      if key in resolutionStack {
        StackBlocks(Graph(), resolutionStack, Made().Keys, key);
        return Err(Circular(key));
      }
      if key !in services {
        Unregistered(Graph(), resolutionStack, Made().Keys, key);
        return Err(NotRegistered(key));
      }
      var definition := services[key];
      if definition.singleton && definition.hasInstance {
        FromCache(Graph(), resolutionStack, Made().Keys, key);
        return Ok(definition.instance);
      }
      r := Create(key);
    }

    lemma Recorded(key: Key)
      requires key in services
      ensures key in Graph() && Graph()[key] == ServiceEdges(services.Keys, services[key].service)
    {
    }

    /** The uncached branch: the key is on the stack while its instance is made, and off it again on every exit. */
    method Create(key: Key) returns (r: Outcome)
      requires Valid() && key in services && key !in resolutionStack && key !in Made()
      modifies this, services.Values
      ensures Kept() && Advance(Reading(), old(Now()), Now())
      ensures r.Ok? <==> Resolvable(Graph(), resolutionStack, old(Made().Keys), key)
      ensures r.Ok? ==> Shared(Registered(), Made(), key, r.value)
      ensures r.Ok? && services[key].service.Class? ==>
        New(old(|built|), r.value) &&
          Assembled(Graph(), resolutionStack + {key}, old(Made().Keys), services[key].service, built[r.value.id])
      decreases services.Keys - resolutionStack, 0
    {
      hide Resolvable, AllResolvable, Advance, Assembled, Unused, Shared, Graph, Registered, Made, Valid, ServiceEdges;
      ghost var c, start := Reading(), Now();
      Recorded(key);
      StackedParameters(c.graph, c.stack, start.made.Keys, key);
      resolutionStack := resolutionStack + {key};
      r := Instantiate(services[key].service);
      AdvanceOut(c, start, Now(), key);
      if r.Ok? {
        Cache(key, r.value, c, start);
      }
      resolutionStack := resolutionStack - {key};
      assert resolutionStack == c.stack;
    }

    /** A singleton keeps its instance: `definition.instance = instance; definition.hasInstance = true`. */
    method Cache(key: Key, value: Value, ghost c: Context, ghost start: State)
      requires Valid() && key in services && key !in Made() && c.graph == Graph() && c.registry == Registered()
      requires Advance(c, start, Now()) && Resolvable(c.graph, c.stack, start.made.Keys, key)
      requires services[key].service.Class? ==>
        New(|start.built|, value) && Unused(c.registry, start.made, Made(), value)
      requires services[key].service.Factory? ==> value.Foreign?
      modifies services[key]
      ensures Valid() && Advance(c, start, Now()) && Shared(Registered(), Made(), key, value)
    {
      var definition := services[key];
      if definition.singleton {
        AdvanceCache(c, start, Now(), key, value);
        hide Advance, Resolvable;
        definition.instance := value;
        definition.hasInstance := true;
        assert Made() == old(Made())[key := value];
      }
    }

    method Instantiate(service: ServiceType) returns (r: Outcome)
      requires Valid()
      modifies this, services.Values
      ensures Kept() && Advance(Reading(), old(Now()), Now())
      ensures r.Ok? <==> AllResolvable(Graph(), resolutionStack, old(Made().Keys), ServiceEdges(services.Keys, service))
      ensures r.Ok? && service.Class? ==>
        && New(old(|built|), r.value) && Unused(Registered(), old(Made()), Made(), r.value)
        && Assembled(Graph(), resolutionStack, old(Made().Keys), service, built[r.value.id])
      ensures service.Factory? ==> r == Ok(Foreign(service.make(old(|built|))))
      decreases services.Keys - resolutionStack, 5
    {
      AdvanceRefl(Reading(), Now());
      if service.Factory? {
        return Ok(Foreign(service.make(|built|)));
      }
      var failure, dependencies := Dependencies(service.params);
      if failure.Some? {
        return Err(failure.value);
      }
      var instance := Instance(service.params, dependencies, service.props, []);
      assert Wired(Registered(), Made(), instance);
      assert Later(Registered(), old(Made()), Made(), 0, |built|);
      hide Later, Unused, AllResolvable, Advance, Wired, Chosen, Supplied, WiredArgs, Graph, Registered, Made, Valid;
      AdvanceBuild(Reading(), old(Now()), Now(), instance);
      var id := |built|;
      built := built + [instance];
      ghost var middle := Now();
      InjectProperties(id, old(Now()));
      UnusedSo(Registered(), old(Made()), middle.made, Made(), id, |built|);
      return Ok(Built(id));
    }

    /** The constructor arguments in order, or the first failure. */
    method Dependencies(params: seq<Param>) returns (failure: Option<Error>, dependencies: seq<Value>)
      requires Valid()
      modifies this, services.Values
      ensures Kept() && Advance(Reading(), old(Now()), Now())
      ensures failure.None? <==>
        AllResolvable(Graph(), resolutionStack, old(Made().Keys), EdgesOf(services.Keys, params))
      ensures failure.None? ==>
        |dependencies| == |Supplied(params)| && WiredArgs(Registered(), Made(), params, dependencies)
      decreases services.Keys - resolutionStack, 3
    {
      ghost var c, start := Reading(), Now();
      AdvanceRefl(c, start);
      dependencies := [];
      var i := 0;
      while i < |params|
        invariant Kept() && c == Reading() && Advance(c, start, Now())
        invariant Gathered(c, start.made.Keys, Made(), params, i, dependencies)
      {
        hide EdgeResolvable, Resolvable, Advance, WiredArg, Gathered, Graph, Registered, Made, Valid;
        if params[i].Untyped? {
          GatheredSkip(c, start.made.Keys, Made(), params, i, dependencies);
        } else {
          ghost var before := Now();
          var failed, value := Argument(params[i]);
          AdvanceEdge(c, start, before, EdgesOf(services.Keys, params)[i]);
          AdvanceTrans(c, start, before, Now());
          if failed.Some? {
            return failed, dependencies;
          }
          GatheredNext(c, start, before, Now(), params, i, dependencies, value);
          dependencies := dependencies + [value];
        }
        i := i + 1;
      }
      GatheredAll(c, start.made.Keys, Made(), params, dependencies);
      return None, dependencies;
    }

    /** The argument for a parameter that has a target or a type. */
    method Argument(p: Param) returns (failure: Option<Error>, value: Value)
      requires Valid() && !p.Untyped?
      modifies this, services.Values
      ensures Kept() && Advance(Reading(), old(Now()), Now())
      ensures failure.None? <==> EdgeResolvable(Graph(), resolutionStack, old(Made().Keys), EdgeOf(services.Keys, p))
      ensures failure.None? ==> WiredArg(Registered(), Made(), p, value)
      decreases services.Keys - resolutionStack, 2
    {
      AdvanceRefl(Reading(), Now());
      var e := EdgeOf(services.Keys, p);
      if e.Missing? {
        return Some(Unresolvable(p)), Undefined;
      }
      var r := Resolve(e.key);
      return if r.Ok? then None else Some(r.error), if r.Ok? then r.value else Undefined;
    }

    /** A property whose target does not resolve is left alone; nothing is thrown. */
    method InjectProperties(id: nat, ghost start: State)
      requires Valid() && |start.built| <= id < |built| && built[id].injected == []
      requires Wired(Registered(), Made(), built[id])
      requires Advance(Reading(), start, Now())
      modifies this, services.Values
      ensures Kept() && Advance(Reading(), start, Now()) && id < |built|
      ensures built[id] == old(built)[id].(injected := built[id].injected) && |built[id].injected| == |built[id].props|
      ensures Chosen(Graph(), resolutionStack, start.made.Keys, built[id].props, built[id].injected)
      ensures Grows(old(Made()), Made()) && Later(Registered(), old(Made()), Made(), |old(built)|, |built|)
      ensures |old(built)| <= |built|
      decreases services.Keys - resolutionStack, 4
    {
      hide Advance, Wired, Graph, Registered, Made, Valid;
      ghost var first := Now();
      var props, injected := built[id].props, [];
      while |injected| < |props|
        invariant Kept() && Advance(Reading(), start, Now()) && id < |built|
        invariant |injected| <= |props| && built[id] == old(built)[id].(injected := injected)
        invariant Wired(Registered(), Made(), built[id])
        invariant Chosen(Graph(), resolutionStack, start.made.Keys, props, injected)
        invariant Grows(old(Made()), Made()) && Later(Registered(), old(Made()), Made(), |old(built)|, |built|)
        invariant |old(built)| <= |built|
        decreases |props| - |injected|
      {
        ghost var made, count := Made(), |built|;
        injected := InjectProperty(id, start);
        LaterTrans(Registered(), first.made, made, Made(), |first.built|, count, |built|);
      }
    }

    method InjectProperty(id: nat, ghost start: State) returns (injected: seq<Option<Value>>)
      requires Valid() && |start.built| <= id < |built| && |built[id].injected| < |built[id].props|
      requires Wired(Registered(), Made(), built[id])
      requires Chosen(Graph(), resolutionStack, start.made.Keys, built[id].props, built[id].injected)
      requires Advance(Reading(), start, Now())
      modifies this, services.Values
      ensures Kept() && Advance(Reading(), start, Now()) && id < |built| && Wired(Registered(), Made(), built[id])
      ensures built[id] == old(built)[id].(injected := injected) && |injected| == |old(built)[id].injected| + 1
      ensures Chosen(Graph(), resolutionStack, start.made.Keys, built[id].props, injected)
      ensures Grows(old(Made()), Made()) && Later(Registered(), old(Made()), Made(), |old(built)|, |built|)
      ensures |old(built)| <= |built|
      decreases services.Keys - resolutionStack, 2
    {
      ghost var before := Now();
      var r := Resolve(built[id].props[|built[id].injected|]);
      AdvanceChosen(Reading(), start, before, before.built[id].props, before.built[id].injected, r);
      AdvanceTrans(Reading(), start, before, Now());
      assert built[id] == before.built[id];
      WiredGrows(Registered(), before.made, Made(), built[id]);
      hide Later, Separate, Advance, Wired, Chosen, Graph, Registered, Made, Valid;
      WiredInject(Registered(), Made(), built[id], r);
      injected := built[id].injected + [if r.Ok? then Some(r.value) else None];
      var instance := built[id].(injected := injected);
      AdvanceReplace(Reading(), start, Now(), id, instance);
      built := built[id := instance];
    }

    // ----- whole runs -----

    /**
     * Any sequence of calls: whether a key resolves is decided by the graph
     * and the cache at the start, whatever was resolved in between, and a
     * singleton key that resolved keeps giving the same instance.
     */
    method ResolveAll(keys: seq<Key>) returns (rs: seq<Outcome>)
      requires Valid() && resolutionStack == {}
      modifies this, services.Values
      ensures Kept() && Advance(Reading(), old(Now()), Now()) && |rs| == |keys|
      ensures Answered(Graph(), old(Made().Keys), keys, rs) && Consistent(Registered(), Made(), keys, rs)
    {
      ghost var start := Now();
      AdvanceRefl(Reading(), start);
      rs := [];
      while |rs| < |keys|
        invariant Kept() && Advance(Reading(), start, Now()) && |rs| <= |keys|
        invariant Answered(Graph(), start.made.Keys, keys, rs) && Consistent(Registered(), Made(), keys, rs)
        decreases |keys| - |rs|
      {
        hide Advance, Graph, Registered, Made, Valid, AcyclicFrom, Resolvable, Shared, Answered, Consistent;
        ghost var before := Now();
        var r := Resolve(keys[|rs|]);
        AdvanceRun(Reading(), start, before, Now(), keys, rs, r);
        rs := rs + [r];
      }
    }

    /**
     * A class is registered under its name and itself, as two singletons: each
     * key resolves exactly when its parameter graph allows it, and the two
     * keys give two instances.
     */
    method RegisteredTwice(cls: nat, name: string, service: ServiceType) returns (a: Outcome, b: Outcome)
      requires Valid() && resolutionStack == {} && service.Class?
      modifies this, services.Values
      ensures services.Keys == old(services.Keys) + {Name(name), Ctor(cls)}
      ensures Graph()[Ctor(cls)] == Graph()[Name(name)] == ServiceEdges(services.Keys, service)
      ensures a.Ok? <==> AcyclicFrom(Graph(), old(Made().Keys) - {Name(name), Ctor(cls)}, Ctor(cls))
      ensures b.Ok? <==> AcyclicFrom(Graph(), old(Made().Keys) - {Name(name), Ctor(cls)}, Name(name))
      ensures a.Ok? && b.Ok? ==> a.value != b.value
      ensures a.Ok? ==> Shared(Registered(), Made(), Ctor(cls), a.value) && Ctor(cls) in Registered().singletons
      ensures b.Ok? ==> Shared(Registered(), Made(), Name(name), b.value) && Name(name) in Registered().singletons
    {
      Register(cls, name, service, true);
      assert Made().Keys == old(Made().Keys) - {Name(name), Ctor(cls)};
      var answers := ResolveAll([Ctor(cls), Name(name)]);
      a, b := answers[0], answers[1];
    }
  }
}
