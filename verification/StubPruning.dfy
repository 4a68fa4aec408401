/**
 * Dropping the boundary stubs of a type graph that nothing mentions: the
 * names kept are the least set that holds what roots, owned objects and
 * interfaces mention and is closed under the fields of the stubs in it.
 */
module StubPruning {
  datatype NodeKind = ScalarNode | EnumNode | InputNode | ObjectNode | InterfaceNode | UnionNode

  datatype TypeNode = Named(kind: NodeKind, name: string) | ListOf(of: TypeNode) | NonNull(of: TypeNode)

  datatype Field = Field(fieldType: TypeNode, args: seq<TypeNode>)

  datatype ObjectType = ObjectType(target: nat, name: string, stub: bool, fields: seq<Field>)

  /** `namedTypeNode`: without its list and non-null wrappers. */
  function NamedNode(node: TypeNode): (r: TypeNode)
    ensures r.Named?
  {
    match node
    case ListOf(of) => NamedNode(of)
    case NonNull(of) => NamedNode(of)
    case Named(_, _) => node
  }

  function Mention(node: TypeNode): set<string> {
    var named := NamedNode(node);
    if named.kind == ObjectNode then {named.name} else {}
  }

  function ArgMentions(args: seq<TypeNode>): set<string> {
    if args == [] then {} else ArgMentions(args[..|args| - 1]) + Mention(args[|args| - 1])
  }

  /** The object types that fields and their arguments mention. */
  function Mentions(fields: seq<Field>): set<string> {
    if fields == [] then {}
    else
      var last := fields[|fields| - 1];
      Mentions(fields[..|fields| - 1]) + Mention(last.fieldType) + ArgMentions(last.args)
  }

  function AllMentions(groups: seq<seq<Field>>): set<string> {
    if groups == [] then {} else AllMentions(groups[..|groups| - 1]) + Mentions(groups[|groups| - 1])
  }

  // ----- what a mention is -----

  /** A type with list (`true`) and non-null layers around it, the outermost first. */
  function Wrapped(layers: seq<bool>, node: TypeNode): TypeNode {
    if layers == [] then node
    else if layers[0] then ListOf(Wrapped(layers[1..], node))
    else NonNull(Wrapped(layers[1..], node))
  }

  /** Under any number of list and non-null layers the type is the object type `n`. */
  ghost predicate Names(node: TypeNode, n: string) {
    exists layers :: node == Wrapped(layers, Named(ObjectNode, n))
  }

  ghost predicate FieldNames(field: Field, n: string) {
    Names(field.fieldType, n) || exists i :: 0 <= i < |field.args| && Names(field.args[i], n)
  }

  ghost predicate FieldsName(fields: seq<Field>, n: string) {
    exists i :: 0 <= i < |fields| && FieldNames(fields[i], n)
  }

  ghost predicate GroupsName(groups: seq<seq<Field>>, n: string) {
    exists i :: 0 <= i < |groups| && FieldsName(groups[i], n)
  }

  lemma {:induction false} MentionExactly(node: TypeNode, n: string)
    ensures n in Mention(node) <==> Names(node, n)
  {
    match node
    case Named(_, _) =>
      assert Wrapped([], Named(ObjectNode, n)) == Named(ObjectNode, n);
    case ListOf(of) =>
      MentionExactly(of, n);
      LayerAdded(true, of, n);
    case NonNull(of) =>
      MentionExactly(of, n);
      LayerAdded(false, of, n);
  }

  lemma LayerAdded(list: bool, of: TypeNode, n: string)
    ensures Names(if list then ListOf(of) else NonNull(of), n) <==> Names(of, n)
  {
    var node := if list then ListOf(of) else NonNull(of);
    if layers :| of == Wrapped(layers, Named(ObjectNode, n)) {
      assert ([list] + layers)[1..] == layers;
      assert node == Wrapped([list] + layers, Named(ObjectNode, n));
    }
    if layers :| node == Wrapped(layers, Named(ObjectNode, n)) {
      assert of == Wrapped(layers[1..], Named(ObjectNode, n));
    }
  }

  lemma {:induction false} ArgMentionsExactly(args: seq<TypeNode>, n: string)
    ensures n in ArgMentions(args) <==> exists i :: 0 <= i < |args| && Names(args[i], n)
  {
    hide Mention, Names;
    if args != [] {
      var less := args[..|args| - 1];
      ArgMentionsExactly(less, n);
      MentionExactly(args[|args| - 1], n);
      assert forall i :: 0 <= i < |less| ==> less[i] == args[i];
    }
  }

  lemma {:induction false} MentionsExactly(fields: seq<Field>, n: string)
    ensures n in Mentions(fields) <==> FieldsName(fields, n)
  {
    hide Mention, ArgMentions, Names;
    if fields != [] {
      var less, last := fields[..|fields| - 1], fields[|fields| - 1];
      MentionsExactly(less, n);
      MentionExactly(last.fieldType, n);
      ArgMentionsExactly(last.args, n);
      assert forall i :: 0 <= i < |less| ==> less[i] == fields[i];
    }
  }

  lemma {:induction false} AllMentionsExactly(groups: seq<seq<Field>>, n: string)
    ensures n in AllMentions(groups) <==> GroupsName(groups, n)
  {
    hide Mentions, FieldsName;
    if groups != [] {
      var less := groups[..|groups| - 1];
      AllMentionsExactly(less, n);
      MentionsExactly(groups[|groups| - 1], n);
      assert forall i :: 0 <= i < |less| ==> less[i] == groups[i];
    }
  }

  /** Roots, interfaces or an object that is no stub name `n`. */
  ghost predicate NamedOutside(
      objects: seq<ObjectType>, interfaces: seq<seq<Field>>, roots: seq<seq<Field>>, n: string) {
    || GroupsName(roots, n)
    || GroupsName(interfaces, n)
    || exists i :: 0 <= i < |objects| && !objects[i].stub && FieldsName(objects[i].fields, n)
  }

  ghost predicate NamedByStub(objects: seq<ObjectType>, m: string, n: string) {
    exists i :: 0 <= i < |objects| && objects[i].stub && objects[i].name == m && FieldsName(objects[i].fields, n)
  }

  /** Named outside stubs, then from stub to stub. */
  ghost predicate Trail(
      objects: seq<ObjectType>, interfaces: seq<seq<Field>>, roots: seq<seq<Field>>, path: seq<string>) {
    && path != [] && NamedOutside(objects, interfaces, roots, path[0])
    && forall k :: 0 < k < |path| ==> NamedByStub(objects, path[k - 1], path[k])
  }

  ghost predicate Reached(objects: seq<ObjectType>, interfaces: seq<seq<Field>>, roots: seq<seq<Field>>, n: string) {
    exists path :: Trail(objects, interfaces, roots, path) && path[|path| - 1] == n
  }

  function OwnedFields(objects: seq<ObjectType>): seq<seq<Field>> {
    if objects == [] then []
    else
      var last := objects[|objects| - 1];
      OwnedFields(objects[..|objects| - 1]) + if last.stub then [] else [last.fields]
  }

  /** What is mentioned outside stubs. */
  function Start(objects: seq<ObjectType>, interfaces: seq<seq<Field>>, roots: seq<seq<Field>>): set<string> {
    AllMentions(roots) + AllMentions(OwnedFields(objects)) + AllMentions(interfaces)
  }

  ghost predicate Closed(objects: seq<ObjectType>, names: set<string>) {
    forall i :: 0 <= i < |objects| && objects[i].stub && objects[i].name in names ==>
      Mentions(objects[i].fields) <= names
  }

  ghost predicate LeastClosed(objects: seq<ObjectType>, start: set<string>, names: set<string>) {
    && start <= names && Closed(objects, names)
    && forall other: set<string> :: start <= other && Closed(objects, other) ==> names <= other
  }

  lemma LeastUnique(objects: seq<ObjectType>, start: set<string>, a: set<string>, b: set<string>)
    requires LeastClosed(objects, start, a) && LeastClosed(objects, start, b)
    ensures a == b
  {
    assert a <= b && b <= a;
  }

  /** The references so far are among those of every closed set. */
  ghost predicate Needed(objects: seq<ObjectType>, start: set<string>, names: set<string>) {
    forall other: set<string> :: start <= other && Closed(objects, other) ==> names <= other
  }

  lemma NeedMore(objects: seq<ObjectType>, start: set<string>, names: set<string>, i: nat)
    requires Needed(objects, start, names) && i < |objects| && objects[i].stub && objects[i].name in names
    ensures Needed(objects, start, names + Mentions(objects[i].fields))
  {
    hide Mentions;
    forall other: set<string> | start <= other && Closed(objects, other)
      ensures names + Mentions(objects[i].fields) <= other
    {
      assert names <= other;
    }
  }

  function StubMentions(objects: seq<ObjectType>): set<string> {
    if objects == [] then {} else StubMentions(objects[..|objects| - 1]) + Mentions(objects[|objects| - 1].fields)
  }

  lemma {:induction false} StubMentionsAll(objects: seq<ObjectType>, i: nat)
    requires i < |objects|
    ensures Mentions(objects[i].fields) <= StubMentions(objects)
  {
    hide Mentions;
    if i < |objects| - 1 {
      StubMentionsAll(objects[..|objects| - 1], i);
    }
  }

  lemma SubsetSize(a: set<string>, b: set<string>)
    requires a <= b
    ensures |a| <= |b| && (|a| == |b| ==> a == b)
  {
    if a != b {
      assert b == a + (b - a);
      assert |b| == |a| + |b - a|;
    }
  }

  predicate Kept(o: ObjectType, names: set<string>) { !o.stub || o.name in names }

  ghost predicate Dropped(objects: seq<ObjectType>, names: set<string>, n: string) {
    exists j :: 0 <= j < |objects| && !Kept(objects[j], names) && objects[j].name == n
  }

  lemma NothingDropped(names: set<string>)
    ensures forall n :: !Dropped([], names, n)
  {
  }

  lemma DroppedNext(objects: seq<ObjectType>, names: set<string>, i: nat, n: string)
    requires i < |objects|
    ensures Dropped(objects[..i + 1], names, n) <==>
      Dropped(objects[..i], names, n) || (!Kept(objects[i], names) && objects[i].name == n)
  {
    var more := objects[..i + 1];
    assert more[..i] == objects[..i] && more[i] == objects[i];
    if j :| 0 <= j < i && !Kept(objects[..i][j], names) && objects[..i][j].name == n {
      assert more[j] == objects[..i][j];
    }
    if j :| 0 <= j < i && !Kept(more[j], names) && more[j].name == n {
      assert objects[..i][j] == more[j];
    }
  }

  function Survivors(objects: seq<ObjectType>, names: set<string>): seq<ObjectType> {
    if objects == [] then []
    else
      var last := objects[|objects| - 1];
      Survivors(objects[..|objects| - 1], names) + if Kept(last, names) then [last] else []
  }

  /** `some` is what `all` has at ascending indexes. */
  ghost predicate InOrder(some: seq<ObjectType>, all: seq<ObjectType>, at: seq<nat>) {
    && |at| == |some| && (forall k :: 0 <= k < |at| ==> at[k] < |all| && some[k] == all[at[k]])
    && forall k :: 0 < k < |at| ==> at[k - 1] < at[k]
  }

  lemma {:induction false} SurvivorsInOrder(objects: seq<ObjectType>, names: set<string>) returns (at: seq<nat>)
    ensures InOrder(Survivors(objects, names), objects, at)
  {
    hide InOrder, Kept;
    at := [];
    if objects == [] {
      InOrderMore([], objects, at);
    } else {
      var last := |objects| - 1;
      at := SurvivorsInOrder(objects[..last], names);
      var before := Survivors(objects[..last], names);
      InOrderMore(before, objects, at);
      assert before + [] == before;
      if Kept(objects[last], names) {
        at := at + [last];
      }
    }
  }

  lemma InOrderMore(some: seq<ObjectType>, all: seq<ObjectType>, at: seq<nat>)
    requires if all == [] then some == [] && at == [] else InOrder(some, all[..|all| - 1], at)
    ensures InOrder(some, all, at)
    ensures all != [] ==> InOrder(some + [all[|all| - 1]], all, at + [|all| - 1])
  {
    if all != [] {
      var less, more := all[..|all| - 1], at + [|all| - 1];
      assert forall i :: 0 <= i < |less| ==> less[i] == all[i];
      assert forall k :: 0 <= k < |at| ==> more[k] == at[k] && (some + [all[|all| - 1]])[k] == some[k];
    }
  }

  lemma DroppedMeans(objects: seq<ObjectType>, names: set<string>, n: string)
    ensures Dropped(objects, names, n) <==> exists d :: d in objects && !Kept(d, names) && d.name == n
  {
    if d :| d in objects && !Kept(d, names) && d.name == n {
      var j :| 0 <= j < |objects| && objects[j] == d;
    }
  }

  lemma {:induction false} SurvivorsAre(objects: seq<ObjectType>, names: set<string>, o: ObjectType)
    ensures o in Survivors(objects, names) <==> o in objects && Kept(o, names)
  {
    if objects != [] {
      SurvivorsAre(objects[..|objects| - 1], names, o);
      assert objects == objects[..|objects| - 1] + [objects[|objects| - 1]];
    }
  }

  lemma {:induction false} OwnedExactly(objects: seq<ObjectType>, n: string)
    ensures n in AllMentions(OwnedFields(objects)) <==>
      exists i :: 0 <= i < |objects| && !objects[i].stub && FieldsName(objects[i].fields, n)
  {
    hide Mentions, FieldsName;
    if objects != [] {
      var less, last := objects[..|objects| - 1], objects[|objects| - 1];
      var before := OwnedFields(less);
      OwnedExactly(less, n);
      assert forall i :: 0 <= i < |less| ==> less[i] == objects[i];
      MentionsExactly(last.fields, n);
      if !last.stub {
        assert OwnedFields(objects) == before + [last.fields];
        assert (before + [last.fields])[..|before|] == before;
      } else {
        assert OwnedFields(objects) == before;
      }
    }
  }

  lemma StartExactly(objects: seq<ObjectType>, interfaces: seq<seq<Field>>, roots: seq<seq<Field>>, n: string)
    ensures n in Start(objects, interfaces, roots) <==> NamedOutside(objects, interfaces, roots, n)
  {
    hide AllMentions, OwnedFields, FieldsName, GroupsName;
    AllMentionsExactly(roots, n);
    AllMentionsExactly(interfaces, n);
    OwnedExactly(objects, n);
  }

  lemma TrailLonger(
      objects: seq<ObjectType>, interfaces: seq<seq<Field>>, roots: seq<seq<Field>>, path: seq<string>, n: string)
    requires Trail(objects, interfaces, roots, path) && NamedByStub(objects, path[|path| - 1], n)
    ensures Reached(objects, interfaces, roots, n)
  {
    hide NamedOutside, NamedByStub;
    var more := path + [n];
    assert more[0] == path[0] && more[|more| - 1] == n;
    forall k | 0 < k < |more| ensures NamedByStub(objects, more[k - 1], more[k]) {
      assert more[k - 1] == path[k - 1] && (k < |path| ==> more[k] == path[k]);
    }
    assert Trail(objects, interfaces, roots, more);
  }

  /** Every name on a trail is in every closed set that holds what is named outside stubs. */
  lemma {:induction false} TrailInside(
      objects: seq<ObjectType>, interfaces: seq<seq<Field>>, roots: seq<seq<Field>>, path: seq<string>,
      names: set<string>, k: nat)
    requires Start(objects, interfaces, roots) <= names && Closed(objects, names)
    requires Trail(objects, interfaces, roots, path) && k < |path|
    ensures path[k] in names
  {
    hide Mentions, Start, NamedOutside, FieldsName;
    if k == 0 {
      StartExactly(objects, interfaces, roots, path[0]);
    } else {
      TrailInside(objects, interfaces, roots, path, names, k - 1);
      assert NamedByStub(objects, path[k - 1], path[k]);
      var i :| 0 <= i < |objects| && objects[i].stub && objects[i].name == path[k - 1] &&
        FieldsName(objects[i].fields, path[k]);
      MentionsExactly(objects[i].fields, path[k]);
    }
  }

  /** The least closed set is what is reached from outside the stubs. */
  lemma LeastReached(objects: seq<ObjectType>, interfaces: seq<seq<Field>>, roots: seq<seq<Field>>, names: set<string>)
    requires LeastClosed(objects, Start(objects, interfaces, roots), names)
    ensures forall n :: n in names <==> Reached(objects, interfaces, roots, n)
  {
    hide Mentions, Start, NamedOutside, NamedByStub;
    var start := Start(objects, interfaces, roots);
    ghost var reached := set n | n in names && Reached(objects, interfaces, roots, n);
    forall n | n in start ensures n in reached {
      StartExactly(objects, interfaces, roots, n);
      OneTrail(objects, interfaces, roots, n);
    }
    forall i | 0 <= i < |objects| && objects[i].stub && objects[i].name in reached
      ensures Mentions(objects[i].fields) <= reached
    {
      StubReached(objects, interfaces, roots, names, i);
    }
    assert Closed(objects, reached);
    forall n ensures n in names <==> Reached(objects, interfaces, roots, n) {
      if path :| Trail(objects, interfaces, roots, path) && path[|path| - 1] == n {
        TrailInside(objects, interfaces, roots, path, names, |path| - 1);
      }
    }
  }

  lemma OneTrail(objects: seq<ObjectType>, interfaces: seq<seq<Field>>, roots: seq<seq<Field>>, n: string)
    requires NamedOutside(objects, interfaces, roots, n)
    ensures Reached(objects, interfaces, roots, n)
  {
    hide NamedOutside, NamedByStub;
    assert Trail(objects, interfaces, roots, [n]) && [n][|[n]| - 1] == n;
  }

  lemma StubReached(
      objects: seq<ObjectType>, interfaces: seq<seq<Field>>, roots: seq<seq<Field>>, names: set<string>, i: nat)
    requires Closed(objects, names) && i < |objects| && objects[i].stub && objects[i].name in names
    requires Reached(objects, interfaces, roots, objects[i].name)
    ensures forall n :: n in Mentions(objects[i].fields) ==> n in names && Reached(objects, interfaces, roots, n)
  {
    hide Mentions, NamedOutside, FieldsName;
    var path :| Trail(objects, interfaces, roots, path) && path[|path| - 1] == objects[i].name;
    forall n | n in Mentions(objects[i].fields) ensures n in names && Reached(objects, interfaces, roots, n) {
      MentionsExactly(objects[i].fields, n);
      assert NamedByStub(objects, objects[i].name, n);
      TrailLonger(objects, interfaces, roots, path, n);
    }
  }

  lemma NothingOwned()
    ensures AllMentions(OwnedFields([])) == {}
  {
  }

  lemma OwnedNext(objects: seq<ObjectType>, i: nat)
    requires i < |objects|
    ensures AllMentions(OwnedFields(objects[..i + 1])) ==
      AllMentions(OwnedFields(objects[..i])) + if objects[i].stub then {} else Mentions(objects[i].fields)
  {
    hide Mentions;
    assert objects[..i + 1][..i] == objects[..i];
    var before := OwnedFields(objects[..i]);
    assert (before + [objects[i].fields])[..|before|] == before && before + [] == before;
  }

  class GraphBuilder {
    var objects: seq<ObjectType>
    var objectsByName: map<string, nat>
    const interfaces: seq<seq<Field>>

    constructor (objects: seq<ObjectType>, objectsByName: map<string, nat>, interfaces: seq<seq<Field>>)
      ensures this.objects == objects && this.objectsByName == objectsByName && this.interfaces == interfaces
    {
      this.objects, this.objectsByName, this.interfaces := objects, objectsByName, interfaces;
    }

    static method VisitArgs(args: seq<TypeNode>, referenced: set<string>) returns (after: set<string>)
      ensures after == referenced + ArgMentions(args)
    {
      after := referenced;
      var i := 0;
      while i < |args|
        invariant i <= |args| && after == referenced + ArgMentions(args[..i])
      {
        assert args[..i + 1][..i] == args[..i];
        var named := NamedNode(args[i]);
        if named.kind == ObjectNode {
          after := after + {named.name};
        }
        i := i + 1;
      }
      assert args[..|args|] == args;
    }

    static method Visit(fields: seq<Field>, referenced: set<string>) returns (after: set<string>)
      ensures after == referenced + Mentions(fields)
    {
      after := referenced;
      var i := 0;
      while i < |fields|
        invariant i <= |fields| && after == referenced + Mentions(fields[..i])
      {
        assert fields[..i + 1][..i] == fields[..i];
        var named := NamedNode(fields[i].fieldType);
        if named.kind == ObjectNode {
          after := after + {named.name};
        }
        after := VisitArgs(fields[i].args, after);
        i := i + 1;
      }
      assert fields[..|fields|] == fields;
    }

    static method VisitAll(groups: seq<seq<Field>>, referenced: set<string>) returns (after: set<string>)
      ensures after == referenced + AllMentions(groups)
    {
      hide Mentions;
      after := referenced;
      var i := 0;
      while i < |groups|
        invariant i <= |groups| && after == referenced + AllMentions(groups[..i])
      {
        assert groups[..i + 1][..i] == groups[..i];
        after := Visit(groups[i], after);
        i := i + 1;
      }
      assert groups[..|groups|] == groups;
    }

    method VisitOwned(referenced: set<string>) returns (after: set<string>)
      ensures after == referenced + AllMentions(OwnedFields(objects))
    {
      hide Mentions, AllMentions, OwnedFields;
      assert AllMentions(OwnedFields(objects[..0])) == {} by { NothingOwned(); }
      after := referenced;
      var i := 0;
      while i < |objects|
        invariant i <= |objects| && after == referenced + AllMentions(OwnedFields(objects[..i]))
      {
        OwnedNext(objects, i);
        if !objects[i].stub {
          after := Visit(objects[i].fields, after);
        }
        i := i + 1;
      }
      assert objects[..|objects|] == objects;
    }

    /** One pass over the stubs. When nothing was added, what is referenced is closed. */
    method Pass(ghost start: set<string>, referenced: set<string>) returns (after: set<string>, changed: bool)
      requires Needed(objects, start, referenced)
      ensures referenced <= after && Needed(objects, start, after) && after <= referenced + StubMentions(objects)
      ensures changed ==> |referenced| < |after|
      ensures !changed ==> after == referenced && Closed(objects, referenced)
    {
      hide Mentions, Needed;
      after, changed := referenced, false;
      var i := 0;
      while i < |objects|
        invariant i <= |objects| && referenced <= after && Needed(objects, start, after)
        invariant after <= referenced + StubMentions(objects)
        invariant changed ==> |referenced| < |after|
        invariant !changed ==> after == referenced
        invariant !changed ==> forall j :: 0 <= j < i && objects[j].stub && objects[j].name in referenced ==>
          Mentions(objects[j].fields) <= referenced
      {
        if objects[i].stub && objects[i].name in after {
          var before := after;
          after := Visit(objects[i].fields, after);
          NeedMore(objects, start, before, i);
          StubMentionsAll(objects, i);
          SubsetSize(before, after);
          SubsetSize(referenced, before);
          if |after| != |before| {
            changed := true;
          }
        }
        i := i + 1;
      }
    }

    method Referenced(roots: seq<seq<Field>>) returns (referenced: set<string>)
      ensures LeastClosed(objects, Start(objects, interfaces, roots), referenced)
      ensures forall other :: LeastClosed(objects, Start(objects, interfaces, roots), other) ==> other == referenced
      ensures forall n :: n in referenced <==> Reached(objects, interfaces, roots, n)
    {
      hide Mentions, AllMentions, OwnedFields, Closed, Reached;
      ghost var start := Start(objects, interfaces, roots);
      ghost var all := start + StubMentions(objects);
      referenced := VisitAll(roots, {});
      referenced := VisitOwned(referenced);
      referenced := VisitAll(interfaces, referenced);
      assert referenced == start;
      var changed := true;
      while changed
        invariant start <= referenced <= all && Needed(objects, start, referenced)
        invariant !changed ==> Closed(objects, referenced)
        decreases |all| - |referenced|, changed
      {
        ghost var before := referenced;
        referenced, changed := Pass(start, referenced);
        SubsetSize(referenced, all);
        SubsetSize(before, all);
      }
      forall other | LeastClosed(objects, start, other) ensures other == referenced {
        LeastUnique(objects, start, referenced, other);
      }
      LeastReached(objects, interfaces, roots, referenced);
    }

    /**
     * Exactly the stubs that are named outside stubs, or by a stub that is
     * kept, survive; owned objects stay, in order, and nothing that is left
     * names an object whose stub was dropped.
     */
    method PruneUnreferencedStubs(roots: seq<seq<Field>>) returns (ghost names: set<string>)
      modifies this
      ensures forall n :: n in names <==> Reached(old(objects), interfaces, roots, n)
      ensures exists at :: InOrder(objects, old(objects), at)
      ensures forall o ::
        o in old(objects) ==> (o in objects <==> !o.stub || Reached(old(objects), interfaces, roots, o.name))
      ensures forall o, d :: o in objects && d in old(objects) && d !in objects ==> !FieldsName(o.fields, d.name)
      ensures forall d :: d in old(objects) && d !in objects ==>
        !GroupsName(roots, d.name) && !GroupsName(interfaces, d.name)
      ensures forall n :: n in objectsByName <==>
        n in old(objectsByName) && forall d :: d in old(objects) && d.name == n ==> d in objects
    {
      hide Mentions, AllMentions, OwnedFields, Dropped, Reached, FieldsName, GroupsName, LeastClosed;
      var referenced := Referenced(roots);
      names := referenced;
      ghost var was := objects;
      var left: seq<ObjectType> := [];
      var i := 0;
      NothingDropped(referenced);
      while i < |objects|
        invariant i <= |objects| && objects == was && left == Survivors(was[..i], referenced)
        invariant forall n :: n in objectsByName <==> n in old(objectsByName) && !Dropped(was[..i], referenced, n)
      {
        assert was[..i + 1][..i] == was[..i];
        forall n
          ensures Dropped(was[..i + 1], referenced, n) <==>
            Dropped(was[..i], referenced, n) || (!Kept(was[i], referenced) && was[i].name == n)
        {
          DroppedNext(was, referenced, i, n);
        }
        if objects[i].stub && objects[i].name !in referenced {
          objectsByName := objectsByName - {objects[i].name};
        } else {
          left := left + [objects[i]];
        }
        i := i + 1;
      }
      assert was[..|was|] == was;
      objects := left;
      NoneDangling(was, interfaces, roots, names);
      forall o ensures o in objects <==> o in was && Kept(o, names) {
        SurvivorsAre(was, names, o);
      }
      forall n ensures Dropped(was, names, n) <==> exists d :: d in was && d.name == n && d !in objects {
        DroppedMeans(was, names, n);
      }
      ghost var at := SurvivorsInOrder(was, names);
    }
  }

  /** No object that is kept, no root and no interface names an object whose stub is dropped. */
  lemma NoneDangling(was: seq<ObjectType>, interfaces: seq<seq<Field>>, roots: seq<seq<Field>>, names: set<string>)
    requires LeastClosed(was, Start(was, interfaces, roots), names)
    ensures forall o, n :: o in was && Kept(o, names) && FieldsName(o.fields, n) ==> n in names
    ensures forall n :: GroupsName(roots, n) || GroupsName(interfaces, n) ==> n in names
  {
    hide Mentions, Start, FieldsName, GroupsName;
    forall o, n | o in was && Kept(o, names) && FieldsName(o.fields, n) ensures n in names {
      var i :| 0 <= i < |was| && was[i] == o;
      MentionsExactly(o.fields, n);
      StartExactly(was, interfaces, roots, n);
    }
    forall n | GroupsName(roots, n) || GroupsName(interfaces, n) ensures n in names {
      StartExactly(was, interfaces, roots, n);
    }
  }
}
