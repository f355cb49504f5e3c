/** Threading the compiler's state amounts to folding the allocator over the
    identities of the result, in preorder. */
module SchemaThreading {

  import opened LogicalSchema
  import opened ProtoDescriptors
  import opened ProtoNames
  import opened Results
  import opened SchemaCompiler
  import opened SchemaIdentity
  import opened SchemaLedger
  import opened SchemaReference

  predicate Threaded(env: Env, st: State, end: State, nodes: seq<Node>) {
    && AllocateAll(env, st.ids, Identities(nodes)) == Ok(end.ids)
    && end.containers == st.containers + Containers(env.graph, nodes)
  }

  function OwnContainer(g: Graph, t: DataType, i: Identity): map<Identity, MessageDescriptor> {
    if t.Struct? && t.protobufType in g then map[i := g[t.protobufType]] else map[]
  }

  predicate TypeThreaded(env: Env, st: State, end: State, t: DataType, i: Identity) {
    && AllocateAll(env, st.ids, Identities(TypeNodes(t, i))) == Ok(end.ids)
    && end.containers == st.containers + OwnContainer(env.graph, t, i) + Containers(env.graph, TypeNodes(t, i))
  }

  lemma {:induction false} ThreadedJoin(env: Env, st: State, mid: State, end: State, a: seq<Node>, b: seq<Node>)
    requires Threaded(env, st, mid, a) && Threaded(env, mid, end, b)
    ensures Threaded(env, st, end, a + b)
  {
    hide AllocateAll, Containers;
    IdentitiesSplit(a, b);
    AllocateSplit(env, st.ids, Identities(a), Identities(b));
    ContainersSplit(env.graph, a, b);
  }

  lemma {:induction false} NodeThreads(env: Env, st: State, ids: Ids, end: State, f: Field, scope: Identity)
    requires Allocate(env, st.ids, scope + [SegmentOf(f)]) == Ok(ids)
    requires TypeThreaded(env, State(ids, st.containers), end, f.typ, scope + [SegmentOf(f)])
    ensures Threaded(env, st, end, FieldNodes(f, scope))
  {
    hide Allocate, AllocateAll, TypeNodes, Containers, OwnContainer;
    var i := scope + [SegmentOf(f)];
    var rest := TypeNodes(f.typ, i);
    IdentitiesSplit([Node(i, f)], rest);
    assert Identities([Node(i, f)]) == [i];
    AllocateFirst(env, st.ids, i, Identities(rest));
    ContainersSplit(env.graph, [Node(i, f)], rest);
    SingleContainer(env.graph, Node(i, f));
    var c := st.containers;
    assert c + OwnContainer(env.graph, f.typ, i) + Containers(env.graph, rest)
        == c + (OwnContainer(env.graph, f.typ, i) + Containers(env.graph, rest));
  }

  lemma {:induction false} AllocateFirst(env: Env, s: Ids, i: Identity, rest: seq<Identity>)
    requires Allocate(env, s, i).Ok?
    ensures AllocateAll(env, s, [i] + rest) == AllocateAll(env, Allocate(env, s, i).value, rest)
  {
    hide Allocate;
    assert ([i] + rest)[1..] == rest;
  }

  lemma {:induction false} SingleContainer(g: Graph, n: Node)
    ensures Containers(g, [n]) == OwnContainer(g, n.field.typ, n.identity)
  {
    assert [n][..0] == [];
    assert Containers(g, []) == map[];
  }

  lemma {:induction false} FieldsThread(
    env: Env, st: State, md: MessageDescriptor, fds: seq<FieldDescriptor>, path: seq<uint32>, scope: Identity,
    stack: set<string>)
    requires CompileFields(env, st, md, fds, path, scope, stack).Ok?
    ensures var r := CompileFields(env, st, md, fds, path, scope, stack).value;
            Threaded(env, st, r.state, Nodes(r.value, scope))
    decreases env.graph.Keys - stack, 4, |fds|
  {
    hide Threaded, CompileField, FieldNodes;
    if fds == [] {
      NoneThreads(env, st, scope);
    } else {
      var before := CompileFields(env, st, md, fds[..|fds| - 1], path, scope, stack).value;
      var last := CompileField(env, before.state, md, fds[|fds| - 1], path, scope, stack).value;
      FieldsThread(env, st, md, fds[..|fds| - 1], path, scope, stack);
      FieldThreads(env, before.state, md, fds[|fds| - 1], path, scope, stack);
      ThreadedJoin(env, st, before.state, last.state, Nodes(before.value, scope), FieldNodes(last.value, scope));
      var all := before.value + [last.value];
      assert all[..|all| - 1] == before.value;
    }
  }

  lemma {:induction false} NoneThreads(env: Env, st: State, scope: Identity)
    ensures Threaded(env, st, st, Nodes([], scope))
  {
    assert Identities([]) == [];
  }

  lemma {:induction false} FieldThreads(
    env: Env, st: State, md: MessageDescriptor, fd: FieldDescriptor, parentPath: seq<uint32>, scope: Identity,
    stack: set<string>)
    requires CompileField(env, st, md, fd, parentPath, scope, stack).Ok?
    ensures var r := CompileField(env, st, md, fd, parentPath, scope, stack).value;
            Threaded(env, st, r.state, FieldNodes(r.value, scope))
    decreases env.graph.Keys - stack, 3, 0
  {
    hide Threaded, TypeThreaded, CompileShape, Allocate, StorageSource, NameFree, OptionsAllowed, Evolves, FieldNodes;
    var i := scope + [Number(fd.number)];
    var ids := Allocate(env, st.ids, i).value;
    ShapeThreads(env, State(ids, st.containers), md, fd, parentPath + [fd.number], i, stack);
    var r := CompileField(env, st, md, fd, parentPath, scope, stack).value;
    assert SegmentOf(r.value) == Number(fd.number);
    NodeThreads(env, st, ids, r.state, r.value, scope);
  }

  lemma {:induction false} ShapeThreads(
    env: Env, st: State, md: MessageDescriptor, fd: FieldDescriptor, path: seq<uint32>, i: Identity, stack: set<string>)
    requires CompileShape(env, st, md, fd, path, i, stack).Ok?
    ensures var r := CompileShape(env, st, md, fd, path, i, stack).value;
            TypeThreaded(env, st, r.state, r.value, i)
    decreases env.graph.Keys - stack, 2, 1
  {
    hide Threaded, TypeThreaded, CompileRefined, CompileSynthetic, FieldNodes;
    var fullName := Qualified(md.fullName, fd.name);
    var r := CompileShape(env, st, md, fd, path, i, stack).value;
    match fd.shape
    case One =>
      RefinedThreads(env, st, fd.kind, path, i, stack, fd.options);
    case Many =>
      SyntheticThreads(env, st, fd.kind, fullName, path, i, Element, stack, ElementOptions(fd.options));
      ChildlessThreads(env, st, r.state, r.value, i);
    case Keyed(keyKind, valueKind) =>
      var key := CompileSynthetic(env, st, keyKind, fullName, path, i, Key, stack, NoOptions).value;
      SyntheticThreads(env, st, keyKind, fullName, path, i, Key, stack, NoOptions);
      SyntheticThreads(env, key.state, valueKind, fullName, path, i, Value, stack, NoOptions);
      ThreadedJoin(env, st, key.state, r.state, FieldNodes(r.value.key, i), FieldNodes(r.value.value, i));
      ChildlessThreads(env, st, r.state, r.value, i);
  }

  /** A type that is not a message adds no container of its own. */
  lemma {:induction false} ChildlessThreads(env: Env, st: State, end: State, t: DataType, i: Identity)
    requires !t.Struct? && Threaded(env, st, end, TypeNodes(t, i))
    ensures TypeThreaded(env, st, end, t, i)
  {
    hide AllocateAll, TypeNodes, Containers;
    assert st.containers + map[] == st.containers;
  }

  lemma {:induction false} LeafThreads(env: Env, st: State, t: DataType, i: Identity)
    requires !t.Struct? && !t.List? && !t.Map?
    ensures TypeThreaded(env, st, st, t, i)
  {
    assert TypeNodes(t, i) == [];
    assert Identities([]) == [];
  }

  lemma {:induction false} SyntheticThreads(
    env: Env, st: State, kind: Kind, fullName: string, path: seq<uint32>, parent: Identity, segment: Segment,
    stack: set<string>, options: Options)
    requires !segment.Number? && CompileSynthetic(env, st, kind, fullName, path, parent, segment, stack, options).Ok?
    ensures var r := CompileSynthetic(env, st, kind, fullName, path, parent, segment, stack, options).value;
            Threaded(env, st, r.state, FieldNodes(r.value, parent))
    decreases env.graph.Keys - stack, 2, 0
  {
    hide Threaded, TypeThreaded, CompileRefined, Allocate, Evolves, FieldNodes;
    var i := parent + [segment];
    var ids := Allocate(env, st.ids, i).value;
    RefinedThreads(env, State(ids, st.containers), kind, path, i, stack, options);
    var r := CompileSynthetic(env, st, kind, fullName, path, parent, segment, stack, options).value;
    assert SegmentOf(r.value) == segment;
    NodeThreads(env, st, ids, r.state, r.value, parent);
  }

  lemma {:induction false} RefinedThreads(
    env: Env, st: State, kind: Kind, path: seq<uint32>, i: Identity, stack: set<string>, options: Options)
    requires CompileRefined(env, st, kind, path, i, stack, options).Ok?
    ensures var r := CompileRefined(env, st, kind, path, i, stack, options).value;
            TypeThreaded(env, st, r.state, r.value, i)
    decreases env.graph.Keys - stack, 1, 0
  {
    hide TypeThreaded, CompileValue;
    match options
    case NoOptions =>
      ValueThreads(env, st, kind, path, i, stack);
    case Options(_, _) =>
      LeafThreads(env, st, CompileRefined(env, st, kind, path, i, stack, options).value.value, i);
  }

  lemma {:induction false} ValueThreads(
    env: Env, st: State, kind: Kind, path: seq<uint32>, i: Identity, stack: set<string>)
    requires CompileValue(env, st, kind, path, i, stack).Ok?
    ensures var r := CompileValue(env, st, kind, path, i, stack).value;
            TypeThreaded(env, st, r.state, r.value, i)
    decreases env.graph.Keys - stack, 0, 0
  {
    hide TypeThreaded, Threaded, CompileFields, WellKnown, DistinctNames;
    var r := CompileValue(env, st, kind, path, i, stack).value;
    if kind.MessageOf? && WellKnown(kind.message).None? {
      var md := env.graph[kind.message];
      var entered := State(st.ids, st.containers[i := md]);
      FieldsThread(env, entered, md, SortedFields(md), path, i, stack + {kind.message});
      EnteredThreads(env, st, r.state, r.value, i);
    } else {
      WellKnownIsLeaf(kind);
      LeafThreads(env, st, r.value, i);
    }
  }

  lemma {:induction false} WellKnownIsLeaf(kind: Kind)
    ensures kind.MessageOf? && WellKnown(kind.message).Some? ==>
              var t := WellKnown(kind.message).value; !t.Struct? && !t.List? && !t.Map? && !t.Unset? && !t.Kindless?
  {
  }

  lemma {:induction false} EnteredThreads(env: Env, st: State, end: State, t: DataType, i: Identity)
    requires t.Struct? && t.protobufType in env.graph
    requires Threaded(env, State(st.ids, st.containers[i := env.graph[t.protobufType]]), end, Nodes(t.fields, i))
    ensures TypeThreaded(env, st, end, t, i)
  {
    hide AllocateAll, Nodes, Containers;
    assert TypeNodes(t, i) == Nodes(t.fields, i);
    var md := env.graph[t.protobufType];
    assert st.containers[i := md] == st.containers + map[i := md];
  }
}
