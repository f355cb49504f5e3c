/** The stateful compiler and the stateless reference agree: compiling succeeds
    exactly when the allocator accepts the identities of the reference schema
    under the ids it hands out, and the results are the same. */
module SchemaAgreement {

  import opened LogicalSchema
  import opened ProtoDescriptors
  import opened ProtoNames
  import opened Results
  import opened SchemaCompiler
  import opened SchemaIdentity
  import opened SchemaLedger
  import opened SchemaReference
  import opened SchemaThreading

  /** The assignment gives every active identity the id the allocator gave it. */
  ghost predicate Covers(ids: Assignment, s: Ids) {
    forall i :: i in s.active ==> i in ids && ids[i] == s.active[i]
  }

  lemma {:induction false} AllocateGrows(env: Env, s: Ids, identities: seq<Identity>)
    requires AllocateAll(env, s, identities).Ok?
    ensures Covers(AllocateAll(env, s, identities).value.active, s)
    decreases |identities|
  {
    if identities != [] {
      AllocateGrows(env, Allocate(env, s, identities[0]).value, identities[1..]);
    }
  }

  lemma {:induction false} CoversEarlier(env: Env, s: Ids, identities: seq<Identity>, ids: Assignment)
    requires AllocateAll(env, s, identities).Ok? && Covers(ids, AllocateAll(env, s, identities).value)
    ensures Covers(ids, s)
  {
    hide AllocateAll;
    AllocateGrows(env, s, identities);
  }

  // ----- compiled, hence built -----

  lemma {:induction false} FieldsBuilt(
    env: Env, st: State, ids: Assignment, md: MessageDescriptor, fds: seq<FieldDescriptor>, path: seq<uint32>,
    scope: Identity, stack: set<string>)
    requires CompileFields(env, st, md, fds, path, scope, stack).Ok?
    requires Covers(ids, CompileFields(env, st, md, fds, path, scope, stack).value.state.ids)
    ensures BuildFields(env, ids, md, fds, path, scope, stack)
         == Ok(CompileFields(env, st, md, fds, path, scope, stack).value.value)
    decreases env.graph.Keys - stack, 4, |fds|
  {
    hide CompileField, BuildField, Covers, FieldNodes, AllocateAll, Containers;
    if fds != [] {
      var before := CompileFields(env, st, md, fds[..|fds| - 1], path, scope, stack).value;
      var last := CompileField(env, before.state, md, fds[|fds| - 1], path, scope, stack).value;
      FieldThreads(env, before.state, md, fds[|fds| - 1], path, scope, stack);
      CoversEarlier(env, before.state.ids, Identities(FieldNodes(last.value, scope)), ids);
      FieldsBuilt(env, st, ids, md, fds[..|fds| - 1], path, scope, stack);
      FieldBuilt(env, before.state, ids, md, fds[|fds| - 1], path, scope, stack);
    }
  }

  lemma {:induction false} FieldBuilt(
    env: Env, st: State, ids: Assignment, md: MessageDescriptor, fd: FieldDescriptor, parentPath: seq<uint32>,
    scope: Identity, stack: set<string>)
    requires CompileField(env, st, md, fd, parentPath, scope, stack).Ok?
    requires Covers(ids, CompileField(env, st, md, fd, parentPath, scope, stack).value.state.ids)
    ensures BuildField(env, ids, md, fd, parentPath, scope, stack)
         == Ok(CompileField(env, st, md, fd, parentPath, scope, stack).value.value)
    decreases env.graph.Keys - stack, 3, 0
  {
    hide CompileShape, BuildShape, Covers, TypeNodes, AllocateAll, Containers, StorageSource, NameFree, OptionsAllowed,
         Evolves, Allocate, ProtoFieldOf;
    var i := scope + [Number(fd.number)];
    var s := Allocate(env, st.ids, i).value;
    var entered := State(s, st.containers);
    var typ := CompileShape(env, entered, md, fd, parentPath + [fd.number], i, stack).value;
    ShapeThreads(env, entered, md, fd, parentPath + [fd.number], i, stack);
    CoversEarlier(env, s, Identities(TypeNodes(typ.value, i)), ids);
    AllocatedId(env, st.ids, i, ids);
    ShapeBuilt(env, entered, ids, md, fd, parentPath + [fd.number], i, stack);
  }

  lemma {:induction false} AllocatedId(env: Env, s: Ids, i: Identity, ids: Assignment)
    requires Allocate(env, s, i).Ok? && Covers(ids, Allocate(env, s, i).value)
    ensures i in ids && i in Allocate(env, s, i).value.active && ids[i] == Allocate(env, s, i).value.active[i]
  {
  }

  lemma {:induction false} ShapeBuilt(
    env: Env, st: State, ids: Assignment, md: MessageDescriptor, fd: FieldDescriptor, path: seq<uint32>, i: Identity,
    stack: set<string>)
    requires CompileShape(env, st, md, fd, path, i, stack).Ok?
    requires Covers(ids, CompileShape(env, st, md, fd, path, i, stack).value.state.ids)
    ensures BuildShape(env, ids, md, fd, path, i, stack)
            == Ok(CompileShape(env, st, md, fd, path, i, stack).value.value)
    decreases env.graph.Keys - stack, 2, 1
  {
    hide CompileRefined, BuildRefined, CompileSynthetic, BuildSynthetic, Covers, FieldNodes, AllocateAll, Containers;
    var fullName := Qualified(md.fullName, fd.name);
    match fd.shape
    case One =>
      RefinedBuilt(env, st, ids, fd.kind, path, i, stack, fd.options);
    case Many =>
      SyntheticBuilt(env, st, ids, fd.kind, fullName, path, i, Element, stack, ElementOptions(fd.options));
    case Keyed(keyKind, valueKind) =>
      var key := CompileSynthetic(env, st, keyKind, fullName, path, i, Key, stack, NoOptions).value;
      var value := CompileSynthetic(env, key.state, valueKind, fullName, path, i, Value, stack, NoOptions).value;
      SyntheticThreads(env, key.state, valueKind, fullName, path, i, Value, stack, NoOptions);
      CoversEarlier(env, key.state.ids, Identities(FieldNodes(value.value, i)), ids);
      SyntheticBuilt(env, st, ids, keyKind, fullName, path, i, Key, stack, NoOptions);
      SyntheticBuilt(env, key.state, ids, valueKind, fullName, path, i, Value, stack, NoOptions);
  }

  lemma {:induction false} SyntheticBuilt(
    env: Env, st: State, ids: Assignment, kind: Kind, fullName: string, path: seq<uint32>, parent: Identity,
    segment: Segment, stack: set<string>, options: Options)
    requires CompileSynthetic(env, st, kind, fullName, path, parent, segment, stack, options).Ok?
    requires Covers(ids, CompileSynthetic(env, st, kind, fullName, path, parent, segment, stack,
            options).value.state.ids)
    ensures BuildSynthetic(env, ids, kind, fullName, path, parent, segment, stack, options)
         == Ok(CompileSynthetic(env, st, kind, fullName, path, parent, segment, stack, options).value.value)
    decreases env.graph.Keys - stack, 2, 0
  {
    hide CompileRefined, BuildRefined, Covers, TypeNodes, AllocateAll, Containers, Evolves, Allocate;
    var i := parent + [segment];
    var s := Allocate(env, st.ids, i).value;
    var entered := State(s, st.containers);
    var typ := CompileRefined(env, entered, kind, path, i, stack, options).value;
    RefinedThreads(env, entered, kind, path, i, stack, options);
    CoversEarlier(env, s, Identities(TypeNodes(typ.value, i)), ids);
    AllocatedId(env, st.ids, i, ids);
    RefinedBuilt(env, entered, ids, kind, path, i, stack, options);
  }

  lemma {:induction false} RefinedBuilt(
    env: Env, st: State, ids: Assignment, kind: Kind, path: seq<uint32>, i: Identity, stack: set<string>,
    options: Options)
    requires CompileRefined(env, st, kind, path, i, stack, options).Ok?
    requires Covers(ids, CompileRefined(env, st, kind, path, i, stack, options).value.state.ids)
    ensures BuildRefined(env, ids, kind, path, i, stack, options)
         == Ok(CompileRefined(env, st, kind, path, i, stack, options).value.value)
    decreases env.graph.Keys - stack, 1, 0
  {
    hide CompileValue, BuildValue, Covers, RefinedType;
    if options.NoOptions? {
      ValueBuilt(env, st, ids, kind, path, i, stack);
    }
  }

  lemma {:induction false} ValueBuilt(
    env: Env, st: State, ids: Assignment, kind: Kind, path: seq<uint32>, i: Identity, stack: set<string>)
    requires CompileValue(env, st, kind, path, i, stack).Ok?
    requires Covers(ids, CompileValue(env, st, kind, path, i, stack).value.state.ids)
    ensures BuildValue(env, ids, kind, path, i, stack) == Ok(CompileValue(env, st, kind, path, i, stack).value.value)
    decreases env.graph.Keys - stack, 0, 0
  {
    hide CompileFields, BuildFields, Covers, WellKnown, DistinctNames;
    if kind.MessageOf? && WellKnown(kind.message).None? {
      var md := env.graph[kind.message];
      var entered := State(st.ids, st.containers[i := md]);
      FieldsBuilt(env, entered, ids, md, SortedFields(md), path, i, stack + {kind.message});
    }
  }

  // ----- built and allocated, hence compiled -----

  lemma {:induction false} FieldsCompile(
    env: Env, st: State, ids: Assignment, md: MessageDescriptor, fds: seq<FieldDescriptor>, path: seq<uint32>,
    scope: Identity, stack: set<string>)
    requires BuildFields(env, ids, md, fds, path, scope, stack).Ok?
    requires var nodes := Nodes(BuildFields(env, ids, md, fds, path, scope, stack).value, scope);
             Allocated(env, st.ids, ids, nodes)
    ensures var r := CompileFields(env, st, md, fds, path, scope, stack);
            r.Ok? && r.value.value == BuildFields(env, ids, md, fds, path, scope, stack).value
    decreases env.graph.Keys - stack, 4, |fds|
  {
    hide CompileField, BuildField, Allocated, FieldNodes, Threaded;
    if fds != [] {
      var before := BuildFields(env, ids, md, fds[..|fds| - 1], path, scope, stack).value;
      var last := BuildField(env, ids, md, fds[|fds| - 1], path, scope, stack).value;
      var all := before + [last];
      assert all[..|all| - 1] == before;
      AllocatedSplit(env, st.ids, ids, Nodes(before, scope), FieldNodes(last, scope));
      FieldsCompile(env, st, ids, md, fds[..|fds| - 1], path, scope, stack);
      FieldsThread(env, st, md, fds[..|fds| - 1], path, scope, stack);
      var mid := CompileFields(env, st, md, fds[..|fds| - 1], path, scope, stack).value.state;
      ThreadedEnds(env, st, mid, Nodes(before, scope));
      FieldCompiles(env, mid, ids, md, fds[|fds| - 1], path, scope, stack);
    }
  }

  /** The allocator accepts the nodes and hands out the assignment's ids. */
  ghost predicate Allocated(env: Env, s: Ids, ids: Assignment, nodes: seq<Node>) {
    && AllocateAll(env, s, Identities(nodes)).Ok?
    && Covers(ids, AllocateAll(env, s, Identities(nodes)).value)
  }

  lemma {:induction false} AllocatedSplit(env: Env, s: Ids, ids: Assignment, a: seq<Node>, b: seq<Node>)
    requires Allocated(env, s, ids, a + b)
    ensures Allocated(env, s, ids, a)
    ensures Allocated(env, AllocateAll(env, s, Identities(a)).value, ids, b)
  {
    hide AllocateAll, Covers;
    IdentitiesSplit(a, b);
    AllocateSplit(env, s, Identities(a), Identities(b));
    CoversEarlier(env, AllocateAll(env, s, Identities(a)).value, Identities(b), ids);
  }

  lemma {:induction false} AllocatedNode(env: Env, s: Ids, ids: Assignment, f: Field, scope: Identity)
    requires Allocated(env, s, ids, FieldNodes(f, scope))
    ensures var i := scope + [SegmentOf(f)];
            && Allocate(env, s, i).Ok?
            && i in ids && i in Allocate(env, s, i).value.active && ids[i] == Allocate(env, s, i).value.active[i]
            && Allocated(env, Allocate(env, s, i).value, ids, TypeNodes(f.typ, i))
  {
    hide AllocateAll, Covers, TypeNodes, Allocate, Allocated;
    var i := scope + [SegmentOf(f)];
    AllocatedSplit(env, s, ids, [Node(i, f)], TypeNodes(f.typ, i));
    SingleAllocated(env, s, ids, Node(i, f));
    AllocatedId(env, s, i, ids);
  }

  lemma {:induction false} SingleAllocated(env: Env, s: Ids, ids: Assignment, n: Node)
    requires Allocated(env, s, ids, [n])
    ensures Allocate(env, s, n.identity).Ok? && Covers(ids, Allocate(env, s, n.identity).value)
    ensures AllocateAll(env, s, Identities([n])) == Allocate(env, s, n.identity)
  {
    hide Allocate, Covers;
    assert Identities([n]) == [n.identity];
    var one := Identities([n]);
    assert one[1..] == [];
    var r := Allocate(env, s, n.identity);
    assert r.Ok? ==> AllocateAll(env, r.value, []) == r;
  }

  lemma {:induction false} ThreadedEnds(env: Env, st: State, end: State, nodes: seq<Node>)
    requires Threaded(env, st, end, nodes)
    ensures AllocateAll(env, st.ids, Identities(nodes)) == Ok(end.ids)
  {
  }

  lemma {:induction false} FieldCompiles(
    env: Env, st: State, ids: Assignment, md: MessageDescriptor, fd: FieldDescriptor, parentPath: seq<uint32>,
    scope: Identity, stack: set<string>)
    requires BuildField(env, ids, md, fd, parentPath, scope, stack).Ok?
    requires Allocated(env, st.ids, ids,
            FieldNodes(BuildField(env, ids, md, fd, parentPath, scope, stack).value, scope))
    ensures var r := CompileField(env, st, md, fd, parentPath, scope, stack);
            r.Ok? && r.value.value == BuildField(env, ids, md, fd, parentPath, scope, stack).value
    decreases env.graph.Keys - stack, 3, 0
  {
    hide CompileShape, BuildShape, Allocated, TypeNodes, FieldNodes, StorageSource, NameFree, OptionsAllowed, Evolves,
         Allocate;
    var f := BuildField(env, ids, md, fd, parentPath, scope, stack).value;
    var i := scope + [Number(fd.number)];
    assert SegmentOf(f) == Number(fd.number);
    AllocatedNode(env, st.ids, ids, f, scope);
    ShapeCompiles(env, State(Allocate(env, st.ids, i).value, st.containers), ids, md, fd, parentPath + [fd.number], i,
        stack);
  }

  lemma {:induction false} ShapeCompiles(
    env: Env, st: State, ids: Assignment, md: MessageDescriptor, fd: FieldDescriptor, path: seq<uint32>, i: Identity,
    stack: set<string>)
    requires BuildShape(env, ids, md, fd, path, i, stack).Ok?
    requires Allocated(env, st.ids, ids, TypeNodes(BuildShape(env, ids, md, fd, path, i, stack).value, i))
    ensures var r := CompileShape(env, st, md, fd, path, i, stack);
            r.Ok? && r.value.value == BuildShape(env, ids, md, fd, path, i, stack).value
    decreases env.graph.Keys - stack, 2, 1
  {
    hide CompileRefined, BuildRefined, CompileSynthetic, BuildSynthetic, Allocated, FieldNodes, Threaded;
    var fullName := Qualified(md.fullName, fd.name);
    match fd.shape
    case One =>
      RefinedCompiles(env, st, ids, fd.kind, path, i, stack, fd.options);
    case Many =>
      SyntheticCompiles(env, st, ids, fd.kind, fullName, path, i, Element, stack, ElementOptions(fd.options));
    case Keyed(keyKind, valueKind) =>
      var key := BuildSynthetic(env, ids, keyKind, fullName, path, i, Key, stack, NoOptions).value;
      var value := BuildSynthetic(env, ids, valueKind, fullName, path, i, Value, stack, NoOptions).value;
      AllocatedSplit(env, st.ids, ids, FieldNodes(key, i), FieldNodes(value, i));
      SyntheticCompiles(env, st, ids, keyKind, fullName, path, i, Key, stack, NoOptions);
      SyntheticThreads(env, st, keyKind, fullName, path, i, Key, stack, NoOptions);
      var mid := CompileSynthetic(env, st, keyKind, fullName, path, i, Key, stack, NoOptions).value.state;
      ThreadedEnds(env, st, mid, FieldNodes(key, i));
      SyntheticCompiles(env, mid, ids, valueKind, fullName, path, i, Value, stack, NoOptions);
  }

  lemma {:induction false} SyntheticCompiles(
    env: Env, st: State, ids: Assignment, kind: Kind, fullName: string, path: seq<uint32>, parent: Identity,
    segment: Segment, stack: set<string>, options: Options)
    requires !segment.Number? && BuildSynthetic(env, ids, kind, fullName, path, parent, segment, stack, options).Ok?
    requires var f := BuildSynthetic(env, ids, kind, fullName, path, parent, segment, stack, options).value;
             Allocated(env, st.ids, ids, FieldNodes(f, parent))
    ensures var r := CompileSynthetic(env, st, kind, fullName, path, parent, segment, stack, options);
            r.Ok? && r.value.value
                == BuildSynthetic(env, ids, kind, fullName, path, parent, segment, stack, options).value
    decreases env.graph.Keys - stack, 2, 0
  {
    hide CompileRefined, BuildRefined, Allocated, TypeNodes, FieldNodes, Evolves, Allocate;
    var f := BuildSynthetic(env, ids, kind, fullName, path, parent, segment, stack, options).value;
    var i := parent + [segment];
    assert SegmentOf(f) == segment;
    AllocatedNode(env, st.ids, ids, f, parent);
    RefinedCompiles(env, State(Allocate(env, st.ids, i).value, st.containers), ids, kind, path, i, stack, options);
  }

  lemma {:induction false} RefinedCompiles(
    env: Env, st: State, ids: Assignment, kind: Kind, path: seq<uint32>, i: Identity, stack: set<string>,
    options: Options)
    requires BuildRefined(env, ids, kind, path, i, stack, options).Ok?
    requires Allocated(env, st.ids, ids, TypeNodes(BuildRefined(env, ids, kind, path, i, stack, options).value, i))
    ensures var r := CompileRefined(env, st, kind, path, i, stack, options);
            r.Ok? && r.value.value == BuildRefined(env, ids, kind, path, i, stack, options).value
    decreases env.graph.Keys - stack, 1, 0
  {
    hide CompileValue, BuildValue, Allocated, TypeNodes, RefinedType;
    if options.NoOptions? {
      ValueCompiles(env, st, ids, kind, path, i, stack);
    }
  }

  lemma {:induction false} ValueCompiles(
    env: Env, st: State, ids: Assignment, kind: Kind, path: seq<uint32>, i: Identity, stack: set<string>)
    requires BuildValue(env, ids, kind, path, i, stack).Ok?
    requires Allocated(env, st.ids, ids, TypeNodes(BuildValue(env, ids, kind, path, i, stack).value, i))
    ensures var r := CompileValue(env, st, kind, path, i, stack);
            r.Ok? && r.value.value == BuildValue(env, ids, kind, path, i, stack).value
    decreases env.graph.Keys - stack, 0, 0
  {
    hide CompileFields, BuildFields, Allocated, Nodes, WellKnown, DistinctNames;
    if kind.MessageOf? && WellKnown(kind.message).None? {
      var md := env.graph[kind.message];
      var entered := State(st.ids, st.containers[i := md]);
      var t := BuildValue(env, ids, kind, path, i, stack).value;
      assert TypeNodes(t, i) == Nodes(t.fields, i);
      FieldsCompile(env, entered, ids, md, SortedFields(md), path, i, stack + {kind.message});
    }
  }
}
