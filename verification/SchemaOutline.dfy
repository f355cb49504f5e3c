/** The identities a descriptor will have, read off before compiling. */
module SchemaOutline {

  import opened LogicalSchema
  import opened ProtoDescriptors
  import opened ProtoNames
  import opened Results
  import opened SchemaAllocation
  import opened SchemaCompiler
  import opened SchemaEvolution
  import opened SchemaFacts
  import opened SchemaIdentity
  import opened SchemaIndex
  import opened SchemaLedger
  import opened SchemaReference
  import opened SchemaReload
  import opened SchemaThreading

  function OutlineFields(g: Graph, fds: seq<FieldDescriptor>, scope: Identity, stack: set<string>): seq<Identity>
    decreases g.Keys - stack, 2, |fds|
  {
    if fds == [] then
      []
    else
      OutlineFields(g, fds[..|fds| - 1], scope, stack) + OutlineField(g, fds[|fds| - 1], scope, stack)
  }

  function OutlineField(g: Graph, fd: FieldDescriptor, scope: Identity, stack: set<string>): seq<Identity>
    decreases g.Keys - stack, 1, 0
  {
    var i := scope + [Number(fd.number)];
    [i] + match fd.shape
          case One => OutlineValue(g, fd.kind, i, stack, fd.options)
          case Many => [i + [Element]] + OutlineValue(g, fd.kind, i + [Element], stack, ElementOptions(fd.options))
          case Keyed(key, value) =>
            [i + [Key]] + OutlineValue(g, key, i + [Key], stack, NoOptions) +
            ([i + [Value]] + OutlineValue(g, value, i + [Value], stack, NoOptions))
  }

  function OutlineValue(g: Graph, kind: Kind, i: Identity, stack: set<string>, options: Options): seq<Identity>
    decreases g.Keys - stack, 0, 0
  {
    if options.NoOptions? && kind.MessageOf? && kind.message in g && WellKnown(kind.message).None?
        && kind.message !in stack then
      OutlineFields(g, SortedFields(g[kind.message]), i, stack + {kind.message})
    else
      []
  }

  function Outline(g: Graph, root: string): seq<Identity>
    requires root in g
  {
    OutlineFields(g, SortedFields(g[root]), [], {root})
  }

  lemma {:induction false} FieldsOutlined(
    env: Env, ids: Assignment, md: MessageDescriptor, fds: seq<FieldDescriptor>, path: seq<uint32>, scope: Identity,
    stack: set<string>)
    requires BuildFields(env, ids, md, fds, path, scope, stack).Ok?
    ensures Identities(Nodes(BuildFields(env, ids, md, fds, path, scope, stack).value, scope))
         == OutlineFields(env.graph, fds, scope, stack)
    decreases env.graph.Keys - stack, 4, |fds|
  {
    hide BuildField, FieldNodes, OutlineField;
    if fds != [] {
      var before := BuildFields(env, ids, md, fds[..|fds| - 1], path, scope, stack).value;
      var last := BuildField(env, ids, md, fds[|fds| - 1], path, scope, stack).value;
      FieldsOutlined(env, ids, md, fds[..|fds| - 1], path, scope, stack);
      FieldOutlined(env, ids, md, fds[|fds| - 1], path, scope, stack);
      var all := before + [last];
      assert all[..|all| - 1] == before;
      IdentitiesSplit(Nodes(before, scope), FieldNodes(last, scope));
    }
  }

  lemma {:induction false} NodeOutlined(f: Field, scope: Identity)
    ensures Identities(FieldNodes(f, scope))
         == [scope + [SegmentOf(f)]] + Identities(TypeNodes(f.typ, scope + [SegmentOf(f)]))
  {
    hide TypeNodes;
    var i := scope + [SegmentOf(f)];
    IdentitiesSplit([Node(i, f)], TypeNodes(f.typ, i));
    assert Identities([Node(i, f)]) == [i];
  }

  lemma {:induction false} FieldOutlined(
    env: Env, ids: Assignment, md: MessageDescriptor, fd: FieldDescriptor, parentPath: seq<uint32>, scope: Identity,
    stack: set<string>)
    requires BuildField(env, ids, md, fd, parentPath, scope, stack).Ok?
    ensures Identities(FieldNodes(BuildField(env, ids, md, fd, parentPath, scope, stack).value, scope))
         == OutlineField(env.graph, fd, scope, stack)
    decreases env.graph.Keys - stack, 3, 0
  {
    hide BuildRefined, BuildSynthetic, FieldNodes, StorageSource, NameFree, OptionsAllowed, Evolves, OutlineValue,
         StorageName;
    var f := BuildField(env, ids, md, fd, parentPath, scope, stack).value;
    var i := scope + [Number(fd.number)];
    var path := parentPath + [fd.number];
    var fullName := Qualified(md.fullName, fd.name);
    assert SegmentOf(f) == Number(fd.number);
    NodeOutlined(f, scope);
    assert BuildShape(env, ids, md, fd, path, i, stack) == Ok(f.typ);
    match fd.shape
    case One =>
      RefinedOutlined(env, ids, fd.kind, path, i, stack, fd.options);
    case Many =>
      SyntheticOutlined(env, ids, fd.kind, fullName, path, i, Element, stack, ElementOptions(fd.options));
    case Keyed(key, value) =>
      SyntheticOutlined(env, ids, key, fullName, path, i, Key, stack, NoOptions);
      SyntheticOutlined(env, ids, value, fullName, path, i, Value, stack, NoOptions);
      IdentitiesSplit(FieldNodes(f.typ.key, i), FieldNodes(f.typ.value, i));
  }

  lemma {:induction false} SyntheticOutlined(
    env: Env, ids: Assignment, kind: Kind, fullName: string, path: seq<uint32>, parent: Identity, segment: Segment,
    stack: set<string>, options: Options)
    requires !segment.Number? && BuildSynthetic(env, ids, kind, fullName, path, parent, segment, stack, options).Ok?
    ensures var f := BuildSynthetic(env, ids, kind, fullName, path, parent, segment, stack, options).value;
            Identities(FieldNodes(f, parent))
                == [parent + [segment]] + OutlineValue(env.graph, kind, parent + [segment], stack, options)
    decreases env.graph.Keys - stack, 2, 0
  {
    hide BuildRefined, FieldNodes, Evolves, OutlineValue;
    var f := BuildSynthetic(env, ids, kind, fullName, path, parent, segment, stack, options).value;
    assert SegmentOf(f) == segment;
    NodeOutlined(f, parent);
    RefinedOutlined(env, ids, kind, path, parent + [segment], stack, options);
  }

  lemma {:induction false} RefinedOutlined(
    env: Env, ids: Assignment, kind: Kind, path: seq<uint32>, i: Identity, stack: set<string>, options: Options)
    requires BuildRefined(env, ids, kind, path, i, stack, options).Ok?
    ensures Identities(TypeNodes(BuildRefined(env, ids, kind, path, i, stack, options).value, i))
         == OutlineValue(env.graph, kind, i, stack, options)
    decreases env.graph.Keys - stack, 1, 0
  {
    hide BuildRefined, OutlineValue, TypeNodes, WellKnown;
    if options.NoOptions? && kind.MessageOf? && WellKnown(kind.message).None? {
      var md := EnteredMessage(env, ids, kind, path, i, stack);
      FieldsOutlined(env, ids, md, SortedFields(md), path, i, stack + {kind.message});
    } else {
      LeafOutlined(env, ids, kind, path, i, stack, options);
    }
  }

  /** What a message field compiles to, and where its outline comes from. */
  lemma {:induction false} EnteredMessage(
    env: Env, ids: Assignment, kind: Kind, path: seq<uint32>, i: Identity,
    stack: set<string>) returns (md: MessageDescriptor)
    requires kind.MessageOf? && WellKnown(kind.message).None?
    requires BuildRefined(env, ids, kind, path, i, stack, NoOptions).Ok?
    ensures kind.message in env.graph && kind.message !in stack && md == env.graph[kind.message]
    ensures var built := BuildFields(env, ids, md, SortedFields(md), path, i, stack + {kind.message});
            && built.Ok?
            && TypeNodes(BuildRefined(env, ids, kind, path, i, stack, NoOptions).value, i) == Nodes(built.value, i)
    ensures OutlineValue(env.graph, kind, i, stack, NoOptions)
         == OutlineFields(env.graph, SortedFields(md), i, stack + {kind.message})
  {
    hide BuildFields, WellKnown, DistinctNames, Nodes, OutlineFields, SortedFields;
    md := env.graph[kind.message];
  }

  lemma {:induction false} LeafOutlined(
    env: Env, ids: Assignment, kind: Kind, path: seq<uint32>, i: Identity, stack: set<string>, options: Options)
    requires BuildRefined(env, ids, kind, path, i, stack, options).Ok?
    requires !(options.NoOptions? && kind.MessageOf? && WellKnown(kind.message).None?)
    ensures Identities(TypeNodes(BuildRefined(env, ids, kind, path, i, stack, options).value, i))
         == OutlineValue(env.graph, kind, i, stack, options)
  {
    hide BuildFields, WellKnown, DistinctNames, Nodes, OutlineFields, SortedFields;
    WellKnownIsLeaf(kind);
    assert TypeNodes(BuildRefined(env, ids, kind, path, i, stack, options).value, i) == [];
  }

  /** The compiled identities in preorder are those of the outline, and their
      ids are the recorded ones or, for new identities, consecutive ones after
      the last id. */
  lemma {:induction false} CompiledOutline(g: Graph, root: string, previous: Option<Dataset>)
    requires WellFormed(g) && CompileMessage(g, root, previous).Ok?
    ensures root in g && (previous.Some? ==> 0 <= previous.value.lastFieldId <= MAX_STABLE_ID)
    ensures var nodes := NodesOf(CompileMessage(g, root, previous).value);
            && Identities(nodes) == Outline(g, root)
            && forall k :: 0 <= k < |nodes| ==>
                 nodes[k].field.stableId
                     == IdAt(EnvOf(g, g[root], previous), StartOf(g[root], previous).ids, Outline(g, root), k)
  {
    hide CompileMessage, Certified, BuildFields, Containers, Reserved, RetiredAfter, SortedFields, EnvOf, StorageName,
         StartOf, OutlineFields, IdAt, Nodes, ValidDataset;
    var end := Certify(g, root, previous);
    var md := g[root];
    var env := EnvOf(g, md, previous);
    GraphOf(g, md, previous);
    FieldsOutlined(env, end.ids.active, md, SortedFields(md), [], [], {root});
    CertifiedAssignment(env, StartOf(md, previous).ids, CompileMessage(g, root, previous).value, end.ids);
  }

  lemma {:induction false} CertifiedAssignment(env: Env, start: Ids, d: Dataset, ids: Ids)
    requires Certified(env, start, d, ids)
    ensures forall k :: 0 <= k < |NodesOf(d)| ==>
              NodesOf(d)[k].field.stableId == IdAt(env, start, Identities(NodesOf(d)), k)
  {
    hide Backed, AllocateAll, NodesOf, NodesOk, AllPlaced, AllTidy, Fresh, CountNew, IdAt, NameDerived, Evolves,
         NameFree, KeepsSource, ValidIdentity;
    var all := Identities(NodesOf(d));
    AllocateAllExact(env, start, all);
    forall k | 0 <= k < |NodesOf(d)|
      ensures NodesOf(d)[k].field.stableId == IdAt(env, start, all, k)
    {
      NodeCertified(env, start, d, ids, k);
      assert ids.active[all[k]] == IdAt(env, start, all, k);
    }
  }

  /** No list element, map key or map value of the outline would take a name that
      the previous dataset gave to another identity of the same scope. */
  predicate SyntheticNamesFree(names: map<(Identity, string), Identity>, outline: seq<Identity>) {
    forall k :: 0 <= k < |outline| && outline[k] != [] && !Last(outline[k]).Number? ==>
      var key := (Scope(outline[k]), SyntheticName(Last(outline[k])));
      key in names ==> names[key] == outline[k]
  }

  /** When a compiled dataset loads again, told from the previous dataset and the
      descriptor alone. */
  lemma {:induction false} OutputReloadsIff(g: Graph, root: string, previous: Option<Dataset>)
    requires WellFormed(g) && CompileMessage(g, root, previous).Ok?
    ensures root in g
    ensures ValidDataset(CompileMessage(g, root, previous).value, root)
       <==> SyntheticNamesFree(EnvOf(g, g[root], previous).index.names, Outline(g, root))
  {
    hide CompileMessage, Step, BuildFields, Containers, Reserved, ValidDataset, EnvOf, Outline, NodesOf,
         SyntheticNamesFree, NamesFree, WellFormed, StartOf, IdAt;
    var d := CompileMessage(g, root, previous).value;
    var start, end := StepOf(g, root, previous);
    ReloadsIff(g, g[root], previous, d, start, end.ids);
    CompiledOutline(g, root, previous);
    FreeIff(g, g[root], previous, d, start, end.ids);
  }

  lemma {:induction false} FreeIff(
    g: Graph, md: MessageDescriptor, previous: Option<Dataset>, d: Dataset, start: Ids, ids: Ids)
    requires Step(g, md, previous, d, start, ids)
    ensures NamesFree(EnvOf(g, md, previous), NodesOf(d))
       <==> SyntheticNamesFree(EnvOf(g, md, previous).index.names, Identities(NodesOf(d)))
  {
    hide Certified, ValidDataset, NodesOf, RetiredAfter, StorageName, EnvOf, StartOf, StartsAt, Listed, ValidName,
         ValidFullName, Evolves, KeepsSource, NameFree;
    var env := EnvOf(g, md, previous);
    var nodes := NodesOf(d);
    var all := Identities(nodes);
    forall k | 0 <= k < |nodes|
      ensures ValidIdentity(nodes[k].identity)
      ensures Last(nodes[k].identity).Number? ==> NameFree(env, nodes[k].identity, nodes[k].field.name)
      ensures !Last(nodes[k].identity).Number? ==> nodes[k].field.name == SyntheticName(Last(nodes[k].identity))
    {
      NodeCertified(env, start, d, ids, k);
    }
    forall k | 0 <= k < |nodes|
      ensures NameFree(env, nodes[k].identity, nodes[k].field.name) <==>
                ((Scope(all[k]), nodes[k].field.name) in env.index.names ==>
                   env.index.names[(Scope(all[k]), nodes[k].field.name)] == all[k])
    {
      FreeMeans(env, nodes[k]);
    }
  }

  lemma {:induction false} FreeMeans(env: Env, n: Node)
    ensures NameFree(env, n.identity, n.field.name) <==>
              ((Scope(n.identity), n.field.name) in env.index.names ==>
                 env.index.names[(Scope(n.identity), n.field.name)] == n.identity)
  {
  }
}
