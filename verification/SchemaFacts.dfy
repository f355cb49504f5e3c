/** What every field of a compiled schema satisfies. */
module SchemaFacts {

  import opened LogicalSchema
  import opened ProtoDescriptors
  import opened ProtoNames
  import opened SchemaCompiler
  import opened SchemaIdentity
  import opened SchemaLedger
  import opened SchemaReference
  import opened SchemaThreading
  import opened Sorting

  // ----- placement and sibling names -----

  predicate DistinctSegments(fields: seq<Field>) {
    forall j, k :: 0 <= j < k < |fields| ==> SegmentOf(fields[j]) != SegmentOf(fields[k])
  }

  /** Siblings have different segments and different, nonempty names. */
  predicate AllTidy(fields: seq<Field>)
    decreases fields, 2
  {
    DistinctNames(fields) && DistinctSegments(fields) && forall k :: 0 <= k < |fields| ==> TypeTidy(fields[k].typ)
  }

  predicate TypeTidy(t: DataType)
    decreases t, 0
  {
    match t
    case Struct(_, fields) => AllTidy(fields)
    case List(element, _) => element.name != "" && TypeTidy(element.typ)
    case Map(key, value) =>
      && key.name != "" && value.name != "" && key.name != value.name
      && SegmentOf(key) != SegmentOf(value)
      && TypeTidy(key.typ)
      && TypeTidy(value.typ)
    case _ => true
  }

  predicate DistinctNumbers(fds: seq<FieldDescriptor>) {
    forall j, k :: 0 <= j < k < |fds| ==> fds[j].number != fds[k].number
  }

  lemma {:induction false} SortedDistinct(md: MessageDescriptor)
    requires WellFormedMessage(md)
    ensures DistinctNumbers(SortedFields(md))
  {
    hide ValidName, ValidFullName;
    SortKeepsDistinct(md.fields, (fd: FieldDescriptor) => fd.number);
  }

  lemma {:induction false} FieldsPlaced(
    env: Env, ids: Assignment, md: MessageDescriptor, fds: seq<FieldDescriptor>, path: seq<uint32>, scope: Identity,
    stack: set<string>)
    requires WellFormed(env.graph) && BuildFields(env, ids, md, fds, path, scope, stack).Ok?
    ensures var fields := BuildFields(env, ids, md, fds, path, scope, stack).value;
            && |fields| == |fds| && AllPlaced(fields, path)
            && forall k :: 0 <= k < |fds| ==> SegmentOf(fields[k]) == Number(fds[k].number) && TypeTidy(fields[k].typ)
    decreases env.graph.Keys - stack, 4, |fds|
  {
    hide BuildField, Placed, WellFormed, TypeTidy;
    if fds != [] {
      FieldsPlaced(env, ids, md, fds[..|fds| - 1], path, scope, stack);
      FieldPlaced(env, ids, md, fds[|fds| - 1], path, scope, stack);
    }
  }

  lemma {:induction false} FieldPlaced(
    env: Env, ids: Assignment, md: MessageDescriptor, fd: FieldDescriptor, parentPath: seq<uint32>, scope: Identity,
    stack: set<string>)
    requires WellFormed(env.graph) && BuildField(env, ids, md, fd, parentPath, scope, stack).Ok?
    ensures var f := BuildField(env, ids, md, fd, parentPath, scope, stack).value;
            Placed(f, parentPath, ProtoField) && SegmentOf(f) == Number(fd.number) && TypeTidy(f.typ)
    decreases env.graph.Keys - stack, 3, 0
  {
    hide BuildShape, TypePlaced, StorageSource, NameFree, OptionsAllowed, Evolves, WellFormed, TypeTidy;
    ShapePlaced(env, ids, md, fd, parentPath + [fd.number], scope + [Number(fd.number)], stack);
  }

  lemma {:induction false} ShapePlaced(
    env: Env, ids: Assignment, md: MessageDescriptor, fd: FieldDescriptor, path: seq<uint32>, i: Identity,
    stack: set<string>)
    requires WellFormed(env.graph) && BuildShape(env, ids, md, fd, path, i, stack).Ok?
    ensures var t := BuildShape(env, ids, md, fd, path, i, stack).value; TypePlaced(t, path) && TypeTidy(t)
    decreases env.graph.Keys - stack, 2, 1
  {
    hide BuildRefined, BuildSynthetic, Placed, WellFormed;
    var fullName := Qualified(md.fullName, fd.name);
    match fd.shape
    case One =>
      RefinedPlaced(env, ids, fd.kind, path, i, stack, fd.options);
    case Many =>
      SyntheticPlaced(env, ids, fd.kind, fullName, path, i, Element, stack, ElementOptions(fd.options));
    case Keyed(keyKind, valueKind) =>
      SyntheticPlaced(env, ids, keyKind, fullName, path, i, Key, stack, NoOptions);
      SyntheticPlaced(env, ids, valueKind, fullName, path, i, Value, stack, NoOptions);
  }

  lemma {:induction false} SyntheticPlaced(
    env: Env, ids: Assignment, kind: Kind, fullName: string, path: seq<uint32>, parent: Identity, segment: Segment,
    stack: set<string>, options: Options)
    requires WellFormed(env.graph)
    requires !segment.Number? && BuildSynthetic(env, ids, kind, fullName, path, parent, segment, stack, options).Ok?
    ensures var f := BuildSynthetic(env, ids, kind, fullName, path, parent, segment, stack, options).value;
            && Placed(f, path, RoleOf(segment)) && SegmentOf(f) == segment
            && f.name == SyntheticName(segment) && TypeTidy(f.typ)
    decreases env.graph.Keys - stack, 2, 0
  {
    hide BuildRefined, TypePlaced, Evolves, WellFormed, TypeTidy;
    RefinedPlaced(env, ids, kind, path, parent + [segment], stack, options);
  }

  lemma {:induction false} RefinedPlaced(
    env: Env, ids: Assignment, kind: Kind, path: seq<uint32>, i: Identity, stack: set<string>, options: Options)
    requires WellFormed(env.graph) && BuildRefined(env, ids, kind, path, i, stack, options).Ok?
    ensures var t := BuildRefined(env, ids, kind, path, i, stack, options).value; TypePlaced(t, path) && TypeTidy(t)
    decreases env.graph.Keys - stack, 1, 0
  {
    hide BuildValue, WellFormed;
    if options.NoOptions? {
      ValuePlaced(env, ids, kind, path, i, stack);
    }
  }

  lemma {:induction false} ValuePlaced(
    env: Env, ids: Assignment, kind: Kind, path: seq<uint32>, i: Identity, stack: set<string>)
    requires WellFormed(env.graph) && BuildValue(env, ids, kind, path, i, stack).Ok?
    ensures var t := BuildValue(env, ids, kind, path, i, stack).value; TypePlaced(t, path) && TypeTidy(t)
    decreases env.graph.Keys - stack, 0, 0
  {
    hide BuildFields, WellKnown, DistinctNames, AllPlaced, Placed, WellFormedMessage;
    if kind.MessageOf? && WellKnown(kind.message).None? {
      var md := env.graph[kind.message];
      FieldsPlaced(env, ids, md, SortedFields(md), path, i, stack + {kind.message});
      SortedDistinct(md);
    } else {
      WellKnownIsLeaf(kind);
    }
  }

  // ----- each field on its own -----

  /** The previous dataset only names fields after protobuf identifiers. */
  ghost predicate SoundSources(env: Env) {
    forall i :: i in env.index.active && i != [] && Last(i).Number? ==> ValidName(env.index.active[i].source)
  }

  /** Whether fields may live in a scope. */
  predicate OpenScope(scope: Identity) {
    scope == [] || (ValidIdentity(scope) && Last(scope) != Key)
  }

  predicate KeepsSource(env: Env, n: Node)
    requires n.identity != []
  {
    n.identity in env.index.active ==>
      n.field.source == if Last(n.identity).Number? then env.index.active[n.identity].source else ""
  }

  predicate NameDerived(e: Entry)
    requires e.identity != []
  {
    match Last(e.identity)
    case Number(_) => ValidFullName(e.fullName) && ValidName(e.source) && e.name == StorageName(e.source)
    case s => e.fullName != "" && e.name == SyntheticName(s) && e.source == ""
  }

  predicate NodeOk(env: Env, ids: Assignment, n: Node) {
    && ValidIdentity(n.identity)
    && n.identity in ids && ids[n.identity] == n.field.stableId
    && NameDerived(EntryOf(n))
    && Evolves(env, n.identity, n.field)
    && !n.field.typ.Kindless?
    && (Last(n.identity).Number? ==> NameFree(env, n.identity, n.field.name))
    && KeepsSource(env, n)
  }

  predicate NodesOk(env: Env, ids: Assignment, nodes: seq<Node>) {
    forall k :: 0 <= k < |nodes| ==> NodeOk(env, ids, nodes[k])
  }

  lemma {:induction false} NodesOkJoin(env: Env, ids: Assignment, a: seq<Node>, b: seq<Node>)
    requires NodesOk(env, ids, a) && NodesOk(env, ids, b)
    ensures NodesOk(env, ids, a + b)
  {
    hide NodeOk;
  }

  lemma {:induction false} OneNodeOk(env: Env, ids: Assignment, f: Field, scope: Identity)
    requires NodeOk(env, ids, Node(scope + [SegmentOf(f)], f))
    requires NodesOk(env, ids, TypeNodes(f.typ, scope + [SegmentOf(f)]))
    ensures NodesOk(env, ids, FieldNodes(f, scope))
  {
    hide NodeOk, TypeNodes;
  }

  lemma {:induction false} SortedField(md: MessageDescriptor, fd: FieldDescriptor)
    ensures fd in SortedFields(md) <==> fd in md.fields
  {
    SortByMembers(md.fields, (x: FieldDescriptor) => x.number);
  }

  predicate PlainField(fd: FieldDescriptor) {
    ValidName(fd.name) && (fd.shape.Keyed? ==> !fd.shape.key.MessageOf?)
  }

  lemma {:induction false} SortedPlain(md: MessageDescriptor)
    requires WellFormedMessage(md)
    ensures forall k :: 0 <= k < |SortedFields(md)| ==> PlainField(SortedFields(md)[k])
  {
    hide SortedFields, ValidName, ValidFullName;
    var sorted := SortedFields(md);
    forall k | 0 <= k < |sorted|
      ensures PlainField(sorted[k])
    {
      SortedField(md, sorted[k]);
      assert sorted[k] in md.fields;
    }
  }

  lemma {:induction false} FieldsOk(
    env: Env, ids: Assignment, md: MessageDescriptor, fds: seq<FieldDescriptor>, path: seq<uint32>, scope: Identity,
    stack: set<string>)
    requires WellFormed(env.graph) && SoundSources(env) && OpenScope(scope) && ValidFullName(md.fullName)
    requires forall k :: 0 <= k < |fds| ==> PlainField(fds[k])
    requires BuildFields(env, ids, md, fds, path, scope, stack).Ok?
    ensures NodesOk(env, ids, Nodes(BuildFields(env, ids, md, fds, path, scope, stack).value, scope))
    decreases env.graph.Keys - stack, 4, |fds|
  {
    hide BuildField, FieldNodes, NodesOk, WellFormed, SoundSources, OpenScope, PlainField, ValidFullName;
    if fds == [] {
      NoNodes(env, ids, scope);
    } else {
      var before := BuildFields(env, ids, md, fds[..|fds| - 1], path, scope, stack).value;
      var last := BuildField(env, ids, md, fds[|fds| - 1], path, scope, stack).value;
      FieldsOk(env, ids, md, fds[..|fds| - 1], path, scope, stack);
      FieldOk(env, ids, md, fds[|fds| - 1], path, scope, stack);
      NodesOkJoin(env, ids, Nodes(before, scope), FieldNodes(last, scope));
      var all := before + [last];
      assert all[..|all| - 1] == before;
    }
  }

  lemma {:induction false} NoNodes(env: Env, ids: Assignment, scope: Identity)
    ensures NodesOk(env, ids, Nodes([], scope))
  {
  }

  lemma {:induction false} FieldOk(
    env: Env, ids: Assignment, md: MessageDescriptor, fd: FieldDescriptor, parentPath: seq<uint32>, scope: Identity,
    stack: set<string>)
    requires WellFormed(env.graph) && SoundSources(env) && OpenScope(scope) && ValidFullName(md.fullName)
    requires PlainField(fd)
    requires BuildField(env, ids, md, fd, parentPath, scope, stack).Ok?
    ensures NodesOk(env, ids, FieldNodes(BuildField(env, ids, md, fd, parentPath, scope, stack).value, scope))
    decreases env.graph.Keys - stack, 3, 0
  {
    hide BuildShape, FieldNodes, TypeNodes, NodesOk, NodeOk, WellFormed, SoundSources, OptionsAllowed, Evolves,
         StorageSource, NameFree, ValidFullName, ValidName, StorageName;
    var f := BuildField(env, ids, md, fd, parentPath, scope, stack).value;
    var i := scope + [Number(fd.number)];
    ExtendValid(scope, Number(fd.number));
    ShapeOk(env, ids, md, fd, parentPath + [fd.number], i, stack);
    FieldPlaced(env, ids, md, fd, parentPath, scope, stack);
    ShapeHasKind(env, ids, md, fd, parentPath + [fd.number], i, stack);
    ProtoNodeOk(env, ids, md, fd, parentPath, i, f);
    OneNodeOk(env, ids, f, scope);
  }

  lemma {:induction false} RefinedHasKind(
    env: Env, ids: Assignment, kind: Kind, path: seq<uint32>, i: Identity, stack: set<string>, options: Options)
    requires BuildRefined(env, ids, kind, path, i, stack, options).Ok?
    ensures !BuildRefined(env, ids, kind, path, i, stack, options).value.Kindless?
  {
    hide BuildFields, SortedFields;
  }

  lemma {:induction false} ShapeHasKind(
    env: Env, ids: Assignment, md: MessageDescriptor, fd: FieldDescriptor, path: seq<uint32>, i: Identity,
    stack: set<string>)
    requires BuildShape(env, ids, md, fd, path, i, stack).Ok?
    ensures !BuildShape(env, ids, md, fd, path, i, stack).value.Kindless?
  {
    hide BuildRefined, BuildSynthetic;
    if fd.shape.One? {
      RefinedHasKind(env, ids, fd.kind, path, i, stack, fd.options);
    }
  }

  lemma {:induction false} ProtoNodeOk(
    env: Env, ids: Assignment, md: MessageDescriptor, fd: FieldDescriptor, parentPath: seq<uint32>, i: Identity,
    f: Field)
    requires SoundSources(env) && ValidIdentity(i) && Last(i).Number? && ValidFullName(md.fullName)
    requires ValidName(fd.name)
    requires StorageSource(env, md, fd, i).Ok? && NameFree(env, i, StorageName(StorageSource(env, md, fd, i).value))
    requires !f.typ.Kindless?
    requires i in ids && Evolves(env, i, f)
    requires f == ProtoFieldOf(md, fd, parentPath, ids[i], StorageSource(env, md, fd, i).value, f.typ)
    ensures NodeOk(env, ids, Node(i, f))
  {
    hide Evolves, NameFree, ValidFullName, ValidName, StorageName;
    QualifiedName(md.fullName, fd.name);
  }

  lemma {:induction false} ShapeOk(
    env: Env, ids: Assignment, md: MessageDescriptor, fd: FieldDescriptor, path: seq<uint32>, i: Identity,
    stack: set<string>)
    requires WellFormed(env.graph) && SoundSources(env) && ValidIdentity(i) && Last(i).Number? && PlainField(fd)
    requires ValidFullName(md.fullName)
    requires BuildShape(env, ids, md, fd, path, i, stack).Ok?
    ensures NodesOk(env, ids, TypeNodes(BuildShape(env, ids, md, fd, path, i, stack).value, i))
    decreases env.graph.Keys - stack, 2, 1
  {
    hide BuildRefined, BuildSynthetic, FieldNodes, NodesOk, WellFormed, SoundSources, ValidFullName, ValidName;
    var fullName := Qualified(md.fullName, fd.name);
    match fd.shape
    case One =>
      RefinedOk(env, ids, fd.kind, path, i, stack, fd.options);
    case Many =>
      SyntheticOk(env, ids, fd.kind, fullName, path, i, Element, stack, ElementOptions(fd.options));
    case Keyed(keyKind, valueKind) =>
      SyntheticOk(env, ids, keyKind, fullName, path, i, Key, stack, NoOptions);
      SyntheticOk(env, ids, valueKind, fullName, path, i, Value, stack, NoOptions);
      var t := BuildShape(env, ids, md, fd, path, i, stack).value;
      NodesOkJoin(env, ids, FieldNodes(t.key, i), FieldNodes(t.value, i));
  }

  lemma {:induction false} SyntheticOk(
    env: Env, ids: Assignment, kind: Kind, fullName: string, path: seq<uint32>, parent: Identity, segment: Segment,
    stack: set<string>, options: Options)
    requires WellFormed(env.graph) && SoundSources(env) && ValidIdentity(parent) && Last(parent).Number?
    requires !segment.Number? && (segment == Key ==> !kind.MessageOf?)
    requires BuildSynthetic(env, ids, kind, fullName, path, parent, segment, stack, options).Ok?
    ensures var f := BuildSynthetic(env, ids, kind, fullName, path, parent, segment, stack, options).value;
            NodesOk(env, ids, FieldNodes(f, parent))
    decreases env.graph.Keys - stack, 2, 0
  {
    hide BuildRefined, FieldNodes, TypeNodes, NodesOk, WellFormed, SoundSources, Evolves;
    var f := BuildSynthetic(env, ids, kind, fullName, path, parent, segment, stack, options).value;
    var i := parent + [segment];
    ExtendValid(parent, segment);
    RefinedOk(env, ids, kind, path, i, stack, options);
    RefinedHasKind(env, ids, kind, path, i, stack, options);
    assert SegmentOf(f) == segment;
    assert NodeOk(env, ids, Node(i, f));
    OneNodeOk(env, ids, f, parent);
  }

  lemma {:induction false} RefinedOk(
    env: Env, ids: Assignment, kind: Kind, path: seq<uint32>, i: Identity, stack: set<string>, options: Options)
    requires WellFormed(env.graph) && SoundSources(env) && ValidIdentity(i) && (Last(i) == Key ==> !kind.MessageOf?)
    requires BuildRefined(env, ids, kind, path, i, stack, options).Ok?
    ensures NodesOk(env, ids, TypeNodes(BuildRefined(env, ids, kind, path, i, stack, options).value, i))
    decreases env.graph.Keys - stack, 1, 0
  {
    hide BuildValue, WellFormed, SoundSources, ValidIdentity, NodeOk;
    if options.NoOptions? {
      ValueOk(env, ids, kind, path, i, stack);
    }
  }

  lemma {:induction false} ValueOk(
    env: Env, ids: Assignment, kind: Kind, path: seq<uint32>, i: Identity, stack: set<string>)
    requires WellFormed(env.graph) && SoundSources(env) && ValidIdentity(i) && (Last(i) == Key ==> !kind.MessageOf?)
    requires BuildValue(env, ids, kind, path, i, stack).Ok?
    ensures NodesOk(env, ids, TypeNodes(BuildValue(env, ids, kind, path, i, stack).value, i))
    decreases env.graph.Keys - stack, 0, 0
  {
    hide BuildFields, WellKnown, DistinctNames, SoundSources, NodeOk, Nodes, ValidIdentity, WellFormedMessage,
         PlainField;
    if kind.MessageOf? && WellKnown(kind.message).None? {
      var md := env.graph[kind.message];
      FullNameValid(md);
      SortedPlain(md);
      FieldsOk(env, ids, md, SortedFields(md), path, i, stack + {kind.message});
    } else {
      WellKnownIsLeaf(kind);
    }
  }

  lemma {:induction false} FullNameValid(md: MessageDescriptor)
    requires WellFormedMessage(md)
    ensures ValidFullName(md.fullName)
  {
    hide ValidName, ValidFullName;
  }
}
