/** Compiling the same descriptor against its own output changes nothing. */
module SchemaRecompile {

  import opened LogicalSchema
  import opened ProtoDescriptors
  import opened ProtoNames
  import opened Results
  import opened SchemaAgreement
  import opened SchemaAllocation
  import opened SchemaCompiler
  import opened SchemaEvolution
  import opened SchemaFacts
  import opened SchemaIdentity
  import opened SchemaIndex
  import opened SchemaLedger
  import opened SchemaReference
  import opened SchemaReload
  import opened SchemaRuns
  import opened SchemaThreading
  import opened Sorting
  predicate NodeRemembered(env: Env, n: Node) {
    && n.identity in env.index.active && env.index.active[n.identity] == n.field
    && NameFree(env, n.identity, n.field.name)
  }

  /** The previous dataset holds exactly these fields under their names. */
  predicate Remembered(env: Env, nodes: seq<Node>) {
    forall k :: 0 <= k < |nodes| ==> NodeRemembered(env, nodes[k])
  }

  lemma {:induction false} RememberedParts(env: Env, a: seq<Node>, b: seq<Node>)
    requires Remembered(env, a + b)
    ensures Remembered(env, a) && Remembered(env, b)
  {
    hide NodeRemembered;
    var s := a + b;
    forall k | 0 <= k < |a| ensures NodeRemembered(env, a[k]) { assert s[k] == a[k]; }
    forall k | 0 <= k < |b| ensures NodeRemembered(env, b[k]) { assert s[|a| + k] == b[k]; }
  }

  lemma {:induction false} RememberedField(env: Env, f: Field, scope: Identity)
    requires Remembered(env, FieldNodes(f, scope))
    ensures NodeRemembered(env, Node(scope + [SegmentOf(f)], f))
    ensures Remembered(env, TypeNodes(f.typ, scope + [SegmentOf(f)]))
  {
    hide NodeRemembered, TypeNodes;
    var i := scope + [SegmentOf(f)];
    RememberedParts(env, [Node(i, f)], TypeNodes(f.typ, i));
    assert [Node(i, f)][0] == Node(i, f);
  }

  lemma {:induction false} RebuildFields(
    env: Env, again: Env, ids: Assignment, md: MessageDescriptor, fds: seq<FieldDescriptor>, path: seq<uint32>,
    scope: Identity, stack: set<string>)
    requires env.graph == again.graph && WellFormed(env.graph) && ValidFullName(md.fullName)
    requires forall k :: 0 <= k < |fds| ==> PlainField(fds[k])
    requires BuildFields(env, ids, md, fds, path, scope, stack).Ok?
    requires Remembered(again, Nodes(BuildFields(env, ids, md, fds, path, scope, stack).value, scope))
    ensures BuildFields(again, ids, md, fds, path, scope, stack) == BuildFields(env, ids, md, fds, path, scope, stack)
    decreases env.graph.Keys - stack, 4, |fds|
  {
    hide BuildField, FieldNodes, Remembered, WellFormed, PlainField, ValidFullName;
    if fds != [] {
      var before := BuildFields(env, ids, md, fds[..|fds| - 1], path, scope, stack).value;
      var last := BuildField(env, ids, md, fds[|fds| - 1], path, scope, stack).value;
      var all := before + [last];
      assert all[..|all| - 1] == before;
      RememberedParts(again, Nodes(before, scope), FieldNodes(last, scope));
      RebuildFields(env, again, ids, md, fds[..|fds| - 1], path, scope, stack);
      RebuildField(env, again, ids, md, fds[|fds| - 1], path, scope, stack);
    }
  }

  lemma {:induction false} RebuildField(
    env: Env, again: Env, ids: Assignment, md: MessageDescriptor, fd: FieldDescriptor, parentPath: seq<uint32>,
    scope: Identity, stack: set<string>)
    requires env.graph == again.graph && WellFormed(env.graph) && ValidFullName(md.fullName) && PlainField(fd)
    requires BuildField(env, ids, md, fd, parentPath, scope, stack).Ok?
    requires Remembered(again, FieldNodes(BuildField(env, ids, md, fd, parentPath, scope, stack).value, scope))
    ensures BuildField(again, ids, md, fd, parentPath, scope, stack)
            == BuildField(env, ids, md, fd, parentPath, scope, stack)
    decreases env.graph.Keys - stack, 3, 0
  {
    hide BuildShape, FieldNodes, TypeNodes, Remembered, WellFormed, ValidFullName, ValidName, OptionsAllowed,
         StorageSource, SameFieldShape, StorageName, NameFree, Evolves;
    var f := BuildField(env, ids, md, fd, parentPath, scope, stack).value;
    var i := scope + [Number(fd.number)];
    assert SegmentOf(f) == Number(fd.number);
    RememberedField(again, f, scope);
    RebuildShape(env, again, ids, md, fd, parentPath + [fd.number], i, stack);
    SameSource(env, again, md, fd, i, f);
    ShapeHasKind(env, ids, md, fd, parentPath + [fd.number], i, stack);
    EvolvesToItself(again, i, f);
  }

  lemma {:induction false} EvolvesToItself(env: Env, i: Identity, f: Field)
    requires i in env.index.active && env.index.active[i] == f && !f.typ.Kindless?
    ensures Evolves(env, i, f)
  {
    hide SameFieldShape;
    ShapeReflexive(f);
  }

  lemma {:induction false} SameSource(
    env: Env, again: Env, md: MessageDescriptor, fd: FieldDescriptor, i: Identity, f: Field)
    requires ValidFullName(md.fullName) && ValidName(fd.name) && StorageSource(env, md, fd, i).Ok?
    requires i in again.index.active && again.index.active[i] == f
    requires f.fullName == Qualified(md.fullName, fd.name) && f.source == StorageSource(env, md, fd, i).value
    ensures StorageSource(again, md, fd, i) == StorageSource(env, md, fd, i)
  {
    hide ValidName, ValidFullName;
    QualifiedName(md.fullName, fd.name);
  }

  lemma {:induction false} RebuildShape(
    env: Env, again: Env, ids: Assignment, md: MessageDescriptor, fd: FieldDescriptor, path: seq<uint32>, i: Identity,
    stack: set<string>)
    requires env.graph == again.graph && WellFormed(env.graph)
    requires BuildShape(env, ids, md, fd, path, i, stack).Ok?
    requires Remembered(again, TypeNodes(BuildShape(env, ids, md, fd, path, i, stack).value, i))
    ensures BuildShape(again, ids, md, fd, path, i, stack) == BuildShape(env, ids, md, fd, path, i, stack)
    decreases env.graph.Keys - stack, 2, 1
  {
    hide BuildRefined, BuildSynthetic, FieldNodes, Remembered, WellFormed;
    var fullName := Qualified(md.fullName, fd.name);
    match fd.shape
    case One =>
      RebuildRefined(env, again, ids, fd.kind, path, i, stack, fd.options);
    case Many =>
      RebuildSynthetic(env, again, ids, fd.kind, fullName, path, i, Element, stack, ElementOptions(fd.options));
    case Keyed(keyKind, valueKind) =>
      var t := BuildShape(env, ids, md, fd, path, i, stack).value;
      RememberedParts(again, FieldNodes(t.key, i), FieldNodes(t.value, i));
      RebuildSynthetic(env, again, ids, keyKind, fullName, path, i, Key, stack, NoOptions);
      RebuildSynthetic(env, again, ids, valueKind, fullName, path, i, Value, stack, NoOptions);
  }

  lemma {:induction false} RebuildSynthetic(
    env: Env, again: Env, ids: Assignment, kind: Kind, fullName: string, path: seq<uint32>, parent: Identity,
    segment: Segment, stack: set<string>, options: Options)
    requires env.graph == again.graph && WellFormed(env.graph) && !segment.Number?
    requires BuildSynthetic(env, ids, kind, fullName, path, parent, segment, stack, options).Ok?
    requires var f := BuildSynthetic(env, ids, kind, fullName, path, parent, segment, stack, options).value;
             Remembered(again, FieldNodes(f, parent))
    ensures BuildSynthetic(again, ids, kind, fullName, path, parent, segment, stack, options)
         == BuildSynthetic(env, ids, kind, fullName, path, parent, segment, stack, options)
    decreases env.graph.Keys - stack, 2, 0
  {
    hide BuildRefined, FieldNodes, TypeNodes, Remembered, WellFormed, SameFieldShape, NameFree, Evolves;
    var f := BuildSynthetic(env, ids, kind, fullName, path, parent, segment, stack, options).value;
    var i := parent + [segment];
    assert SegmentOf(f) == segment;
    RememberedField(again, f, parent);
    RebuildRefined(env, again, ids, kind, path, i, stack, options);
    RefinedHasKind(env, ids, kind, path, i, stack, options);
    EvolvesToItself(again, i, f);
  }

  lemma {:induction false} RebuildRefined(
    env: Env, again: Env, ids: Assignment, kind: Kind, path: seq<uint32>, i: Identity, stack: set<string>,
    options: Options)
    requires env.graph == again.graph && WellFormed(env.graph)
    requires BuildRefined(env, ids, kind, path, i, stack, options).Ok?
    requires Remembered(again, TypeNodes(BuildRefined(env, ids, kind, path, i, stack, options).value, i))
    ensures BuildRefined(again, ids, kind, path, i, stack, options)
            == BuildRefined(env, ids, kind, path, i, stack, options)
    decreases env.graph.Keys - stack, 1, 0
  {
    hide BuildValue, Remembered, WellFormed, TypeNodes, RefinedType;
    if options.NoOptions? {
      RebuildValue(env, again, ids, kind, path, i, stack);
    }
  }

  lemma {:induction false} RebuildValue(
    env: Env, again: Env, ids: Assignment, kind: Kind, path: seq<uint32>, i: Identity, stack: set<string>)
    requires env.graph == again.graph && WellFormed(env.graph)
    requires BuildValue(env, ids, kind, path, i, stack).Ok?
    requires Remembered(again, TypeNodes(BuildValue(env, ids, kind, path, i, stack).value, i))
    ensures BuildValue(again, ids, kind, path, i, stack) == BuildValue(env, ids, kind, path, i, stack)
    decreases env.graph.Keys - stack, 0, 0
  {
    hide BuildFields, WellKnown, DistinctNames, Remembered, Nodes, WellFormedMessage, PlainField;
    if kind.MessageOf? && WellKnown(kind.message).None? {
      var md := env.graph[kind.message];
      FullNameValid(md);
      SortedPlain(md);
      var t := BuildValue(env, ids, kind, path, i, stack).value;
      assert TypeNodes(t, i) == Nodes(t.fields, i);
      RebuildFields(env, again, ids, md, SortedFields(md), path, i, stack + {kind.message});
    }
  }

  // ----- the whole dataset -----

  lemma {:induction false} OutputRemembered(g: Graph, md: MessageDescriptor, d: Dataset)
    requires ValidLedger(Ledger(d))
    ensures Remembered(EnvOf(g, md, Some(d)), NodesOf(d))
  {
    hide ValidLedger, Ledger, NodesOf, NameOwners, Owners, Active, Retired;
    forall k | 0 <= k < |NodesOf(d)|
      ensures NodeRemembered(EnvOf(g, md, Some(d)), NodesOf(d)[k])
    {
      ActiveAt(d, k);
      NodeInLedger(d, k);
      NamesAt(Ledger(d), |d.retired| + k);
    }
  }

  /** Nothing new is allocated: every identity keeps the id it has. */
  lemma {:induction false} OutputAllocated(g: Graph, md: MessageDescriptor, d: Dataset, ids: Assignment, start: Ids)
    requires ValidDataset(d, md.fullName) && StartsAt(start, d)
    requires forall k :: 0 <= k < |NodesOf(d)| ==>
            NodesOf(d)[k].identity in ids && ids[NodesOf(d)[k].identity] == NodesOf(d)[k].field.stableId
    ensures var env := EnvOf(g, md, Some(d));
            && Allocated(env, start, ids, NodesOf(d))
            && var r := AllocateAll(env, start, Identities(NodesOf(d))).value;
               r.last == d.lastFieldId && forall k :: 0 <= k < |NodesOf(d)| ==> NodesOf(d)[k].identity in r.active
  {
    hide NodesOf, Ledger, Owners, AllocateAll, Backed, ValidDataset, Active, Retired, NameOwners;
    var env := EnvOf(g, md, Some(d));
    var all := Identities(NodesOf(d));
    ReloadedBacked(g, d, md.fullName, start);
    LedgerOf(d, md.fullName);
    LastIdInRange(d, md.fullName);
    OutputFresh(g, md, d, start);
    NothingNew(env, all);
    AllocateAllExact(env, start, all);
    var r := AllocateAll(env, start, all).value;
    forall i | i in r.active
      ensures i in ids && ids[i] == r.active[i]
    {
      assert i in all;
      var k :| 0 <= k < |all| && all[k] == i;
      assert r.active[all[k]] == IdAt(env, start, all, k);
      ActiveAt(d, k);
    }
    forall k | 0 <= k < |NodesOf(d)|
      ensures NodesOf(d)[k].identity in r.active
    {
      assert all[k] in all;
    }
  }

  lemma {:induction false} OutputFresh(g: Graph, md: MessageDescriptor, d: Dataset, start: Ids)
    requires ValidLedger(Ledger(d)) && start.active == map[]
    ensures Fresh(EnvOf(g, md, Some(d)), start, Identities(NodesOf(d)))
    ensures forall k :: 0 <= k < |NodesOf(d)| ==> Fixed(EnvOf(g, md, Some(d)), Identities(NodesOf(d))[k])
  {
    hide NodesOf, Ledger, Owners, ValidLedger, Active, Retired, NameOwners;
    var env := EnvOf(g, md, Some(d));
    var all := Identities(NodesOf(d));
    forall j, k | 0 <= j < k < |all|
      ensures all[j] != all[k]
    {
      NodesDistinct(d);
      assert NodeIdentity(NodesOf(d)[j]) != NodeIdentity(NodesOf(d)[k]);
    }
    forall k | 0 <= k < |all|
      ensures all[k] !in env.index.retired && Fixed(env, all[k])
    {
      ActiveAt(d, k);
      NodeInLedger(d, k);
      if all[k] in env.index.retired {
        var j := RetiredEntry(d, all[k]);
        RetiredInLedger(d, j);
        SeparateIff(Ledger(d), j, |d.retired| + k);
      }
    }
  }

  lemma {:induction false} NothingNew(env: Env, identities: seq<Identity>)
    requires forall k :: 0 <= k < |identities| ==> Fixed(env, identities[k])
    ensures CountNew(env, identities) == 0
  {
    hide Fixed;
    if identities != [] {
      NothingNew(env, identities[..|identities| - 1]);
    }
  }

  lemma {:induction false} NothingDropped(nodes: seq<Node>, active: map<Identity, int32>)
    requires forall k :: 0 <= k < |nodes| ==> nodes[k].identity in active
    ensures Dropped(nodes, active) == []
  {
    if nodes != [] {
      NothingDropped(nodes[..|nodes| - 1], active);
    }
  }

  lemma {:induction false} RetiredUnchanged(
    previous: Option<Dataset>, before: map<Identity, int32>, d: Dataset, active: map<Identity, int32>)
    requires d.retired == RetiredAfter(previous, before) && ValidLedger(Ledger(d)) && Dropped(NodesOf(d), active) == []
    ensures RetiredAfter(Some(d), active) == d.retired
  {
    hide NodesOf, SoundEntry, NameKey, SortBy;
    assert d.retired + [] == d.retired;
    forall j, k | 0 <= j < k < |d.retired|
      ensures IdOf(d.retired[j]) != IdOf(d.retired[k])
    {
      assert Separate(Ledger(d)[j], Ledger(d)[k]);
    }
    if previous.Some? {
      SortByOrders(previous.value.retired + Dropped(NodesOf(previous.value), before), IdOf);
    }
    SortedIsFixed(d.retired, IdOf);
  }

  /** Recompiling the same descriptor against the dataset it produced gives that
      dataset again, whatever came before. */
  lemma {:induction false} RecompileIsIdentity(g: Graph, root: string, previous: Option<Dataset>)
    requires WellFormed(g) && CompileMessage(g, root, previous).Ok?
    requires ValidDataset(CompileMessage(g, root, previous).value, root)
    ensures CompileMessage(g, root, Some(CompileMessage(g, root, previous).value)) == CompileMessage(g, root, previous)
  {
    hide CompileMessage, Step, BuildFields, Containers, Reserved, ValidDataset, WellFormed, SortedFields, EnvOf,
         NodesOf;
    var d := CompileMessage(g, root, previous).value;
    var start, end := StepOf(g, root, previous);
    LastIdInRange(d, root);
    var again := StartOf(g[root], Some(d));
    var ids := RecompiledFields(g, root, previous, d, start, end, again);
    RetiredAgain(g, g[root], previous, d, start, end.ids, ids);
    Assemble(g, root, previous, d, ids, end.containers);
  }

  lemma {:induction false} RecompiledFields(
    g: Graph, root: string, previous: Option<Dataset>, d: Dataset, start: Ids, end: State,
    again: State) returns (ids: Ids)
    requires WellFormed(g) && root in g && g[root].fullName == root && ValidDataset(d, root)
    requires Step(g, g[root], previous, d, start, end.ids)
    requires BuildFields(EnvOf(g, g[root], previous), end.ids.active, g[root], SortedFields(g[root]), [], [], {root})
            == Ok(d.fields)
    requires end.containers == map[[] := g[root]] + Containers(g, NodesOf(d))
    requires 0 <= d.lastFieldId <= MAX_STABLE_ID && again == StartOf(g[root], Some(d))
    ensures CompileFields(EnvOf(g, g[root], Some(d)), again, g[root], SortedFields(g[root]), [], [], {root})
         == Ok(Compiled(d.fields, State(ids, end.containers)))
    ensures ids.last == d.lastFieldId && forall k :: 0 <= k < |NodesOf(d)| ==> NodesOf(d)[k].identity in ids.active
  {
    hide BuildFields, CompileFields, Containers, ValidDataset, WellFormedMessage, SortedFields, EnvOf, Step,
         AllocateAll, Allocated, Owners, Ledger, Nodes, Remembered, PlainField;
    var md := g[root];
    var env, env2 := EnvOf(g, md, previous), EnvOf(g, md, Some(d));
    GraphOf(g, md, previous);
    GraphOf(g, md, Some(d));
    LedgerOf(d, root);
    OutputRemembered(g, md, d);
    FullNameValid(md);
    SortedPlain(md);
    RebuildFields(env, env2, end.ids.active, md, SortedFields(md), [], [], {root});
    StepAssigns(g, md, previous, d, start, end.ids);
    OutputAllocated(g, md, d, end.ids.active, again.ids);
    FieldsCompile(env2, again, end.ids.active, md, SortedFields(md), [], [], {root});
    FieldsThread(env2, again, md, SortedFields(md), [], [], {root});
    ids := CompileFields(env2, again, md, SortedFields(md), [], [], {root}).value.state.ids;
  }

  lemma {:induction false} StepAssigns(
    g: Graph, md: MessageDescriptor, previous: Option<Dataset>, d: Dataset, start: Ids, ids: Ids)
    requires Step(g, md, previous, d, start, ids)
    ensures forall k :: 0 <= k < |NodesOf(d)| ==>
              NodesOf(d)[k].identity in ids.active && ids.active[NodesOf(d)[k].identity] == NodesOf(d)[k].field.stableId
  {
    hide Certified, ValidDataset, NodesOf, RetiredAfter, StorageName, EnvOf, StartOf, StartsAt, Listed, NameDerived,
         Evolves, NameFree, KeepsSource, ValidIdentity;
    forall k | 0 <= k < |NodesOf(d)|
      ensures NodesOf(d)[k].identity in ids.active && ids.active[NodesOf(d)[k].identity] == NodesOf(d)[k].field.stableId
    {
      NodeCertified(EnvOf(g, md, previous), start, d, ids, k);
    }
  }

  lemma {:induction false} RetiredAgain(
    g: Graph, md: MessageDescriptor, previous: Option<Dataset>, d: Dataset, start: Ids, before: Ids, ids: Ids)
    requires Step(g, md, previous, d, start, before) && ValidDataset(d, md.fullName)
    requires forall k :: 0 <= k < |NodesOf(d)| ==> NodesOf(d)[k].identity in ids.active
    ensures RetiredAfter(Some(d), ids.active) == d.retired
  {
    hide Certified, ValidDataset, NodesOf, RetiredAfter, StorageName, EnvOf, StartOf, StartsAt, Listed, Ledger;
    LedgerOf(d, md.fullName);
    NothingDropped(NodesOf(d), ids.active);
    RetiredUnchanged(previous, before.active, d, ids.active);
  }

  lemma {:induction false} Assemble(
    g: Graph, root: string, previous: Option<Dataset>, d: Dataset, ids: Ids,
    containers: map<Identity, MessageDescriptor>)
    requires CompileMessage(g, root, previous) == Ok(d) && root in g && g[root].fullName == root
    requires ValidDataset(d, root)
    requires 0 <= d.lastFieldId <= MAX_STABLE_ID && ids.last == d.lastFieldId
    requires CompileFields(EnvOf(g, g[root], Some(d)), StartOf(g[root], Some(d)), g[root], SortedFields(g[root]), [],
            [], {root})
          == Ok(Compiled(d.fields, State(ids, containers)))
    requires RetiredAfter(Some(d), ids.active) == d.retired
    requires forall k :: 0 <= k < |d.retired| ==> Reserved(containers, d.retired[k])
    ensures CompileMessage(g, root, Some(d)) == Ok(d)
  {
    hide CompileFields, ValidDataset, EnvOf, SortedFields, RetiredAfter, Reserved, StorageName, DistinctNames;
  }

  /** In every run, compiling a step's descriptor once more is the identity. */
  lemma {:induction false} RunIsStable(graphs: seq<Graph>, root: string, outputs: seq<Dataset>, k: nat)
    requires Run(graphs, root, outputs) && k < |outputs|
    ensures k < |graphs| && CompileMessage(graphs[k], root, Some(outputs[k])) == Ok(outputs[k])
  {
    hide CompileMessage, ValidDataset, Coherent, WellFormed;
    RunReloads(graphs, root, outputs, k);
    RecompileIsIdentity(graphs[k], root, Before(outputs, k));
  }
}
