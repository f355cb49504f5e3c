/** Recursive messages.  Compilation terminates on every graph, because each
    message it enters leaves fewer to enter, and it succeeds only when no cycle
    can be reached. */
module SchemaCycles {

  import opened LogicalSchema
  import opened ProtoDescriptors
  import opened ProtoNames
  import opened Results
  import opened SchemaCompiler
  import opened SchemaEvolution
  import opened SchemaFacts
  import opened SchemaIdentity
  import opened SchemaLedger
  import opened SchemaReference
  import opened SchemaReload
  /** A field leads to a message directly, through a list, or through a map. */
  predicate Targets(fd: FieldDescriptor, name: string) {
    match fd.shape
    case Keyed(key, value) => value == MessageOf(name) || key == MessageOf(name)
    case _ => fd.kind == MessageOf(name)
  }

  ghost predicate Edge(g: Graph, a: string, b: string) {
    && a in g && b in g
    && WellKnown(b).None?
    && exists k :: 0 <= k < |g[a].fields| && Targets(g[a].fields[k], b)
  }

  ghost predicate Walk(g: Graph, w: seq<string>) {
    |w| > 0 && w[0] in g && forall k :: 0 < k < |w| ==> Edge(g, w[k - 1], w[k])
  }

  /** Compiling a message also compiles each message its fields lead to, with
      every enclosing message still on the stack. */
  ghost predicate Enters(
    env: Env, ids: Assignment, name: string, path: seq<uint32>, scope: Identity, stack: set<string>) {
    name in env.graph && BuildFields(env, ids, env.graph[name], SortedFields(env.graph[name]), path, scope, stack).Ok?
  }

  lemma {:induction false} ValueEnters(
    env: Env, ids: Assignment, name: string, path: seq<uint32>, i: Identity, stack: set<string>, options: Options)
    requires BuildRefined(env, ids, MessageOf(name), path, i, stack, options).Ok? && WellKnown(name).None?
    ensures name !in stack && Enters(env, ids, name, path, i, stack + {name})
  {
    hide BuildFields, WellKnown, DistinctNames, SortedFields;
    assert options.NoOptions?;
  }

  lemma {:induction false} SyntheticEnters(
    env: Env, ids: Assignment, name: string, fullName: string, path: seq<uint32>, parent: Identity, segment: Segment,
    stack: set<string>, options: Options)
    requires BuildSynthetic(env, ids, MessageOf(name), fullName, path, parent, segment, stack, options).Ok?
    requires WellKnown(name).None?
    ensures name !in stack && Enters(env, ids, name, path, parent + [segment], stack + {name})
  {
    hide BuildRefined, WellKnown, Enters, Evolves;
    ValueEnters(env, ids, name, path, parent + [segment], stack, options);
  }

  lemma {:induction false} FieldEnters(
    env: Env, ids: Assignment, md: MessageDescriptor, fd: FieldDescriptor, parentPath: seq<uint32>, scope: Identity,
    stack: set<string>, name: string) returns (path: seq<uint32>, i: Identity)
    requires BuildField(env, ids, md, fd, parentPath, scope, stack).Ok? && Targets(fd, name) && WellKnown(name).None?
    ensures name !in stack && Enters(env, ids, name, path, i, stack + {name})
  {
    hide BuildRefined, BuildSynthetic, WellKnown, Enters, Evolves, OptionsAllowed, StorageSource, NameFree, StorageName,
         ProtoFieldOf;
    path, i := parentPath + [fd.number], scope + [Number(fd.number)];
    var fullName := Qualified(md.fullName, fd.name);
    match fd.shape
    case One =>
      ValueEnters(env, ids, name, path, i, stack, fd.options);
    case Many =>
      SyntheticEnters(env, ids, name, fullName, path, i, Element, stack, ElementOptions(fd.options));
      i := i + [Element];
    case Keyed(key, value) =>
      if value == MessageOf(name) {
        SyntheticEnters(env, ids, name, fullName, path, i, Value, stack, NoOptions);
        i := i + [Value];
      } else {
        SyntheticEnters(env, ids, name, fullName, path, i, Key, stack, NoOptions);
        i := i + [Key];
      }
  }

  lemma {:induction false} FieldBuilds(
    env: Env, ids: Assignment, md: MessageDescriptor, fds: seq<FieldDescriptor>, path: seq<uint32>, scope: Identity,
    stack: set<string>, k: nat)
    requires BuildFields(env, ids, md, fds, path, scope, stack).Ok? && k < |fds|
    ensures BuildField(env, ids, md, fds[k], path, scope, stack).Ok?
  {
    hide BuildField;
    if k < |fds| - 1 {
      FieldBuilds(env, ids, md, fds[..|fds| - 1], path, scope, stack, k);
    }
  }

  lemma {:induction false} EdgeEnters(
    env: Env, ids: Assignment, a: string, b: string, path: seq<uint32>, scope: Identity, stack: set<string>)
    returns (path': seq<uint32>, i: Identity)
    requires Enters(env, ids, a, path, scope, stack) && Edge(env.graph, a, b)
    ensures b !in stack && Enters(env, ids, b, path', i, stack + {b})
  {
    hide BuildFields, WellKnown, Targets, SortedFields;
    var md := env.graph[a];
    var k :| 0 <= k < |md.fields| && Targets(md.fields[k], b);
    SortedField(md, md.fields[k]);
    var j :| 0 <= j < |SortedFields(md)| && SortedFields(md)[j] == md.fields[k];
    FieldBuilds(env, ids, md, SortedFields(md), path, scope, stack, j);
    path', i := FieldEnters(env, ids, md, md.fields[k], path, scope, stack, b);
  }

  /** Along any walk from a compiled message, no message occurs twice and none is
      already on the stack. */
  lemma {:induction false} WalkIsSimple(
    env: Env, ids: Assignment, w: seq<string>, path: seq<uint32>, scope: Identity, stack: set<string>)
    requires Walk(env.graph, w) && Enters(env, ids, w[0], path, scope, stack) && w[0] in stack
    ensures forall k :: 0 < k < |w| ==> w[k] !in stack
    ensures forall j, k :: 0 <= j < k < |w| ==> w[j] != w[k]
    decreases |w|
  {
    hide Enters, Edge;
    if |w| > 1 {
      assert Edge(env.graph, w[0], w[1]);
      var path', i := EdgeEnters(env, ids, w[0], w[1], path, scope, stack);
      var rest := w[1..];
      assert rest[0] in env.graph by { EdgeTarget(env.graph, w[0], w[1]); }
      assert forall k :: 0 < k < |rest| ==> rest[k - 1] == w[k] && rest[k] == w[k + 1];
      assert Walk(env.graph, rest);
      WalkIsSimple(env, ids, rest, path', i, stack + {w[1]});
      forall k | 0 < k < |w|
        ensures w[k] !in stack && w[k] != w[0]
      {
        assert w[k] == rest[k - 1];
        assert k > 1 ==> rest[k - 1] !in stack + {w[1]};
      }
      forall j, k | 0 <= j < k < |w|
        ensures w[j] != w[k]
      {
        assert j > 0 ==> rest[j - 1] != rest[k - 1];
      }
    }
  }

  lemma {:induction false} EdgeTarget(g: Graph, a: string, b: string)
    requires Edge(g, a, b)
    ensures b in g
  {
    hide WellKnown, Targets;
  }

  /** A dataset compiles only if no walk through singular, list or map fields
      from its message ever returns to a message it passed. */
  lemma {:induction false} CompiledIsAcyclic(g: Graph, root: string, previous: Option<Dataset>, w: seq<string>)
    requires WellFormed(g) && CompileMessage(g, root, previous).Ok?
    requires Walk(g, w) && w[0] == root
    ensures forall j, k :: 0 <= j < k < |w| ==> w[j] != w[k]
  {
    hide CompileMessage, BuildFields, Containers, Reserved, Step, WellFormed, SortedFields, EnvOf, Walk;
    var start, end := StepOf(g, root, previous);
    GraphOf(g, g[root], previous);
    WalkIsSimple(EnvOf(g, g[root], previous), end.ids.active, w, [], [], {root});
  }
}
