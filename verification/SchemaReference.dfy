/** The compiler without its state: the schema a descriptor has under a given
    assignment of stable ids, and the assignment as a fold over identities in
    preorder. */
module SchemaReference {

  import opened LogicalSchema
  import opened ProtoDescriptors
  import opened ProtoNames
  import opened Results
  import opened SchemaCompiler
  import opened SchemaIdentity
  import opened SchemaLedger

  type Assignment = map<Identity, int32>

  function Identities(nodes: seq<Node>): (r: seq<Identity>)
    ensures |r| == |nodes| && forall k :: 0 <= k < |r| ==> r[k] == nodes[k].identity
  {
    seq(|nodes|, k requires 0 <= k < |nodes| => nodes[k].identity)
  }

  function AllocateAll(env: Env, s: Ids, identities: seq<Identity>): Result<Ids>
    decreases |identities|
  {
    if identities == [] then
      Ok(s)
    else
      var r :- Allocate(env, s, identities[0]);
      AllocateAll(env, r, identities[1..])
  }

  // ----- schemas under an assignment -----

  function BuildFields(
    env: Env, ids: Assignment, md: MessageDescriptor, fds: seq<FieldDescriptor>, path: seq<uint32>, scope: Identity,
    stack: set<string>): Result<seq<Field>>
    decreases env.graph.Keys - stack, 4, |fds|
  {
    if fds == [] then
      Ok([])
    else
      var before :- BuildFields(env, ids, md, fds[..|fds| - 1], path, scope, stack);
      var last :- BuildField(env, ids, md, fds[|fds| - 1], path, scope, stack);
      Ok(before + [last])
  }

  function BuildField(
    env: Env, ids: Assignment, md: MessageDescriptor, fd: FieldDescriptor, parentPath: seq<uint32>, scope: Identity,
    stack: set<string>): Result<Field>
    decreases env.graph.Keys - stack, 3, 0
  {
    var i := scope + [Number(fd.number)];
    var source :- StorageSource(env, md, fd, i);
    if i !in ids || !NameFree(env, i, StorageName(source)) || !OptionsAllowed(fd) then
      Err
    else
      var typ :- BuildShape(env, ids, md, fd, parentPath + [fd.number], i, stack);
      var field := ProtoFieldOf(md, fd, parentPath, ids[i], source, typ);
      if Evolves(env, i, field) then Ok(field) else Err
  }

  function BuildShape(
    env: Env, ids: Assignment, md: MessageDescriptor, fd: FieldDescriptor, path: seq<uint32>, i: Identity,
    stack: set<string>): Result<DataType>
    decreases env.graph.Keys - stack, 2, 1
  {
    var fullName := Qualified(md.fullName, fd.name);
    match fd.shape
    case One =>
      BuildRefined(env, ids, fd.kind, path, i, stack, fd.options)
    case Many =>
      var element :- BuildSynthetic(env, ids, fd.kind, fullName, path, i, Element, stack, ElementOptions(fd.options));
      Ok(List(element, FixedLength(fd.options)))
    case Keyed(keyKind, valueKind) =>
      var key :- BuildSynthetic(env, ids, keyKind, fullName, path, i, Key, stack, NoOptions);
      var value :- BuildSynthetic(env, ids, valueKind, fullName, path, i, Value, stack, NoOptions);
      Ok(Map(key, value))
  }

  function BuildSynthetic(
    env: Env, ids: Assignment, kind: Kind, fullName: string, path: seq<uint32>, parent: Identity, segment: Segment,
    stack: set<string>, options: Options): Result<Field>
    decreases env.graph.Keys - stack, 2, 0
  {
    var i := parent + [segment];
    var typ :- BuildRefined(env, ids, kind, path, i, stack, options);
    if i !in ids then
      Err
    else
      var field := SyntheticFieldOf(
        SyntheticFullName(fullName, segment), path, SyntheticName(segment), ids[i], RoleOf(segment), typ);
      if Evolves(env, i, field) then Ok(field) else Err
  }

  function BuildRefined(
    env: Env, ids: Assignment, kind: Kind, path: seq<uint32>, i: Identity, stack: set<string>,
    options: Options): Result<DataType>
    decreases env.graph.Keys - stack, 1, 0
  {
    match options
    case NoOptions => BuildValue(env, ids, kind, path, i, stack)
    case MalformedOptions => Err
    case Options(_, semantic) => RefinedType(kind, semantic)
  }

  function BuildValue(
    env: Env, ids: Assignment, kind: Kind, path: seq<uint32>, i: Identity, stack: set<string>): Result<DataType>
    decreases env.graph.Keys - stack, 0, 0
  {
    match kind
    case ScalarOf(primitive) => if primitive == KindUnspecified then Err else Ok(Primitive("", primitive))
    case EnumOf(fullName, values, closed) => Ok(Enum(fullName, fullName, values, closed))
    case MessageOf(name) =>
      if name !in env.graph || env.graph[name].extensionRanges then
        Err
      else if WellKnown(name).Some? then
        Ok(WellKnown(name).value)
      else if name in stack then
        Err
      else
        var md := env.graph[name];
        var children :- BuildFields(env, ids, md, SortedFields(md), path, i, stack + {name});
        if DistinctNames(children) then Ok(Struct(name, children)) else Err
    case OtherKind => Err
  }

  /** The messages whose fields a schema lists, by identity. */
  function Containers(g: Graph, nodes: seq<Node>): map<Identity, MessageDescriptor> {
    if nodes == [] then
      map[]
    else
      var n := nodes[|nodes| - 1];
      var before := Containers(g, nodes[..|nodes| - 1]);
      if n.field.typ.Struct? && n.field.typ.protobufType in g then
        before[n.identity := g[n.field.typ.protobufType]]
      else
        before
  }

  lemma {:induction false} AllocateSplit(env: Env, s: Ids, a: seq<Identity>, b: seq<Identity>)
    ensures AllocateAll(env, s, a + b)
         == (if AllocateAll(env, s, a).Ok? then AllocateAll(env, AllocateAll(env, s, a).value, b) else Err)
    decreases |a|
  {
    hide Allocate;
    if a == [] {
      assert a + b == b;
    } else {
      assert (a + b)[1..] == a[1..] + b;
      if Allocate(env, s, a[0]).Ok? {
        AllocateSplit(env, Allocate(env, s, a[0]).value, a[1..], b);
      }
    }
  }

  lemma {:induction false} ContainersSplit(g: Graph, a: seq<Node>, b: seq<Node>)
    ensures Containers(g, a + b) == Containers(g, a) + Containers(g, b)
  {
    if b == [] {
      assert a + b == a;
    } else {
      assert (a + b)[..|a + b| - 1] == a + b[..|b| - 1];
      ContainersSplit(g, a, b[..|b| - 1]);
    }
  }

  lemma {:induction false} IdentitiesSplit(a: seq<Node>, b: seq<Node>)
    ensures Identities(a + b) == Identities(a) + Identities(b)
  {
  }
}
