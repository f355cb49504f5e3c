/** The schema evolution compiler as functions on its explicit state. */
module SchemaCompiler {

  import opened LogicalSchema
  import opened ProtoDescriptors
  import opened ProtoNames
  import opened Results
  import opened SchemaIdentity
  import opened SchemaLedger
  import opened Sorting

  const MAX_FIXED_LENGTH := 0x7FFF_FFFF

  /** What one compilation never changes: the descriptors, the previous dataset
      and the ids a first compilation gives its top-level fields. */
  datatype Env = Env(graph: Graph, index: Index, first: map<Identity, fieldNumber>)

  type lastId = n: int | 0 <= n <= MAX_STABLE_ID

  datatype Ids = Ids(last: lastId, owners: map<int, Identity>, active: map<Identity, int32>)

  datatype State = State(ids: Ids, containers: map<Identity, MessageDescriptor>)

  datatype Compiled<+T> = Compiled(value: T, state: State)

  // ----- stable ids -----

  function Allocate(env: Env, s: Ids, i: Identity): Result<Ids> {
    if i in s.active then
      Err
    else if i in env.index.retired then
      Err
    else if i in env.index.active then
      Ok(s.(active := s.active[i := env.index.active[i].stableId]))
    else if i in env.first then
      Ok(s.(active := s.active[i := env.first[i]]))
    else if s.last == MAX_STABLE_ID then
      Err
    else if s.last + 1 in s.owners then
      Err
    else
      Ok(Ids(s.last + 1, s.owners[s.last + 1 := i], s.active[i := s.last + 1]))
  }

  // ----- storage names -----

  /** The name a field's storage name derives from: its own on first sight, the
      one it was first stored under ever after. */
  function StorageSource(env: Env, md: MessageDescriptor, fd: FieldDescriptor, i: Identity): Result<string> {
    if i !in env.index.active then
      Ok(fd.name)
    else
      var previous := env.index.active[i];
      var previousName := ShortName(previous.fullName);
      if !ValidFullName(previous.fullName) || previous.fullName != Qualified(md.fullName, previousName) then
        Err
      else if previousName != fd.name && previousName !in md.reservedNames then
        Err
      else if previous.source != fd.name && previous.source !in md.reservedNames then
        Err
      else
        Ok(previous.source)
  }

  predicate NameFree(env: Env, i: Identity, name: string) {
    (Scope(i), name) in env.index.names ==> env.index.names[(Scope(i), name)] == i
  }

  predicate DistinctNames(fields: seq<Field>) {
    && (forall k :: 0 <= k < |fields| ==> fields[k].name != "")
    && (forall j, k :: 0 <= j < k < |fields| ==> fields[j].name != fields[k].name)
  }

  // ----- evolution -----

  predicate SameEnumValue(a: EnumValue, b: EnumValue) {
    a.name == b.name && a.number == b.number
  }

  predicate ValueRetained(v: EnumValue, current: seq<EnumValue>) {
    exists k :: 0 <= k < |current| && SameEnumValue(v, current[k])
  }

  predicate ValuesRetained(previous: seq<EnumValue>, current: seq<EnumValue>) {
    forall k :: 0 <= k < |previous| ==> ValueRetained(previous[k], current)
  }

  predicate SameLogicalShape(previous: DataType, current: DataType) {
    match previous
    case Unset => current.Unset?
    case Kindless => false
    case Primitive(protobufType, kind) => current.Primitive? && current == previous
    case Enum(_, fullName, values, closed) =>
      current.Enum? && fullName == current.fullName && closed == current.closed
          && ValuesRetained(values, current.values)
    case Struct(protobufType, _) => current.Struct? && protobufType == current.protobufType
    case List(_, fixedLength) => current.List? && fixedLength == current.fixedLength
    case Map(_, _) => current.Map?
    case _ => current == previous
  }

  /** A field keeps its presence, oneof, default and logical shape. */
  predicate SameFieldShape(previous: Field, current: Field) {
    && previous.presence == current.presence
    && previous.nullable == current.nullable
    && previous.oneof == current.oneof
    && previous.hasDefault == current.hasDefault
    && previous.protobufDefault == current.protobufDefault
    && SameLogicalShape(previous.typ, current.typ)
  }

  predicate Evolves(env: Env, i: Identity, current: Field) {
    i in env.index.active ==> SameFieldShape(env.index.active[i], current)
  }

  // ----- value types without children -----

  function WellKnown(name: string): Option<DataType> {
    if name == "google.protobuf.DoubleValue" then Some(Primitive(name, Double))
    else if name == "google.protobuf.FloatValue" then Some(Primitive(name, Float))
    else if name == "google.protobuf.Int64Value" then Some(Primitive(name, Int64))
    else if name == "google.protobuf.UInt64Value" then Some(Primitive(name, UInt64))
    else if name == "google.protobuf.Int32Value" then Some(Primitive(name, Int32))
    else if name == "google.protobuf.UInt32Value" then Some(Primitive(name, UInt32))
    else if name == "google.protobuf.BoolValue" then Some(Primitive(name, Bool))
    else if name == "google.protobuf.StringValue" then Some(Primitive(name, Text))
    else if name == "google.protobuf.BytesValue" then Some(Primitive(name, Bytes))
    else if name == "google.protobuf.Timestamp" then Some(Timestamp(name, true))
    else if name == "google.protobuf.Duration" then Some(Duration(name, true))
    else if name == "google.protobuf.Any" then Some(Json(name, JsonAny))
    else if name == "google.protobuf.Struct" then Some(Json(name, JsonStruct))
    else if name == "google.protobuf.Value" then Some(Json(name, JsonValue))
    else if name == "google.protobuf.ListValue" then Some(Json(name, JsonListValue))
    else None
  }

  function RefinedType(kind: Kind, semantic: Semantic): Result<DataType> {
    match semantic
    case DecimalOf(precision, scale) =>
      if kind == ScalarOf(Text) && 1 <= precision <= 38 && scale <= precision then Ok(Decimal(precision, scale))
          else Err
    case UuidOf =>
      if kind == ScalarOf(Text) then Ok(Uuid) else Err
    case FixedBytesOf(byteLength) =>
      if kind == ScalarOf(Bytes) && 0 < byteLength <= MAX_FIXED_LENGTH then Ok(FixedBytes(byteLength)) else Err
    case NoSemantic => Err
    case OtherSemantic => Err
  }

  // ----- fields -----

  function PresenceOf(fd: FieldDescriptor): Presence {
    if fd.shape.Keyed? then MapEntries
    else if fd.shape.Many? then Repeated
    else if fd.required then Required
    else if fd.oneof != "" then OneofMember
    else if fd.hasPresence then Explicit
    else Implicit
  }

  predicate FixedListAllowed(fd: FieldDescriptor) {
    fd.options.Options? && fd.options.fixedList.Some? ==>
      && fd.shape.Many?
      && fd.options.semantic == NoSemantic
      && (fd.kind == ScalarOf(Float) || fd.kind == ScalarOf(Double))
      && 0 < fd.options.fixedList.value <= MAX_FIXED_LENGTH
  }

  predicate OptionsAllowed(fd: FieldDescriptor) {
    && !fd.options.MalformedOptions?
    && FixedListAllowed(fd)
    && (fd.options.Options? && fd.shape.One? ==> PresenceOf(fd) in {Explicit, OneofMember} && !fd.hasDefault)
    && (fd.options.Options? ==> !fd.shape.Keyed?)
  }

  /** The field a descriptor compiles to, given its id, source name and type. */
  function ProtoFieldOf(
    md: MessageDescriptor, fd: FieldDescriptor, parentPath: seq<uint32>, id: int32, source: string,
    typ: DataType): Field
  {
    Field(
      Qualified(md.fullName, fd.name), parentPath + [fd.number], StorageName(source), id, PresenceOf(fd),
      PresenceOf(fd) in {Explicit, OneofMember}, if PresenceOf(fd) == OneofMember then fd.oneof else "",
      fd.comment, typ, ProtoField, fd.hasDefault, if fd.hasDefault then fd.defaultValue else "", fd.jsonName, source)
  }

  function SyntheticFieldOf(
    fullName: string, path: seq<uint32>, name: string, id: int32, role: Role, typ: DataType): Field {
    Field(fullName, path, name, id, NotApplicable, false, "", "", typ, role, false, "", "", "")
  }

  function SyntheticName(s: Segment): string {
    match s
    case Element => "element"
    case Key => "key"
    case Value => "value"
    case Number(_) => ""
  }

  function SyntheticFullName(parent: string, s: Segment): string {
    match s
    case Element => parent + "[]"
    case Key => parent + ".key"
    case Value => parent + ".value"
    case Number(_) => parent
  }

  function FixedLength(options: Options): uint32 {
    if options.Options? && options.fixedList.Some? then options.fixedList.value else 0
  }

  /** A fixed list option refines the list, any other option its elements. */
  function ElementOptions(options: Options): Options {
    if options.Options? && options.fixedList.Some? then NoOptions else options
  }

  function SortedFields(md: MessageDescriptor): seq<FieldDescriptor> {
    SortBy(md.fields, (fd: FieldDescriptor) => fd.number)
  }

  function CompileFields(
    env: Env, st: State, md: MessageDescriptor, fds: seq<FieldDescriptor>, path: seq<uint32>, scope: Identity,
    stack: set<string>): Result<Compiled<seq<Field>>>
    decreases env.graph.Keys - stack, 4, |fds|
  {
    if fds == [] then
      Ok(Compiled([], st))
    else
      var before :- CompileFields(env, st, md, fds[..|fds| - 1], path, scope, stack);
      var last :- CompileField(env, before.state, md, fds[|fds| - 1], path, scope, stack);
      Ok(Compiled(before.value + [last.value], last.state))
  }

  function CompileField(
    env: Env, st: State, md: MessageDescriptor, fd: FieldDescriptor, parentPath: seq<uint32>, scope: Identity,
    stack: set<string>): Result<Compiled<Field>>
    decreases env.graph.Keys - stack, 3, 0
  {
    var i := scope + [Number(fd.number)];
    var ids :- Allocate(env, st.ids, i);
    var source :- StorageSource(env, md, fd, i);
    if !NameFree(env, i, StorageName(source)) || !OptionsAllowed(fd) then
      Err
    else
      var typ :- CompileShape(env, State(ids, st.containers), md, fd, parentPath + [fd.number], i, stack);
      var field := ProtoFieldOf(md, fd, parentPath, ids.active[i], source, typ.value);
      if Evolves(env, i, field) then Ok(Compiled(field, typ.state)) else Err
  }

  function CompileShape(
    env: Env, st: State, md: MessageDescriptor, fd: FieldDescriptor, path: seq<uint32>, i: Identity,
    stack: set<string>): Result<Compiled<DataType>>
    decreases env.graph.Keys - stack, 2, 1
  {
    var fullName := Qualified(md.fullName, fd.name);
    match fd.shape
    case One =>
      CompileRefined(env, st, fd.kind, path, i, stack, fd.options)
    case Many =>
      var element :- CompileSynthetic(env, st, fd.kind, fullName, path, i, Element, stack, ElementOptions(fd.options));
      Ok(Compiled(List(element.value, FixedLength(fd.options)), element.state))
    case Keyed(keyKind, valueKind) =>
      var key :- CompileSynthetic(env, st, keyKind, fullName, path, i, Key, stack, NoOptions);
      var value :- CompileSynthetic(env, key.state, valueKind, fullName, path, i, Value, stack, NoOptions);
      Ok(Compiled(Map(key.value, value.value), value.state))
  }

  function CompileSynthetic(
    env: Env, st: State, kind: Kind, fullName: string, path: seq<uint32>, parent: Identity, segment: Segment,
    stack: set<string>, options: Options): Result<Compiled<Field>>
    decreases env.graph.Keys - stack, 2, 0
  {
    var i := parent + [segment];
    var ids :- Allocate(env, st.ids, i);
    var typ :- CompileRefined(env, State(ids, st.containers), kind, path, i, stack, options);
    var field := SyntheticFieldOf(
      SyntheticFullName(fullName, segment), path, SyntheticName(segment), ids.active[i], RoleOf(segment), typ.value);
    if Evolves(env, i, field) then Ok(Compiled(field, typ.state)) else Err
  }

  function CompileRefined(
    env: Env, st: State, kind: Kind, path: seq<uint32>, i: Identity, stack: set<string>,
    options: Options): Result<Compiled<DataType>>
    decreases env.graph.Keys - stack, 1, 0
  {
    match options
    case NoOptions => CompileValue(env, st, kind, path, i, stack)
    case MalformedOptions => Err
    case Options(_, semantic) =>
      var typ :- RefinedType(kind, semantic);
      Ok(Compiled(typ, st))
  }

  function CompileValue(
    env: Env, st: State, kind: Kind, path: seq<uint32>, i: Identity, stack: set<string>): Result<Compiled<DataType>>
    decreases env.graph.Keys - stack, 0, 0
  {
    match kind
    case ScalarOf(primitive) =>
      if primitive == KindUnspecified then Err else Ok(Compiled(Primitive("", primitive), st))
    case EnumOf(fullName, values, closed) =>
      Ok(Compiled(Enum(fullName, fullName, values, closed), st))
    case MessageOf(name) =>
      if name !in env.graph || env.graph[name].extensionRanges then
        Err
      else if WellKnown(name).Some? then
        Ok(Compiled(WellKnown(name).value, st))
      else if name in stack then
        Err
      else
        var md := env.graph[name];
        var entered := State(st.ids, st.containers[i := md]);
        var children :- CompileFields(env, entered, md, SortedFields(md), path, i, stack + {name});
        if DistinctNames(children.value) then Ok(Compiled(Struct(name, children.value), children.state)) else Err
    case OtherKind => Err
  }

  // ----- whole datasets -----

  /** A first compilation reserves the top-level field numbers as stable ids. */
  function FirstIds(fds: seq<FieldDescriptor>): map<Identity, fieldNumber> {
    if fds == [] then
      map[]
    else
      FirstIds(fds[..|fds| - 1])[[Number(fds[|fds| - 1].number)] := fds[|fds| - 1].number]
  }

  function FirstOwners(fds: seq<FieldDescriptor>): map<int, Identity> {
    if fds == [] then
      map[]
    else
      FirstOwners(fds[..|fds| - 1])[fds[|fds| - 1].number := [Number(fds[|fds| - 1].number)]]
  }

  function HighestNumber(fds: seq<FieldDescriptor>): lastId {
    if fds == [] then
      0
    else
      var rest := HighestNumber(fds[..|fds| - 1]);
      if fds[|fds| - 1].number > rest then fds[|fds| - 1].number else rest
  }

  const NO_HISTORY := Index(map[], map[], map[])

  function EnvOf(g: Graph, md: MessageDescriptor, previous: Option<Dataset>): Env {
    match previous
    case None => Env(g, NO_HISTORY, FirstIds(SortedFields(md)))
    case Some(d) => Env(g, IndexOf(d), map[])
  }

  function StartOf(md: MessageDescriptor, previous: Option<Dataset>): State
    requires previous.Some? ==> 0 <= previous.value.lastFieldId <= MAX_STABLE_ID
  {
    var ids :=
      match previous
      case None => Ids(HighestNumber(SortedFields(md)), FirstOwners(SortedFields(md)), map[])
      case Some(d) => Ids(d.lastFieldId, Owners(Ledger(d)), map[]);
    State(ids, map[[] := md])
  }

  /** The previously active identities that the current compilation dropped. */
  function Dropped(nodes: seq<Node>, active: map<Identity, int32>): seq<Entry> {
    if nodes == [] then
      []
    else
      var last := nodes[|nodes| - 1];
      Dropped(nodes[..|nodes| - 1], active) + if last.identity in active then [] else [EntryOf(last)]
  }

  function RetiredAfter(previous: Option<Dataset>, active: map<Identity, int32>): seq<Entry> {
    match previous
    case None => []
    case Some(d) => SortBy(d.retired + Dropped(NodesOf(d), active), IdOf)
  }

  /** While its containing message is reachable, a removed field's number, exact
      name and storage-name source stay reserved there. */
  predicate Reserved(containers: map<Identity, MessageDescriptor>, e: Entry) {
    && ValidIdentity(e.identity)
    && (Last(e.identity).Number? && Scope(e.identity) in containers ==>
          var container := containers[Scope(e.identity)];
          var name := ShortName(e.fullName);
          && ValidFullName(e.fullName)
          && e.fullName == Qualified(container.fullName, name)
          && Last(e.identity).n in container.reservedNumbers
          && name in container.reservedNames
          && (e.source == name || e.source in container.reservedNames))
  }

  function CompileMessage(g: Graph, root: string, previous: Option<Dataset>): Result<Dataset> {
    if root !in g || g[root].mapEntry || StorageName(g[root].fullName) == "" || g[root].extensionRanges then
      Err
    else if previous.Some? && !ValidDataset(previous.value, g[root].fullName) then
      Err
    else
      var md := g[root];
      var env := EnvOf(g, md, previous);
      var compiled :- CompileFields(env, StartOf(md, previous), md, SortedFields(md), [], [], {md.fullName});
      var ids := compiled.state.ids;
      var retired := RetiredAfter(previous, ids.active);
      if DistinctNames(compiled.value) && forall k :: 0 <= k < |retired| ==>
          Reserved(compiled.state.containers, retired[k]) then
        Ok(Dataset(md.fullName, StorageName(md.fullName), md.comment, compiled.value, ids.last, retired))
      else
        Err
  }
}
