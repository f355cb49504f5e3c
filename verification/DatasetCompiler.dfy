/** The compiler as the object it is: a loader that fills its tables from the
    previous dataset, and methods that allocate, descend and restore the stack
    in place. */
module DatasetCompilers {

  import opened LogicalSchema
  import opened ProtoDescriptors
  import opened ProtoNames
  import opened Results
  import C = SchemaCompiler
  import opened SchemaIdentity
  import opened SchemaLedger
  import opened SchemaEvolution
  import opened SchemaIndex
  import opened SchemaLoading
  import opened SchemaRetiring
  import opened Sorting
  import opened Tables

  class DatasetCompiler {
    const graph: Graph
    var previousFields: map<Identity, Field>
    var retired: map<Identity, Entry>
    var historicalNames: map<(Identity, string), Identity>
    var firstTopLevelIds: map<Identity, fieldNumber>
    var reservedIds: map<int, Identity>
    var lastId: C.lastId
    var currentActive: map<Identity, int32>
    var currentContainers: map<Identity, MessageDescriptor>
    var stack: set<string>

    ghost function Env(): C.Env
      reads `previousFields, `retired, `historicalNames, `firstTopLevelIds
    {
      C.Env(graph, Index(previousFields, retired, historicalNames), firstTopLevelIds)
    }

    ghost function Ids(): C.Ids
      reads `lastId, `reservedIds, `currentActive
    {
      C.Ids(lastId, reservedIds, currentActive)
    }

    ghost function State(): C.State
      reads `lastId, `reservedIds, `currentActive, `currentContainers
    {
      C.State(Ids(), currentContainers)
    }

    constructor (graph: Graph, md: MessageDescriptor)
      ensures this.graph == graph
      ensures Loaded([], []) && firstTopLevelIds == map[] && lastId == 0
      ensures currentActive == map[] && currentContainers == map[[] := md] && stack == {}
    {
      this.graph := graph;
      previousFields, retired, historicalNames, firstTopLevelIds := map[], map[], map[], map[];
      reservedIds, lastId, currentActive := map[], 0, map[];
      currentContainers := map[[] := md];
      stack := {};
    }

    // ----- loading the previous dataset -----

    /** The tables hold exactly these retired entries and active fields. */
    ghost predicate Loaded(entries: seq<Entry>, nodes: seq<Node>)
      reads `previousFields, `retired, `historicalNames, `reservedIds
    {
      && retired == Retired(entries)
      && previousFields == Active(nodes)
      && historicalNames == NameOwners(entries + Entries(nodes))
      && reservedIds == Owners(entries + Entries(nodes))
    }

    /** registerHistoricalName. */
    method RegisterHistoricalName(identity: Identity, name: string) returns (ok: bool)
      modifies `historicalNames
      ensures ok <==>
        (Scope(identity), name) !in old(historicalNames) || old(historicalNames)[(Scope(identity), name)] == identity
      ensures ok ==> historicalNames == old(historicalNames)[(Scope(identity), name) := identity]
    {
      var key := (Scope(identity), name);
      if key in historicalNames && historicalNames[key] != identity {
        return false;
      }
      historicalNames := historicalNames[key := identity];
      ok := true;
    }

    method LoadRetired(entries: seq<Entry>) returns (ok: bool)
      requires Loaded([], [])
      modifies `retired, `historicalNames, `reservedIds
      ensures ok <==> ValidLedger(entries)
      ensures ok ==> Loaded(entries, [])
    {
      hide StorageName, ValidName, ValidFullName, Active, Retired, NameOwners, Owners, Entries, ValidLedger;
      NothingLoaded();
      for k := 0 to |entries|
        invariant ValidLedger(entries[..k]) && Loaded(entries[..k], [])
      {
        var e := entries[k];
        ghost var done := entries[..k];
        assert entries[..k + 1] == done + [e];
        RetiredStored(done, e);
        RegisterIff(done, [], e);
        if e.identity == [] || !(1 <= e.id <= MAX_STABLE_ID) || e.identity in retired || e.id in reservedIds
            || !OwnedName(e) {
          ok := false;
          PrefixInvalid(entries, k + 1);
          return;
        }
        ok := RegisterHistoricalName(e.identity, e.name);
        if !ok {
          PrefixInvalid(entries, k + 1);
          return;
        }
        retired := retired[e.identity := e];
        reservedIds := reservedIds[e.id := e.identity];
      }
      assert entries[..|entries|] == entries;
      ok := true;
    }

    /** indexPreviousField. */
    method IndexField(
      f: Field, parentPath: seq<uint32>, parent: Identity, role: Role, ghost entries: seq<Entry>,
      ghost nodes: seq<Node>)
      returns (ok: bool)
      requires Loaded(entries, nodes) && ValidLedger(entries + Entries(nodes))
      requires role in {ProtoField, ListElement, MapKey, MapValue}
      modifies `previousFields, `historicalNames, `reservedIds
      ensures ok <==> Placed(f, parentPath, role) && ValidLedger(entries + Entries(nodes + FieldNodes(f, parent)))
      ensures ok ==> Loaded(entries, nodes + FieldNodes(f, parent))
      decreases f, 1
    {
      hide ValidLedger, TypeNodes, FieldNodes, TypePlaced, OwnedName, Active, Retired, NameOwners, Owners, Entries;
      if f.role != role
         || (if role == ProtoField then f.path == [] || f.path[..|f.path| - 1] != parentPath
             else f.path != parentPath) {
        return false;
      }
      var identity := parent + [SegmentOf(f)];
      ghost var n := Node(identity, f);
      ghost var more := nodes + [n];
      RegisterIff(entries, nodes, EntryOf(n));
      FieldNodesPrefix(entries, nodes, f, parent);
      if !(1 <= f.stableId <= MAX_STABLE_ID) || identity in retired || identity in previousFields
          || f.stableId in reservedIds
         || !OwnedName(Entry(identity, f.stableId, f.fullName, f.name, f.source)) {
        return false;
      }
      ok := RegisterHistoricalName(identity, f.name);
      if !ok {
        return;
      }
      previousFields := previousFields[identity := f];
      reservedIds := reservedIds[f.stableId := identity];
      NodeStored(entries, nodes, n);
      FieldNodesJoin(nodes, f, parent);
      ok := IndexType(f.typ, f.path, identity, entries, more);
    }

    method IndexType(
      t: DataType, path: seq<uint32>, identity: Identity, ghost entries: seq<Entry>, ghost nodes: seq<Node>)
      returns (ok: bool)
      requires Loaded(entries, nodes) && ValidLedger(entries + Entries(nodes))
      modifies `previousFields, `historicalNames, `reservedIds
      ensures ok <==> TypePlaced(t, path) && ValidLedger(entries + Entries(nodes + TypeNodes(t, identity)))
      ensures ok ==> Loaded(entries, nodes + TypeNodes(t, identity))
      decreases t, 0
    {
      hide ValidLedger, FieldNodes, Nodes, Placed, AllPlaced, Active, Retired, NameOwners, Owners, Entries;
      match t {
        case Unset =>
          ok := false;
        case Struct(_, fields) =>
          ok := IndexFields(fields, path, identity, entries, nodes);
        case List(element, _) =>
          ok := IndexField(element, path, identity, ListElement, entries, nodes);
        case Map(key, value) =>
          ok := IndexField(key, path, identity, MapKey, entries, nodes);
          ghost var keyed := nodes + FieldNodes(key, identity);
          assert keyed + FieldNodes(value, identity) == nodes + TypeNodes(t, identity);
          PartInvalid(entries, keyed, FieldNodes(value, identity));
          if ok {
            ok := IndexField(value, path, identity, MapValue, entries, keyed);
          }
        case _ =>
          assert TypeNodes(t, identity) == [];
          assert nodes + [] == nodes;
          ok := true;
      }
    }

    method IndexFields(
      fields: seq<Field>, path: seq<uint32>, scope: Identity, ghost entries: seq<Entry>, ghost nodes: seq<Node>)
      returns (ok: bool)
      requires Loaded(entries, nodes) && ValidLedger(entries + Entries(nodes))
      modifies `previousFields, `historicalNames, `reservedIds
      ensures ok <==> AllPlaced(fields, path) && ValidLedger(entries + Entries(nodes + Nodes(fields, scope)))
      ensures ok ==> Loaded(entries, nodes + Nodes(fields, scope))
      decreases fields, 2
    {
      hide ValidLedger, FieldNodes, Nodes, Placed, AllPlaced, Active, Retired, NameOwners, Owners, Entries;
      NoFields(nodes, fields, scope, path);
      for k := 0 to |fields|
        invariant AllPlaced(fields[..k], path)
        invariant ValidLedger(entries + Entries(nodes + Nodes(fields[..k], scope)))
        invariant Loaded(entries, nodes + Nodes(fields[..k], scope))
      {
        FieldsStep(nodes, fields, scope, path, k);
        ok := IndexField(fields[k], path, scope, ProtoField, entries, nodes + Nodes(fields[..k], scope));
        if !ok {
          FieldsInvalid(entries, nodes, fields, scope, path, k);
          return;
        }
      }
      assert fields[..|fields|] == fields;
      ok := true;
    }

    method HighestReserved() returns (highest: int)
      ensures highest >= 0 && forall id :: id in reservedIds ==> id <= highest
      ensures highest > 0 ==> highest in reservedIds
    {
      highest := 0;
      var pending := reservedIds.Keys;
      while pending != {}
        invariant pending <= reservedIds.Keys && highest >= 0
        invariant forall id :: id in reservedIds && id !in pending ==> id <= highest
        invariant highest > 0 ==> highest in reservedIds
        decreases |pending|
      {
        ghost var some := Member(pending);
        var id :| id in pending;
        pending := pending - {id};
        if id > highest {
          highest := id;
        }
      }
    }

    /** newDatasetCompiler's re-validation of the previous dataset. */
    method Load(previous: Dataset, message: string) returns (ok: bool)
      requires Loaded([], [])
      modifies `previousFields, `retired, `historicalNames, `reservedIds, `lastId
      ensures ok <==> ValidDataset(previous, message)
      ensures ok ==> Loaded(previous.retired, NodesOf(previous)) && lastId == previous.lastFieldId
    {
      hide ValidLedger, AllPlaced, Nodes, Entries, Active, Retired, NameOwners, Owners, StorageName, Highest;
      if previous.sourceMessage != message || previous.name != StorageName(previous.sourceMessage)
         || previous.lastFieldId < 0 || previous.lastFieldId > MAX_STABLE_ID {
        return false;
      }
      lastId := previous.lastFieldId;
      ok := LoadRetired(previous.retired);
      LedgerPrefix(previous);
      if !ok {
        return;
      }
      assert previous.retired + Entries([]) == previous.retired;
      ok := IndexFields(previous.fields, [], [], previous.retired, []);
      assert [] + Nodes(previous.fields, []) == NodesOf(previous);
      if !ok {
        return;
      }
      var highest := HighestReserved();
      HighestOfOwners(Ledger(previous), highest);
      ok := lastId == highest;
    }

    // ----- compiling -----

    method Allocate(i: Identity) returns (r: Result<int32>)
      modifies `lastId, `reservedIds, `currentActive
      ensures r.Ok? <==> C.Allocate(Env(), old(Ids()), i).Ok?
      ensures r.Ok? ==> C.Allocate(Env(), old(Ids()), i) == Ok(Ids())
      ensures r.Ok? ==> i in currentActive && currentActive[i] == r.value
    {
      if i in currentActive || i in retired {
        return Err;
      }
      if i in previousFields {
        currentActive := currentActive[i := previousFields[i].stableId];
        return Ok(previousFields[i].stableId);
      }
      if i in firstTopLevelIds {
        currentActive := currentActive[i := firstTopLevelIds[i]];
        return Ok(firstTopLevelIds[i]);
      }
      if lastId == MAX_STABLE_ID {
        return Err;
      }
      lastId := lastId + 1;
      if lastId in reservedIds {
        return Err;
      }
      reservedIds := reservedIds[lastId := i];
      currentActive := currentActive[i := lastId];
      r := Ok(lastId);
    }

    method StorageFieldName(i: Identity, md: MessageDescriptor, fd: FieldDescriptor) returns (r: Result<string>)
      ensures r == C.StorageSource(Env(), md, fd, i) ||
              (r == Err && C.StorageSource(Env(), md, fd, i).Ok?
                        && !C.NameFree(Env(), i, StorageName(C.StorageSource(Env(), md, fd, i).value)))
      ensures r.Ok? ==> C.NameFree(Env(), i, StorageName(r.value))
    {
      hide ValidFullName, ShortName, StorageName;
      var source := fd.name;
      if i in previousFields {
        var previous := previousFields[i];
        if !ValidFullName(previous.fullName) {
          return Err;
        }
        var previousName := ShortName(previous.fullName);
        if previous.fullName != Qualified(md.fullName, previousName) {
          return Err;
        }
        if previousName != fd.name && previousName !in md.reservedNames {
          return Err;
        }
        source := previous.source;
        if source != fd.name && source !in md.reservedNames {
          return Err;
        }
      }
      var key := (Scope(i), StorageName(source));
      if key in historicalNames && historicalNames[key] != i {
        return Err;
      }
      r := Ok(source);
    }

    method CompileProtoField(md: MessageDescriptor, fd: FieldDescriptor, parentPath: seq<uint32>, scope: Identity)
      returns (r: Result<Field>)
      modifies `lastId, `reservedIds, `currentActive, `currentContainers, `stack
      ensures stack == old(stack)
      ensures Agrees(r, State(), C.CompileField(Env(), old(State()), md, fd, parentPath, scope, old(stack)))
      decreases graph.Keys - stack, 3, 0
    {
      hide C.Allocate, C.StorageSource, C.NameFree, C.CompileShape, C.OptionsAllowed, C.SameFieldShape, StorageName;
      var i := scope + [Number(fd.number)];
      var id := Allocate(i);
      if id.Err? {
        return Err;
      }
      var source := StorageFieldName(i, md, fd);
      if source.Err? || !C.OptionsAllowed(fd) {
        return Err;
      }
      var typ := CompileShape(md, fd, parentPath + [fd.number], i);
      if typ.Err? {
        return Err;
      }
      var field := C.ProtoFieldOf(md, fd, parentPath, id.value, source.value, typ.value);
      if i in previousFields && !C.SameFieldShape(previousFields[i], field) {
        return Err;
      }
      r := Ok(field);
    }

    /** compileMapType, compileListType and the singular case. */
    method CompileShape(
      md: MessageDescriptor, fd: FieldDescriptor, path: seq<uint32>, i: Identity) returns (r: Result<DataType>)
      modifies `lastId, `reservedIds, `currentActive, `currentContainers, `stack
      ensures stack == old(stack)
      ensures Agrees(r, State(), C.CompileShape(Env(), old(State()), md, fd, path, i, old(stack)))
      decreases graph.Keys - stack, 2, 1
    {
      hide C.CompileSynthetic, C.CompileRefined;
      var fullName := Qualified(md.fullName, fd.name);
      match fd.shape {
        case One =>
          r := CompileRefinedValueType(fd.kind, path, i, fd.options);
        case Many =>
          var element := CompileSyntheticField(fd.kind, fullName, path, i, Element, C.ElementOptions(fd.options));
          if element.Err? {
            return Err;
          }
          r := Ok(List(element.value, C.FixedLength(fd.options)));
        case Keyed(keyKind, valueKind) =>
          var key := CompileSyntheticField(keyKind, fullName, path, i, Key, NoOptions);
          if key.Err? {
            return Err;
          }
          var value := CompileSyntheticField(valueKind, fullName, path, i, Value, NoOptions);
          if value.Err? {
            return Err;
          }
          r := Ok(Map(key.value, value.value));
      }
    }

    method CompileSyntheticField(
      kind: Kind, fullName: string, path: seq<uint32>, parent: Identity, segment: Segment, options: Options)
      returns (r: Result<Field>)
      modifies `lastId, `reservedIds, `currentActive, `currentContainers, `stack
      ensures stack == old(stack)
      ensures Agrees(
        r, State(), C.CompileSynthetic(Env(), old(State()), kind, fullName, path, parent, segment, old(stack), options))
      decreases graph.Keys - stack, 2, 0
    {
      hide C.Allocate, C.CompileRefined, C.SameFieldShape, C.SyntheticFieldOf, C.SyntheticFullName, C.SyntheticName,
           RoleOf;
      var i := parent + [segment];
      var id := Allocate(i);
      if id.Err? {
        return Err;
      }
      var typ := CompileRefinedValueType(kind, path, i, options);
      if typ.Err? {
        return Err;
      }
      var field := C.SyntheticFieldOf(
        C.SyntheticFullName(fullName, segment), path, C.SyntheticName(segment), id.value, RoleOf(segment), typ.value);
      if i in previousFields && !C.SameFieldShape(previousFields[i], field) {
        return Err;
      }
      r := Ok(field);
    }

    method CompileRefinedValueType(
      kind: Kind, path: seq<uint32>, i: Identity, options: Options) returns (r: Result<DataType>)
      modifies `lastId, `reservedIds, `currentActive, `currentContainers, `stack
      ensures stack == old(stack)
      ensures Agrees(r, State(), C.CompileRefined(Env(), old(State()), kind, path, i, old(stack), options))
      decreases graph.Keys - stack, 1, 0
    {
      hide C.CompileValue;
      match options {
        case NoOptions =>
          r := CompileValueType(kind, path, i);
        case MalformedOptions =>
          r := Err;
        case Options(_, semantic) =>
          r := C.RefinedType(kind, semantic);
      }
    }

    method CompileValueType(kind: Kind, path: seq<uint32>, i: Identity) returns (r: Result<DataType>)
      modifies `lastId, `reservedIds, `currentActive, `currentContainers, `stack
      ensures stack == old(stack)
      ensures Agrees(r, State(), C.CompileValue(Env(), old(State()), kind, path, i, old(stack)))
      decreases graph.Keys - stack, 0, 0
    {
      hide C.CompileFields, C.WellKnown, C.DistinctNames;
      match kind {
        case ScalarOf(primitive) =>
          r := if primitive == KindUnspecified then Err else Ok(Primitive("", primitive));
        case EnumOf(fullName, values, closed) =>
          r := Ok(Enum(fullName, fullName, values, closed));
        case MessageOf(name) =>
          if name !in graph || graph[name].extensionRanges {
            return Err;
          }
          if C.WellKnown(name).Some? {
            return Ok(C.WellKnown(name).value);
          }
          currentContainers := currentContainers[i := graph[name]];
          if name in stack {
            return Err;
          }
          stack := stack + {name};
          var children := CompileChildren(graph[name], path, i);
          stack := stack - {name};
          if children.Err? || !C.DistinctNames(children.value) {
            return Err;
          }
          r := Ok(Struct(name, children.value));
        case OtherKind =>
          r := Err;
      }
    }

    /** The loop over a message's fields in number order. */
    method CompileChildren(md: MessageDescriptor, path: seq<uint32>, scope: Identity) returns (r: Result<seq<Field>>)
      modifies `lastId, `reservedIds, `currentActive, `currentContainers, `stack
      ensures stack == old(stack)
      ensures Agrees(r, State(), C.CompileFields(Env(), old(State()), md, C.SortedFields(md), path, scope, old(stack)))
      decreases graph.Keys - stack, 4, 0
    {
      hide C.CompileField, C.SortedFields, C.CompileFields;
      var fds := C.SortedFields(md);
      var children: seq<Field> := [];
      NoChildren(Env(), State(), md, fds, path, scope, stack);
      for k := 0 to |fds|
        invariant stack == old(stack)
        invariant C.CompileFields(Env(), old(State()), md, fds[..k], path, scope, stack)
                == Ok(C.Compiled(children, State()))
      {
        ChildStep(Env(), old(State()), md, fds, path, scope, stack, k);
        var child := CompileProtoField(md, fds[k], path, scope);
        if child.Err? {
          ChildFails(Env(), old(State()), md, fds, path, scope, stack, k);
          return Err;
        }
        children := children + [child.value];
      }
      assert fds[..|fds|] == fds;
      r := Ok(children);
    }

    /** A first compilation reserves its top-level numbers before it allocates. */
    method ReserveTopLevel(md: MessageDescriptor)
      requires reservedIds == map[] && firstTopLevelIds == map[] && lastId == 0
      modifies `firstTopLevelIds, `reservedIds, `lastId
      ensures firstTopLevelIds == C.FirstIds(C.SortedFields(md))
      ensures reservedIds == C.FirstOwners(C.SortedFields(md)) && lastId == C.HighestNumber(C.SortedFields(md))
    {
      hide C.SortedFields;
      var fds := C.SortedFields(md);
      for k := 0 to |fds|
        invariant firstTopLevelIds == C.FirstIds(fds[..k])
        invariant reservedIds == C.FirstOwners(fds[..k]) && lastId == C.HighestNumber(fds[..k])
      {
        assert fds[..k + 1][..k] == fds[..k];
        var id := fds[k].number;
        var identity := [Number(fds[k].number)];
        firstTopLevelIds := firstTopLevelIds[identity := id];
        reservedIds := reservedIds[id := identity];
        if id > lastId {
          lastId := id;
        }
      }
      assert fds[..|fds|] == fds;
    }

    /** Loads the previous dataset, or reserves the first ids. */
    method Begin(md: MessageDescriptor, previous: Option<Dataset>) returns (ok: bool)
      requires Loaded([], []) && firstTopLevelIds == map[] && lastId == 0
      requires currentActive == map[] && currentContainers == map[[] := md]
      modifies `previousFields, `retired, `historicalNames, `firstTopLevelIds, `reservedIds, `lastId
      ensures ok <==> (previous.Some? ==> ValidDataset(previous.value, md.fullName))
      ensures ok && previous.Some? ==> 0 <= previous.value.lastFieldId <= MAX_STABLE_ID
      ensures ok ==> Env() == C.EnvOf(graph, md, previous) && State() == C.StartOf(md, previous)
    {
      hide ValidDataset, C.FirstIds, C.FirstOwners, C.HighestNumber, C.SortedFields, Ledger, NameOwners, Owners, Active,
           Retired, NodesOf;
      EmptyTables();
      match previous {
        case None =>
          ReserveTopLevel(md);
          ok := true;
        case Some(d) =>
          ok := Load(d, md.fullName);
          LedgerIs(d);
      }
    }

    /** The retired fields of the output, in id order. */
    method Retire(md: MessageDescriptor, previous: Option<Dataset>) returns (list: seq<Entry>)
      requires Env().index == C.EnvOf(graph, md, previous).index
      requires previous.Some? ==> ValidLedger(Ledger(previous.value))
      ensures list == C.RetiredAfter(previous, currentActive)
    {
      hide ValidLedger, Ledger, NameOwners, NodesOf, Active, Retired, C.FirstIds, C.SortedFields, SortBy,
           C.RetiredAfter;
      RetiredKeyed(graph, md, previous);
      list := CollectRetired();
      if previous.Some? {
        AnyOrderSorts(previous.value, currentActive, list);
      } else {
        NothingListed(list, currentActive);
      }
      list := SortBy(list, IdOf);
    }

    /** The retired table after this compilation, listed in any order. */
    method CollectRetired() returns (list: seq<Entry>)
      requires forall i :: i in retired ==> retired[i].identity == i
      ensures Lists(list, RetiredTable(Env().index, currentActive))
    {
      hide DroppedTable;
      var all := retired;
      var pending := previousFields.Keys;
      DropNone(retired, previousFields, currentActive);
      while pending != {}
        invariant pending <= previousFields.Keys
        invariant all == retired + DroppedTable(previousFields, currentActive, pending)
        decreases |pending|
      {
        ghost var some := Member(pending);
        var i :| i in pending;
        DropStep(retired, previousFields, currentActive, pending, i);
        pending := pending - {i};
        if i !in currentActive {
          all := all[i := EntryOf(Node(i, previousFields[i]))];
        }
      }
      TableKeyed(Env().index, currentActive);
      assert all == RetiredTable(Env().index, currentActive);
      list := ListTable(all);
    }
  }

  /** Enumerates a table in an order it does not choose. */
  method ListTable(table: map<Identity, Entry>) returns (list: seq<Entry>)
    requires forall i :: i in table ==> table[i].identity == i
    ensures Lists(list, table)
  {
    list := [];
    var pending := table.Keys;
    while pending != {}
      invariant pending <= table.Keys
      invariant forall e :: e in list <==> e.identity in table && e.identity !in pending && table[e.identity] == e
      invariant forall j, k :: 0 <= j < k < |list| ==> list[j] != list[k]
      invariant |list| + |pending| == |table|
      decreases |pending|
    {
      ghost var some := Member(pending);
      var i :| i in pending;
      pending := pending - {i};
      assert table[i] !in list;
      list := list + [table[i]];
    }
  }

  /** CompileMessage. */
  method CompileDataset(graph: Graph, root: string, previous: Option<Dataset>) returns (r: Result<Dataset>)
    ensures r == C.CompileMessage(graph, root, previous)
  {
    hide StorageName, ValidDataset, C.CompileFields, C.FirstIds, C.FirstOwners, C.HighestNumber, C.SortedFields,
         C.DistinctNames, Ledger, NodesOf, NameOwners, Owners, Active, Retired, C.RetiredAfter, C.Reserved;
    if root !in graph || graph[root].mapEntry || StorageName(graph[root].fullName) == ""
        || graph[root].extensionRanges {
      return Err;
    }
    var md := graph[root];
    var c := new DatasetCompiler(graph, md);
    var started := c.Begin(md, previous);
    if !started {
      return Err;
    }
    c.stack := {md.fullName};
    var compiled := c.CompileChildren(md, [], []);
    if compiled.Err? || !C.DistinctNames(compiled.value) {
      return Err;
    }
    if previous.Some? {
      LedgerOf(previous.value, md.fullName);
    }
    var retired := c.Retire(md, previous);
    for k := 0 to |retired|
      invariant forall j :: 0 <= j < k ==> C.Reserved(c.currentContainers, retired[j])
    {
      if !C.Reserved(c.currentContainers, retired[k]) {
        return Err;
      }
    }
    r := Ok(Dataset(md.fullName, StorageName(md.fullName), md.comment, compiled.value, c.lastId, retired));
  }

  /** A method's result and final state are what the function says. */
  ghost predicate Agrees<T>(r: Result<T>, st: C.State, spec: Result<C.Compiled<T>>) {
    match spec
    case Err => r.Err?
    case Ok(compiled) => r.Ok? && compiled == C.Compiled(r.value, st)
  }

  lemma {:induction false} NoChildren(
    env: C.Env, st: C.State, md: MessageDescriptor, fds: seq<FieldDescriptor>, path: seq<uint32>, scope: Identity,
    stack: set<string>)
    ensures C.CompileFields(env, st, md, fds[..0], path, scope, stack) == Ok(C.Compiled([], st))
  {
  }

  lemma {:induction false} ChildStep(
    env: C.Env, st: C.State, md: MessageDescriptor, fds: seq<FieldDescriptor>, path: seq<uint32>, scope: Identity,
    stack: set<string>, k: nat)
    requires k < |fds| && C.CompileFields(env, st, md, fds[..k], path, scope, stack).Ok?
    ensures var before := C.CompileFields(env, st, md, fds[..k], path, scope, stack).value;
            C.CompileFields(env, st, md, fds[..k + 1], path, scope, stack) ==
              match C.CompileField(env, before.state, md, fds[k], path, scope, stack)
              case Err => Err
              case Ok(last) => Ok(C.Compiled(before.value + [last.value], last.state))
  {
    hide C.CompileField;
    var upto := fds[..k + 1];
    assert upto[..|upto| - 1] == fds[..k] && upto[|upto| - 1] == fds[k];
  }

  lemma {:induction false} ChildFails(
    env: C.Env, st: C.State, md: MessageDescriptor, fds: seq<FieldDescriptor>, path: seq<uint32>, scope: Identity,
    stack: set<string>, k: nat)
    requires k < |fds| && C.CompileFields(env, st, md, fds[..k + 1], path, scope, stack).Err?
    ensures C.CompileFields(env, st, md, fds, path, scope, stack).Err?
    decreases |fds| - k
  {
    hide C.CompileField;
    if k + 1 == |fds| {
      assert fds[..k + 1] == fds;
    } else {
      var upto := fds[..k + 2];
      assert upto[..|upto| - 1] == fds[..k + 1];
      ChildFails(env, st, md, fds, path, scope, stack, k + 1);
    }
  }

  lemma {:induction false} EmptyTables()
    ensures Retired([]) == map[] && Active([]) == map[]
    ensures NameOwners([] + Entries([])) == map[] && Owners([] + Entries([])) == map[]
  {
  }

  lemma {:induction false} LedgerIs(d: Dataset)
    ensures d.retired + Entries(NodesOf(d)) == Ledger(d)
  {
    hide NodesOf;
  }

  lemma {:induction false} RetiredKeyed(g: Graph, md: MessageDescriptor, previous: Option<Dataset>)
    requires previous.Some? ==> ValidLedger(Ledger(previous.value))
    ensures var retired := C.EnvOf(g, md, previous).index.retired; forall i :: i in retired ==> retired[i].identity == i
  {
    hide ValidLedger, Ledger, NodesOf, NameOwners, Active, Retired, C.FirstIds, C.SortedFields;
    var retired := C.EnvOf(g, md, previous).index.retired;
    forall i | i in retired
      ensures retired[i].identity == i
    {
      var k := RetiredEntry(previous.value, i);
    }
  }

  lemma {:induction false} NothingListed(list: seq<Entry>, active: map<Identity, int32>)
    requires Lists(list, RetiredTable(C.NO_HISTORY, active))
    ensures list == [] && SortBy(list, IdOf) == [] == C.RetiredAfter(None, active)
  {
    assert RetiredTable(C.NO_HISTORY, active) == map[];
  }
}
