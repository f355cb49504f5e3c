/** What a compiled dataset records for life: every identity it ever allocated,
    active or retired, with its stable id and its storage name. */
module SchemaLedger {

  import opened LogicalSchema
  import opened ProtoNames
  import opened SchemaIdentity
  import opened Tables

  const MAX_STABLE_ID := 2147483447

  /** One allocated identity; a retired field is stored as exactly this. */
  datatype Entry = Entry(identity: Identity, id: int, fullName: string, name: string, source: string)

  datatype Dataset = Dataset(
    sourceMessage: string,
    name: string,
    description: string,
    fields: seq<Field>,
    lastFieldId: int,
    retired: seq<Entry>)

  // ----- active fields in preorder -----

  datatype Node = Node(identity: Identity, field: Field)

  function SegmentOf(f: Field): Segment {
    match f.role
    case ListElement => Element
    case MapKey => Key
    case MapValue => Value
    case _ => Number(if f.path == [] then 0 else f.path[|f.path| - 1])
  }

  function Nodes(fields: seq<Field>, scope: Identity): seq<Node>
    decreases fields
  {
    if fields == [] then
      []
    else
      Nodes(fields[..|fields| - 1], scope) + FieldNodes(fields[|fields| - 1], scope)
  }

  function FieldNodes(f: Field, scope: Identity): seq<Node>
    decreases f, 1
  {
    [Node(scope + [SegmentOf(f)], f)] + TypeNodes(f.typ, scope + [SegmentOf(f)])
  }

  function TypeNodes(t: DataType, at: Identity): seq<Node>
    decreases t, 0
  {
    match t
    case Struct(_, fields) => Nodes(fields, at)
    case List(element, _) => FieldNodes(element, at)
    case Map(key, value) => FieldNodes(key, at) + FieldNodes(value, at)
    case _ => []
  }

  function EntryOf(n: Node): Entry {
    Entry(n.identity, n.field.stableId, n.field.fullName, n.field.name, n.field.source)
  }

  function Entries(nodes: seq<Node>): (r: seq<Entry>)
    ensures |r| == |nodes| && forall k :: 0 <= k < |r| ==> r[k] == EntryOf(nodes[k])
  {
    seq(|nodes|, k requires 0 <= k < |nodes| => EntryOf(nodes[k]))
  }

  function NodesOf(d: Dataset): seq<Node> {
    Nodes(d.fields, [])
  }

  /** Everything ever allocated, retired fields first. */
  function Ledger(d: Dataset): seq<Entry> {
    d.retired + Entries(NodesOf(d))
  }

  // ----- what a reloaded dataset must satisfy -----

  /** Roles, number paths and the presence of every logical type. */
  predicate Placed(f: Field, parentPath: seq<uint32>, role: Role)
    decreases f, 1
  {
    && f.role == role
    && (if role == ProtoField then f.path != [] && f.path[..|f.path| - 1] == parentPath else f.path == parentPath)
    && TypePlaced(f.typ, f.path)
  }

  predicate TypePlaced(t: DataType, path: seq<uint32>)
    decreases t, 0
  {
    match t
    case Unset => false
    case Struct(_, fields) => AllPlaced(fields, path)
    case List(element, _) => Placed(element, path, ListElement)
    case Map(key, value) => Placed(key, path, MapKey) && Placed(value, path, MapValue)
    case _ => true
  }

  predicate AllPlaced(fields: seq<Field>, path: seq<uint32>)
    decreases fields, 2
  {
    forall i :: 0 <= i < |fields| ==> Placed(fields[i], path, ProtoField)
  }

  predicate OwnedName(e: Entry) {
    && ValidIdentity(e.identity)
    && e.fullName != ""
    && e.name != ""
    && match Last(e.identity)
       case Number(_) => ValidFullName(e.fullName) && ValidName(e.source) && e.name == StorageName(e.source)
       case Element => e.name == "element" && e.source == ""
       case Key => e.name == "key" && e.source == ""
       case Value => e.name == "value" && e.source == ""
  }

  predicate SoundEntry(e: Entry) {
    1 <= e.id <= MAX_STABLE_ID && OwnedName(e)
  }

  /** Two entries of one ledger: different identities, ids and scoped names. */
  predicate Separate(a: Entry, b: Entry) {
    a.identity != b.identity && a.id != b.id && NameKey(a) != NameKey(b)
  }

  predicate ValidLedger(ledger: seq<Entry>) {
    && (forall k :: 0 <= k < |ledger| ==> SoundEntry(ledger[k]))
    && (forall j, k :: 0 <= j < k < |ledger| ==> Separate(ledger[j], ledger[k]))
  }

  /** The highest stable id of a ledger, 0 when nothing was allocated. */
  function Highest(ledger: seq<Entry>): int {
    if ledger == [] then
      0
    else
      var rest := Highest(ledger[..|ledger| - 1]);
      if ledger[|ledger| - 1].id > rest then ledger[|ledger| - 1].id else rest
  }

  predicate ValidDataset(d: Dataset, message: string) {
    && d.sourceMessage == message
    && d.name == StorageName(message)
    && 0 <= d.lastFieldId <= MAX_STABLE_ID
    && AllPlaced(d.fields, [])
    && ValidLedger(Ledger(d))
    && d.lastFieldId == Highest(Ledger(d))
  }

  // ----- lookup tables -----

  function IdOf(e: Entry): int { e.id }

  function IdentityOf(e: Entry): Identity { e.identity }

  function NameKey(e: Entry): (Identity, string) { (Scope(e.identity), e.name) }

  function WholeEntry(e: Entry): Entry { e }

  function NodeIdentity(n: Node): Identity { n.identity }

  function NodeField(n: Node): Field { n.field }

  /** Which identity holds each stable id. */
  function Owners(ledger: seq<Entry>): map<int, Identity> {
    TableOf(ledger, IdOf, IdentityOf)
  }

  /** Which identity holds each storage name of a logical scope. */
  function NameOwners(ledger: seq<Entry>): map<(Identity, string), Identity> {
    TableOf(ledger, NameKey, IdentityOf)
  }

  function Active(nodes: seq<Node>): map<Identity, Field> {
    TableOf(nodes, NodeIdentity, NodeField)
  }

  function Retired(retired: seq<Entry>): map<Identity, Entry> {
    TableOf(retired, IdentityOf, WholeEntry)
  }

  /** What the compiler keeps of the previous dataset. */
  datatype Index = Index(
    active: map<Identity, Field>,
    retired: map<Identity, Entry>,
    names: map<(Identity, string), Identity>)

  function IndexOf(d: Dataset): Index {
    Index(Active(NodesOf(d)), Retired(d.retired), NameOwners(Ledger(d)))
  }
}
