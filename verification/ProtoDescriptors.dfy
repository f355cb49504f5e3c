/** The part of protobuf message descriptors the schema compiler reads: a
    finite, possibly cyclic graph of messages keyed by full name. */
module ProtoDescriptors {

  import opened LogicalSchema
  import opened ProtoNames
  import opened Results

  /** protobuf admits no other field numbers. */
  type fieldNumber = n: int | 1 <= n <= 0x1FFF_FFFF witness 1

  /** A field's value kind.  A scalar kind is named by the logical primitive it
      maps to; groups are messages. */
  datatype Kind =
    | ScalarOf(kind: PrimitiveKind)
    | EnumOf(fullName: string, values: seq<EnumValue>, closed: bool)
    | MessageOf(message: string)
    | OtherKind

  /** Singular, repeated, or a map with its entry kinds. */
  datatype Shape = One | Many | Keyed(key: Kind, value: Kind)

  datatype Semantic =
    | NoSemantic
    | DecimalOf(precision: uint32, scale: uint32)
    | UuidOf
    | FixedBytesOf(byteLength: uint32)
    | OtherSemantic

  /** The data field option: absent, carrying unknown fields, or usable. */
  datatype Options = NoOptions | MalformedOptions | Options(fixedList: Option<uint32>, semantic: Semantic)

  datatype FieldDescriptor = FieldDescriptor(
    number: fieldNumber,
    name: string,
    shape: Shape,
    kind: Kind,
    required: bool,
    oneof: string,
    hasPresence: bool,
    hasDefault: bool,
    defaultValue: string,
    jsonName: string,
    comment: string,
    options: Options)

  datatype MessageDescriptor = MessageDescriptor(
    fullName: string,
    fields: seq<FieldDescriptor>,
    reservedNumbers: set<int>,
    reservedNames: set<string>,
    extensionRanges: bool,
    mapEntry: bool,
    comment: string)

  type Graph = map<string, MessageDescriptor>

  predicate WellFormedMessage(md: MessageDescriptor) {
    && ValidFullName(md.fullName)
    && (forall i :: 0 <= i < |md.fields| ==> ValidName(md.fields[i].name))
    && (forall i, j :: 0 <= i < j < |md.fields| ==> md.fields[i].number != md.fields[j].number)
    && (forall i :: 0 <= i < |md.fields| ==> md.fields[i].shape.Keyed? ==> !md.fields[i].shape.key.MessageOf?)
  }

  /** What protobuf guarantees of linked descriptors: exact names, messages
      keyed by their own name, distinct field numbers, and map keys that are not
      messages. */
  predicate WellFormed(g: Graph) {
    forall name :: name in g ==> g[name].fullName == name && WellFormedMessage(g[name])
  }
}
