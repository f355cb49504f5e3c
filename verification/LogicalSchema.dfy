/** The canonical logical schema (invariant.data.v1): what the schema compiler
    produces and every storage renderer consumes.

    A field that protobuf leaves without a type has the type `Unset`; so has a
    missing list element, map key or map value, which is refused wherever one
    without a type is.  `Kindless` is a type message whose kind is not set. */
module LogicalSchema {

  type int32 = n: int | -0x8000_0000 <= n < 0x8000_0000
  type uint32 = n: int | 0 <= n < 0x1_0000_0000

  datatype Presence =
    | PresenceUnspecified
    | Implicit
    | Explicit
    | Required
    | OneofMember
    | Repeated
    | MapEntries
    | NotApplicable

  datatype Role = RoleUnspecified | ProtoField | ListElement | MapKey | MapValue

  datatype PrimitiveKind =
    | KindUnspecified
    | Double | Float
    | Int64 | SInt64 | SFixed64
    | UInt64 | Fixed64
    | Int32 | SInt32 | SFixed32
    | UInt32 | Fixed32
    | Bool | Text | Bytes

  datatype JsonKind = JsonUnspecified | JsonAny | JsonStruct | JsonValue | JsonListValue

  datatype EnumValue = EnumValue(name: string, number: int32, description: string)

  datatype DataType =
    | Unset
    | Kindless
    | Primitive(protobufType: string, kind: PrimitiveKind)
    | Enum(protobufType: string, fullName: string, values: seq<EnumValue>, closed: bool)
    | Struct(protobufType: string, fields: seq<Field>)
    | List(element: Field, fixedLength: uint32)
    | Map(key: Field, value: Field)
    | Timestamp(protobufType: string, nanosecondUtc: bool)
    | Duration(protobufType: string, nanosecond: bool)
    | Json(protobufType: string, json: JsonKind)
    | Decimal(precision: uint32, scale: uint32)
    | Uuid
    | FixedBytes(byteLength: uint32)

  datatype Field = Field(
    fullName: string,
    path: seq<uint32>,
    name: string,
    stableId: int32,
    presence: Presence,
    nullable: bool,
    oneof: string,
    description: string,
    typ: DataType,
    role: Role,
    hasDefault: bool,
    protobufDefault: string,
    jsonName: string,
    source: string)
}
