/** When ProjectToIceberg yields a conversion plan: the ClickHouse renderer and
    the Iceberg renderer must both accept the dataset. */
module ClickHouseIceberg {
  import opened Results
  import opened LogicalSchema
  import opened ClickHouseLowering
  import opened ClickHouseAcceptance
  import opened ClickHouseProjection

  const MAX_FIELD_ID := 0x7FFF_FFFF - 200

  // ----- the Iceberg renderer's refusals -----

  /** Iceberg has a value for historical rows only where protobuf has one. */
  predicate HasImplicitDefault(t: DataType) {
    match t
    case Primitive(_, kind) => kind != KindUnspecified
    case Enum(_, _, values, _) => values != []
    case _ => false
  }

  predicate DefaultsKnown(f: Field) {
    match f.presence
    case Implicit => !f.nullable && HasImplicitDefault(f.typ)
    case Explicit => f.nullable
    case Required => false
    case OneofMember => f.nullable
    case Repeated => !f.nullable && f.typ.List?
    case MapEntries => !f.nullable && f.typ.Map?
    case NotApplicable => f.role != ProtoField
    case PresenceUnspecified => false
  }

  predicate IcebergField(f: Field)
    decreases f
  {
    IcebergType(f.typ) && DefaultsKnown(f)
  }

  predicate IcebergType(t: DataType)
    decreases t
  {
    match t
    case Unset => false
    case Kindless => false
    case Primitive(_, kind) => kind != KindUnspecified
    case Enum(_, _, _, _) => true
    case Struct(_, fields) => forall i :: 0 <= i < |fields| ==> IcebergField(fields[i])
    case List(element, _) => IcebergField(element)
    case Map(key, value) => IcebergField(key) && IcebergField(value)
    case Timestamp(_, nanosecondUtc) => nanosecondUtc
    case Duration(_, nanosecond) => nanosecond
    case Json(_, _) => true
    case Decimal(precision, scale) => 1 <= precision <= 38 && scale <= precision
    case Uuid => true
    case FixedBytes(byteLength) => 1 <= byteLength <= 0x7FFF_FFFF
  }

  function FieldIds(f: Field): seq<int32>
    decreases f, 0
  {
    [f.stableId] + TypeIds(f.typ)
  }

  function TypeIds(t: DataType): seq<int32>
    decreases t, 0
  {
    match t
    case Struct(_, fields) => ScopeIds(fields)
    case List(element, _) => FieldIds(element)
    case Map(key, value) => FieldIds(key) + FieldIds(value)
    case _ => []
  }

  function ScopeIds(fields: seq<Field>): seq<int32>
    decreases fields, 0
  {
    if fields == [] then [] else FieldIds(fields[0]) + ScopeIds(fields[1..])
  }

  /** validateFieldIDs: every id, retired ones included, is valid and claimed
      once. */
  predicate IdsClaimed(ids: seq<int32>) {
    && (forall i :: 0 <= i < |ids| ==> 1 <= ids[i] <= MAX_FIELD_ID)
    && (forall i, j :: 0 <= i < j < |ids| ==> ids[i] != ids[j])
  }

  /** projectField needs a number for every oneof member. */
  predicate NumberedField(f: Field)
    decreases f
  {
    (f.presence == OneofMember ==> f.path != []) && NumberedType(f.typ)
  }

  predicate NumberedType(t: DataType)
    decreases t
  {
    match t
    case Struct(_, fields) => forall i :: 0 <= i < |fields| ==> NumberedField(fields[i])
    case List(element, _) => NumberedField(element)
    case Map(key, value) => NumberedField(key) && NumberedField(value)
    case _ => true
  }

  predicate Planned(fields: seq<Field>, retired: seq<int32>) {
    && IdsClaimed(ScopeIds(fields) + retired)
    && forall i :: 0 <= i < |fields| ==> IcebergField(fields[i]) && NumberedField(fields[i])
  }

  function ProjectToIceberg(
    name: string, description: string, fields: seq<Field>, retired: seq<int32>): Result<seq<Plan>> {
    if Schema(name, description, fields).Ok? && Planned(fields, retired) then Ok(ProjectFields(fields)) else Err
  }

  // ----- what Iceberg refuses of what ClickHouse accepts -----

  predicate NothingRequiredField(f: Field)
    decreases f
  {
    f.presence != Required && NothingRequired(f.typ)
  }

  predicate NothingRequired(t: DataType)
    decreases t
  {
    match t
    case Struct(_, fields) => forall i :: 0 <= i < |fields| ==> NothingRequiredField(fields[i])
    case List(element, _) => NothingRequiredField(element)
    case Map(key, value) => NothingRequiredField(key) && NothingRequiredField(value)
    case _ => true
  }

  /** Of a field that ClickHouse accepts, Iceberg refuses exactly a required field
      in it. */
  lemma {:induction false} IcebergFieldIff(f: Field)
    requires RenderableField(f)
    ensures IcebergField(f) <==> NothingRequiredField(f)
    decreases f
  {
    hide Renderable, IcebergType, NothingRequired;
    IcebergTypeIff(f.typ);
    DefaultsIff(f);
  }

  lemma {:induction false} DefaultsIff(f: Field)
    requires RenderableField(f)
    ensures DefaultsKnown(f) <==> f.presence != Required
  {
  }

  lemma {:induction false} IcebergTypeIff(t: DataType)
    requires Renderable(t)
    ensures IcebergType(t) <==> NothingRequired(t)
    decreases t
  {
    hide RenderableField, IcebergField, NothingRequiredField, NamesOk, OneofsOk;
    match t
    case Struct(_, fields) =>
      forall i | 0 <= i < |fields|
        ensures IcebergField(fields[i]) <==> NothingRequiredField(fields[i])
      {
        IcebergFieldIff(fields[i]);
      }
    case List(element, _) => IcebergFieldIff(element);
    case Map(key, value) =>
      IcebergFieldIff(key);
      IcebergFieldIff(value);
    case _ =>
  }
}
