/** What the ClickHouse renderer accepts, said without rendering anything. */
module ClickHouseAcceptance {
  import opened LogicalSchema
  import opened ClickHouseLowering

  predicate PresenceFits(f: Field) {
    match f.presence
    case PresenceUnspecified => false
    case Implicit => !f.nullable && ImplicitCapable(f.typ)
    case Explicit => f.nullable
    case Required => !f.nullable
    case OneofMember => f.nullable && f.oneof != ""
    case Repeated => !f.nullable && f.typ.List?
    case MapEntries => !f.nullable && f.typ.Map?
    case NotApplicable => !f.nullable && f.role != ProtoField
  }

  predicate RenderableField(f: Field)
    decreases f
  {
    ValidText(f.description) && PresenceFits(f) && Renderable(f.typ)
  }

  predicate RenderableScope(fields: seq<Field>, topLevel: bool)
    decreases fields
  {
    && NamesOk(fields, topLevel)
    && OneofsOk(fields)
    && forall i :: 0 <= i < |fields| ==> RenderableField(fields[i])
  }

  predicate Renderable(t: DataType)
    decreases t
  {
    match t
    case Unset => false
    case Kindless => false
    case Primitive(_, kind) => kind != KindUnspecified
    case Enum(_, _, values, _) => values != []
    case Struct(_, fields) => RenderableScope(fields, false)
    case List(element, _) => RenderableField(element)
    case Map(key, value) =>
      // A nullable scalar cannot be a ClickHouse Map key.
      && RenderableField(key)
      && RenderableField(value)
      && (key.presence == Explicit ==> key.typ.Struct? || key.typ.List? || key.typ.Map?)
    case Timestamp(_, nanosecondUtc) => nanosecondUtc
    case Duration(_, nanosecond) => nanosecond
    case Json(_, json) => json != JsonUnspecified
    case Decimal(precision, scale) => 1 <= precision <= 38 && scale <= precision
    case Uuid => true
    case FixedBytes(byteLength) => 1 <= byteLength <= MAX_FIXED_STRING
  }

  /** A field type is a Nullable column exactly for an explicit scalar. */
  lemma {:induction false} MapFieldAccepts(f: Field, path: string)
    ensures MapField(f, path).Ok? <==> RenderableField(f)
    ensures MapField(f, path).Ok? ==>
            (MapField(f, path).value.sqlType.Nullable? <==>
             f.presence == Explicit && !(f.typ.Struct? || f.typ.List? || f.typ.Map?))
    decreases f
  {
    if !f.typ.Unset? {
      MapTypeAccepts(f.typ, path);
    }
  }

  lemma {:induction false} EmitAccepts(fields: seq<Field>, k: nat, path: string, topLevel: bool)
    requires k <= |fields|
    ensures Emit(fields, k, path, topLevel).Ok? <==> forall i :: k <= i < |fields| ==> RenderableField(fields[i])
    decreases fields, |fields| - k
  {
    if k < |fields| {
      MapFieldAccepts(fields[k], JoinPath(path, fields[k].name));
      EmitAccepts(fields, k + 1, path, topLevel);
    }
  }

  lemma {:induction false} MapScopeAccepts(fields: seq<Field>, path: string, topLevel: bool)
    ensures MapScope(fields, path, topLevel).Ok? <==> RenderableScope(fields, topLevel)
    decreases fields, |fields| + 1
  {
    EmitAccepts(fields, 0, path, topLevel);
  }

  lemma {:induction false} MapTypeAccepts(t: DataType, path: string)
    ensures MapType(t, path).Ok? <==> Renderable(t)
    ensures MapType(t, path).Ok? ==>
            !MapType(t, path).value.sqlType.Nullable?
            && (MapType(t, path).value.composite <==> t.Struct? || t.List? || t.Map?)
    decreases t
  {
    match t
    case Struct(_, fields) => MapScopeAccepts(fields, path, false);
    case List(element, _) => MapFieldAccepts(element, path + "[]");
    case Map(key, value) =>
      MapFieldAccepts(key, path + ".key");
      MapFieldAccepts(value, path + ".value");
    case _ =>
  }
}
