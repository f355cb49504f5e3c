/** The ClickHouse renderer (go/data/clickhouse/schema.go): logical fields to
    column types plus CHECK expressions. */
module ClickHouseLowering {
  import opened Results
  import opened LogicalSchema
  import opened Sorting
  import E = ClickHouseExpr

  const MAX_FIXED_STRING: uint32 := 256
  const RESERVED_PREFIX := "__invariant_"
  const UNIT := "__invariant_unit"
  const PRESENT := "present"
  const VALUE := "value"

  /** How faithful a mapping is; the renderer reports one per logical field. */
  datatype Compatibility = Lossless | RepresentationChanged | RangeReduced

  datatype Diagnostic = Diagnostic(path: string, compatibility: Compatibility)

  /** One CHECK.  Inside a field its expression speaks of the placeholder. */
  datatype Check = Check(path: string, kind: string, expr: E.Expr)

  datatype Declaration = Declaration(
    name: string, sqlType: E.SqlType, defaultExpr: string, path: string, stableId: int32, synthetic: bool)

  datatype MappedType = MappedType(
    sqlType: E.SqlType,
    compatibility: Compatibility,
    diagnostics: seq<Diagnostic>,
    checks: seq<Check>,
    composite: bool)

  datatype MappedField = MappedField(
    sqlType: E.SqlType, defaultExpr: string, checks: seq<Check>, diagnostics: seq<Diagnostic>)

  datatype Scope = Scope(declarations: seq<Declaration>, checks: seq<Check>, diagnostics: seq<Diagnostic>)

  // ----- identifiers -----

  predicate IsControl(c: char) {
    c as int < 32 || 127 <= c as int < 160
  }

  predicate ValidIdentifier(name: string) {
    name != "" && forall c :: c in name ==> !IsControl(c)
  }

  predicate ValidText(text: string) {
    forall c :: c in text && IsControl(c) ==> c == '\n' || c == '\r' || c == '\t'
  }

  function CaseName(oneof: string): string {
    RESERVED_PREFIX + "oneof_" + oneof + "_case"
  }

  function JoinPath(parent: string, child: string): string {
    if parent == "" then child else parent + "." + child
  }

  /** The protobuf number of a field; 0 when it has none. */
  function Number(f: Field): uint32 {
    if f.path == [] then 0 else f.path[|f.path| - 1]
  }

  // ----- expression fragments -----

  function At(value: E.Expr, name: string): E.Expr {
    E.Call(E.TupleElement(name), value)
  }

  /** How a scope's own element is addressed: a column, or a tuple element. */
  function ScopeElement(name: string, topLevel: bool): E.Expr {
    if topLevel then E.Ident(name, true) else At(E.Hole, name)
  }

  function Or(left: E.Expr, right: E.Expr): E.Expr { E.Binary(E.Or, left, right) }

  function Equal(left: E.Expr, right: E.Expr): E.Expr { E.Binary(E.Equal, left, right) }

  function Located(checks: seq<Check>, into: E.Expr): (r: seq<Check>)
    ensures |r| == |checks|
  {
    seq(|checks|, i requires 0 <= i < |checks| => checks[i].(expr := E.Replace(checks[i].expr, into)))
  }

  /** `guard OR (check)`, the check now speaking of `into`. */
  function Guarded(checks: seq<Check>, guard: E.Expr, into: E.Expr): (r: seq<Check>)
    ensures |r| == |checks|
  {
    seq(|checks|, i requires 0 <= i < |checks| =>
      checks[i].(expr := Or(guard, E.Replace(checks[i].expr, into))))
  }

  function Wrapped(checks: seq<Check>): seq<Check> {
    Guarded(checks, E.Call(E.Not, At(E.Hole, PRESENT)), At(E.Hole, VALUE))
  }

  function NullGuarded(checks: seq<Check>): seq<Check> {
    Guarded(checks, E.Call(E.IsNull, E.Hole), E.Call(E.AssumeNotNull, E.Hole))
  }

  function QuantifiedAll(checks: seq<Check>, variable: string, array_: E.Expr): (r: seq<Check>)
    ensures |r| == |checks|
  {
    seq(|checks|, i requires 0 <= i < |checks| =>
      checks[i].(expr := E.Quantified(variable, checks[i].expr, array_)))
  }

  function WrapperType(inner: E.SqlType): E.SqlType {
    E.Tuple([E.Element(PRESENT, E.Bool), E.Element(VALUE, inner)])
  }

  // ----- leaf types -----

  function MapPrimitive(kind: PrimitiveKind): Result<E.SqlType> {
    match kind
    case KindUnspecified => Err
    case Double => Ok(E.Float64)
    case Float => Ok(E.Float32)
    case Int64 => Ok(E.Int64)
    case SInt64 => Ok(E.Int64)
    case SFixed64 => Ok(E.Int64)
    case UInt64 => Ok(E.UInt64)
    case Fixed64 => Ok(E.UInt64)
    case Int32 => Ok(E.Int32)
    case SInt32 => Ok(E.Int32)
    case SFixed32 => Ok(E.Int32)
    case UInt32 => Ok(E.UInt32)
    case Fixed32 => Ok(E.UInt32)
    case Bool => Ok(E.Bool)
    case Text => Ok(E.String)
    case Bytes => Ok(E.String)
  }

  function EnumNumbers(values: seq<EnumValue>): seq<int> {
    if values == [] then []
    else
      var rest := EnumNumbers(values[..|values| - 1]);
      var last := values[|values| - 1].number;
      if last in rest then rest else rest + [last]
  }

  /** The closed domain of an enum, without repeats and in order. */
  function ClosedDomain(values: seq<EnumValue>): seq<int> {
    SortBy(EnumNumbers(values), (n: int) => n)
  }

  function Strengthen(compatibility: Compatibility): Compatibility {
    if compatibility == Lossless then RepresentationChanged else compatibility
  }

  predicate ImplicitCapable(t: DataType) { t.Primitive? || t.Enum? }

  function ImplicitDefault(t: DataType): string
    requires ImplicitCapable(t)
  {
    if t.Enum? then "0"
    else if t.kind == Bool then "false"
    else if t.kind == Text || t.kind == Bytes then "''"
    else "0"
  }

  // ----- scopes -----

  predicate NamesOk(fields: seq<Field>, topLevel: bool) {
    && (forall i :: 0 <= i < |fields| ==>
          && ValidIdentifier(fields[i].name)
          && !(RESERVED_PREFIX <= fields[i].name)
          && (topLevel || fields[i].name != "null"))
    && (forall i, j :: 0 <= i < j < |fields| ==> fields[i].name != fields[j].name)
  }

  predicate OneofsOk(fields: seq<Field>) {
    && (forall i :: 0 <= i < |fields| ==>
          if fields[i].oneof == "" then fields[i].presence != OneofMember
          else
            && fields[i].presence == OneofMember
            && fields[i].nullable
            && ValidIdentifier(CaseName(fields[i].oneof))
            && Number(fields[i]) != 0)
    && (forall i, j :: 0 <= i < j < |fields| && fields[i].oneof == fields[j].oneof != "" ==>
          Number(fields[i]) != Number(fields[j]))
    && (forall i, j :: 0 <= i < |fields| && 0 <= j < |fields| && fields[i].oneof != "" ==>
          CaseName(fields[i].oneof) != fields[j].name)
  }

  function GroupNumbers(fields: seq<Field>, oneof: string): seq<int> {
    if fields == [] then []
    else (if fields[0].oneof == oneof then [Number(fields[0])] else []) + GroupNumbers(fields[1..], oneof)
  }

  /** The values that a discriminator may take. */
  function CaseNumbers(fields: seq<Field>, oneof: string): seq<int> {
    [0] + SortBy(GroupNumbers(fields, oneof), (n: int) => n)
  }

  predicate FirstOfGroup(fields: seq<Field>, i: nat)
    requires i < |fields|
  {
    fields[i].oneof != "" && forall j :: 0 <= j < i ==> fields[j].oneof != fields[i].oneof
  }

  function CaseDeclaration(fields: seq<Field>, i: nat, path: string): Declaration
    requires i < |fields|
  {
    var oneof := fields[i].oneof;
    Declaration(CaseName(oneof), E.Int32, "0", JoinPath(path, oneof), 0, true)
  }

  function CaseCheck(fields: seq<Field>, i: nat, path: string, topLevel: bool): Check
    requires i < |fields|
  {
    var oneof := fields[i].oneof;
    Check(JoinPath(path, oneof), "oneof_case",
      E.InList(ScopeElement(CaseName(oneof), topLevel), CaseNumbers(fields, oneof)))
  }

  function PresenceCheck(f: Field, path: string, topLevel: bool): Check {
    Check(JoinPath(path, f.name), "oneof_presence",
      Equal(Equal(ScopeElement(CaseName(f.oneof), topLevel), E.Number(Number(f))),
            At(ScopeElement(f.name, topLevel), PRESENT)))
  }

  /** What one field of a scope declares and checks, given its own mapping. */
  function EmitOne(fields: seq<Field>, i: nat, mapped: MappedField, path: string, topLevel: bool): Scope
    requires i < |fields|
  {
    var f := fields[i];
    var first := FirstOfGroup(fields, i);
    Scope(
      (if first then [CaseDeclaration(fields, i, path)] else [])
      + [Declaration(f.name, mapped.sqlType, mapped.defaultExpr, JoinPath(path, f.name), f.stableId, false)],
      (if first then [CaseCheck(fields, i, path, topLevel)] else [])
      + (if f.oneof != "" then [PresenceCheck(f, path, topLevel)] else [])
      + Located(mapped.checks, ScopeElement(f.name, topLevel)),
      mapped.diagnostics)
  }

  function Append(a: Scope, b: Scope): Scope {
    Scope(a.declarations + b.declarations, a.checks + b.checks, a.diagnostics + b.diagnostics)
  }

  /** The emission of `fields[i..]`, in order. */
  function Emit(fields: seq<Field>, i: nat, path: string, topLevel: bool): Result<Scope>
    requires i <= |fields|
    decreases fields, |fields| - i
  {
    if i == |fields| then Ok(Scope([], [], []))
    else
      var mapped :- MapField(fields[i], JoinPath(path, fields[i].name));
      var rest :- Emit(fields, i + 1, path, topLevel);
      Ok(Append(EmitOne(fields, i, mapped, path, topLevel), rest))
  }

  function MapScope(fields: seq<Field>, path: string, topLevel: bool): Result<Scope>
    decreases fields, |fields| + 1
  {
    if NamesOk(fields, topLevel) && OneofsOk(fields) then Emit(fields, 0, path, topLevel) else Err
  }

  function MapField(f: Field, path: string): Result<MappedField>
    decreases f
  {
    if f.typ.Unset? || !ValidText(f.description) then Err
    else
      var mapped :- MapType(f.typ, path);
      var plain := [Diagnostic(path, mapped.compatibility)] + mapped.diagnostics;
      var changed := [Diagnostic(path, Strengthen(mapped.compatibility))] + mapped.diagnostics;
      match f.presence
      case Implicit =>
        if f.nullable || !ImplicitCapable(f.typ) then Err
        else Ok(MappedField(mapped.sqlType, ImplicitDefault(f.typ), mapped.checks, plain))
      case Explicit =>
        if !f.nullable then Err
        else if mapped.composite then
          Ok(MappedField(WrapperType(mapped.sqlType), "", Wrapped(mapped.checks), changed))
        else
          Ok(MappedField(E.Nullable(mapped.sqlType), "NULL", NullGuarded(mapped.checks), changed))
      case Required =>
        if f.nullable then Err
        else
          var required := Check(path, "required", At(E.Hole, PRESENT));
          Ok(MappedField(WrapperType(mapped.sqlType), "", [required] + Wrapped(mapped.checks), changed))
      case OneofMember =>
        if f.oneof == "" || !f.nullable then Err
        else Ok(MappedField(WrapperType(mapped.sqlType), "", Wrapped(mapped.checks), changed))
      case Repeated =>
        if f.nullable || !f.typ.List? then Err
        else Ok(MappedField(mapped.sqlType, if f.typ.fixedLength == 0 then "[]" else "", mapped.checks, plain))
      case MapEntries =>
        if f.nullable || !f.typ.Map? then Err
        else Ok(MappedField(mapped.sqlType, "map()", mapped.checks, plain))
      case NotApplicable =>
        if f.role == ProtoField || f.nullable then Err
        else Ok(MappedField(mapped.sqlType, "", mapped.checks, plain))
      case PresenceUnspecified => Err
  }

  function TupleType(declarations: seq<Declaration>): E.SqlType {
    E.Tuple(seq(|declarations|, i requires 0 <= i < |declarations| =>
      E.Element(declarations[i].name, declarations[i].sqlType)))
  }

  function UnitCheck(path: string, topLevel: bool): Check {
    Check(path, "unit", Equal(ScopeElement(UNIT, topLevel), E.Truth(false)))
  }

  /** A scope without fields gets one constrained synthetic column. */
  function WithUnit(scope: Scope, path: string, topLevel: bool): Scope {
    if scope.declarations != [] then scope
    else
      Scope([Declaration(UNIT, E.Bool, if topLevel then "false" else "", path, 0, true)],
            scope.checks + [UnitCheck(path, topLevel)],
            scope.diagnostics)
  }

  function Leaf(sqlType: E.SqlType, compatibility: Compatibility, checks: seq<Check>): MappedType {
    MappedType(sqlType, compatibility, [], checks, false)
  }

  function FixedListChecks(fixedLength: uint32, path: string): seq<Check> {
    if fixedLength == 0 then []
    else [Check(path, "fixed_list", Equal(E.Call(E.Length, E.Hole), E.Number(fixedLength)))]
  }

  function MapKeysCheck(path: string): Check {
    var keys := E.Call(E.MapKeys, E.Hole);
    Check(path, "map_keys", Equal(E.Call(E.Length, keys), E.Call(E.Length, E.Call(E.ArrayDistinct, keys))))
  }

  function MapType(t: DataType, path: string): Result<MappedType>
    decreases t
  {
    match t
    case Unset => Err
    case Kindless => Err
    case Primitive(_, kind) =>
      var sqlType :- MapPrimitive(kind);
      Ok(Leaf(sqlType, Lossless,
        if kind == Text then [Check(path, "utf8", E.Call(E.IsValidUTF8, E.Hole))] else []))
    case Enum(_, _, values, closed) =>
      if values == [] then Err
      else
        Ok(Leaf(E.Int32, Lossless,
          if closed then
            [Check(path, "closed_enum", E.InList(E.Hole, ClosedDomain(values)))]
          else []))
    case Struct(_, fields) =>
      var scope :- MapScope(fields, path, false);
      var full := WithUnit(scope, path, false);
      Ok(MappedType(TupleType(full.declarations),
        if scope.declarations == [] then RepresentationChanged else Lossless,
        full.diagnostics, full.checks, true))
    case List(element, fixedLength) =>
      var mapped :- MapField(element, path + "[]");
      Ok(MappedType(E.Array(mapped.sqlType), Lossless, mapped.diagnostics,
        FixedListChecks(fixedLength, path) + QuantifiedAll(mapped.checks, "element", E.Hole), true))
    case Map(key, value) =>
      var k :- MapField(key, path + ".key");
      var v :- MapField(value, path + ".value");
      if k.sqlType.Nullable? then Err
      else
        Ok(MappedType(E.Map(k.sqlType, v.sqlType), RepresentationChanged, k.diagnostics + v.diagnostics,
          [MapKeysCheck(path)]
          + QuantifiedAll(k.checks, "key", E.Call(E.MapKeys, E.Hole))
          + QuantifiedAll(v.checks, "value", E.Call(E.MapValues, E.Hole)), true))
    case Timestamp(_, nanosecondUtc) =>
      if nanosecondUtc then Ok(Leaf(E.DateTime64Nano, RangeReduced, [])) else Err
    case Duration(_, nanosecond) =>
      if nanosecond then Ok(Leaf(E.Int64, RangeReduced, [])) else Err
    case Json(_, json) =>
      if json == JsonUnspecified then Err
      else Ok(Leaf(E.String, RangeReduced, [Check(path, "json", E.Call(E.IsValidJSON, E.Hole))]))
    case Decimal(precision, scale) =>
      if precision == 0 || precision > 38 || scale > precision then Err
      else Ok(Leaf(E.Decimal(precision, scale), RepresentationChanged, []))
    case Uuid => Ok(Leaf(E.UUID, RepresentationChanged, []))
    case FixedBytes(byteLength) =>
      if byteLength == 0 || byteLength > MAX_FIXED_STRING then Err
      else Ok(Leaf(E.FixedString(byteLength), RepresentationChanged, []))
  }

  // ----- tables -----

  datatype Table = Table(columns: seq<Declaration>, checks: seq<Check>, diagnostics: seq<Diagnostic>)

  function ConstraintName(check: Check): string {
    "invariant." + check.path + "." + check.kind
  }

  predicate DistinctConstraintNames(checks: seq<Check>) {
    forall i, j :: 0 <= i < j < |checks| ==> ConstraintName(checks[i]) != ConstraintName(checks[j])
  }

  /** Schema: one dataset to its columns and constraints. */
  function Schema(name: string, description: string, fields: seq<Field>): Result<Table> {
    if !ValidIdentifier(name) || !ValidText(description) then Err
    else
      var scope :- MapScope(fields, "", true);
      var full := WithUnit(scope, "<dataset>", true);
      if DistinctConstraintNames(full.checks) then
        Ok(Table(full.declarations, full.checks, full.diagnostics))
      else Err
  }
}
