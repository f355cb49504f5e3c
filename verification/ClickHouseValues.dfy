/** Logical rows, and how a stored ClickHouse row represents one. */
module ClickHouseValues {
  import opened Results
  import opened LogicalSchema
  import opened ClickHouseLowering
  import E = ClickHouseExpr

  /** A protobuf value.  Timestamps and durations count nanoseconds, decimals
      are unscaled integers, floats are bit patterns, a UUID is its 16 bytes,
      and a map is an association list. */
  datatype Value =
    | Truth(b: bool)
    | Int(n: int)
    | Real(bits: nat)
    | Octets(bytes: seq<E.byte>)
    | Message(slots: seq<Slot>)
    | Elements(items: seq<Slot>)
    | Entries(entries: seq<Pair>)

  datatype Slot = Absent | Present(value: Value)

  datatype Pair = Pair(key: Slot, value: Slot)

  // ----- the logical domain, independent of any storage -----

  const MIN_TIMESTAMP: int := -62135596800 * 1000000000
  const MAX_TIMESTAMP: int := 253402300799 * 1000000000 + 999999999
  const MAX_DURATION: int := 315576000000 * 1000000000 + 999999999

  predicate WellFormedPrimitive(o: E.Oracle, kind: PrimitiveKind, v: Value) {
    match kind
    case KindUnspecified => false
    case Double => v.Real? && v.bits < 0x1_0000_0000_0000_0000
    case Float => v.Real? && v.bits < 0x1_0000_0000
    case Int64 => v.Int? && E.InInt64(v.n)
    case SInt64 => v.Int? && E.InInt64(v.n)
    case SFixed64 => v.Int? && E.InInt64(v.n)
    case UInt64 => v.Int? && E.InUInt64(v.n)
    case Fixed64 => v.Int? && E.InUInt64(v.n)
    case Int32 => v.Int? && E.InInt32(v.n)
    case SInt32 => v.Int? && E.InInt32(v.n)
    case SFixed32 => v.Int? && E.InInt32(v.n)
    case UInt32 => v.Int? && E.InUInt32(v.n)
    case Fixed32 => v.Int? && E.InUInt32(v.n)
    case Bool => v.Truth?
    case Text => v.Octets? && o.utf8(v.bytes)
    case Bytes => v.Octets?
  }

  predicate Declared(values: seq<EnumValue>, n: int) {
    exists i :: 0 <= i < |values| && values[i].number == n
  }

  predicate DistinctKeys(entries: seq<Pair>) {
    forall i, j :: 0 <= i < j < |entries| ==> entries[i].key != entries[j].key
  }

  /** At most one member of each oneof is present. */
  predicate Exclusive(fields: seq<Field>, slots: seq<Slot>)
    requires |fields| == |slots|
  {
    forall i, j :: 0 <= i < j < |fields| && fields[i].oneof == fields[j].oneof != ""
      ==> slots[i].Absent? || slots[j].Absent?
  }

  predicate MayBeAbsent(f: Field) { f.presence == Explicit || f.presence == OneofMember }

  predicate WellFormedSlot(o: E.Oracle, f: Field, s: Slot)
    decreases f
  {
    match s
    case Absent => MayBeAbsent(f)
    case Present(v) => WellFormed(o, f.typ, v)
  }

  predicate WellFormedScope(o: E.Oracle, fields: seq<Field>, slots: seq<Slot>)
    decreases fields
  {
    && |slots| == |fields|
    && (forall i :: 0 <= i < |fields| ==> WellFormedSlot(o, fields[i], slots[i]))
    && Exclusive(fields, slots)
  }

  predicate WellFormed(o: E.Oracle, t: DataType, v: Value)
    decreases t
  {
    match t
    case Unset => false
    case Kindless => false
    case Primitive(_, kind) => WellFormedPrimitive(o, kind, v)
    case Enum(_, _, values, closed) => v.Int? && E.InInt32(v.n) && (closed ==> Declared(values, v.n))
    case Struct(_, fields) => v.Message? && WellFormedScope(o, fields, v.slots)
    case List(element, fixedLength) =>
      && v.Elements?
      && (fixedLength != 0 ==> |v.items| == fixedLength)
      && forall i :: 0 <= i < |v.items| ==> WellFormedSlot(o, element, v.items[i])
    case Map(key, value) =>
      && v.Entries?
      && (forall i :: 0 <= i < |v.entries| ==>
            WellFormedSlot(o, key, v.entries[i].key) && WellFormedSlot(o, value, v.entries[i].value))
      && DistinctKeys(v.entries)
    case Timestamp(_, _) => v.Int? && MIN_TIMESTAMP <= v.n <= MAX_TIMESTAMP
    case Duration(_, _) => v.Int? && -MAX_DURATION <= v.n <= MAX_DURATION
    case Json(_, _) => v.Octets? && o.json(v.bytes)
    case Decimal(precision, _) => v.Int? && -E.Pow10(precision) < v.n < E.Pow10(precision)
    case Uuid => v.Octets? && |v.bytes| == 16
    case FixedBytes(byteLength) => v.Octets? && |v.bytes| == byteLength
  }

  // ----- the stored representation -----

  predicate Composite(t: DataType) { t.Struct? || t.List? || t.Map? }

  /** The number of the present member of a oneof, or 0. */
  function Selected(fields: seq<Field>, slots: seq<Slot>, oneof: string): int
    requires |fields| == |slots|
  {
    if fields == [] then 0
    else if fields[0].oneof == oneof && slots[0].Present? then Number(fields[0])
    else Selected(fields[1..], slots[1..], oneof)
  }

  /** Each discriminator names exactly the member that is present. */
  predicate CasesAgree(fields: seq<Field>, slots: seq<Slot>, row: map<string, E.Stored>)
    requires |fields| == |slots|
  {
    && Exclusive(fields, slots)
    && forall i :: 0 <= i < |fields| && fields[i].oneof != "" ==>
         E.Lookup(row, CaseName(fields[i].oneof)) == E.I(Selected(fields, slots, fields[i].oneof))
  }

  function ScalarOf(p: E.Stored): Result<Value> {
    match p
    case B(b) => Ok(Truth(b))
    case I(n) => Ok(Int(n))
    case F(bits) => Ok(Real(bits))
    case S(bytes) => Ok(Octets(bytes))
    case _ => Err
  }

  /** The value that a stored value represents; Err when it represents none. */
  function Decode(o: E.Oracle, t: DataType, p: E.Stored): Result<Value>
    decreases t, 0
  {
    match t
    case Struct(_, fields) => if p.Tup? then DecodeMessage(o, fields, p.elements) else Err
    case List(element, fixedLength) =>
      if p.Arr? && (fixedLength != 0 ==> |p.items| == fixedLength) then
        var items :- DecodeEach(o, element, p.items);
        Ok(Elements(items))
      else Err
    case Map(key, value) =>
      if p.MapOf? then
        var keys :- DecodeEach(o, key, E.Keys(p.entries));
        var values :- DecodeEach(o, value, E.Values(p.entries));
        var entries := Zip(keys, values);
        if DistinctKeys(entries) then Ok(Entries(entries)) else Err
      else Err
    case _ =>
      var v :- ScalarOf(p);
      if WellFormed(o, t, v) then Ok(v) else Err
  }

  function Zip(keys: seq<Slot>, values: seq<Slot>): (r: seq<Pair>)
    requires |keys| == |values|
    ensures |r| == |keys|
    ensures forall i :: 0 <= i < |r| ==> r[i] == Pair(keys[i], values[i])
  {
    seq(|keys|, i requires 0 <= i < |keys| => Pair(keys[i], values[i]))
  }

  function DecodeEach(o: E.Oracle, f: Field, items: seq<E.Stored>): (r: Result<seq<Slot>>)
    ensures r.Ok? ==> |r.value| == |items|
    decreases f, 1, |items|
  {
    if items == [] then Ok([])
    else
      var first :- DecodeField(o, f, items[0]);
      var rest :- DecodeEach(o, f, items[1..]);
      Ok([first] + rest)
  }

  function DecodePresent(o: E.Oracle, t: DataType, p: E.Stored): Result<Slot>
    decreases t, 1
  {
    var v :- Decode(o, t, p);
    Ok(Present(v))
  }

  /** A tuple wrapper: the value counts only when the presence bit is set. */
  function DecodeWrapped(o: E.Oracle, t: DataType, p: E.Stored): Result<Slot>
    decreases t, 2
  {
    if p.Tup? && E.Lookup(p.elements, PRESENT) == E.B(true) then
      DecodePresent(o, t, E.Lookup(p.elements, VALUE))
    else if p.Tup? && E.Lookup(p.elements, PRESENT) == E.B(false) then Ok(Absent)
    else Err
  }

  function DecodeField(o: E.Oracle, f: Field, p: E.Stored): Result<Slot>
    decreases f, 0, 0
  {
    match f.presence
    case Explicit =>
      if Composite(f.typ) then DecodeWrapped(o, f.typ, p)
      else if p.Null? then Ok(Absent)
      else DecodePresent(o, f.typ, p)
    case Required =>
      var s :- DecodeWrapped(o, f.typ, p);
      if s.Present? then Ok(s) else Err
    case OneofMember => DecodeWrapped(o, f.typ, p)
    case _ => DecodePresent(o, f.typ, p)
  }

  function DecodeFields(o: E.Oracle, fields: seq<Field>, row: map<string, E.Stored>): (r: Result<seq<Slot>>)
    ensures r.Ok? ==> |r.value| == |fields|
    decreases fields, 0
  {
    if fields == [] then Ok([])
    else
      var first :- DecodeField(o, fields[0], E.Lookup(row, fields[0].name));
      var rest :- DecodeFields(o, fields[1..], row);
      Ok([first] + rest)
  }

  /** A tuple, or a whole row: its fields, its discriminators, and the unit
      column of an empty message. */
  function DecodeMessage(o: E.Oracle, fields: seq<Field>, row: map<string, E.Stored>): Result<Value>
    decreases fields, 1
  {
    if fields == [] then
      if E.Lookup(row, UNIT) == E.B(false) then Ok(Message([])) else Err
    else
      var slots :- DecodeFields(o, fields, row);
      if CasesAgree(fields, slots, row) then Ok(Message(slots)) else Err
  }

  // ----- the column types -----

  /** The type of a field's column, wrapper included. */
  function FieldType(f: Field): E.SqlType
    decreases f
  {
    match f.presence
    case Explicit => if Composite(f.typ) then WrapperType(TypeOf(f.typ)) else E.Nullable(TypeOf(f.typ))
    case Required => WrapperType(TypeOf(f.typ))
    case OneofMember => WrapperType(TypeOf(f.typ))
    case _ => TypeOf(f.typ)
  }

  /** The elements that `fields[i..]` declare, discriminators included. */
  function ElementsFrom(fields: seq<Field>, i: nat): seq<E.Element>
    requires i <= |fields|
    decreases fields, |fields| - i
  {
    if i == |fields| then []
    else
      (if FirstOfGroup(fields, i) then [E.Element(CaseName(fields[i].oneof), E.Int32)] else [])
      + [E.Element(fields[i].name, FieldType(fields[i]))]
      + ElementsFrom(fields, i + 1)
  }

  function ScopeElements(fields: seq<Field>): seq<E.Element>
    decreases fields, |fields| + 1
  {
    if fields == [] then [E.Element(UNIT, E.Bool)] else ElementsFrom(fields, 0)
  }

  function TypeOf(t: DataType): E.SqlType
    decreases t
  {
    match t
    case Unset => E.Bool
    case Kindless => E.Bool
    case Primitive(_, kind) =>
      var mapped := MapPrimitive(kind);
      if mapped.Ok? then mapped.value else E.Bool
    case Enum(_, _, _, _) => E.Int32
    case Struct(_, fields) => E.Tuple(ScopeElements(fields))
    case List(element, _) => E.Array(FieldType(element))
    case Map(key, value) => E.Map(FieldType(key), FieldType(value))
    case Timestamp(_, _) => E.DateTime64Nano
    case Duration(_, _) => E.Int64
    case Json(_, _) => E.String
    case Decimal(precision, scale) => E.Decimal(precision, scale)
    case Uuid => E.UUID
    case FixedBytes(byteLength) => E.FixedString(byteLength)
  }

  lemma {:induction false} MapTypeShape(t: DataType, path: string)
    requires MapType(t, path).Ok?
    ensures MapType(t, path).value.sqlType == TypeOf(t)
    ensures MapType(t, path).value.composite == Composite(t)
    decreases t
  {
    match t
    case Struct(_, fields) => EmitShape(fields, 0, path, false);
    case List(element, _) => MapFieldShape(element, path + "[]");
    case Map(key, value) =>
      MapFieldShape(key, path + ".key");
      MapFieldShape(value, path + ".value");
    case _ =>
  }

  lemma {:induction false} MapFieldShape(f: Field, path: string)
    requires MapField(f, path).Ok?
    ensures MapField(f, path).value.sqlType == FieldType(f)
    decreases f
  {
    MapTypeShape(f.typ, path);
  }

  function ElementsOf(declarations: seq<Declaration>): (r: seq<E.Element>)
    ensures |r| == |declarations|
    ensures TupleType(declarations) == E.Tuple(r)
  {
    seq(|declarations|, i requires 0 <= i < |declarations| =>
      E.Element(declarations[i].name, declarations[i].sqlType))
  }

  lemma {:induction false} ElementsOfConcat(a: seq<Declaration>, b: seq<Declaration>)
    ensures ElementsOf(a + b) == ElementsOf(a) + ElementsOf(b)
  {
  }

  lemma {:induction false} EmitShape(fields: seq<Field>, i: nat, path: string, topLevel: bool)
    requires i <= |fields| && Emit(fields, i, path, topLevel).Ok?
    ensures ElementsOf(Emit(fields, i, path, topLevel).value.declarations) == ElementsFrom(fields, i)
    decreases fields, |fields| - i
  {
    if i < |fields| {
      var fieldPath := JoinPath(path, fields[i].name);
      MapFieldShape(fields[i], fieldPath);
      EmitShape(fields, i + 1, path, topLevel);
      var one := EmitOne(fields, i, MapField(fields[i], fieldPath).value, path, topLevel).declarations;
      ElementsOfConcat(one, Emit(fields, i + 1, path, topLevel).value.declarations);
      assert ElementsOf(one) ==
        (if FirstOfGroup(fields, i) then [E.Element(CaseName(fields[i].oneof), E.Int32)] else [])
        + [E.Element(fields[i].name, FieldType(fields[i]))];
    }
  }

  // ----- looking into a typed row -----

  lemma {:induction false} FieldDeclared(fields: seq<Field>, k: nat, i: nat)
    requires k <= i < |fields|
    ensures E.Element(fields[i].name, FieldType(fields[i])) in ElementsFrom(fields, k)
    decreases i - k
  {
    if k < i {
      FieldDeclared(fields, k + 1, i);
    }
  }

  lemma {:induction false} CaseDeclared(fields: seq<Field>, k: nat, i: nat)
    requires k <= i < |fields| && FirstOfGroup(fields, i)
    ensures E.Element(CaseName(fields[i].oneof), E.Int32) in ElementsFrom(fields, k)
    decreases i - k
  {
    if k < i {
      CaseDeclared(fields, k + 1, i);
    }
  }

  /** Each oneof has a first member. */
  lemma {:induction false} GroupHasFirst(fields: seq<Field>, i: nat) returns (first: nat)
    requires i < |fields| && fields[i].oneof != ""
    ensures first <= i && FirstOfGroup(fields, first) && fields[first].oneof == fields[i].oneof
    decreases i
  {
    if FirstOfGroup(fields, i) {
      first := i;
    } else {
      var j :| 0 <= j < i && fields[j].oneof == fields[i].oneof;
      first := GroupHasFirst(fields, j);
    }
  }

  /** A row of the columns that a scope declares. */
  predicate TypedRow(fields: seq<Field>, row: map<string, E.Stored>) {
    E.HasType(E.Tup(row), E.Tuple(ScopeElements(fields)))
  }

  lemma {:induction false} ElementTyped(fields: seq<Field>, row: map<string, E.Stored>, e: E.Element)
    requires TypedRow(fields, row) && e in ScopeElements(fields)
    ensures e.name in row && E.HasType(row[e.name], e.typ)
  {
    var elements := ScopeElements(fields);
    var k :| 0 <= k < |elements| && elements[k] == e;
    assert elements[k].name in E.Names(elements);
  }

  lemma {:induction false} FieldTyped(fields: seq<Field>, row: map<string, E.Stored>, i: nat)
    requires TypedRow(fields, row) && i < |fields|
    ensures fields[i].name in row && E.HasType(row[fields[i].name], FieldType(fields[i]))
  {
    FieldDeclared(fields, 0, i);
    ElementTyped(fields, row, E.Element(fields[i].name, FieldType(fields[i])));
  }

  lemma {:induction false} CaseTyped(fields: seq<Field>, row: map<string, E.Stored>, i: nat)
    requires TypedRow(fields, row) && i < |fields| && fields[i].oneof != ""
    ensures CaseName(fields[i].oneof) in row && row[CaseName(fields[i].oneof)].I?
    ensures E.InInt32(row[CaseName(fields[i].oneof)].n)
  {
    var first := GroupHasFirst(fields, i);
    CaseDeclared(fields, 0, first);
    ElementTyped(fields, row, E.Element(CaseName(fields[i].oneof), E.Int32));
  }

  lemma {:induction false} DecodeFieldsAt(o: E.Oracle, fields: seq<Field>, row: map<string, E.Stored>)
    ensures DecodeFields(o, fields, row).Ok? <==>
            forall i :: 0 <= i < |fields| ==> DecodeField(o, fields[i], E.Lookup(row, fields[i].name)).Ok?
    ensures DecodeFields(o, fields, row).Ok? ==>
            forall i :: 0 <= i < |fields| ==>
              DecodeField(o, fields[i], E.Lookup(row, fields[i].name)) == Ok(DecodeFields(o, fields, row).value[i])
  {
    if fields != [] {
      DecodeFieldsAt(o, fields[1..], row);
      assert forall i :: 1 <= i < |fields| ==> fields[i] == fields[1..][i - 1];
      if DecodeFields(o, fields, row).Ok? {
        var slots := DecodeFields(o, fields, row).value;
        assert forall i :: 1 <= i < |fields| ==> slots[i] == DecodeFields(o, fields[1..], row).value[i - 1];
      } else if DecodeField(o, fields[0], E.Lookup(row, fields[0].name)).Ok? {
        var i :| 0 <= i < |fields[1..]| && DecodeField(o, fields[1..][i], E.Lookup(row, fields[1..][i].name)).Err?;
        assert fields[i + 1] == fields[1..][i];
      }
    }
  }

  lemma {:induction false} DecodeEachAt(o: E.Oracle, f: Field, items: seq<E.Stored>)
    ensures DecodeEach(o, f, items).Ok? <==>
            forall i :: 0 <= i < |items| ==> DecodeField(o, f, items[i]).Ok?
    ensures DecodeEach(o, f, items).Ok? ==>
            forall i :: 0 <= i < |items| ==> DecodeField(o, f, items[i]) == Ok(DecodeEach(o, f, items).value[i])
    decreases |items|
  {
    if items != [] {
      DecodeEachAt(o, f, items[1..]);
      assert forall i :: 1 <= i < |items| ==> items[i] == items[1..][i - 1];
      if DecodeEach(o, f, items).Ok? {
        var slots := DecodeEach(o, f, items).value;
        assert forall i :: 1 <= i < |items| ==> slots[i] == DecodeEach(o, f, items[1..]).value[i - 1];
      } else if DecodeField(o, f, items[0]).Ok? {
        var i :| 0 <= i < |items[1..]| && DecodeField(o, f, items[1..][i]).Err?;
        assert items[i + 1] == items[1..][i];
      }
    }
  }
}
