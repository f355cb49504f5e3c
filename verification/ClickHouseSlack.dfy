/** The tight-key condition is exact.  When a map key is not tight, two stored
    keys that differ represent the same logical key, and the generated
    uniqueness check lets both through. */
module ClickHouseSlack {
  import opened Results
  import opened LogicalSchema
  import opened ClickHouseLowering
  import opened ClickHouseScoping
  import opened ClickHouseAcceptance
  import opened ClickHouseValues
  import opened ClickHouseKeys
  import opened ClickHouseMeaning
  import opened ClickHouseEncoding
  import opened ClickHouseRoundTrip
  import opened ClickHouseFit
  import opened ClickHouseRange
  import E = ClickHouseExpr

  // ----- every type has at least two stored values -----

  function Ones(width: nat): (r: seq<E.byte>)
    ensures |r| == width
  {
    seq(width, i => 1)
  }

  /** A stored value other than the default. */
  function Another(t: E.SqlType): E.Stored
    decreases t
  {
    match t
    case Bool => E.B(true)
    case Float32 => E.F(1)
    case Float64 => E.F(1)
    case String => E.S([0])
    case FixedString(width) => E.S(Ones(width))
    case UUID => E.S(Ones(16))
    case Nullable(inner) => DefaultOf(inner)
    case Array(element) => E.Arr([DefaultOf(element)])
    case Map(key, value) => E.MapOf([E.Entry(DefaultOf(key), DefaultOf(value))])
    case Tuple(elements) =>
      E.Tup(if elements == [] then map[] else DefaultElements(elements)[elements[0].name := Another(elements[0].typ)])
    case _ => E.I(1)
  }

  predicate Roomy(t: E.SqlType)
    decreases t
  {
    match t
    case FixedString(width) => width > 0
    case Decimal(precision, _) => precision > 0
    case Nullable(inner) => !inner.Nullable?
    case Tuple(elements) => elements != [] && Roomy(elements[0].typ)
    case _ => true
  }

  lemma {:induction false} AnotherTuple(elements: seq<E.Element>)
    requires WellNamed(E.Tuple(elements)) && Roomy(E.Tuple(elements))
    ensures E.HasType(Another(E.Tuple(elements)), E.Tuple(elements))
    ensures Another(E.Tuple(elements)) != DefaultOf(E.Tuple(elements))
    decreases elements
  {
    hide DefaultOf, Another, E.HasType, DefaultElements;
    var row := DefaultElements(elements);
    var e := elements[0];
    var changed := row[e.name := Another(e.typ)];
    AnotherTyped(e.typ);
    DefaultElementsNames(elements);
    DefaultElementAt(elements, 0);
    assert e in elements;
    forall i | 0 <= i < |elements|
      ensures elements[i].name in changed && E.HasType(changed[elements[i].name], elements[i].typ)
    {
      DefaultElementAt(elements, i);
      DefaultTyped(elements[i].typ);
    }
    AnotherOfTuple(elements);
    TupleHasType(changed, elements);
    assert changed[e.name] != row[e.name];
  }

  lemma {:induction false} AnotherOfTuple(elements: seq<E.Element>)
    requires elements != []
    ensures Another(E.Tuple(elements)) == E.Tup(DefaultElements(elements)[elements[0].name := Another(elements[0].typ)])
    ensures DefaultOf(E.Tuple(elements)) == E.Tup(DefaultElements(elements))
  {
  }

  lemma {:induction false} TupleHasType(row: map<string, E.Stored>, elements: seq<E.Element>)
    requires row.Keys == E.Names(elements)
    requires forall i :: 0 <= i < |elements| ==>
               elements[i].name in row && E.HasType(row[elements[i].name], elements[i].typ)
    ensures E.HasType(E.Tup(row), E.Tuple(elements))
  {
  }

  lemma {:induction false} DefaultIsNotNull(t: E.SqlType)
    requires !t.Nullable?
    ensures !DefaultOf(t).Null?
  {
  }

  lemma {:induction false} AnotherTyped(t: E.SqlType)
    requires WellNamed(t) && Roomy(t)
    ensures E.HasType(Another(t), t) && Another(t) != DefaultOf(t)
    decreases t
  {
    match t
    case Nullable(inner) => DefaultTyped(inner); DefaultIsNotNull(inner);
    case Array(element) => DefaultTyped(element);
    case Map(key, value) => DefaultTyped(key); DefaultTyped(value);
    case Tuple(elements) => AnotherTuple(elements);
    case FixedString(width) => assert Ones(width)[0] != Zeros(width)[0];
    case UUID => assert Ones(16)[0] != Zeros(16)[0];
    case _ =>
  }

  lemma {:induction false} FieldRoomy(f: Field)
    requires RenderableField(f)
    ensures Roomy(FieldType(f))
    decreases f, 0
  {
    hide TypeOf, Renderable;
    TypeRoomy(f.typ);
    WrapperRoomy(TypeOf(f.typ));
  }

  lemma {:induction false} WrapperRoomy(t: E.SqlType)
    ensures Roomy(WrapperType(t))
  {
  }

  lemma {:induction false} ScopeRoomy(fields: seq<Field>)
    requires forall i :: 0 <= i < |fields| ==> RenderableField(fields[i])
    ensures Roomy(E.Tuple(ScopeElements(fields)))
    decreases fields, 0
  {
    hide FieldType, RenderableField;
    if fields != [] {
      FieldRoomy(fields[0]);
    }
  }

  lemma {:induction false} TypeRoomy(t: DataType)
    requires Renderable(t)
    ensures Roomy(TypeOf(t)) && !TypeOf(t).Nullable?
    decreases t, 0
  {
    hide FieldType, RenderableField, ScopeElements, NamesOk, OneofsOk;
    match t
    case Struct(_, fields) => ScopeRoomy(fields);
    case _ =>
  }

  // ----- every type has a logical value -----

  /** Some text and some JSON that the database accepts. */
  datatype Samples = Samples(text: seq<E.byte>, json: seq<E.byte>)

  predicate SamplesOk(o: E.Oracle, a: Samples) { o.utf8(a.text) && o.json(a.json) }

  function SamplePrimitive(a: Samples, kind: PrimitiveKind): Value {
    match kind
    case Double => Real(0)
    case Float => Real(0)
    case Bool => Truth(false)
    case Text => Octets(a.text)
    case Bytes => Octets([])
    case _ => Int(0)
  }

  function SampleSlot(a: Samples, f: Field): Slot
    decreases f
  {
    if MayBeAbsent(f) then Absent else Present(Sample(a, f.typ))
  }

  function SampleSlots(a: Samples, fields: seq<Field>): (r: seq<Slot>)
    ensures |r| == |fields|
    ensures forall i :: 0 <= i < |fields| ==> r[i] == SampleSlot(a, fields[i])
    decreases fields
  {
    seq(|fields|, i requires 0 <= i < |fields| => SampleSlot(a, fields[i]))
  }

  function Sample(a: Samples, t: DataType): Value
    decreases t
  {
    match t
    case Primitive(_, kind) => SamplePrimitive(a, kind)
    case Enum(_, _, values, _) => Int(if values == [] then 0 else values[0].number)
    case Struct(_, fields) => Message(SampleSlots(a, fields))
    case List(element, fixedLength) => Elements(seq(fixedLength, i => SampleSlot(a, element)))
    case Map(_, _) => Entries([])
    case Json(_, _) => Octets(a.json)
    case Uuid => Octets(Zeros(16))
    case FixedBytes(byteLength) => Octets(Zeros(byteLength))
    case _ => Int(0)
  }

  lemma {:induction false} SampleSlotOk(o: E.Oracle, a: Samples, f: Field)
    requires SamplesOk(o, a) && RenderableField(f)
    ensures WellFormedSlot(o, f, SampleSlot(a, f)) && FitsSlot(f, SampleSlot(a, f))
    decreases f, 0
  {
    hide Sample, Renderable, WellFormed, Fits;
    if !MayBeAbsent(f) {
      SampleOk(o, a, f.typ);
    }
  }

  lemma {:induction false} SampleScopeOk(o: E.Oracle, a: Samples, fields: seq<Field>)
    requires SamplesOk(o, a) && OneofsOk(fields) && forall i :: 0 <= i < |fields| ==> RenderableField(fields[i])
    ensures WellFormedScope(o, fields, SampleSlots(a, fields)) && FitsScope(fields, SampleSlots(a, fields))
    decreases fields, 0
  {
    hide SampleSlot, RenderableField, WellFormedSlot, FitsSlot, Number, ValidIdentifier, CaseName;
    var slots := SampleSlots(a, fields);
    forall i | 0 <= i < |fields|
      ensures WellFormedSlot(o, fields[i], slots[i]) && FitsSlot(fields[i], slots[i])
      ensures fields[i].oneof != "" ==> slots[i].Absent?
    {
      SampleSlotOk(o, a, fields[i]);
      if fields[i].oneof != "" {
        MemberSampleAbsent(a, fields[i]);
      }
    }
  }

  lemma {:induction false} MemberSampleAbsent(a: Samples, f: Field)
    requires f.presence == OneofMember
    ensures SampleSlot(a, f) == Absent
  {
  }

  lemma {:induction false} SampleOk(o: E.Oracle, a: Samples, t: DataType)
    requires SamplesOk(o, a) && Renderable(t)
    ensures WellFormed(o, t, Sample(a, t)) && Fits(t, Sample(a, t))
    decreases t, 0
  {
    hide SampleSlot, SampleSlots, RenderableField, WellFormedSlot, FitsSlot, WellFormedScope, FitsScope, NamesOk,
         OneofsOk;
    match t
    case Struct(_, fields) => SampleScopeOk(o, a, fields);
    case List(element, _) => SampleSlotOk(o, a, element);
    case Enum(_, _, values, _) => assert Declared(values, values[0].number);
    case _ =>
  }

  // ----- two stored values of one logical value -----

  /** Two typed stored values that differ and represent the same slot. */
  predicate Twins(o: E.Oracle, f: Field, p: E.Stored, q: E.Stored) {
    && p != q
    && E.HasType(p, FieldType(f)) && E.HasType(q, FieldType(f))
    && DecodeField(o, f, p).Ok? && DecodeField(o, f, p) == DecodeField(o, f, q)
  }

  predicate TwinValues(o: E.Oracle, t: DataType, p: E.Stored, q: E.Stored) {
    && p != q
    && E.HasType(p, TypeOf(t)) && E.HasType(q, TypeOf(t))
    && Decode(o, t, p).Ok? && Decode(o, t, p) == Decode(o, t, q)
  }

  lemma {:induction false} UnsetBitTwins(o: E.Oracle, f: Field) returns (p: E.Stored, q: E.Stored)
    requires RenderableField(f) && (f.presence == OneofMember || (f.presence == Explicit && Composite(f.typ)))
    ensures Twins(o, f, p, q) && DecodeField(o, f, p) == Ok(Absent)
  {
    hide TypeOf, Renderable, DefaultOf, Another, Decode;
    var t := TypeOf(f.typ);
    TypeWellNamed(f.typ);
    TypeRoomy(f.typ);
    DefaultTyped(t);
    AnotherTyped(t);
    p, q := Wrapper(false, DefaultOf(t)), Wrapper(false, Another(t));
    WrapperHasType(false, DefaultOf(t), t);
    WrapperHasType(false, Another(t), t);
    assert p.elements[VALUE] != q.elements[VALUE];
    assert DecodeWrapped(o, f.typ, p) == Ok(Absent) && DecodeWrapped(o, f.typ, q) == Ok(Absent);
  }

  lemma {:induction false} RequiredTwins(o: E.Oracle, f: Field, a: E.Stored, b: E.Stored)
    requires f.presence == Required && TwinValues(o, f.typ, a, b)
    ensures Twins(o, f, Wrapper(true, a), Wrapper(true, b))
  {
    hide TypeOf, Decode;
    var p, q := Wrapper(true, a), Wrapper(true, b);
    WrapperHasType(true, a, TypeOf(f.typ));
    WrapperHasType(true, b, TypeOf(f.typ));
    assert p.elements[VALUE] == a && q.elements[VALUE] == b;
    assert DecodeWrapped(o, f.typ, p) == DecodePresent(o, f.typ, a);
    assert DecodeWrapped(o, f.typ, q) == DecodePresent(o, f.typ, b);
  }

  lemma {:induction false} PlainTwins(o: E.Oracle, f: Field, a: E.Stored, b: E.Stored)
    requires f.presence != Required && f.presence != OneofMember && f.presence != Explicit && TwinValues(o, f.typ, a, b)
    ensures Twins(o, f, a, b)
  {
    hide TypeOf, Decode;
    assert DecodeField(o, f, a) == DecodePresent(o, f.typ, a) && DecodeField(o, f, b) == DecodePresent(o, f.typ, b);
  }

  lemma {:induction false} FieldTwins(o: E.Oracle, a: Samples, f: Field) returns (p: E.Stored, q: E.Stored)
    requires SamplesOk(o, a) && RenderableField(f) && !TightField(f)
    ensures Twins(o, f, p, q) && (f.presence == OneofMember ==> DecodeField(o, f, p) == Ok(Absent))
    decreases f, 1
  {
    hide Twins, TwinValues, Renderable;
    if f.presence == OneofMember || (f.presence == Explicit && Composite(f.typ)) {
      p, q := UnsetBitTwins(o, f);
    } else {
      p, q := ValueTwins(o, a, f.typ);
      if f.presence == Required {
        RequiredTwins(o, f, p, q);
        p, q := Wrapper(true, p), Wrapper(true, q);
      } else {
        PlainTwins(o, f, p, q);
      }
    }
  }

  lemma {:induction false} ValueTwins(o: E.Oracle, a: Samples, t: DataType) returns (p: E.Stored, q: E.Stored)
    requires SamplesOk(o, a) && Renderable(t) && !TightType(t)
    ensures TwinValues(o, t, p, q)
    decreases t, 0
  {
    hide TwinValues, TightField, RenderableField, NamesOk, OneofsOk;
    match t
    case Struct(_, fields) =>
      var i :| 0 <= i < |fields| && !TightField(fields[i]);
      var x, y := FieldTwins(o, a, fields[i]);
      ApartWhenNested(fields);
      p, q := MessageTwins(o, a, t, i, x, y);
    case List(element, _) =>
      var x, y := FieldTwins(o, a, element);
      p, q := ListTwins(o, t, x, y);
    case Map(key, value) =>
      if !TightField(key) {
        var x, y := FieldTwins(o, a, key);
        p, q := KeyTwins(o, a, t, x, y);
      } else {
        var x, y := FieldTwins(o, a, value);
        p, q := EntryTwins(o, a, t, x, y);
      }
  }

  // A twin inside a list.

  lemma {:induction false} DecodeAll(o: E.Oracle, f: Field, items: seq<E.Stored>, slots: seq<Slot>)
    requires |items| == |slots| && forall i :: 0 <= i < |items| ==> DecodeField(o, f, items[i]) == Ok(slots[i])
    ensures DecodeEach(o, f, items) == Ok(slots)
  {
    hide DecodeField, DecodeEach;
    DecodeEachAt(o, f, items);
    assert DecodeEach(o, f, items).value == slots;
  }

  lemma {:induction false} ListTwins(
    o: E.Oracle, t: DataType, x: E.Stored, y: E.Stored) returns (p: E.Stored, q: E.Stored)
    requires t.List? && Renderable(t) && Twins(o, t.element, x, y)
    ensures TwinValues(o, t, p, q)
  {
    hide DecodeField, FieldType, DecodeEach, RenderableField;
    var n: nat := if t.fixedLength == 0 then 1 else t.fixedLength;
    var items := seq(n, i => x);
    var others := items[0 := y];
    var slots := seq(n, i => DecodeField(o, t.element, x).value);
    DecodeAll(o, t.element, items, slots);
    DecodeAll(o, t.element, others, slots);
    p, q := E.Arr(items), E.Arr(others);
    assert items[0] != others[0];
  }

  // A twin inside a map.

  lemma {:induction false} SingleEntry(o: E.Oracle, t: DataType, k: E.Stored, v: E.Stored)
    requires t.Map? && E.HasType(k, FieldType(t.key)) && E.HasType(v, FieldType(t.value))
    requires DecodeField(o, t.key, k).Ok? && DecodeField(o, t.value, v).Ok?
    ensures E.HasType(E.MapOf([E.Entry(k, v)]), TypeOf(t))
    ensures Decode(o, t, E.MapOf([E.Entry(k, v)]))
         == Ok(Entries([Pair(DecodeField(o, t.key, k).value, DecodeField(o, t.value, v).value)]))
  {
    hide DecodeField, FieldType, DecodeEach;
    var entries := [E.Entry(k, v)];
    assert E.Keys(entries) == [k] && E.Values(entries) == [v];
    DecodeAll(o, t.key, [k], [DecodeField(o, t.key, k).value]);
    DecodeAll(o, t.value, [v], [DecodeField(o, t.value, v).value]);
    assert Zip([DecodeField(o, t.key, k).value], [DecodeField(o, t.value, v).value])
        == [Pair(DecodeField(o, t.key, k).value, DecodeField(o, t.value, v).value)];
  }

  lemma {:induction false} SampleStored(o: E.Oracle, a: Samples, f: Field)
    requires SamplesOk(o, a) && RenderableField(f)
    ensures E.HasType(EncodeSlot(f, SampleSlot(a, f)), FieldType(f))
    ensures DecodeField(o, f, EncodeSlot(f, SampleSlot(a, f))).Ok?
  {
    hide DecodeField, FieldType, EncodeSlot, SampleSlot, RenderableField, WellFormedSlot, FitsSlot;
    SampleSlotOk(o, a, f);
    SlotTyped(o, f, SampleSlot(a, f));
    SlotRoundTrip(o, f, SampleSlot(a, f));
  }

  lemma {:induction false} KeyTwins(o: E.Oracle, a: Samples, t: DataType, x: E.Stored, y: E.Stored)
    returns (p: E.Stored, q: E.Stored)
    requires SamplesOk(o, a) && t.Map? && Renderable(t) && Twins(o, t.key, x, y)
    ensures TwinValues(o, t, p, q)
  {
    hide DecodeField, FieldType, Decode, TypeOf, EncodeSlot, SampleSlot, RenderableField, SamplesOk;
    var w := EncodeSlot(t.value, SampleSlot(a, t.value));
    SampleStored(o, a, t.value);
    SingleEntry(o, t, x, w);
    SingleEntry(o, t, y, w);
    p, q := E.MapOf([E.Entry(x, w)]), E.MapOf([E.Entry(y, w)]);
    assert p.entries[0] != q.entries[0];
  }

  lemma {:induction false} EntryTwins(o: E.Oracle, a: Samples, t: DataType, x: E.Stored, y: E.Stored)
    returns (p: E.Stored, q: E.Stored)
    requires SamplesOk(o, a) && t.Map? && Renderable(t) && Twins(o, t.value, x, y)
    ensures TwinValues(o, t, p, q)
  {
    hide DecodeField, FieldType, Decode, TypeOf, EncodeSlot, SampleSlot, RenderableField, SamplesOk;
    var k := EncodeSlot(t.key, SampleSlot(a, t.key));
    SampleStored(o, a, t.key);
    SingleEntry(o, t, k, x);
    SingleEntry(o, t, k, y);
    p, q := E.MapOf([E.Entry(k, x)]), E.MapOf([E.Entry(k, y)]);
    assert p.entries[0] != q.entries[0];
  }

  // A twin inside a message.

  /** A sample message whose i-th slot is given. */
  function SamplesWith(a: Samples, fields: seq<Field>, i: nat, s: Slot): (r: seq<Slot>)
    requires i < |fields|
    ensures |r| == |fields| && r[i] == s
    ensures forall k :: 0 <= k < |fields| && k != i ==> r[k] == SampleSlot(a, fields[k])
  {
    SampleSlots(a, fields)[i := s]
  }

  lemma {:induction false} SamplesWithOk(o: E.Oracle, a: Samples, fields: seq<Field>, i: nat, s: Slot)
    requires SamplesOk(o, a) && OneofsOk(fields) && forall k :: 0 <= k < |fields| ==> RenderableField(fields[k])
    requires i < |fields| && WellFormedSlot(o, fields[i], s)
    ensures WellFormedScope(o, fields, SamplesWith(a, fields, i, s))
    ensures FitsScope(fields, SamplesWith(a, fields, i, s)) <==>
            FitsSlot(fields[i], s) && (s.Present? ==> Selectable(fields[i]))
  {
    hide SampleSlot, RenderableField, WellFormedSlot, FitsSlot, Number, ValidIdentifier, CaseName;
    var slots := SamplesWith(a, fields, i, s);
    forall k | 0 <= k < |fields|
      ensures WellFormedSlot(o, fields[k], slots[k]) && (k != i ==> FitsSlot(fields[k], slots[k]))
      ensures fields[k].oneof != "" && k != i ==> slots[k].Absent?
    {
      if k != i {
        SampleSlotOk(o, a, fields[k]);
        if fields[k].oneof != "" {
          MemberSampleAbsent(a, fields[k]);
        }
      }
    }
  }

  /** Storing another value of the same slot changes nothing that is read. */
  lemma {:induction false} RestoredMessage(
    o: E.Oracle, fields: seq<Field>, slots: seq<Slot>, row: map<string, E.Stored>, i: nat, x: E.Stored)
    requires NamesApart(fields) && i < |fields| == |slots| && TypedRow(fields, row)
    requires DecodeMessage(o, fields, row) == Ok(Message(slots))
    requires E.HasType(x, FieldType(fields[i])) && DecodeField(o, fields[i], x) == Ok(slots[i])
    ensures TypedRow(fields, row[fields[i].name := x])
    ensures DecodeMessage(o, fields, row[fields[i].name := x]) == Ok(Message(slots))
  {
    hide DecodeField, DecodeFields, FieldType, TypedRow, NamesApart, CasesAgree;
    var changed := row[fields[i].name := x];
    RestoredTyped(fields, row, i, x);
    RestoredFields(o, fields, slots, row, i, x);
    RestoredCases(fields, slots, row, i, x);
  }

  lemma {:induction false} RestoredTyped(fields: seq<Field>, row: map<string, E.Stored>, i: nat, x: E.Stored)
    requires NamesApart(fields) && i < |fields| && TypedRow(fields, row) && E.HasType(x, FieldType(fields[i]))
    ensures TypedRow(fields, row[fields[i].name := x])
  {
    hide FieldType, ElementsFrom, E.HasType, NamesApart;
    var elements := ScopeElements(fields);
    var changed := row[fields[i].name := x];
    FieldTyped(fields, row, i);
    FieldDeclared(fields, 0, i);
    DeclaredDistinct(fields, 0);
    TypedNames(fields, row);
    assert changed.Keys == row.Keys;
    forall k | 0 <= k < |elements|
      ensures elements[k].name in changed && E.HasType(changed[elements[k].name], elements[k].typ)
    {
      ElementTyped(fields, row, elements[k]);
      if elements[k].name == fields[i].name {
        SameElement(elements, elements[k], E.Element(fields[i].name, FieldType(fields[i])));
      }
    }
    TupleHasType(changed, elements);
  }

  lemma {:induction false} TypedNames(fields: seq<Field>, row: map<string, E.Stored>)
    requires TypedRow(fields, row)
    ensures row.Keys == E.Names(ScopeElements(fields))
  {
    hide ScopeElements;
  }

  lemma {:induction false} SameElement(elements: seq<E.Element>, a: E.Element, b: E.Element)
    requires DistinctNames(elements) && a in elements && b in elements && a.name == b.name
    ensures a == b
  {
    var i :| 0 <= i < |elements| && elements[i] == a;
    var j :| 0 <= j < |elements| && elements[j] == b;
  }

  lemma {:induction false} RestoredFields(
    o: E.Oracle, fields: seq<Field>, slots: seq<Slot>, row: map<string, E.Stored>, i: nat, x: E.Stored)
    requires NamesApart(fields) && i < |fields| == |slots|
    requires DecodeFields(o, fields, row) == Ok(slots) && DecodeField(o, fields[i], x) == Ok(slots[i])
    ensures DecodeFields(o, fields, row[fields[i].name := x]) == Ok(slots)
  {
    hide DecodeField, DecodeFields, OneofsOk, ValidIdentifier;
    var changed := row[fields[i].name := x];
    DecodeFieldsAt(o, fields, row);
    DecodeFieldsAt(o, fields, changed);
    forall k | 0 <= k < |fields|
      ensures DecodeField(o, fields[k], E.Lookup(changed, fields[k].name)) == Ok(slots[k])
    {
      assert k != i ==> fields[k].name != fields[i].name;
    }
    assert DecodeFields(o, fields, changed).value == slots;
  }

  lemma {:induction false} RestoredCases(
    fields: seq<Field>, slots: seq<Slot>, row: map<string, E.Stored>, i: nat, x: E.Stored)
    requires NamesApart(fields) && i < |fields| == |slots| && CasesAgree(fields, slots, row)
    ensures CasesAgree(fields, slots, row[fields[i].name := x])
  {
    hide NamesOk, ValidIdentifier, Number, CaseName, Exclusive, Selected;
  }

  lemma {:induction false} MessageTwins(
    o: E.Oracle, a: Samples, t: DataType, i: nat, x: E.Stored, y: E.Stored) returns (p: E.Stored, q: E.Stored)
    requires SamplesOk(o, a) && t.Struct? && Renderable(t) && NamesApart(t.fields) && i < |t.fields|
    requires Twins(o, t.fields[i], x, y)
    requires t.fields[i].presence == OneofMember ==> DecodeField(o, t.fields[i], x) == Ok(Absent)
    ensures TwinValues(o, t, p, q)
  {
    hide DecodeField, FieldType, DecodeMessage, EncodeMessage, NamesApart, TypedRow, SamplesOk, WellFormedScope,
         FitsScope, NamesOk, WellFormedSlot, FitsSlot, RenderableField, ScopeElements;
    var fields := t.fields;
    var s := DecodeField(o, fields[i], x).value;
    SlotWellFormed(o, fields[i], x);
    SlotFits(o, fields[i], x);
    SamplesWithOk(o, a, fields, i, s);
    var slots := SamplesWith(a, fields, i, s);
    var row := EncodeMessage(fields, slots);
    MessageRoundTrip(o, fields, slots);
    MessageTyped(o, fields, slots);
    RestoredMessage(o, fields, slots, row, i, x);
    RestoredMessage(o, fields, slots, row, i, y);
    var name := fields[i].name;
    p, q := E.Tup(row[name := x]), E.Tup(row[name := y]);
    MessageIsTuple(o, t, row[name := x]);
    MessageIsTuple(o, t, row[name := y]);
    assert row[name := x][name] != row[name := y][name];
  }

  lemma {:induction false} MessageIsTuple(o: E.Oracle, t: DataType, row: map<string, E.Stored>)
    requires t.Struct?
    ensures Decode(o, t, E.Tup(row)) == DecodeMessage(o, t.fields, row)
    ensures E.HasType(E.Tup(row), TypeOf(t)) <==> TypedRow(t.fields, row)
  {
    hide DecodeMessage, ScopeElements;
  }

  // ----- the condition is exact -----

  /** The checks of a map type let nothing through but representations. */
  ghost predicate ChecksDecide(o: E.Oracle, t: DataType, path: string)
    requires MapType(t, path).Ok?
  {
    forall p :: E.HasType(p, TypeOf(t)) && AllHold(o, MapType(t, path).value.checks, p) ==> Decode(o, t, p).Ok?
  }

  lemma {:induction false} RepeatedKey(o: E.Oracle, t: DataType, path: string, x: E.Stored, y: E.Stored, w: E.Stored)
    requires t.Map? && Renderable(t) && MapType(t, path).Ok? && Twins(o, t.key, x, y)
    requires E.HasType(w, FieldType(t.value)) && DecodeField(o, t.value, w).Ok?
    ensures var p := E.MapOf([E.Entry(x, w), E.Entry(y, w)]);
            && E.HasType(p, TypeOf(t))
            && AllHold(o, MapType(t, path).value.checks, p)
            && Decode(o, t, p).Err?
  {
    var entries := [E.Entry(x, w), E.Entry(y, w)];
    RepeatedKeyHolds(o, t, path, x, y, w);
    RepeatedKeyUndecodable(o, t, x, y, w);
  }

  lemma {:induction false} RepeatedKeyUndecodable(o: E.Oracle, t: DataType, x: E.Stored, y: E.Stored, w: E.Stored)
    requires t.Map? && Twins(o, t.key, x, y)
    requires E.HasType(w, FieldType(t.value)) && DecodeField(o, t.value, w).Ok?
    ensures E.HasType(E.MapOf([E.Entry(x, w), E.Entry(y, w)]), TypeOf(t))
    ensures Decode(o, t, E.MapOf([E.Entry(x, w), E.Entry(y, w)])).Err?
  {
    hide DecodeField, FieldType, DecodeEach;
    var entries := [E.Entry(x, w), E.Entry(y, w)];
    assert E.Keys(entries) == [x, y] && E.Values(entries) == [w, w];
    var s, v := DecodeField(o, t.key, x).value, DecodeField(o, t.value, w).value;
    DecodeAll(o, t.key, [x, y], [s, s]);
    DecodeAll(o, t.value, [w, w], [v, v]);
    var pairs := Zip([s, s], [v, v]);
    assert pairs[0].key == pairs[1].key;
  }

  lemma {:induction false} RepeatedKeyHolds(
    o: E.Oracle, t: DataType, path: string, x: E.Stored, y: E.Stored, w: E.Stored)
    requires t.Map? && Renderable(t) && MapType(t, path).Ok? && Twins(o, t.key, x, y)
    requires E.HasType(w, FieldType(t.value)) && DecodeField(o, t.value, w).Ok?
    ensures AllHold(o, MapType(t, path).value.checks, E.MapOf([E.Entry(x, w), E.Entry(y, w)]))
  {
    hide DecodeField, FieldType, MapField, AllHold, RenderableField;
    var entries := [E.Entry(x, w), E.Entry(y, w)];
    assert E.Keys(entries) == [x, y] && E.Values(entries) == [w, w];
    MapFieldAccepts(t.key, path + ".key");
    MapFieldAccepts(t.value, path + ".value");
    MapFieldScoped(t.key, path + ".key");
    MapFieldScoped(t.value, path + ".value");
    FieldMeans(o, t.key, path + ".key", x);
    FieldMeans(o, t.key, path + ".key", y);
    FieldMeans(o, t.value, path + ".value", w);
    var k, v := MapField(t.key, path + ".key").value.checks, MapField(t.value, path + ".value").value.checks;
    MapChecksSplit(o, k, v, path, entries);
    assert NoRepeats([x, y]);
  }

  /** For a map whose key and value decide for themselves, the generated checks
      decide exactly when the key is tight. */
  lemma {:induction false} TightKeyIsExact(o: E.Oracle, a: Samples, t: DataType, path: string)
    requires SamplesOk(o, a) && t.Map? && Renderable(t) && MapType(t, path).Ok?
    requires KeysTightField(t.key) && KeysTightField(t.value)
    ensures ChecksDecide(o, t, path) <==> TightField(t.key)
  {
    hide DecodeField, FieldType, MapType, AllHold, RenderableField, TightField, KeysTightField, Decode, TypeOf, Twins,
         EncodeSlot, SampleSlot, SamplesOk;
    if TightField(t.key) {
      forall p | E.HasType(p, TypeOf(t)) && AllHold(o, MapType(t, path).value.checks, p)
        ensures Decode(o, t, p).Ok?
      {
        TypeMeans(o, t, path, p);
      }
    } else {
      var x, y := FieldTwins(o, a, t.key);
      var w := EncodeSlot(t.value, SampleSlot(a, t.value));
      SampleStored(o, a, t.value);
      RepeatedKey(o, t, path, x, y, w);
    }
  }
}
