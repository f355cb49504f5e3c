/** When two stored values of a type can represent the same logical value.

    A CHECK compares stored map keys, protobuf compares logical ones.  The two
    agree exactly when the key's representation is tight: nothing in it sits
    behind an unset presence bit. */
module ClickHouseKeys {
  import opened LogicalSchema
  import opened ClickHouseLowering
  import opened ClickHouseAcceptance
  import opened ClickHouseValues
  import E = ClickHouseExpr

  predicate TightField(f: Field)
    decreases f
  {
    && f.presence != OneofMember
    && (f.presence == Explicit ==> !Composite(f.typ))
    && TightType(f.typ)
  }

  /** No tuple wrapper with an optional value occurs in the representation. */
  predicate TightType(t: DataType)
    decreases t
  {
    match t
    case Struct(_, fields) => forall i :: 0 <= i < |fields| ==> TightField(fields[i])
    case List(element, _) => TightField(element)
    case Map(key, value) => TightField(key) && TightField(value)
    case _ => true
  }

  predicate KeysTightField(f: Field)
    decreases f
  {
    KeysTight(f.typ)
  }

  /** A oneof member whose number does not fit the Int32 discriminator can never
      be selected. */
  predicate Selectable(f: Field) { f.oneof != "" ==> E.InInt32(Number(f)) }

  predicate ScopeKeysTight(fields: seq<Field>)
    decreases fields
  {
    forall i :: 0 <= i < |fields| && Selectable(fields[i]) ==> KeysTightField(fields[i])
  }

  /** Every map that a value of the type can hold has a tight key. */
  predicate KeysTight(t: DataType)
    decreases t
  {
    match t
    case Struct(_, fields) => ScopeKeysTight(fields)
    case List(element, _) => KeysTightField(element)
    case Map(key, value) => TightField(key) && KeysTightField(key) && KeysTightField(value)
    case _ => true
  }

  lemma {:induction false} WrapperTyped(p: E.Stored, inner: E.SqlType)
    requires E.HasType(p, WrapperType(inner))
    ensures p.Tup? && p.elements.Keys == {PRESENT, VALUE}
    ensures p.elements[PRESENT].B? && E.HasType(p.elements[VALUE], inner)
  {
    var elements := [E.Element(PRESENT, E.Bool), E.Element(VALUE, inner)];
    assert E.Names(elements) == {PRESENT, VALUE} by {
      assert elements[0] in elements && elements[1] in elements;
    }
    assert elements[0].name == PRESENT && elements[1].name == VALUE;
  }

  lemma {:induction false} WrapperInjective(o: E.Oracle, t: DataType, p: E.Stored, q: E.Stored)
    requires Renderable(t) && TightType(t)
    requires E.HasType(p, WrapperType(TypeOf(t))) && E.HasType(q, WrapperType(TypeOf(t)))
    requires DecodeWrapped(o, t, p).Ok? && DecodeWrapped(o, t, p) == DecodeWrapped(o, t, q)
    requires DecodeWrapped(o, t, p).value.Present?
    ensures p == q
    decreases t, 1
  {
    hide TypeOf, Decode, TightType, Renderable, E.HasType, WrapperType;
    WrapperTyped(p, TypeOf(t));
    WrapperTyped(q, TypeOf(t));
    DecodeInjective(o, t, p.elements[VALUE], q.elements[VALUE]);
    assert p.elements == q.elements;
  }

  lemma {:induction false} PresentInjective(o: E.Oracle, t: DataType, p: E.Stored, q: E.Stored)
    requires Renderable(t) && TightType(t)
    requires E.HasType(p, TypeOf(t)) && E.HasType(q, TypeOf(t))
    requires DecodePresent(o, t, p).Ok? && DecodePresent(o, t, p) == DecodePresent(o, t, q)
    ensures p == q
    decreases t, 1
  {
    hide Decode, TypeOf, TightType, Renderable, E.HasType;
    DecodeInjective(o, t, p, q);
  }

  lemma {:induction false} NullableInjective(o: E.Oracle, f: Field, p: E.Stored, q: E.Stored)
    requires RenderableField(f) && TightField(f) && f.presence == Explicit
    requires E.HasType(p, FieldType(f)) && E.HasType(q, FieldType(f))
    requires DecodeField(o, f, p).Ok? && DecodeField(o, f, p) == DecodeField(o, f, q)
    ensures p == q
    decreases f, 0
  {
    if !p.Null? && !q.Null? {
      PresentInjective(o, f.typ, p, q);
    }
  }

  lemma {:induction false} FieldInjective(o: E.Oracle, f: Field, p: E.Stored, q: E.Stored)
    requires RenderableField(f) && TightField(f)
    requires E.HasType(p, FieldType(f)) && E.HasType(q, FieldType(f))
    requires DecodeField(o, f, p).Ok? && DecodeField(o, f, p) == DecodeField(o, f, q)
    ensures p == q
    decreases f, 1
  {
    if f.presence == Explicit {
      NullableInjective(o, f, p, q);
    } else if f.presence == Required {
      WrapperInjective(o, f.typ, p, q);
    } else {
      PresentInjective(o, f.typ, p, q);
    }
  }

  lemma {:induction false} EachInjective(o: E.Oracle, f: Field, ps: seq<E.Stored>, qs: seq<E.Stored>)
    requires RenderableField(f) && TightField(f)
    requires forall i :: 0 <= i < |ps| ==> E.HasType(ps[i], FieldType(f))
    requires forall i :: 0 <= i < |qs| ==> E.HasType(qs[i], FieldType(f))
    requires DecodeEach(o, f, ps).Ok? && DecodeEach(o, f, ps) == DecodeEach(o, f, qs)
    ensures ps == qs
    decreases f, 2, |ps|
  {
    assert |ps| == |qs|;
    if ps != [] {
      var slots := DecodeEach(o, f, ps).value;
      assert slots[0] == DecodeField(o, f, ps[0]).value == DecodeField(o, f, qs[0]).value;
      assert slots[1..] == DecodeEach(o, f, ps[1..]).value == DecodeEach(o, f, qs[1..]).value;
      FieldInjective(o, f, ps[0], qs[0]);
      EachInjective(o, f, ps[1..], qs[1..]);
    }
  }

  lemma {:induction false} NoOneofNames(fields: seq<Field>, k: nat, e: E.Element)
    requires k <= |fields| && (forall i :: 0 <= i < |fields| ==> fields[i].oneof == "")
    requires e in ElementsFrom(fields, k)
    ensures exists i :: k <= i < |fields| && fields[i].name == e.name
    decreases |fields| - k
  {
    if e != E.Element(fields[k].name, FieldType(fields[k])) {
      NoOneofNames(fields, k + 1, e);
    }
  }

  lemma {:induction false} TightHasNoOneof(fields: seq<Field>)
    requires OneofsOk(fields) && forall i :: 0 <= i < |fields| ==> TightField(fields[i])
    ensures forall i :: 0 <= i < |fields| ==> fields[i].oneof == ""
  {
  }

  lemma {:induction false} MemberInjective(
    o: E.Oracle, fields: seq<Field>, row: map<string, E.Stored>, other: map<string, E.Stored>, i: nat)
    requires RenderableScope(fields, false) && i < |fields| && TightField(fields[i])
    requires TypedRow(fields, row) && TypedRow(fields, other)
    requires DecodeFields(o, fields, row).Ok? && DecodeFields(o, fields, row) == DecodeFields(o, fields, other)
    ensures fields[i].name in row && fields[i].name in other && row[fields[i].name] == other[fields[i].name]
    decreases fields, 0
  {
    var f := fields[i];
    FieldTyped(fields, row, i);
    FieldTyped(fields, other, i);
    DecodeFieldsAt(o, fields, row);
    DecodeFieldsAt(o, fields, other);
    FieldInjective(o, f, row[f.name], other[f.name]);
  }

  lemma {:induction false} MessageInjective(
    o: E.Oracle, fields: seq<Field>, row: map<string, E.Stored>, other: map<string, E.Stored>)
    requires RenderableScope(fields, false) && forall i :: 0 <= i < |fields| ==> TightField(fields[i])
    requires TypedRow(fields, row) && TypedRow(fields, other)
    requires DecodeMessage(o, fields, row).Ok? && DecodeMessage(o, fields, row) == DecodeMessage(o, fields, other)
    ensures row == other
    decreases fields, 1
  {
    if fields == [] {
      UnitInjective(o, row, other);
    } else {
      hide RenderableScope, TightField, DecodeFields, TypedRow, ElementsFrom;
      NamesOfTight(fields, row);
      NamesOfTight(fields, other);
      forall name | name in row
        ensures row[name] == other[name]
      {
        var i :| 0 <= i < |fields| && fields[i].name == name;
        MemberInjective(o, fields, row, other, i);
      }
    }
  }

  lemma {:induction false} UnitInjective(o: E.Oracle, row: map<string, E.Stored>, other: map<string, E.Stored>)
    requires TypedRow([], row) && TypedRow([], other)
    requires DecodeMessage(o, [], row).Ok? && DecodeMessage(o, [], other).Ok?
    ensures row == other
  {
    ElementTyped([], row, E.Element(UNIT, E.Bool));
    ElementTyped([], other, E.Element(UNIT, E.Bool));
    assert row.Keys == other.Keys == E.Names([E.Element(UNIT, E.Bool)]);
  }

  /** Without oneofs a row has exactly the fields' columns. */
  lemma {:induction false} NamesOfTight(fields: seq<Field>, row: map<string, E.Stored>)
    requires fields != [] && RenderableScope(fields, false) && TypedRow(fields, row)
    requires forall i :: 0 <= i < |fields| ==> TightField(fields[i])
    ensures forall name :: name in row <==> exists i :: 0 <= i < |fields| && fields[i].name == name
  {
    hide RenderableField, TightType, FieldType;
    TightHasNoOneof(fields);
    assert row.Keys == E.Names(ElementsFrom(fields, 0));
    forall name | name in row
      ensures exists i :: 0 <= i < |fields| && fields[i].name == name
    {
      var e :| e in ElementsFrom(fields, 0) && e.name == name;
      NoOneofNames(fields, 0, e);
    }
    forall i | 0 <= i < |fields|
      ensures fields[i].name in row
    {
      FieldTyped(fields, row, i);
    }
  }

  lemma {:induction false} EntriesInjective(o: E.Oracle, t: DataType, p: E.Stored, q: E.Stored)
    requires t.Map? && Renderable(t) && TightType(t)
    requires E.HasType(p, TypeOf(t)) && E.HasType(q, TypeOf(t))
    requires Decode(o, t, p).Ok? && Decode(o, t, p) == Decode(o, t, q)
    ensures p == q
    decreases t, -1
  {
    var entries := Decode(o, t, p).value.entries;
    var pk, qk := DecodeEach(o, t.key, E.Keys(p.entries)).value, DecodeEach(o, t.key, E.Keys(q.entries)).value;
    var pv, qv := DecodeEach(o, t.value, E.Values(p.entries)).value, DecodeEach(o, t.value, E.Values(q.entries)).value;
    assert entries == Zip(pk, pv) == Zip(qk, qv);
    assert pk == qk && pv == qv by {
      assert forall i :: 0 <= i < |entries| ==> entries[i] == Pair(pk[i], pv[i]) && entries[i] == Pair(qk[i], qv[i]);
    }
    EachInjective(o, t.key, E.Keys(p.entries), E.Keys(q.entries));
    EachInjective(o, t.value, E.Values(p.entries), E.Values(q.entries));
    forall i | 0 <= i < |p.entries|
      ensures p.entries[i] == q.entries[i]
    {
      assert E.Keys(p.entries)[i] == E.Keys(q.entries)[i];
      assert E.Values(p.entries)[i] == E.Values(q.entries)[i];
    }
  }

  /** A tight representation is one-to-one. */
  lemma {:induction false} DecodeInjective(o: E.Oracle, t: DataType, p: E.Stored, q: E.Stored)
    requires Renderable(t) && TightType(t)
    requires E.HasType(p, TypeOf(t)) && E.HasType(q, TypeOf(t))
    requires Decode(o, t, p).Ok? && Decode(o, t, p) == Decode(o, t, q)
    ensures p == q
    decreases t, 0
  {
    match t
    case Struct(_, fields) =>
      hide RenderableField, TightField, ScopeElements, DecodeMessage, NamesOk, OneofsOk;
      MessageInjective(o, fields, p.elements, q.elements);
    case List(element, _) =>
      hide RenderableField, TightField, FieldType, DecodeEach;
      EachInjective(o, element, p.items, q.items);
    case Map(_, _) =>
      hide RenderableField, TightField, FieldType, DecodeEach, Decode, TypeOf, Renderable, TightType;
      EntriesInjective(o, t, p, q);
    case _ => ScalarInjective(o, t, p, q);
  }

  lemma {:induction false} ScalarInjective(o: E.Oracle, t: DataType, p: E.Stored, q: E.Stored)
    requires !t.Struct? && !t.List? && !t.Map? && Decode(o, t, p).Ok? && Decode(o, t, p) == Decode(o, t, q)
    ensures p == q
  {
    hide WellFormed;
  }
}
