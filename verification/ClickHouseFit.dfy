/** Which logical values fit the declared columns. */
module ClickHouseFit {
  import opened LogicalSchema
  import opened ClickHouseLowering
  import opened ClickHouseAcceptance
  import opened ClickHouseValues
  import opened ClickHouseOneofs
  import opened ClickHouseEncoding
  import E = ClickHouseExpr

  // ----- the declared types are well named -----

  lemma {:induction false} ElementSource(fields: seq<Field>, k: nat, e: E.Element) returns (i: nat, isCase: bool)
    requires k <= |fields| && e in ElementsFrom(fields, k)
    ensures k <= i < |fields|
    ensures isCase ==> FirstOfGroup(fields, i) && e == E.Element(CaseName(fields[i].oneof), E.Int32)
    ensures !isCase ==> e == E.Element(fields[i].name, FieldType(fields[i]))
    decreases |fields| - k
  {
    hide FieldType;
    if FirstOfGroup(fields, k) && e == E.Element(CaseName(fields[k].oneof), E.Int32) {
      i, isCase := k, true;
    } else if e == E.Element(fields[k].name, FieldType(fields[k])) {
      i, isCase := k, false;
    } else {
      i, isCase := ElementSource(fields, k + 1, e);
    }
  }

  lemma {:induction false} LaterName(fields: seq<Field>, k: nat, e: E.Element)
    requires NamesApart(fields) && k < |fields| && e in ElementsFrom(fields, k + 1)
    ensures e.name != fields[k].name
    ensures FirstOfGroup(fields, k) ==> e.name != CaseName(fields[k].oneof)
  {
    hide FieldType;
    var i, isCase := ElementSource(fields, k + 1, e);
    if isCase && FirstOfGroup(fields, k) && e.name == CaseName(fields[k].oneof) {
      CaseNameInjective(fields[i].oneof, fields[k].oneof);
    }
  }

  lemma {:induction false} ConsDistinct(e: E.Element, rest: seq<E.Element>)
    requires DistinctNames(rest) && forall x :: x in rest ==> x.name != e.name
    ensures DistinctNames([e] + rest)
  {
  }

  lemma {:induction false} DeclaredDistinct(fields: seq<Field>, k: nat)
    requires NamesApart(fields) && k <= |fields|
    ensures DistinctNames(ElementsFrom(fields, k))
    decreases |fields| - k
  {
    hide FieldType, DistinctNames, NamesApart, ElementsFrom, CaseName;
    if k == |fields| {
      NothingFrom(fields);
      NoNames();
    } else {
      DeclaredDistinct(fields, k + 1);
      var rest := ElementsFrom(fields, k + 1);
      var own, case_ := E.Element(fields[k].name, FieldType(fields[k])), E.Element(CaseName(fields[k].oneof), E.Int32);
      FromNext(fields, k);
      forall x | x in rest
        ensures x.name != own.name
        ensures FirstOfGroup(fields, k) ==> x.name != case_.name
      {
        LaterName(fields, k, x);
      }
      ConsDistinct(own, rest);
      if FirstOfGroup(fields, k) {
        CaseIsNotName(fields, k);
        ConsDistinct(case_, [own] + rest);
      }
    }
  }

  lemma {:induction false} NothingFrom(fields: seq<Field>)
    ensures ElementsFrom(fields, |fields|) == []
  {
  }

  lemma {:induction false} FromNext(fields: seq<Field>, k: nat)
    requires k < |fields|
    ensures var rest := [E.Element(fields[k].name, FieldType(fields[k]))] + ElementsFrom(fields, k + 1);
            ElementsFrom(fields, k)
              == if FirstOfGroup(fields, k) then [E.Element(CaseName(fields[k].oneof), E.Int32)] + rest else rest
  {
    hide FieldType;
  }

  lemma {:induction false} NoNames()
    ensures DistinctNames([])
  {
  }

  lemma {:induction false} CaseIsNotName(fields: seq<Field>, k: nat)
    requires NamesApart(fields) && k < |fields| && fields[k].oneof != ""
    ensures CaseName(fields[k].oneof) != fields[k].name
  {
  }

  lemma {:induction false} FieldWellNamed(f: Field)
    requires RenderableField(f)
    ensures WellNamed(FieldType(f))
    decreases f, 0
  {
    hide TypeOf, Renderable;
    TypeWellNamed(f.typ);
    WrapperWellNamed(TypeOf(f.typ));
  }

  lemma {:induction false} WrapperWellNamed(t: E.SqlType)
    requires WellNamed(t)
    ensures WellNamed(WrapperType(t))
  {
  }

  lemma {:induction false} ScopeWellNamed(fields: seq<Field>)
    requires NamesApart(fields) && forall i :: 0 <= i < |fields| ==> RenderableField(fields[i])
    ensures WellNamed(E.Tuple(ScopeElements(fields)))
    decreases fields, 0
  {
    hide FieldType, RenderableField, NamesApart, ElementsFrom, DistinctNames;
    if fields != [] {
      DeclaredDistinct(fields, 0);
      forall k | 0 <= k < |ElementsFrom(fields, 0)|
        ensures WellNamed(ElementsFrom(fields, 0)[k].typ)
      {
        var i, isCase := ElementSource(fields, 0, ElementsFrom(fields, 0)[k]);
        if !isCase {
          FieldWellNamed(fields[i]);
        }
      }
    } else {
      UnitDistinct();
    }
  }

  lemma {:induction false} UnitDistinct()
    ensures DistinctNames([E.Element(UNIT, E.Bool)])
  {
  }

  lemma {:induction false} TypeWellNamed(t: DataType)
    requires Renderable(t)
    ensures WellNamed(TypeOf(t))
    decreases t, 0
  {
    hide FieldType, RenderableField, ScopeElements, NamesApart, NamesOk, OneofsOk;
    match t
    case Struct(_, fields) =>
      ApartWhenNested(fields);
      ScopeWellNamed(fields);
    case List(element, _) => FieldWellNamed(element);
    case Map(key, value) =>
      FieldWellNamed(key);
      FieldWellNamed(value);
    case _ =>
  }

  // ----- fitting -----

  predicate FitsSlot(f: Field, s: Slot)
    decreases f
  {
    s.Present? ==> Fits(f.typ, s.value)
  }

  /** A selected member's number fits the Int32 discriminator. */
  predicate CasesFit(fields: seq<Field>, slots: seq<Slot>)
    requires |fields| == |slots|
  {
    forall i :: 0 <= i < |fields| && fields[i].oneof != "" && slots[i].Present? ==> E.InInt32(Number(fields[i]))
  }

  predicate FitsScope(fields: seq<Field>, slots: seq<Slot>)
    decreases fields
  {
    && |slots| == |fields|
    && (forall i :: 0 <= i < |fields| ==> FitsSlot(fields[i], slots[i]))
    && CasesFit(fields, slots)
  }

  /** Within the range of the column types: nanoseconds in 64 bits, selected
      numbers in 32. */
  predicate Fits(t: DataType, v: Value)
    decreases t
  {
    match t
    case Struct(_, fields) => v.Message? && FitsScope(fields, v.slots)
    case List(element, _) => v.Elements? && forall i :: 0 <= i < |v.items| ==> FitsSlot(element, v.items[i])
    case Map(key, value) =>
      v.Entries? && forall i :: 0 <= i < |v.entries| ==>
        FitsSlot(key, v.entries[i].key) && FitsSlot(value, v.entries[i].value)
    case Timestamp(_, _) => v.Int? && E.InInt64(v.n)
    case Duration(_, _) => v.Int? && E.InInt64(v.n)
    case _ => true
  }

  lemma {:induction false} WrapperHasType(present: bool, p: E.Stored, t: E.SqlType)
    ensures E.HasType(Wrapper(present, p), WrapperType(t)) <==> E.HasType(p, t)
  {
    var elements := [E.Element(PRESENT, E.Bool), E.Element(VALUE, t)];
    assert E.Names(elements) == {PRESENT, VALUE} by {
      assert elements[0] in elements && elements[1] in elements;
    }
    assert elements[0].name == PRESENT && elements[1].name == VALUE;
    var w := Wrapper(present, p);
    assert w.elements[elements[0].name] == E.B(present) && w.elements[elements[1].name] == p;
  }

  lemma {:induction false} SlotTyped(o: E.Oracle, f: Field, s: Slot)
    requires RenderableField(f) && WellFormedSlot(o, f, s)
    ensures E.HasType(EncodeSlot(f, s), FieldType(f)) <==> FitsSlot(f, s)
    decreases f, 0
  {
    hide TypeOf, WellFormed, Encode, Renderable, Fits, WrapperType, Wrapper, DefaultOf;
    match s
    case Absent =>
      if UsesWrapper(f) {
        TypeWellNamed(f.typ);
        DefaultTyped(TypeOf(f.typ));
        WrapperHasType(false, DefaultOf(TypeOf(f.typ)), TypeOf(f.typ));
      }
    case Present(v) =>
      TypedIff(o, f.typ, v);
      WrapperHasType(true, Encode(f.typ, v), TypeOf(f.typ));
  }

  predicate TypedAll(items: seq<E.Stored>, t: E.SqlType) {
    forall i :: 0 <= i < |items| ==> E.HasType(items[i], t)
  }

  predicate FitAll(f: Field, slots: seq<Slot>) {
    forall i :: 0 <= i < |slots| ==> FitsSlot(f, slots[i])
  }

  lemma {:induction false} EachTyped(o: E.Oracle, f: Field, slots: seq<Slot>)
    requires RenderableField(f) && forall i :: 0 <= i < |slots| ==> WellFormedSlot(o, f, slots[i])
    ensures TypedAll(EncodeEach(f, slots), FieldType(f)) <==> FitAll(f, slots)
    decreases f, 1
  {
    hide FieldType, WellFormedSlot, EncodeSlot, RenderableField, FitsSlot;
    var items := EncodeEach(f, slots);
    forall i | 0 <= i < |slots|
      ensures E.HasType(items[i], FieldType(f)) <==> FitsSlot(f, slots[i])
    {
      SlotTyped(o, f, slots[i]);
    }
    if TypedAll(items, FieldType(f)) {
      forall i | 0 <= i < |slots|
        ensures FitsSlot(f, slots[i])
      {
        assert E.HasType(items[i], FieldType(f));
      }
    }
  }

  lemma {:induction false} ListTyped(o: E.Oracle, t: DataType, v: Value)
    requires t.List? && Renderable(t) && WellFormed(o, t, v)
    ensures E.HasType(Encode(t, v), TypeOf(t)) <==> Fits(t, v)
    decreases t, -1
  {
    hide FieldType, WellFormedSlot, EncodeEach, RenderableField, FitsSlot;
    EachTyped(o, t.element, v.items);
    assert E.HasType(Encode(t, v), TypeOf(t)) <==> TypedAll(EncodeEach(t.element, v.items), FieldType(t.element));
  }

  lemma {:induction false} CasesTyped(fields: seq<Field>, slots: seq<Slot>, i: nat)
    requires |fields| == |slots| && CasesFit(fields, slots) && i < |fields| && fields[i].oneof != ""
    ensures E.InInt32(Selected(fields, slots, fields[i].oneof))
  {
    var k := SelectedFrom(fields, slots, fields[i].oneof);
  }

  lemma {:induction false} TypedCases(fields: seq<Field>, slots: seq<Slot>, row: map<string, E.Stored>)
    requires NamesApart(fields) && fields != [] && |fields| == |slots| && Exclusive(fields, slots)
    requires row == EncodeFrom(fields, slots, 0) && TypedRow(fields, row)
    ensures CasesFit(fields, slots)
  {
    hide EncodeFrom, TypedRow, NamesApart, Exclusive;
    forall i | 0 <= i < |fields| && fields[i].oneof != "" && slots[i].Present?
      ensures E.InInt32(Number(fields[i]))
    {
      var first := GroupHasFirst(fields, i);
      CaseDeclared(fields, 0, first);
      ElementTyped(fields, row, E.Element(CaseName(fields[i].oneof), E.Int32));
      CaseOfMember(fields, slots, i);
      SelectedMember(fields, slots, i);
    }
  }

  lemma {:induction false} FittingElement(o: E.Oracle, fields: seq<Field>, slots: seq<Slot>, e: E.Element)
    requires NamesApart(fields) && WellFormedScope(o, fields, slots) && FitsScope(fields, slots)
    requires forall i :: 0 <= i < |fields| ==> RenderableField(fields[i])
    requires e in ElementsFrom(fields, 0)
    ensures e.name in EncodeFrom(fields, slots, 0) && E.HasType(EncodeFrom(fields, slots, 0)[e.name], e.typ)
    decreases fields, 0
  {
    hide FieldType, WellFormedSlot, EncodeSlot, EncodeFrom, ElementsFrom, RenderableField, FitsSlot, NamesApart,
         CasesFit;
    var i, isCase := ElementSource(fields, 0, e);
    if isCase {
      CaseStored(fields, slots, 0, i);
      CasesTyped(fields, slots, i);
    } else {
      FieldStored(fields, slots, 0, i);
      SlotTyped(o, fields[i], slots[i]);
    }
  }

  lemma {:induction false} FittingMessage(o: E.Oracle, fields: seq<Field>, slots: seq<Slot>)
    requires NamesApart(fields) && WellFormedScope(o, fields, slots) && FitsScope(fields, slots) && fields != []
    requires forall i :: 0 <= i < |fields| ==> RenderableField(fields[i])
    ensures TypedRow(fields, EncodeFrom(fields, slots, 0))
    decreases fields, 1
  {
    hide FieldType, WellFormedSlot, EncodeFrom, ElementsFrom, RenderableField, FitsSlot, NamesApart, CasesFit,
         Exclusive;
    StoredNames(fields, slots, 0);
    forall k | 0 <= k < |ElementsFrom(fields, 0)|
      ensures var e := ElementsFrom(fields, 0)[k];
              e.name in EncodeFrom(fields, slots, 0) && E.HasType(EncodeFrom(fields, slots, 0)[e.name], e.typ)
    {
      FittingElement(o, fields, slots, ElementsFrom(fields, 0)[k]);
    }
  }

  lemma {:induction false} TypedMessageFits(o: E.Oracle, fields: seq<Field>, slots: seq<Slot>)
    requires NamesApart(fields) && WellFormedScope(o, fields, slots) && fields != []
    requires forall i :: 0 <= i < |fields| ==> RenderableField(fields[i])
    requires TypedRow(fields, EncodeFrom(fields, slots, 0))
    ensures FitsScope(fields, slots)
    decreases fields, 1
  {
    hide FieldType, WellFormedSlot, EncodeSlot, EncodeFrom, RenderableField, NamesApart, TypedRow, FitsSlot, CasesFit,
         Exclusive;
    TypedCases(fields, slots, EncodeFrom(fields, slots, 0));
    forall i | 0 <= i < |fields|
      ensures FitsSlot(fields[i], slots[i])
    {
      FieldTyped(fields, EncodeFrom(fields, slots, 0), i);
      FieldStored(fields, slots, 0, i);
      SlotTyped(o, fields[i], slots[i]);
    }
  }

  lemma {:induction false} MessageTyped(o: E.Oracle, fields: seq<Field>, slots: seq<Slot>)
    requires NamesApart(fields) && WellFormedScope(o, fields, slots)
    requires forall i :: 0 <= i < |fields| ==> RenderableField(fields[i])
    ensures TypedRow(fields, EncodeMessage(fields, slots)) <==> FitsScope(fields, slots)
    decreases fields, 2
  {
    hide EncodeFrom, RenderableField, NamesApart, TypedRow, FitsSlot, WellFormedSlot;
    if fields == [] {
      UnitTyped();
    } else if TypedRow(fields, EncodeFrom(fields, slots, 0)) {
      TypedMessageFits(o, fields, slots);
    } else if FitsScope(fields, slots) {
      FittingMessage(o, fields, slots);
    }
  }

  lemma {:induction false} UnitTyped()
    ensures TypedRow([], map[UNIT := E.B(false)])
  {
    var elements := [E.Element(UNIT, E.Bool)];
    assert elements[0] in elements;
    assert E.Names(elements) == {UNIT};
  }

  lemma {:induction false} EntriesTyped(o: E.Oracle, t: DataType, v: Value)
    requires t.Map? && Renderable(t) && WellFormed(o, t, v)
    ensures E.HasType(Encode(t, v), TypeOf(t)) <==> Fits(t, v)
    decreases t, -1
  {
    hide FieldType, WellFormedSlot, EncodeEach, RenderableField, FitsSlot;
    var keys, values := Keys(v.entries), Values(v.entries);
    EachTyped(o, t.key, keys);
    EachTyped(o, t.value, values);
    var entries := Encode(t, v).entries;
    EntriesHaveType(entries, FieldType(t.key), FieldType(t.value));
    assert Fits(t, v) <==> FitAll(t.key, keys) && FitAll(t.value, values) by {
      assert forall i :: 0 <= i < |keys| ==> keys[i] == v.entries[i].key && values[i] == v.entries[i].value;
    }
  }

  lemma {:induction false} EntriesHaveType(entries: seq<E.Entry>, key: E.SqlType, value: E.SqlType)
    ensures E.HasType(E.MapOf(entries), E.Map(key, value)) <==>
            TypedAll(E.Keys(entries), key) && TypedAll(E.Values(entries), value)
  {
    hide E.HasType;
    MapHasType(entries, key, value);
    var keys, values := E.Keys(entries), E.Values(entries);
    if TypedAll(keys, key) && TypedAll(values, value) {
      forall i | 0 <= i < |entries|
        ensures E.HasType(entries[i].key, key) && E.HasType(entries[i].value, value)
      {
        assert keys[i] == entries[i].key && values[i] == entries[i].value;
      }
    }
  }

  lemma {:induction false} MapHasType(entries: seq<E.Entry>, key: E.SqlType, value: E.SqlType)
    ensures E.HasType(E.MapOf(entries), E.Map(key, value)) <==>
            forall i :: 0 <= i < |entries| ==> E.HasType(entries[i].key, key) && E.HasType(entries[i].value, value)
  {
  }

  /** A well-formed value has a place in its column exactly when it fits. */
  lemma {:induction false} TypedIff(o: E.Oracle, t: DataType, v: Value)
    requires Renderable(t) && WellFormed(o, t, v)
    ensures E.HasType(Encode(t, v), TypeOf(t)) <==> Fits(t, v)
    ensures !TypeOf(t).Nullable? && !Encode(t, v).Null?
    decreases t, 0
  {
    hide Encode, TypeOf, Fits, WellFormed, E.HasType, Renderable;
    EncodedShape(o, t, v);
    match t
    case Struct(_, _) => StructTyped(o, t, v);
    case List(_, _) => ListTyped(o, t, v);
    case Map(_, _) => EntriesTyped(o, t, v);
    case _ => LeafTyped(o, t, v);
  }

  lemma {:induction false} EncodedShape(o: E.Oracle, t: DataType, v: Value)
    requires Renderable(t) && WellFormed(o, t, v)
    ensures !TypeOf(t).Nullable? && !Encode(t, v).Null?
  {
    hide FieldType, WellFormedSlot, EncodeEach, EncodeMessage, RenderableField, ScopeElements, NamesOk, OneofsOk,
         Exclusive;
  }

  lemma {:induction false} StructTyped(o: E.Oracle, t: DataType, v: Value)
    requires t.Struct? && Renderable(t) && WellFormed(o, t, v)
    ensures E.HasType(Encode(t, v), TypeOf(t)) <==> Fits(t, v)
    decreases t, -1
  {
    hide FieldType, WellFormedSlot, EncodeMessage, RenderableField, FitsScope, ScopeElements, NamesOk, OneofsOk,
         NamesApart, E.HasType;
    ApartWhenNested(t.fields);
    MessageTyped(o, t.fields, v.slots);
  }

  lemma {:induction false} LeafTyped(o: E.Oracle, t: DataType, v: Value)
    requires !t.Struct? && !t.List? && !t.Map? && Renderable(t) && WellFormed(o, t, v)
    ensures E.HasType(Encode(t, v), TypeOf(t)) <==> Fits(t, v)
  {
  }
}
