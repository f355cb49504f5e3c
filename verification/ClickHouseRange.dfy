/** Ranges: what is read back always fits, and the mapping diagnostics say
    whether everything does. */
module ClickHouseRange {
  import opened LogicalSchema
  import opened ClickHouseLowering
  import opened ClickHouseValues
  import opened ClickHouseKeys
  import opened ClickHouseOneofs
  import opened ClickHouseEncoding
  import opened ClickHouseFit
  import E = ClickHouseExpr

  // ----- reading never leaves the range -----

  lemma {:induction false} WrappedFits(o: E.Oracle, t: DataType, p: E.Stored)
    requires E.HasType(p, WrapperType(TypeOf(t))) && DecodeWrapped(o, t, p).Ok? && DecodeWrapped(o, t, p).value.Present?
    ensures Fits(t, DecodeWrapped(o, t, p).value.value)
    decreases t, 1
  {
    hide Decode, Fits, TypeOf;
    WrapperTyped(p, TypeOf(t));
    DecodeFits(o, t, p.elements[VALUE]);
  }

  lemma {:induction false} SlotFits(o: E.Oracle, f: Field, p: E.Stored)
    requires E.HasType(p, FieldType(f)) && DecodeField(o, f, p).Ok?
    ensures FitsSlot(f, DecodeField(o, f, p).value)
    decreases f, 0
  {
    hide Decode, Fits, TypeOf;
    if DecodeField(o, f, p).value.Present? {
      if UsesWrapper(f) {
        assert DecodeField(o, f, p) == DecodeWrapped(o, f.typ, p);
        WrappedFits(o, f.typ, p);
      } else {
        DecodeFits(o, f.typ, p);
      }
    }
  }

  lemma {:induction false} EachFits(o: E.Oracle, f: Field, items: seq<E.Stored>)
    requires TypedAll(items, FieldType(f)) && DecodeEach(o, f, items).Ok?
    ensures FitAll(f, DecodeEach(o, f, items).value)
    decreases f, 1
  {
    hide DecodeField, DecodeEach, FieldType, FitsSlot;
    DecodeEachAt(o, f, items);
    forall i | 0 <= i < |items|
      ensures FitsSlot(f, DecodeEach(o, f, items).value[i])
    {
      SlotFits(o, f, items[i]);
    }
  }

  lemma {:induction false} AgreedCaseFits(fields: seq<Field>, slots: seq<Slot>, row: map<string, E.Stored>)
    requires |fields| == |slots| && fields != [] && TypedRow(fields, row) && CasesAgree(fields, slots, row)
    ensures CasesFit(fields, slots)
  {
    hide TypedRow, ElementsFrom;
    forall i | 0 <= i < |fields| && fields[i].oneof != "" && slots[i].Present?
      ensures E.InInt32(Number(fields[i]))
    {
      var first := GroupHasFirst(fields, i);
      CaseDeclared(fields, 0, first);
      ElementTyped(fields, row, E.Element(CaseName(fields[i].oneof), E.Int32));
      SelectedMember(fields, slots, i);
    }
  }

  lemma {:induction false} MessageFits(o: E.Oracle, fields: seq<Field>, row: map<string, E.Stored>)
    requires TypedRow(fields, row) && DecodeMessage(o, fields, row).Ok?
    ensures DecodeMessage(o, fields, row).value.Message?
    ensures FitsScope(fields, DecodeMessage(o, fields, row).value.slots)
    decreases fields, 0
  {
    if fields != [] {
      hide DecodeFields, TypedRow, DecodeField, FitsSlot, CasesAgree, CasesFit;
      var slots := DecodeFields(o, fields, row).value;
      DecodeFieldsAt(o, fields, row);
      AgreedCaseFits(fields, slots, row);
      forall i | 0 <= i < |fields|
        ensures FitsSlot(fields[i], slots[i])
      {
        FieldTyped(fields, row, i);
        SlotFits(o, fields[i], row[fields[i].name]);
      }
    }
  }

  lemma {:induction false} EntriesFit(o: E.Oracle, t: DataType, p: E.Stored)
    requires t.Map? && E.HasType(p, TypeOf(t)) && Decode(o, t, p).Ok?
    ensures Fits(t, Decode(o, t, p).value)
    decreases t, -1
  {
    hide DecodeEach, FieldType, FitsSlot;
    EntriesHaveType(p.entries, FieldType(t.key), FieldType(t.value));
    EachFits(o, t.key, E.Keys(p.entries));
    EachFits(o, t.value, E.Values(p.entries));
  }

  lemma {:induction false} DecodeFits(o: E.Oracle, t: DataType, p: E.Stored)
    requires E.HasType(p, TypeOf(t)) && Decode(o, t, p).Ok?
    ensures Fits(t, Decode(o, t, p).value)
    decreases t, 0
  {
    hide DecodeEach, DecodeMessage, FieldType, FitsSlot, FitsScope, WellFormedPrimitive, ScopeElements;
    match t
    case Struct(_, fields) => MessageFits(o, fields, p.elements);
    case List(element, _) => EachFits(o, element, p.items);
    case Map(_, _) => EntriesFit(o, t, p);
    case _ =>
  }

  // ----- diagnostics -----

  /** Every oneof member of every message can be selected. */
  predicate NumbersFitField(f: Field)
    decreases f
  {
    NumbersFit(f.typ)
  }

  predicate ScopeNumbersFit(fields: seq<Field>)
    decreases fields
  {
    forall i :: 0 <= i < |fields| ==> Selectable(fields[i]) && NumbersFitField(fields[i])
  }

  predicate NumbersFit(t: DataType)
    decreases t
  {
    match t
    case Struct(_, fields) => ScopeNumbersFit(fields)
    case List(element, _) => NumbersFitField(element)
    case Map(key, value) => NumbersFitField(key) && NumbersFitField(value)
    case _ => true
  }

  predicate Unreduced(diagnostics: seq<Diagnostic>) {
    forall i :: 0 <= i < |diagnostics| ==> diagnostics[i].compatibility != RangeReduced
  }

  lemma {:induction false} UnreducedParts(a: seq<Diagnostic>, b: seq<Diagnostic>)
    ensures Unreduced(a + b) <==> Unreduced(a) && Unreduced(b)
  {
    assert forall i :: 0 <= i < |a| ==> a[i] == (a + b)[i];
    assert forall i :: 0 <= i < |b| ==> b[i] == (a + b)[|a| + i];
  }

  lemma {:induction false} FieldDiagnosed(o: E.Oracle, f: Field, path: string, s: Slot)
    requires MapField(f, path).Ok? && Unreduced(MapField(f, path).value.diagnostics) && NumbersFitField(f)
    requires WellFormedSlot(o, f, s)
    ensures FitsSlot(f, s)
    decreases f, 0
  {
    hide MapType, WellFormed, Fits, NumbersFit;
    if s.Present? {
      var mapped := MapType(f.typ, path).value;
      UnreducedParts([Diagnostic(path, mapped.compatibility)], mapped.diagnostics);
      UnreducedParts([Diagnostic(path, Strengthen(mapped.compatibility))], mapped.diagnostics);
      assert [Diagnostic(path, mapped.compatibility)][0].compatibility == mapped.compatibility;
      assert [Diagnostic(path, Strengthen(mapped.compatibility))][0].compatibility == Strengthen(mapped.compatibility);
      TypeDiagnosed(o, f.typ, path, s.value);
    }
  }

  lemma {:induction false} EmitDiagnosed(fields: seq<Field>, k: nat, i: nat, path: string, topLevel: bool)
    requires k <= i < |fields| && Emit(fields, k, path, topLevel).Ok?
    requires Unreduced(Emit(fields, k, path, topLevel).value.diagnostics)
    ensures MapField(fields[i], JoinPath(path, fields[i].name)).Ok?
    ensures Unreduced(MapField(fields[i], JoinPath(path, fields[i].name)).value.diagnostics)
    decreases i - k
  {
    hide MapField;
    var own := MapField(fields[k], JoinPath(path, fields[k].name)).value.diagnostics;
    UnreducedParts(own, Emit(fields, k + 1, path, topLevel).value.diagnostics);
    if k < i {
      EmitDiagnosed(fields, k + 1, i, path, topLevel);
    }
  }

  lemma {:induction false} ScopeDiagnosed(
    o: E.Oracle, fields: seq<Field>, path: string, topLevel: bool, slots: seq<Slot>)
    requires Emit(fields, 0, path, topLevel).Ok? && Unreduced(Emit(fields, 0, path, topLevel).value.diagnostics)
    requires WellFormedScope(o, fields, slots) && ScopeNumbersFit(fields)
    ensures FitsScope(fields, slots)
    decreases fields, 0
  {
    hide Emit, MapField, WellFormedSlot, FitsSlot, Unreduced, NumbersFit;
    forall i | 0 <= i < |fields|
      ensures FitsSlot(fields[i], slots[i])
    {
      EmitDiagnosed(fields, 0, i, path, topLevel);
      FieldDiagnosed(o, fields[i], JoinPath(path, fields[i].name), slots[i]);
    }
  }

  lemma {:induction false} MapDiagnosed(o: E.Oracle, t: DataType, path: string, v: Value)
    requires t.Map? && MapType(t, path).Ok? && Unreduced(MapType(t, path).value.diagnostics) && NumbersFit(t)
    requires WellFormed(o, t, v)
    ensures Fits(t, v)
    decreases t, -1
  {
    hide MapField, WellFormedSlot, FitsSlot, Unreduced, NumbersFitField;
    UnreducedParts(MapField(t.key, path + ".key").value.diagnostics,
        MapField(t.value, path + ".value").value.diagnostics);
    forall i | 0 <= i < |v.entries|
      ensures FitsSlot(t.key, v.entries[i].key) && FitsSlot(t.value, v.entries[i].value)
    {
      FieldDiagnosed(o, t.key, path + ".key", v.entries[i].key);
      FieldDiagnosed(o, t.value, path + ".value", v.entries[i].value);
    }
  }

  lemma {:induction false} ListDiagnosed(o: E.Oracle, t: DataType, path: string, v: Value)
    requires t.List? && MapType(t, path).Ok? && Unreduced(MapType(t, path).value.diagnostics) && NumbersFit(t)
    requires WellFormed(o, t, v)
    ensures Fits(t, v)
    decreases t, -1
  {
    hide MapField, WellFormedSlot, FitsSlot, Unreduced, NumbersFitField;
    forall i | 0 <= i < |v.items|
      ensures FitsSlot(t.element, v.items[i])
    {
      FieldDiagnosed(o, t.element, path + "[]", v.items[i]);
    }
  }

  /** No RANGE_REDUCED anywhere in the diagnostics: every value fits. */
  lemma {:induction false} TypeDiagnosed(o: E.Oracle, t: DataType, path: string, v: Value)
    requires MapType(t, path).Ok? && MapType(t, path).value.compatibility != RangeReduced
    requires Unreduced(MapType(t, path).value.diagnostics) && NumbersFit(t)
    requires WellFormed(o, t, v)
    ensures Fits(t, v)
    decreases t, 0
  {
    hide Emit, MapField, WellFormedScope, WellFormedSlot, FitsScope, FitsSlot, Unreduced, ScopeNumbersFit,
         NumbersFitField, WellFormedPrimitive, NamesOk, OneofsOk;
    match t
    case Struct(_, fields) => ScopeDiagnosed(o, fields, path, false, v.slots);
    case List(_, _) => ListDiagnosed(o, t, path, v);
    case Map(_, _) => MapDiagnosed(o, t, path, v);
    case _ =>
  }
}
