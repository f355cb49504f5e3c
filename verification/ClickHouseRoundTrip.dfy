/** Decoding yields only well-formed values, and undoes encoding. */
module ClickHouseRoundTrip {
  import opened Results
  import opened LogicalSchema
  import opened ClickHouseLowering
  import opened ClickHouseAcceptance
  import opened ClickHouseValues
  import opened ClickHouseEncoding
  import E = ClickHouseExpr

  // ----- decoding is sound -----

  lemma {:induction false} WrappedWellFormed(o: E.Oracle, t: DataType, p: E.Stored)
    requires DecodeWrapped(o, t, p).Ok? && DecodeWrapped(o, t, p).value.Present?
    ensures WellFormed(o, t, DecodeWrapped(o, t, p).value.value)
    decreases t, 1
  {
    hide Decode, WellFormed;
    DecodeWellFormed(o, t, E.Lookup(p.elements, VALUE));
  }

  lemma {:induction false} SlotWellFormed(o: E.Oracle, f: Field, p: E.Stored)
    requires DecodeField(o, f, p).Ok?
    ensures WellFormedSlot(o, f, DecodeField(o, f, p).value)
    decreases f, 0
  {
    hide Decode, WellFormed;
    if DecodeField(o, f, p).value.Present? {
      if UsesWrapper(f) {
        assert DecodeField(o, f, p) == DecodeWrapped(o, f.typ, p);
        WrappedWellFormed(o, f.typ, p);
      } else {
        DecodeWellFormed(o, f.typ, p);
      }
    }
  }

  lemma {:induction false} EachWellFormed(o: E.Oracle, f: Field, items: seq<E.Stored>)
    requires DecodeEach(o, f, items).Ok?
    ensures forall i :: 0 <= i < |items| ==> WellFormedSlot(o, f, DecodeEach(o, f, items).value[i])
    decreases f, 1
  {
    hide DecodeField, WellFormedSlot, DecodeEach;
    DecodeEachAt(o, f, items);
    forall i | 0 <= i < |items|
      ensures WellFormedSlot(o, f, DecodeEach(o, f, items).value[i])
    {
      SlotWellFormed(o, f, items[i]);
    }
  }

  lemma {:induction false} FieldsWellFormed(o: E.Oracle, fields: seq<Field>, row: map<string, E.Stored>)
    requires DecodeFields(o, fields, row).Ok?
    ensures forall i :: 0 <= i < |fields| ==> WellFormedSlot(o, fields[i], DecodeFields(o, fields, row).value[i])
    decreases fields, 0
  {
    hide DecodeField, WellFormedSlot, DecodeFields;
    DecodeFieldsAt(o, fields, row);
    forall i | 0 <= i < |fields|
      ensures WellFormedSlot(o, fields[i], DecodeFields(o, fields, row).value[i])
    {
      SlotWellFormed(o, fields[i], E.Lookup(row, fields[i].name));
    }
  }

  lemma {:induction false} MessageWellFormed(o: E.Oracle, fields: seq<Field>, row: map<string, E.Stored>)
    requires DecodeMessage(o, fields, row).Ok?
    ensures DecodeMessage(o, fields, row).value.Message?
    ensures WellFormedScope(o, fields, DecodeMessage(o, fields, row).value.slots)
    decreases fields, 1
  {
    hide DecodeFields, WellFormedSlot;
    if fields != [] {
      FieldsWellFormed(o, fields, row);
    }
  }

  lemma {:induction false} EntriesWellFormed(o: E.Oracle, t: DataType, p: E.Stored)
    requires t.Map? && Decode(o, t, p).Ok?
    ensures WellFormed(o, t, Decode(o, t, p).value)
    decreases t, -1
  {
    hide DecodeEach, WellFormedSlot;
    EachWellFormed(o, t.key, E.Keys(p.entries));
    EachWellFormed(o, t.value, E.Values(p.entries));
  }

  /** What a stored value represents is in the logical domain. */
  lemma {:induction false} DecodeWellFormed(o: E.Oracle, t: DataType, p: E.Stored)
    requires Decode(o, t, p).Ok?
    ensures WellFormed(o, t, Decode(o, t, p).value)
    decreases t, 0
  {
    hide DecodeEach, DecodeMessage, WellFormedSlot, WellFormedScope, WellFormedPrimitive;
    match t
    case Struct(_, fields) => MessageWellFormed(o, fields, p.elements);
    case List(element, _) => EachWellFormed(o, element, p.items);
    case Map(_, _) => EntriesWellFormed(o, t, p);
    case _ =>
  }

  // ----- decoding undoes encoding -----

  lemma {:induction false} ScalarRoundTrip(o: E.Oracle, t: DataType, v: Value)
    requires !Composite(t) && WellFormed(o, t, v)
    ensures Decode(o, t, Encode(t, v)) == Ok(v) && !Encode(t, v).Null?
  {
  }

  lemma {:induction false} WrapperRoundTrip(o: E.Oracle, t: DataType, v: Value)
    requires Renderable(t) && WellFormed(o, t, v)
    ensures DecodeWrapped(o, t, Wrapper(true, Encode(t, v))) == Ok(Present(v))
    decreases t, 2
  {
    hide Decode, WellFormed, Encode, Renderable;
    RoundTrip(o, t, v);
    assert DecodePresent(o, t, Encode(t, v)) == Ok(Present(v));
  }

  lemma {:induction false} SlotRoundTrip(o: E.Oracle, f: Field, s: Slot)
    requires RenderableField(f) && WellFormedSlot(o, f, s)
    ensures DecodeField(o, f, EncodeSlot(f, s)) == Ok(s)
    decreases f, 0
  {
    hide Decode, WellFormed, Encode, Renderable;
    if s.Present? {
      if UsesWrapper(f) {
        WrapperRoundTrip(o, f.typ, s.value);
      } else {
        RoundTrip(o, f.typ, s.value);
        assert DecodePresent(o, f.typ, Encode(f.typ, s.value)) == Ok(Present(s.value));
      }
    }
  }

  lemma {:induction false} EachRoundTrip(o: E.Oracle, f: Field, slots: seq<Slot>)
    requires RenderableField(f) && forall i :: 0 <= i < |slots| ==> WellFormedSlot(o, f, slots[i])
    ensures DecodeEach(o, f, EncodeEach(f, slots)) == Ok(slots)
    decreases f, 1
  {
    hide DecodeField, WellFormedSlot, DecodeEach, EncodeSlot, RenderableField;
    var items := EncodeEach(f, slots);
    forall i | 0 <= i < |slots|
      ensures DecodeField(o, f, items[i]) == Ok(slots[i])
    {
      SlotRoundTrip(o, f, slots[i]);
    }
    DecodeEachAt(o, f, items);
    assert DecodeEach(o, f, items).value == slots;
  }

  lemma {:induction false} FieldsRoundTrip(o: E.Oracle, fields: seq<Field>, slots: seq<Slot>)
    requires NamesApart(fields) && |fields| == |slots|
    requires forall i :: 0 <= i < |fields| ==> RenderableField(fields[i]) && WellFormedSlot(o, fields[i], slots[i])
    ensures DecodeFields(o, fields, EncodeFrom(fields, slots, 0)) == Ok(slots)
    decreases fields, 0
  {
    hide DecodeField, WellFormedSlot, DecodeFields, EncodeSlot, EncodeFrom, RenderableField, NamesApart;
    var row := EncodeFrom(fields, slots, 0);
    forall i | 0 <= i < |fields|
      ensures DecodeField(o, fields[i], E.Lookup(row, fields[i].name)) == Ok(slots[i])
    {
      FieldStored(fields, slots, 0, i);
      SlotRoundTrip(o, fields[i], slots[i]);
    }
    DecodeFieldsAt(o, fields, row);
    assert DecodeFields(o, fields, row).value == slots;
  }

  lemma {:induction false} MessageRoundTrip(o: E.Oracle, fields: seq<Field>, slots: seq<Slot>)
    requires NamesApart(fields) && WellFormedScope(o, fields, slots)
    requires forall i :: 0 <= i < |fields| ==> RenderableField(fields[i])
    ensures DecodeMessage(o, fields, EncodeMessage(fields, slots)) == Ok(Message(slots))
    decreases fields, 1
  {
    hide DecodeFields, WellFormedSlot, EncodeFrom, RenderableField, NamesApart;
    if fields != [] {
      FieldsRoundTrip(o, fields, slots);
      forall i | 0 <= i < |fields| && fields[i].oneof != ""
        ensures E.Lookup(EncodeFrom(fields, slots, 0), CaseName(fields[i].oneof))
             == E.I(Selected(fields, slots, fields[i].oneof))
      {
        CaseOfMember(fields, slots, i);
      }
    }
  }

  lemma {:induction false} EntriesRoundTrip(o: E.Oracle, t: DataType, v: Value)
    requires t.Map? && Renderable(t) && WellFormed(o, t, v)
    ensures Decode(o, t, Encode(t, v)) == Ok(v)
    decreases t, -1
  {
    hide DecodeEach, WellFormedSlot, RenderableField, EncodeEach;
    EachRoundTrip(o, t.key, Keys(v.entries));
    EachRoundTrip(o, t.value, Values(v.entries));
    assert Zip(Keys(v.entries), Values(v.entries)) == v.entries;
  }

  /** Encoding then decoding gives back the value, whatever the type. */
  lemma {:induction false} RoundTrip(o: E.Oracle, t: DataType, v: Value)
    requires Renderable(t) && WellFormed(o, t, v)
    ensures Decode(o, t, Encode(t, v)) == Ok(v) && !Encode(t, v).Null?
    decreases t, 0
  {
    hide DecodeEach, DecodeMessage, WellFormedSlot, RenderableField, EncodeEach, EncodeMessage, NamesApart,
         WellFormedPrimitive, NamesOk, OneofsOk;
    match t
    case Struct(_, fields) =>
      ApartWhenNested(fields);
      MessageRoundTrip(o, fields, v.slots);
    case List(element, _) => EachRoundTrip(o, element, v.items);
    case Map(_, _) => EntriesRoundTrip(o, t, v);
    case _ => ScalarRoundTrip(o, t, v);
  }
}
