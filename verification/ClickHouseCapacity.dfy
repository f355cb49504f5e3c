/** What a table without range diagnostics can hold: every well-formed message,
    exactly when every oneof member can be selected. */
module ClickHouseCapacity {
  import opened LogicalSchema
  import opened ClickHouseLowering
  import opened ClickHouseAcceptance
  import opened ClickHouseValues
  import opened ClickHouseKeys
  import opened ClickHouseEncoding
  import opened ClickHouseFit
  import opened ClickHouseRange
  import opened ClickHouseSlack
  import opened ClickHouseTable
  import E = ClickHouseExpr

  lemma {:induction false} SlotOver(o: E.Oracle, a: Samples, f: Field) returns (s: Slot)
    requires SamplesOk(o, a) && RenderableField(f) && !NumbersFitField(f)
    ensures WellFormedSlot(o, f, s) && !FitsSlot(f, s)
    decreases f, 0
  {
    hide WellFormed, Fits, Renderable, NumbersFit;
    var v := ValueOver(o, a, f.typ);
    s := Present(v);
  }

  /** A message with a selected member that its discriminator cannot name. */
  lemma {:induction false} ScopeOver(o: E.Oracle, a: Samples, fields: seq<Field>) returns (slots: seq<Slot>)
    requires SamplesOk(o, a) && OneofsOk(fields) && forall i :: 0 <= i < |fields| ==> RenderableField(fields[i])
    requires !ScopeNumbersFit(fields)
    ensures WellFormedScope(o, fields, slots) && !FitsScope(fields, slots)
    decreases fields, 0
  {
    hide WellFormedScope, FitsScope, WellFormedSlot, FitsSlot, RenderableField, NumbersFitField, Selectable, OneofsOk,
         Sample, SamplesOk;
    var i :| 0 <= i < |fields| && !(Selectable(fields[i]) && NumbersFitField(fields[i]));
    var s: Slot;
    if Selectable(fields[i]) {
      s := SlotOver(o, a, fields[i]);
    } else {
      s := Present(Sample(a, fields[i].typ));
      SelectedSample(o, a, fields[i]);
    }
    slots := SamplesWith(a, fields, i, s);
    SamplesWithOk(o, a, fields, i, s);
  }

  lemma {:induction false} SelectedSample(o: E.Oracle, a: Samples, f: Field)
    requires SamplesOk(o, a) && RenderableField(f)
    ensures WellFormedSlot(o, f, Present(Sample(a, f.typ)))
  {
    hide WellFormed, Renderable, Sample;
    SampleOk(o, a, f.typ);
  }

  lemma {:induction false} ValueOver(o: E.Oracle, a: Samples, t: DataType) returns (v: Value)
    requires SamplesOk(o, a) && Renderable(t) && !NumbersFit(t)
    ensures WellFormed(o, t, v) && !Fits(t, v)
    decreases t, 0
  {
    hide WellFormedScope, FitsScope, WellFormedSlot, FitsSlot, RenderableField, NumbersFitField, ScopeNumbersFit,
         NamesOk, OneofsOk, SampleSlot, SamplesOk;
    match t
    case Struct(_, fields) =>
      var slots := ScopeOver(o, a, fields);
      v := Message(slots);
    case List(element, fixedLength) =>
      var s := SlotOver(o, a, element);
      var n: nat := if fixedLength == 0 then 1 else fixedLength;
      v := Elements(seq(n, i => s));
      assert v.items[0] == s;
    case Map(key, value) =>
      var k, w := SampleSlot(a, key), SampleSlot(a, value);
      SampleSlotOk(o, a, key);
      SampleSlotOk(o, a, value);
      if !NumbersFitField(key) {
        k := SlotOver(o, a, key);
      } else {
        w := SlotOver(o, a, value);
      }
      v := Entries([Pair(k, w)]);
      assert v.entries[0] == Pair(k, w);
  }

  /** Every well-formed message is stored by some row. */
  ghost predicate StoresEverything(o: E.Oracle, table: Table, fields: seq<Field>) {
    forall slots :: WellFormedScope(o, fields, slots) ==> exists row :: Stores(o, table, fields, row, slots)
  }

  /** For every accepted dataset without a RANGE_REDUCED diagnostic. */
  lemma {:induction false} StoresEverythingIff(
    o: E.Oracle, a: Samples, name: string, description: string, fields: seq<Field>)
    requires SamplesOk(o, a) && Schema(name, description, fields).Ok?
    requires Unreduced(Schema(name, description, fields).value.diagnostics)
    ensures StoresEverything(o, Schema(name, description, fields).value, fields) <==> ScopeNumbersFit(fields)
  {
    hide Schema, WellFormedScope, FitsScope, Stores, Unreduced, ScopeNumbersFit, RenderableField, NamesOk, SamplesOk;
    var table := Schema(name, description, fields).value;
    if ScopeNumbersFit(fields) {
      forall slots | WellFormedScope(o, fields, slots)
        ensures exists row :: Stores(o, table, fields, row, slots)
      {
        assert |slots| == |fields| by { ScopeLength(o, fields, slots); }
        UnreducedTableStoresEverything(o, name, description, fields, slots);
        assert Stores(o, table, fields, EncodeMessage(fields, slots), slots);
      }
    } else {
      AcceptedFields(name, description, fields);
      var slots := ScopeOver(o, a, fields);
      StoredMessagesAreExact(o, name, description, fields, slots);
    }
  }

  lemma {:induction false} ScopeLength(o: E.Oracle, fields: seq<Field>, slots: seq<Slot>)
    requires WellFormedScope(o, fields, slots)
    ensures |slots| == |fields|
  {
  }
}
