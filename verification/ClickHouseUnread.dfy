/** Which accepted tables the conversion plan can read: exactly those whose oneof
    members are fields of messages.  A collection child has no sibling column to
    hold the discriminator that its presence expression names. */
module ClickHouseUnread {
  import opened Results
  import opened LogicalSchema
  import opened ClickHouseLowering
  import opened ClickHouseAcceptance
  import opened ClickHouseValues
  import opened ClickHouseKeys
  import opened ClickHouseEncoding
  import opened ClickHouseRoundTrip
  import opened ClickHouseFit
  import opened ClickHouseSlack
  import opened ClickHouseProjection
  import opened ClickHouseIceberg
  import opened ClickHouseTable
  import E = ClickHouseExpr

  /** A value within its columns that its plan does not read back. */
  ghost predicate UnreadValue(o: E.Oracle, t: DataType, v: Value) {
    && WellFormed(o, t, v) && Fits(t, v)
    && forall plan: Plan :: plan.shape == ShapeOf(t) && plan.children == ProjectChildren(t) ==>
         FollowValue(o, plan, Encode(t, v)) != Ok(v)
  }

  ghost predicate UnreadSlot(o: E.Oracle, f: Field, s: Slot) {
    && WellFormedSlot(o, f, s) && FitsSlot(f, s) && s.Present?
    && forall discriminator :: Follow(o, ProjectField(f), EncodeSlot(f, s), discriminator) != Ok(s)
  }

  lemma {:induction false} PresentUnread(o: E.Oracle, f: Field, v: Value)
    requires RenderableField(f) && UnreadValue(o, f.typ, v)
    ensures UnreadSlot(o, f, Present(v))
  {
    hide Encode, Decode, TypeOf, WellFormed, Fits, Renderable, FollowValue, E.Eval, PresenceExpr, ConversionExpression,
         RawValueExpr, DecodeField, FieldType;
    var s := Present(v);
    var p := EncodeSlot(f, s);
    SlotRoundTrip(o, f, s);
    SlotTyped(o, f, s);
    InnerEncodes(f, v);
    forall discriminator
      ensures Follow(o, ProjectField(f), p, discriminator) != Ok(s)
    {
      ValueExprReadsInner(o, f, p, v, discriminator);
    }
  }

  lemma {:induction false} InnerEncodes(f: Field, v: Value)
    ensures Inner(f, EncodeSlot(f, Present(v))) == Encode(f.typ, v)
  {
    hide Encode;
  }

  // ----- collections -----

  lemma {:induction false} EachUnread(o: E.Oracle, f: Field, slots: seq<Slot>)
    requires slots != [] && Follow(o, ProjectField(f), EncodeSlot(f, slots[0]), E.Null) != Ok(slots[0])
    ensures FollowEach(o, ProjectField(f), EncodeEach(f, slots)) != Ok(slots)
  {
    hide Follow, ProjectField, EncodeSlot;
    assert EncodeEach(f, slots)[0] == EncodeSlot(f, slots[0]);
  }

  /** A selected oneof member outside a message. */
  lemma {:induction false} StrayUnread(o: E.Oracle, a: Samples, f: Field) returns (s: Slot)
    requires SamplesOk(o, a) && RenderableField(f) && f.presence == OneofMember
    ensures WellFormedSlot(o, f, s) && FitsSlot(f, s)
    ensures Follow(o, ProjectField(f), EncodeSlot(f, s), E.Null) != Ok(s)
  {
    hide Sample, WellFormed, Fits, Renderable, Encode, Follow, ProjectField, TypeOf;
    s := Present(Sample(a, f.typ));
    SampleOk(o, a, f.typ);
    SlotTyped(o, f, s);
    StrayMemberIsUnreadable(o, f, EncodeSlot(f, s));
  }

  lemma {:induction false} ChildUnread(o: E.Oracle, a: Samples, f: Field) returns (s: Slot)
    requires SamplesOk(o, a) && RenderableField(f)
    requires f.presence == OneofMember || !CasesInMessagesField(f)
    ensures WellFormedSlot(o, f, s) && FitsSlot(f, s)
    ensures Follow(o, ProjectField(f), EncodeSlot(f, s), E.Null) != Ok(s)
    decreases f, 2
  {
    hide WellFormedSlot, FitsSlot, Follow, ProjectField, EncodeSlot, RenderableField, CasesInMessagesField;
    if f.presence == OneofMember {
      s := StrayUnread(o, a, f);
    } else {
      s := FieldUnread(o, a, f);
    }
  }

  lemma {:induction false} ListUnread(o: E.Oracle, t: DataType, s: Slot) returns (v: Value)
    requires t.List? && WellFormedSlot(o, t.element, s) && FitsSlot(t.element, s)
    requires Follow(o, ProjectField(t.element), EncodeSlot(t.element, s), E.Null) != Ok(s)
    ensures UnreadValue(o, t, v)
  {
    hide WellFormedSlot, FitsSlot, Follow, FollowEach, ProjectField, EncodeSlot, EncodeEach;
    var n: nat := if t.fixedLength == 0 then 1 else t.fixedLength;
    var items := seq(n, i => s);
    v := Elements(items);
    EachUnread(o, t.element, items);
  }

  lemma {:induction false} EntryUnread(o: E.Oracle, t: DataType, k: Slot, w: Slot)
    requires t.Map? && WellFormedSlot(o, t.key, k) && FitsSlot(t.key, k) && WellFormedSlot(o, t.value, w)
    requires FitsSlot(t.value, w)
    requires Follow(o, ProjectField(t.key), EncodeSlot(t.key, k), E.Null) != Ok(k)
          || Follow(o, ProjectField(t.value), EncodeSlot(t.value, w), E.Null) != Ok(w)
    ensures UnreadValue(o, t, Entries([Pair(k, w)]))
  {
    hide WellFormedSlot, FitsSlot, Follow, FollowEach, ProjectField, EncodeSlot, EncodeEach, UnreadValue, WellFormed,
         Fits, Encode, FollowValue;
    var v := Entries([Pair(k, w)]);
    assert Keys(v.entries) == [k] && Values(v.entries) == [w];
    EntryOk(o, t, k, w);
    if Follow(o, ProjectField(t.key), EncodeSlot(t.key, k), E.Null) != Ok(k) {
      EachUnread(o, t.key, [k]);
    } else {
      EachUnread(o, t.value, [w]);
    }
    forall plan: Plan | plan.shape == ShapeOf(t) && plan.children == ProjectChildren(t)
      ensures FollowValue(o, plan, Encode(t, v)) != Ok(v)
    {
      MapReads(o, t, plan, v);
    }
    UnreadWhen(o, t, v);
  }

  lemma {:induction false} UnreadWhen(o: E.Oracle, t: DataType, v: Value)
    requires WellFormed(o, t, v) && Fits(t, v)
    requires forall plan: Plan :: plan.shape == ShapeOf(t) && plan.children == ProjectChildren(t) ==>
               FollowValue(o, plan, Encode(t, v)) != Ok(v)
    ensures UnreadValue(o, t, v)
  {
  }

  lemma {:induction false} EntryOk(o: E.Oracle, t: DataType, k: Slot, w: Slot)
    requires t.Map? && WellFormedSlot(o, t.key, k) && FitsSlot(t.key, k) && WellFormedSlot(o, t.value, w)
    requires FitsSlot(t.value, w)
    ensures WellFormed(o, t, Entries([Pair(k, w)])) && Fits(t, Entries([Pair(k, w)]))
  {
    hide WellFormedSlot, FitsSlot;
  }

  /** A map is read as written only if its keys and its values are. */
  lemma {:induction false} MapReads(o: E.Oracle, t: DataType, plan: Plan, v: Value)
    requires t.Map? && v.Entries? && plan.shape == ShapeOf(t) && plan.children == ProjectChildren(t)
    ensures FollowValue(o, plan, Encode(t, v)) == Ok(v) ==>
            && FollowEach(o, ProjectField(t.key), EncodeEach(t.key, Keys(v.entries))) == Ok(Keys(v.entries))
            && FollowEach(o, ProjectField(t.value), EncodeEach(t.value, Values(v.entries))) == Ok(Values(v.entries))
  {
    hide Follow, FollowEach, ProjectField, EncodeSlot, EncodeEach;
    if FollowValue(o, plan, Encode(t, v)) == Ok(v) {
      var keys := FollowEach(o, ProjectField(t.key), EncodeEach(t.key, Keys(v.entries))).value;
      var values := FollowEach(o, ProjectField(t.value), EncodeEach(t.value, Values(v.entries))).value;
      assert v.entries == Zip(keys, values);
      assert keys == Keys(v.entries) && values == Values(v.entries);
    }
  }

  // ----- messages -----

  lemma {:induction false} FollowFieldsRead(o: E.Oracle, plans: seq<Plan>, row: map<string, E.Stored>, i: nat)
    requires i < |plans| && FollowFields(o, plans, row).Ok?
    ensures Follow(o, plans[i], E.Lookup(row, plans[i].name), E.Lookup(row, plans[i].discriminator))
         == Ok(FollowFields(o, plans, row).value[i])
  {
    hide Follow;
    if i > 0 {
      FollowFieldsRead(o, plans[1..], row, i - 1);
    }
  }

  lemma {:induction false} ScopeUnread(
    o: E.Oracle, a: Samples, fields: seq<Field>, i: nat, s: Slot) returns (slots: seq<Slot>)
    requires SamplesOk(o, a) && NamesApart(fields) && forall k :: 0 <= k < |fields| ==> RenderableField(fields[k])
    requires i < |fields| && Selectable(fields[i]) && UnreadSlot(o, fields[i], s)
    ensures WellFormedScope(o, fields, slots) && FitsScope(fields, slots)
    ensures FollowFields(o, ProjectFields(fields), EncodeMessage(fields, slots)) != Ok(slots)
  {
    hide Follow, FollowFields, ProjectField, EncodeSlot, EncodeFrom, RenderableField, NamesOk, WellFormedScope,
         FitsScope, WellFormedSlot, FitsSlot, Number, Selectable;
    slots := SamplesWith(a, fields, i, s);
    SamplesWithOk(o, a, fields, i, s);
    FieldStored(fields, slots, 0, i);
    PlanName(fields[i]);
    var row := EncodeMessage(fields, slots);
    if FollowFields(o, ProjectFields(fields), row) == Ok(slots) {
      FollowFieldsRead(o, ProjectFields(fields), row, i);
    }
  }

  lemma {:induction false} PlanName(f: Field)
    ensures ProjectField(f).name == f.name
  {
  }

  lemma {:induction false} MessageUnread(o: E.Oracle, t: DataType, slots: seq<Slot>)
    requires t.Struct? && WellFormedScope(o, t.fields, slots) && FitsScope(t.fields, slots)
    requires FollowFields(o, ProjectFields(t.fields), EncodeMessage(t.fields, slots)) != Ok(slots)
    ensures UnreadValue(o, t, Message(slots))
  {
    hide WellFormedScope, FitsScope, FollowFields, EncodeMessage, ProjectFields;
    assert |slots| == |t.fields| by { ScopeLength(o, t.fields, slots); }
  }

  lemma {:induction false} ScopeLength(o: E.Oracle, fields: seq<Field>, slots: seq<Slot>)
    requires WellFormedScope(o, fields, slots)
    ensures |slots| == |fields|
  {
  }

  lemma {:induction false} FieldUnread(o: E.Oracle, a: Samples, f: Field) returns (s: Slot)
    requires SamplesOk(o, a) && RenderableField(f) && !CasesInMessagesField(f)
    ensures UnreadSlot(o, f, s)
    ensures WellFormedSlot(o, f, s) && FitsSlot(f, s) && Follow(o, ProjectField(f), EncodeSlot(f, s), E.Null) != Ok(s)
    decreases f, 1
  {
    hide UnreadValue, Renderable, CasesInMessages, Follow, ProjectField, EncodeSlot, WellFormedSlot, FitsSlot;
    var v := ValueUnread(o, a, f.typ);
    PresentUnread(o, f, v);
    s := Present(v);
  }

  lemma {:induction false} ValueUnread(o: E.Oracle, a: Samples, t: DataType) returns (v: Value)
    requires SamplesOk(o, a) && Renderable(t) && !CasesInMessages(t)
    ensures UnreadValue(o, t, v)
    decreases t, 0
  {
    hide UnreadValue, UnreadSlot, RenderableField, CasesInMessagesField, NamesOk, OneofsOk, NamesApart, Follow,
         ProjectField, EncodeSlot, SampleSlot, WellFormedSlot, FitsSlot, SamplesOk;
    match t
    case Struct(_, fields) =>
      var i :| 0 <= i < |fields| && Selectable(fields[i]) && !CasesInMessagesField(fields[i]);
      var s := FieldUnread(o, a, fields[i]);
      ApartWhenNested(fields);
      var slots := ScopeUnread(o, a, fields, i, s);
      MessageUnread(o, t, slots);
      v := Message(slots);
    case List(element, _) =>
      var s := ChildUnread(o, a, element);
      v := ListUnread(o, t, s);
    case Map(key, value) =>
      var k, w := SampleSlot(a, key), SampleSlot(a, value);
      SampleSlotOk(o, a, key);
      SampleSlotOk(o, a, value);
      if key.presence == OneofMember || !CasesInMessagesField(key) {
        k := ChildUnread(o, a, key);
      } else {
        w := ChildUnread(o, a, value);
      }
      EntryUnread(o, t, k, w);
      v := Entries([Pair(k, w)]);
  }

  // ----- whole tables -----

  /** The plan reads every message that the table can store. */
  ghost predicate PlanReads(o: E.Oracle, table: Table, fields: seq<Field>, plans: seq<Plan>) {
    forall row, slots :: Stores(o, table, fields, row, slots) ==> FollowFields(o, plans, row) == Ok(slots)
  }

  lemma {:induction false} TableUnread(
    o: E.Oracle, a: Samples, name: string, description: string, fields: seq<Field>, i: nat)
    returns (row: map<string, E.Stored>, slots: seq<Slot>)
    requires SamplesOk(o, a) && Schema(name, description, fields).Ok?
    requires i < |fields| && Selectable(fields[i]) && !CasesInMessagesField(fields[i])
    ensures Stores(o, Schema(name, description, fields).value, fields, row, slots)
    ensures FollowFields(o, ProjectFields(fields), row) != Ok(slots)
  {
    hide Schema, AllHoldIn, TypedRow, DecodeMessage, EncodeMessage, FollowFields, ProjectFields, RenderableField,
         CasesInMessagesField, WellFormedScope, FitsScope, NamesApart, UnreadSlot, WellFormedSlot, FitsSlot, Follow,
         EncodeSlot;
    AcceptedFields(name, description, fields);
    var s := FieldUnread(o, a, fields[i]);
    slots := ScopeUnread(o, a, fields, i, s);
    ScopeLength(o, fields, slots);
    row := EncodeMessage(fields, slots);
    WellFormedRowIsAccepted(o, name, description, fields, slots);
  }

  /** For every dataset that has a plan: following it gives back every stored
      message exactly when oneof members occur only as fields of messages. */
  lemma {:induction false} PlanReadsIff(
    o: E.Oracle, a: Samples, name: string, description: string, fields: seq<Field>, retired: seq<int32>)
    requires SamplesOk(o, a) && ProjectToIceberg(name, description, fields, retired).Ok?
    ensures Schema(name, description, fields).Ok?
    ensures PlanReads(o, Schema(name, description, fields).value, fields,
            ProjectToIceberg(name, description, fields, retired).value)
       <==> ScopeCasesInMessages(fields)
  {
    hide Schema, Stores, FollowFields, ProjectFields, CasesInMessagesField, Planned;
    if ScopeCasesInMessages(fields) {
      forall row, slots | Stores(o, Schema(name, description, fields).value, fields, row, slots)
        ensures FollowFields(o, ProjectFields(fields), row) == Ok(slots)
      {
        PlanReadsStoredMessage(o, name, description, fields, row, slots);
      }
    } else {
      var i :| 0 <= i < |fields| && Selectable(fields[i]) && !CasesInMessagesField(fields[i]);
      var row, slots := TableUnread(o, a, name, description, fields, i);
    }
  }
}
