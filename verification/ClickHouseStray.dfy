/** The tight-key condition is exact for whole tables: wherever a map with an
    untight key is nested, some row passes every CHECK and represents nothing. */
module ClickHouseStray {
  import opened Results
  import opened LogicalSchema
  import opened ClickHouseLowering
  import opened ClickHouseScoping
  import opened ClickHouseAcceptance
  import opened ClickHouseValues
  import opened ClickHouseKeys
  import opened ClickHouseMeaning
  import opened ClickHouseEncoding
  import opened ClickHouseRoundTrip
  import opened ClickHouseFit
  import opened ClickHouseSlack
  import opened ClickHouseTable
  import E = ClickHouseExpr

  /** A stored value that passes its checks and represents nothing. */
  predicate StrayValue(o: E.Oracle, t: DataType, path: string, p: E.Stored)
    requires MapType(t, path).Ok?
  {
    E.HasType(p, TypeOf(t)) && AllHold(o, MapType(t, path).value.checks, p) && Decode(o, t, p).Err?
  }

  predicate StrayField(o: E.Oracle, f: Field, path: string, p: E.Stored)
    requires MapField(f, path).Ok?
  {
    E.HasType(p, FieldType(f)) && AllHold(o, MapField(f, path).value.checks, p) && DecodeField(o, f, p).Err?
  }

  predicate MarkedPresent(f: Field, p: E.Stored) {
    f.presence == OneofMember ==> p.Tup? && PRESENT in p.elements && p.elements[PRESENT] == E.B(true)
  }

  // ----- presence wrappers -----

  lemma {:induction false} WrapStray(o: E.Oracle, f: Field, path: string, q: E.Stored)
    requires RenderableField(f) && MapType(f.typ, path).Ok? && MapField(f, path).Ok? && StrayValue(o, f.typ, path, q)
    requires f.presence == Required || f.presence == OneofMember || (f.presence == Explicit && Composite(f.typ))
    ensures StrayField(o, f, path, Wrapper(true, q)) && MarkedPresent(f, Wrapper(true, q))
  {
    hide MapType, TypeOf, Decode, Renderable, AllHold;
    var p := Wrapper(true, q);
    var checks := MapType(f.typ, path).value.checks;
    MapTypeScoped(f.typ, path);
    MapTypeAccepts(f.typ, path);
    WrapperHasType(true, q, TypeOf(f.typ));
    assert p.elements[PRESENT] == E.B(true) && p.elements[VALUE] == q;
    assert DecodeWrapped(o, f.typ, p) == DecodePresent(o, f.typ, q);
    if f.presence == Required {
      RequiredCheck(o, path, checks, p, TypeOf(f.typ));
      assert MapField(f, path).value.checks == [Check(path, "required", At(E.Hole, PRESENT))] + Wrapped(checks);
    } else {
      WrappedMeans(o, checks, p, TypeOf(f.typ));
      assert MapField(f, path).value.checks == Wrapped(checks);
    }
  }

  lemma {:induction false} BareStray(o: E.Oracle, f: Field, path: string, q: E.Stored)
    requires RenderableField(f) && MapType(f.typ, path).Ok? && MapField(f, path).Ok? && StrayValue(o, f.typ, path, q)
    requires f.presence != Required && f.presence != OneofMember && f.presence != Explicit
    ensures StrayField(o, f, path, q)
  {
    hide MapType, TypeOf, Decode, Renderable, AllHold;
    assert DecodeField(o, f, q) == DecodePresent(o, f.typ, q);
    assert MapField(f, path).value.checks == MapType(f.typ, path).value.checks;
  }

  lemma {:induction false} LeafKeysTight(t: DataType)
    requires !Composite(t)
    ensures KeysTight(t)
  {
  }

  lemma {:induction false} FieldStray(o: E.Oracle, a: Samples, f: Field, path: string) returns (p: E.Stored)
    requires SamplesOk(o, a) && RenderableField(f) && !KeysTightField(f)
    ensures MapField(f, path).Ok? && StrayField(o, f, path, p) && MarkedPresent(f, p)
    decreases f, 1
  {
    hide StrayValue, StrayField, MapField, Renderable, KeysTight, MarkedPresent;
    MapFieldAccepts(f, path);
    MapTypeAccepts(f.typ, path);
    if !Composite(f.typ) {
      LeafKeysTight(f.typ);
    }
    var q := ValueStray(o, a, f.typ, path);
    if f.presence == Required || f.presence == OneofMember || f.presence == Explicit {
      WrapStray(o, f, path, q);
      p := Wrapper(true, q);
    } else {
      BareStray(o, f, path, q);
      NotMarked(f, q);
      p := q;
    }
  }

  lemma {:induction false} NotMarked(f: Field, p: E.Stored)
    requires f.presence != OneofMember
    ensures MarkedPresent(f, p)
  {
  }

  lemma {:induction false} ValueStray(o: E.Oracle, a: Samples, t: DataType, path: string) returns (p: E.Stored)
    requires SamplesOk(o, a) && Renderable(t) && !KeysTight(t)
    ensures MapType(t, path).Ok? && StrayValue(o, t, path, p)
    decreases t, 0
  {
    hide StrayValue, StrayField, MapType, RenderableField, KeysTightField, NamesOk, OneofsOk, TightField,
         MarkedPresent;
    MapTypeAccepts(t, path);
    match t
    case Struct(_, fields) =>
      var i :| 0 <= i < |fields| && Selectable(fields[i]) && !KeysTightField(fields[i]);
      var x := FieldStray(o, a, fields[i], JoinPath(path, fields[i].name));
      p := MessageStray(o, a, t, path, i, x);
    case List(element, _) =>
      var x := FieldStray(o, a, element, path + "[]");
      p := ListStray(o, t, path, x);
    case Map(key, value) =>
      if !TightField(key) {
        var x, y := FieldTwins(o, a, key);
        var w := EncodeSlot(value, SampleSlot(a, value));
        SampleStored(o, a, value);
        p := E.MapOf([E.Entry(x, w), E.Entry(y, w)]);
        RepeatedStray(o, t, path, x, y, w);
      } else if !KeysTightField(key) {
        var x := FieldStray(o, a, key, path + ".key");
        var w := EncodeSlot(value, SampleSlot(a, value));
        SampleStored(o, a, value);
        p := E.MapOf([E.Entry(x, w)]);
        KeyStray(o, t, path, x, w);
      } else {
        var x := FieldStray(o, a, value, path + ".value");
        var k := EncodeSlot(key, SampleSlot(a, key));
        SampleStored(o, a, key);
        p := E.MapOf([E.Entry(k, x)]);
        EntryStray(o, t, path, k, x);
      }
  }

  // ----- maps and lists -----

  lemma {:induction false} RepeatedStray(o: E.Oracle, t: DataType, path: string, x: E.Stored, y: E.Stored, w: E.Stored)
    requires t.Map? && Renderable(t) && MapType(t, path).Ok? && Twins(o, t.key, x, y)
    requires E.HasType(w, FieldType(t.value)) && DecodeField(o, t.value, w).Ok?
    ensures StrayValue(o, t, path, E.MapOf([E.Entry(x, w), E.Entry(y, w)]))
  {
    hide MapType, TypeOf, Decode, Renderable, AllHold, Twins, DecodeField, FieldType;
    RepeatedKey(o, t, path, x, y, w);
  }

  lemma {:induction false} StrayFails(o: E.Oracle, f: Field, items: seq<E.Stored>, i: nat)
    requires i < |items| && DecodeField(o, f, items[i]).Err?
    ensures DecodeEach(o, f, items).Err?
  {
    hide DecodeField;
    DecodeEachAt(o, f, items);
  }

  /** One entry whose key and value pass their own checks passes the map's. */
  lemma {:induction false} EntryHolds(o: E.Oracle, t: DataType, path: string, k: E.Stored, v: E.Stored)
    requires t.Map? && MapType(t, path).Ok? && MapField(t.key, path + ".key").Ok?
    requires MapField(t.value, path + ".value").Ok?
    requires AllHold(o, MapField(t.key, path + ".key").value.checks, k)
    requires AllHold(o, MapField(t.value, path + ".value").value.checks, v)
    ensures AllHold(o, MapType(t, path).value.checks, E.MapOf([E.Entry(k, v)]))
  {
    hide MapField, AllHold;
    var entries := [E.Entry(k, v)];
    assert E.Keys(entries) == [k] && E.Values(entries) == [v];
    MapFieldScoped(t.key, path + ".key");
    MapFieldScoped(t.value, path + ".value");
    MapChecksSplit(o, MapField(t.key, path + ".key").value.checks, MapField(t.value, path + ".value").value.checks,
        path, entries);
    assert NoRepeats([k]);
  }

  lemma {:induction false} EntryTyped(t: DataType, k: E.Stored, v: E.Stored)
    requires t.Map? && E.HasType(k, FieldType(t.key)) && E.HasType(v, FieldType(t.value))
    ensures E.HasType(E.MapOf([E.Entry(k, v)]), TypeOf(t))
  {
    hide FieldType;
  }

  lemma {:induction false} EntryFails(o: E.Oracle, t: DataType, k: E.Stored, v: E.Stored)
    requires t.Map? && (DecodeField(o, t.key, k).Err? || DecodeField(o, t.value, v).Err?)
    ensures Decode(o, t, E.MapOf([E.Entry(k, v)])).Err?
  {
    hide DecodeField, DecodeEach;
    var entries := [E.Entry(k, v)];
    assert E.Keys(entries) == [k] && E.Values(entries) == [v];
    if DecodeField(o, t.key, k).Err? {
      StrayFails(o, t.key, [k], 0);
    } else {
      StrayFails(o, t.value, [v], 0);
    }
  }

  lemma {:induction false} KeyStray(o: E.Oracle, t: DataType, path: string, x: E.Stored, w: E.Stored)
    requires t.Map? && Renderable(t) && MapType(t, path).Ok? && MapField(t.key, path + ".key").Ok?
    requires StrayField(o, t.key, path + ".key", x) && E.HasType(w, FieldType(t.value))
    requires DecodeField(o, t.value, w).Ok?
    ensures StrayValue(o, t, path, E.MapOf([E.Entry(x, w)]))
  {
    hide MapType, TypeOf, Decode, AllHold, DecodeField, FieldType, MapField, RenderableField;
    MapFieldAccepts(t.value, path + ".value");
    FieldMeans(o, t.value, path + ".value", w);
    EntryHolds(o, t, path, x, w);
    EntryTyped(t, x, w);
    EntryFails(o, t, x, w);
  }

  lemma {:induction false} EntryStray(o: E.Oracle, t: DataType, path: string, k: E.Stored, x: E.Stored)
    requires t.Map? && Renderable(t) && MapType(t, path).Ok? && MapField(t.value, path + ".value").Ok?
    requires StrayField(o, t.value, path + ".value", x) && E.HasType(k, FieldType(t.key))
    requires DecodeField(o, t.key, k).Ok?
    ensures StrayValue(o, t, path, E.MapOf([E.Entry(k, x)]))
  {
    hide MapType, TypeOf, Decode, AllHold, DecodeField, FieldType, MapField, RenderableField;
    MapFieldAccepts(t.key, path + ".key");
    FieldMeans(o, t.key, path + ".key", k);
    EntryHolds(o, t, path, k, x);
    EntryTyped(t, k, x);
    EntryFails(o, t, k, x);
  }

  lemma {:induction false} ListHolds(o: E.Oracle, t: DataType, path: string, items: seq<E.Stored>)
    requires t.List? && MapType(t, path).Ok? && MapField(t.element, path + "[]").Ok?
    requires forall i :: 0 <= i < |items| ==> AllHold(o, MapField(t.element, path + "[]").value.checks, items[i])
    requires t.fixedLength != 0 ==> |items| == t.fixedLength
    ensures AllHold(o, MapType(t, path).value.checks, E.Arr(items))
  {
    hide MapField, AllHold;
    var checks := MapField(t.element, path + "[]").value.checks;
    MapFieldScoped(t.element, path + "[]");
    AllHoldConcat(o, FixedListChecks(t.fixedLength, path), QuantifiedAll(checks, "element", E.Hole), E.Arr(items));
    FixedListMeans(o, t.fixedLength, path, items);
    assert E.Eval(o, E.Hole, E.Arr(items), map[]) == E.Arr(items);
    QuantifiedAllMeans(o, checks, "element", E.Hole, items, E.Arr(items));
  }

  lemma {:induction false} ListStray(o: E.Oracle, t: DataType, path: string, x: E.Stored) returns (p: E.Stored)
    requires t.List? && Renderable(t) && MapType(t, path).Ok? && MapField(t.element, path + "[]").Ok?
    requires StrayField(o, t.element, path + "[]", x)
    ensures StrayValue(o, t, path, p)
  {
    hide MapType, AllHold, DecodeField, DecodeEach, FieldType, MapField, RenderableField;
    var n: nat := if t.fixedLength == 0 then 1 else t.fixedLength;
    var items := seq(n, i => x);
    p := E.Arr(items);
    ListHolds(o, t, path, items);
    StrayFails(o, t.element, items, 0);
  }

  // ----- messages -----

  /** A sample slot, but a oneof member is selected. */
  function SelectedSlot(a: Samples, f: Field): Slot {
    if f.presence == OneofMember then Present(Sample(a, f.typ)) else SampleSlot(a, f)
  }

  lemma {:induction false} SelectedOk(o: E.Oracle, a: Samples, f: Field)
    requires SamplesOk(o, a) && RenderableField(f)
    ensures WellFormedSlot(o, f, SelectedSlot(a, f)) && FitsSlot(f, SelectedSlot(a, f))
  {
    hide Sample, SampleSlot, Renderable, WellFormed, Fits;
    SampleOk(o, a, f.typ);
    SampleSlotOk(o, a, f);
  }

  /** Replacing a field's value in a passing row by another passing one, with the
      same presence, keeps every check of the message. */
  lemma {:induction false} EmissionMoves(
    o: E.Oracle, fields: seq<Field>, k: nat, path: string, row: map<string, E.Stored>, i: nat, x: E.Stored)
    requires NamesApart(fields) && i < |fields| && k < |fields| && TypedRow(fields, row)
    requires E.HasType(x, FieldType(fields[i])) && SameMark(fields[i], row, x)
    requires MapField(fields[k], JoinPath(path, fields[k].name)).Ok? && EmissionHolds(o, fields, k, path, E.Tup(row))
    requires k == i ==> AllHold(o, MapField(fields[i], JoinPath(path, fields[i].name)).value.checks, x)
    ensures EmissionHolds(o, fields, k, path, E.Tup(row[fields[i].name := x]))
  {
    hide MapField, EmissionHolds, AllHold, PresenceCheck, TypedRow, FieldType, CaseName, ValidIdentifier;
    var changed := row[fields[i].name := x];
    EmissionMeans(o, fields, k, path, row);
    EmissionMeans(o, fields, k, path, changed);
    NameElsewhere(fields, k, i);
    if fields[k].oneof != "" {
      PresenceMoves(o, fields, k, path, row, i, x);
    }
  }

  predicate SameMark(f: Field, row: map<string, E.Stored>, x: E.Stored) {
    f.presence == OneofMember ==>
      && f.name in row && row[f.name].Tup? && PRESENT in row[f.name].elements
      && x.Tup? && PRESENT in x.elements && x.elements[PRESENT] == row[f.name].elements[PRESENT]
  }

  lemma {:induction false} NameElsewhere(fields: seq<Field>, k: nat, i: nat)
    requires NamesApart(fields) && i < |fields| && k < |fields|
    ensures k != i ==> fields[k].name != fields[i].name
    ensures fields[k].oneof != "" ==> CaseName(fields[k].oneof) != fields[i].name
    ensures fields[k].oneof != "" ==> fields[k].presence == OneofMember
  {
    hide CaseName, ValidIdentifier, Number;
  }

  lemma {:induction false} PresenceMoves(
    o: E.Oracle, fields: seq<Field>, k: nat, path: string, row: map<string, E.Stored>, i: nat, x: E.Stored)
    requires NamesApart(fields) && i < |fields| && k < |fields| && TypedRow(fields, row) && fields[k].oneof != ""
    requires E.HasType(x, FieldType(fields[i])) && SameMark(fields[i], row, x)
    ensures E.Holds(o, PresenceCheck(fields[k], path, false).expr, E.Tup(row[fields[i].name := x]), map[])
       <==> E.Holds(o, PresenceCheck(fields[k], path, false).expr, E.Tup(row), map[])
  {
    hide PresenceCheck, TypedRow, CaseName, ValidIdentifier, TypeOf, NamesApart;
    NameElsewhere(fields, k, i);
    CaseTyped(fields, row, k);
    FieldTyped(fields, row, k);
    WrapperTyped(row[fields[k].name], TypeOf(fields[k].typ));
    var changed := row[fields[i].name := x];
    PresenceCheckEvaluates(o, fields[k], path, row);
    PresenceCheckEvaluates(o, fields[k], path, changed);
  }

  lemma {:induction false} SampleMark(
    o: E.Oracle, fields: seq<Field>, slots: seq<Slot>, row: map<string, E.Stored>, i: nat, x: E.Stored)
    requires i < |fields| == |slots| && TypedRow(fields, row) && DecodeMessage(o, fields, row) == Ok(Message(slots))
    requires fields[i].presence == OneofMember ==> slots[i].Present?
    requires E.HasType(x, FieldType(fields[i])) && MarkedPresent(fields[i], x)
    ensures SameMark(fields[i], row, x)
  {
    hide DecodeField, DecodeFields, TypedRow, TypeOf;
    if fields[i].presence == OneofMember {
      DecodeFieldsAt(o, fields, row);
      FieldTyped(fields, row, i);
      PresenceBit(o, fields[i], row[fields[i].name]);
    }
  }

  lemma {:induction false} RowHolds(
    o: E.Oracle, fields: seq<Field>, path: string, row: map<string, E.Stored>, i: nat, x: E.Stored)
    requires fields != [] && NamesApart(fields) && i < |fields| && TypedRow(fields, row)
    requires Emit(fields, 0, path, false).Ok?
    requires forall k :: 0 <= k < |fields| ==> RenderableField(fields[k])
    requires DecodeMessage(o, fields, row).Ok? && E.HasType(x, FieldType(fields[i])) && SameMark(fields[i], row, x)
    requires MapField(fields[i], JoinPath(path, fields[i].name)).Ok?
    requires AllHold(o, MapField(fields[i], JoinPath(path, fields[i].name)).value.checks, x)
    ensures AllHold(o, Emit(fields, 0, path, false).value.checks, E.Tup(row[fields[i].name := x]))
  {
    hide MapField, EmissionHolds, AllHold, Emit, TypedRow, FieldType, DecodeMessage, RenderableField, SameMark, NamesOk,
         OneofsOk, ScopeKeysTight;
    forall k | 0 <= k < |fields|
      ensures MapField(fields[k], JoinPath(path, fields[k].name)).Ok?
    {
      MapFieldAccepts(fields[k], JoinPath(path, fields[k].name));
    }
    MessageMeans(o, fields, path, row);
    EmitMeans(o, fields, 0, path, E.Tup(row));
    var changed := row[fields[i].name := x];
    forall k | 0 <= k < |fields|
      ensures EmissionHolds(o, fields, k, path, E.Tup(changed))
    {
      EmissionMoves(o, fields, k, path, row, i, x);
    }
    EmitMeans(o, fields, 0, path, E.Tup(changed));
  }

  lemma {:induction false} RowFails(o: E.Oracle, fields: seq<Field>, row: map<string, E.Stored>, i: nat, x: E.Stored)
    requires i < |fields| && DecodeField(o, fields[i], x).Err?
    ensures DecodeMessage(o, fields, row[fields[i].name := x]).Err?
  {
    hide DecodeField, DecodeFields;
    DecodeFieldsAt(o, fields, row[fields[i].name := x]);
  }

  /** The row of a message whose i-th field holds the stray value. */
  lemma {:induction false} SampleRow(
    o: E.Oracle, a: Samples, fields: seq<Field>, i: nat, x: E.Stored) returns (row: map<string, E.Stored>)
    requires SamplesOk(o, a) && NamesApart(fields) && forall k :: 0 <= k < |fields| ==> RenderableField(fields[k])
    requires i < |fields| && Selectable(fields[i])
    requires E.HasType(x, FieldType(fields[i])) && MarkedPresent(fields[i], x)
    ensures TypedRow(fields, row) && DecodeMessage(o, fields, row).Ok? && SameMark(fields[i], row, x)
  {
    hide DecodeMessage, EncodeMessage, TypedRow, RenderableField, FieldType, SameMark, MarkedPresent, WellFormedScope,
         FitsScope, Number, NamesOk, WellFormedSlot, FitsSlot, SampleSlot, Sample;
    var slots := SamplesWith(a, fields, i, SelectedSlot(a, fields[i]));
    SelectedOk(o, a, fields[i]);
    SamplesWithOk(o, a, fields, i, SelectedSlot(a, fields[i]));
    row := EncodeMessage(fields, slots);
    MessageRoundTrip(o, fields, slots);
    MessageTyped(o, fields, slots);
    SampleMark(o, fields, slots, row, i, x);
  }

  lemma {:induction false} MessageStray(
    o: E.Oracle, a: Samples, t: DataType, path: string, i: nat, x: E.Stored) returns (p: E.Stored)
    requires SamplesOk(o, a) && t.Struct? && Renderable(t) && MapType(t, path).Ok? && i < |t.fields|
    requires Selectable(t.fields[i])
    requires MapField(t.fields[i], JoinPath(path, t.fields[i].name)).Ok?
    requires StrayField(o, t.fields[i], JoinPath(path, t.fields[i].name), x) && MarkedPresent(t.fields[i], x)
    ensures StrayValue(o, t, path, p)
  {
    hide MapField, AllHold, Emit, TypedRow, FieldType, DecodeMessage, RenderableField, SameMark, NamesOk, OneofsOk,
         NamesApart, MarkedPresent, DecodeField;
    var fields := t.fields;
    ApartWhenNested(fields);
    var row := SampleRow(o, a, fields, i, x);
    var changed := row[fields[i].name := x];
    RestoredTyped(fields, row, i, x);
    StructChecks(t, path);
    RowHolds(o, fields, path, row, i, x);
    RowFails(o, fields, row, i, x);
    MessageIsTuple(o, t, changed);
    p := E.Tup(changed);
  }

  lemma {:induction false} StructChecks(t: DataType, path: string)
    requires t.Struct? && t.fields != [] && MapType(t, path).Ok?
    ensures Emit(t.fields, 0, path, false).Ok?
    ensures MapType(t, path).value.checks == Emit(t.fields, 0, path, false).value.checks
  {
    hide Emit, NamesOk, OneofsOk;
    EmitsSomethingIfOk(t.fields, path);
  }

  lemma {:induction false} EmitsSomethingIfOk(fields: seq<Field>, path: string)
    requires fields != []
    ensures Emit(fields, 0, path, false).Ok? ==> Emit(fields, 0, path, false).value.declarations != []
  {
    hide MapField;
  }

  // ----- whole tables -----

  /** A table's checks let nothing through but representations. */
  ghost predicate TableDecides(o: E.Oracle, table: Table, fields: seq<Field>) {
    forall row :: TypedRow(fields, row) && AllHoldIn(o, table.checks, row) ==> DecodeMessage(o, fields, row).Ok?
  }

  /** The row of a table whose i-th column holds a stray value. */
  lemma {:induction false} StrayRow(
    o: E.Oracle, a: Samples, name: string, description: string, fields: seq<Field>, i: nat, x: E.Stored)
    returns (row: map<string, E.Stored>)
    requires SamplesOk(o, a) && Schema(name, description, fields).Ok? && i < |fields| && Selectable(fields[i])
    requires MapField(fields[i], JoinPath("", fields[i].name)).Ok?
    requires StrayField(o, fields[i], JoinPath("", fields[i].name), x) && MarkedPresent(fields[i], x)
    ensures TypedRow(fields, row) && AllHoldIn(o, Schema(name, description, fields).value.checks, row)
    ensures DecodeMessage(o, fields, row).Err?
    ensures fields[i].name in row && row[fields[i].name] == x
  {
    hide MapField, AllHold, AllHoldIn, Emit, TypedRow, FieldType, DecodeMessage, RenderableField, SameMark, NamesOk,
         OneofsOk, NamesApart, MarkedPresent, DecodeField, Schema, Selectable;
    AcceptedFields(name, description, fields);
    TableChecks(name, description, fields);
    var before := SampleRow(o, a, fields, i, x);
    row := before[fields[i].name := x];
    RestoredTyped(fields, before, i, x);
    NestedEmits(fields);
    RowHolds(o, fields, "", before, i, x);
    RowFails(o, fields, before, i, x);
    EmitIn(o, fields, 0, "", row);
  }

  lemma {:induction false} TableStray(
    o: E.Oracle, a: Samples, name: string, description: string, fields: seq<Field>, i: nat)
    returns (row: map<string, E.Stored>)
    requires SamplesOk(o, a) && Schema(name, description, fields).Ok?
    requires i < |fields| && Selectable(fields[i]) && !KeysTightField(fields[i])
    ensures TypedRow(fields, row) && AllHoldIn(o, Schema(name, description, fields).value.checks, row)
    ensures DecodeMessage(o, fields, row).Err?
  {
    hide MapField, AllHoldIn, TypedRow, DecodeMessage, RenderableField, NamesApart, MarkedPresent, StrayField, Schema,
         Selectable, KeysTightField;
    AcceptedFields(name, description, fields);
    var x := FieldStray(o, a, fields[i], JoinPath("", fields[i].name));
    row := StrayRow(o, a, name, description, fields, i, x);
  }

  lemma {:induction false} NestedEmits(fields: seq<Field>)
    requires Emit(fields, 0, "", true).Ok?
    ensures Emit(fields, 0, "", false).Ok?
  {
    EmitLevels(fields, 0);
  }

  lemma {:induction false} EmitLevels(fields: seq<Field>, k: nat)
    requires k <= |fields| && Emit(fields, k, "", true).Ok?
    ensures Emit(fields, k, "", false).Ok?
    decreases |fields| - k
  {
    hide MapField, EmitOne;
    if k < |fields| {
      EmitLevels(fields, k + 1);
    }
  }

  /** For every accepted dataset: the CHECKs accept only representations of rows
      exactly when every map key, at any depth, is tight. */
  lemma {:induction false} TableDecidesIff(
    o: E.Oracle, a: Samples, name: string, description: string, fields: seq<Field>)
    requires SamplesOk(o, a) && Schema(name, description, fields).Ok?
    ensures TableDecides(o, Schema(name, description, fields).value, fields) <==> ScopeKeysTight(fields)
  {
    hide AllHoldIn, TypedRow, DecodeMessage, Schema, KeysTightField;
    if ScopeKeysTight(fields) {
      forall row | TypedRow(fields, row) && AllHoldIn(o, Schema(name, description, fields).value.checks, row)
        ensures DecodeMessage(o, fields, row).Ok?
      {
        TableMeans(o, name, description, fields, row);
      }
    } else {
      var i :| 0 <= i < |fields| && Selectable(fields[i]) && !KeysTightField(fields[i]);
      var row := TableStray(o, a, name, description, fields, i);
    }
  }
}
