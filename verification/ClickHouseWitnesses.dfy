/** Two datasets that both renderers accept: one whose CHECKs let a row through
    that represents nothing, and one whose conversion plan cannot read a row. */
module ClickHouseWitnesses {
  import opened Results
  import opened LogicalSchema
  import opened ClickHouseLowering
  import opened ClickHouseAcceptance
  import opened ClickHouseValues
  import opened ClickHouseKeys
  import opened ClickHouseEncoding
  import opened ClickHouseFit
  import opened ClickHouseRange
  import opened ClickHouseSlack
  import opened ClickHouseStray
  import opened ClickHouseProjection
  import opened ClickHouseIceberg
  import opened ClickHouseTable
  import E = ClickHouseExpr

  const FLAG: DataType := Primitive("", Bool)

  // ----- a map whose key is an optional empty message -----

  const OPTIONAL_KEY: Field :=
    Field("m.Row.flags.key", [1], "key", 2, Explicit, true, "", "", Struct("m.Empty", []), MapKey, false, "", "", "")

  const FLAG_VALUE: Field :=
    Field("m.Row.flags.value", [1], "value", 3, NotApplicable, false, "", "", FLAG, MapValue, false, "", "", "")

  const FLAGS: Field :=
    Field("m.Row.flags", [1], "flags", 1, MapEntries, false, "", "", Map(OPTIONAL_KEY, FLAG_VALUE), ProtoField, false,
        "", "", "flags")

  function AbsentKey(hidden: bool): E.Stored { Wrapper(false, E.Tup(map[UNIT := E.B(hidden)])) }

  /** Two entries whose keys are both absent. */
  const REPEATED: E.Stored :=
    E.MapOf([E.Entry(AbsentKey(false), E.B(false)), E.Entry(AbsentKey(true), E.B(false))])

  lemma {:induction false} FlagsRenderable()
    ensures RenderableField(FLAGS) && RenderableField(OPTIONAL_KEY) && RenderableField(FLAG_VALUE)
    ensures MapScope([FLAGS], "", true).Ok?
  {
    hide RenderableField, MapScope;
    FlagFieldsRenderable();
    FlagsFieldRenderable();
    FlagsScope();
    MapScopeAccepts([FLAGS], "", true);
  }

  lemma {:induction false} FlagFieldsRenderable()
    ensures RenderableField(OPTIONAL_KEY) && RenderableField(FLAG_VALUE)
  {
    assert Renderable(Struct("m.Empty", [])) && Renderable(FLAG);
  }

  lemma {:induction false} FlagsFieldRenderable()
    requires RenderableField(OPTIONAL_KEY) && RenderableField(FLAG_VALUE)
    ensures RenderableField(FLAGS)
  {
    assert Renderable(FLAGS.typ);
  }

  lemma {:induction false} FlagsScope()
    requires RenderableField(FLAGS)
    ensures RenderableScope([FLAGS], true)
  {
    hide RenderableField;
  }

  /** A table of one plain column is accepted when its constraints have different
      names. */
  lemma {:induction false} OneColumnAccepted(f: Field)
    requires MapScope([f], "", true).Ok? && MapField(f, f.name).Ok? && f.oneof == ""
    requires DistinctConstraintNames(MapField(f, f.name).value.checks)
    ensures Schema("rows", "", [f]).Ok?
  {
    hide MapField, NamesOk, OneofsOk, ConstraintName;
    var mapped := MapField(f, f.name).value;
    var located := Located(mapped.checks, ScopeElement(f.name, true));
    assert Emit([f], 1, "", true) == Ok(Scope([], [], []));
    assert [] + [] + located + [] == located;
    var scope := MapScope([f], "", true).value;
    assert scope.checks == located && scope.declarations != [];
    forall i, j | 0 <= i < j < |located|
      ensures ConstraintName(located[i]) != ConstraintName(located[j])
    {
      SameConstraint(mapped.checks[i], located[i]);
      SameConstraint(mapped.checks[j], located[j]);
    }
  }

  lemma {:induction false} SameConstraint(a: Check, b: Check)
    requires a.path == b.path && a.kind == b.kind
    ensures ConstraintName(a) == ConstraintName(b)
  {
  }

  lemma {:induction false} UnitChecks(path: string)
    ensures MapField(OPTIONAL_KEY, path).Ok?
    ensures var checks := MapField(OPTIONAL_KEY, path).value.checks;
            |checks| == 1 && checks[0].path == path && checks[0].kind == "unit"
  {
    assert Emit([], 0, path, false) == Ok(Scope([], [], []));
    assert MapType(Struct("m.Empty", []), path).Ok?;
    assert MapType(Struct("m.Empty", []), path).value.checks == [UnitCheck(path, false)];
  }

  lemma {:induction false} FlagsChecks()
    ensures MapField(FLAGS, "flags").Ok?
    ensures var checks := MapField(FLAGS, "flags").value.checks;
            && |checks| == 2
            && checks[0].path == "flags" && checks[0].kind == "map_keys"
            && checks[1].path == "flags" + ".key" && checks[1].kind == "unit"
  {
    hide RenderableField;
    FlagsRenderable();
    MapFieldAccepts(FLAGS, "flags");
    UnitChecks("flags" + ".key");
    FlagChecks("flags" + ".value");
    FlagsMapped();
  }

  lemma {:induction false} FlagChecks(path: string)
    ensures MapField(FLAG_VALUE, path).Ok? && MapField(FLAG_VALUE, path).value.checks == []
  {
  }

  lemma {:induction false} FlagsMapped()
    requires MapField(FLAGS, "flags").Ok?
    ensures MapField(OPTIONAL_KEY, "flags" + ".key").Ok? && MapField(FLAG_VALUE, "flags" + ".value").Ok?
    ensures MapField(FLAGS, "flags").value.checks
         == [MapKeysCheck("flags")]
            + QuantifiedAll(MapField(OPTIONAL_KEY, "flags" + ".key").value.checks, "key", E.Call(E.MapKeys, E.Hole))
            + QuantifiedAll(MapField(FLAG_VALUE, "flags" + ".value").value.checks, "value", E.Call(E.MapValues, E.Hole))
  {
    hide QuantifiedAll;
    assert MapType(FLAGS.typ, "flags").Ok?;
    assert MapField(FLAGS, "flags").value.checks == MapType(FLAGS.typ, "flags").value.checks;
  }

  lemma {:induction false} FlagsAccepted()
    ensures Schema("rows", "", [FLAGS]).Ok? && !ScopeKeysTight([FLAGS]) && Selectable(FLAGS)
  {
    hide Schema, MapField, MapScope, RenderableField;
    FlagsRenderable();
    FlagsChecks();
    var checks := MapField(FLAGS, "flags").value.checks;
    assert ConstraintName(checks[0])[16] == 'm' && ConstraintName(checks[1])[16] == 'k';
    OneColumnAccepted(FLAGS);
    assert !TightField(OPTIONAL_KEY);
    assert !KeysTightField([FLAGS][0]);
  }

  lemma {:induction false} AbsentKeys(o: E.Oracle)
    ensures Twins(o, OPTIONAL_KEY, AbsentKey(false), AbsentKey(true))
  {
    var x, y := E.Tup(map[UNIT := E.B(false)]), E.Tup(map[UNIT := E.B(true)]);
    var t := TypeOf(OPTIONAL_KEY.typ);
    UnitHasType(false);
    UnitHasType(true);
    WrapperHasType(false, x, t);
    WrapperHasType(false, y, t);
    assert x.elements[UNIT] != y.elements[UNIT];
    assert AbsentKey(false).elements[VALUE] != AbsentKey(true).elements[VALUE];
    assert DecodeWrapped(o, OPTIONAL_KEY.typ, AbsentKey(false)) == Ok(Absent);
    assert DecodeWrapped(o, OPTIONAL_KEY.typ, AbsentKey(true)) == Ok(Absent);
  }

  lemma {:induction false} UnitHasType(b: bool)
    ensures E.HasType(E.Tup(map[UNIT := E.B(b)]), TypeOf(Struct("m.Empty", [])))
  {
    var elements := [E.Element(UNIT, E.Bool)];
    assert E.Names(elements) == {UNIT} by {
      assert elements[0] in elements;
    }
  }

  lemma {:induction false} RepeatedIsStray(o: E.Oracle)
    ensures MapField(FLAGS, JoinPath("", "flags")).Ok? && StrayField(o, FLAGS, JoinPath("", "flags"), REPEATED)
  {
    hide Twins, StrayValue, StrayField, MapField, MapType, Renderable;
    FlagsRenderable();
    var path := JoinPath("", "flags");
    MapFieldAccepts(FLAGS, path);
    assert Renderable(FLAGS.typ) by { FlagsType(); }
    MapTypeAccepts(FLAGS.typ, path);
    AbsentKeys(o);
    FlagStored(o);
    RepeatedStray(o, FLAGS.typ, path, AbsentKey(false), AbsentKey(true), E.B(false));
    BareStray(o, FLAGS, path, REPEATED);
  }

  lemma {:induction false} FlagsType()
    ensures Renderable(FLAGS.typ)
  {
    FlagsRenderable();
  }

  lemma {:induction false} FlagStored(o: E.Oracle)
    ensures E.HasType(E.B(false), FieldType(FLAG_VALUE)) && DecodeField(o, FLAG_VALUE, E.B(false)).Ok?
  {
    assert DecodeField(o, FLAG_VALUE, E.B(false)) == DecodePresent(o, FLAG, E.B(false));
  }

  /** A row with one logical key twice passes every CHECK of its table. */
  lemma {:induction false} RepeatedKeyRow(o: E.Oracle, a: Samples)
    requires SamplesOk(o, a)
    ensures Schema("rows", "", [FLAGS]).Ok?
    ensures var row := map["flags" := REPEATED];
            && TypedRow([FLAGS], row)
            && AllHoldIn(o, Schema("rows", "", [FLAGS]).value.checks, row)
            && DecodeMessage(o, [FLAGS], row).Err?
  {
    hide Schema, AllHoldIn, DecodeMessage, StrayField, MapField, Selectable;
    FlagsAccepted();
    RepeatedIsStray(o);
    NotMarked(FLAGS, REPEATED);
    var row := StrayRow(o, a, "rows", "", [FLAGS], 0, REPEATED);
    OneColumn(FLAGS, row);
    assert row == map["flags" := REPEATED];
  }

  lemma {:induction false} OneColumn(f: Field, row: map<string, E.Stored>)
    requires TypedRow([f], row) && f.oneof == ""
    ensures row.Keys == {f.name}
  {
    var elements := [E.Element(f.name, FieldType(f))];
    assert ElementsFrom([f], 0) == elements by {
      assert ElementsFrom([f], 1) == [];
    }
    assert E.Names(elements) == {f.name} by {
      assert elements[0] in elements;
    }
  }

  // ----- a list of oneof members -----

  const STRAY_MEMBER: Field :=
    Field("m.Row.flags.element", [1], "element", 2, OneofMember, true, "choice", "", FLAG, ListElement, false, "", "",
        "")

  const CHOICES: Field :=
    Field("m.Row.flags", [1], "flags", 1, Repeated, false, "", "", List(STRAY_MEMBER, 0), ProtoField, false, "", "",
        "flags")

  const CHOSEN: seq<Slot> := [Present(Elements([Present(Truth(false))]))]

  const CHOSEN_ROW: map<string, E.Stored> := map["flags" := E.Arr([Wrapper(true, E.B(false))])]

  lemma {:induction false} ChoicesRenderable()
    ensures RenderableField(CHOICES) && RenderableField(STRAY_MEMBER) && MapScope([CHOICES], "", true).Ok?
  {
    assert Renderable(FLAG);
    assert RenderableField(STRAY_MEMBER);
    assert Renderable(CHOICES.typ);
    assert RenderableField(CHOICES);
    MapScopeAccepts([CHOICES], "", true);
  }

  lemma {:induction false} ChoicesAccepted()
    ensures Schema("rows", "", [CHOICES]).Ok? && !ScopeCasesInMessages([CHOICES])
  {
    hide Schema, MapField, MapScope, RenderableField;
    ChoicesRenderable();
    ChoicesUnchecked();
    OneColumnAccepted(CHOICES);
    assert !CasesInMessagesField([CHOICES][0]);
  }

  lemma {:induction false} ChoicesUnchecked()
    ensures MapField(CHOICES, "flags").Ok? && MapField(CHOICES, "flags").value.checks == []
  {
    assert MapType(FLAG, "flags[]").Ok? && MapType(FLAG, "flags[]").value.checks == [];
    assert MapField(STRAY_MEMBER, "flags[]").Ok? && MapField(STRAY_MEMBER, "flags[]").value.checks == [];
    assert "flags" + "[]" == "flags[]";
    assert MapType(CHOICES.typ, "flags").Ok? && MapType(CHOICES.typ, "flags").value.checks == [];
  }

  lemma {:induction false} ChoicesPlanned()
    ensures ProjectToIceberg("rows", "", [CHOICES], []) == Ok(ProjectFields([CHOICES]))
  {
    hide Schema;
    ChoicesAccepted();
    assert FieldIds(STRAY_MEMBER) == [2];
    assert FieldIds(CHOICES) == [1, 2];
    assert ScopeIds([CHOICES]) == [1, 2] by {
      assert [CHOICES][1..] == [];
    }
    assert IcebergType(FLAG) && IcebergField(STRAY_MEMBER) && IcebergField(CHOICES);
    assert NumberedField(STRAY_MEMBER) && NumberedField(CHOICES);
  }

  lemma {:induction false} ChosenWellFormed(o: E.Oracle)
    ensures WellFormedScope(o, [CHOICES], CHOSEN) && FitsScope([CHOICES], CHOSEN)
  {
    assert WellFormed(o, FLAG, Truth(false)) && Fits(FLAG, Truth(false));
    assert WellFormedSlot(o, STRAY_MEMBER, Present(Truth(false))) && FitsSlot(STRAY_MEMBER, Present(Truth(false)));
    assert WellFormed(o, CHOICES.typ, CHOSEN[0].value) && Fits(CHOICES.typ, CHOSEN[0].value);
    assert WellFormedSlot(o, CHOICES, CHOSEN[0]) && FitsSlot(CHOICES, CHOSEN[0]);
  }

  lemma {:induction false} ChosenEncoded()
    ensures EncodeMessage([CHOICES], CHOSEN) == CHOSEN_ROW
  {
    var inner := EncodeEach(STRAY_MEMBER, [Present(Truth(false))]);
    assert inner == [Wrapper(true, E.B(false))] by {
      assert inner[0] == EncodeSlot(STRAY_MEMBER, Present(Truth(false)));
    }
    assert Encode(CHOICES.typ, CHOSEN[0].value) == E.Arr(inner);
    assert EncodeSlot(CHOICES, CHOSEN[0]) == E.Arr(inner);
    assert EncodeFrom([CHOICES], CHOSEN, 1) == map[];
    assert EncodeFrom([CHOICES], CHOSEN, 0) == map["flags" := E.Arr(inner)];
  }

  lemma {:induction false} MemberUnread(o: E.Oracle)
    ensures Follow(o, ProjectField(STRAY_MEMBER), Wrapper(true, E.B(false)), E.Null).Err?
  {
    hide Follow, ProjectField;
    WrapperHasType(true, E.B(false), TypeOf(FLAG));
    StrayMemberIsUnreadable(o, STRAY_MEMBER, Wrapper(true, E.B(false)));
  }

  lemma {:induction false} ChosenUnread(o: E.Oracle)
    ensures FollowFields(o, ProjectFields([CHOICES]), CHOSEN_ROW).Err?
  {
    hide Follow;
    MemberUnread(o);
    var items := [Wrapper(true, E.B(false))];
    assert FollowEach(o, ProjectField(STRAY_MEMBER), items).Err?;
    ListUnread(o, items);
  }

  lemma {:induction false} ListUnread(o: E.Oracle, items: seq<E.Stored>)
    requires FollowEach(o, ProjectField(STRAY_MEMBER), items).Err?
    ensures Follow(o, ProjectField(CHOICES), E.Arr(items), E.Null).Err?
  {
    hide FollowEach;
    var plan := ProjectField(CHOICES);
    var env := map[CASE := E.Null];
    assert E.Eval(o, plan.presence, E.Arr(items), env) == E.B(true);
    assert E.Eval(o, plan.value, E.Arr(items), env) == E.Arr(items);
    assert plan.children[0] == ProjectField(STRAY_MEMBER);
  }

  /** A stored row of a planned dataset that the plan cannot read. */
  lemma {:induction false} UnreadRow(o: E.Oracle)
    ensures ProjectToIceberg("rows", "", [CHOICES], []).Ok? && Schema("rows", "", [CHOICES]).Ok?
    ensures Stores(o, Schema("rows", "", [CHOICES]).value, [CHOICES], CHOSEN_ROW, CHOSEN)
    ensures FollowFields(o, ProjectToIceberg("rows", "", [CHOICES], []).value, CHOSEN_ROW).Err?
  {
    hide Schema, WellFormedScope, FitsScope, EncodeMessage, DecodeMessage, TypedRow, AllHoldIn, FollowFields,
         ProjectFields;
    ChoicesAccepted();
    ChoicesPlanned();
    ChosenWellFormed(o);
    ChosenEncoded();
    WellFormedRowIsAccepted(o, "rows", "", [CHOICES], CHOSEN);
    ChosenUnread(o);
  }

  // ----- a oneof member whose number no discriminator can hold -----

  const FAR_MEMBER: Field :=
    Field("m.Row.far", [0x8000_0000], "far", 1, OneofMember, true, "choice", "", FLAG, ProtoField, false, "", "", "far")

  const FAR_CHOSEN: seq<Slot> := [Present(Truth(false))]

  lemma {:induction false} FarScope()
    ensures RenderableField(FAR_MEMBER) && NamesOk([FAR_MEMBER], true) && OneofsOk([FAR_MEMBER])
    ensures MapField(FAR_MEMBER, "far").Ok? && MapField(FAR_MEMBER, "far").value.checks == []
    ensures MapField(FAR_MEMBER, "far").value.diagnostics == [Diagnostic("far", RepresentationChanged)]
  {
    assert MapType(FLAG, "far").Ok? && MapType(FLAG, "far").value.checks == [];
    assert Renderable(FLAG) && RenderableField(FAR_MEMBER);
    FarNames();
  }

  lemma {:induction false} FarNames()
    ensures NamesOk([FAR_MEMBER], true) && OneofsOk([FAR_MEMBER])
  {
  }

  lemma {:induction false} FarAccepted()
    ensures Schema("rows", "", [FAR_MEMBER]).Ok? && Unreduced(Schema("rows", "", [FAR_MEMBER]).value.diagnostics)
  {
    hide MapField, NamesOk, OneofsOk, CaseCheck, PresenceCheck, CaseDeclaration;
    FarScope();
    var f := FAR_MEMBER;
    var mapped := MapField(f, "far").value;
    var checks := [CaseCheck([f], 0, "", true)] + [PresenceCheck(f, "", true)];
    assert Emit([f], 1, "", true) == Ok(Scope([], [], []));
    assert FirstOfGroup([f], 0);
    assert Located(mapped.checks, ScopeElement(f.name, true)) == [];
    assert EmitOne([f], 0, mapped, "", true).checks == checks;
    assert JoinPath("", [f][0].name) == "far";
    assert Emit([f], 0, "", true) == Ok(Append(EmitOne([f], 0, mapped, "", true), Scope([], [], [])));
    var scope := MapScope([f], "", true).value;
    assert scope.checks == checks && scope.declarations != [] && scope.diagnostics == mapped.diagnostics;
    FarConstraints();
  }

  lemma {:induction false} FarConstraints()
    ensures DistinctConstraintNames([CaseCheck([FAR_MEMBER], 0, "", true)] + [PresenceCheck(FAR_MEMBER, "", true)])
  {
    assert ConstraintName(CaseCheck([FAR_MEMBER], 0, "", true))[10] == 'c';
    assert ConstraintName(PresenceCheck(FAR_MEMBER, "", true))[10] == 'f';
  }

  /** A well-formed message that a table without range diagnostics cannot hold. */
  lemma {:induction false} FarMessage(o: E.Oracle)
    ensures Schema("rows", "", [FAR_MEMBER]).Ok? && Unreduced(Schema("rows", "", [FAR_MEMBER]).value.diagnostics)
    ensures WellFormedScope(o, [FAR_MEMBER], FAR_CHOSEN)
    ensures !exists row :: Stores(o, Schema("rows", "", [FAR_MEMBER]).value, [FAR_MEMBER], row, FAR_CHOSEN)
  {
    hide Schema, Stores, Unreduced;
    FarAccepted();
    assert WellFormed(o, FLAG, Truth(false));
    assert WellFormedSlot(o, FAR_MEMBER, FAR_CHOSEN[0]);
    assert [FAR_MEMBER][0].oneof != "" && !E.InInt32(Number([FAR_MEMBER][0]));
    StoredMessagesAreExact(o, "rows", "", [FAR_MEMBER], FAR_CHOSEN);
  }
}
