/** Whole tables: the constraints that Schema emits accept exactly the rows that
    represent a well-formed message. */
module ClickHouseTable {
  import opened Results
  import opened LogicalSchema
  import opened ClickHouseLowering
  import opened ClickHouseScoping
  import opened ClickHouseAcceptance
  import opened ClickHouseValues
  import opened ClickHouseKeys
  import opened ClickHouseMeaning
  import opened ClickHouseEncoding
  import opened ClickHouseRoundTrip
  import opened ClickHouseFit
  import opened ClickHouseRange
  import opened ClickHouseProjection
  import E = ClickHouseExpr
  import T = ClickHouseText

  /** A row passes the checks of a table: columns are the environment. */
  predicate AllHoldIn(o: E.Oracle, checks: seq<Check>, row: map<string, E.Stored>) {
    forall i :: 0 <= i < |checks| ==> E.Holds(o, checks[i].expr, E.Null, row)
  }

  // ----- a row is evaluated like a tuple -----

  lemma {:induction false} ConcatIn(o: E.Oracle, a: seq<Check>, b: seq<Check>, row: map<string, E.Stored>)
    ensures AllHoldIn(o, a + b, row) <==> AllHoldIn(o, a, row) && AllHoldIn(o, b, row)
  {
    if AllHoldIn(o, a + b, row) {
      assert forall i :: 0 <= i < |a| ==> a[i] == (a + b)[i];
      assert forall i :: 0 <= i < |b| ==> b[i] == (a + b)[|a| + i];
    }
  }

  /** A per-value check at a column, whatever else the row holds: a column may
      even be called element, key or value. */
  lemma {:induction false} CheckAtColumn(o: E.Oracle, check: E.Expr, name: string, row: map<string, E.Stored>)
    requires E.Scoped(check)
    ensures E.Holds(o, E.Replace(check, E.Ident(name, true)), E.Null, row)
       <==> E.Holds(o, check, E.Lookup(row, name), map[])
  {
    E.ReplaceEvaluates(o, check, E.Ident(name, true), E.Null, row);
    E.EvalDependsOnFree(o, check, E.Lookup(row, name), E.Lookup(row, name), row, map[]);
  }

  lemma {:induction false} LocatedIn(o: E.Oracle, checks: seq<Check>, name: string, row: map<string, E.Stored>)
    requires AllScoped(checks)
    ensures AllHoldIn(o, Located(checks, E.Ident(name, true)), row) <==> AllHold(o, checks, E.Lookup(row, name))
  {
    var located := Located(checks, E.Ident(name, true));
    forall i | 0 <= i < |checks|
      ensures E.Holds(o, located[i].expr, E.Null, row) <==> E.Holds(o, checks[i].expr, E.Lookup(row, name), map[])
    {
      CheckAtColumn(o, checks[i].expr, name, row);
    }
    if AllHoldIn(o, located, row) {
      forall i | 0 <= i < |checks|
        ensures E.Holds(o, checks[i].expr, E.Lookup(row, name), map[])
      {
        assert E.Holds(o, located[i].expr, E.Null, row);
      }
    }
  }

  lemma {:induction false} CaseCheckIn(
    o: E.Oracle, fields: seq<Field>, i: nat, path: string, row: map<string, E.Stored>)
    requires i < |fields|
    ensures E.Eval(o, CaseCheck(fields, i, path, true).expr, E.Null, row)
         == E.Eval(o, CaseCheck(fields, i, path, false).expr, E.Tup(row), map[])
  {
    hide CaseNumbers;
    var name := CaseName(fields[i].oneof);
    assert E.Eval(o, E.Ident(name, true), E.Null, row) == E.Eval(o, At(E.Hole, name), E.Tup(row), map[]);
  }

  lemma {:induction false} PresenceCheckIn(o: E.Oracle, f: Field, path: string, row: map<string, E.Stored>)
    ensures E.Eval(o, PresenceCheck(f, path, true).expr, E.Null, row)
         == E.Eval(o, PresenceCheck(f, path, false).expr, E.Tup(row), map[])
  {
    var name := CaseName(f.oneof);
    assert E.Eval(o, E.Ident(name, true), E.Null, row) == E.Eval(o, At(E.Hole, name), E.Tup(row), map[]);
    assert E.Eval(o, E.Ident(f.name, true), E.Null, row) == E.Eval(o, At(E.Hole, f.name), E.Tup(row), map[]);
    assert E.Eval(o, At(E.Ident(f.name, true), PRESENT), E.Null, row)
        == E.Eval(o, At(At(E.Hole, f.name), PRESENT), E.Tup(row), map[]);
    assert E.Eval(o, Equal(E.Ident(name, true), E.Number(Number(f))), E.Null, row)
        == E.Eval(o, Equal(At(E.Hole, name), E.Number(Number(f))), E.Tup(row), map[]);
  }

  lemma {:induction false} OptionalCheckIn(o: E.Oracle, emitted: bool, check: Check, row: map<string, E.Stored>)
    ensures AllHoldIn(o, if emitted then [check] else [], row) <==> (emitted ==> E.Holds(o, check.expr, E.Null, row))
  {
    assert [check][0] == check;
  }

  lemma {:induction false} EmitOneIn(
    o: E.Oracle, fields: seq<Field>, i: nat, mapped: MappedField, path: string, row: map<string, E.Stored>)
    requires i < |fields| && AllScoped(mapped.checks)
    ensures AllHoldIn(o, EmitOne(fields, i, mapped, path, true).checks, row)
       <==> AllHold(o, EmitOne(fields, i, mapped, path, false).checks, E.Tup(row))
  {
    hide AllHold, AllHoldIn, Located, CaseCheck, PresenceCheck, AllScoped;
    var f := fields[i];
    var first, member := FirstOfGroup(fields, i), f.oneof != "";
    var cases := if first then [CaseCheck(fields, i, path, true)] else [];
    var presence := if member then [PresenceCheck(f, path, true)] else [];
    ConcatIn(o, cases + presence, Located(mapped.checks, E.Ident(f.name, true)), row);
    ConcatIn(o, cases, presence, row);
    OptionalCheckIn(o, first, CaseCheck(fields, i, path, true), row);
    OptionalCheckIn(o, member, PresenceCheck(f, path, true), row);
    LocatedIn(o, mapped.checks, f.name, row);
    NestedParts(o, fields, i, mapped, path, E.Tup(row));
    OwnChecksMean(o, mapped.checks, f.name, row);
    CaseCheckIn(o, fields, i, path, row);
    PresenceCheckIn(o, f, path, row);
  }

  lemma {:induction false} NestedParts(
    o: E.Oracle, fields: seq<Field>, i: nat, mapped: MappedField, path: string, p: E.Stored)
    requires i < |fields|
    ensures AllHold(o, EmitOne(fields, i, mapped, path, false).checks, p) <==>
            && (FirstOfGroup(fields, i) ==> E.Holds(o, CaseCheck(fields, i, path, false).expr, p, map[]))
            && (fields[i].oneof != "" ==> E.Holds(o, PresenceCheck(fields[i], path, false).expr, p, map[]))
            && AllHold(o, Located(mapped.checks, At(E.Hole, fields[i].name)), p)
  {
    hide AllHold, Located, CaseCheck, PresenceCheck;
    var f := fields[i];
    var cases := if FirstOfGroup(fields, i) then [CaseCheck(fields, i, path, false)] else [];
    var presence := if f.oneof != "" then [PresenceCheck(f, path, false)] else [];
    AllHoldConcat(o, cases + presence, Located(mapped.checks, At(E.Hole, f.name)), p);
    AllHoldConcat(o, cases, presence, p);
    OptionalCheck(o, FirstOfGroup(fields, i), CaseCheck(fields, i, path, false), p);
    OptionalCheck(o, f.oneof != "", PresenceCheck(f, path, false), p);
  }

  lemma {:induction false} EmitIn(o: E.Oracle, fields: seq<Field>, k: nat, path: string, row: map<string, E.Stored>)
    requires k <= |fields| && Emit(fields, k, path, true).Ok?
    ensures Emit(fields, k, path, false).Ok?
    ensures AllHoldIn(o, Emit(fields, k, path, true).value.checks, row)
       <==> AllHold(o, Emit(fields, k, path, false).value.checks, E.Tup(row))
    decreases |fields| - k
  {
    if k < |fields| {
      hide AllHold, AllHoldIn, MapField, EmitOne;
      EmitIn(o, fields, k + 1, path, row);
      var fieldPath := JoinPath(path, fields[k].name);
      var mapped := MapField(fields[k], fieldPath).value;
      MapFieldScoped(fields[k], fieldPath);
      EmitOneIn(o, fields, k, mapped, path, row);
      ConcatIn(o, EmitOne(fields, k, mapped, path, true).checks, Emit(fields, k + 1, path, true).value.checks, row);
      AllHoldConcat(o, EmitOne(fields, k, mapped, path, false).checks, Emit(fields, k + 1, path, false).value.checks,
          E.Tup(row));
    }
  }

  // ----- the theorems -----

  lemma {:induction false} AcceptedFields(name: string, description: string, fields: seq<Field>)
    requires Schema(name, description, fields).Ok?
    ensures NamesApart(fields) && forall i :: 0 <= i < |fields| ==> RenderableField(fields[i])
    ensures Emit(fields, 0, "", true).Ok?
  {
    hide Emit, NamesOk, OneofsOk, RenderableField;
    MapScopeAccepts(fields, "", true);
  }

  lemma {:induction false} TableChecks(name: string, description: string, fields: seq<Field>)
    requires Schema(name, description, fields).Ok?
    ensures Emit(fields, 0, "", true).Ok?
    ensures Schema(name, description, fields).value.checks ==
            if fields == [] then [UnitCheck("<dataset>", true)] else Emit(fields, 0, "", true).value.checks
  {
    hide MapField, NamesOk, OneofsOk;
  }

  lemma {:induction false} UnitIn(o: E.Oracle, row: map<string, E.Stored>)
    requires TypedRow([], row)
    ensures AllHoldIn(o, [UnitCheck("<dataset>", true)], row) <==> E.Lookup(row, UNIT) == E.B(false)
  {
    ElementTyped([], row, E.Element(UNIT, E.Bool));
    OptionalCheckIn(o, true, UnitCheck("<dataset>", true), row);
    assert E.Eval(o, E.Ident(UNIT, true), E.Null, row) == row[UNIT];
  }

  /** For every accepted dataset and every row its columns can hold. */
  lemma {:induction false} TableMeans(
    o: E.Oracle, name: string, description: string, fields: seq<Field>, row: map<string, E.Stored>)
    requires Schema(name, description, fields).Ok? && TypedRow(fields, row)
    ensures Means(ScopeKeysTight(fields),
                  AllHoldIn(o, Schema(name, description, fields).value.checks, row),
                  DecodeMessage(o, fields, row).Ok?)
  {
    hide Emit, NamesOk, OneofsOk, RenderableField, AllHold, AllHoldIn, TypedRow, Schema, DecodeFields;
    AcceptedFields(name, description, fields);
    TableChecks(name, description, fields);
    if fields == [] {
      UnitIn(o, row);
    } else {
      EmitIn(o, fields, 0, "", row);
      MessageMeans(o, fields, "", row);
    }
  }

  /** Soundness: a stored row that passes every CHECK is a well-formed row. */
  lemma {:induction false} CheckedRowIsWellFormed(
    o: E.Oracle, name: string, description: string, fields: seq<Field>, row: map<string, E.Stored>)
    requires Schema(name, description, fields).Ok? && TypedRow(fields, row) && ScopeKeysTight(fields)
    requires AllHoldIn(o, Schema(name, description, fields).value.checks, row)
    ensures DecodeMessage(o, fields, row).Ok? && DecodeMessage(o, fields, row).value.Message?
    ensures WellFormedScope(o, fields, DecodeMessage(o, fields, row).value.slots)
  {
    hide Schema, TypedRow, ScopeKeysTight, AllHoldIn, DecodeMessage, WellFormedScope;
    TableMeans(o, name, description, fields, row);
    MessageWellFormed(o, fields, row);
  }

  /** Completeness: every well-formed row that fits its columns is stored in
      them, passes every CHECK, and is read back unchanged. */
  lemma {:induction false} WellFormedRowIsAccepted(
    o: E.Oracle, name: string, description: string, fields: seq<Field>, slots: seq<Slot>)
    requires Schema(name, description, fields).Ok? && WellFormedScope(o, fields, slots)
    ensures DecodeMessage(o, fields, EncodeMessage(fields, slots)) == Ok(Message(slots))
    ensures TypedRow(fields, EncodeMessage(fields, slots)) <==> FitsScope(fields, slots)
    ensures FitsScope(fields, slots) ==>
            AllHoldIn(o, Schema(name, description, fields).value.checks, EncodeMessage(fields, slots))
  {
    hide Schema, TypedRow, AllHoldIn, DecodeMessage, EncodeMessage, FitsScope, WellFormedSlot, RenderableField,
         NamesApart;
    AcceptedFields(name, description, fields);
    MessageRoundTrip(o, fields, slots);
    MessageTyped(o, fields, slots);
    if FitsScope(fields, slots) {
      TableMeans(o, name, description, fields, EncodeMessage(fields, slots));
    }
  }

  /** A row that the table accepts and that represents the given message. */
  ghost predicate Stores(
    o: E.Oracle, table: Table, fields: seq<Field>, row: map<string, E.Stored>, slots: seq<Slot>)
  {
    TypedRow(fields, row) && AllHoldIn(o, table.checks, row) && DecodeMessage(o, fields, row) == Ok(Message(slots))
  }

  /** The messages that a table can store are exactly the well-formed ones that
      fit its columns. */
  lemma {:induction false} StoredMessagesAreExact(
    o: E.Oracle, name: string, description: string, fields: seq<Field>, slots: seq<Slot>)
    requires Schema(name, description, fields).Ok?
    ensures (exists row :: Stores(o, Schema(name, description, fields).value, fields, row, slots)) <==>
            WellFormedScope(o, fields, slots) && FitsScope(fields, slots)
  {
    hide Schema, TypedRow, AllHoldIn, DecodeMessage, EncodeMessage, WellFormedSlot, Exclusive, FitsScope;
    var table := Schema(name, description, fields).value;
    if row :| Stores(o, table, fields, row, slots) {
      MessageWellFormed(o, fields, row);
      MessageFits(o, fields, row);
    }
    if WellFormedScope(o, fields, slots) && FitsScope(fields, slots) {
      WellFormedRowIsAccepted(o, name, description, fields, slots);
      assert Stores(o, table, fields, EncodeMessage(fields, slots), slots);
    }
  }

  lemma {:induction false} TableDiagnostics(name: string, description: string, fields: seq<Field>)
    requires Schema(name, description, fields).Ok? && Unreduced(Schema(name, description, fields).value.diagnostics)
    ensures Emit(fields, 0, "", true).Ok? && Unreduced(Emit(fields, 0, "", true).value.diagnostics)
  {
    hide Emit, NamesOk, OneofsOk;
  }

  /** Diagnostics do not understate: a table without a RANGE_REDUCED diagnostic
      stores every well-formed row. */
  lemma {:induction false} UnreducedTableStoresEverything(
    o: E.Oracle, name: string, description: string, fields: seq<Field>, slots: seq<Slot>)
    requires Schema(name, description, fields).Ok? && Unreduced(Schema(name, description, fields).value.diagnostics)
    requires ScopeNumbersFit(fields) && WellFormedScope(o, fields, slots)
    ensures Stores(o, Schema(name, description, fields).value, fields, EncodeMessage(fields, slots), slots)
  {
    hide Schema, Emit, TypedRow, AllHoldIn, DecodeMessage, EncodeMessage, WellFormedScope, FitsScope, Unreduced,
         ScopeNumbersFit;
    TableDiagnostics(name, description, fields);
    ScopeDiagnosed(o, fields, "", true, slots);
    WellFormedRowIsAccepted(o, name, description, fields, slots);
  }

  /** A publisher that follows the Iceberg plan on a stored message gets exactly
      that message back, absent fields absent. */
  lemma {:induction false} PlanReadsStoredMessage(
    o: E.Oracle, name: string, description: string, fields: seq<Field>, row: map<string, E.Stored>, slots: seq<Slot>)
    requires Schema(name, description, fields).Ok?
    requires ScopeCasesInMessages(fields)
    requires Stores(o, Schema(name, description, fields).value, fields, row, slots)
    ensures FollowFields(o, ProjectFields(fields), row) == Ok(slots)
  {
    hide Schema, TypedRow, AllHoldIn, DecodeMessage, RenderableField, ScopeCasesInMessages, FollowFields, NamesOk,
         OneofsOk;
    AcceptedFields(name, description, fields);
    RowFollows(o, fields, row);
  }

  /** The compiler's text replacement does what the model's substitution does,
      for every check that an accepted field emits. */
  lemma {:induction false} EmittedTextIsSubstituted(f: Field, path: string, i: nat, into: E.Expr)
    requires MapField(f, path).Ok? && i < |MapField(f, path).value.checks| && !into.Binary?
    ensures var check := MapField(f, path).value.checks[i].expr;
            T.ReplaceValue(T.Render(check), T.Render(into)) == T.Render(E.Replace(check, into))
  {
    hide MapField, T.ReplaceValue, T.Render, E.Replace;
    MapFieldScoped(f, path);
    T.TextReplacementIsSubstitution(MapField(f, path).value.checks[i].expr, into);
  }
}
