/** Every text that the ClickHouse renderer emits reads back as the expression
    that the theorems speak of. */
module ClickHouseEmittedText {
  import opened Decimals
  import opened Results
  import opened LogicalSchema
  import opened ClickHouseLowering
  import opened ClickHouseText
  import opened ClickHouseParser
  import opened ClickHousePrinting
  import opened ClickHouseReading
  import opened ClickHouseProjection
  import E = ClickHouseExpr

  predicate AllPrintable(checks: seq<Check>) {
    forall i :: 0 <= i < |checks| ==> Printable(checks[i].expr)
  }

  /** An expression that may stand for the placeholder anywhere. */
  predicate Operand(e: E.Expr) { Printable(e) && Level(e) == 0 }

  lemma {:induction false} ReplacePrintable(e: E.Expr, into: E.Expr)
    requires Printable(e) && Operand(into)
    ensures var r := E.Replace(e, into); Printable(r) && Level(r) == Level(e) && (r.Binary? <==> e.Binary?)
  {
    match e
    case Call(_, arg) => ReplacePrintable(arg, into);
    case Binary(op, left, right) =>
      hide BareName;
      ReplacePrintable(left, into);
      ReplacePrintable(right, into);
    case InList(item, _) => ReplacePrintable(item, into);
    case ArrayAll(_, body, array_) =>
      hide BareName;
      ReplacePrintable(body, into);
      ReplacePrintable(array_, into);
    case _ =>
  }

  lemma {:induction false} CallOperand(f: E.Function, arg: E.Expr)
    requires !f.Not? && Printable(arg)
    ensures Operand(E.Call(f, arg))
  {
  }

  lemma {:induction false} EqualPrintable(left: E.Expr, right: E.Expr)
    requires Printable(left) && (left.Binary? || Level(left) == 0) && Operand(right)
    ensures Printable(Equal(left, right))
  {
  }

  lemma {:induction false} ElementOperand(name: string, topLevel: bool)
    ensures Operand(ScopeElement(name, topLevel)) && Operand(E.Hole)
  {
  }

  lemma {:induction false} VariableNames()
    ensures BareName("element") && BareName("key") && BareName("value")
  {
    assert !IsDigit("element"[0]) && !IsDigit("key"[0]) && !IsDigit("value"[0]);
    assert "element"[0] != "true"[0] && "element"[0] != "false"[0] && "element"[0] != "NOT"[0];
    assert "key"[0] != "true"[0] && "key"[0] != "false"[0] && "key"[0] != "NOT"[0];
    assert "value"[0] != "true"[0] && "value"[0] != "false"[0] && "value"[0] != "NOT"[0];
  }

  // ----- building blocks -----

  lemma {:induction false} ConcatPrintable(a: seq<Check>, b: seq<Check>)
    requires AllPrintable(a) && AllPrintable(b)
    ensures AllPrintable(a + b)
  {
    hide Printable;
  }

  lemma {:induction false} LocatedPrintable(checks: seq<Check>, into: E.Expr)
    requires AllPrintable(checks) && Operand(into)
    ensures AllPrintable(Located(checks, into))
  {
    hide Printable, Operand, Level;
    forall i | 0 <= i < |checks|
      ensures Printable(Located(checks, into)[i].expr)
    {
      ReplacePrintable(checks[i].expr, into);
    }
  }

  lemma {:induction false} OrPrintable(guard: E.Expr, check: E.Expr)
    requires Printable(guard) && Level(guard) <= 2 && Printable(check)
    ensures Printable(Or(guard, check))
  {
  }

  lemma {:induction false} GuardedPrintable(checks: seq<Check>, guard: E.Expr, into: E.Expr)
    requires AllPrintable(checks) && Printable(guard) && Level(guard) <= 2 && Operand(into)
    ensures AllPrintable(Guarded(checks, guard, into))
  {
    hide Printable, Operand, Level;
    forall i | 0 <= i < |checks|
      ensures Printable(Guarded(checks, guard, into)[i].expr)
    {
      ReplacePrintable(checks[i].expr, into);
      OrPrintable(guard, E.Replace(checks[i].expr, into));
    }
  }

  lemma {:induction false} QuantifiedPrintable(checks: seq<Check>, variable: string, array_: E.Expr)
    requires AllPrintable(checks) && BareName(variable) && Printable(array_)
    ensures AllPrintable(QuantifiedAll(checks, variable, array_))
  {
    hide BareName;
    forall i | 0 <= i < |checks|
      ensures Printable(QuantifiedAll(checks, variable, array_)[i].expr)
    {
      ReplacePrintable(checks[i].expr, E.Ident(variable, false));
    }
  }

  lemma {:induction false} OneCheckPrintable(check: Check)
    requires Printable(check.expr)
    ensures AllPrintable([check])
  {
    hide Printable;
  }

  lemma {:induction false} NotPresent()
    ensures var guard := E.Call(E.Not, At(E.Hole, PRESENT)); Printable(guard) && Level(guard) <= 2
    ensures Operand(At(E.Hole, VALUE)) && Operand(At(E.Hole, PRESENT))
    ensures Operand(E.Call(E.IsNull, E.Hole)) && Operand(E.Call(E.AssumeNotNull, E.Hole))
  {
  }

  // ----- types and fields -----

  lemma {:induction false} LeafPrintable(t: DataType, path: string)
    requires !t.Struct? && !t.List? && !t.Map? && MapType(t, path).Ok?
    ensures AllPrintable(MapType(t, path).value.checks)
  {
    hide ClosedDomain;
    assert Printable(E.Hole);
    match t
    case Primitive(_, _) => OneCheckPrintable(Check(path, "utf8", E.Call(E.IsValidUTF8, E.Hole)));
    case Json(_, _) => OneCheckPrintable(Check(path, "json", E.Call(E.IsValidJSON, E.Hole)));
    case Enum(_, _, values, _) => OneCheckPrintable(Check(path, "closed_enum", E.InList(E.Hole, ClosedDomain(values))));
    case _ =>
  }

  lemma {:induction false} MapTypePrintable(t: DataType, path: string)
    requires MapType(t, path).Ok?
    ensures AllPrintable(MapType(t, path).value.checks)
    decreases t, 0
  {
    hide MapType, AllPrintable;
    match t
    case Struct(_, _) => StructPrintable(t, path);
    case List(_, _) => ListPrintable(t, path);
    case Map(_, _) => EntriesPrintable(t, path);
    case _ => LeafPrintable(t, path);
  }

  lemma {:induction false} UnitPrintable(path: string, topLevel: bool)
    ensures AllPrintable([UnitCheck(path, topLevel)])
  {
  }

  lemma {:induction false} StructPrintable(t: DataType, path: string)
    requires t.Struct? && MapType(t, path).Ok?
    ensures AllPrintable(MapType(t, path).value.checks)
    decreases t, -1
  {
    hide Emit, AllPrintable, NamesOk, OneofsOk, UnitCheck;
    EmitPrintable(t.fields, 0, path, false);
    UnitPrintable(path, false);
    ConcatPrintable(Emit(t.fields, 0, path, false).value.checks, [UnitCheck(path, false)]);
  }

  lemma {:induction false} FixedListPrintable(fixedLength: uint32, path: string)
    ensures AllPrintable(FixedListChecks(fixedLength, path))
  {
  }

  lemma {:induction false} ListPrintable(t: DataType, path: string)
    requires t.List? && MapType(t, path).Ok?
    ensures AllPrintable(MapType(t, path).value.checks)
    decreases t, -1
  {
    hide MapField, AllPrintable, BareName, FixedListChecks, QuantifiedAll;
    MapFieldPrintable(t.element, path + "[]");
    var checks := MapField(t.element, path + "[]").value.checks;
    VariableNames();
    ElementOperand("", false);
    QuantifiedPrintable(checks, "element", E.Hole);
    FixedListPrintable(t.fixedLength, path);
    ConcatPrintable(FixedListChecks(t.fixedLength, path), QuantifiedAll(checks, "element", E.Hole));
  }

  lemma {:induction false} MapKeysPrintable(path: string)
    ensures AllPrintable([MapKeysCheck(path)])
    ensures Printable(E.Call(E.MapKeys, E.Hole)) && Printable(E.Call(E.MapValues, E.Hole))
  {
  }

  lemma {:induction false} EntriesPrintable(t: DataType, path: string)
    requires t.Map? && MapType(t, path).Ok?
    ensures AllPrintable(MapType(t, path).value.checks)
    decreases t, -1
  {
    hide MapField, AllPrintable, BareName, QuantifiedAll, MapKeysCheck;
    MapFieldPrintable(t.key, path + ".key");
    MapFieldPrintable(t.value, path + ".value");
    var k := MapField(t.key, path + ".key").value.checks;
    var v := MapField(t.value, path + ".value").value.checks;
    VariableNames();
    MapKeysPrintable(path);
    QuantifiedPrintable(k, "key", E.Call(E.MapKeys, E.Hole));
    QuantifiedPrintable(v, "value", E.Call(E.MapValues, E.Hole));
    var keys := QuantifiedAll(k, "key", E.Call(E.MapKeys, E.Hole));
    ConcatPrintable([MapKeysCheck(path)], keys);
    ConcatPrintable([MapKeysCheck(path)] + keys, QuantifiedAll(v, "value", E.Call(E.MapValues, E.Hole)));
  }

  lemma {:induction false} MapFieldPrintable(f: Field, path: string)
    requires MapField(f, path).Ok?
    ensures AllPrintable(MapField(f, path).value.checks)
    decreases f, 1
  {
    hide MapType, AllPrintable, Printable, Operand, Level, Guarded;
    MapTypePrintable(f.typ, path);
    var checks := MapType(f.typ, path).value.checks;
    NotPresent();
    OperandIsPrintable(E.Call(E.IsNull, E.Hole));
    GuardedPrintable(checks, E.Call(E.Not, At(E.Hole, PRESENT)), At(E.Hole, VALUE));
    GuardedPrintable(checks, E.Call(E.IsNull, E.Hole), E.Call(E.AssumeNotNull, E.Hole));
    var required := Check(path, "required", At(E.Hole, PRESENT));
    OperandIsPrintable(required.expr);
    OneCheckPrintable(required);
    ConcatPrintable([required], Wrapped(checks));
  }

  lemma {:induction false} OperandIsPrintable(e: E.Expr)
    requires Operand(e)
    ensures Printable(e) && Level(e) <= 2
  {
  }

  // ----- scopes -----

  lemma {:induction false} CasePrintable(fields: seq<Field>, i: nat, path: string, topLevel: bool)
    requires i < |fields|
    ensures AllPrintable([CaseCheck(fields, i, path, topLevel)])
    ensures AllPrintable([PresenceCheck(fields[i], path, topLevel)])
  {
    hide CaseNumbers, CaseName;
    var f := fields[i];
    var case_ := ScopeElement(CaseName(f.oneof), topLevel);
    ElementOperand(CaseName(f.oneof), topLevel);
    ElementOperand(f.name, topLevel);
    EqualPrintable(case_, E.Number(Number(f)));
    CallOperand(E.TupleElement(PRESENT), ScopeElement(f.name, topLevel));
    EqualPrintable(Equal(case_, E.Number(Number(f))), At(ScopeElement(f.name, topLevel), PRESENT));
  }

  lemma {:induction false} EmitOnePrintable(
    fields: seq<Field>, i: nat, mapped: MappedField, path: string, topLevel: bool)
    requires i < |fields| && AllPrintable(mapped.checks)
    ensures AllPrintable(EmitOne(fields, i, mapped, path, topLevel).checks)
  {
    hide AllPrintable, Located, CaseCheck, PresenceCheck, Operand;
    var f := fields[i];
    var cases := if FirstOfGroup(fields, i) then [CaseCheck(fields, i, path, topLevel)] else [];
    var presence := if f.oneof != "" then [PresenceCheck(f, path, topLevel)] else [];
    CasePrintable(fields, i, path, topLevel);
    NothingPrintable();
    ElementOperand(f.name, topLevel);
    LocatedPrintable(mapped.checks, ScopeElement(f.name, topLevel));
    ConcatPrintable(cases, presence);
    ConcatPrintable(cases + presence, Located(mapped.checks, ScopeElement(f.name, topLevel)));
  }

  lemma {:induction false} NothingPrintable()
    ensures AllPrintable([])
  {
  }

  lemma {:induction false} EmitPrintable(fields: seq<Field>, i: nat, path: string, topLevel: bool)
    requires i <= |fields| && Emit(fields, i, path, topLevel).Ok?
    ensures AllPrintable(Emit(fields, i, path, topLevel).value.checks)
    decreases fields, |fields| - i
  {
    hide MapField, EmitOne, AllPrintable;
    if i == |fields| {
      NothingPrintable();
    } else {
      var fieldPath := JoinPath(path, fields[i].name);
      var mapped := MapField(fields[i], fieldPath).value;
      MapFieldPrintable(fields[i], fieldPath);
      EmitOnePrintable(fields, i, mapped, path, topLevel);
      EmitPrintable(fields, i + 1, path, topLevel);
      ConcatPrintable(EmitOne(fields, i, mapped, path, topLevel).checks,
          Emit(fields, i + 1, path, topLevel).value.checks);
    }
  }

  /** Every CHECK of every accepted dataset, as text, reads back as its expression. */
  lemma {:induction false} ChecksReadBack(name: string, description: string, fields: seq<Field>, i: nat)
    requires Schema(name, description, fields).Ok? && i < |Schema(name, description, fields).value.checks|
    ensures var check := Schema(name, description, fields).value.checks[i].expr; Parse(Render(check)) == Some(check)
  {
    hide Schema, Parse, Render;
    SchemaPrintable(name, description, fields);
    ParseUndoesRender(Schema(name, description, fields).value.checks[i].expr);
  }

  lemma {:induction false} SchemaPrintable(name: string, description: string, fields: seq<Field>)
    requires Schema(name, description, fields).Ok?
    ensures AllPrintable(Schema(name, description, fields).value.checks)
  {
    hide Emit, AllPrintable, NamesOk, OneofsOk, UnitCheck, DistinctConstraintNames;
    EmitPrintable(fields, 0, "", true);
    UnitPrintable("<dataset>", true);
    ConcatPrintable(Emit(fields, 0, "", true).value.checks, [UnitCheck("<dataset>", true)]);
  }

  // ----- the conversion plan -----

  lemma {:induction false} CaseIsBare()
    ensures BareName(CASE)
  {
    assert CASE[0] == '{' && !IsDigit(CASE[0]);
    assert CASE[0] != "true"[0] && CASE[0] != "false"[0] && CASE[0] != "NOT"[0];
  }

  lemma {:induction false} RawValueOperand(f: Field)
    ensures Operand(RawValueExpr(f))
  {
  }

  lemma {:induction false} ConversionPrintable(t: DataType, value: E.Expr)
    requires Operand(value)
    ensures Printable(ConversionExpression(t, value))
  {
  }

  lemma {:induction false} PresencePrintable(f: Field)
    ensures Printable(PresenceExpr(f))
  {
    hide BareName;
    CaseIsBare();
    assert Operand(At(E.Hole, PRESENT)) && Operand(E.Call(E.IsNotNull, E.Hole));
    assert Printable(E.Ident(CASE, false));
    EqualPrintable(E.Ident(CASE, false), E.Number(Number(f)));
    assert Level(Equal(E.Ident(CASE, false), E.Number(Number(f)))) == 1;
  }

  /** So does every expression of the plan. */
  lemma {:induction false} PlanReadsBack(f: Field)
    ensures var plan := ProjectField(f);
            Parse(Render(plan.presence)) == Some(plan.presence) && Parse(Render(plan.value)) == Some(plan.value)
  {
    hide Parse, Render, Printable, Operand, PresenceExpr, RawValueExpr, ConversionExpression, ProjectChildren;
    PresencePrintable(f);
    RawValueOperand(f);
    ConversionPrintable(f.typ, RawValueExpr(f));
    ParseUndoesRender(PresenceExpr(f));
    ParseUndoesRender(ConversionExpression(f.typ, RawValueExpr(f)));
  }
}
