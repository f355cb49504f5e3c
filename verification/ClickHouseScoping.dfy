/** Every check that a field emits speaks of the value placeholder alone, and
    never under a lambda: the reused names element, key and value capture
    nothing, at any depth. */
module ClickHouseScoping {
  import opened LogicalSchema
  import opened ClickHouseLowering
  import E = ClickHouseExpr

  predicate AllScoped(checks: seq<Check>) {
    forall i :: 0 <= i < |checks| ==> E.Scoped(checks[i].expr)
  }

  lemma {:induction false} ConcatScoped(a: seq<Check>, b: seq<Check>)
    requires AllScoped(a) && AllScoped(b)
    ensures AllScoped(a + b)
  {
  }

  lemma {:induction false} CallScoped(f: E.Function, arg: E.Expr)
    requires E.Scoped(arg) && (f.TupleElement? ==> E.Clean(f.name))
    ensures E.Scoped(E.Call(f, arg))
  {
  }

  lemma {:induction false} InListScoped(item: E.Expr, numbers: seq<int>)
    requires E.Scoped(item)
    ensures E.Scoped(E.InList(item, numbers))
  {
  }

  lemma {:induction false} EqualScoped(left: E.Expr, right: E.Expr)
    requires E.Scoped(left) && E.Scoped(right)
    ensures E.Scoped(Equal(left, right))
  {
  }

  lemma {:induction false} IdentifierIsClean(name: string)
    requires ValidIdentifier(name)
    ensures E.Clean(name)
  {
    forall i | 0 <= i < |name|
      ensures name[i] != '\0'
    {
      assert name[i] in name;
    }
  }

  lemma {:induction false} AtScoped(name: string)
    requires E.Clean(name)
    ensures E.Scoped(At(E.Hole, name))
  {
    CallScoped(E.TupleElement(name), E.Hole);
  }

  lemma {:induction false} FixedListScoped(fixedLength: uint32, path: string)
    ensures AllScoped(FixedListChecks(fixedLength, path))
  {
    EqualScoped(E.Call(E.Length, E.Hole), E.Number(fixedLength));
  }

  lemma {:induction false} MapKeysScoped(path: string)
    ensures E.Scoped(MapKeysCheck(path).expr)
  {
    var keys := E.Call(E.MapKeys, E.Hole);
    CallScoped(E.Length, keys);
    CallScoped(E.ArrayDistinct, keys);
    CallScoped(E.Length, E.Call(E.ArrayDistinct, keys));
    EqualScoped(E.Call(E.Length, keys), E.Call(E.Length, E.Call(E.ArrayDistinct, keys)));
  }

  lemma {:induction false} UnitScoped(path: string)
    ensures E.Scoped(UnitCheck(path, false).expr)
  {
    AtScoped(UNIT);
    EqualScoped(At(E.Hole, UNIT), E.Truth(false));
  }

  lemma {:induction false} PresenceCheckScoped(f: Field, path: string)
    requires ValidIdentifier(f.name) && ValidIdentifier(CaseName(f.oneof))
    ensures E.Scoped(PresenceCheck(f, path, false).expr)
  {
    var selected := Equal(At(E.Hole, CaseName(f.oneof)), E.Number(Number(f)));
    IdentifierIsClean(f.name);
    IdentifierIsClean(CaseName(f.oneof));
    AtScoped(f.name);
    AtScoped(CaseName(f.oneof));
    EqualScoped(At(E.Hole, CaseName(f.oneof)), E.Number(Number(f)));
    CallScoped(E.TupleElement(PRESENT), At(E.Hole, f.name));
    EqualScoped(selected, At(At(E.Hole, f.name), PRESENT));
  }

  lemma {:induction false} GuardedScoped(checks: seq<Check>, guard: E.Expr, into: E.Expr)
    requires AllScoped(checks) && E.Scoped(guard) && E.Scoped(into)
    ensures AllScoped(Guarded(checks, guard, into))
  {
    forall i | 0 <= i < |checks|
      ensures E.Scoped(Guarded(checks, guard, into)[i].expr)
    {
      E.ReplaceShape(checks[i].expr, into);
    }
  }

  lemma {:induction false} LocatedScoped(checks: seq<Check>, into: E.Expr)
    requires AllScoped(checks) && E.Scoped(into)
    ensures AllScoped(Located(checks, into))
  {
    forall i | 0 <= i < |checks|
      ensures E.Scoped(Located(checks, into)[i].expr)
    {
      E.ReplaceShape(checks[i].expr, into);
    }
  }

  lemma {:induction false} QuantifiedAllScoped(checks: seq<Check>, variable: string, array_: E.Expr)
    requires AllScoped(checks) && E.Scoped(array_) && E.Clean(variable)
    ensures AllScoped(QuantifiedAll(checks, variable, array_))
  {
    forall i | 0 <= i < |checks|
      ensures E.Scoped(QuantifiedAll(checks, variable, array_)[i].expr)
    {
      E.QuantifiedScoped(variable, checks[i].expr, array_);
    }
  }

  lemma {:induction false} MapTypeScoped(t: DataType, path: string)
    requires MapType(t, path).Ok?
    ensures AllScoped(MapType(t, path).value.checks)
    decreases t, 0
  {
    hide MapType, AllScoped;
    match t
    case Struct(_, _) => StructScoped(t, path);
    case List(_, _) => ListScoped(t, path);
    case Map(_, _) => MapEntriesScoped(t, path);
    case _ => LeafScoped(t, path);
  }

  lemma {:induction false} HoleScoped()
    ensures E.Scoped(E.Hole)
  {
  }

  lemma {:induction false} StructScoped(t: DataType, path: string)
    requires t.Struct? && MapType(t, path).Ok?
    ensures AllScoped(MapType(t, path).value.checks)
    decreases t, -1
  {
    hide Emit, AllScoped, NamesOk, OneofsOk;
    EmitScoped(t.fields, 0, path);
    UnitScoped(path);
    ConcatScoped(Emit(t.fields, 0, path, false).value.checks, [UnitCheck(path, false)]);
  }

  lemma {:induction false} LeafScoped(t: DataType, path: string)
    requires !t.Struct? && !t.List? && !t.Map? && MapType(t, path).Ok?
    ensures AllScoped(MapType(t, path).value.checks)
  {
    hide E.Scoped, ClosedDomain;
    HoleScoped();
    match t
    case Primitive(_, _) => CallScoped(E.IsValidUTF8, E.Hole);
    case Json(_, _) => CallScoped(E.IsValidJSON, E.Hole);
    case Enum(_, _, values, _) => InListScoped(E.Hole, ClosedDomain(values));
    case _ =>
  }

  lemma {:induction false} ListScoped(t: DataType, path: string)
    requires t.List? && MapType(t, path).Ok?
    ensures AllScoped(MapType(t, path).value.checks)
    decreases t.element, 2
  {
    MapFieldScoped(t.element, path + "[]");
    var checks := MapField(t.element, path + "[]").value.checks;
    QuantifiedAllScoped(checks, "element", E.Hole);
    FixedListScoped(t.fixedLength, path);
  }

  lemma {:induction false} MapEntriesScoped(t: DataType, path: string)
    requires t.Map? && MapType(t, path).Ok?
    ensures AllScoped(MapType(t, path).value.checks)
    decreases t, -1
  {
    MapFieldScoped(t.key, path + ".key");
    MapFieldScoped(t.value, path + ".value");
    MapKeysScoped(path);
    var k := MapField(t.key, path + ".key").value.checks;
    var v := MapField(t.value, path + ".value").value.checks;
    QuantifiedAllScoped(k, "key", E.Call(E.MapKeys, E.Hole));
    QuantifiedAllScoped(v, "value", E.Call(E.MapValues, E.Hole));
  }

  lemma {:induction false} MapFieldScoped(f: Field, path: string)
    requires MapField(f, path).Ok?
    ensures AllScoped(MapField(f, path).value.checks)
    decreases f, 1
  {
    MapTypeScoped(f.typ, path);
    var checks := MapType(f.typ, path).value.checks;
    AtScoped(PRESENT);
    AtScoped(VALUE);
    CallScoped(E.Not, At(E.Hole, PRESENT));
    CallScoped(E.IsNull, E.Hole);
    CallScoped(E.AssumeNotNull, E.Hole);
    GuardedScoped(checks, E.Call(E.Not, At(E.Hole, PRESENT)), At(E.Hole, VALUE));
    GuardedScoped(checks, E.Call(E.IsNull, E.Hole), E.Call(E.AssumeNotNull, E.Hole));
  }

  lemma {:induction false} EmitOneScoped(fields: seq<Field>, i: nat, mapped: MappedField, path: string)
    requires i < |fields| && AllScoped(mapped.checks) && ValidIdentifier(fields[i].name)
    requires fields[i].oneof != "" ==> ValidIdentifier(CaseName(fields[i].oneof))
    ensures AllScoped(EmitOne(fields, i, mapped, path, false).checks)
  {
    hide E.Scoped, PresenceCheck, Located, CaseNumbers, ValidIdentifier;
    IdentifierIsClean(fields[i].name);
    AtScoped(fields[i].name);
    LocatedScoped(mapped.checks, At(E.Hole, fields[i].name));
    var oneof := fields[i].oneof;
    if oneof != "" {
      PresenceCheckScoped(fields[i], path);
      IdentifierIsClean(CaseName(oneof));
      AtScoped(CaseName(oneof));
      InListScoped(At(E.Hole, CaseName(oneof)), CaseNumbers(fields, oneof));
    }
  }

  lemma {:induction false} EmitScoped(fields: seq<Field>, i: nat, path: string)
    requires i <= |fields| && Emit(fields, i, path, false).Ok? && NamesOk(fields, false) && OneofsOk(fields)
    ensures AllScoped(Emit(fields, i, path, false).value.checks)
    decreases fields, |fields| - i
  {
    if i < |fields| {
      var fieldPath := JoinPath(path, fields[i].name);
      MapFieldScoped(fields[i], fieldPath);
      EmitOneScoped(fields, i, MapField(fields[i], fieldPath).value, path);
      EmitScoped(fields, i + 1, path);
      ConcatScoped(EmitOne(fields, i, MapField(fields[i], fieldPath).value, path, false).checks,
                   Emit(fields, i + 1, path, false).value.checks);
    }
  }
}
