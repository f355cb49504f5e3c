/** The emitted checks mean what the logical schema means. */
module ClickHouseMeaning {
  import opened Results
  import opened LogicalSchema
  import opened Sorting
  import opened ClickHouseLowering
  import opened ClickHouseScoping
  import opened ClickHouseValues
  import opened ClickHouseAcceptance
  import opened ClickHouseKeys
  import opened ClickHouseOneofs
  import E = ClickHouseExpr

  /** Every check holds of a stored value. */
  predicate AllHold(o: E.Oracle, checks: seq<Check>, p: E.Stored) {
    forall i :: 0 <= i < |checks| ==> E.Holds(o, checks[i].expr, p, map[])
  }

  // ----- how the checks of a part become checks of the whole -----

  lemma {:induction false} AllHoldConcat(o: E.Oracle, a: seq<Check>, b: seq<Check>, p: E.Stored)
    ensures AllHold(o, a + b, p) <==> AllHold(o, a, p) && AllHold(o, b, p)
  {
    if AllHold(o, a + b, p) {
      assert forall i :: 0 <= i < |a| ==> a[i] == (a + b)[i];
      assert forall i :: 0 <= i < |b| ==> b[i] == (a + b)[|a| + i];
    }
  }

  lemma {:induction false} LocatedMeans(o: E.Oracle, checks: seq<Check>, into: E.Expr, p: E.Stored)
    requires AllScoped(checks)
    ensures AllHold(o, Located(checks, into), p) <==> AllHold(o, checks, E.Eval(o, into, p, map[]))
  {
    var located := Located(checks, into);
    forall i | 0 <= i < |checks|
      ensures E.Eval(o, located[i].expr, p, map[]) == E.Eval(o, checks[i].expr, E.Eval(o, into, p, map[]), map[])
    {
      E.ReplaceEvaluates(o, checks[i].expr, into, p, map[]);
    }
  }

  lemma {:induction false} GuardedAt(o: E.Oracle, check: E.Expr, guard: E.Expr, into: E.Expr, p: E.Stored)
    requires E.Scoped(check)
    ensures E.Holds(o, Or(guard, E.Replace(check, into)), p, map[])
       <==> E.Holds(o, guard, p, map[]) || E.Holds(o, check, E.Eval(o, into, p, map[]), map[])
  {
    E.ReplaceEvaluates(o, check, into, p, map[]);
  }

  lemma {:induction false} GuardedMeans(o: E.Oracle, checks: seq<Check>, guard: E.Expr, into: E.Expr, p: E.Stored)
    requires AllScoped(checks)
    ensures AllHold(o, Guarded(checks, guard, into), p)
       <==> E.Holds(o, guard, p, map[]) || AllHold(o, checks, E.Eval(o, into, p, map[]))
  {
    forall i | 0 <= i < |checks|
      ensures E.Holds(o, Guarded(checks, guard, into)[i].expr, p, map[])
         <==> E.Holds(o, guard, p, map[]) || E.Holds(o, checks[i].expr, E.Eval(o, into, p, map[]), map[])
    {
      GuardedAt(o, checks[i].expr, guard, into, p);
    }
  }

  lemma {:induction false} QuantifiedAllMeans(
    o: E.Oracle, checks: seq<Check>, variable: string, array_: E.Expr, items: seq<E.Stored>, p: E.Stored)
    requires AllScoped(checks)
    requires E.Eval(o, array_, p, map[]) == E.Arr(items)
    ensures AllHold(o, QuantifiedAll(checks, variable, array_), p)
       <==> forall k :: 0 <= k < |items| ==> AllHold(o, checks, items[k])
  {
    var quantified := QuantifiedAll(checks, variable, array_);
    forall i | 0 <= i < |checks|
      ensures E.Holds(o, quantified[i].expr, p, map[]) <==> E.HoldsOfAll(o, checks[i].expr, items)
    {
      E.QuantifiedMeans(o, variable, checks[i].expr, array_, p, map[]);
    }
    if AllHold(o, quantified, p) {
      forall k | 0 <= k < |items|
        ensures AllHold(o, checks, items[k])
      {
        forall i | 0 <= i < |checks|
          ensures E.Holds(o, checks[i].expr, items[k], map[])
        {
          assert E.Holds(o, quantified[i].expr, p, map[]);
        }
      }
    }
  }

  // ----- leaf types -----

  lemma {:induction false} EnumNumbersDeclared(values: seq<EnumValue>, n: int)
    ensures n in EnumNumbers(values) <==> Declared(values, n)
  {
    if values != [] {
      var front := values[..|values| - 1];
      EnumNumbersDeclared(front, n);
      assert forall i :: 0 <= i < |front| ==> front[i] == values[i];
      assert Declared(values, n) <==> Declared(front, n) || values[|values| - 1].number == n;
    }
  }

  lemma {:induction false} ClosedDomainDeclared(values: seq<EnumValue>, n: int)
    ensures n in ClosedDomain(values) <==> Declared(values, n)
  {
    SortByMembers(EnumNumbers(values), (m: int) => m);
    EnumNumbersDeclared(values, n);
  }

  lemma {:induction false} OneCheck(o: E.Oracle, check: Check, p: E.Stored)
    ensures AllHold(o, [check], p) <==> E.Holds(o, check.expr, p, map[])
  {
    assert [check][0] == check;
  }

  lemma {:induction false} EnumMeans(o: E.Oracle, t: DataType, path: string, p: E.Stored)
    requires t.Enum? && MapType(t, path).Ok? && E.HasType(p, E.Int32)
    ensures AllHold(o, MapType(t, path).value.checks, p) <==> WellFormed(o, t, Int(p.n))
  {
    hide AllHold, ClosedDomain, Declared;
    ClosedDomainDeclared(t.values, p.n);
    var check := Check(path, "closed_enum", E.InList(E.Hole, ClosedDomain(t.values)));
    OneCheck(o, check, p);
    DomainHolds(o, t.values, p);
    NoChecksHold(o, p);
    assert MapType(t, path).value.checks == if t.closed then [check] else [];
  }

  lemma {:induction false} NoChecksHold(o: E.Oracle, p: E.Stored)
    ensures AllHold(o, [], p)
  {
  }

  lemma {:induction false} DomainHolds(o: E.Oracle, values: seq<EnumValue>, p: E.Stored)
    requires p.I?
    ensures E.Holds(o, E.InList(E.Hole, ClosedDomain(values)), p, map[]) <==> p.n in ClosedDomain(values)
  {
    hide ClosedDomain;
    assert E.Eval(o, E.InList(E.Hole, ClosedDomain(values)), p, map[]) == E.B(p.n in ClosedDomain(values));
  }

  lemma {:induction false} PrimitiveMeans(o: E.Oracle, t: DataType, path: string, p: E.Stored)
    requires t.Primitive? && MapType(t, path).Ok? && E.HasType(p, TypeOf(t))
    ensures ScalarOf(p).Ok?
    ensures AllHold(o, MapType(t, path).value.checks, p) <==> WellFormed(o, t, ScalarOf(p).value)
  {
    OneCheck(o, Check(path, "utf8", E.Call(E.IsValidUTF8, E.Hole)), p);
  }

  predicate Scalar(t: DataType) { !Composite(t) && !t.Unset? && !t.Kindless? }

  lemma {:induction false} ScalarMeans(o: E.Oracle, t: DataType, path: string, p: E.Stored)
    requires Scalar(t) && MapType(t, path).Ok? && E.HasType(p, TypeOf(t))
    ensures AllHold(o, MapType(t, path).value.checks, p) <==> Decode(o, t, p).Ok?
  {
    hide AllHold, MapType, TypeOf, WellFormed, ScalarOf, E.HasType;
    if t.Primitive? {
      PrimitiveMeans(o, t, path, p);
    } else if t.Enum? {
      EnumDecodes(o, t, path, p);
    } else if t.Json? {
      JsonMeans(o, t, path, p);
    } else {
      UncheckedMeans(o, t, path, p);
    }
  }

  lemma {:induction false} EnumDecodes(o: E.Oracle, t: DataType, path: string, p: E.Stored)
    requires t.Enum? && MapType(t, path).Ok? && E.HasType(p, TypeOf(t))
    ensures AllHold(o, MapType(t, path).value.checks, p) <==> Decode(o, t, p).Ok?
  {
    hide AllHold, MapType, WellFormed;
    EnumMeans(o, t, path, p);
  }

  lemma {:induction false} JsonMeans(o: E.Oracle, t: DataType, path: string, p: E.Stored)
    requires t.Json? && MapType(t, path).Ok? && E.HasType(p, TypeOf(t))
    ensures AllHold(o, MapType(t, path).value.checks, p) <==> Decode(o, t, p).Ok?
  {
    OneCheck(o, Check(path, "json", E.Call(E.IsValidJSON, E.Hole)), p);
  }

  lemma {:induction false} UncheckedMeans(o: E.Oracle, t: DataType, path: string, p: E.Stored)
    requires Scalar(t) && !t.Primitive? && !t.Enum? && !t.Json? && MapType(t, path).Ok? && E.HasType(p, TypeOf(t))
    ensures AllHold(o, MapType(t, path).value.checks, p) <==> Decode(o, t, p).Ok?
  {
    assert MapType(t, path).value.checks == [];
  }

  // ----- fields -----

  /** Checks mean decodability: always in one direction, and in the other when
      every map key is tight. */
  predicate Means(tight: bool, holds: bool, decodes: bool) {
    (decodes ==> holds) && (tight && holds ==> decodes)
  }

  lemma {:induction false} WrappedMeans(o: E.Oracle, checks: seq<Check>, p: E.Stored, inner: E.SqlType)
    requires AllScoped(checks) && E.HasType(p, WrapperType(inner))
    ensures p.Tup? && PRESENT in p.elements && VALUE in p.elements
    ensures AllHold(o, Wrapped(checks), p)
       <==> p.elements[PRESENT] == E.B(false) || AllHold(o, checks, p.elements[VALUE])
  {
    WrapperTyped(p, inner);
    var present := At(E.Hole, PRESENT);
    GuardedMeans(o, checks, E.Call(E.Not, present), At(E.Hole, VALUE), p);
    assert E.Eval(o, present, p, map[]) == p.elements[PRESENT];
    assert E.Eval(o, At(E.Hole, VALUE), p, map[]) == p.elements[VALUE];
  }

  lemma {:induction false} NullGuardedMeans(o: E.Oracle, checks: seq<Check>, p: E.Stored)
    requires AllScoped(checks)
    ensures AllHold(o, NullGuarded(checks), p) <==> p.Null? || AllHold(o, checks, p)
  {
    GuardedMeans(o, checks, E.Call(E.IsNull, E.Hole), E.Call(E.AssumeNotNull, E.Hole), p);
    assert E.Eval(o, E.Call(E.IsNull, E.Hole), p, map[]) == E.B(p.Null?);
    assert E.Eval(o, E.Call(E.AssumeNotNull, E.Hole), p, map[]) == p;
  }

  lemma {:induction false} WrappedFieldMeans(o: E.Oracle, f: Field, path: string, p: E.Stored)
    requires MapType(f.typ, path).Ok? && Renderable(f.typ) && E.HasType(p, WrapperType(TypeOf(f.typ)))
    ensures Means(KeysTight(f.typ), AllHold(o, Wrapped(MapType(f.typ, path).value.checks), p),
            DecodeWrapped(o, f.typ, p).Ok?)
    decreases f.typ, 1
  {
    hide MapType, TypeOf, Decode, Renderable, KeysTight;
    var checks := MapType(f.typ, path).value.checks;
    MapTypeScoped(f.typ, path);
    WrapperTyped(p, TypeOf(f.typ));
    WrappedMeans(o, checks, p, TypeOf(f.typ));
    TypeMeans(o, f.typ, path, p.elements[VALUE]);
  }

  lemma {:induction false} RequiredCheck(o: E.Oracle, path: string, checks: seq<Check>, p: E.Stored, inner: E.SqlType)
    requires AllScoped(checks) && E.HasType(p, WrapperType(inner))
    ensures p.Tup? && PRESENT in p.elements && VALUE in p.elements
    ensures AllHold(o, [Check(path, "required", At(E.Hole, PRESENT))] + Wrapped(checks), p)
       <==> p.elements[PRESENT] == E.B(true) && AllHold(o, checks, p.elements[VALUE])
  {
    WrapperTyped(p, inner);
    var required := Check(path, "required", At(E.Hole, PRESENT));
    AllHoldConcat(o, [required], Wrapped(checks), p);
    OneCheck(o, required, p);
    WrappedMeans(o, checks, p, inner);
    assert E.Eval(o, required.expr, p, map[]) == p.elements[PRESENT];
  }

  lemma {:induction false} RequiredFieldMeans(o: E.Oracle, f: Field, path: string, p: E.Stored)
    requires f.presence == Required && MapField(f, path).Ok? && RenderableField(f) && E.HasType(p, FieldType(f))
    ensures Means(KeysTight(f.typ), AllHold(o, MapField(f, path).value.checks, p), DecodeField(o, f, p).Ok?)
    decreases f, 0
  {
    hide MapType, TypeOf, Decode, Renderable, KeysTight;
    MapTypeScoped(f.typ, path);
    WrapperTyped(p, TypeOf(f.typ));
    var checks := MapType(f.typ, path).value.checks;
    RequiredCheck(o, path, checks, p, TypeOf(f.typ));
    assert MapField(f, path).value.checks == [Check(path, "required", At(E.Hole, PRESENT))] + Wrapped(checks);
    TypeMeans(o, f.typ, path, p.elements[VALUE]);
    assert p.elements[PRESENT] == E.B(true) ==>
           DecodeWrapped(o, f.typ, p) == DecodePresent(o, f.typ, p.elements[VALUE]);
  }

  lemma {:induction false} ExplicitFieldMeans(o: E.Oracle, f: Field, path: string, p: E.Stored)
    requires f.presence == Explicit && MapField(f, path).Ok? && RenderableField(f) && E.HasType(p, FieldType(f))
    ensures Means(KeysTight(f.typ), AllHold(o, MapField(f, path).value.checks, p), DecodeField(o, f, p).Ok?)
    decreases f, 0
  {
    hide MapType, TypeOf, Decode, Renderable, KeysTight;
    MapTypeShape(f.typ, path);
    if Composite(f.typ) {
      WrappedFieldMeans(o, f, path, p);
    } else {
      MapTypeScoped(f.typ, path);
      NullGuardedMeans(o, MapType(f.typ, path).value.checks, p);
      if !p.Null? {
        TypeMeans(o, f.typ, path, p);
      }
    }
  }

  lemma {:induction false} FieldMeans(o: E.Oracle, f: Field, path: string, p: E.Stored)
    requires MapField(f, path).Ok? && RenderableField(f) && E.HasType(p, FieldType(f))
    ensures Means(KeysTightField(f), AllHold(o, MapField(f, path).value.checks, p), DecodeField(o, f, p).Ok?)
    decreases f, 1
  {
    hide MapType, TypeOf, Decode, Renderable, KeysTight;
    if f.presence == Required {
      RequiredFieldMeans(o, f, path, p);
    } else if f.presence == Explicit {
      ExplicitFieldMeans(o, f, path, p);
    } else if f.presence == OneofMember {
      WrappedFieldMeans(o, f, path, p);
    } else {
      TypeMeans(o, f.typ, path, p);
    }
  }

  // ----- lists and maps -----

  lemma {:induction false} EachMeans(o: E.Oracle, f: Field, path: string, items: seq<E.Stored>)
    requires MapField(f, path).Ok? && RenderableField(f)
    requires forall i :: 0 <= i < |items| ==> E.HasType(items[i], FieldType(f))
    ensures Means(KeysTightField(f),
                  forall k :: 0 <= k < |items| ==> AllHold(o, MapField(f, path).value.checks, items[k]),
                  DecodeEach(o, f, items).Ok?)
    decreases f, 2
  {
    hide MapType, TypeOf, Decode, Renderable, KeysTight;
    DecodeEachAt(o, f, items);
    forall k | 0 <= k < |items|
      ensures Means(KeysTightField(f), AllHold(o, MapField(f, path).value.checks, items[k]),
              DecodeField(o, f, items[k]).Ok?)
    {
      FieldMeans(o, f, path, items[k]);
    }
  }

  lemma {:induction false} FixedListMeans(o: E.Oracle, fixedLength: uint32, path: string, items: seq<E.Stored>)
    ensures AllHold(o, FixedListChecks(fixedLength, path), E.Arr(items))
       <==> (fixedLength != 0 ==> |items| == fixedLength)
  {
    if fixedLength != 0 {
      var length := E.Call(E.Length, E.Hole);
      var check := Check(path, "fixed_list", Equal(length, E.Number(fixedLength)));
      OneCheck(o, check, E.Arr(items));
      assert E.Eval(o, length, E.Arr(items), map[]) == E.I(|items|);
      assert E.Eval(o, check.expr, E.Arr(items), map[]) == E.B(E.I(|items|) == E.I(fixedLength));
    }
  }

  lemma {:induction false} ListMeans(o: E.Oracle, t: DataType, path: string, p: E.Stored)
    requires t.List? && MapType(t, path).Ok? && Renderable(t) && E.HasType(p, TypeOf(t))
    ensures Means(KeysTight(t), AllHold(o, MapType(t, path).value.checks, p), Decode(o, t, p).Ok?)
    decreases t, -1
  {
    var elementPath := path + "[]";
    MapFieldAccepts(t.element, elementPath);
    MapFieldScoped(t.element, elementPath);
    var checks := MapField(t.element, elementPath).value.checks;
    AllHoldConcat(o, FixedListChecks(t.fixedLength, path), QuantifiedAll(checks, "element", E.Hole), p);
    FixedListMeans(o, t.fixedLength, path, p.items);
    assert E.Eval(o, E.Hole, p, map[]) == E.Arr(p.items);
    QuantifiedAllMeans(o, checks, "element", E.Hole, p.items, p);
    EachMeans(o, t.element, elementPath, p.items);
  }

  predicate NoRepeats(items: seq<E.Stored>) {
    forall i, j :: 0 <= i < j < |items| ==> items[i] != items[j]
  }

  lemma {:induction false} MapKeysCheckMeans(o: E.Oracle, path: string, entries: seq<E.Entry>)
    ensures E.Holds(o, MapKeysCheck(path).expr, E.MapOf(entries), map[]) <==> NoRepeats(E.Keys(entries))
  {
    var p := E.MapOf(entries);
    var keys := E.Call(E.MapKeys, E.Hole);
    var distinct := E.Call(E.ArrayDistinct, keys);
    assert E.Eval(o, keys, p, map[]) == E.Arr(E.Keys(entries));
    assert E.Eval(o, distinct, p, map[]) == E.Arr(E.Distinct(E.Keys(entries)));
    assert E.Eval(o, E.Call(E.Length, keys), p, map[]) == E.I(|entries|);
    assert E.Eval(o, E.Call(E.Length, distinct), p, map[]) == E.I(|E.Distinct(E.Keys(entries))|);
    E.DistinctKeepsLength(E.Keys(entries));
  }

  /** Stored keys that differ, and the logical keys they represent. */
  lemma {:induction false} KeysCompared(o: E.Oracle, f: Field, keys: seq<E.Stored>, entries: seq<Pair>)
    requires RenderableField(f)
    requires forall i :: 0 <= i < |keys| ==> E.HasType(keys[i], FieldType(f))
    requires |entries| == |keys|
    requires forall i :: 0 <= i < |keys| ==> DecodeField(o, f, keys[i]) == Ok(entries[i].key)
    ensures DistinctKeys(entries) ==> NoRepeats(keys)
    ensures TightField(f) && NoRepeats(keys) ==> DistinctKeys(entries)
  {
    if TightField(f) && NoRepeats(keys) {
      forall i, j | 0 <= i < j < |entries|
        ensures entries[i].key != entries[j].key
      {
        if entries[i].key == entries[j].key {
          FieldInjective(o, f, keys[i], keys[j]);
        }
      }
    }
  }

  lemma {:induction false} MapDecodes(o: E.Oracle, t: DataType, p: E.Stored)
    requires t.Map? && Renderable(t) && E.HasType(p, TypeOf(t))
    ensures Decode(o, t, p).Ok? ==>
            && DecodeEach(o, t.key, E.Keys(p.entries)).Ok?
            && DecodeEach(o, t.value, E.Values(p.entries)).Ok?
            && NoRepeats(E.Keys(p.entries))
    ensures && TightField(t.key)
            && DecodeEach(o, t.key, E.Keys(p.entries)).Ok?
            && DecodeEach(o, t.value, E.Values(p.entries)).Ok?
            && NoRepeats(E.Keys(p.entries))
            ==> Decode(o, t, p).Ok?
  {
    var keys, values := E.Keys(p.entries), E.Values(p.entries);
    if DecodeEach(o, t.key, keys).Ok? && DecodeEach(o, t.value, values).Ok? {
      var entries := Zip(DecodeEach(o, t.key, keys).value, DecodeEach(o, t.value, values).value);
      DecodeEachAt(o, t.key, keys);
      KeysCompared(o, t.key, keys, entries);
    }
  }

  lemma {:induction false} MapChecksSplit(
    o: E.Oracle, key: seq<Check>, value: seq<Check>, path: string, entries: seq<E.Entry>)
    requires AllScoped(key) && AllScoped(value)
    ensures AllHold(o,
              [MapKeysCheck(path)]
              + QuantifiedAll(key, "key", E.Call(E.MapKeys, E.Hole))
              + QuantifiedAll(value, "value", E.Call(E.MapValues, E.Hole)),
              E.MapOf(entries))
       <==> && NoRepeats(E.Keys(entries))
            && (forall k :: 0 <= k < |E.Keys(entries)| ==> AllHold(o, key, E.Keys(entries)[k]))
            && (forall k :: 0 <= k < |E.Values(entries)| ==> AllHold(o, value, E.Values(entries)[k]))
  {
    var p := E.MapOf(entries);
    var keys, values := E.Call(E.MapKeys, E.Hole), E.Call(E.MapValues, E.Hole);
    assert E.Eval(o, keys, p, map[]) == E.Arr(E.Keys(entries));
    assert E.Eval(o, values, p, map[]) == E.Arr(E.Values(entries));
    AllHoldConcat(o, [MapKeysCheck(path)] + QuantifiedAll(key, "key", keys), QuantifiedAll(value, "value", values), p);
    AllHoldConcat(o, [MapKeysCheck(path)], QuantifiedAll(key, "key", keys), p);
    OneCheck(o, MapKeysCheck(path), p);
    MapKeysCheckMeans(o, path, entries);
    QuantifiedAllMeans(o, key, "key", keys, E.Keys(entries), p);
    QuantifiedAllMeans(o, value, "value", values, E.Values(entries), p);
  }

  lemma {:induction false} MapMeans(o: E.Oracle, t: DataType, path: string, p: E.Stored)
    requires t.Map? && MapType(t, path).Ok? && Renderable(t) && E.HasType(p, TypeOf(t))
    ensures Means(KeysTight(t), AllHold(o, MapType(t, path).value.checks, p), Decode(o, t, p).Ok?)
    decreases t, -1
  {
    hide Decode, DecodeEach, AllHold, MapField, FieldType, RenderableField, TightField, KeysTightField, NoRepeats;
    MapFieldScoped(t.key, path + ".key");
    MapFieldScoped(t.value, path + ".value");
    var k := MapField(t.key, path + ".key").value.checks;
    var v := MapField(t.value, path + ".value").value.checks;
    assert p == E.MapOf(p.entries);
    EntriesTypedEach(t, p);
    MapChecksSplit(o, k, v, path, p.entries);
    EachMeans(o, t.key, path + ".key", E.Keys(p.entries));
    EachMeans(o, t.value, path + ".value", E.Values(p.entries));
    MapDecodes(o, t, p);
  }

  lemma {:induction false} EntriesTypedEach(t: DataType, p: E.Stored)
    requires t.Map? && E.HasType(p, TypeOf(t))
    ensures p.MapOf?
    ensures forall i :: 0 <= i < |E.Keys(p.entries)| ==> E.HasType(E.Keys(p.entries)[i], FieldType(t.key))
    ensures forall i :: 0 <= i < |E.Values(p.entries)| ==> E.HasType(E.Values(p.entries)[i], FieldType(t.value))
  {
    hide FieldType;
  }

  // ----- messages -----

  lemma {:induction false} CaseCheckMeans(
    o: E.Oracle, fields: seq<Field>, i: nat, path: string, row: map<string, E.Stored>)
    requires i < |fields| && fields[i].oneof != ""
    ensures E.Holds(o, CaseCheck(fields, i, path, false).expr, E.Tup(row), map[]) <==> CaseHolds(fields, row, i)
  {
    var element := At(E.Hole, CaseName(fields[i].oneof));
    assert E.Eval(o, element, E.Tup(row), map[]) == Case(fields, row, i);
  }

  lemma {:induction false} PresenceCheckEvaluates(o: E.Oracle, f: Field, path: string, row: map<string, E.Stored>)
    requires E.Lookup(row, CaseName(f.oneof)).I?
    requires f.name in row && row[f.name].Tup? && PRESENT in row[f.name].elements && row[f.name].elements[PRESENT].B?
    ensures E.Holds(o, PresenceCheck(f, path, false).expr, E.Tup(row), map[]) <==>
            ((E.Lookup(row, CaseName(f.oneof)).n == Number(f)) == row[f.name].elements[PRESENT].b)
  {
    var p := E.Tup(row);
    var discriminator := At(E.Hole, CaseName(f.oneof));
    var selected := Equal(discriminator, E.Number(Number(f)));
    assert E.Eval(o, discriminator, p, map[]) == E.Lookup(row, CaseName(f.oneof));
    assert E.Eval(o, selected, p, map[]) == E.B(E.Lookup(row, CaseName(f.oneof)).n == Number(f));
    assert E.Eval(o, At(E.Hole, f.name), p, map[]) == row[f.name];
    assert E.Eval(o, At(At(E.Hole, f.name), PRESENT), p, map[]) == row[f.name].elements[PRESENT];
  }

  lemma {:induction false} PresenceBit(o: E.Oracle, f: Field, p: E.Stored)
    requires f.presence == OneofMember && E.HasType(p, WrapperType(TypeOf(f.typ))) && DecodeField(o, f, p).Ok?
    ensures p.Tup? && PRESENT in p.elements && p.elements[PRESENT].B?
    ensures DecodeField(o, f, p).value.Present? <==> p.elements[PRESENT].b
  {
    hide TypeOf, Decode, WrapperType, E.HasType;
    WrapperTyped(p, TypeOf(f.typ));
    assert DecodeField(o, f, p) == DecodeWrapped(o, f.typ, p);
    if p.elements[PRESENT] == E.B(true) {
      assert DecodeWrapped(o, f.typ, p) == DecodePresent(o, f.typ, E.Lookup(p.elements, VALUE));
    } else {
      assert p.elements[PRESENT] == E.B(false);
      assert DecodeWrapped(o, f.typ, p) == Ok(Absent);
    }
  }

  lemma {:induction false} PresenceCheckMeans(
    o: E.Oracle, fields: seq<Field>, i: nat, slots: seq<Slot>, path: string, row: map<string, E.Stored>)
    requires i < |fields| == |slots| && fields[i].oneof != "" && fields[i].presence == OneofMember
    requires TypedRow(fields, row) && DecodeField(o, fields[i], E.Lookup(row, fields[i].name)) == Ok(slots[i])
    ensures E.Holds(o, PresenceCheck(fields[i], path, false).expr, E.Tup(row), map[]) <==>
            BitAgrees(fields, slots, row, i)
  {
    hide DecodeField, TypeOf;
    CaseTyped(fields, row, i);
    FieldTyped(fields, row, i);
    PresenceBit(o, fields[i], row[fields[i].name]);
    PresenceCheckEvaluates(o, fields[i], path, row);
  }

  /** The checks that one field adds to its scope. */
  predicate EmissionHolds(o: E.Oracle, fields: seq<Field>, i: nat, path: string, p: E.Stored)
    requires i < |fields| && MapField(fields[i], JoinPath(path, fields[i].name)).Ok?
  {
    AllHold(o, EmitOne(fields, i, MapField(fields[i], JoinPath(path, fields[i].name)).value, path, false).checks, p)
  }

  lemma {:induction false} OwnChecksMean(o: E.Oracle, checks: seq<Check>, name: string, row: map<string, E.Stored>)
    requires AllScoped(checks)
    ensures AllHold(o, Located(checks, At(E.Hole, name)), E.Tup(row)) <==> AllHold(o, checks, E.Lookup(row, name))
  {
    LocatedMeans(o, checks, At(E.Hole, name), E.Tup(row));
    assert E.Eval(o, At(E.Hole, name), E.Tup(row), map[]) == E.Lookup(row, name);
  }

  lemma {:induction false} OptionalCheck(o: E.Oracle, emitted: bool, check: Check, p: E.Stored)
    ensures AllHold(o, if emitted then [check] else [], p) <==> (emitted ==> E.Holds(o, check.expr, p, map[]))
  {
    OneCheck(o, check, p);
  }

  lemma {:induction false} EmitOneMeans(
    o: E.Oracle, fields: seq<Field>, i: nat, mapped: MappedField, path: string, row: map<string, E.Stored>)
    requires i < |fields| && AllScoped(mapped.checks)
    ensures AllHold(o, EmitOne(fields, i, mapped, path, false).checks, E.Tup(row)) <==>
            && (FirstOfGroup(fields, i) ==> CaseHolds(fields, row, i))
            && (fields[i].oneof != "" ==> E.Holds(o, PresenceCheck(fields[i], path, false).expr, E.Tup(row), map[]))
            && AllHold(o, mapped.checks, E.Lookup(row, fields[i].name))
  {
    hide CaseHolds, AllHold, Located, CaseCheck, PresenceCheck, AllScoped;
    var f := fields[i];
    var p := E.Tup(row);
    var cases := if FirstOfGroup(fields, i) then [CaseCheck(fields, i, path, false)] else [];
    var presence := if f.oneof != "" then [PresenceCheck(f, path, false)] else [];
    AllHoldConcat(o, cases + presence, Located(mapped.checks, At(E.Hole, f.name)), p);
    AllHoldConcat(o, cases, presence, p);
    OwnChecksMean(o, mapped.checks, f.name, row);
    OptionalCheck(o, FirstOfGroup(fields, i), CaseCheck(fields, i, path, false), p);
    OptionalCheck(o, f.oneof != "", PresenceCheck(f, path, false), p);
    if FirstOfGroup(fields, i) {
      CaseCheckMeans(o, fields, i, path, row);
    }
  }

  lemma {:induction false} EmitMeans(o: E.Oracle, fields: seq<Field>, k: nat, path: string, p: E.Stored)
    requires k <= |fields| && Emit(fields, k, path, false).Ok?
    requires forall i :: 0 <= i < |fields| ==> MapField(fields[i], JoinPath(path, fields[i].name)).Ok?
    ensures AllHold(o, Emit(fields, k, path, false).value.checks, p) <==>
            forall i :: k <= i < |fields| ==> EmissionHolds(o, fields, i, path, p)
    decreases |fields| - k
  {
    hide MapField, EmitOne, AllHold;
    if k == |fields| {
      assert AllHold(o, [], p) by { NoChecks(o, p); }
    } else {
      EmitMeans(o, fields, k + 1, path, p);
      var one := EmitOne(fields, k, MapField(fields[k], JoinPath(path, fields[k].name)).value, path, false);
      AllHoldConcat(o, one.checks, Emit(fields, k + 1, path, false).value.checks, p);
      assert EmissionHolds(o, fields, k, path, p) <==> AllHold(o, one.checks, p);
      assert Emit(fields, k, path, false).value == Append(one, Emit(fields, k + 1, path, false).value);
    }
  }

  lemma {:induction false} NoChecks(o: E.Oracle, p: E.Stored)
    ensures AllHold(o, [], p)
  {
  }

  /** A field's own checks against its decoding, inside a typed row. */
  predicate FieldAgrees(o: E.Oracle, fields: seq<Field>, i: nat, path: string, row: map<string, E.Stored>)
    requires i < |fields| && MapField(fields[i], JoinPath(path, fields[i].name)).Ok?
  {
    Means(KeysTightField(fields[i]),
          AllHold(o, MapField(fields[i], JoinPath(path, fields[i].name)).value.checks, E.Lookup(row, fields[i].name)),
          DecodeField(o, fields[i], E.Lookup(row, fields[i].name)).Ok?)
  }

  /** What a field's emission says of a row. */
  lemma {:induction false} EmissionMeans(
    o: E.Oracle, fields: seq<Field>, i: nat, path: string, row: map<string, E.Stored>)
    requires i < |fields| && MapField(fields[i], JoinPath(path, fields[i].name)).Ok?
    ensures EmissionHolds(o, fields, i, path, E.Tup(row)) <==>
            && (FirstOfGroup(fields, i) ==> CaseHolds(fields, row, i))
            && (fields[i].oneof != "" ==> E.Holds(o, PresenceCheck(fields[i], path, false).expr, E.Tup(row), map[]))
            && AllHold(o, MapField(fields[i], JoinPath(path, fields[i].name)).value.checks,
                E.Lookup(row, fields[i].name))
  {
    hide MapField, EmitOne, AllHold, CaseHolds, PresenceCheck;
    var fieldPath := JoinPath(path, fields[i].name);
    MapFieldScoped(fields[i], fieldPath);
    EmitOneMeans(o, fields, i, MapField(fields[i], fieldPath).value, path, row);
  }

  lemma {:induction false} DecodedEmission(
    o: E.Oracle, fields: seq<Field>, i: nat, slots: seq<Slot>, path: string, row: map<string, E.Stored>)
    requires i < |fields| == |slots| && OneofsOk(fields) && TypedRow(fields, row)
    requires MapField(fields[i], JoinPath(path, fields[i].name)).Ok? && FieldAgrees(o, fields, i, path, row)
    requires DecodeField(o, fields[i], E.Lookup(row, fields[i].name)) == Ok(slots[i])
    requires CaseHolds(fields, row, i) && BitAgrees(fields, slots, row, i)
    ensures EmissionHolds(o, fields, i, path, E.Tup(row))
  {
    hide MapField, DecodeField, TypedRow, EmissionHolds, CaseHolds, PresenceCheck;
    EmissionMeans(o, fields, i, path, row);
    if fields[i].oneof != "" {
      PresenceCheckMeans(o, fields, i, slots, path, row);
    }
  }

  lemma {:induction false} EmittedCases(
    o: E.Oracle, fields: seq<Field>, i: nat, slots: seq<Slot>, path: string, row: map<string, E.Stored>)
    requires i < |fields| == |slots| && OneofsOk(fields) && TypedRow(fields, row)
    requires forall k :: 0 <= k < |fields| ==> MapField(fields[k], JoinPath(path, fields[k].name)).Ok?
    requires forall k :: 0 <= k < |fields| ==> EmissionHolds(o, fields, k, path, E.Tup(row))
    requires DecodeField(o, fields[i], E.Lookup(row, fields[i].name)) == Ok(slots[i])
    ensures CaseHolds(fields, row, i) && BitAgrees(fields, slots, row, i)
  {
    if fields[i].oneof != "" {
      hide MapField, DecodeField, TypedRow, EmissionHolds, PresenceCheck;
      var first := GroupHasFirst(fields, i);
      EmissionMeans(o, fields, first, path, row);
      EmissionMeans(o, fields, i, path, row);
      PresenceCheckMeans(o, fields, i, slots, path, row);
    }
  }

  lemma {:induction false} DecodedMessageHolds(
    o: E.Oracle, fields: seq<Field>, path: string, row: map<string, E.Stored>)
    requires OneofsOk(fields) && TypedRow(fields, row)
    requires forall i :: 0 <= i < |fields| ==> MapField(fields[i], JoinPath(path, fields[i].name)).Ok?
    requires forall i :: 0 <= i < |fields| ==> FieldAgrees(o, fields, i, path, row)
    requires DecodeFields(o, fields, row).Ok? && CasesAgree(fields, DecodeFields(o, fields, row).value, row)
    ensures forall i :: 0 <= i < |fields| ==> EmissionHolds(o, fields, i, path, E.Tup(row))
  {
    hide MapField, DecodeField, DecodeFields, TypedRow, EmissionHolds, OneofsOk, FieldAgrees, CaseHolds, BitAgrees,
         CasesAgree;
    var slots := DecodeFields(o, fields, row).value;
    DecodeFieldsAt(o, fields, row);
    CasesMean(fields, slots, row);
    forall i | 0 <= i < |fields|
      ensures EmissionHolds(o, fields, i, path, E.Tup(row))
    {
      DecodedEmission(o, fields, i, slots, path, row);
    }
  }

  /** The presence bit of a member that cannot be selected is unset, so nothing
      behind it is read. */
  lemma {:induction false} UnselectableDecodes(
    o: E.Oracle, fields: seq<Field>, i: nat, path: string, row: map<string, E.Stored>)
    requires i < |fields| && OneofsOk(fields) && TypedRow(fields, row) && !Selectable(fields[i])
    requires MapField(fields[i], JoinPath(path, fields[i].name)).Ok? && EmissionHolds(o, fields, i, path, E.Tup(row))
    ensures DecodeField(o, fields[i], E.Lookup(row, fields[i].name)).Ok?
  {
    hide MapField, TypedRow, EmissionHolds, PresenceCheck, AllHold, TypeOf, Decode, CaseName, ValidIdentifier;
    EmissionMeans(o, fields, i, path, row);
    CaseTyped(fields, row, i);
    FieldTyped(fields, row, i);
    WrapperTyped(row[fields[i].name], TypeOf(fields[i].typ));
    PresenceCheckEvaluates(o, fields[i], path, row);
    assert row[fields[i].name].elements[PRESENT] == E.B(false);
    assert DecodeWrapped(o, fields[i].typ, row[fields[i].name]) == Ok(Absent);
  }

  lemma {:induction false} HoldingMessageDecodes(
    o: E.Oracle, fields: seq<Field>, path: string, row: map<string, E.Stored>)
    requires OneofsOk(fields) && TypedRow(fields, row)
    requires forall i :: 0 <= i < |fields| ==> MapField(fields[i], JoinPath(path, fields[i].name)).Ok?
    requires ScopeKeysTight(fields) && forall i :: 0 <= i < |fields| ==> FieldAgrees(o, fields, i, path, row)
    requires forall i :: 0 <= i < |fields| ==> EmissionHolds(o, fields, i, path, E.Tup(row))
    ensures DecodeFields(o, fields, row).Ok? && CasesAgree(fields, DecodeFields(o, fields, row).value, row)
  {
    hide MapField, DecodeField, DecodeFields, TypedRow, EmissionHolds, OneofsOk, CaseHolds, BitAgrees, CasesAgree;
    DecodeFieldsAt(o, fields, row);
    forall i | 0 <= i < |fields|
      ensures DecodeField(o, fields[i], E.Lookup(row, fields[i].name)).Ok?
    {
      EmissionMeans(o, fields, i, path, row);
      if Selectable(fields[i]) {
        assert FieldAgrees(o, fields, i, path, row) && KeysTightField(fields[i]);
      } else {
        UnselectableDecodes(o, fields, i, path, row);
      }
    }
    var slots := DecodeFields(o, fields, row).value;
    forall i | 0 <= i < |fields|
      ensures CaseHolds(fields, row, i) && BitAgrees(fields, slots, row, i)
    {
      EmittedCases(o, fields, i, slots, path, row);
    }
    CasesMean(fields, slots, row);
  }

  lemma {:induction false} UnitMeans(o: E.Oracle, path: string, row: map<string, E.Stored>)
    requires TypedRow([], row)
    ensures AllHold(o, [UnitCheck(path, false)], E.Tup(row)) <==> E.Lookup(row, UNIT) == E.B(false)
  {
    ElementTyped([], row, E.Element(UNIT, E.Bool));
    OneCheck(o, UnitCheck(path, false), E.Tup(row));
    assert E.Eval(o, At(E.Hole, UNIT), E.Tup(row), map[]) == row[UNIT];
  }

  lemma {:induction false} ScopeFieldAgrees(
    o: E.Oracle, fields: seq<Field>, i: nat, path: string, row: map<string, E.Stored>)
    requires i < |fields| && RenderableField(fields[i]) && TypedRow(fields, row)
    requires MapField(fields[i], JoinPath(path, fields[i].name)).Ok?
    ensures FieldAgrees(o, fields, i, path, row)
    decreases fields, 0
  {
    hide MapField, DecodeField, TypedRow, RenderableField, KeysTightField, FieldType;
    FieldTyped(fields, row, i);
    FieldMeans(o, fields[i], JoinPath(path, fields[i].name), row[fields[i].name]);
  }

  lemma {:induction false} MessageMeans(o: E.Oracle, fields: seq<Field>, path: string, row: map<string, E.Stored>)
    requires fields != [] && OneofsOk(fields) && Emit(fields, 0, path, false).Ok? && TypedRow(fields, row)
    requires forall i :: 0 <= i < |fields| ==> RenderableField(fields[i])
    ensures Means(ScopeKeysTight(fields),
                  AllHold(o, Emit(fields, 0, path, false).value.checks, E.Tup(row)),
                  DecodeMessage(o, fields, row).Ok?)
    decreases fields, 1
  {
    hide MapField, DecodeFields, TypedRow, RenderableField, EmissionHolds, FieldAgrees, CasesAgree, Emit, AllHold,
         NamesOk, OneofsOk, ScopeKeysTight;
    forall i | 0 <= i < |fields|
      ensures MapField(fields[i], JoinPath(path, fields[i].name)).Ok? && FieldAgrees(o, fields, i, path, row)
    {
      MapFieldAccepts(fields[i], JoinPath(path, fields[i].name));
      ScopeFieldAgrees(o, fields, i, path, row);
    }
    EmitMeans(o, fields, 0, path, E.Tup(row));
    if DecodeMessage(o, fields, row).Ok? {
      DecodedMessageHolds(o, fields, path, row);
    }
    if ScopeKeysTight(fields) && AllHold(o, Emit(fields, 0, path, false).value.checks, E.Tup(row)) {
      HoldingMessageDecodes(o, fields, path, row);
    }
  }

  lemma {:induction false} EmitsSomething(fields: seq<Field>, path: string)
    requires fields != [] && Emit(fields, 0, path, false).Ok?
    ensures Emit(fields, 0, path, false).value.declarations != []
  {
    hide MapField;
  }

  lemma {:induction false} StructMeans(o: E.Oracle, t: DataType, path: string, p: E.Stored)
    requires t.Struct? && MapType(t, path).Ok? && Renderable(t) && E.HasType(p, TypeOf(t))
    ensures Means(KeysTight(t), AllHold(o, MapType(t, path).value.checks, p), Decode(o, t, p).Ok?)
    decreases t, -1
  {
    hide Emit, NamesOk, OneofsOk, RenderableField, ScopeKeysTight, AllHold;
    var row := p.elements;
    assert TypedRow(t.fields, row);
    assert Decode(o, t, p) == DecodeMessage(o, t.fields, row);
    if t.fields == [] {
      UnitMeans(o, path, row);
      EmitNothing(path);
      assert MapType(t, path).value.checks == [UnitCheck(path, false)];
    } else {
      EmitsSomething(t.fields, path);
      MessageMeans(o, t.fields, path, row);
    }
  }

  lemma {:induction false} EmitNothing(path: string)
    ensures Emit([], 0, path, false) == Ok(Scope([], [], []))
  {
  }

  /** For every accepted type and every value its column can hold: what
      represents a logical value passes every check, and, with tight map keys,
      what passes every check represents a logical value. */
  lemma {:induction false} TypeMeans(o: E.Oracle, t: DataType, path: string, p: E.Stored)
    requires MapType(t, path).Ok? && Renderable(t) && E.HasType(p, TypeOf(t))
    ensures Means(KeysTight(t), AllHold(o, MapType(t, path).value.checks, p), Decode(o, t, p).Ok?)
    decreases t, 0
  {
    hide MapType, TypeOf, Decode, KeysTight, AllHold;
    match t
    case Struct(_, _) => StructMeans(o, t, path, p);
    case List(_, _) => ListMeans(o, t, path, p);
    case Map(_, _) => MapMeans(o, t, path, p);
    case _ => ScalarMeans(o, t, path, p);
  }
}
