/** The ClickHouse-to-Iceberg conversion plan (go/data/clickhouse/projection.go):
    a publisher that follows the plan reads back exactly the stored row. */
module ClickHouseProjection {
  import opened Results
  import opened LogicalSchema
  import opened ClickHouseLowering
  import opened ClickHouseAcceptance
  import opened ClickHouseValues
  import opened ClickHouseKeys
  import opened ClickHouseOneofs
  import E = ClickHouseExpr

  const CASE := "{case}"

  datatype Shape = Scalar | Record | ListOf | MapOf

  /** One node: {value} is the placeholder, {case} an identifier. */
  datatype Plan = Plan(
    name: string,
    presence: E.Expr,
    value: E.Expr,
    discriminator: string,
    shape: Shape,
    children: seq<Plan>)

  // ----- building the plan -----

  function ShapeOf(t: DataType): Shape {
    if t.Struct? then Record else if t.List? then ListOf else if t.Map? then MapOf else Scalar
  }

  function PresenceExpr(f: Field): E.Expr {
    match f.presence
    case Explicit => if Composite(f.typ) then At(E.Hole, PRESENT) else E.Call(E.IsNotNull, E.Hole)
    case Required => At(E.Hole, PRESENT)
    case OneofMember =>
      E.Binary(E.And, At(E.Hole, PRESENT), Equal(E.Ident(CASE, false), E.Number(Number(f))))
    case _ => E.Truth(true)
  }

  function RawValueExpr(f: Field): E.Expr {
    match f.presence
    case Explicit => if Composite(f.typ) then At(E.Hole, VALUE) else E.Call(E.AssumeNotNull, E.Hole)
    case Required => At(E.Hole, VALUE)
    case OneofMember => At(E.Hole, VALUE)
    case _ => E.Hole
  }

  function ConversionExpression(t: DataType, value: E.Expr): E.Expr {
    match t
    case Primitive(_, kind) =>
      if kind == UInt64 || kind == Fixed64 then E.Call(E.AccurateCastDecimal20, value)
      else if kind == UInt32 || kind == Fixed32 then E.Call(E.ToInt64, value)
      else value
    case Timestamp(_, _) => E.Call(E.ToUnixTimestamp64Nano, value)
    case _ => value
  }

  function ProjectField(f: Field): Plan
    decreases f, 1
  {
    Plan(f.name, PresenceExpr(f), ConversionExpression(f.typ, RawValueExpr(f)),
      if f.presence == OneofMember then CaseName(f.oneof) else "",
      ShapeOf(f.typ), ProjectChildren(f.typ))
  }

  function ProjectChildren(t: DataType): seq<Plan>
    decreases t, 0
  {
    match t
    case Struct(_, fields) => ProjectFields(fields)
    case List(element, _) => [ProjectField(element)]
    case Map(key, value) => [ProjectField(key), ProjectField(value)]
    case _ => []
  }

  function ProjectFields(fields: seq<Field>): (r: seq<Plan>)
    ensures |r| == |fields|
    ensures forall i :: 0 <= i < |fields| ==> r[i] == ProjectField(fields[i])
    decreases fields, 0
  {
    seq(|fields|, i requires 0 <= i < |fields| => ProjectField(fields[i]))
  }

  // ----- following the plan -----

  /** A publisher evaluates the value only when the presence is true, then
      applies the children. */
  function Follow(o: E.Oracle, plan: Plan, p: E.Stored, discriminator: E.Stored): Result<Slot>
    decreases plan, 1
  {
    var present := E.Eval(o, plan.presence, p, map[CASE := discriminator]);
    if present == E.B(true) then
      var v :- FollowValue(o, plan, E.Eval(o, plan.value, p, map[CASE := discriminator]));
      Ok(Present(v))
    else if present == E.B(false) then Ok(Absent)
    else Err
  }

  function FollowValue(o: E.Oracle, plan: Plan, q: E.Stored): Result<Value>
    decreases plan, 0
  {
    match plan.shape
    case Scalar => ScalarOf(q)
    case Record =>
      if q.Tup? then
        var slots :- FollowFields(o, plan.children, q.elements);
        Ok(Message(slots))
      else Err
    case ListOf =>
      if q.Arr? && |plan.children| == 1 then
        var items :- FollowEach(o, plan.children[0], q.items);
        Ok(Elements(items))
      else Err
    case MapOf =>
      if q.MapOf? && |plan.children| == 2 then
        var keys :- FollowEach(o, plan.children[0], E.Keys(q.entries));
        var values :- FollowEach(o, plan.children[1], E.Values(q.entries));
        Ok(Entries(Zip(keys, values)))
      else Err
  }

  function FollowFields(o: E.Oracle, plans: seq<Plan>, row: map<string, E.Stored>): (r: Result<seq<Slot>>)
    ensures r.Ok? ==> |r.value| == |plans|
    decreases plans, 0
  {
    if plans == [] then Ok([])
    else
      var first :- Follow(o, plans[0], E.Lookup(row, plans[0].name), E.Lookup(row, plans[0].discriminator));
      var rest :- FollowFields(o, plans[1..], row);
      Ok([first] + rest)
  }

  function FollowEach(o: E.Oracle, plan: Plan, items: seq<E.Stored>): (r: Result<seq<Slot>>)
    ensures r.Ok? ==> |r.value| == |items|
    decreases plan, 2, |items|
  {
    if items == [] then Ok([])
    else
      var first :- Follow(o, plan, items[0], E.Null);
      var rest :- FollowEach(o, plan, items[1..]);
      Ok([first] + rest)
  }

  // ----- the plan is exact -----

  /** Wherever a value can stand, only fields of messages are oneof members, never
      collection children. */
  predicate CasesInMessagesField(f: Field)
    decreases f
  {
    CasesInMessages(f.typ)
  }

  predicate ScopeCasesInMessages(fields: seq<Field>)
    decreases fields
  {
    forall i :: 0 <= i < |fields| && Selectable(fields[i]) ==> CasesInMessagesField(fields[i])
  }

  predicate CasesInMessages(t: DataType)
    decreases t
  {
    match t
    case Struct(_, fields) => ScopeCasesInMessages(fields)
    case List(element, _) => element.presence != OneofMember && CasesInMessagesField(element)
    case Map(key, value) =>
      && key.presence != OneofMember && CasesInMessagesField(key)
      && value.presence != OneofMember && CasesInMessagesField(value)
    case _ => true
  }

  lemma {:induction false} Pow20()
    ensures E.Pow10(20) == 100000000000000000000
  {
    assert E.Pow10(5) == 100000;
    assert E.Pow10(10) == 100000 * E.Pow10(5);
    assert E.Pow10(15) == 100000 * E.Pow10(10);
    assert E.Pow10(20) == 100000 * E.Pow10(15);
  }

  /** Every UInt64 is a Decimal(20, 0). */
  lemma {:induction false} UInt64IsExact(o: E.Oracle, n: int)
    requires E.InUInt64(n)
    ensures E.Apply(o, E.AccurateCastDecimal20, E.I(n)) == E.I(n)
  {
    Pow20();
  }

  /** Every UInt32 is an Int64. */
  lemma {:induction false} UInt32IsExact(o: E.Oracle, n: int)
    requires E.InUInt32(n)
    ensures E.Apply(o, E.ToInt64, E.I(n)) == E.I(n)
  {
  }

  lemma {:induction false} CallEvaluates(o: E.Oracle, f: E.Function, arg: E.Expr, p: E.Stored, env: E.Env)
    ensures E.Eval(o, E.Call(f, arg), p, env) == E.Apply(o, f, E.Eval(o, arg, p, env))
  {
  }

  lemma {:induction false} ConvertedDomain(t: DataType, p: E.Stored)
    requires E.HasType(p, TypeOf(t))
    ensures t.Primitive? && (t.kind == UInt64 || t.kind == Fixed64) ==> p.I? && E.InUInt64(p.n)
    ensures t.Primitive? && (t.kind == UInt32 || t.kind == Fixed32) ==> p.I? && E.InUInt32(p.n)
    ensures t.Timestamp? ==> p.I?
  {
  }

  /** Integers survive the conversions exactly, over their whole domain. */
  lemma {:induction false} ConversionIsExact(o: E.Oracle, t: DataType, value: E.Expr, p: E.Stored, env: E.Env)
    requires E.HasType(E.Eval(o, value, p, env), TypeOf(t))
    ensures E.Eval(o, ConversionExpression(t, value), p, env) == E.Eval(o, value, p, env)
  {
    hide E.Eval, E.HasType, TypeOf, E.Pow10, E.WrapInt64;
    var v := E.Eval(o, value, p, env);
    ConvertedDomain(t, v);
    if t.Primitive? && (t.kind == UInt64 || t.kind == Fixed64) {
      UInt64IsExact(o, v.n);
      CallEvaluates(o, E.AccurateCastDecimal20, value, p, env);
    } else if t.Primitive? && (t.kind == UInt32 || t.kind == Fixed32) {
      UInt32IsExact(o, v.n);
      CallEvaluates(o, E.ToInt64, value, p, env);
    } else if t.Timestamp? {
      CallEvaluates(o, E.ToUnixTimestamp64Nano, value, p, env);
    }
  }

  // A field's two expressions, by presence.

  lemma {:induction false} WrappedExprs(o: E.Oracle, p: E.Stored, inner: E.SqlType, env: E.Env)
    requires E.HasType(p, WrapperType(inner))
    ensures p.Tup? && PRESENT in p.elements && VALUE in p.elements && p.elements[PRESENT].B?
    ensures E.Eval(o, At(E.Hole, PRESENT), p, env) == p.elements[PRESENT]
    ensures E.Eval(o, At(E.Hole, VALUE), p, env) == p.elements[VALUE]
    ensures E.HasType(p.elements[VALUE], inner)
  {
    WrapperTyped(p, inner);
  }

  lemma {:induction false} MemberPresence(o: E.Oracle, f: Field, p: E.Stored, discriminator: E.Stored)
    requires f.presence == OneofMember && E.HasType(p, WrapperType(TypeOf(f.typ))) && discriminator.I?
    ensures p.Tup? && PRESENT in p.elements && p.elements[PRESENT].B?
    ensures E.Eval(o, PresenceExpr(f), p, map[CASE := discriminator])
         == E.B(p.elements[PRESENT].b && discriminator.n == Number(f))
  {
    hide TypeOf;
    var env := map[CASE := discriminator];
    WrappedExprs(o, p, TypeOf(f.typ), env);
    var selected := Equal(E.Ident(CASE, false), E.Number(Number(f)));
    assert E.Eval(o, E.Ident(CASE, false), p, env) == discriminator;
    assert E.Eval(o, selected, p, env) == E.B(discriminator.n == Number(f));
  }

  lemma {:induction false} WrappedBit(o: E.Oracle, t: DataType, p: E.Stored)
    requires E.HasType(p, WrapperType(TypeOf(t))) && DecodeWrapped(o, t, p).Ok?
    ensures p.Tup? && PRESENT in p.elements && p.elements[PRESENT] == E.B(DecodeWrapped(o, t, p).value.Present?)
  {
    hide TypeOf, Decode;
    WrapperTyped(p, TypeOf(t));
  }

  /** The discriminator of a oneof member says whether it is present. */
  predicate CaseMatches(f: Field, s: Slot, discriminator: E.Stored) {
    f.presence == OneofMember ==>
      discriminator.I? && (discriminator.n == Number(f) <==> s.Present?)
  }

  /** The value under a field's presence, when there is one. */
  function Inner(f: Field, p: E.Stored): E.Stored {
    if f.presence == Required || f.presence == OneofMember || (f.presence == Explicit && Composite(f.typ)) then
      if p.Tup? then E.Lookup(p.elements, VALUE) else E.Null
    else p
  }

  lemma {:induction false} PresenceDecides(o: E.Oracle, f: Field, p: E.Stored, s: Slot, discriminator: E.Stored)
    requires E.HasType(p, FieldType(f)) && DecodeField(o, f, p) == Ok(s) && CaseMatches(f, s, discriminator)
    ensures E.Eval(o, PresenceExpr(f), p, map[CASE := discriminator]) == E.B(s.Present?)
  {
    hide TypeOf, Decode;
    var env := map[CASE := discriminator];
    if f.presence == OneofMember {
      MemberPresence(o, f, p, discriminator);
      assert DecodeField(o, f, p) == DecodeWrapped(o, f.typ, p);
      WrappedBit(o, f.typ, p);
    } else if f.presence == Required || (f.presence == Explicit && Composite(f.typ)) {
      WrappedExprs(o, p, TypeOf(f.typ), env);
      assert DecodeWrapped(o, f.typ, p) == Ok(s);
      WrappedBit(o, f.typ, p);
    }
  }

  lemma {:induction false} InnerDecodes(o: E.Oracle, f: Field, p: E.Stored, v: Value)
    requires E.HasType(p, FieldType(f)) && DecodeField(o, f, p) == Ok(Present(v))
    ensures E.HasType(Inner(f, p), TypeOf(f.typ)) && Decode(o, f.typ, Inner(f, p)) == Ok(v)
  {
    hide TypeOf, Decode;
    if f.presence == Required || f.presence == OneofMember || (f.presence == Explicit && Composite(f.typ)) {
      WrapperTyped(p, TypeOf(f.typ));
      assert DecodeWrapped(o, f.typ, p) == Ok(Present(v));
      assert DecodePresent(o, f.typ, p.elements[VALUE]) == Ok(Present(v));
    } else {
      assert DecodePresent(o, f.typ, p) == Ok(Present(v));
    }
  }

  lemma {:induction false} ValueExprReadsInner(o: E.Oracle, f: Field, p: E.Stored, v: Value, discriminator: E.Stored)
    requires RenderableField(f) && E.HasType(p, FieldType(f)) && DecodeField(o, f, p) == Ok(Present(v))
    ensures E.Eval(o, ConversionExpression(f.typ, RawValueExpr(f)), p, map[CASE := discriminator]) == Inner(f, p)
  {
    hide TypeOf, Decode, DecodeField, ConversionExpression, Renderable;
    var env := map[CASE := discriminator];
    InnerDecodes(o, f, p, v);
    RawValueReadsInner(o, f, p, env);
    ConversionIsExact(o, f.typ, RawValueExpr(f), p, env);
  }

  lemma {:induction false} RawValueReadsInner(o: E.Oracle, f: Field, p: E.Stored, env: E.Env)
    requires E.HasType(p, FieldType(f))
    ensures E.Eval(o, RawValueExpr(f), p, env) == Inner(f, p)
  {
    hide TypeOf;
    if f.presence == Required || f.presence == OneofMember || (f.presence == Explicit && Composite(f.typ)) {
      WrappedExprs(o, p, TypeOf(f.typ), env);
    }
  }

  lemma {:induction false} FieldFollows(o: E.Oracle, f: Field, p: E.Stored, s: Slot, discriminator: E.Stored)
    requires RenderableField(f) && (s.Present? ==> CasesInMessagesField(f)) && E.HasType(p, FieldType(f))
    requires DecodeField(o, f, p) == Ok(s) && CaseMatches(f, s, discriminator)
    ensures Follow(o, ProjectField(f), p, discriminator) == Ok(s)
    decreases f, 0
  {
    hide TypeOf, Decode, DecodeField, FieldType, PresenceExpr, ConversionExpression, RawValueExpr, Renderable,
         CasesInMessages, FollowValue, E.Eval;
    PresenceDecides(o, f, p, s, discriminator);
    if s.Present? {
      ValueExprReadsInner(o, f, p, s.value, discriminator);
      InnerDecodes(o, f, p, s.value);
      ValueFollows(o, ProjectField(f), f.typ, Inner(f, p), s.value);
    }
  }

  lemma {:induction false} EachFollows(o: E.Oracle, f: Field, items: seq<E.Stored>)
    requires RenderableField(f) && CasesInMessagesField(f) && f.presence != OneofMember
    requires forall i :: 0 <= i < |items| ==> E.HasType(items[i], FieldType(f))
    requires DecodeEach(o, f, items).Ok?
    ensures FollowEach(o, ProjectField(f), items) == DecodeEach(o, f, items)
    decreases f, 1, |items|
  {
    hide DecodeField, FieldType, RenderableField, CasesInMessagesField, Follow, ProjectField;
    if items != [] {
      FieldFollows(o, f, items[0], DecodeField(o, f, items[0]).value, E.Null);
      EachFollows(o, f, items[1..]);
    }
  }

  lemma {:induction false} MemberFollows(
    o: E.Oracle, fields: seq<Field>, slots: seq<Slot>, row: map<string, E.Stored>, i: nat)
    requires OneofsOk(fields) && TypedRow(fields, row) && i < |fields| == |slots|
    requires RenderableField(fields[i]) && (Selectable(fields[i]) ==> CasesInMessagesField(fields[i]))
    requires DecodeField(o, fields[i], E.Lookup(row, fields[i].name)) == Ok(slots[i])
    requires CasesAgree(fields, slots, row)
    ensures var plan := ProjectField(fields[i]);
            Follow(o, plan, E.Lookup(row, plan.name), E.Lookup(row, plan.discriminator)) == Ok(slots[i])
    decreases fields, 0
  {
    hide DecodeField, FieldType, RenderableField, CasesInMessagesField, Follow, TypedRow, CasesAgree;
    var f := fields[i];
    FieldTyped(fields, row, i);
    if f.presence == OneofMember {
      CasesMean(fields, slots, row);
      assert BitAgrees(fields, slots, row, i);
      CaseTyped(fields, row, i);
    }
    FieldFollows(o, f, row[f.name], slots[i], E.Lookup(row, ProjectField(f).discriminator));
  }

  lemma {:induction false} FollowFieldsAt(o: E.Oracle, plans: seq<Plan>, row: map<string, E.Stored>, slots: seq<Slot>)
    requires |plans| == |slots|
    requires forall i :: 0 <= i < |plans| ==>
               Follow(o, plans[i], E.Lookup(row, plans[i].name), E.Lookup(row, plans[i].discriminator)) == Ok(slots[i])
    ensures FollowFields(o, plans, row) == Ok(slots)
  {
    hide Follow;
    if plans != [] {
      FollowFieldsAt(o, plans[1..], row, slots[1..]);
      assert slots == [slots[0]] + slots[1..];
    }
  }

  /** Every accepted row, read through the plan, is the row it represents. */
  lemma {:induction false} RowFollows(o: E.Oracle, fields: seq<Field>, row: map<string, E.Stored>)
    requires OneofsOk(fields) && TypedRow(fields, row)
    requires ScopeCasesInMessages(fields) && forall i :: 0 <= i < |fields| ==> RenderableField(fields[i])
    requires DecodeMessage(o, fields, row).Ok?
    ensures DecodeMessage(o, fields, row).value.Message?
    ensures FollowFields(o, ProjectFields(fields), row) == Ok(DecodeMessage(o, fields, row).value.slots)
    decreases fields, 1
  {
    hide DecodeFields, RenderableField, CasesInMessagesField, Follow, TypedRow, CasesAgree, ProjectField;
    if fields != [] {
      var slots := DecodeFields(o, fields, row).value;
      DecodeFieldsAt(o, fields, row);
      var plans := ProjectFields(fields);
      forall i | 0 <= i < |plans|
        ensures Follow(o, plans[i], E.Lookup(row, plans[i].name), E.Lookup(row, plans[i].discriminator)) == Ok(slots[i])
      {
        MemberFollows(o, fields, slots, row, i);
      }
      FollowFieldsAt(o, plans, row, slots);
    }
  }

  lemma {:induction false} ValueFollows(o: E.Oracle, plan: Plan, t: DataType, p: E.Stored, v: Value)
    requires plan.shape == ShapeOf(t) && plan.children == ProjectChildren(t)
    requires Renderable(t) && CasesInMessages(t) && E.HasType(p, TypeOf(t)) && Decode(o, t, p) == Ok(v)
    ensures FollowValue(o, plan, p) == Ok(v)
    decreases t, 0
  {
    hide Renderable, CasesInMessages, TypeOf, Decode, FollowValue, ProjectChildren, E.HasType, ShapeOf;
    match t
    case Struct(_, _) => StructFollows(o, plan, t, p, v);
    case List(_, _) => ListFollows(o, plan, t, p, v);
    case Map(_, _) => MapFollows(o, plan, t, p, v);
    case _ => ScalarFollows(o, plan, t, p, v);
  }

  lemma {:induction false} StructFollows(o: E.Oracle, plan: Plan, t: DataType, p: E.Stored, v: Value)
    requires t.Struct? && plan.shape == ShapeOf(t) && plan.children == ProjectChildren(t)
    requires Renderable(t) && CasesInMessages(t) && E.HasType(p, TypeOf(t)) && Decode(o, t, p) == Ok(v)
    ensures FollowValue(o, plan, p) == Ok(v)
    decreases t, -1
  {
    hide DecodeMessage, RenderableField, ScopeCasesInMessages, ScopeElements, FollowFields, NamesOk, OneofsOk,
         ProjectFields;
    RowFollows(o, t.fields, p.elements);
  }

  lemma {:induction false} ListFollows(o: E.Oracle, plan: Plan, t: DataType, p: E.Stored, v: Value)
    requires t.List? && plan.shape == ShapeOf(t) && plan.children == ProjectChildren(t)
    requires Renderable(t) && CasesInMessages(t) && E.HasType(p, TypeOf(t)) && Decode(o, t, p) == Ok(v)
    ensures FollowValue(o, plan, p) == Ok(v)
    decreases t, -1
  {
    hide DecodeEach, RenderableField, CasesInMessagesField, FieldType, FollowEach, ProjectField;
    EachFollows(o, t.element, p.items);
  }

  lemma {:induction false} MapFollows(o: E.Oracle, plan: Plan, t: DataType, p: E.Stored, v: Value)
    requires t.Map? && plan.shape == ShapeOf(t) && plan.children == ProjectChildren(t)
    requires Renderable(t) && CasesInMessages(t) && E.HasType(p, TypeOf(t)) && Decode(o, t, p) == Ok(v)
    ensures FollowValue(o, plan, p) == Ok(v)
    decreases t, -1
  {
    hide DecodeEach, RenderableField, CasesInMessagesField, FieldType, FollowEach, ProjectField, DistinctKeys;
    EachFollows(o, t.key, E.Keys(p.entries));
    EachFollows(o, t.value, E.Values(p.entries));
  }

  lemma {:induction false} ScalarFollows(o: E.Oracle, plan: Plan, t: DataType, p: E.Stored, v: Value)
    requires !t.Struct? && !t.List? && !t.Map? && plan.shape == ShapeOf(t) && Decode(o, t, p) == Ok(v)
    ensures FollowValue(o, plan, p) == Ok(v)
  {
    hide WellFormed;
  }

  /** A collection child declared as a oneof member has no discriminator beside
      it: the plan cannot read it when it is present. */
  lemma {:induction false} StrayMemberIsUnreadable(o: E.Oracle, f: Field, p: E.Stored)
    requires f.presence == OneofMember && E.HasType(p, FieldType(f))
    ensures p.Tup? && PRESENT in p.elements
    ensures p.elements[PRESENT] == E.B(true) ==> Follow(o, ProjectField(f), p, E.Null).Err?
  {
    hide TypeOf, FollowValue, ProjectChildren, ConversionExpression, RawValueExpr, E.HasType, WrapperType;
    WrappedExprs(o, p, TypeOf(f.typ), map[CASE := E.Null]);
    UnknownCase(o, f, p);
  }

  lemma {:induction false} UnknownCase(o: E.Oracle, f: Field, p: E.Stored)
    requires f.presence == OneofMember
    ensures E.Eval(o, At(E.Hole, PRESENT), p, map[CASE := E.Null]) == E.B(true) ==>
            E.Eval(o, PresenceExpr(f), p, map[CASE := E.Null]) == E.Null
  {
    var env := map[CASE := E.Null];
    assert E.Eval(o, E.Ident(CASE, false), p, env) == E.Null;
    assert E.Eval(o, Equal(E.Ident(CASE, false), E.Number(Number(f))), p, env) == E.Null;
  }
}
