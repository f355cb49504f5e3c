/** Writing a logical row into the columns that the renderer declares. */
module ClickHouseEncoding {
  import opened LogicalSchema
  import opened ClickHouseLowering
  import opened ClickHouseAcceptance
  import opened ClickHouseValues
  import E = ClickHouseExpr

  // ----- what fills the value behind an unset presence bit -----

  function Zeros(width: nat): (r: seq<E.byte>)
    ensures |r| == width
  {
    seq(width, i => 0)
  }

  function DefaultOf(t: E.SqlType): E.Stored
    decreases t
  {
    match t
    case Bool => E.B(false)
    case Float32 => E.F(0)
    case Float64 => E.F(0)
    case String => E.S([])
    case FixedString(width) => E.S(Zeros(width))
    case UUID => E.S(Zeros(16))
    case Nullable(_) => E.Null
    case Array(_) => E.Arr([])
    case Map(_, _) => E.MapOf([])
    case Tuple(elements) => E.Tup(DefaultElements(elements))
    case _ => E.I(0)
  }

  function DefaultElements(elements: seq<E.Element>): map<string, E.Stored>
    decreases elements
  {
    if elements == [] then map[]
    else DefaultElements(elements[1..])[elements[0].name := DefaultOf(elements[0].typ)]
  }

  predicate DistinctNames(elements: seq<E.Element>) {
    forall i, j :: 0 <= i < j < |elements| ==> elements[i].name != elements[j].name
  }

  /** No tuple in the type declares a name twice. */
  predicate WellNamed(t: E.SqlType)
    decreases t
  {
    match t
    case Nullable(inner) => WellNamed(inner)
    case Array(element) => WellNamed(element)
    case Map(key, value) => WellNamed(key) && WellNamed(value)
    case Tuple(elements) => DistinctNames(elements) && forall i :: 0 <= i < |elements| ==> WellNamed(elements[i].typ)
    case _ => true
  }

  lemma {:induction false} DefaultElementsNames(elements: seq<E.Element>)
    ensures DefaultElements(elements).Keys == E.Names(elements)
  {
    hide DefaultOf;
    if elements != [] {
      var rest := elements[1..];
      DefaultElementsNames(rest);
      assert elements == [elements[0]] + rest;
      assert E.Names(elements) == {elements[0].name} + E.Names(rest);
    }
  }

  lemma {:induction false} DefaultElementAt(elements: seq<E.Element>, i: nat)
    requires DistinctNames(elements) && i < |elements|
    ensures elements[i].name in DefaultElements(elements)
    ensures DefaultElements(elements)[elements[i].name] == DefaultOf(elements[i].typ)
  {
    hide DefaultOf;
    if i > 0 {
      assert elements[1..][i - 1] == elements[i];
      assert DistinctNames(elements[1..]);
      DefaultElementAt(elements[1..], i - 1);
    }
  }

  lemma {:induction false} DefaultTyped(t: E.SqlType)
    requires WellNamed(t)
    ensures E.HasType(DefaultOf(t), t)
    decreases t
  {
    match t
    case Tuple(elements) => DefaultTupleTyped(elements);
    case _ =>
  }

  lemma {:induction false} DefaultTupleTyped(elements: seq<E.Element>)
    requires WellNamed(E.Tuple(elements))
    ensures E.HasType(E.Tup(DefaultElements(elements)), E.Tuple(elements))
    decreases elements
  {
    hide DefaultOf, DefaultElements, DistinctNames;
    DefaultElementsNames(elements);
    forall i | 0 <= i < |elements|
      ensures elements[i].name in DefaultElements(elements)
      ensures E.HasType(DefaultElements(elements)[elements[i].name], elements[i].typ)
    {
      DefaultElementAt(elements, i);
      DefaultTyped(elements[i].typ);
    }
  }

  // ----- encoding -----

  function EncodeScalar(v: Value): E.Stored {
    match v
    case Truth(b) => E.B(b)
    case Int(n) => E.I(n)
    case Real(bits) => E.F(bits)
    case Octets(bytes) => E.S(bytes)
    case _ => E.Null
  }

  function Wrapper(present: bool, value: E.Stored): E.Stored {
    E.Tup(map[PRESENT := E.B(present), VALUE := value])
  }

  predicate UsesWrapper(f: Field) {
    f.presence == Required || f.presence == OneofMember || (f.presence == Explicit && Composite(f.typ))
  }

  function EncodeSlot(f: Field, s: Slot): E.Stored
    decreases f, 0
  {
    match s
    case Absent => if UsesWrapper(f) then Wrapper(false, DefaultOf(TypeOf(f.typ))) else E.Null
    case Present(v) => if UsesWrapper(f) then Wrapper(true, Encode(f.typ, v)) else Encode(f.typ, v)
  }

  function EncodeEach(f: Field, slots: seq<Slot>): (r: seq<E.Stored>)
    ensures |r| == |slots|
    decreases f, 1
  {
    seq(|slots|, i requires 0 <= i < |slots| => EncodeSlot(f, slots[i]))
  }

  /** The columns of `fields[k..]`. */
  function EncodeFrom(fields: seq<Field>, slots: seq<Slot>, k: nat): map<string, E.Stored>
    requires |fields| == |slots| && k <= |fields|
    decreases fields, |fields| - k
  {
    if k == |fields| then map[]
    else
      var f := fields[k];
      var rest := EncodeFrom(fields, slots, k + 1)[f.name := EncodeSlot(f, slots[k])];
      if FirstOfGroup(fields, k) then rest[CaseName(f.oneof) := E.I(Selected(fields, slots, f.oneof))] else rest
  }

  function EncodeMessage(fields: seq<Field>, slots: seq<Slot>): map<string, E.Stored>
    requires |fields| == |slots|
    decreases fields, |fields| + 1
  {
    if fields == [] then map[UNIT := E.B(false)] else EncodeFrom(fields, slots, 0)
  }

  function Keys(entries: seq<Pair>): (r: seq<Slot>)
    ensures |r| == |entries|
  {
    seq(|entries|, i requires 0 <= i < |entries| => entries[i].key)
  }

  function Values(entries: seq<Pair>): (r: seq<Slot>)
    ensures |r| == |entries|
  {
    seq(|entries|, i requires 0 <= i < |entries| => entries[i].value)
  }

  function ZipStored(keys: seq<E.Stored>, values: seq<E.Stored>): (r: seq<E.Entry>)
    requires |keys| == |values|
    ensures E.Keys(r) == keys && E.Values(r) == values
  {
    seq(|keys|, i requires 0 <= i < |keys| => E.Entry(keys[i], values[i]))
  }

  function Encode(t: DataType, v: Value): E.Stored
    decreases t, 0
  {
    match t
    case Struct(_, fields) =>
      if v.Message? && |v.slots| == |fields| then E.Tup(EncodeMessage(fields, v.slots)) else E.Null
    case List(element, _) => if v.Elements? then E.Arr(EncodeEach(element, v.items)) else E.Null
    case Map(key, value) =>
      if v.Entries? then
        E.MapOf(ZipStored(EncodeEach(key, Keys(v.entries)), EncodeEach(value, Values(v.entries))))
      else E.Null
    case _ => EncodeScalar(v)
  }

  // ----- where each column ends up -----

  /** Names are used once: fields by fields, cases by oneofs. */
  predicate NamesApart(fields: seq<Field>) {
    NamesOk(fields, true) && OneofsOk(fields)
  }

  lemma {:induction false} ApartWhenNested(fields: seq<Field>)
    requires RenderableScope(fields, false)
    ensures NamesApart(fields)
  {
    hide RenderableField;
  }

  lemma {:induction false} CaseNameInjective(a: string, b: string)
    requires CaseName(a) == CaseName(b)
    ensures a == b
  {
    var prefix := RESERVED_PREFIX + "oneof_";
    assert CaseName(a)[|prefix|..|CaseName(a)| - 5] == a;
    assert CaseName(b)[|prefix|..|CaseName(b)| - 5] == b;
  }

  lemma {:induction false} FieldStored(fields: seq<Field>, slots: seq<Slot>, k: nat, i: nat)
    requires NamesApart(fields) && k <= i < |fields| == |slots|
    ensures fields[i].name in EncodeFrom(fields, slots, k)
    ensures EncodeFrom(fields, slots, k)[fields[i].name] == EncodeSlot(fields[i], slots[i])
    decreases i - k
  {
    hide EncodeSlot, Selected;
    if k < i {
      FieldStored(fields, slots, k + 1, i);
    }
  }

  lemma {:induction false} CaseStored(fields: seq<Field>, slots: seq<Slot>, k: nat, i: nat)
    requires NamesApart(fields) && k <= i < |fields| == |slots| && FirstOfGroup(fields, i)
    ensures CaseName(fields[i].oneof) in EncodeFrom(fields, slots, k)
    ensures EncodeFrom(fields, slots, k)[CaseName(fields[i].oneof)] == E.I(Selected(fields, slots, fields[i].oneof))
    decreases i - k
  {
    hide EncodeSlot;
    if k < i {
      CaseStored(fields, slots, k + 1, i);
      if FirstOfGroup(fields, k) && CaseName(fields[k].oneof) == CaseName(fields[i].oneof) {
        CaseNameInjective(fields[k].oneof, fields[i].oneof);
      }
    }
  }

  lemma {:induction false} StoredNames(fields: seq<Field>, slots: seq<Slot>, k: nat)
    requires k <= |fields| == |slots|
    ensures EncodeFrom(fields, slots, k).Keys == E.Names(ElementsFrom(fields, k))
    decreases |fields| - k
  {
    hide EncodeSlot, FieldType, E.Names, Selected, CaseName;
    if k == |fields| {
      NoNamesDeclared();
    } else {
      StoredNames(fields, slots, k + 1);
      var rest := ElementsFrom(fields, k + 1);
      var own := E.Element(fields[k].name, FieldType(fields[k]));
      var case_ := E.Element(CaseName(fields[k].oneof), E.Int32);
      FirstName(own, rest);
      if FirstOfGroup(fields, k) {
        FirstName(case_, [own] + rest);
        assert ElementsFrom(fields, k) == [case_] + ([own] + rest);
      } else {
        assert ElementsFrom(fields, k) == [own] + rest;
      }
    }
  }

  lemma {:induction false} NoNamesDeclared()
    ensures E.Names([]) == {}
  {
  }

  lemma {:induction false} FirstName(e: E.Element, rest: seq<E.Element>)
    ensures E.Names([e] + rest) == {e.name} + E.Names(rest)
  {
    var all := [e] + rest;
    assert all[0] == e;
    forall x | x in rest
      ensures x in all
    {
      var i :| 0 <= i < |rest| && rest[i] == x;
      assert all[i + 1] == x;
    }
  }

  lemma {:induction false} CaseOfMember(fields: seq<Field>, slots: seq<Slot>, i: nat)
    requires NamesApart(fields) && i < |fields| == |slots| && fields[i].oneof != ""
    ensures E.Lookup(EncodeFrom(fields, slots, 0), CaseName(fields[i].oneof))
         == E.I(Selected(fields, slots, fields[i].oneof))
  {
    hide EncodeFrom;
    var first := GroupHasFirst(fields, i);
    CaseStored(fields, slots, 0, first);
  }
}
