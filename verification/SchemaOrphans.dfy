/** A previous dataset the loader accepts although no compilation can produce
    it, and what becomes of it. */
module SchemaOrphans {

  import opened LogicalSchema
  import opened ProtoDescriptors
  import opened ProtoNames
  import opened Results
  import opened SchemaCompiler
  import opened SchemaIdentity
  import opened SchemaLedger
  import opened Sorting
  import opened Tables

  /** A retired child of a field that was never allocated. */
  const ORPHAN := Entry([Number(1), Number(2)], 1, "m.element", "element", "element")

  const PREVIOUS := Dataset("m", "m", "", [], 1, [ORPHAN])

  const REPEATED := FieldDescriptor(1, "f", Many, ScalarOf(Int32), false, "", false, false, "", "f", "", NoOptions)

  const MESSAGE := MessageDescriptor("m", [REPEATED], {}, {}, false, false, "")

  const GRAPH: Graph := map["m" := MESSAGE]

  lemma {:induction false} PlainNames()
    ensures ValidName("m") && ValidName("f") && ValidName("element")
    ensures ValidFullName("m") && ValidFullName("m.element")
    ensures StorageName("m") == "m" && StorageName("f") == "f" && StorageName("element") == "element"
  {
    hide ValidName, ValidFullName, StorageName, Canonical;
    PlainName("m");
    PlainName("f");
    PlainName("element");
    assert ValidFullName("m") by { ShortFullName(); }
    assert Qualified("m", "element") == "m.element";
    QualifiedName("m", "element");
  }

  lemma {:induction false} PlainName(s: string)
    requires s == "m" || s == "f" || s == "element"
    ensures ValidName(s) && StorageName(s) == s
  {
    hide StorageName;
    CanonicalFixed(s);
  }

  lemma {:induction false} ShortFullName()
    ensures ValidFullName("m")
  {
    ShortNameOfPlain("m");
  }

  lemma {:induction false} OrphanLoads()
    ensures ValidDataset(PREVIOUS, "m") && Ledger(PREVIOUS) == [ORPHAN] && NodesOf(PREVIOUS) == []
  {
    hide StorageName, ValidFullName, ValidName;
    PlainNames();
    assert Entries([]) == [];
    assert Ledger(PREVIOUS) == [ORPHAN];
    assert [ORPHAN][..0] == [];
    assert Highest([]) == 0;
    assert Highest([ORPHAN]) == 1;
  }

  function Stored(): Field {
    ProtoFieldOf(MESSAGE, REPEATED, [], 2, "f", List(StoredElement(), 0))
  }

  function StoredElement(): Field {
    SyntheticFieldOf("m.f[]", [1], "element", 3, ListElement, Primitive("", Int32))
  }

  lemma {:induction false} OrphanIndex()
    ensures var ix := IndexOf(PREVIOUS);
            && ix.active == map[] && ix.retired == map[ORPHAN.identity := ORPHAN]
            && ix.names == map[([Number(1)], "element") := ORPHAN.identity]
  {
    hide ValidDataset;
    OrphanLoads();
    assert [ORPHAN][..0] == [];
    assert ORPHAN.identity[..1] == [Number(1)];
    assert TableOf([], NameKey, IdentityOf) == map[];
    assert TableOf([], IdentityOf, WholeEntry) == map[];
  }

  function Start(): State {
    State(Ids(1, map[1 := ORPHAN.identity], map[]), map[[] := MESSAGE])
  }

  function End(): State {
    var ids := Ids(
      3, map[1 := ORPHAN.identity, 2 := [Number(1)], 3 := [Number(1), Element]],
      map[[Number(1)] := 2, [Number(1), Element] := 3]);
    State(ids, map[[] := MESSAGE])
  }

  lemma {:induction false} ElementCompiles(env: Env, st: State)
    requires env.index == IndexOf(PREVIOUS) && env.first == map[]
    requires st == State(Ids(2, map[1 := ORPHAN.identity, 2 := [Number(1)]], map[[Number(1)] := 2]), map[[] := MESSAGE])
    ensures CompileSynthetic(env, st, ScalarOf(Int32), "m.f", [1], [Number(1)], Element, {"m"}, NoOptions)
         == Ok(Compiled(StoredElement(), End()))
  {
    hide IndexOf;
    OrphanIndex();
    var i := [Number(1)] + [Element];
    assert i == [Number(1), Element] && i != ORPHAN.identity;
    var ids := Allocate(env, st.ids, i);
    assert ids == Ok(End().ids);
    assert CompileRefined(env, End(), ScalarOf(Int32), [1], i, {"m"}, NoOptions)
        == CompileValue(env, End(), ScalarOf(Int32), [1], i, {"m"});
    assert "m.f" + "[]" == "m.f[]";
  }

  lemma {:induction false} RepeatedCompiles(env: Env)
    requires env.index == IndexOf(PREVIOUS) && env.first == map[]
    ensures CompileField(env, Start(), MESSAGE, REPEATED, [], [], {"m"}) == Ok(Compiled(Stored(), End()))
  {
    hide IndexOf, StorageName, ValidFullName, CompileSynthetic;
    OrphanIndex();
    PlainNames();
    var i := [] + [Number(1)];
    assert i == [Number(1)] && i != ORPHAN.identity;
    var st := State(Ids(2, map[1 := ORPHAN.identity, 2 := [Number(1)]], map[[Number(1)] := 2]), map[[] := MESSAGE]);
    assert Allocate(env, Start().ids, i) == Ok(st.ids);
    assert Qualified("m", "f") == "m.f";
    ElementCompiles(env, st);
    assert [] + [1] == [1];
    assert CompileShape(env, st, MESSAGE, REPEATED, [1], i, {"m"}) == Ok(Compiled(List(StoredElement(), 0), End()));
    assert Scope(i) == [];
  }

  lemma {:induction false} OrphanFields(env: Env)
    requires env.index == IndexOf(PREVIOUS) && env.first == map[]
    ensures SortedFields(MESSAGE) == [REPEATED]
    ensures CompileFields(env, Start(), MESSAGE, [REPEATED], [], [], {"m"}) == Ok(Compiled([Stored()], End()))
  {
    hide IndexOf, CompileField;
    RepeatedCompiles(env);
    assert [REPEATED][..0] == [] && [REPEATED][0] == REPEATED;
    assert CompileFields(env, Start(), MESSAGE, [], [], [], {"m"}) == Ok(Compiled([], Start()));
    assert [] + [Stored()] == [Stored()];
    assert [REPEATED][1..] == [];
  }

  function Output(): Dataset {
    Dataset("m", "m", "", [Stored()], 3, [ORPHAN])
  }

  lemma {:induction false} OrphanRetired()
    ensures RetiredAfter(Some(PREVIOUS), End().ids.active) == [ORPHAN] && Reserved(End().containers, ORPHAN)
  {
    hide ValidDataset;
    OrphanLoads();
    assert Dropped([], End().ids.active) == [];
    assert [ORPHAN] + [] == [ORPHAN] && [ORPHAN][1..] == [];
    assert SortBy([ORPHAN], IdOf) == Insert(ORPHAN, SortBy([], IdOf), IdOf);
    assert Scope(ORPHAN.identity) == [Number(1)];
  }

  lemma {:induction false} OrphanCompiles()
    ensures CompileMessage(GRAPH, "m", Some(PREVIOUS)) == Ok(Output())
  {
    hide StorageName, ValidFullName, ValidName, ValidDataset, CompileFields, RetiredAfter, Reserved, IndexOf,
         SortedFields, Ledger, Owners;
    OrphanLoads();
    OrphanIndex();
    PlainNames();
    var env := EnvOf(GRAPH, MESSAGE, Some(PREVIOUS));
    OrphanFields(env);
    OrphanRetired();
    OwnersOfPrevious();
    assert StartOf(MESSAGE, Some(PREVIOUS)) == Start();
    assert DistinctNames([Stored()]);
  }

  lemma {:induction false} OwnersOfPrevious()
    ensures Owners(Ledger(PREVIOUS)) == map[1 := ORPHAN.identity]
  {
    hide ValidDataset;
    OrphanLoads();
    assert [ORPHAN][..0] == [];
    assert TableOf([], IdOf, IdentityOf) == map[];
  }

  /** The loader accepts the orphan, the compiler accepts the descriptor, and the
      output is refused: two identities of scope `field:1` are named `element`. */
  lemma {:induction false} OrphanOutputIsRefused()
    ensures WellFormed(GRAPH) && ValidDataset(PREVIOUS, "m")
    ensures CompileMessage(GRAPH, "m", Some(PREVIOUS)).Ok?
    ensures !ValidDataset(CompileMessage(GRAPH, "m", Some(PREVIOUS)).value, "m")
  {
    hide StorageName, ValidFullName, ValidName, CompileMessage, Placed, SoundEntry;
    OrphanLoads();
    OrphanCompiles();
    PlainNames();
    OutputNodes();
    var ledger := Ledger(Output());
    assert ledger[0] == ORPHAN && ledger[2] == EntryOf(Node([Number(1), Element], StoredElement()));
    assert Scope(ledger[0].identity) == [Number(1)] == Scope(ledger[2].identity);
    assert !Separate(ledger[0], ledger[2]);
  }

  lemma {:induction false} OutputNodes()
    ensures NodesOf(Output()) == [Node([Number(1)], Stored()), Node([Number(1), Element], StoredElement())]
  {
    hide StorageName;
    assert [Stored()][..0] == [];
    assert Nodes([], []) == [];
    var i := [] + [Number(1)];
    assert i == [Number(1)];
    var e := i + [Element];
    assert e == [Number(1), Element];
    assert SegmentOf(StoredElement()) == Element && SegmentOf(Stored()) == Number(1);
    assert TypeNodes(Primitive("", Int32), e) == [];
    assert FieldNodes(StoredElement(), i) == [Node(e, StoredElement())] + TypeNodes(StoredElement().typ, e);
    assert TypeNodes(Stored().typ, i) == FieldNodes(StoredElement(), i);
    assert FieldNodes(Stored(), []) == [Node(i, Stored())] + TypeNodes(Stored().typ, i);
  }
}
