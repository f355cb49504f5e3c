/** Every history of compilations that starts from nothing. */
module SchemaRuns {

  import opened LogicalSchema
  import opened ProtoDescriptors
  import opened ProtoNames
  import opened Results
  import opened SchemaAllocation
  import opened SchemaCompiler
  import opened SchemaEvolution
  import opened SchemaFacts
  import opened SchemaIdentity
  import opened SchemaIndex
  import opened SchemaLedger
  import opened SchemaReference
  import opened SchemaReload
  import opened SchemaTree
  import opened Sorting

  // ----- coherent histories -----

  /** The scope of an entry is the root or was itself allocated. */
  ghost predicate Rooted(ledger: seq<Entry>, e: Entry) {
    |e.identity| > 1 ==> exists k :: 0 <= k < |ledger| && ledger[k].identity == Scope(e.identity)
  }

  /** An entry below an active field is a child of that field's type. */
  ghost predicate Matches(nodes: seq<Node>, e: Entry) {
    && e.identity != []
    && forall k :: 0 <= k < |nodes| && nodes[k].identity == Scope(e.identity) ==>
         nodes[k].identity != [] && Holds(nodes[k].field.typ, Last(e.identity))
  }

  ghost predicate Coherent(d: Dataset) {
    forall k :: 0 <= k < |Ledger(d)| ==> Rooted(Ledger(d), Ledger(d)[k]) && Matches(NodesOf(d), Ledger(d)[k])
  }

  lemma {:induction false} NodePosition(env: Env, start: Ids, d: Dataset, ids: Ids, j: nat, k: nat)
    requires Certified(env, start, d, ids) && j < |NodesOf(d)| && k < |NodesOf(d)|
    requires NodesOf(d)[j].identity == NodesOf(d)[k].identity
    ensures j == k
  {
    hide Certified, NodesOf, Backed, Grown;
    CertifiedIds(env, start, d, ids);
    var all := Identities(NodesOf(d));
    assert all[j] == all[k];
  }

  lemma {:induction false} NodeValid(env: Env, start: Ids, d: Dataset, ids: Ids, k: nat)
    requires Certified(env, start, d, ids) && k < |NodesOf(d)|
    ensures ValidIdentity(NodesOf(d)[k].identity)
  {
    hide Certified, NodesOf, NameDerived, Evolves, NameFree, KeepsSource;
    NodeCertified(env, start, d, ids, k);
  }

  lemma {:induction false} ParentOf(env: Env, start: Ids, d: Dataset, ids: Ids, k: nat) returns (at: nat)
    requires Certified(env, start, d, ids) && k < |NodesOf(d)|
    ensures var i := NodesOf(d)[k].identity;
            i != [] && (|i| == 1 || (at < |NodesOf(d)| && NodesOf(d)[at].identity == Scope(i)
                                     && Holds(NodesOf(d)[at].field.typ, Last(i))))
    ensures |NodesOf(d)[k].identity| == 1 ==> Last(NodesOf(d)[k].identity).Number?
  {
    hide Certified, Nodes, AllPlaced, Holds;
    PlacedOf(env, start, d, ids);
    var nodes := NodesOf(d);
    var n := nodes[k];
    assert n in nodes;
    FieldsHaveParents(d.fields, [], [], n);
    at := 0;
    if |n.identity| > 1 {
      var p :| p in nodes && p.identity == Scope(n.identity) && Holds(p.field.typ, Last(n.identity));
      at :| 0 <= at < |nodes| && nodes[at] == p;
    }
  }

  lemma {:induction false} ActiveCoherent(env: Env, start: Ids, d: Dataset, ids: Ids, k: nat)
    requires Certified(env, start, d, ids) && k < |NodesOf(d)|
    ensures Rooted(Ledger(d), EntryOf(NodesOf(d)[k])) && Matches(NodesOf(d), EntryOf(NodesOf(d)[k]))
  {
    hide Certified, NodesOf, Ledger, Holds;
    var i := NodesOf(d)[k].identity;
    var at := ParentOf(env, start, d, ids, k);
    if |i| > 1 {
      NodeInLedger(d, at);
    }
    forall m | 0 <= m < |NodesOf(d)| && NodesOf(d)[m].identity == Scope(i)
      ensures NodesOf(d)[m].identity != [] && Holds(NodesOf(d)[m].field.typ, Last(i))
    {
      NodeValid(env, start, d, ids, m);
      if |i| > 1 {
        NodePosition(env, start, d, ids, m, at);
      }
    }
  }

  lemma {:induction false} ShapeHolds(a: DataType, b: DataType, s: Segment)
    requires SameLogicalShape(a, b) && Holds(a, s)
    ensures Holds(b, s)
  {
    hide ValuesRetained;
  }

  lemma {:induction false} RetiredCoherent(
    g: Graph, md: MessageDescriptor, p: Dataset, d: Dataset, start: Ids, ids: Ids, at: nat)
    requires Step(g, md, Some(p), d, start, ids) && Coherent(p) && at < |Ledger(p)|
    ensures Rooted(Ledger(d), Ledger(p)[at]) && Matches(NodesOf(d), Ledger(p)[at])
  {
    hide Certified, ValidDataset, RetiredAfter, NodesOf, Ledger, StorageName, StartsAt, Holds, SameFieldShape;
    var e := Ledger(p)[at];
    var env := EnvOf(g, md, Some(p));
    if |e.identity| > 1 {
      assert Rooted(Ledger(p), e);
      var q :| 0 <= q < |Ledger(p)| && Ledger(p)[q].identity == Scope(e.identity);
      var k := KeptEntry(g, md, p, d, start, ids, q);
      assert Ledger(d)[k].identity == Scope(e.identity);
    }
    forall m | 0 <= m < |NodesOf(d)| && NodesOf(d)[m].identity == Scope(e.identity)
      ensures NodesOf(d)[m].identity != [] && Holds(NodesOf(d)[m].field.typ, Last(e.identity))
    {
      NodeValid(env, start, d, ids, m);
      assert Rooted(Ledger(p), e);
      var q :| 0 <= q < |Ledger(p)| && Ledger(p)[q].identity == Scope(e.identity);
      var j := WasActive(g, md, p, d, start, ids, m, q);
      StillActive(g, md, p, d, start, ids, j, m);
      assert Matches(NodesOf(p), e);
      SameTypeShape(NodesOf(p)[j].field, NodesOf(d)[m].field);
      ShapeHolds(NodesOf(p)[j].field.typ, NodesOf(d)[m].field.typ, Last(e.identity));
    }
  }

  lemma {:induction false} SameTypeShape(a: Field, b: Field)
    requires SameFieldShape(a, b)
    ensures SameLogicalShape(a.typ, b.typ)
  {
    hide SameLogicalShape;
  }

  /** An active identity that is on the previous record was active there. */
  lemma {:induction false} WasActive(
    g: Graph, md: MessageDescriptor, p: Dataset, d: Dataset, start: Ids, ids: Ids, m: nat, q: nat) returns (j: nat)
    requires Step(g, md, Some(p), d, start, ids) && m < |NodesOf(d)| && q < |Ledger(p)|
    requires Ledger(p)[q].identity == NodesOf(d)[m].identity
    ensures j < |NodesOf(p)| && NodesOf(p)[j].identity == NodesOf(d)[m].identity
  {
    hide Certified, ValidDataset, RetiredAfter, NodesOf, Ledger, StorageName, StartsAt, Active, Retired, NameOwners,
         Owners;
    var env := EnvOf(g, md, Some(p));
    ActiveIff(env, start, d, ids, NodesOf(d)[m].identity);
    if q < |p.retired| {
      RetiredInLedger(p, q);
      LedgerOf(p, md.fullName);
      RetiredAt(p, q);
      RetiredStaysInactive(env, start, d, ids, p.retired[q].identity);
      assert false;
    } else {
      j := NodeAt(p, q);
    }
  }

  /** Coherence survives every compilation. */
  lemma {:induction false} StepCoherent(
    g: Graph, md: MessageDescriptor, previous: Option<Dataset>, d: Dataset, start: Ids, ids: Ids)
    requires Step(g, md, previous, d, start, ids) && (previous.Some? ==> Coherent(previous.value))
    ensures Coherent(d)
  {
    hide Certified, ValidDataset, NodesOf, Ledger, StorageName, EnvOf, StartOf, StartsAt, Listed, Rooted, Matches,
         Dropped, SortBy;
    forall k | 0 <= k < |Ledger(d)|
      ensures Rooted(Ledger(d), Ledger(d)[k]) && Matches(NodesOf(d), Ledger(d)[k])
    {
      if k < |d.retired| {
        assert previous.Some?;
        RetiredInLedger(d, k);
        var at := RetiredOrigin(g, md, previous.value, d, start, ids, d.retired[k]);
        RetiredCoherent(g, md, previous.value, d, start, ids, at);
      } else {
        var j := NodeAt(d, k);
        ActiveCoherent(EnvOf(g, md, previous), start, d, ids, j);
      }
    }
  }

  /** A coherent history never lends a synthetic name twice. */
  lemma {:induction false} CoherentNamesFree(
    g: Graph, md: MessageDescriptor, previous: Option<Dataset>, d: Dataset, start: Ids, ids: Ids)
    requires Step(g, md, previous, d, start, ids) && Coherent(d)
    ensures NamesFree(EnvOf(g, md, previous), NodesOf(d))
  {
    hide Certified, ValidDataset, NodesOf, Ledger, StorageName, StartOf, StartsAt, Listed, Coherent, RetiredAfter,
         NameOwners, Owners, Active, Retired, FirstIds, SortedFields, NameDerived, Evolves, KeepsSource;
    forall k | 0 <= k < |NodesOf(d)|
      ensures NameFree(EnvOf(g, md, previous), NodesOf(d)[k].identity, NodesOf(d)[k].field.name)
    {
      var n := NodesOf(d)[k];
      NodeCertified(EnvOf(g, md, previous), start, d, ids, k);
      if !Last(n.identity).Number? && previous.Some? {
        var p := previous.value;
        var key := (Scope(n.identity), n.field.name);
        if key in NameOwners(Ledger(p)) {
          var j := NameEntry(Ledger(p), key);
          SyntheticOwner(g, md, p, d, start, ids, k, j);
        }
      }
    }
  }

  lemma {:induction false} SyntheticOwner(
    g: Graph, md: MessageDescriptor, p: Dataset, d: Dataset, start: Ids, ids: Ids, k: nat, j: nat)
    requires Step(g, md, Some(p), d, start, ids) && Coherent(d)
    requires k < |NodesOf(d)| && ValidIdentity(NodesOf(d)[k].identity) && !Last(NodesOf(d)[k].identity).Number?
    requires j < |Ledger(p)| && NameKey(Ledger(p)[j]) == NameKey(EntryOf(NodesOf(d)[k]))
    ensures Ledger(p)[j].identity == NodesOf(d)[k].identity
  {
    hide Certified, ValidDataset, NodesOf, Ledger, StorageName, StartsAt, RetiredAfter, EnvOf, Rooted;
    var env := EnvOf(g, md, Some(p));
    var n, e := NodesOf(d)[k], Ledger(p)[j];
    var at := ParentOf(env, start, d, ids, k);
    var f := KeptEntry(g, md, p, d, start, ids, j);
    assert Matches(NodesOf(d), Ledger(d)[f]);
    LedgerOf(p, md.fullName);
    EntrySound(p, j);
    SyntheticNamed(env, start, d, ids, k);
    SameSegment(NodesOf(d)[at].field.typ, e, EntryOf(n));
    assert n.identity == Scope(n.identity) + [Last(n.identity)];
    assert e.identity == Scope(e.identity) + [Last(e.identity)];
  }

  lemma {:induction false} SyntheticNamed(env: Env, start: Ids, d: Dataset, ids: Ids, k: nat)
    requires Certified(env, start, d, ids) && k < |NodesOf(d)|
    requires ValidIdentity(NodesOf(d)[k].identity) && !Last(NodesOf(d)[k].identity).Number?
    ensures NodesOf(d)[k].field.name == SyntheticName(Last(NodesOf(d)[k].identity))
  {
    hide Certified, NodesOf, Evolves, NameFree, KeepsSource;
    NodeCertified(env, start, d, ids, k);
  }

  lemma {:induction false} SameSegment(t: DataType, e: Entry, f: Entry)
    requires e.identity != [] && f.identity != [] && Holds(t, Last(e.identity)) && Holds(t, Last(f.identity))
    requires !Last(f.identity).Number? && OwnedName(e) && e.name == f.name && f.name == SyntheticName(Last(f.identity))
    ensures Last(e.identity) == Last(f.identity)
  {
    hide ValidIdentity, ValidName, ValidFullName, StorageName;
  }

  // ----- runs -----

  /** Each compilation takes the previous output; the first takes nothing. */
  ghost predicate Run(graphs: seq<Graph>, root: string, outputs: seq<Dataset>) {
    && |graphs| == |outputs|
    && forall k :: 0 <= k < |outputs| ==>
        WellFormed(graphs[k]) && CompileMessage(graphs[k], root, Before(outputs, k)) == Ok(outputs[k])
  }

  function Before(outputs: seq<Dataset>, k: nat): Option<Dataset>
    requires k <= |outputs|
  {
    if k == 0 then None else Some(outputs[k - 1])
  }

  lemma {:induction false} RunStep(graphs: seq<Graph>, root: string, outputs: seq<Dataset>, k: nat)
    returns (md: MessageDescriptor, start: Ids, end: State)
    requires Run(graphs, root, outputs) && k < |outputs|
    ensures k < |graphs| && Step(graphs[k], md, Before(outputs, k), outputs[k], start, end.ids) && md.fullName == root
  {
    hide CompileMessage, Step, WellFormed, BuildFields, Containers, Reserved;
    start, end := StepOf(graphs[k], root, Before(outputs, k));
    md := graphs[k][root];
  }

  /** Every output of every run passes the whole re-validation, and stays
      coherent. */
  lemma {:induction false} RunReloads(graphs: seq<Graph>, root: string, outputs: seq<Dataset>, k: nat)
    requires Run(graphs, root, outputs) && k < |outputs|
    ensures ValidDataset(outputs[k], root) && Coherent(outputs[k])
  {
    hide Run, Step, ValidDataset, Coherent, NamesFree;
    if k > 0 {
      RunReloads(graphs, root, outputs, k - 1);
    }
    var md, start, end := RunStep(graphs, root, outputs, k);
    StepCoherent(graphs[k], md, Before(outputs, k), outputs[k], start, end.ids);
    CoherentNamesFree(graphs[k], md, Before(outputs, k), outputs[k], start, end.ids);
    ReloadsIff(graphs[k], md, Before(outputs, k), outputs[k], start, end.ids);
  }

  lemma {:induction false} RunKeeps(
    graphs: seq<Graph>, root: string, outputs: seq<Dataset>, j: nat, k: nat, a: nat) returns (b: nat)
    requires Run(graphs, root, outputs) && j <= k < |outputs| && a < |Ledger(outputs[j])|
    ensures b < |Ledger(outputs[k])| && Kept(Ledger(outputs[j])[a], Ledger(outputs[k])[b])
    ensures a < |outputs[j].retired| ==> b < |outputs[k].retired| && outputs[k].retired[b] == outputs[j].retired[a]
    decreases k
  {
    hide Run, Step, Ledger;
    if j == k {
      b := a;
    } else {
      var m := RunKeeps(graphs, root, outputs, j, k - 1, a);
      var md, start, end := RunStep(graphs, root, outputs, k);
      b := KeptEntry(graphs[k], md, outputs[k - 1], outputs[k], start, end.ids, m);
    }
  }

  lemma {:induction false} SeparateIff(ledger: seq<Entry>, a: nat, b: nat)
    requires ValidLedger(ledger) && a < |ledger| && b < |ledger|
    ensures ledger[a].identity == ledger[b].identity <==> a == b
    ensures ledger[a].id == ledger[b].id <==> a == b
    ensures NameKey(ledger[a]) == NameKey(ledger[b]) <==> a == b
  {
    hide SoundEntry, NameKey;
    assert a == b || Separate(ledger[a], ledger[b]) || Separate(ledger[b], ledger[a]);
  }

  /** Over every run, at any two times: identities and stable ids determine each
      other, and so do identities and scoped storage names.  An identity keeps
      its id, its storage name and its source for life. */
  lemma {:induction false} IdentityForLife(
    graphs: seq<Graph>, root: string, outputs: seq<Dataset>, j: nat, k: nat, a: nat, b: nat)
    requires Run(graphs, root, outputs) && j <= k < |outputs| && a < |Ledger(outputs[j])| && b < |Ledger(outputs[k])|
    ensures var e, f := Ledger(outputs[j])[a], Ledger(outputs[k])[b];
            && (e.identity == f.identity <==> e.id == f.id)
            && (e.identity == f.identity <==> NameKey(e) == NameKey(f))
            && (e.identity == f.identity ==> Kept(e, f))
  {
    hide Run, Ledger, ValidDataset, ValidLedger, Coherent;
    var m := RunKeeps(graphs, root, outputs, j, k, a);
    RunReloads(graphs, root, outputs, k);
    LedgerOf(outputs[k], root);
    SeparateIff(Ledger(outputs[k]), m, b);
  }

  /** A retired identity stays on record unchanged and is never active again. */
  lemma {:induction false} RetiredForLife(
    graphs: seq<Graph>, root: string, outputs: seq<Dataset>, j: nat, k: nat, a: nat)
    requires Run(graphs, root, outputs) && j <= k < |outputs| && a < |outputs[j].retired|
    ensures outputs[j].retired[a] in outputs[k].retired
    ensures forall n :: n in NodesOf(outputs[k]) ==> n.identity != outputs[j].retired[a].identity
  {
    hide Run, Ledger, ValidDataset, ValidLedger, Coherent, NodesOf;
    RetiredInLedger(outputs[j], a);
    var b := RunKeeps(graphs, root, outputs, j, k, a);
    RunReloads(graphs, root, outputs, k);
    LedgerOf(outputs[k], root);
    RetiredInLedger(outputs[k], b);
    forall n | n in NodesOf(outputs[k])
      ensures n.identity != outputs[j].retired[a].identity
    {
      var m :| 0 <= m < |NodesOf(outputs[k])| && NodesOf(outputs[k])[m] == n;
      NodeInLedger(outputs[k], m);
      SeparateIff(Ledger(outputs[k]), b, |outputs[k].retired| + m);
    }
  }

  // ----- shapes -----

  lemma {:induction false} ValuesTransitive(a: seq<EnumValue>, b: seq<EnumValue>, c: seq<EnumValue>)
    requires ValuesRetained(a, b) && ValuesRetained(b, c)
    ensures ValuesRetained(a, c)
  {
    forall k | 0 <= k < |a|
      ensures ValueRetained(a[k], c)
    {
      assert ValueRetained(a[k], b);
      var j :| 0 <= j < |b| && SameEnumValue(a[k], b[j]);
      assert ValueRetained(b[j], c);
      var i :| 0 <= i < |c| && SameEnumValue(b[j], c[i]);
      assert SameEnumValue(a[k], c[i]);
    }
  }

  lemma {:induction false} ShapeTransitive(a: Field, b: Field, c: Field)
    requires SameFieldShape(a, b) && SameFieldShape(b, c)
    ensures SameFieldShape(a, c)
  {
    hide ValuesRetained;
    if a.typ.Enum? {
      ValuesTransitive(a.typ.values, b.typ.values, c.typ.values);
    }
  }

  lemma {:induction false} ShapeReflexive(f: Field)
    requires !f.typ.Kindless?
    ensures SameFieldShape(f, f)
  {
    hide ValuesRetained;
    if f.typ.Enum? {
      ValuesReflexive(f.typ.values);
    }
  }

  lemma {:induction false} RunHasKinds(graphs: seq<Graph>, root: string, outputs: seq<Dataset>, k: nat, m: nat)
    requires Run(graphs, root, outputs) && k < |outputs| && m < |NodesOf(outputs[k])|
    ensures !NodesOf(outputs[k])[m].field.typ.Kindless?
  {
    hide Run, Certified, NodesOf, RetiredAfter, ValidDataset, NameDerived, Evolves, NameFree, KeepsSource, StorageName;
    var md, start, end := RunStep(graphs, root, outputs, k);
    NodeCertified(EnvOf(graphs[k], md, Before(outputs, k)), start, outputs[k], end.ids, m);
  }

  lemma {:induction false} ValuesReflexive(values: seq<EnumValue>)
    ensures ValuesRetained(values, values)
  {
    forall k | 0 <= k < |values|
      ensures ValueRetained(values[k], values)
    {
      assert SameEnumValue(values[k], values[k]);
    }
  }

  /** While it is active an identity keeps its presence, oneof, default and
      logical shape, across any number of compilations; enums only grow. */
  lemma {:induction false} ShapeForLife(
    graphs: seq<Graph>, root: string, outputs: seq<Dataset>, j: nat, k: nat, m: nat, n: nat)
    requires Run(graphs, root, outputs) && j <= k < |outputs|
    requires m < |NodesOf(outputs[j])| && n < |NodesOf(outputs[k])|
    requires NodesOf(outputs[j])[m].identity == NodesOf(outputs[k])[n].identity
    ensures SameFieldShape(NodesOf(outputs[j])[m].field, NodesOf(outputs[k])[n].field)
    decreases k
  {
    hide Run, Step, Ledger, ValidDataset, ValidLedger, Coherent, NodesOf, SameFieldShape;
    NodeInLedger(outputs[j], m);
    RunReloads(graphs, root, outputs, j);
    LedgerOf(outputs[j], root);
    if j == k {
      NodeInLedger(outputs[k], n);
      SeparateIff(Ledger(outputs[j]), |outputs[j].retired| + m, |outputs[k].retired| + n);
      RunHasKinds(graphs, root, outputs, j, m);
      ShapeReflexive(NodesOf(outputs[j])[m].field);
    } else {
      var md, start, end := RunStep(graphs, root, outputs, k);
      var q := RunKeeps(graphs, root, outputs, j, k - 1, |outputs[j].retired| + m);
      var i := WasActive(graphs[k], md, outputs[k - 1], outputs[k], start, end.ids, n, q);
      ShapeForLife(graphs, root, outputs, j, k - 1, m, i);
      StepShape(graphs[k], md, outputs[k - 1], outputs[k], start, end.ids, i, n);
      ShapeTransitive(NodesOf(outputs[j])[m].field, NodesOf(outputs[k - 1])[i].field, NodesOf(outputs[k])[n].field);
    }
  }

  lemma {:induction false} StepShape(
    g: Graph, md: MessageDescriptor, p: Dataset, d: Dataset, start: Ids, ids: Ids, j: nat, k: nat)
    requires Step(g, md, Some(p), d, start, ids)
    requires j < |NodesOf(p)| && k < |NodesOf(d)| && NodesOf(p)[j].identity == NodesOf(d)[k].identity
    ensures SameFieldShape(NodesOf(p)[j].field, NodesOf(d)[k].field)
  {
    hide Certified, ValidDataset, RetiredAfter, NodesOf, StorageName, StartsAt, EnvOf, SameFieldShape;
    StillActive(g, md, p, d, start, ids, j, k);
  }
}
