/** One compilation against a previous dataset: what it keeps and when its
    output can be loaded again. */
module SchemaEvolution {

  import opened LogicalSchema
  import opened ProtoDescriptors
  import opened ProtoNames
  import opened Results
  import opened SchemaAgreement
  import opened SchemaAllocation
  import opened SchemaCompiler
  import opened SchemaFacts
  import opened SchemaIdentity
  import opened SchemaIndex
  import opened SchemaLedger
  import opened SchemaReference
  import opened SchemaThreading
  import opened Sorting
  /** Everything a successful compilation established about its output. */
  ghost predicate Certified(env: Env, start: Ids, d: Dataset, ids: Ids) {
    && Backed(env, start) && start.active == map[]
    && AllocateAll(env, start, Identities(NodesOf(d))) == Ok(ids)
    && NodesOk(env, ids.active, NodesOf(d))
    && AllPlaced(d.fields, []) && AllTidy(d.fields)
    && d.lastFieldId == ids.last
  }

  lemma {:induction false} StartBacked(g: Graph, md: MessageDescriptor, previous: Option<Dataset>)
    requires previous.Some? ==> ValidDataset(previous.value, md.fullName)
    ensures Backed(EnvOf(g, md, previous), StartOf(md, previous).ids) && SoundSources(EnvOf(g, md, previous))
  {
    hide ValidDataset, Backed, SoundSources, IndexOf, Ledger, Owners, FirstIds, FirstOwners, HighestNumber,
         SortedFields;
    match previous
    case None =>
      FirstBacked(g, md);
      NothingKnown(g, md);
    case Some(d) =>
      LastIdInRange(d, md.fullName);
      ReloadedBacked(g, d, md.fullName, StartOf(md, previous).ids);
      SourcesSound(g, d, md.fullName);
  }

  lemma {:induction false} NothingKnown(g: Graph, md: MessageDescriptor)
    ensures SoundSources(EnvOf(g, md, None))
  {
    hide FirstIds;
  }

  lemma {:induction false} LastIdInRange(d: Dataset, message: string)
    requires ValidDataset(d, message)
    ensures 0 <= d.lastFieldId <= MAX_STABLE_ID
  {
    hide AllPlaced, ValidLedger, Ledger, Highest, StorageName;
  }

  lemma {:induction false} Certify(g: Graph, root: string, previous: Option<Dataset>) returns (end: State)
    requires WellFormed(g) && CompileMessage(g, root, previous).Ok?
    ensures root in g && (previous.Some? ==> ValidDataset(previous.value, root))
    ensures previous.Some? ==> 0 <= previous.value.lastFieldId <= MAX_STABLE_ID
    ensures var d := CompileMessage(g, root, previous).value;
            var md := g[root];
            && Certified(EnvOf(g, md, previous), StartOf(md, previous).ids, d, end.ids)
            && BuildFields(EnvOf(g, md, previous), end.ids.active, md, SortedFields(md), [], [], {root}) == Ok(d.fields)
            && end.containers == map[[] := md] + Containers(g, NodesOf(d))
            && d.retired == RetiredAfter(previous, end.ids.active)
            && (forall k :: 0 <= k < |d.retired| ==> Reserved(end.containers, d.retired[k]))
            && d.sourceMessage == root && d.name == StorageName(root) && d.description == md.comment
  {
    hide ValidDataset, EnvOf, CompileFields, BuildFields, Certified, StorageName, DistinctNames, RetiredAfter, Reserved,
         SortedFields, Containers, Nodes, AllocateAll, WellFormedMessage;
    var md := g[root];
    assert md.fullName == root;
    if previous.Some? {
      LastIdInRange(previous.value, root);
    }
    var env, start := EnvOf(g, md, previous), StartOf(md, previous);
    var r := CompileFields(env, start, md, SortedFields(md), [], [], {root}).value;
    end := r.state;
    FieldsThread(env, start, md, SortedFields(md), [], [], {root});
    GraphOf(g, md, previous);
    CoversItself(end.ids);
    FieldsBuilt(env, start, end.ids.active, md, SortedFields(md), [], [], {root});
    StartBacked(g, md, previous);
    CertifyBuilt(env, start.ids, md, CompileMessage(g, root, previous).value, end.ids, {root});
  }

  lemma {:induction false} GraphOf(g: Graph, md: MessageDescriptor, previous: Option<Dataset>)
    ensures EnvOf(g, md, previous).graph == g
  {
    hide FirstIds, IndexOf;
  }

  lemma {:induction false} CoversItself(s: Ids)
    ensures Covers(s.active, s)
  {
  }

  lemma {:induction false} CertifyBuilt(
    env: Env, start: Ids, md: MessageDescriptor, d: Dataset, ids: Ids, stack: set<string>)
    requires WellFormed(env.graph) && WellFormedMessage(md) && Backed(env, start) && SoundSources(env)
    requires start.active == map[]
    requires BuildFields(env, ids.active, md, SortedFields(md), [], [], stack) == Ok(d.fields)
    requires AllocateAll(env, start, Identities(NodesOf(d))) == Ok(ids)
    requires DistinctNames(d.fields) && d.lastFieldId == ids.last
    ensures Certified(env, start, d, ids)
  {
    hide Backed, SoundSources, BuildFields, AllocateAll, WellFormed, WellFormedMessage, DistinctNames, SortedFields,
         NodesOk, AllPlaced, Nodes, TypeTidy;
    FullNameValid(md);
    SortedPlain(md);
    SortedDistinct(md);
    FieldsPlaced(env, ids.active, md, SortedFields(md), [], [], stack);
    FieldsOk(env, ids.active, md, SortedFields(md), [], [], stack);
  }

  /** What the allocator did over the whole compilation. */
  lemma {:induction false} CertifiedIds(env: Env, start: Ids, d: Dataset, ids: Ids)
    requires Certified(env, start, d, ids)
    ensures Backed(env, ids) && Grown(start, ids, Identities(NodesOf(d)))
    ensures Fresh(env, start, Identities(NodesOf(d)))
  {
    hide Backed, Grown, Fresh, AllocateAll, NodesOk, AllPlaced, AllTidy, NodesOf;
    AllocateAllExact(env, start, Identities(NodesOf(d)));
  }

  lemma {:induction false} NodeCertified(env: Env, start: Ids, d: Dataset, ids: Ids, k: nat)
    requires Certified(env, start, d, ids) && k < |NodesOf(d)|
    ensures NodeOk(env, ids.active, NodesOf(d)[k])
  {
    hide Backed, AllocateAll, AllPlaced, AllTidy, NodesOf, NodeOk;
  }

  /** Exactly the compiled identities are active. */
  lemma {:induction false} ActiveIff(env: Env, start: Ids, d: Dataset, ids: Ids, i: Identity)
    requires Certified(env, start, d, ids)
    ensures i in ids.active <==> exists k :: 0 <= k < |NodesOf(d)| && NodesOf(d)[k].identity == i
  {
    hide Backed, Fresh, Certified, NodesOf;
    CertifiedIds(env, start, d, ids);
    var all := Identities(NodesOf(d));
    if i in ids.active {
      assert i in all by { NoneActiveBefore(env, start, d, ids); }
      var k :| 0 <= k < |all| && all[k] == i;
      assert NodesOf(d)[k].identity == i;
    }
    if exists k :: 0 <= k < |NodesOf(d)| && NodesOf(d)[k].identity == i {
      var k :| 0 <= k < |NodesOf(d)| && NodesOf(d)[k].identity == i;
      assert all[k] == i;
    }
  }

  lemma {:induction false} NoneActiveBefore(env: Env, start: Ids, d: Dataset, ids: Ids)
    requires Certified(env, start, d, ids)
    ensures start.active == map[]
  {
    hide Backed, AllocateAll, NodesOk, AllPlaced, AllTidy, NodesOf;
  }

  // ----- what is retired -----

  lemma {:induction false} DroppedMember(nodes: seq<Node>, active: map<Identity, int32>, k: nat)
    requires k < |nodes| && nodes[k].identity !in active
    ensures EntryOf(nodes[k]) in Dropped(nodes, active)
  {
    if k < |nodes| - 1 {
      DroppedMember(nodes[..|nodes| - 1], active, k);
    }
  }

  lemma {:induction false} DroppedSource(nodes: seq<Node>, active: map<Identity, int32>, e: Entry) returns (k: nat)
    requires e in Dropped(nodes, active)
    ensures k < |nodes| && EntryOf(nodes[k]) == e && e.identity !in active
  {
    var last := nodes[|nodes| - 1];
    if last.identity !in active && e == EntryOf(last) {
      k := |nodes| - 1;
    } else {
      k := DroppedSource(nodes[..|nodes| - 1], active, e);
    }
  }

  lemma {:induction false} RetiredIff(p: Dataset, active: map<Identity, int32>, e: Entry)
    ensures e in RetiredAfter(Some(p), active) <==> e in p.retired || e in Dropped(NodesOf(p), active)
  {
    hide Dropped, Nodes, SortBy;
    SortByMembers(p.retired + Dropped(NodesOf(p), active), IdOf);
  }

  /** Every retired field was on record before and is not active now. */
  lemma {:induction false} RetiredOrigin(
    g: Graph, md: MessageDescriptor, p: Dataset, d: Dataset, start: Ids, ids: Ids, e: Entry)
    returns (k: nat)
    requires ValidDataset(p, md.fullName) && Certified(EnvOf(g, md, Some(p)), start, d, ids)
    requires e in RetiredAfter(Some(p), ids.active)
    ensures k < |Ledger(p)| && Ledger(p)[k] == e && e.identity !in ids.active
  {
    hide Certified, ValidDataset, Nodes, Dropped, RetiredAfter, Ledger;
    RetiredIff(p, ids.active, e);
    if e in Dropped(NodesOf(p), ids.active) {
      var j := DroppedSource(NodesOf(p), ids.active, e);
      NodeInLedger(p, j);
      k := |p.retired| + j;
    } else {
      k :| 0 <= k < |p.retired| && p.retired[k] == e;
      RetiredInLedger(p, k);
      LedgerOf(p, md.fullName);
      RetiredAt(p, k);
      RetiredStaysInactive(EnvOf(g, md, Some(p)), start, d, ids, e.identity);
    }
  }

  lemma {:induction false} LedgerOf(d: Dataset, message: string)
    requires ValidDataset(d, message)
    ensures ValidLedger(Ledger(d))
  {
    hide AllPlaced, ValidLedger, Ledger, Highest, StorageName;
  }

  lemma {:induction false} RetiredStaysInactive(env: Env, start: Ids, d: Dataset, ids: Ids, i: Identity)
    requires Certified(env, start, d, ids) && i in env.index.retired
    ensures i !in ids.active
  {
    hide Backed, Certified, NodesOf;
    CertifiedIds(env, start, d, ids);
    ActiveIff(env, start, d, ids, i);
    forall k | 0 <= k < |NodesOf(d)|
      ensures NodesOf(d)[k].identity != i
    {
      assert Identities(NodesOf(d))[k] == NodesOf(d)[k].identity;
    }
  }

  // ----- what is kept -----

  /** One identity at two times: same id, same storage name, same source. */
  predicate Kept(a: Entry, b: Entry) {
    a.identity == b.identity && a.id == b.id && a.name == b.name && a.source == b.source
  }

  /** An identity that is compiled again keeps its entry. */
  lemma {:induction false} StillActive(
    g: Graph, md: MessageDescriptor, p: Dataset, d: Dataset, start: Ids, ids: Ids, j: nat, k: nat)
    requires ValidDataset(p, md.fullName) && Certified(EnvOf(g, md, Some(p)), start, d, ids)
    requires j < |NodesOf(p)| && k < |NodesOf(d)| && NodesOf(p)[j].identity == NodesOf(d)[k].identity
    ensures Kept(EntryOf(NodesOf(p)[j]), EntryOf(NodesOf(d)[k]))
    ensures SameFieldShape(NodesOf(p)[j].field, NodesOf(d)[k].field)
  {
    hide Certified, ValidDataset, NodesOf, IndexOf, Ledger, ValidLedger, SameFieldShape, StorageName, ValidName,
         ValidFullName, NameFree, Backed;
    var env := EnvOf(g, md, Some(p));
    var m, n := NodesOf(p)[j], NodesOf(d)[k];
    LedgerOf(p, md.fullName);
    ActiveAt(p, j);
    NodeCertified(env, start, d, ids, k);
    NodeInLedger(p, j);
    EntrySound(p, |p.retired| + j);
    FixedIdKept(env, start, d, ids, k);
  }

  lemma {:induction false} EntrySound(d: Dataset, k: nat)
    requires ValidLedger(Ledger(d)) && k < |Ledger(d)|
    ensures SoundEntry(Ledger(d)[k])
  {
    hide SoundEntry, Ledger, Separate;
  }

  /** The id of a known identity is the one on record. */
  lemma {:induction false} FixedIdKept(env: Env, start: Ids, d: Dataset, ids: Ids, k: nat)
    requires Certified(env, start, d, ids) && k < |NodesOf(d)| && NodesOf(d)[k].identity in env.index.active
    ensures var i := NodesOf(d)[k].identity; i in ids.active && ids.active[i] == env.index.active[i].stableId
  {
    hide Backed, AllocateAll, NodesOf, NodesOk, AllPlaced, AllTidy, Fresh, CountNew;
    var all := Identities(NodesOf(d));
    AllocateAllExact(env, start, all);
    assert ids.active[all[k]] == IdAt(env, start, all, k);
    assert all[k] in all;
  }
}
