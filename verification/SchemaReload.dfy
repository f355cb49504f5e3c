/** Loading a compiled dataset again. */
module SchemaReload {

  import opened LogicalSchema
  import opened ProtoDescriptors
  import opened ProtoNames
  import opened Results
  import opened SchemaAllocation
  import opened SchemaCompiler
  import opened SchemaEvolution
  import opened SchemaFacts
  import opened SchemaIdentity
  import opened SchemaIndex
  import opened SchemaLedger
  import opened SchemaReference
  import opened SchemaTree
  import opened Sorting
  /** One successful compilation, seen from the outside. */
  ghost predicate Step(g: Graph, md: MessageDescriptor, previous: Option<Dataset>, d: Dataset, start: Ids, ids: Ids) {
    && (previous.Some? ==> ValidDataset(previous.value, md.fullName))
    && (previous.Some? ==> StartsAt(start, previous.value))
    && (previous.None? ==> start == StartOf(md, None).ids)
    && Certified(EnvOf(g, md, previous), start, d, ids)
    && d.retired == RetiredAfter(previous, ids.active)
    && d.sourceMessage == md.fullName && d.name == StorageName(md.fullName)
    && (previous.None? ==> Listed(md, d))
  }

  /** The top-level fields are the message's own. */
  predicate Listed(md: MessageDescriptor, d: Dataset) {
    && |d.fields| == |SortedFields(md)|
    && forall k :: 0 <= k < |d.fields| ==> SegmentOf(d.fields[k]) == Number(SortedFields(md)[k].number)
  }

  lemma {:induction false} StepOf(g: Graph, root: string, previous: Option<Dataset>) returns (start: Ids, end: State)
    requires WellFormed(g) && CompileMessage(g, root, previous).Ok?
    ensures root in g && Step(g, g[root], previous, CompileMessage(g, root, previous).value, start, end.ids)
    ensures var d := CompileMessage(g, root, previous).value;
            var md := g[root];
            && md.fullName == root
            && BuildFields(EnvOf(g, md, previous), end.ids.active, md, SortedFields(md), [], [], {root}) == Ok(d.fields)
            && end.containers == map[[] := md] + Containers(g, NodesOf(d))
            && (forall k :: 0 <= k < |d.retired| ==> Reserved(end.containers, d.retired[k]))
            && d.description == md.comment
  {
    hide CompileMessage, Certified, ValidDataset, EnvOf, BuildFields, RetiredAfter, Reserved, SortedFields, Containers,
         NodesOf, WellFormedMessage, Ledger, Owners, StorageName, FirstOwners, HighestNumber;
    end := Certify(g, root, previous);
    var md := g[root];
    start := StartOf(md, previous).ids;
    GraphOf(g, md, previous);
    FieldsPlaced(EnvOf(g, md, previous), end.ids.active, md, SortedFields(md), [], [], {root});
  }

  // ----- nothing on record is lost -----

  lemma {:induction false} RetiredKept(p: Dataset, d: Dataset, ids: Ids, e: Entry) returns (k: nat)
    requires d.retired == RetiredAfter(Some(p), ids.active) && (e in p.retired || e in Dropped(NodesOf(p), ids.active))
    ensures k < |d.retired| && d.retired[k] == e && k < |Ledger(d)| && Ledger(d)[k] == e
  {
    hide RetiredAfter, Dropped, NodesOf, Ledger;
    RetiredIff(p, ids.active, e);
    k :| 0 <= k < |d.retired| && d.retired[k] == e;
    RetiredInLedger(d, k);
  }

  lemma {:induction false} KeptEntry(
    g: Graph, md: MessageDescriptor, p: Dataset, d: Dataset, start: Ids, ids: Ids, j: nat)
    returns (k: nat)
    requires Step(g, md, Some(p), d, start, ids) && j < |Ledger(p)|
    ensures k < |Ledger(d)| && Kept(Ledger(p)[j], Ledger(d)[k])
    ensures j < |p.retired| ==> k < |d.retired| && d.retired[k] == p.retired[j]
  {
    hide Certified, ValidDataset, RetiredAfter, Dropped, NodesOf, Ledger, StorageName, EnvOf, StartsAt;
    if j < |p.retired| {
      RetiredInLedger(p, j);
      k := RetiredKept(p, d, ids, p.retired[j]);
    } else {
      var at := NodeAt(p, j);
      var i := NodesOf(p)[at].identity;
      ActiveIff(EnvOf(g, md, Some(p)), start, d, ids, i);
      if i in ids.active {
        var m :| 0 <= m < |NodesOf(d)| && NodesOf(d)[m].identity == i;
        StillActive(g, md, p, d, start, ids, at, m);
        NodeInLedger(d, m);
        k := |d.retired| + m;
      } else {
        DroppedMember(NodesOf(p), ids.active, at);
        k := RetiredKept(p, d, ids, EntryOf(NodesOf(p)[at]));
      }
    }
  }

  lemma {:induction false} NodeAt(d: Dataset, j: nat) returns (k: nat)
    requires |d.retired| <= j < |Ledger(d)|
    ensures k < |NodesOf(d)| && j == |d.retired| + k && Ledger(d)[j] == EntryOf(NodesOf(d)[k])
  {
    hide NodesOf;
    k := j - |d.retired|;
  }

  // ----- the new ledger -----

  /** No active name was ever given to another identity of the same scope. */
  predicate NamesFree(env: Env, nodes: seq<Node>) {
    forall k :: 0 <= k < |nodes| ==> NameFree(env, nodes[k].identity, nodes[k].field.name)
  }

  lemma {:induction false} ActiveSound(env: Env, start: Ids, d: Dataset, ids: Ids, k: nat)
    requires Certified(env, start, d, ids) && k < |NodesOf(d)|
    ensures SoundEntry(EntryOf(NodesOf(d)[k]))
    ensures OwnedBy(ids.owners, NodesOf(d)[k].field.stableId, NodesOf(d)[k].identity)
  {
    hide AllocateAll, NodesOf, NodesOk, AllPlaced, Fresh, Grown, Certified, Evolves, NameFree, ValidName, ValidFullName,
         StorageName;
    CertifiedIds(env, start, d, ids);
    NodeCertified(env, start, d, ids, k);
    NamesApartOf(env, start, d, ids);
    FullNameNonEmpty(EntryOf(NodesOf(d)[k]));
  }

  lemma {:induction false} FullNameNonEmpty(e: Entry)
    requires e.identity != [] && NameDerived(e)
    ensures e.fullName != ""
  {
    hide StorageName;
  }

  lemma {:induction false} NamesApartOf(env: Env, start: Ids, d: Dataset, ids: Ids)
    requires Certified(env, start, d, ids)
    ensures NamesApart(NodesOf(d))
  {
    hide AllocateAll, NodesOk, AllPlaced, AllTidy, Backed, Nodes;
    FieldsApart(d.fields, []);
  }

  lemma {:induction false} ActivePair(env: Env, start: Ids, d: Dataset, ids: Ids, j: nat, k: nat)
    requires Certified(env, start, d, ids) && j < k < |NodesOf(d)|
    ensures Separate(EntryOf(NodesOf(d)[j]), EntryOf(NodesOf(d)[k]))
  {
    hide AllocateAll, NodesOf, NodesOk, AllPlaced, Grown, Certified, SoundEntry, NameKey;
    CertifiedIds(env, start, d, ids);
    var all := Identities(NodesOf(d));
    assert all[j] != all[k];
    ActiveSound(env, start, d, ids, j);
    ActiveSound(env, start, d, ids, k);
    NamesApartOf(env, start, d, ids);
  }

  lemma {:induction false} RetiredPair(p: Dataset, active: map<Identity, int32>, j: nat, k: nat)
    requires ValidLedger(Ledger(p)) && j < k < |RetiredAfter(Some(p), active)|
    ensures Separate(RetiredAfter(Some(p), active)[j], RetiredAfter(Some(p), active)[k])
  {
    hide Dropped, NodesOf, SortBy, Ledger, SoundEntry, NameKey;
    var all := p.retired + Dropped(NodesOf(p), active);
    RetiredIdsApart(p, active);
    SortKeepsDistinct(all, IdOf);
    var a, b := SortBy(all, IdOf)[j], SortBy(all, IdOf)[k];
    SortedMember(all, IdOf, j);
    SortedMember(all, IdOf, k);
    var m := OnRecord(p, active, a);
    var n := OnRecord(p, active, b);
    assert Separate(Ledger(p)[m], Ledger(p)[n]) || Separate(Ledger(p)[n], Ledger(p)[m]);
  }

  lemma {:induction false} OnRecord(p: Dataset, active: map<Identity, int32>, e: Entry) returns (k: nat)
    requires e in p.retired + Dropped(NodesOf(p), active)
    ensures k < |Ledger(p)| && Ledger(p)[k] == e
  {
    hide Dropped, NodesOf, Ledger;
    if e in p.retired {
      k :| 0 <= k < |p.retired| && p.retired[k] == e;
      RetiredInLedger(p, k);
    } else {
      var j := DroppedSource(NodesOf(p), active, e);
      NodeInLedger(p, j);
      k := |p.retired| + j;
    }
  }

  lemma {:induction false} DroppedApart(nodes: seq<Node>, active: map<Identity, int32>)
    requires Apart(Entries(nodes), IdOf)
    ensures Apart(Dropped(nodes, active), IdOf)
  {
    if nodes != [] {
      var init, last := nodes[..|nodes| - 1], nodes[|nodes| - 1];
      assert Apart(Entries(init), IdOf) by { EntriesInit(nodes); }
      DroppedApart(init, active);
      var rest := Dropped(init, active);
      forall k | 0 <= k < |rest|
        ensures rest[k].id != EntryOf(last).id
      {
        var j := DroppedSource(init, active, rest[k]);
        assert Entries(nodes)[j].id != Entries(nodes)[|nodes| - 1].id;
      }
    }
  }

  lemma {:induction false} EntriesInit(nodes: seq<Node>)
    requires nodes != [] && Apart(Entries(nodes), IdOf)
    ensures Apart(Entries(nodes[..|nodes| - 1]), IdOf)
  {
    var init := Entries(nodes[..|nodes| - 1]);
    forall j, k | 0 <= j < k < |init|
      ensures IdOf(init[j]) != IdOf(init[k])
    {
      assert IdOf(Entries(nodes)[j]) != IdOf(Entries(nodes)[k]);
    }
  }

  lemma {:induction false} RetiredIdsApart(p: Dataset, active: map<Identity, int32>)
    requires ValidLedger(Ledger(p))
    ensures Apart(p.retired + Dropped(NodesOf(p), active), IdOf)
  {
    hide Dropped, NodesOf, SoundEntry, NameKey;
    var entries := Entries(NodesOf(p));
    var dropped := Dropped(NodesOf(p), active);
    forall j, k | 0 <= j < k < |entries|
      ensures IdOf(entries[j]) != IdOf(entries[k])
    {
      assert Separate(Ledger(p)[|p.retired| + j], Ledger(p)[|p.retired| + k]);
    }
    DroppedApart(NodesOf(p), active);
    forall j, k | 0 <= j < |p.retired| && 0 <= k < |dropped|
      ensures p.retired[j].id != dropped[k].id
    {
      var m := DroppedSource(NodesOf(p), active, dropped[k]);
      assert Separate(Ledger(p)[j], Ledger(p)[|p.retired| + m]);
    }
    forall j, k | 0 <= j < k < |p.retired|
      ensures p.retired[j].id != p.retired[k].id
    {
      assert Separate(Ledger(p)[j], Ledger(p)[k]);
    }
  }

  lemma {:induction false} MixedPair(
    g: Graph, md: MessageDescriptor, p: Dataset, d: Dataset, start: Ids, ids: Ids, j: nat, k: nat)
    requires Step(g, md, Some(p), d, start, ids) && j < |d.retired| && k < |NodesOf(d)|
    requires NamesFree(EnvOf(g, md, Some(p)), NodesOf(d))
    ensures Separate(d.retired[j], EntryOf(NodesOf(d)[k]))
    ensures SoundEntry(d.retired[j])
  {
    hide Certified, ValidDataset, RetiredAfter, NodesOf, Ledger, StorageName, NameOwners, Owners, SoundEntry,
         ValidLedger, Active, Retired, Backed, Grown, NameKey;
    var env := EnvOf(g, md, Some(p));
    var e, n := d.retired[j], NodesOf(d)[k];
    var at := RetiredOrigin(g, md, p, d, start, ids, e);
    LedgerOf(p, md.fullName);
    EntrySound(p, at);
    NamesAt(Ledger(p), at);
    OwnersAt(Ledger(p), at);
    ActiveIff(env, start, d, ids, n.identity);
    CertifiedIds(env, start, d, ids);
    GrownOwner(start, ids, Identities(NodesOf(d)), e.id);
    ActiveSound(env, start, d, ids, k);
    NameKeyOf(EntryOf(n));
    assert NameFree(env, n.identity, n.field.name);
  }

  lemma {:induction false} GrownOwner(s: Ids, r: Ids, identities: seq<Identity>, id: int)
    requires Grown(s, r, identities) && id in s.owners
    ensures OwnedBy(r.owners, id, s.owners[id])
  {
  }

  lemma {:induction false} NameKeyOf(e: Entry)
    ensures NameKey(e) == (Scope(e.identity), e.name)
  {
  }

  // ----- the last id -----

  lemma {:induction false} OwnerListed(
    g: Graph, md: MessageDescriptor, previous: Option<Dataset>, d: Dataset, start: Ids, ids: Ids, id: int)
    returns (k: nat)
    requires Step(g, md, previous, d, start, ids) && id in ids.owners
    ensures k < |Ledger(d)| && Ledger(d)[k].id == id
  {
    hide Certified, ValidDataset, RetiredAfter, NodesOf, Ledger, StorageName, Owners, EnvOf, StartOf, Backed, Listed;
    CertifiedIds(EnvOf(g, md, previous), start, d, ids);
    if id !in start.owners {
      k := NewOwnerListed(EnvOf(g, md, previous), start, d, ids, id);
    } else if previous.Some? {
      var j := OwnerEntry(Ledger(previous.value), id);
      k := KeptEntry(g, md, previous.value, d, start, ids, j);
    } else {
      k := FirstOwnerListed(g, md, d, start, ids, id);
    }
  }

  lemma {:induction false} NewOwnerListed(env: Env, start: Ids, d: Dataset, ids: Ids, id: int) returns (k: nat)
    requires Certified(env, start, d, ids) && id in ids.owners && id !in start.owners
    ensures k < |Ledger(d)| && Ledger(d)[k].id == id
  {
    hide Certified, NodesOf, Ledger, Backed, Fresh;
    CertifiedIds(env, start, d, ids);
    var i := ids.owners[id];
    k := ActiveListed(env, start, d, ids, i);
  }

  lemma {:induction false} ActiveListed(env: Env, start: Ids, d: Dataset, ids: Ids, i: Identity) returns (k: nat)
    requires Certified(env, start, d, ids) && i in ids.active
    ensures k < |Ledger(d)| && Ledger(d)[k].id == ids.active[i]
  {
    hide Certified, NodesOf, Ledger, NameDerived, Evolves, NameFree, KeepsSource, ValidIdentity;
    ActiveIff(env, start, d, ids, i);
    var j :| 0 <= j < |NodesOf(d)| && NodesOf(d)[j].identity == i;
    NodeCertified(env, start, d, ids, j);
    NodeInLedger(d, j);
    k := |d.retired| + j;
  }

  lemma {:induction false} FirstOwnerListed(g: Graph, md: MessageDescriptor, d: Dataset, start: Ids, ids: Ids, id: int)
    returns (k: nat)
    requires Step(g, md, None, d, start, ids) && id in start.owners
    ensures k < |Ledger(d)| && Ledger(d)[k].id == id
  {
    hide Certified, RetiredAfter, Ledger, StorageName, FirstOwners, FirstIds, HighestNumber, SortedFields, NodesOf,
         Backed;
    var env := EnvOf(g, md, None);
    var fds := SortedFields(md);
    FirstOwned(fds);
    var j :| 0 <= j < |fds| && fds[j].number == id;
    var i := [Number(fds[j].number)];
    TopNode(d, j);
    ActiveIff(env, start, d, ids, i);
    var at :| 0 <= at < |NodesOf(d)| && NodesOf(d)[at].identity == i;
    FirstIdKept(env, start, d, ids, at);
    k := ActiveListed(env, start, d, ids, i);
  }

  lemma {:induction false} TopNode(d: Dataset, j: nat)
    requires j < |d.fields|
    ensures exists k :: 0 <= k < |NodesOf(d)| && NodesOf(d)[k].identity == [SegmentOf(d.fields[j])]
  {
    hide FieldNodes;
    RootNode(d.fields[j], []);
    var n := Node([] + [SegmentOf(d.fields[j])], d.fields[j]);
    BranchNode(d.fields, [], j, n);
    var k :| 0 <= k < |NodesOf(d)| && NodesOf(d)[k] == n;
    assert NodesOf(d)[k].identity == [SegmentOf(d.fields[j])];
  }

  lemma {:induction false} FirstIdKept(env: Env, start: Ids, d: Dataset, ids: Ids, k: nat)
    requires Certified(env, start, d, ids) && k < |NodesOf(d)|
    requires NodesOf(d)[k].identity !in env.index.active && NodesOf(d)[k].identity in env.first
    ensures var i := NodesOf(d)[k].identity; i in ids.active && ids.active[i] == env.first[i]
  {
    hide Backed, AllocateAll, NodesOf, NodesOk, AllPlaced, AllTidy, Fresh, CountNew;
    var all := Identities(NodesOf(d));
    AllocateAllExact(env, start, all);
    assert ids.active[all[k]] == IdAt(env, start, all, k);
    assert all[k] in all;
  }

  lemma {:induction false} HighestIs(ledger: seq<Entry>, last: int)
    requires last >= 0
    requires forall k :: 0 <= k < |ledger| ==> ledger[k].id <= last
    requires last > 0 ==> exists k :: 0 <= k < |ledger| && ledger[k].id == last
    ensures Highest(ledger) == last
  {
    if last > 0 {
      var k :| 0 <= k < |ledger| && ledger[k].id == last;
      HighestBounds(ledger, k);
    }
    HighestNonNegative(ledger);
    if Highest(ledger) > 0 {
      var k := HighestAttained(ledger);
    }
  }

  lemma {:induction false} HighestNonNegative(ledger: seq<Entry>)
    ensures Highest(ledger) >= 0
  {
    if ledger != [] {
      HighestNonNegative(ledger[..|ledger| - 1]);
    }
  }

  /** The last id of the output is the highest on its record. */
  lemma {:induction false} LastIsHighest(
    g: Graph, md: MessageDescriptor, previous: Option<Dataset>, d: Dataset, start: Ids, ids: Ids)
    requires Step(g, md, previous, d, start, ids) && ValidLedger(Ledger(d))
    ensures d.lastFieldId == Highest(Ledger(d))
  {
    hide Certified, ValidDataset, RetiredAfter, NodesOf, Ledger, StorageName, EnvOf, StartOf, Grown, ValidLedger,
         Listed, Highest;
    CertifiedIds(EnvOf(g, md, previous), start, d, ids);
    LastIdOf(EnvOf(g, md, previous), start, d, ids);
    forall k | 0 <= k < |Ledger(d)|
      ensures Ledger(d)[k].id <= ids.last
    {
      EntryOwned(g, md, previous, d, start, ids, k);
    }
    if ids.last > 0 {
      var k := OwnerListed(g, md, previous, d, start, ids, ids.last);
    }
    HighestIs(Ledger(d), ids.last);
  }

  lemma {:induction false} LastIdOf(env: Env, start: Ids, d: Dataset, ids: Ids)
    requires Certified(env, start, d, ids)
    ensures d.lastFieldId == ids.last
  {
    hide Backed, AllocateAll, NodesOk, AllPlaced, AllTidy, NodesOf;
  }

  /** Every entry of the output is backed by the allocator's record. */
  lemma {:induction false} EntryOwned(
    g: Graph, md: MessageDescriptor, previous: Option<Dataset>, d: Dataset, start: Ids, ids: Ids, k: nat)
    requires Step(g, md, previous, d, start, ids) && k < |Ledger(d)|
    ensures OwnedBy(ids.owners, Ledger(d)[k].id, Ledger(d)[k].identity)
  {
    hide Certified, ValidDataset, NodesOf, Ledger, StorageName, Owners, EnvOf, StartOf, Backed, Grown, Listed, Dropped,
         SortBy;
    if k < |d.retired| {
      assert previous.Some?;
      var p := previous.value;
      RetiredInLedger(d, k);
      var at := RetiredOrigin(g, md, p, d, start, ids, d.retired[k]);
      LedgerOf(p, md.fullName);
      OwnersAt(Ledger(p), at);
      CertifiedIds(EnvOf(g, md, previous), start, d, ids);
      GrownOwner(start, ids, Identities(NodesOf(d)), d.retired[k].id);
    } else {
      var j := NodeAt(d, k);
      ActiveSound(EnvOf(g, md, previous), start, d, ids, j);
    }
  }

  // ----- reloading -----

  lemma {:induction false} LedgerValid(
    g: Graph, md: MessageDescriptor, previous: Option<Dataset>, d: Dataset, start: Ids, ids: Ids)
    requires Step(g, md, previous, d, start, ids) && NamesFree(EnvOf(g, md, previous), NodesOf(d))
    ensures ValidLedger(Ledger(d))
  {
    hide Certified, ValidDataset, NodesOf, Ledger, StorageName, EnvOf, StartOf, StartsAt, Listed, SoundEntry, Separate,
         NamesFree, RetiredAfter;
    var ledger := Ledger(d);
    forall k | 0 <= k < |ledger|
      ensures SoundEntry(ledger[k])
    {
      LedgerSound(g, md, previous, d, start, ids, k);
    }
    forall j, k | 0 <= j < k < |ledger|
      ensures Separate(ledger[j], ledger[k])
    {
      LedgerPair(g, md, previous, d, start, ids, j, k);
    }
  }

  lemma {:induction false} LedgerSound(
    g: Graph, md: MessageDescriptor, previous: Option<Dataset>, d: Dataset, start: Ids, ids: Ids, k: nat)
    requires Step(g, md, previous, d, start, ids) && k < |Ledger(d)|
    ensures SoundEntry(Ledger(d)[k])
  {
    hide Certified, ValidDataset, NodesOf, Ledger, StorageName, EnvOf, StartOf, StartsAt, Listed, SoundEntry, Dropped,
         SortBy;
    if k < |d.retired| {
      assert previous.Some?;
      RetiredInLedger(d, k);
      var at := RetiredOrigin(g, md, previous.value, d, start, ids, d.retired[k]);
      LedgerOf(previous.value, md.fullName);
      EntrySound(previous.value, at);
    } else {
      var j := NodeAt(d, k);
      ActiveSound(EnvOf(g, md, previous), start, d, ids, j);
    }
  }

  lemma {:induction false} LedgerPair(
    g: Graph, md: MessageDescriptor, previous: Option<Dataset>, d: Dataset, start: Ids, ids: Ids, j: nat, k: nat)
    requires Step(g, md, previous, d, start, ids) && NamesFree(EnvOf(g, md, previous), NodesOf(d))
    requires j < k < |Ledger(d)|
    ensures Separate(Ledger(d)[j], Ledger(d)[k])
  {
    hide Certified, ValidDataset, NodesOf, Ledger, StorageName, EnvOf, StartOf, StartsAt, Listed, Separate, NamesFree,
         Dropped, SortBy;
    if j < |d.retired| {
      assert previous.Some?;
      RetiredInLedger(d, j);
      if k < |d.retired| {
        RetiredInLedger(d, k);
        LedgerOf(previous.value, md.fullName);
        RetiredPair(previous.value, ids.active, j, k);
      } else {
        var n := NodeAt(d, k);
        MixedPair(g, md, previous.value, d, start, ids, j, n);
      }
    } else {
      var m := NodeAt(d, j);
      var n := NodeAt(d, k);
      ActivePair(EnvOf(g, md, previous), start, d, ids, m, n);
    }
  }

  /** A compiled dataset loads again exactly when no active name belonged to
      another identity; the compiler itself checks this for protobuf fields but
      not for list elements, map keys and map values. */
  lemma {:induction false} ReloadsIff(
    g: Graph, md: MessageDescriptor, previous: Option<Dataset>, d: Dataset, start: Ids, ids: Ids)
    requires Step(g, md, previous, d, start, ids)
    ensures ValidDataset(d, md.fullName) <==> NamesFree(EnvOf(g, md, previous), NodesOf(d))
  {
    hide Certified, NodesOf, Ledger, StorageName, EnvOf, StartOf, StartsAt, Listed, NamesFree, RetiredAfter,
         ValidLedger, Highest, AllPlaced;
    if NamesFree(EnvOf(g, md, previous), NodesOf(d)) {
      LedgerValid(g, md, previous, d, start, ids);
      LastIsHighest(g, md, previous, d, start, ids);
      LastIdOf(EnvOf(g, md, previous), start, d, ids);
      PlacedOf(EnvOf(g, md, previous), start, d, ids);
    }
    if ValidDataset(d, md.fullName) {
      ReloadedNamesFree(g, md, previous, d, start, ids);
    }
  }

  lemma {:induction false} PlacedOf(env: Env, start: Ids, d: Dataset, ids: Ids)
    requires Certified(env, start, d, ids)
    ensures AllPlaced(d.fields, [])
  {
    hide Backed, AllocateAll, NodesOk, AllPlaced, AllTidy, NodesOf;
  }

  lemma {:induction false} ReloadedNamesFree(
    g: Graph, md: MessageDescriptor, previous: Option<Dataset>, d: Dataset, start: Ids, ids: Ids)
    requires Step(g, md, previous, d, start, ids) && ValidLedger(Ledger(d))
    ensures NamesFree(EnvOf(g, md, previous), NodesOf(d))
  {
    hide Certified, NodesOf, Ledger, StorageName, StartOf, StartsAt, Listed, RetiredAfter, ValidLedger, ValidDataset,
         NameOwners, Owners, Active, Retired, FirstIds, SortedFields;
    forall k | 0 <= k < |NodesOf(d)|
      ensures NameFree(EnvOf(g, md, previous), NodesOf(d)[k].identity, NodesOf(d)[k].field.name)
    {
      var n := NodesOf(d)[k];
      var key := (Scope(n.identity), n.field.name);
      if previous.Some? && key in NameOwners(Ledger(previous.value)) {
        var j := NameEntry(Ledger(previous.value), key);
        var m := KeptEntry(g, md, previous.value, d, start, ids, j);
        NodeInLedger(d, k);
        NamesAt(Ledger(d), m);
        NamesAt(Ledger(d), |d.retired| + k);
      }
    }
  }
}
