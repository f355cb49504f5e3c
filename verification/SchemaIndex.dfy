/** The lookup tables of a valid ledger, and the allocator's starting point. */
module SchemaIndex {

  import opened ProtoDescriptors
  import opened ProtoNames
  import opened Results
  import opened SchemaAllocation
  import opened SchemaCompiler
  import opened SchemaFacts
  import opened SchemaIdentity
  import opened SchemaLedger
  import opened Tables

  lemma {:induction false} LedgerKeys(ledger: seq<Entry>)
    requires ValidLedger(ledger)
    ensures DistinctKeys(ledger, IdOf) && DistinctKeys(ledger, NameKey) && DistinctKeys(ledger, IdentityOf)
  {
    hide SoundEntry, NameKey;
    forall i, j | 0 <= i < j < |ledger|
      ensures IdOf(ledger[i]) != IdOf(ledger[j]) && NameKey(ledger[i]) != NameKey(ledger[j])
      ensures IdentityOf(ledger[i]) != IdentityOf(ledger[j])
    {
      assert Separate(ledger[i], ledger[j]);
    }
  }

  lemma {:induction false} OwnersAt(ledger: seq<Entry>, k: nat)
    requires ValidLedger(ledger) && k < |ledger|
    ensures OwnedBy(Owners(ledger), ledger[k].id, ledger[k].identity)
  {
    hide ValidLedger, TableOf;
    LedgerKeys(ledger);
    TableAt(ledger, IdOf, IdentityOf, k);
  }

  lemma {:induction false} NamesAt(ledger: seq<Entry>, k: nat)
    requires ValidLedger(ledger) && k < |ledger|
    ensures NameKey(ledger[k]) in NameOwners(ledger) && NameOwners(ledger)[NameKey(ledger[k])] == ledger[k].identity
  {
    hide ValidLedger, TableOf, NameKey;
    LedgerKeys(ledger);
    TableAt(ledger, NameKey, IdentityOf, k);
  }

  lemma {:induction false} OwnerEntry(ledger: seq<Entry>, id: int) returns (k: nat)
    requires id in Owners(ledger)
    ensures k < |ledger| && ledger[k].id == id && ledger[k].identity == Owners(ledger)[id]
  {
    hide TableOf;
    k := TableSource(ledger, IdOf, IdentityOf, id);
  }

  lemma {:induction false} NameEntry(ledger: seq<Entry>, key: (Identity, string)) returns (k: nat)
    requires key in NameOwners(ledger)
    ensures k < |ledger| && NameKey(ledger[k]) == key && ledger[k].identity == NameOwners(ledger)[key]
  {
    hide TableOf, NameKey;
    k := TableSource(ledger, NameKey, IdentityOf, key);
  }

  /** Where an active field sits in the ledger. */
  lemma {:induction false} NodeInLedger(d: Dataset, k: nat)
    requires k < |NodesOf(d)|
    ensures |d.retired| + k < |Ledger(d)| && Ledger(d)[|d.retired| + k] == EntryOf(NodesOf(d)[k])
  {
    hide NodesOf;
  }

  lemma {:induction false} NodesDistinct(d: Dataset)
    requires ValidLedger(Ledger(d))
    ensures DistinctKeys(NodesOf(d), NodeIdentity)
  {
    hide NodesOf, Ledger, SoundEntry, NameKey;
    var nodes := NodesOf(d);
    forall i, j | 0 <= i < j < |nodes|
      ensures NodeIdentity(nodes[i]) != NodeIdentity(nodes[j])
    {
      NodeInLedger(d, i);
      NodeInLedger(d, j);
      assert Separate(Ledger(d)[|d.retired| + i], Ledger(d)[|d.retired| + j]);
    }
  }

  lemma {:induction false} ActiveAt(d: Dataset, k: nat)
    requires ValidLedger(Ledger(d)) && k < |NodesOf(d)|
    ensures var n := NodesOf(d)[k]; n.identity in IndexOf(d).active && IndexOf(d).active[n.identity] == n.field
  {
    hide ValidLedger, TableOf, NodesOf, Ledger;
    NodesDistinct(d);
    TableAt(NodesOf(d), NodeIdentity, NodeField, k);
  }

  lemma {:induction false} ActiveNode(d: Dataset, i: Identity) returns (k: nat)
    requires i in IndexOf(d).active
    ensures k < |NodesOf(d)| && NodesOf(d)[k] == Node(i, IndexOf(d).active[i])
  {
    hide TableOf, NodesOf, Ledger;
    k := TableSource(NodesOf(d), NodeIdentity, NodeField, i);
  }

  lemma {:induction false} RetiredAt(d: Dataset, k: nat)
    requires ValidLedger(Ledger(d)) && k < |d.retired|
    ensures var r := d.retired[k]; r.identity in IndexOf(d).retired && IndexOf(d).retired[r.identity] == r
  {
    hide SoundEntry, TableOf, NodesOf, NameKey;
    forall i, j | 0 <= i < j < |d.retired|
      ensures IdentityOf(d.retired[i]) != IdentityOf(d.retired[j])
    {
      assert Separate(Ledger(d)[i], Ledger(d)[j]);
    }
    TableAt(d.retired, IdentityOf, WholeEntry, k);
  }

  lemma {:induction false} RetiredEntry(d: Dataset, i: Identity) returns (k: nat)
    requires i in IndexOf(d).retired
    ensures k < |d.retired| && d.retired[k] == IndexOf(d).retired[i] && d.retired[k].identity == i
  {
    hide TableOf, NodesOf, Ledger;
    k := TableSource(d.retired, IdentityOf, WholeEntry, i);
  }

  // ----- the allocator's starting point -----

  lemma {:induction false} HighestBounds(ledger: seq<Entry>, k: nat)
    requires k < |ledger|
    ensures ledger[k].id <= Highest(ledger)
  {
    if k < |ledger| - 1 {
      HighestBounds(ledger[..|ledger| - 1], k);
    }
  }

  lemma {:induction false} HighestAttained(ledger: seq<Entry>) returns (k: nat)
    requires Highest(ledger) > 0
    ensures k < |ledger| && ledger[k].id == Highest(ledger)
  {
    if ledger[|ledger| - 1].id == Highest(ledger) {
      k := |ledger| - 1;
    } else {
      k := HighestAttained(ledger[..|ledger| - 1]);
    }
  }

  ghost predicate StartsAt(ids: Ids, d: Dataset) {
    && ids.last == d.lastFieldId
    && ids.owners == Owners(Ledger(d))
    && ids.active == map[]
  }

  /** A reloaded dataset gives the allocator a consistent start. */
  lemma {:induction false} ReloadedBacked(g: Graph, d: Dataset, message: string, ids: Ids)
    requires ValidDataset(d, message) && StartsAt(ids, d)
    ensures Backed(Env(g, IndexOf(d), map[]), ids)
  {
    hide NodesOf, Ledger, TableOf, IndexOf, Owners, SoundEntry, AllPlaced, Highest;
    var ledger := Ledger(d);
    forall k | k in ids.owners
      ensures 1 <= k <= ids.last
    {
      var at := OwnerEntry(ledger, k);
      HighestBounds(ledger, at);
      SoundId(ledger[at]);
    }
    if ids.last > 0 {
      var at := HighestAttained(ledger);
      OwnersAt(ledger, at);
    }
    forall i | i in IndexOf(d).active
      ensures OwnedBy(ids.owners, IndexOf(d).active[i].stableId, i)
    {
      var k := ActiveNode(d, i);
      NodeInLedger(d, k);
      OwnersAt(ledger, |d.retired| + k);
    }
    forall i | i in IndexOf(d).retired
      ensures OwnedBy(ids.owners, IndexOf(d).retired[i].id, i)
    {
      var k := RetiredEntry(d, i);
      RetiredInLedger(d, k);
      OwnersAt(ledger, k);
    }
  }

  lemma {:induction false} SoundId(e: Entry)
    requires SoundEntry(e)
    ensures 1 <= e.id <= MAX_STABLE_ID
  {
    hide OwnedName;
  }

  lemma {:induction false} RetiredInLedger(d: Dataset, k: nat)
    requires k < |d.retired|
    ensures k < |Ledger(d)| && Ledger(d)[k] == d.retired[k]
  {
    hide NodesOf;
  }

  lemma {:induction false} FirstOwned(fds: seq<FieldDescriptor>)
    ensures forall k :: k in FirstOwners(fds) ==> 1 <= k <= HighestNumber(fds) && FirstOwners(fds)[k] == [Number(k)]
    ensures HighestNumber(fds) > 0 ==> HighestNumber(fds) in FirstOwners(fds)
    ensures forall i :: i in FirstIds(fds) ==> FirstIds(fds)[i] in FirstOwners(fds) && i == [Number(FirstIds(fds)[i])]
    ensures forall k :: k in FirstOwners(fds) ==> exists j :: 0 <= j < |fds| && fds[j].number == k
    ensures forall j :: 0 <= j < |fds| ==> [Number(fds[j].number)] in FirstIds(fds)
  {
    if fds != [] {
      var init := fds[..|fds| - 1];
      FirstOwned(init);
      forall k | k in FirstOwners(fds)
        ensures exists j :: 0 <= j < |fds| && fds[j].number == k
      {
        if k in FirstOwners(init) {
          var j :| 0 <= j < |init| && init[j].number == k;
          assert fds[j].number == k;
        }
      }
      forall j | 0 <= j < |fds|
        ensures [Number(fds[j].number)] in FirstIds(fds)
      {
        assert j < |init| ==> init[j] == fds[j];
      }
    }
  }

  /** A first compilation starts with its top-level numbers as ids. */
  lemma {:induction false} FirstBacked(g: Graph, md: MessageDescriptor)
    ensures Backed(EnvOf(g, md, None), StartOf(md, None).ids)
  {
    hide FirstIds, FirstOwners, HighestNumber, SortedFields;
    FirstOwned(SortedFields(md));
  }

  lemma {:induction false} SourcesSound(g: Graph, d: Dataset, message: string)
    requires ValidDataset(d, message)
    ensures SoundSources(Env(g, IndexOf(d), map[]))
  {
    hide NodesOf, Ledger, IndexOf, AllPlaced, Highest, SoundEntry;
    forall i | i in IndexOf(d).active && i != [] && Last(i).Number?
      ensures ValidName(IndexOf(d).active[i].source)
    {
      var k := ActiveNode(d, i);
      NodeInLedger(d, k);
      SoundSource(Ledger(d)[|d.retired| + k]);
    }
  }

  lemma {:induction false} SoundSource(e: Entry)
    requires SoundEntry(e) && Last(e.identity).Number?
    ensures ValidName(e.source)
  {
    hide ValidName, ValidFullName, StorageName, ValidIdentity;
  }
}
