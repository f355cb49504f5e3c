/** Registering entries one by one in the loader's tables. */
module SchemaLoading {

  import opened LogicalSchema
  import opened SchemaIdentity
  import opened SchemaIndex
  import opened SchemaLedger
  import opened SchemaReload
  import opened Tables

  lemma {:induction false} EntriesAppend(nodes: seq<Node>, n: Node)
    ensures Entries(nodes + [n]) == Entries(nodes) + [EntryOf(n)]
  {
  }

  lemma {:induction false} ValidPrefix(ledger: seq<Entry>, k: nat)
    requires ValidLedger(ledger) && k <= |ledger|
    ensures ValidLedger(ledger[..k])
  {
    hide SoundEntry, Separate;
  }

  lemma {:induction false} PrefixInvalid(ledger: seq<Entry>, k: nat)
    requires k <= |ledger| && !ValidLedger(ledger[..k])
    ensures !ValidLedger(ledger)
  {
    hide ValidLedger;
    if ValidLedger(ledger) {
      ValidPrefix(ledger, k);
    }
  }

  lemma {:induction false} TableAppend<A, K, V>(s: seq<A>, x: A, key: A -> K, value: A -> V)
    ensures TableOf(s + [x], key, value) == TableOf(s, key, value)[key(x) := value(x)]
  {
    assert (s + [x])[..|s|] == s;
  }

  /** An entry may join a valid ledger exactly when its id, identity and scoped
      name are new and it is sound by itself. */
  lemma {:induction false} RegisterIff(entries: seq<Entry>, nodes: seq<Node>, e: Entry)
    requires ValidLedger(entries + Entries(nodes))
    ensures ValidLedger(entries + Entries(nodes) + [e]) <==>
              && SoundEntry(e)
              && e.identity !in Retired(entries) && e.identity !in Active(nodes)
              && e.id !in Owners(entries + Entries(nodes))
              && (NameKey(e) !in NameOwners(entries + Entries(nodes)) ||
                  NameOwners(entries + Entries(nodes))[NameKey(e)] == e.identity)
  {
    hide Entries, NameOwners, Owners, Active, Retired, SoundEntry, NameKey, ValidLedger;
    var ledger := entries + Entries(nodes);
    IdentityKnown(entries, nodes, e.identity);
    OwnerKnown(ledger, e.id);
    NameKnown(ledger, NameKey(e));
    JoinIff(ledger, e);
    if NameKey(e) in NameOwners(ledger) && NameOwners(ledger)[NameKey(e)] == e.identity {
      var k := NameEntry(ledger, NameKey(e));
      assert ledger[k].identity == e.identity;
    }
  }

  lemma {:induction false} JoinIff(ledger: seq<Entry>, e: Entry)
    requires ValidLedger(ledger)
    ensures ValidLedger(ledger + [e]) <==> SoundEntry(e) && forall k :: 0 <= k < |ledger| ==> Separate(ledger[k], e)
  {
    hide SoundEntry, Separate;
    var all := ledger + [e];
    assert all[|ledger|] == e;
    if ValidLedger(all) {
      forall k | 0 <= k < |ledger|
        ensures Separate(ledger[k], e)
      {
        assert Separate(all[k], all[|ledger|]);
      }
    }
  }

  lemma {:induction false} OwnerKnown(ledger: seq<Entry>, id: int)
    ensures id in Owners(ledger) <==> exists k :: 0 <= k < |ledger| && ledger[k].id == id
  {
    hide TableOf;
    TableKeys(ledger, IdOf, IdentityOf, id);
    if exists k :: 0 <= k < |ledger| && ledger[k].id == id {
      var k :| 0 <= k < |ledger| && ledger[k].id == id;
      assert IdOf(ledger[k]) == id;
    }
  }

  lemma {:induction false} NameKnown(ledger: seq<Entry>, key: (Identity, string))
    ensures key in NameOwners(ledger) <==> exists k :: 0 <= k < |ledger| && NameKey(ledger[k]) == key
  {
    hide TableOf, NameKey;
    TableKeys(ledger, NameKey, IdentityOf, key);
  }

  lemma {:induction false} IdentityKnown(entries: seq<Entry>, nodes: seq<Node>, i: Identity)
    ensures i in Retired(entries) || i in Active(nodes) <==>
              exists k :: 0 <= k < |entries + Entries(nodes)| && (entries + Entries(nodes))[k].identity == i
  {
    hide TableOf;
    var ledger := entries + Entries(nodes);
    TableKeys(entries, IdentityOf, WholeEntry, i);
    TableKeys(nodes, NodeIdentity, NodeField, i);
    if i in Retired(entries) {
      var k :| 0 <= k < |entries| && IdentityOf(entries[k]) == i;
      assert ledger[k].identity == i;
    }
    if i in Active(nodes) {
      var k :| 0 <= k < |nodes| && NodeIdentity(nodes[k]) == i;
      assert ledger[|entries| + k].identity == i;
    }
    if exists k :: 0 <= k < |ledger| && ledger[k].identity == i {
      var k :| 0 <= k < |ledger| && ledger[k].identity == i;
      if k < |entries| {
        assert IdentityOf(entries[k]) == i;
      } else {
        assert NodeIdentity(nodes[k - |entries|]) == i;
      }
    }
  }

  lemma {:induction false} NothingLoaded()
    ensures ValidLedger([]) && Active([]) == map[]
  {
  }

  lemma {:induction false} RetiredStored(done: seq<Entry>, e: Entry)
    ensures Retired(done + [e]) == Retired(done)[e.identity := e]
    ensures done + Entries([]) == done && done + [e] + Entries([]) == done + [e]
    ensures NameOwners(done + [e]) == NameOwners(done)[NameKey(e) := e.identity]
    ensures Owners(done + [e]) == Owners(done)[e.id := e.identity]
  {
    hide TableOf, NameKey;
    TableAppend(done, e, IdentityOf, WholeEntry);
    TableAppend(done, e, NameKey, IdentityOf);
    TableAppend(done, e, IdOf, IdentityOf);
  }

  lemma {:induction false} NodeStored(entries: seq<Entry>, nodes: seq<Node>, n: Node)
    ensures Active(nodes + [n]) == Active(nodes)[n.identity := n.field]
    ensures entries + Entries(nodes + [n]) == entries + Entries(nodes) + [EntryOf(n)]
    ensures NameOwners(entries + Entries(nodes + [n]))
            == NameOwners(entries + Entries(nodes))[NameKey(EntryOf(n)) := n.identity]
    ensures Owners(entries + Entries(nodes + [n])) == Owners(entries + Entries(nodes))[n.field.stableId := n.identity]
  {
    hide TableOf, NameKey, Entries;
    EntriesAppend(nodes, n);
    TableAppend(nodes, n, NodeIdentity, NodeField);
    var ledger := entries + Entries(nodes);
    assert entries + (Entries(nodes) + [EntryOf(n)]) == ledger + [EntryOf(n)];
    TableAppend(ledger, EntryOf(n), NameKey, IdentityOf);
    TableAppend(ledger, EntryOf(n), IdOf, IdentityOf);
  }

  /** A ledger with an invalid part is invalid. */
  lemma {:induction false} PartInvalid(entries: seq<Entry>, nodes: seq<Node>, more: seq<Node>)
    ensures !ValidLedger(entries + Entries(nodes)) ==> !ValidLedger(entries + Entries(nodes + more))
  {
    hide ValidLedger;
    var part, all := entries + Entries(nodes), entries + Entries(nodes + more);
    assert all[..|part|] == part;
    if !ValidLedger(part) {
      PrefixInvalid(all, |part|);
    }
  }

  lemma {:induction false} FieldNodesPrefix(entries: seq<Entry>, nodes: seq<Node>, f: Field, parent: Identity)
    ensures var n := Node(parent + [SegmentOf(f)], f);
            !ValidLedger(entries + Entries(nodes) + [EntryOf(n)]) ==>
                !ValidLedger(entries + Entries(nodes + FieldNodes(f, parent)))
  {
    hide ValidLedger, TypeNodes, Entries;
    var n := Node(parent + [SegmentOf(f)], f);
    var rest := TypeNodes(f.typ, n.identity);
    EntriesAppend(nodes, n);
    assert entries + (Entries(nodes) + [EntryOf(n)]) == entries + Entries(nodes) + [EntryOf(n)];
    PartInvalid(entries, nodes + [n], rest);
    assert nodes + [n] + rest == nodes + FieldNodes(f, parent);
  }

  lemma {:induction false} NodesStep(fields: seq<Field>, scope: Identity, k: nat)
    requires k < |fields|
    ensures Nodes(fields[..k + 1], scope) == Nodes(fields[..k], scope) + FieldNodes(fields[k], scope)
  {
    hide FieldNodes;
    var upto := fields[..k + 1];
    assert upto[..|upto| - 1] == fields[..k] && upto[|upto| - 1] == fields[k];
  }

  lemma {:induction false} NoFields(nodes: seq<Node>, fields: seq<Field>, scope: Identity, path: seq<uint32>)
    ensures nodes + Nodes(fields[..0], scope) == nodes && AllPlaced(fields[..0], path)
  {
  }

  lemma {:induction false} FieldsStep(nodes: seq<Node>, fields: seq<Field>, scope: Identity, path: seq<uint32>, k: nat)
    requires k < |fields| && AllPlaced(fields[..k], path)
    ensures nodes + Nodes(fields[..k], scope) + FieldNodes(fields[k], scope) == nodes + Nodes(fields[..k + 1], scope)
    ensures Placed(fields[k], path, ProtoField) <==> AllPlaced(fields[..k + 1], path)
  {
    hide Nodes, FieldNodes, Placed;
    NodesStep(fields, scope, k);
    var upto := fields[..k + 1];
    assert upto[k] == fields[k];
    assert forall j :: 0 <= j < k ==> upto[j] == fields[..k][j];
  }

  lemma {:induction false} FieldNodesJoin(nodes: seq<Node>, f: Field, parent: Identity)
    ensures var i := parent + [SegmentOf(f)];
            nodes + [Node(i, f)] + TypeNodes(f.typ, i) == nodes + FieldNodes(f, parent)
  {
    hide TypeNodes;
  }

  lemma {:induction false} NodesPrefix(fields: seq<Field>, scope: Identity, k: nat)
    requires k <= |fields|
    ensures Nodes(fields[..k], scope) <= Nodes(fields, scope)
    decreases |fields| - k
  {
    hide FieldNodes;
    if k == |fields| {
      assert fields[..k] == fields;
    } else {
      NodesStep(fields, scope, k);
      NodesPrefix(fields, scope, k + 1);
    }
  }

  lemma {:induction false} FieldsInvalid(
    entries: seq<Entry>, nodes: seq<Node>, fields: seq<Field>, scope: Identity, path: seq<uint32>, k: nat)
    requires k < |fields|
    requires !Placed(fields[k], path, ProtoField)
            || !ValidLedger(entries + Entries(nodes + Nodes(fields[..k + 1], scope)))
    ensures !AllPlaced(fields, path) || !ValidLedger(entries + Entries(nodes + Nodes(fields, scope)))
  {
    hide Nodes, ValidLedger, Entries, Placed;
    NodesPrefix(fields, scope, k + 1);
    var part, all := Nodes(fields[..k + 1], scope), Nodes(fields, scope);
    PartInvalid(entries, nodes + part, all[|part|..]);
    assert nodes + part + all[|part|..] == nodes + all;
  }

  lemma {:induction false} LedgerPrefix(d: Dataset)
    ensures !ValidLedger(d.retired) ==> !ValidLedger(Ledger(d))
  {
    hide ValidLedger, NodesOf;
    assert Ledger(d)[..|d.retired|] == d.retired;
    if !ValidLedger(d.retired) {
      PrefixInvalid(Ledger(d), |d.retired|);
    }
  }

  lemma {:induction false} HighestOfOwners(ledger: seq<Entry>, highest: int)
    requires ValidLedger(ledger) && highest >= 0
    requires forall id :: id in Owners(ledger) ==> id <= highest
    requires highest > 0 ==> highest in Owners(ledger)
    ensures highest == Highest(ledger)
  {
    hide ValidLedger, Owners, Highest;
    forall k | 0 <= k < |ledger|
      ensures ledger[k].id <= highest
    {
      OwnersAt(ledger, k);
    }
    if highest > 0 {
      var k := OwnerEntry(ledger, highest);
    }
    HighestIs(ledger, highest);
  }
}
