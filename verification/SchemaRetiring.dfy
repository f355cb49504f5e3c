/** Collecting retired fields from tables, in whatever order they come. */
module SchemaRetiring {

  import opened LogicalSchema
  import opened Results
  import opened SchemaCompiler
  import opened SchemaEvolution
  import opened SchemaIdentity
  import opened SchemaIndex
  import opened SchemaLedger
  import opened SchemaReload
  import opened SchemaRuns
  import opened Sorting

  /** The retired table after a compilation: the old one and what was dropped. */
  function RetiredTable(index: Index, active: map<Identity, int32>): map<Identity, Entry> {
    index.retired + DroppedTable(index.active, active, {})
  }

  function DroppedTable(
    fields: map<Identity, Field>, active: map<Identity, int32>, pending: set<Identity>): map<Identity, Entry> {
    map i | i in fields && i !in active && i !in pending :: EntryOf(Node(i, fields[i]))
  }

  lemma {:induction false} DropStep(
    table: map<Identity, Entry>, fields: map<Identity, Field>, active: map<Identity, int32>, pending: set<Identity>,
    i: Identity)
    requires i in pending && i in fields
    ensures table + DroppedTable(fields, active, pending - {i})
         == if i in active then table + DroppedTable(fields, active, pending)
            else (table + DroppedTable(fields, active, pending))[i := EntryOf(Node(i, fields[i]))]
  {
  }

  lemma {:induction false} DropNone(
    table: map<Identity, Entry>, fields: map<Identity, Field>, active: map<Identity, int32>)
    ensures table + DroppedTable(fields, active, fields.Keys) == table
  {
    assert DroppedTable(fields, active, fields.Keys) == map[];
  }

  lemma {:induction false} TableKeyed(index: Index, active: map<Identity, int32>)
    requires forall i :: i in index.retired ==> index.retired[i].identity == i
    ensures var table := RetiredTable(index, active); forall i :: i in table ==> table[i].identity == i
  {
  }

  /** A list holds every entry of a table once. */
  ghost predicate Lists(list: seq<Entry>, table: map<Identity, Entry>) {
    && (forall e :: e in list <==> e.identity in table && table[e.identity] == e)
    && (forall j, k :: 0 <= j < k < |list| ==> list[j] != list[k])
    && |list| == |table|
  }

  lemma {:induction false} OnceEach<T>(s: seq<T>, x: T)
    requires forall j, k :: 0 <= j < k < |s| ==> s[j] != s[k]
    ensures multiset(s)[x] == if x in s then 1 else 0
  {
    if s != [] {
      var init, last := s[..|s| - 1], s[|s| - 1];
      OnceEach(init, x);
      assert s == init + [last];
      assert last !in init;
    }
  }

  lemma {:induction false} SameMultiset<T>(a: seq<T>, b: seq<T>)
    requires forall j, k :: 0 <= j < k < |a| ==> a[j] != a[k]
    requires forall j, k :: 0 <= j < k < |b| ==> b[j] != b[k]
    requires forall x :: x in a <==> x in b
    ensures multiset(a) == multiset(b)
  {
    forall x
      ensures multiset(a)[x] == multiset(b)[x]
    {
      OnceEach(a, x);
      OnceEach(b, x);
    }
  }

  lemma {:induction false} TableMember(p: Dataset, active: map<Identity, int32>, e: Entry)
    requires ValidLedger(Ledger(p))
    ensures e in p.retired + Dropped(NodesOf(p), active) <==>
              var table := RetiredTable(IndexOf(p), active); e.identity in table && table[e.identity] == e
  {
    hide ValidLedger, Ledger, NodesOf, Dropped, IndexOf;
    var index := IndexOf(p);
    var table := RetiredTable(index, active);
    if e in p.retired {
      var k :| 0 <= k < |p.retired| && p.retired[k] == e;
      RetiredAt(p, k);
      RetiredNotActive(p, e.identity);
    } else if e in Dropped(NodesOf(p), active) {
      var k := DroppedSource(NodesOf(p), active, e);
      ActiveAt(p, k);
      assert table[e.identity] == EntryOf(Node(e.identity, index.active[e.identity]));
    }
    if e.identity in table && table[e.identity] == e {
      if e.identity in index.active && e.identity !in active {
        var k := ActiveNode(p, e.identity);
        DroppedMember(NodesOf(p), active, k);
      } else {
        var k := RetiredEntry(p, e.identity);
        assert p.retired[k] == e;
      }
    }
  }

  lemma {:induction false} RetiredNotActive(p: Dataset, i: Identity)
    requires ValidLedger(Ledger(p)) && i in IndexOf(p).retired
    ensures i !in IndexOf(p).active
  {
    hide ValidLedger, Ledger, NodesOf, IndexOf;
    if i in IndexOf(p).active {
      var j := RetiredEntry(p, i);
      var k := ActiveNode(p, i);
      RetiredInLedger(p, j);
      NodeInLedger(p, k);
      SeparateIff(Ledger(p), j, |p.retired| + k);
    }
  }

  /** However the table is enumerated, sorting it by id gives the same list. */
  lemma {:induction false} AnyOrderSorts(p: Dataset, active: map<Identity, int32>, list: seq<Entry>)
    requires ValidLedger(Ledger(p)) && Lists(list, RetiredTable(IndexOf(p), active))
    ensures SortBy(list, IdOf) == RetiredAfter(Some(p), active)
  {
    hide ValidLedger, Ledger, NodesOf, Dropped, IndexOf, RetiredTable, SortBy;
    var all := p.retired + Dropped(NodesOf(p), active);
    RetiredIdsApart(p, active);
    forall e
      ensures e in list <==> e in all
    {
      TableMember(p, active, e);
    }
    SameMultiset(all, list);
    SortIsCanonical(all, list, IdOf);
  }
}
