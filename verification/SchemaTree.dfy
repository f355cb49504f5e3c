/** The identities of a schema form a tree: scopes, siblings and parents. */
module SchemaTree {

  import opened LogicalSchema
  import opened SchemaFacts
  import opened SchemaIdentity
  import opened SchemaLedger

  predicate Under(at: Identity, i: Identity) {
    |at| < |i| && i[..|at|] == at
  }

  // ----- where nodes are -----

  lemma {:induction false} NodeBranch(fields: seq<Field>, scope: Identity, n: Node) returns (j: nat)
    requires n in Nodes(fields, scope)
    ensures j < |fields| && n in FieldNodes(fields[j], scope)
  {
    hide FieldNodes;
    var last := |fields| - 1;
    if n in FieldNodes(fields[last], scope) {
      j := last;
    } else {
      j := NodeBranch(fields[..last], scope, n);
    }
  }

  lemma {:induction false} BranchNode(fields: seq<Field>, scope: Identity, j: nat, n: Node)
    requires j < |fields| && n in FieldNodes(fields[j], scope)
    ensures n in Nodes(fields, scope)
  {
    hide FieldNodes;
    if j < |fields| - 1 {
      BranchNode(fields[..|fields| - 1], scope, j, n);
    }
  }

  lemma {:induction false} RootNode(f: Field, scope: Identity)
    ensures Node(scope + [SegmentOf(f)], f) in FieldNodes(f, scope)
  {
    assert FieldNodes(f, scope)[0] == Node(scope + [SegmentOf(f)], f);
  }

  lemma {:induction false} FieldUnder(f: Field, scope: Identity, n: Node)
    requires n in FieldNodes(f, scope)
    ensures n == Node(scope + [SegmentOf(f)], f) || Under(scope + [SegmentOf(f)], n.identity)
    decreases f, 1
  {
    hide TypeNodes;
    if n != Node(scope + [SegmentOf(f)], f) {
      TypeUnder(f.typ, scope + [SegmentOf(f)], n);
    }
  }

  lemma {:induction false} TypeUnder(t: DataType, at: Identity, n: Node)
    requires n in TypeNodes(t, at)
    ensures Under(at, n.identity)
    decreases t, 0
  {
    hide FieldNodes;
    match t
    case Struct(_, fields) =>
      var j := NodeBranch(fields, at, n);
      FieldUnder(fields[j], at, n);
    case List(element, _) =>
      FieldUnder(element, at, n);
    case Map(key, value) =>
      if n in FieldNodes(key, at) {
        FieldUnder(key, at, n);
      } else {
        FieldUnder(value, at, n);
      }
  }

  // ----- names within a scope -----

  predicate NamesApart(nodes: seq<Node>) {
    && (forall k :: 0 <= k < |nodes| ==> nodes[k].field.name != "")
    && (forall j, k :: 0 <= j < k < |nodes| ==> NameKey(EntryOf(nodes[j])) != NameKey(EntryOf(nodes[k])))
  }

  lemma {:induction false} ApartJoin(a: seq<Node>, b: seq<Node>)
    requires NamesApart(a) && NamesApart(b)
    requires forall m, n :: m in a && n in b ==> NameKey(EntryOf(m)) != NameKey(EntryOf(n))
    ensures NamesApart(a + b)
  {
    hide NameKey;
    var s := a + b;
    forall j, k | 0 <= j < k < |s|
      ensures NameKey(EntryOf(s[j])) != NameKey(EntryOf(s[k]))
    {
      if j < |a| <= k {
        assert s[j] in a && s[k] in b;
      }
    }
  }

  lemma {:induction false} BranchesApart(f: Field, g: Field, scope: Identity, m: Node, n: Node)
    requires SegmentOf(f) != SegmentOf(g) && f.name != g.name
    requires m in FieldNodes(f, scope) && n in FieldNodes(g, scope)
    ensures NameKey(EntryOf(m)) != NameKey(EntryOf(n))
  {
    hide FieldNodes;
    FieldUnder(f, scope, m);
    FieldUnder(g, scope, n);
    var p, q := Scope(m.identity), Scope(n.identity);
    if |p| > |scope| && |q| > |scope| {
      assert m.identity[..|scope| + 1][|scope|] == SegmentOf(f);
      assert n.identity[..|scope| + 1][|scope|] == SegmentOf(g);
      assert p[|scope|] == SegmentOf(f) && q[|scope|] == SegmentOf(g);
    }
  }

  lemma {:induction false} FieldsApart(fields: seq<Field>, scope: Identity)
    requires AllTidy(fields)
    ensures NamesApart(Nodes(fields, scope))
    decreases fields, 2
  {
    hide FieldNodes, TypeTidy, NamesApart;
    if fields == [] {
      assert NamesApart([]) by { NoneApart(); }
    } else {
      var init, last := fields[..|fields| - 1], fields[|fields| - 1];
      FieldsApart(init, scope);
      FieldApart(last, scope);
      forall m, n | m in Nodes(init, scope) && n in FieldNodes(last, scope)
        ensures NameKey(EntryOf(m)) != NameKey(EntryOf(n))
      {
        var j := NodeBranch(init, scope, m);
        assert init[j] == fields[j];
        BranchesApart(fields[j], last, scope, m, n);
      }
      ApartJoin(Nodes(init, scope), FieldNodes(last, scope));
    }
  }

  lemma {:induction false} NoneApart()
    ensures NamesApart([])
  {
  }

  lemma {:induction false} FieldApart(f: Field, scope: Identity)
    requires f.name != "" && TypeTidy(f.typ)
    ensures NamesApart(FieldNodes(f, scope))
    decreases f, 1
  {
    hide TypeNodes, TypeTidy;
    var i := scope + [SegmentOf(f)];
    TypeApart(f.typ, i);
    forall m, n | m in [Node(i, f)] && n in TypeNodes(f.typ, i)
      ensures NameKey(EntryOf(m)) != NameKey(EntryOf(n))
    {
      TypeUnder(f.typ, i, n);
      assert |Scope(n.identity)| >= |i|;
    }
    ApartJoin([Node(i, f)], TypeNodes(f.typ, i));
  }

  lemma {:induction false} TypeApart(t: DataType, at: Identity)
    requires TypeTidy(t)
    ensures NamesApart(TypeNodes(t, at))
    decreases t, 0
  {
    hide FieldNodes, NamesApart;
    match t
    case Struct(_, fields) =>
      FieldsApart(fields, at);
    case List(element, _) =>
      FieldApart(element, at);
    case Map(key, value) =>
      FieldApart(key, at);
      FieldApart(value, at);
      forall m, n | m in FieldNodes(key, at) && n in FieldNodes(value, at)
        ensures NameKey(EntryOf(m)) != NameKey(EntryOf(n))
      {
        BranchesApart(key, value, at, m, n);
      }
      ApartJoin(FieldNodes(key, at), FieldNodes(value, at));
    case _ =>
      NoneApart();
  }

  // ----- parents -----

  /** Which segments a type's children carry. */
  predicate Holds(t: DataType, s: Segment) {
    match t
    case Struct(_, _) => s.Number?
    case List(_, _) => s.Element?
    case Map(_, _) => s.Key? || s.Value?
    case _ => false
  }

  /** A node is a direct child of the scope, or its parent is listed too. */
  ghost predicate HasParent(nodes: seq<Node>, scope: Identity, n: Node) {
    && n.identity != []
    && (Scope(n.identity) == scope ||
        exists p :: p in nodes && p.identity == Scope(n.identity) && Holds(p.field.typ, Last(n.identity)))
  }

  lemma {:induction false} HasParentIn(nodes: seq<Node>, more: seq<Node>, scope: Identity, n: Node)
    requires HasParent(nodes, scope, n) && forall p :: p in nodes ==> p in more
    ensures HasParent(more, scope, n)
  {
    hide Holds;
  }

  lemma {:induction false} FieldsHaveParents(fields: seq<Field>, path: seq<uint32>, scope: Identity, n: Node)
    requires AllPlaced(fields, path) && n in Nodes(fields, scope)
    ensures HasParent(Nodes(fields, scope), scope, n)
    ensures Scope(n.identity) == scope ==> Last(n.identity).Number?
    decreases fields, 2
  {
    hide FieldNodes, HasParent, TypePlaced;
    var j := NodeBranch(fields, scope, n);
    FieldHasParents(fields[j], path, ProtoField, scope, n);
    forall p | p in FieldNodes(fields[j], scope)
      ensures p in Nodes(fields, scope)
    {
      BranchNode(fields, scope, j, p);
    }
    HasParentIn(FieldNodes(fields[j], scope), Nodes(fields, scope), scope, n);
  }

  lemma {:induction false} FieldHasParents(f: Field, path: seq<uint32>, role: Role, scope: Identity, n: Node)
    requires Placed(f, path, role) && n in FieldNodes(f, scope)
    ensures HasParent(FieldNodes(f, scope), scope, n)
    ensures Scope(n.identity) == scope ==> Last(n.identity) == SegmentOf(f)
    decreases f, 1
  {
    hide TypeNodes, TypePlaced, Holds;
    var i := scope + [SegmentOf(f)];
    FieldUnder(f, scope, n);
    if n != Node(i, f) {
      TypeHasParents(f.typ, f.path, i, n);
      RootNode(f, scope);
      assert forall p :: p in TypeNodes(f.typ, i) ==> p in FieldNodes(f, scope);
      if Scope(n.identity) == i {
        assert HasParent(FieldNodes(f, scope), scope, n);
      }
    }
  }

  lemma {:induction false} TypeHasParents(t: DataType, path: seq<uint32>, at: Identity, n: Node)
    requires TypePlaced(t, path) && n in TypeNodes(t, at)
    ensures HasParent(TypeNodes(t, at), at, n)
    ensures Scope(n.identity) == at ==> Holds(t, Last(n.identity))
    decreases t, 0
  {
    hide FieldNodes, HasParent, Placed;
    match t
    case Struct(_, fields) =>
      FieldsHaveParents(fields, path, at, n);
    case List(element, _) =>
      PlacedSegment(element, path, ListElement);
      FieldHasParents(element, path, ListElement, at, n);
    case Map(key, value) =>
      PlacedSegment(key, path, MapKey);
      PlacedSegment(value, path, MapValue);
      if n in FieldNodes(key, at) {
        FieldHasParents(key, path, MapKey, at, n);
        HasParentIn(FieldNodes(key, at), TypeNodes(t, at), at, n);
      } else {
        FieldHasParents(value, path, MapValue, at, n);
        HasParentIn(FieldNodes(value, at), TypeNodes(t, at), at, n);
      }
  }

  lemma {:induction false} PlacedSegment(f: Field, path: seq<uint32>, role: Role)
    requires Placed(f, path, role)
    ensures f.role == role
  {
  }
}
