/** Removed fields stay reserved in the descriptors. */
module SchemaReservations {

  import opened ProtoDescriptors
  import opened ProtoNames
  import opened Results
  import opened SchemaCompiler
  import opened SchemaEvolution
  import opened SchemaIdentity
  import opened SchemaIndex
  import opened SchemaLedger
  import opened SchemaReference
  import opened SchemaReload
  import opened SchemaRuns
  import opened Tables

  lemma {:induction false} NotContained(g: Graph, nodes: seq<Node>, i: Identity)
    requires forall k :: 0 <= k < |nodes| ==> nodes[k].identity != i
    ensures i !in Containers(g, nodes)
  {
    if nodes != [] {
      NotContained(g, nodes[..|nodes| - 1], i);
    }
  }

  /** A compiled message field is listed with the message it holds. */
  lemma {:induction false} ContainerAt(g: Graph, nodes: seq<Node>, k: nat)
    requires DistinctKeys(nodes, NodeIdentity) && k < |nodes|
    requires nodes[k].field.typ.Struct? && nodes[k].field.typ.protobufType in g
    ensures nodes[k].identity in Containers(g, nodes)
    ensures Containers(g, nodes)[nodes[k].identity] == g[nodes[k].field.typ.protobufType]
  {
    if k < |nodes| - 1 {
      var init := nodes[..|nodes| - 1];
      assert DistinctKeys(init, NodeIdentity);
      assert init[k] == nodes[k];
      ContainerAt(g, init, k);
      assert NodeIdentity(nodes[k]) != NodeIdentity(nodes[|nodes| - 1]);
    }
  }

  /** The message a scope's fields belong to in the current schema. */
  ghost predicate ContainedIn(g: Graph, root: string, d: Dataset, scope: Identity, md: MessageDescriptor) {
    || (scope == [] && root in g && md == g[root])
    || (exists k :: 0 <= k < |NodesOf(d)| && NodesOf(d)[k].identity == scope && NodesOf(d)[k].field.typ.Struct?
                    && NodesOf(d)[k].field.typ.protobufType in g && md == g[NodesOf(d)[k].field.typ.protobufType])
  }

  predicate ReservedIn(md: MessageDescriptor, e: Entry)
    requires e.identity != [] && Last(e.identity).Number?
  {
    && e.fullName == Qualified(md.fullName, ShortName(e.fullName))
    && Last(e.identity).n in md.reservedNumbers
    && ShortName(e.fullName) in md.reservedNames
    && (e.source == ShortName(e.fullName) || e.source in md.reservedNames)
  }

  /** After every compilation: wherever a removed field's message is still part of
      the schema, that message reserves the field's number, its last name and the
      name its storage name came from. */
  lemma {:induction false} RemovedFieldsStayReserved(
    g: Graph, root: string, previous: Option<Dataset>, e: Entry, md: MessageDescriptor)
    requires WellFormed(g) && CompileMessage(g, root, previous).Ok?
    requires e in CompileMessage(g, root, previous).value.retired
    requires e.identity != [] && Last(e.identity).Number?
    requires ContainedIn(g, root, CompileMessage(g, root, previous).value, Scope(e.identity), md)
    ensures ReservedIn(md, e)
  {
    hide CompileMessage, Step, BuildFields, Containers, WellFormed, SortedFields, EnvOf, NodesOf, ShortName,
         ValidFullName;
    var d := CompileMessage(g, root, previous).value;
    var start, end := StepOf(g, root, previous);
    var k :| 0 <= k < |d.retired| && d.retired[k] == e;
    assert Reserved(end.containers, e);
    StepNodes(g, g[root], previous, d, start, end.ids);
    var scope := Scope(e.identity);
    if exists j :: 0 <= j < |NodesOf(d)| && NodesOf(d)[j].identity == scope && NodesOf(d)[j].field.typ.Struct?
                   && NodesOf(d)[j].field.typ.protobufType in g && md == g[NodesOf(d)[j].field.typ.protobufType] {
      var j :| 0 <= j < |NodesOf(d)| && NodesOf(d)[j].identity == scope && NodesOf(d)[j].field.typ.Struct?
               && NodesOf(d)[j].field.typ.protobufType in g && md == g[NodesOf(d)[j].field.typ.protobufType];
      ContainerAt(g, NodesOf(d), j);
    } else {
      NotContained(g, NodesOf(d), []);
    }
  }

  lemma {:induction false} StepNodes(
    g: Graph, md: MessageDescriptor, previous: Option<Dataset>, d: Dataset, start: Ids, ids: Ids)
    requires Step(g, md, previous, d, start, ids)
    ensures DistinctKeys(NodesOf(d), NodeIdentity)
    ensures forall k :: 0 <= k < |NodesOf(d)| ==> NodesOf(d)[k].identity != []
  {
    hide Certified, ValidDataset, NodesOf, RetiredAfter, StorageName, EnvOf, StartOf, StartsAt, Listed;
    var env := EnvOf(g, md, previous);
    forall i, j | 0 <= i < j < |NodesOf(d)|
      ensures NodeIdentity(NodesOf(d)[i]) != NodeIdentity(NodesOf(d)[j])
    {
      if NodeIdentity(NodesOf(d)[i]) == NodeIdentity(NodesOf(d)[j]) {
        NodePosition(env, start, d, ids, i, j);
      }
    }
    forall k | 0 <= k < |NodesOf(d)|
      ensures NodesOf(d)[k].identity != []
    {
      NodeValid(env, start, d, ids, k);
    }
  }
}
