/** Whole bundles: several dataset roots compiled together, append-only. */
module SchemaBundles {

  import opened ProtoDescriptors
  import opened Results
  import opened SchemaCompiler
  import opened SchemaLedger
  import opened SchemaRuns

  type Bundle = seq<Dataset>

  predicate Lists(b: Bundle, root: string) {
    exists k :: 0 <= k < |b| && b[k].sourceMessage == root
  }

  /** indexPreviousBundle: every dataset names its message, no message twice. */
  predicate Indexable(b: Bundle) {
    && (forall k :: 0 <= k < |b| ==> b[k].sourceMessage != "")
    && (forall j, k :: 0 <= j < k < |b| ==> b[j].sourceMessage != b[k].sourceMessage)
  }

  function DatasetFor(b: Bundle, root: string): Option<Dataset> {
    if b == [] then None
    else if b[|b| - 1].sourceMessage == root then Some(b[|b| - 1])
    else DatasetFor(b[..|b| - 1], root)
  }

  predicate StorageNameTaken(b: Bundle, name: string) {
    exists k :: 0 <= k < |b| && b[k].name == name
  }

  /** Compiles the roots in order; two datasets may not share a storage name. */
  function CompileRoots(g: Graph, roots: seq<string>, previous: Bundle): Result<Bundle> {
    if roots == [] then
      Ok([])
    else
      var root := roots[|roots| - 1];
      var before :- CompileRoots(g, roots[..|roots| - 1], previous);
      var d :- CompileMessage(g, root, DatasetFor(previous, root));
      if StorageNameTaken(before, d.name) then Err else Ok(before + [d])
  }

  predicate Selection(roots: seq<string>) {
    && roots != []
    && (forall k :: 0 <= k < |roots| ==> roots[k] != "")
    && (forall j, k :: 0 <= j < k < |roots| ==> roots[j] != roots[k])
  }

  /** CompileDescriptorBytes on the normalized, deduplicated selection: previous
      roots may not be left out. */
  function CompileBundle(g: Graph, roots: seq<string>, previous: Bundle): Result<Bundle> {
    if !Selection(roots) || !Indexable(previous) then
      Err
    else if exists k :: 0 <= k < |previous| && previous[k].sourceMessage !in roots then
      Err
    else
      CompileRoots(g, roots, previous)
  }

  lemma {:induction false} RootsCompiled(g: Graph, roots: seq<string>, previous: Bundle, k: nat)
    requires WellFormed(g) && CompileRoots(g, roots, previous).Ok? && k < |roots|
    ensures |CompileRoots(g, roots, previous).value| == |roots|
    ensures CompileMessage(g, roots[k], DatasetFor(previous, roots[k])) == Ok(CompileRoots(g, roots, previous).value[k])
    ensures CompileRoots(g, roots, previous).value[k].sourceMessage == roots[k]
  {
    hide CompileMessage, WellFormed, StorageNameTaken;
    BundleLength(g, roots, previous);
    if k < |roots| - 1 {
      RootsCompiled(g, roots[..|roots| - 1], previous, k);
    } else {
      SourceIsRoot(g, roots[k], DatasetFor(previous, roots[k]));
    }
  }

  lemma {:induction false} BundleLength(g: Graph, roots: seq<string>, previous: Bundle)
    requires CompileRoots(g, roots, previous).Ok?
    ensures |CompileRoots(g, roots, previous).value| == |roots|
  {
    hide CompileMessage, StorageNameTaken;
    if roots != [] {
      BundleLength(g, roots[..|roots| - 1], previous);
    }
  }

  lemma {:induction false} SourceIsRoot(g: Graph, root: string, previous: Option<Dataset>)
    requires WellFormed(g) && CompileMessage(g, root, previous).Ok?
    ensures CompileMessage(g, root, previous).value.sourceMessage == root
  {
    hide CompileFields, ValidDataset, EnvOf, SortedFields, RetiredAfter, Reserved, DistinctNames, WellFormedMessage;
    assert g[root].fullName == root;
  }

  lemma {:induction false} DatasetAt(b: Bundle, k: nat)
    requires Indexable(b) && k < |b|
    ensures DatasetFor(b, b[k].sourceMessage) == Some(b[k])
  {
    if k < |b| - 1 {
      var init := b[..|b| - 1];
      assert init[k] == b[k];
      DatasetAt(init, k);
    }
  }

  lemma {:induction false} DatasetListed(b: Bundle, root: string)
    ensures DatasetFor(b, root).Some? <==> Lists(b, root)
  {
    if b != [] {
      var init := b[..|b| - 1];
      DatasetListed(init, root);
      if Lists(init, root) {
        var k :| 0 <= k < |init| && init[k].sourceMessage == root;
        assert b[k].sourceMessage == root;
      }
      if Lists(b, root) {
        var k :| 0 <= k < |b| && b[k].sourceMessage == root;
        assert k < |init| ==> init[k] == b[k];
      }
    }
  }

  /** An output bundle lists exactly the selected roots and can be indexed. */
  lemma {:induction false} OutputIndexable(g: Graph, roots: seq<string>, previous: Bundle)
    requires WellFormed(g) && CompileBundle(g, roots, previous).Ok?
    ensures Indexable(CompileBundle(g, roots, previous).value)
    ensures forall root :: Lists(CompileBundle(g, roots, previous).value, root) <==> root in roots
  {
    hide WellFormed, CompileRoots;
    var b := CompileBundle(g, roots, previous).value;
    BundleLength(g, roots, previous);
    forall k | 0 <= k < |roots|
      ensures b[k].sourceMessage == roots[k]
    {
      RootsCompiled(g, roots, previous, k);
    }
    forall root
      ensures Lists(b, root) <==> root in roots
    {
      if root in roots {
        var k :| 0 <= k < |roots| && roots[k] == root;
        assert b[k].sourceMessage == root;
      }
    }
  }

  // ----- histories of bundles -----

  function Earlier(bundles: seq<Bundle>, k: nat): Bundle
    requires k <= |bundles|
  {
    if k == 0 then [] else bundles[k - 1]
  }

  /** Each bundle is compiled against the previous one, the first against none. */
  ghost predicate BundleRun(graphs: seq<Graph>, selections: seq<seq<string>>, bundles: seq<Bundle>) {
    && |graphs| == |selections| == |bundles|
    && forall k :: 0 <= k < |bundles| ==> BundleStep(graphs[k], selections[k], Earlier(bundles, k), bundles[k])
  }

  predicate BundleStep(g: Graph, roots: seq<string>, previous: Bundle, b: Bundle) {
    WellFormed(g) && CompileBundle(g, roots, previous) == Ok(b)
  }

  /** Dataset roots are append-only over every history. */
  lemma {:induction false} RootsAppendOnly(
    graphs: seq<Graph>, selections: seq<seq<string>>, bundles: seq<Bundle>, j: nat, k: nat, root: string)
    requires BundleRun(graphs, selections, bundles) && j <= k < |bundles| && Lists(bundles[j], root)
    ensures Lists(bundles[k], root)
    decreases k
  {
    hide BundleStep, Lists, BundleRun;
    if j < k {
      RootsAppendOnly(graphs, selections, bundles, j, k - 1, root);
      BundleRunAt(graphs, selections, bundles, k);
      RootStays(graphs[k], selections[k], bundles[k - 1], bundles[k], root);
    }
  }

  lemma {:induction false} BundleRunAt(graphs: seq<Graph>, selections: seq<seq<string>>, bundles: seq<Bundle>, k: nat)
    requires BundleRun(graphs, selections, bundles) && 0 < k < |bundles|
    ensures |graphs| == |selections| == |bundles| && BundleStep(graphs[k], selections[k], bundles[k - 1], bundles[k])
  {
    hide BundleStep;
  }

  lemma {:induction false} RootStays(g: Graph, roots: seq<string>, previous: Bundle, b: Bundle, root: string)
    requires BundleStep(g, roots, previous, b) && Lists(previous, root)
    ensures Lists(b, root)
  {
    hide WellFormed, CompileRoots;
    OutputIndexable(g, roots, previous);
    var k :| 0 <= k < |previous| && previous[k].sourceMessage == root;
  }

  /** One step of one root inside a bundle step. */
  lemma {:induction false} RootStep(g: Graph, roots: seq<string>, previous: Bundle, b: Bundle, root: string)
    requires BundleStep(g, roots, previous, b) && Lists(b, root)
    ensures WellFormed(g) && DatasetFor(b, root).Some?
    ensures CompileMessage(g, root, DatasetFor(previous, root)) == Ok(DatasetFor(b, root).value)
  {
    hide WellFormed, CompileRoots, CompileMessage;
    OutputIndexable(g, roots, previous);
    var k :| 0 <= k < |roots| && roots[k] == root;
    BundleLength(g, roots, previous);
    RootsCompiled(g, roots, previous, k);
    DatasetAt(b, k);
  }

  predicate ListedThroughout(bundles: seq<Bundle>, root: string) {
    forall k :: 0 <= k < |bundles| ==> DatasetFor(bundles[k], root).Some?
  }

  ghost function HistoryOf(bundles: seq<Bundle>, root: string): (r: seq<Dataset>)
    requires ListedThroughout(bundles, root)
    ensures |r| == |bundles| && forall k :: 0 <= k < |r| ==> Some(r[k]) == DatasetFor(bundles[k], root)
  {
    seq(|bundles|, k requires 0 <= k < |bundles| => DatasetFor(bundles[k], root).value)
  }

  lemma {:induction false} ListedLater(
    graphs: seq<Graph>, selections: seq<seq<string>>, bundles: seq<Bundle>, first: nat, root: string)
    requires BundleRun(graphs, selections, bundles) && first < |bundles| && Lists(bundles[first], root)
    ensures ListedThroughout(bundles[first..], root)
  {
    hide BundleRun, DatasetFor, Lists;
    var later := bundles[first..];
    forall k | 0 <= k < |later|
      ensures DatasetFor(later[k], root).Some?
    {
      RootsAppendOnly(graphs, selections, bundles, first, first + k, root);
      DatasetListed(later[k], root);
    }
  }

  lemma {:induction false} HistoryStep(
    graphs: seq<Graph>, selections: seq<seq<string>>, bundles: seq<Bundle>, first: nat, root: string, at: nat)
    requires BundleRun(graphs, selections, bundles) && first <= at < |bundles|
    requires Lists(bundles[first], root)
    ensures at < |graphs| && WellFormed(graphs[at]) && DatasetFor(bundles[at], root).Some?
    ensures CompileMessage(graphs[at], root, DatasetFor(Earlier(bundles, at), root))
            == Ok(DatasetFor(bundles[at], root).value)
  {
    hide WellFormed, CompileMessage, BundleStep, DatasetFor, Lists;
    RootsAppendOnly(graphs, selections, bundles, first, at, root);
    RootStep(graphs[at], selections[at], Earlier(bundles, at), bundles[at], root);
  }

  lemma {:induction false} NotListed(bundles: seq<Bundle>, first: nat, root: string)
    requires first <= |bundles| && (first > 0 ==> !Lists(bundles[first - 1], root))
    ensures DatasetFor(Earlier(bundles, first), root).None?
  {
    DatasetListed(Earlier(bundles, first), root);
  }

  /** From the bundle a root first appears in, its datasets form a run: every law
      of dataset histories holds for every root of every bundle history. */
  lemma {:induction false} RootHistoryIsRun(
    graphs: seq<Graph>, selections: seq<seq<string>>, bundles: seq<Bundle>, first: nat, root: string)
    requires BundleRun(graphs, selections, bundles) && first < |bundles|
    requires Lists(bundles[first], root) && (first > 0 ==> !Lists(bundles[first - 1], root))
    ensures |graphs| == |bundles| && ListedThroughout(bundles[first..], root)
    ensures Run(graphs[first..], root, HistoryOf(bundles[first..], root))
  {
    SameLength(graphs, selections, bundles);
    ListedLater(graphs, selections, bundles, first, root);
    var outputs := HistoryOf(bundles[first..], root);
    forall k | 0 <= k < |outputs|
      ensures WellFormed(graphs[first..][k])
      ensures CompileMessage(graphs[first..][k], root, Before(outputs, k)) == Ok(outputs[k])
    {
      hide *;
      HistoryAt(graphs, selections, bundles, first, root, k);
    }
  }

  lemma {:induction false} SameLength(graphs: seq<Graph>, selections: seq<seq<string>>, bundles: seq<Bundle>)
    requires BundleRun(graphs, selections, bundles)
    ensures |graphs| == |bundles|
  {
    hide BundleStep;
  }

  lemma {:induction false} HistoryAt(
    graphs: seq<Graph>, selections: seq<seq<string>>, bundles: seq<Bundle>, first: nat, root: string, k: nat)
    requires BundleRun(graphs, selections, bundles) && first + k < |bundles| == |graphs|
    requires ListedThroughout(bundles[first..], root)
    requires Lists(bundles[first], root) && (first > 0 ==> !Lists(bundles[first - 1], root))
    ensures var outputs := HistoryOf(bundles[first..], root);
            && WellFormed(graphs[first..][k])
            && CompileMessage(graphs[first..][k], root, Before(outputs, k)) == Ok(outputs[k])
  {
    hide WellFormed, CompileMessage, BundleRun, DatasetFor, Lists;
    var at := first + k;
    HistoryStep(graphs, selections, bundles, first, root, at);
    NotListed(bundles, first, root);
    var outputs := HistoryOf(bundles[first..], root);
    assert graphs[first..][k] == graphs[at] && bundles[first..][k] == bundles[at];
    assert k > 0 ==> bundles[first..][k - 1] == Earlier(bundles, at);
  }
}
