/** Closures over descriptor graphs, which may be cyclic. */
module Reachability {

  import opened Tables

  /** What a field's type refers to. */
  datatype Ref = MessageRef(name: string) | EnumRef(file: string) | ScalarRef

  datatype Message = Message(file: string, fields: seq<Ref>)

  type Messages = map<string, Message>

  ghost predicate Edge(g: Messages, a: string, b: string) {
    a in g && MessageRef(b) in g[a].fields
  }

  ghost predicate Walk(g: Messages, w: seq<string>) {
    |w| > 0 && forall k :: 0 < k < |w| ==> Edge(g, w[k - 1], w[k])
  }

  ghost predicate Reaches(g: Messages, a: string, b: string) {
    exists w :: Walk(g, w) && w[0] == a && w[|w| - 1] == b
  }

  lemma {:induction false} ReachesItself(g: Messages, a: string)
    ensures Reaches(g, a, a)
  {
    assert Walk(g, [a]);
    assert [a][0] == a;
  }

  lemma {:induction false} ReachesOn(g: Messages, a: string, b: string, c: string)
    requires Edge(g, a, b) && Reaches(g, b, c)
    ensures Reaches(g, a, c)
  {
    var w :| Walk(g, w) && w[0] == b && w[|w| - 1] == c;
    var longer := [a] + w;
    forall k | 0 < k < |longer|
      ensures Edge(g, longer[k - 1], longer[k])
    {
      assert k > 1 ==> longer[k - 1] == w[k - 2] && longer[k] == w[k - 1];
    }
    assert Walk(g, longer) && longer[0] == a && longer[|longer| - 1] == c;
  }

  /** A set that keeps every message its members refer to. */
  ghost predicate Closed(g: Messages, s: set<string>) {
    forall a, b :: a in s && Edge(g, a, b) ==> b in s
  }

  lemma {:induction false} WalkStays(g: Messages, s: set<string>, w: seq<string>)
    requires Closed(g, s) && Walk(g, w) && w[0] in s
    ensures w[|w| - 1] in s
  {
    if |w| > 1 {
      var init := w[..|w| - 1];
      assert Walk(g, init);
      WalkStays(g, s, init);
      assert Edge(g, w[|w| - 2], w[|w| - 1]);
    }
  }

  /** The files a message contributes: its own and those of its enums. */
  ghost predicate Contributes(g: Messages, m: string, file: string) {
    m in g && (file == g[m].file || EnumRef(file) in g[m].fields)
  }

  /** addReachableMessageFiles and add_message_files: both tables are shared by
      the whole recursion. */
  class Walker {
    const g: Messages
    var seen: set<string>
    var files: set<string>

    constructor (g: Messages, files: set<string>)
      ensures this.g == g && seen == {} && this.files == files
    {
      this.g := g;
      seen := {};
      this.files := files;
    }

    /** Everything newly seen is reachable, and all that it refers to is seen. */
    method Add(m: string)
      modifies this
      ensures old(seen) <= seen && m in seen
      ensures forall x :: x in seen && x !in old(seen) ==> Reaches(g, m, x)
      ensures forall x, y :: x in seen && x !in old(seen) && Edge(g, x, y) ==> y in seen
      ensures forall f :: f in files <==>
              f in old(files) || exists x :: x in seen && x !in old(seen) && Contributes(g, x, f)
      decreases g.Keys - seen
    {
      hide Reaches;
      if m in seen {
        return;
      }
      ReachesItself(g, m);
      seen := seen + {m};
      if m !in g {
        return;
      }
      files := files + {g[m].file};
      ghost var before, given := old(seen), old(files);
      var fields := g[m].fields;
      for k := 0 to |fields|
        invariant before + {m} <= seen
        invariant forall x :: x in seen && x !in before ==> Reaches(g, m, x)
        invariant forall x, y :: x in seen && x !in before && x != m && Edge(g, x, y) ==> y in seen
        invariant forall j :: 0 <= j < k && fields[j].MessageRef? ==> fields[j].name in seen
        invariant forall f :: f in files <==>
          || f in given
          || f == g[m].file
          || EnumRef(f) in fields[..k]
          || exists x :: x in seen && x !in before && x != m && Contributes(g, x, f)
      {
        assert fields[..k + 1] == fields[..k] + [fields[k]];
        match fields[k] {
          case MessageRef(name) =>
            ghost var was := seen;
            Add(name);
            assert Edge(g, m, name);
            forall x | x in seen && x !in before
              ensures Reaches(g, m, x)
            {
              if x !in was {
                ReachesOn(g, m, name, x);
              }
            }
            forall f
              ensures f in files <==>
                || f in given
                || f == g[m].file
                || EnumRef(f) in fields[..k + 1]
                || exists x :: x in seen && x !in before && x != m && Contributes(g, x, f)
            {
              Merge(g, m, before, was, seen, f);
            }
          case EnumRef(file) =>
            files := files + {file};
          case ScalarRef =>
        }
      }
      assert fields[..|fields|] == fields;
      forall x, y | x in seen && x !in before && Edge(g, x, y)
        ensures y in seen
      {
        if x == m {
          var j :| 0 <= j < |fields| && fields[j] == MessageRef(y);
        }
      }
      forall f
        ensures f in files <==> f in given || exists x :: x in seen && x !in before && Contributes(g, x, f)
      {
        Own(g, m, before, seen, f);
      }
    }
  }

  lemma {:induction false} Merge(
    g: Messages, m: string, before: set<string>, was: set<string>, now: set<string>, f: string)
    requires before + {m} <= was <= now
    ensures (exists x :: x in now && x !in before && x != m && Contributes(g, x, f)) <==>
              || (exists x :: x in was && x !in before && x != m && Contributes(g, x, f))
              || (exists x :: x in now && x !in was && Contributes(g, x, f))
  {
  }

  lemma {:induction false} Own(g: Messages, m: string, before: set<string>, now: set<string>, f: string)
    requires m in g && m in now && m !in before
    ensures (exists x :: x in now && x !in before && Contributes(g, x, f)) <==>
              || f == g[m].file
              || EnumRef(f) in g[m].fields
              || (exists x :: x in now && x !in before && x != m && Contributes(g, x, f))
  {
    assert Contributes(g, m, f) <==> f == g[m].file || EnumRef(f) in g[m].fields;
  }

  ghost predicate ReachedFrom(g: Messages, roots: seq<string>, m: string) {
    exists k :: 0 <= k < |roots| && Reaches(g, roots[k], m)
  }

  /** reachableServiceFiles: the service's own file and the files of every message
      reachable from a request or response, with their enums. */
  method ReachableServiceFiles(g: Messages, file: string, roots: seq<string>) returns (files: set<string>)
    ensures forall f :: f in files <==> f == file || exists m :: ReachedFrom(g, roots, m) && Contributes(g, m, f)
  {
    hide Reaches, Contributes;
    var walker := new Walker(g, {file});
    for k := 0 to |roots|
      invariant walker.g == g
      invariant forall x :: x in walker.seen ==> ReachedFrom(g, roots[..k], x)
      invariant Closed(g, walker.seen)
      invariant forall j :: 0 <= j < k ==> roots[j] in walker.seen
      invariant forall f :: f in walker.files <==> f == file || exists x :: x in walker.seen && Contributes(g, x, f)
    {
      ghost var was := walker.seen;
      walker.Add(roots[k]);
      forall x | x in walker.seen
        ensures ReachedFrom(g, roots[..k + 1], x)
      {
        ReachedMore(g, roots, k, x);
      }
    }
    assert roots[..|roots|] == roots;
    forall m
      ensures m in walker.seen <==> ReachedFrom(g, roots, m)
    {
      if ReachedFrom(g, roots, m) {
        ClosedKeeps(g, walker.seen, roots, m);
      }
    }
    files := walker.files;
  }

  lemma {:induction false} ReachedMore(g: Messages, roots: seq<string>, k: nat, x: string)
    requires k < |roots| && (ReachedFrom(g, roots[..k], x) || Reaches(g, roots[k], x))
    ensures ReachedFrom(g, roots[..k + 1], x)
  {
    hide Reaches;
    var more := roots[..k + 1];
    if Reaches(g, roots[k], x) {
      assert more[k] == roots[k];
    } else {
      var j :| 0 <= j < |roots[..k]| && Reaches(g, roots[..k][j], x);
      assert more[j] == roots[..k][j];
    }
  }

  lemma {:induction false} ClosedKeeps(g: Messages, s: set<string>, roots: seq<string>, m: string)
    requires Closed(g, s) && ReachedFrom(g, roots, m) && forall j :: 0 <= j < |roots| ==> roots[j] in s
    ensures m in s
  {
    var k :| 0 <= k < |roots| && Reaches(g, roots[k], m);
    var w :| Walk(g, w) && w[0] == roots[k] && w[|w| - 1] == m;
    WalkStays(g, s, w);
  }

  // ----- file dependencies -----

  type Files = map<string, seq<string>>

  ghost predicate DependencyClosed(files: Files, paths: set<string>) {
    forall p, d :: p in paths && p in files && d in files[p] ==> d in paths
  }

  /** Every path that can occur. */
  function Universe(files: Files, paths: set<string>): set<string> {
    paths + set p, d | p in files && d in files[p] :: d
  }

  method Listed(s: set<string>) returns (list: seq<string>)
    ensures forall x :: x in list <==> x in s
  {
    list := [];
    var rest := s;
    while rest != {}
      invariant rest <= s && forall x :: x in list <==> x in s && x !in rest
      decreases |rest|
    {
      ghost var some := Member(rest);
      var x :| x in rest;
      list := list + [x];
      rest := rest - {x};
    }
  }

  /** add_file_dependencies: the least superset closed under dependencies. */
  method AddFileDependencies(files: Files, given: set<string>) returns (paths: set<string>)
    ensures given <= paths && DependencyClosed(files, paths)
    ensures forall other :: given <= other && DependencyClosed(files, other) ==> paths <= other
  {
    paths := given;
    var pending := Listed(paths);
    ghost var universe := Universe(files, given);
    while pending != []
      invariant given <= paths <= universe
      invariant forall p :: p in pending ==> p in paths
      invariant Settled(files, paths, pending)
      invariant Least(files, given, paths)
      decreases universe - paths, |pending|
    {
      var path := pending[|pending| - 1];
      ghost var before := pending;
      pending := pending[..|pending| - 1];
      assert before == pending + [path];
      if path in files {
        var dependencies := files[path];
        ghost var was := paths;
        ghost var rest := pending;
        for k := 0 to |dependencies|
          invariant was <= paths <= universe && rest <= pending
          invariant forall p :: p in pending ==> p in paths
          invariant forall j :: 0 <= j < k ==> dependencies[j] in paths
          invariant forall p :: p in paths && p !in was ==> p in pending
          invariant paths == was ==> pending == rest
          invariant Least(files, given, paths)
        {
          assert dependencies[k] in files[path];
          assert dependencies[k] in universe;
          if dependencies[k] !in paths {
            LeastGrows(files, given, paths, path, dependencies[k]);
            paths := paths + {dependencies[k]};
            pending := pending + [dependencies[k]];
          }
        }
        SettledNext(files, was, before, paths, pending, path, rest);
      }
    }
  }

  /** What is not pending has its dependencies in place. */
  ghost predicate Settled(files: Files, paths: set<string>, pending: seq<string>) {
    forall p, d :: p in paths && p !in pending && p in files && d in files[p] ==> d in paths
  }

  /** Nothing was added that a closed superset could leave out. */
  ghost predicate Least(files: Files, given: set<string>, paths: set<string>) {
    forall other :: given <= other && DependencyClosed(files, other) ==> paths <= other
  }

  lemma {:induction false} LeastGrows(files: Files, given: set<string>, paths: set<string>, p: string, d: string)
    requires Least(files, given, paths) && p in paths && p in files && d in files[p]
    ensures Least(files, given, paths + {d})
  {
  }

  lemma {:induction false} SettledNext(
    files: Files, was: set<string>, before: seq<string>, paths: set<string>, pending: seq<string>, path: string,
    rest: seq<string>)
    requires Settled(files, was, before) && before == rest + [path] && rest <= pending && was <= paths
    requires path in files && forall d :: d in files[path] ==> d in paths
    requires forall p :: p in paths && p !in was ==> p in pending
    ensures Settled(files, paths, pending)
  {
    forall p, d | p in paths && p !in pending && p in files && d in files[p]
      ensures d in paths
    {
      if p != path {
        assert p !in before;
      }
    }
  }
}
