/** Filtering a file's services and methods for reflection, with its source
    comments remapped to the new indexes. */
module ReflectionFiles {

  import opened Results

  datatype Service = Service(name: string, methods: seq<string>)

  /** A source location: a descriptor path and the comment it carries. */
  datatype Location = Location(path: seq<int>, comment: string)

  datatype File = File(package: string, services: seq<Service>, locations: seq<Location>)

  /** The method names each registered service dispatches. */
  type Registered = map<string, set<string>>

  const SERVICE := 6

  const METHOD := 2

  function FullName(package: string, name: string): string {
    if package == "" then name else package + "." + name
  }

  predicate Keeps(r: Registered, package: string, s: Service) {
    FullName(package, s.name) in r
  }

  predicate KeepsMethod(r: Registered, package: string, s: Service, name: string) {
    Keeps(r, package, s) && name in r[FullName(package, s.name)]
  }

  // ----- filtering -----

  function Methods(r: Registered, package: string, s: Service, names: seq<string>): seq<string> {
    if names == [] then
      []
    else
      Methods(r, package, s, names[..|names| - 1]) +
      if KeepsMethod(r, package, s, names[|names| - 1]) then [names[|names| - 1]] else []
  }

  function Trimmed(r: Registered, package: string, s: Service): Service {
    Service(s.name, Methods(r, package, s, s.methods))
  }

  function Services(r: Registered, package: string, services: seq<Service>): seq<Service> {
    if services == [] then
      []
    else
      Services(r, package, services[..|services| - 1]) +
      if Keeps(r, package, services[|services| - 1]) then [Trimmed(r, package, services[|services| - 1])] else []
  }

  /** The index of a retained service in the filtered list. */
  function ServiceIndex(r: Registered, f: File, i: int): Option<nat> {
    if 0 <= i < |f.services| && Keeps(r, f.package, f.services[i]) then
      Some(|Services(r, f.package, f.services[..i])|)
    else
      None
  }

  function MethodIndex(r: Registered, package: string, s: Service, j: int): Option<nat> {
    if 0 <= j < |s.methods| && KeepsMethod(r, package, s, s.methods[j]) then
      Some(|Methods(r, package, s, s.methods[..j])|)
    else
      None
  }

  predicate ServicePath(path: seq<int>) {
    |path| >= 2 && path[0] == SERVICE
  }

  predicate MethodPath(path: seq<int>) {
    ServicePath(path) && |path| >= 4 && path[2] == METHOD
  }

  /** Where a path leads after filtering, if what it names is retained. */
  function Remap(r: Registered, f: File, path: seq<int>): Option<seq<int>> {
    if !ServicePath(path) then
      Some(path)
    else match ServiceIndex(r, f, path[1])
         case None => None
         case Some(i) =>
           if !MethodPath(path) then
             Some(path[1 := i])
           else match MethodIndex(r, f.package, f.services[path[1]], path[3])
                case None => None
                case Some(j) => Some(path[1 := i][3 := j])
  }

  function Locations(r: Registered, f: File, locations: seq<Location>): seq<Location> {
    if locations == [] then
      []
    else
      var last := locations[|locations| - 1];
      Locations(r, f, locations[..|locations| - 1]) +
      match Remap(r, f, last.path)
      case None => []
      case Some(path) => [Location(path, last.comment)]
  }

  function Filtered(r: Registered, f: File): File {
    File(f.package, Services(r, f.package, f.services), Locations(r, f, f.locations))
  }

  /** The comment at a path: the last location there that has one. */
  function Comment(locations: seq<Location>, path: seq<int>): Option<string> {
    if locations == [] then
      None
    else
      var last := locations[|locations| - 1];
      if last.path == path && last.comment != "" then Some(last.comment)
          else Comment(locations[..|locations| - 1], path)
  }

  // ----- indexes -----

  lemma {:induction false} ServicesGrow(r: Registered, package: string, services: seq<Service>, i: nat, k: nat)
    requires i < k <= |services| && Keeps(r, package, services[i])
    ensures |Services(r, package, services[..i])| < |Services(r, package, services[..k])|
    ensures Services(r, package, services[..k])[|Services(r, package, services[..i])|]
            == Trimmed(r, package, services[i])
  {
    hide Keeps, Trimmed;
    assert services[..k][..k - 1] == services[..k - 1];
    if i < k - 1 {
      ServicesGrow(r, package, services, i, k - 1);
    }
  }

  lemma {:induction false} MethodsGrow(r: Registered, package: string, s: Service, names: seq<string>, i: nat, k: nat)
    requires i < k <= |names| && KeepsMethod(r, package, s, names[i])
    ensures |Methods(r, package, s, names[..i])| < |Methods(r, package, s, names[..k])|
    ensures Methods(r, package, s, names[..k])[|Methods(r, package, s, names[..i])|] == names[i]
  {
    hide KeepsMethod;
    assert names[..k][..k - 1] == names[..k - 1];
    if i < k - 1 {
      MethodsGrow(r, package, s, names, i, k - 1);
    }
  }

  /** A retained service stands at its new index with its retained methods. */
  lemma {:induction false} ServiceMoves(r: Registered, f: File, i: int)
    requires ServiceIndex(r, f, i).Some?
    ensures var k := ServiceIndex(r, f, i).value;
            && k < |Filtered(r, f).services|
            && Filtered(r, f).services[k] == Trimmed(r, f.package, f.services[i])
  {
    ServicesGrow(r, f.package, f.services, i, |f.services|);
    assert f.services[..|f.services|] == f.services;
  }

  /** A retained method stands at its new index. */
  lemma {:induction false} MethodMoves(r: Registered, package: string, s: Service, j: int)
    requires MethodIndex(r, package, s, j).Some?
    ensures var k := MethodIndex(r, package, s, j).value;
            k < |Trimmed(r, package, s).methods| && Trimmed(r, package, s).methods[k] == s.methods[j]
  {
    MethodsGrow(r, package, s, s.methods, j, |s.methods|);
    assert s.methods[..|s.methods|] == s.methods;
  }

  lemma {:induction false} ServiceIndexInjective(r: Registered, f: File, i: int, j: int)
    requires ServiceIndex(r, f, i).Some? && ServiceIndex(r, f, i) == ServiceIndex(r, f, j)
    ensures i == j
  {
    if i < j {
      ServicesGrow(r, f.package, f.services, i, j);
    } else if j < i {
      ServicesGrow(r, f.package, f.services, j, i);
    }
  }

  lemma {:induction false} MethodIndexInjective(r: Registered, package: string, s: Service, i: int, j: int)
    requires MethodIndex(r, package, s, i).Some? && MethodIndex(r, package, s, i) == MethodIndex(r, package, s, j)
    ensures i == j
  {
    if i < j {
      MethodsGrow(r, package, s, s.methods, i, j);
    } else if j < i {
      MethodsGrow(r, package, s, s.methods, j, i);
    }
  }

  // ----- remapping -----

  lemma {:induction false} RemapShape(r: Registered, f: File, path: seq<int>)
    requires Remap(r, f, path).Some?
    ensures var q := Remap(r, f, path).value;
            && |q| == |path|
            && (ServicePath(q) <==> ServicePath(path)) && (MethodPath(q) <==> MethodPath(path))
            && (forall k :: 0 <= k < |path| && k != 1 && k != 3 ==> q[k] == path[k])
            && (ServicePath(path) ==> ServiceIndex(r, f, path[1]) == Some(q[1]))
            && (!ServicePath(path) ==> q == path)
            && (MethodPath(path) ==> MethodIndex(r, f.package, f.services[path[1]], path[3]) == Some(q[3]))
            && (ServicePath(path) && !MethodPath(path) ==> q == path[1 := q[1]])
  {
    hide ServiceIndex, MethodIndex;
    if ServicePath(path) {
      ServiceInRange(r, f, path[1]);
    }
  }

  lemma {:induction false} ServiceInRange(r: Registered, f: File, i: int)
    ensures ServiceIndex(r, f, i).Some? ==> 0 <= i < |f.services|
  {
  }

  /** Different paths never land on the same path. */
  lemma {:induction false} RemapInjective(r: Registered, f: File, p: seq<int>, q: seq<int>)
    requires Remap(r, f, p).Some? && Remap(r, f, p) == Remap(r, f, q)
    ensures p == q
  {
    hide ServiceIndex, MethodIndex, Remap, Keeps;
    RemapShape(r, f, p);
    RemapShape(r, f, q);
    var t := Remap(r, f, p).value;
    if ServicePath(t) {
      ServiceInRange(r, f, p[1]);
      ServiceIndexInjective(r, f, p[1], q[1]);
      if MethodPath(t) {
        MethodIndexInjective(r, f.package, f.services[p[1]], p[3], q[3]);
      } else {
        assert p == t[1 := p[1]] && q == t[1 := q[1]];
      }
      assert forall k :: 0 <= k < |t| && k != 1 && k != 3 ==> p[k] == q[k];
    }
  }

  /** Comment lookup commutes with filtering: what is retained keeps exactly its
      own comment at its new path. */
  lemma {:induction false} CommentMoves(r: Registered, f: File, locations: seq<Location>, path: seq<int>)
    requires Remap(r, f, path).Some?
    ensures Comment(Locations(r, f, locations), Remap(r, f, path).value) == Comment(locations, path)
  {
    hide Remap;
    if locations != [] {
      var init, last := locations[..|locations| - 1], locations[|locations| - 1];
      CommentMoves(r, f, init, path);
      match Remap(r, f, last.path)
      case None =>
        assert Locations(r, f, init) + [] == Locations(r, f, init);
      case Some(moved) =>
        var all := Locations(r, f, init) + [Location(moved, last.comment)];
        assert all[..|all| - 1] == Locations(r, f, init);
        if moved == Remap(r, f, path).value {
          RemapInjective(r, f, last.path, path);
        }
    }
  }

  /** No comment appears where nothing retained was moved to. */
  lemma {:induction false} NoStrayComment(
    r: Registered, f: File, locations: seq<Location>, path: seq<int>) returns (from: seq<int>)
    requires Comment(Locations(r, f, locations), path).Some?
    ensures Remap(r, f, from) == Some(path)
    ensures Comment(locations, from) == Comment(Locations(r, f, locations), path)
  {
    hide Remap, Comment;
    from := CommentSource(r, f, locations, path);
    CommentMoves(r, f, locations, from);
  }

  lemma {:induction false} CommentSource(
    r: Registered, f: File, locations: seq<Location>, path: seq<int>) returns (from: seq<int>)
    requires Comment(Locations(r, f, locations), path).Some?
    ensures Remap(r, f, from) == Some(path)
  {
    hide Remap;
    var init, last := locations[..|locations| - 1], locations[|locations| - 1];
    match Remap(r, f, last.path)
    case None =>
      assert Locations(r, f, init) + [] == Locations(r, f, init);
      from := CommentSource(r, f, init, path);
    case Some(moved) =>
      var all := Locations(r, f, init) + [Location(moved, last.comment)];
      assert all[..|all| - 1] == Locations(r, f, init);
      if moved == path && last.comment != "" {
        from := last.path;
      } else {
        from := CommentSource(r, f, init, path);
      }
  }

  /** In the filtered file, a retained method's comment is the one it had. */
  lemma {:induction false} MethodKeepsComment(r: Registered, f: File, i: nat, j: nat)
    requires ServiceIndex(r, f, i).Some? && MethodIndex(r, f.package, f.services[i], j).Some?
    ensures var g := Filtered(r, f);
            var si, mi := ServiceIndex(r, f, i).value, MethodIndex(r, f.package, f.services[i], j).value;
            && si < |g.services| && mi < |g.services[si].methods|
            && g.services[si].name == f.services[i].name && g.services[si].methods[mi] == f.services[i].methods[j]
            && Comment(g.locations, [SERVICE, si]) == Comment(f.locations, [SERVICE, i])
            && Comment(g.locations, [SERVICE, si, METHOD, mi]) == Comment(f.locations, [SERVICE, i, METHOD, j])
  {
    hide Comment, Locations, Services, Methods, Keeps;
    var p, q := [SERVICE, i], [SERVICE, i, METHOD, j];
    ServiceMoves(r, f, i);
    MethodMoves(r, f.package, f.services[i], j);
    var si, mi := ServiceIndex(r, f, i).value, MethodIndex(r, f.package, f.services[i], j).value;
    assert p[1 := si] == [SERVICE, si];
    assert q[1 := si][3 := mi] == [SERVICE, si, METHOD, mi];
    CommentMoves(r, f, f.locations, p);
    CommentMoves(r, f, f.locations, q);
  }

  // ----- the loops -----

  method FilterMethods(
    r: Registered, package: string, s: Service) returns (methods: seq<string>, indexes: map<int, nat>)
    ensures methods == Methods(r, package, s, s.methods)
    ensures MethodTable(r, package, s, indexes)
  {
    hide KeepsMethod;
    methods, indexes := [], map[];
    for j := 0 to |s.methods|
      invariant methods == Methods(r, package, s, s.methods[..j])
      invariant forall k :: k in indexes <==> 0 <= k < j && MethodIndex(r, package, s, k).Some?
      invariant forall k :: k in indexes ==> Some(indexes[k]) == MethodIndex(r, package, s, k)
    {
      assert s.methods[..j + 1][..j] == s.methods[..j];
      if KeepsMethod(r, package, s, s.methods[j]) {
        indexes := indexes[j := |methods|];
        methods := methods + [s.methods[j]];
      }
    }
    assert s.methods[..|s.methods|] == s.methods;
  }

  method FilterServices(r: Registered, f: File)
    returns (services: seq<Service>, serviceIndexes: map<int, nat>, methodIndexes: map<int, map<int, nat>>)
    ensures services == Services(r, f.package, f.services)
    ensures ServicesIndexed(r, f, |f.services|, serviceIndexes) && MethodsIndexed(r, f, serviceIndexes, methodIndexes)
  {
    hide Keeps, Methods, MethodIndex, ServiceIndex, ServicesIndexed, MethodsIndexed, MethodTable;
    services, serviceIndexes, methodIndexes := [], map[], map[];
    NothingIndexed(r, f);
    for i := 0 to |f.services|
      invariant services == Services(r, f.package, f.services[..i])
      invariant ServicesIndexed(r, f, i, serviceIndexes) && MethodsIndexed(r, f, serviceIndexes, methodIndexes)
    {
      assert f.services[..i + 1][..i] == f.services[..i];
      IndexStep(r, f, i, serviceIndexes);
      if Keeps(r, f.package, f.services[i]) {
        var methods, indexes := FilterMethods(r, f.package, f.services[i]);
        TableStep(r, f, i, serviceIndexes, methodIndexes, indexes);
        serviceIndexes := serviceIndexes[i := |services|];
        methodIndexes := methodIndexes[i := indexes];
        services := services + [Service(f.services[i].name, methods)];
      }
    }
    assert f.services[..|f.services|] == f.services;
  }

  lemma {:induction false} NothingIndexed(r: Registered, f: File)
    ensures ServicesIndexed(r, f, 0, map[]) && MethodsIndexed(r, f, map[], map[])
  {
    hide ServiceIndex, MethodTable;
  }

  lemma {:induction false} IndexStep(r: Registered, f: File, i: nat, services: map<int, nat>)
    requires i < |f.services| && ServicesIndexed(r, f, i, services)
    ensures if Keeps(r, f.package, f.services[i])
            then ServicesIndexed(r, f, i + 1, services[i := |Services(r, f.package, f.services[..i])|])
            else ServicesIndexed(r, f, i + 1, services)
  {
    hide Keeps, Services;
  }

  lemma {:induction false} TableStep(
    r: Registered, f: File, i: nat, services: map<int, nat>, methods: map<int, map<int, nat>>, table: map<int, nat>)
    requires i < |f.services| && MethodsIndexed(r, f, services, methods)
    requires MethodTable(r, f.package, f.services[i], table)
    ensures forall k: nat {:trigger services[i := k]} :: MethodsIndexed(r, f, services[i := k], methods[i := table])
  {
    hide MethodTable;
  }

  ghost predicate ServicesIndexed(r: Registered, f: File, upto: int, indexes: map<int, nat>) {
    && (forall k :: k in indexes <==> 0 <= k < upto && ServiceIndex(r, f, k).Some?)
    && (forall k :: k in indexes ==> Some(indexes[k]) == ServiceIndex(r, f, k))
  }

  ghost predicate MethodsIndexed(r: Registered, f: File, services: map<int, nat>, indexes: map<int, map<int, nat>>) {
    && indexes.Keys == services.Keys
    && forall k :: k in indexes ==> 0 <= k < |f.services| && MethodTable(r, f.package, f.services[k], indexes[k])
  }

  ghost predicate MethodTable(r: Registered, package: string, s: Service, table: map<int, nat>) {
    && (forall j :: j in table <==> MethodIndex(r, package, s, j).Some?)
    && (forall j :: j in table ==> Some(table[j]) == MethodIndex(r, package, s, j))
  }

  /** The rewriting loop of buildReflectionFiles for one file. */
  method FilterFile(r: Registered, f: File) returns (g: File)
    ensures g == Filtered(r, f)
  {
    hide Keeps, Methods, MethodIndex, ServiceIndex, Services;
    var services, serviceIndexes, methodIndexes := FilterServices(r, f);
    var locations: seq<Location> := [];
    for k := 0 to |f.locations|
      invariant locations == Locations(r, f, f.locations[..k])
    {
      assert f.locations[..k + 1][..k] == f.locations[..k];
      var location := f.locations[k];
      var path := location.path;
      if |path| >= 2 && path[0] == SERVICE {
        if path[1] !in serviceIndexes {
          OutOfRange(r, f, path[1], serviceIndexes);
          continue;
        }
        var moved := path[1 := serviceIndexes[path[1]]];
        if |path| >= 4 && path[2] == METHOD {
          if path[3] !in methodIndexes[path[1]] {
            continue;
          }
          moved := moved[3 := methodIndexes[path[1]][path[3]]];
        }
        path := moved;
      }
      locations := locations + [Location(path, location.comment)];
    }
    assert f.locations[..|f.locations|] == f.locations;
    g := File(f.package, services, locations);
  }

  lemma {:induction false} OutOfRange(r: Registered, f: File, i: int, indexes: map<int, nat>)
    requires ServicesIndexed(r, f, |f.services|, indexes) && i !in indexes
    ensures ServiceIndex(r, f, i).None?
  {
  }
}
