/** A built HTTP request conserves the message. */
module HttpConservation {

  import opened HttpRequests
  import opened Results

  // ----- removing one field -----

  lemma {:induction false} Cancel(a: multiset<Leaf>, b: multiset<Leaf>, c: multiset<Leaf>)
    requires a + b == c + b
    ensures a == c
  {
    assert a == a + b - b && c == c + b - b;
  }

  lemma {:induction false} Regroup(
    h: multiset<Leaf>, a: multiset<Leaf>, b: multiset<Leaf>, c: multiset<Leaf>, d: multiset<Leaf>)
    requires a + b == c + d
    ensures h + a + b == h + c + d
  {
    assert h + a + b == h + (a + b) && h + c + d == h + (c + d);
  }

  lemma {:induction false} FirstLeaves(m: Member, rest: seq<Member>, at: Path)
    ensures multiset(MemberLeaves([m] + rest, at))
            == multiset(Leaves(m.value, at + [m.key])) + multiset(MemberLeaves(rest, at))
  {
    hide Leaves;
    assert ([m] + rest)[1..] == rest;
  }

  lemma {:induction false} WithoutLeaves(members: seq<Member>, key: string, at: Path)
    requires Find(members, key).Some?
    ensures multiset(MemberLeaves(members, at))
         == multiset(MemberLeaves(Without(members, key), at)) + multiset(Leaves(Find(members, key).value, at + [key]))
  {
    hide Leaves, MemberLeaves;
    assert members == [members[0]] + members[1..];
    FirstLeaves(members[0], members[1..], at);
    if members[0].key != key {
      WithoutLeaves(members[1..], key, at);
      FirstLeaves(members[0], Without(members[1..], key), at);
    }
  }

  lemma {:induction false} ReplacedLeaves(members: seq<Member>, key: string, w: Json, at: Path)
    requires Find(members, key).Some?
    ensures multiset(MemberLeaves(members, at)) + multiset(Leaves(w, at + [key]))
         == multiset(MemberLeaves(Replaced(members, key, w), at))
             + multiset(Leaves(Find(members, key).value, at + [key]))
  {
    hide Leaves, MemberLeaves;
    assert members == [members[0]] + members[1..];
    FirstLeaves(members[0], members[1..], at);
    if members[0].key == key {
      FirstLeaves(Member(key, w), members[1..], at);
    } else {
      ReplacedLeaves(members[1..], key, w, at);
      FirstLeaves(members[0], Replaced(members[1..], key, w), at);
      Regroup(
        multiset(Leaves(members[0].value, at + [members[0].key])),
        multiset(MemberLeaves(members[1..], at)), multiset(Leaves(w, at + [key])),
        multiset(MemberLeaves(Replaced(members[1..], key, w), at)),
            multiset(Leaves(Find(members, key).value, at + [key])));
    }
  }

  /** Deleting a field removes exactly its leaves. */
  lemma {:induction false} DeleteLeaves(members: seq<Member>, path: Path, at: Path)
    requires path != [] && Get(members, path).Some?
    ensures multiset(MemberLeaves(members, at))
         == multiset(MemberLeaves(Delete(members, path), at)) + multiset(Leaves(Get(members, path).value, at + path))
    decreases |path|
  {
    hide MemberLeaves, Find, Without, Replaced;
    var key := path[0];
    if |path| == 1 {
      assert path == [key];
      WithoutLeaves(members, key, at);
    } else {
      var inner := Find(members, key).value.members;
      var rest := path[1..];
      var left := Delete(inner, rest);
      DeleteLeaves(inner, rest, at + [key]);
      assert at + [key] + rest == at + path;
      ReplacedLeaves(members, key, Object(left), at);
      Cancel(
        multiset(MemberLeaves(members, at)), multiset(MemberLeaves(left, at + [key])),
        multiset(MemberLeaves(Delete(members, path), at)) + multiset(Leaves(Get(members, path).value, at + path)));
    }
  }

  lemma {:induction false} ReplacedSame(members: seq<Member>, key: string)
    requires Find(members, key).Some?
    ensures Replaced(members, key, Find(members, key).value) == members
  {
    if members[0].key == key {
      assert members == [members[0]] + members[1..];
    } else {
      ReplacedSame(members[1..], key);
      assert members == [members[0]] + members[1..];
    }
  }

  lemma {:induction false} WithoutMissing(members: seq<Member>, key: string)
    requires Find(members, key).None?
    ensures Without(members, key) == members
  {
    if members != [] {
      WithoutMissing(members[1..], key);
      assert members == [members[0]] + members[1..];
    }
  }

  lemma {:induction false} DeleteMissing(members: seq<Member>, path: Path)
    requires path != [] && Get(members, path).None?
    ensures Delete(members, path) == members
    decreases |path|
  {
    hide Find, Without, Replaced;
    var key := path[0];
    if |path| == 1 {
      WithoutMissing(members, key);
    } else if Find(members, key).Some? && Find(members, key).value.Object? {
      DeleteMissing(Find(members, key).value.members, path[1..]);
      ReplacedSame(members, key);
    }
  }

  // ----- several fields -----

  predicate Apart(p: Path, q: Path) {
    !(p <= q) && !(q <= p)
  }

  lemma {:induction false} FindOther(members: seq<Member>, key: string, other: string, w: Json)
    requires key != other
    ensures Find(Without(members, key), other) == Find(members, other)
    ensures Find(Replaced(members, key, w), other) == Find(members, other)
  {
    if members != [] {
      FindOther(members[1..], key, other, w);
      if members[0].key == key {
        assert ([Member(key, w)] + members[1..])[1..] == members[1..];
      } else {
        assert ([members[0]] + Without(members[1..], key))[1..] == Without(members[1..], key);
        assert ([members[0]] + Replaced(members[1..], key, w))[1..] == Replaced(members[1..], key, w);
      }
    }
  }

  lemma {:induction false} FindReplaced(members: seq<Member>, key: string, w: Json)
    requires Find(members, key).Some?
    ensures Find(Replaced(members, key, w), key) == Some(w)
  {
    if members[0].key != key {
      FindReplaced(members[1..], key, w);
      assert ([members[0]] + Replaced(members[1..], key, w))[1..] == Replaced(members[1..], key, w);
    }
  }

  lemma {:induction false} ApartTail(p: Path, q: Path)
    requires p != [] && q != [] && Apart(p, q) && p[0] == q[0]
    ensures |p| > 1 && |q| > 1 && Apart(p[1..], q[1..])
  {
    assert p == [p[0]] + p[1..] && q == [q[0]] + q[1..];
  }

  /** A deletion does not touch fields elsewhere. */
  lemma {:induction false} GetElsewhere(members: seq<Member>, p: Path, q: Path)
    requires p != [] && q != [] && Apart(p, q)
    ensures Get(Delete(members, p), q) == Get(members, q)
    decreases |p|
  {
    hide Find, Without, Replaced;
    var key := p[0];
    if key != q[0] {
      FindOther(members, key, q[0], if |p| > 1 && Find(members, key).Some? && Find(members, key).value.Object?
                                    then Object(Delete(Find(members, key).value.members, p[1..])) else Null);
    } else {
      ApartTail(p, q);
      if Find(members, key).Some? && Find(members, key).value.Object? {
        var inner := Find(members, key).value.members;
        GetElsewhere(inner, p[1..], q[1..]);
        FindReplaced(members, key, Object(Delete(inner, p[1..])));
      }
    }
  }

  lemma {:induction false} GetThrough(members: seq<Member>, p: Path, q: Path)
    requires p != [] && p < q && Get(members, q).Some?
    ensures Get(members, p).Some? && Get(members, p).value.Object?
    decreases |p|
  {
    hide Find;
    assert p[0] == q[0];
    if |p| > 1 {
      assert p[1..] < q[1..];
      GetThrough(Find(members, p[0]).value.members, p[1..], q[1..]);
    }
  }

  lemma {:induction false} ScalarsApart(members: seq<Member>, p: Path, q: Path)
    requires p != [] && q != [] && p != q
    requires Get(members, p).Some? && Get(members, p).value.Scalar? && Get(members, q).Some?
    requires Get(members, q).value.Scalar?
    ensures Apart(p, q)
  {
    hide Get;
    if p <= q {
      GetThrough(members, p, q);
    } else if q <= p {
      GetThrough(members, q, p);
    }
  }

  predicate Paths(variables: seq<Path>) {
    forall k :: 0 <= k < |variables| ==> variables[k] != []
  }

  predicate Distinct(variables: seq<Path>) {
    forall j, k :: 0 <= j < k < |variables| ==> variables[j] != variables[k]
  }

  lemma {:induction false} ExpandedAt(args: seq<Member>, variables: seq<Path>, k: nat)
    requires Paths(variables) && ExpandPath(args, variables).Ok? && k < |variables|
    ensures |ExpandPath(args, variables).value| == |variables|
    ensures Get(args, variables[k]).Some? && Get(args, variables[k]).value.Scalar?
    ensures ExpandPath(args, variables).value[k] == Leaf(variables[k], Get(args, variables[k]).value.text)
  {
    hide Get;
    ExpandedLength(args, variables);
    if k < |variables| - 1 {
      ExpandedAt(args, variables[..|variables| - 1], k);
    }
  }

  lemma {:induction false} ExpandedLength(args: seq<Member>, variables: seq<Path>)
    requires Paths(variables) && ExpandPath(args, variables).Ok?
    ensures |ExpandPath(args, variables).value| == |variables|
  {
    hide Get;
    if variables != [] {
      ExpandedLength(args, variables[..|variables| - 1]);
    }
  }

  lemma {:induction false} GetAfterAll(args: seq<Member>, variables: seq<Path>, q: Path)
    requires Paths(variables) && q != [] && forall k :: 0 <= k < |variables| ==> Apart(variables[k], q)
    ensures Get(DeleteAll(args, variables), q) == Get(args, q)
  {
    hide Get, Delete, Apart;
    if variables != [] {
      GetAfterAll(args, variables[..|variables| - 1], q);
      GetElsewhere(DeleteAll(args, variables[..|variables| - 1]), variables[|variables| - 1], q);
    }
  }

  /** The path takes exactly its variables' leaves. */
  lemma {:induction false} PathLeaves(args: seq<Member>, variables: seq<Path>)
    requires Paths(variables) && Distinct(variables) && ExpandPath(args, variables).Ok?
    ensures multiset(MemberLeaves(args, []))
         == multiset(MemberLeaves(DeleteAll(args, variables), [])) + multiset(ExpandPath(args, variables).value)
  {
    hide Get, Delete, MemberLeaves, Apart;
    if variables != [] {
      var init, last := variables[..|variables| - 1], variables[|variables| - 1];
      assert Distinct(init);
      PathLeaves(args, init);
      ExpandedAt(args, variables, |variables| - 1);
      forall k | 0 <= k < |init|
        ensures Apart(init[k], last)
      {
        ExpandedAt(args, variables, k);
        ScalarsApart(args, init[k], last);
      }
      GetAfterAll(args, init, last);
      DeleteLeaves(DeleteAll(args, init), last, []);
      assert [] + last == last;
    }
  }

  // ----- the query -----

  lemma {:induction false} QueryLeaves(v: Json, at: Path)
    requires EncodeQuery(v, at).Ok?
    ensures EncodeQuery(v, at).value == Leaves(v, at)
    decreases v, 1
  {
    match v
    case Array(items) => QueryItems(items, at);
    case Object(members) => QueryMembers(members, at);
    case _ =>
  }

  lemma {:induction false} QueryItems(items: seq<Json>, at: Path)
    requires EncodeItems(items, at).Ok?
    ensures EncodeItems(items, at).value == ItemLeaves(items, at)
    decreases items, 0
  {
    if items != [] {
      QueryItems(items[1..], at);
    }
  }

  lemma {:induction false} QueryMembers(members: seq<Member>, at: Path)
    requires EncodeMembers(members, at).Ok?
    ensures EncodeMembers(members, at).value == MemberLeaves(members, at)
    decreases members, 0
  {
    hide EncodeQuery, Leaves;
    if members != [] {
      QueryLeaves(members[0].value, at + [members[0].key]);
      QueryMembers(members[1..], at);
    }
  }

  // ----- the request -----

  lemma {:induction false} RestLeaves(rest: seq<Member>, body: Body, connect: bool, r: Request)
    requires body.BodyField? ==> body.path != []
    requires r.body == BodyValue(rest, body, connect)
    requires if body.WholeBody? then r.query == []
             else var left := if body.BodyField? then Delete(rest, body.path)
                 else rest; EncodeMembers(left, []) == Ok(r.query)
    ensures multiset(MemberLeaves(rest, [])) == multiset(BodyLeaves(r, body)) + multiset(r.query)
  {
    hide Get, Delete, EncodeMembers;
    match body
    case NoBody =>
      QueryMembers(rest, []);
    case WholeBody =>
      assert MemberLeaves([], []) == [];
    case BodyField(path) =>
      QueryMembers(Delete(rest, path), []);
      if Get(rest, path).Some? {
        DeleteLeaves(rest, path, []);
        assert [] + path == path;
      } else {
        DeleteMissing(rest, path);
      }
  }

  /** With distinct template variables, every scalar of the arguments lands in
      exactly one of path, body and query. */
  lemma {:induction false} RequestConserves(args: seq<Member>, variables: seq<Path>, body: Body, connect: bool)
    requires Paths(variables) && (body.BodyField? ==> body.path != []) && Distinct(variables)
    requires Build(args, variables, body, connect).Ok?
    ensures Conserved(args, Build(args, variables, body, connect).value, body)
  {
    hide ExpandPath, DeleteAll, EncodeMembers, BodyValue, Delete, MemberLeaves, BodyLeaves;
    var r := Build(args, variables, body, connect).value;
    PathLeaves(args, variables);
    RestLeaves(DeleteAll(args, variables), body, connect, r);
  }

  // ----- repeated variables -----

  lemma {:induction false} LeafBelow(v: Json, at: Path, leaf: Leaf)
    requires leaf in Leaves(v, at)
    ensures at <= leaf.path
    decreases v, 1
  {
    match v
    case Array(items) => ItemBelow(items, at, leaf);
    case Object(members) => var k := MemberBelow(members, at, leaf);
    case _ =>
  }

  lemma {:induction false} ItemBelow(items: seq<Json>, at: Path, leaf: Leaf)
    requires leaf in ItemLeaves(items, at)
    ensures at <= leaf.path
    decreases items, 0
  {
    if leaf in Leaves(items[0], at) {
      LeafBelow(items[0], at, leaf);
    } else {
      ItemBelow(items[1..], at, leaf);
    }
  }

  lemma {:induction false} MemberBelow(members: seq<Member>, at: Path, leaf: Leaf) returns (k: nat)
    requires leaf in MemberLeaves(members, at)
    ensures k < |members| && leaf in Leaves(members[k].value, at + [members[k].key])
    ensures at + [members[k].key] <= leaf.path
    ensures at <= leaf.path
    decreases members, 0
  {
    hide Leaves;
    if leaf in Leaves(members[0].value, at + [members[0].key]) {
      k := 0;
      LeafBelow(members[0].value, at + [members[0].key], leaf);
    } else {
      k := MemberBelow(members[1..], at, leaf);
      k := k + 1;
    }
    assert at == (at + [members[k].key])[..|at|];
  }

  lemma {:induction false} FindAt(members: seq<Member>, key: string) returns (k: nat)
    requires Find(members, key).Some?
    ensures k < |members| && members[k] == Member(key, Find(members, key).value)
  {
    if members[0].key == key {
      k := 0;
    } else {
      k := FindAt(members[1..], key);
      k := k + 1;
    }
  }

  lemma {:induction false} WithoutKeys(members: seq<Member>, key: string, k: nat)
    requires DistinctKeys(members) && k < |Without(members, key)|
    ensures Without(members, key)[k].key != key && Without(members, key)[k] in members
  {
    if members[0].key == key {
      assert Without(members, key)[k] == members[k + 1];
    } else {
      assert DistinctKeys(members[1..]);
      if k > 0 {
        WithoutKeys(members[1..], key, k - 1);
      }
    }
  }

  lemma {:induction false} ReplacedKeys(members: seq<Member>, key: string, w: Json, k: nat)
    requires DistinctKeys(members) && Find(members, key).Some? && k < |Replaced(members, key, w)|
    ensures Replaced(members, key, w)[k] == Member(key, w) || Replaced(members, key, w)[k].key != key
  {
    if members[0].key == key {
      if k > 0 {
        assert Replaced(members, key, w)[k] == members[k];
      }
    } else {
      assert DistinctKeys(members[1..]);
      if k > 0 {
        ReplacedKeys(members[1..], key, w, k - 1);
      }
    }
  }

  lemma {:induction false} InnerWellFormed(members: seq<Member>, key: string)
    requires WellFormedMembers(members) && Find(members, key).Some? && Find(members, key).value.Object?
    ensures WellFormedMembers(Find(members, key).value.members)
  {
    hide Find;
    var k := FindAt(members, key);
    assert WellFormed(members[k].value);
  }

  /** After its deletion no leaf is left at a scalar's path. */
  lemma {:induction false} GoneAfterDelete(members: seq<Member>, path: Path, at: Path, leaf: Leaf)
    requires WellFormedMembers(members) && path != [] && Get(members, path).Some?
    requires leaf in MemberLeaves(Delete(members, path), at)
    ensures leaf.path != at + path
    decreases |path|
  {
    hide Leaves, Find, Without, Replaced, MemberLeaves, WellFormed;
    var key := path[0];
    var left := Delete(members, path);
    var k := MemberBelow(left, at, leaf);
    assert leaf.path[..|at| + 1] == at + [left[k].key];
    assert (at + path)[..|at| + 1] == at + [key];
    assert (at + [left[k].key])[|at|] == left[k].key && (at + [key])[|at|] == key;
    if |path| == 1 {
      WithoutKeys(members, key, k);
    } else {
      var inner := Find(members, key).value.members;
      var w := Object(Delete(inner, path[1..]));
      ReplacedKeys(members, key, w, k);
      if left[k] == Member(key, w) {
        InnerWellFormed(members, key);
        ObjectLeaves(w, at + [key], leaf);
        GoneAfterDelete(inner, path[1..], at + [key], leaf);
        assert at + [key] + path[1..] == at + path;
      }
    }
  }

  lemma {:induction false} ObjectLeaves(v: Json, at: Path, leaf: Leaf)
    requires v.Object? && leaf in Leaves(v, at)
    ensures leaf in MemberLeaves(v.members, at)
  {
  }

  lemma {:induction false} OneLeaf(args: seq<Member>, path: Path)
    requires WellFormedMembers(args) && path != [] && Get(args, path).Some? && Get(args, path).value.Scalar?
    ensures multiset(MemberLeaves(args, []))[Leaf(path, Get(args, path).value.text)] == 1
  {
    hide MemberLeaves, Delete, Get, WellFormedMembers;
    var leaf := Leaf(path, Get(args, path).value.text);
    DeleteLeaves(args, path, []);
    assert [] + path == path;
    var left := MemberLeaves(Delete(args, path), []);
    if leaf in multiset(left) {
      assert leaf in left;
      GoneAfterDelete(args, path, [], leaf);
    }
    assert Leaves(Get(args, path).value, path) == [leaf];
  }

  lemma {:induction false} CountTwice(path: seq<Leaf>, j: nat, k: nat)
    requires j < k < |path| && path[j] == path[k]
    ensures multiset(path)[path[j]] >= 2
  {
    assert path == path[..k] + [path[k]] + path[k + 1..];
    assert path[j] in path[..k];
    assert path[j] in multiset(path[..k]);
  }

  lemma {:induction false} ConservedCount(args: seq<Member>, r: Request, body: Body, leaf: Leaf)
    ensures Conserved(args, r, body) ==> multiset(MemberLeaves(args, []))[leaf] >= multiset(r.path)[leaf]
  {
    hide MemberLeaves, BodyLeaves;
  }

  /** A built request conserves its message exactly when no template variable is
      repeated: a repeated variable puts its scalar into the path twice. */
  lemma {:induction false} ConservedIff(args: seq<Member>, variables: seq<Path>, body: Body, connect: bool)
    requires WellFormedMembers(args) && Paths(variables) && (body.BodyField? ==> body.path != [])
    requires Build(args, variables, body, connect).Ok?
    ensures Conserved(args, Build(args, variables, body, connect).value, body) <==> Distinct(variables)
  {
    hide DeleteAll, EncodeMembers, BodyValue, Delete, MemberLeaves, BodyLeaves, ExpandPath, Get, WellFormedMembers;
    var r := Build(args, variables, body, connect).value;
    if Distinct(variables) {
      RequestConserves(args, variables, body, connect);
    } else {
      var j, k :| 0 <= j < k < |variables| && variables[j] == variables[k];
      ExpandedAt(args, variables, j);
      ExpandedAt(args, variables, k);
      CountTwice(r.path, j, k);
      OneLeaf(args, variables[j]);
      ConservedCount(args, r, body, r.path[j]);
    }
  }

  /** The template /{id}/{id} sends one scalar twice. */
  lemma {:induction false} RepeatedVariable()
    ensures var args, variables := [Member("id", Scalar("7"))], [["id"], ["id"]];
            && Build(args, variables, NoBody, false) == Ok(Request([Leaf(["id"], "7"), Leaf(["id"], "7")], None, []))
            && !Conserved(args, Build(args, variables, NoBody, false).value, NoBody)
  {
    hide Conserved;
    var args := [Member("id", Scalar("7"))];
    var id: Path := ["id"];
    var variables := [id, id];
    assert Get(args, id) == Some(Scalar("7"));
    assert variables[..|variables| - 1] == [id] && [id][..|[id]| - 1] == [] && [id][0] == id;
    assert ExpandPath(args, []) == Ok([]);
    assert ExpandPath(args, [id]) == Ok([] + [Leaf(id, "7")]);
    assert variables[|variables| - 1] == id;
    assert ExpandPath(args, variables) == Ok([] + [Leaf(id, "7")] + [Leaf(id, "7")]);
    assert Delete(args, id) == [] && Delete([], id) == [];
    assert EncodeMembers([], []) == Ok([]);
    assert [] + [Leaf(id, "7")] + [Leaf(id, "7")] == [Leaf(id, "7"), Leaf(id, "7")];
    assert DeleteAll(args, []) == args && DeleteAll(args, [id]) == [] && DeleteAll(args, variables) == [];
    assert variables[0] == variables[1];
    ConservedIff(args, variables, NoBody, false);
  }
}
