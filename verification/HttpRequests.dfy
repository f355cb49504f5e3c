/** Splitting a JSON request into path, body and query under google.api.http
    rules.  Objects list their members in key order. */
module HttpRequests {

  import opened Results

  datatype Json = Null | Scalar(text: string) | Array(items: seq<Json>) | Object(members: seq<Member>)

  datatype Member = Member(key: string, value: Json)

  type Path = seq<string>

  /** A scalar and where it stands; array items stand where their array does. */
  datatype Leaf = Leaf(path: Path, text: string)

  function Leaves(v: Json, at: Path): seq<Leaf>
    decreases v, 1
  {
    match v
    case Null => []
    case Scalar(text) => [Leaf(at, text)]
    case Array(items) => ItemLeaves(items, at)
    case Object(members) => MemberLeaves(members, at)
  }

  function ItemLeaves(items: seq<Json>, at: Path): seq<Leaf>
    decreases items, 0
  {
    if items == [] then [] else Leaves(items[0], at) + ItemLeaves(items[1..], at)
  }

  function MemberLeaves(members: seq<Member>, at: Path): seq<Leaf>
    decreases members, 0
  {
    if members == [] then [] else Leaves(members[0].value, at + [members[0].key]) + MemberLeaves(members[1..], at)
  }

  predicate DistinctKeys(members: seq<Member>) {
    forall i, j :: 0 <= i < j < |members| ==> members[i].key != members[j].key
  }

  /** No object lists a key twice. */
  predicate WellFormed(v: Json)
    decreases v
  {
    match v
    case Array(items) => forall i :: 0 <= i < |items| ==> WellFormed(items[i])
    case Object(members) => DistinctKeys(members) && forall i :: 0 <= i < |members| ==> WellFormed(members[i].value)
    case _ => true
  }

  predicate WellFormedMembers(members: seq<Member>) {
    DistinctKeys(members) && forall i :: 0 <= i < |members| ==> WellFormed(members[i].value)
  }

  // ----- nested fields -----

  function Find(members: seq<Member>, key: string): Option<Json> {
    if members == [] then None
    else if members[0].key == key then Some(members[0].value)
    else Find(members[1..], key)
  }

  /** getNestedField. */
  function Get(members: seq<Member>, path: Path): Option<Json>
    requires path != []
    decreases |path|
  {
    match Find(members, path[0])
    case None => None
    case Some(v) =>
      if |path| == 1 then Some(v)
      else if v.Object? then Get(v.members, path[1..])
      else None
  }

  function Without(members: seq<Member>, key: string): seq<Member> {
    if members == [] then []
    else if members[0].key == key then members[1..]
    else [members[0]] + Without(members[1..], key)
  }

  function Replaced(members: seq<Member>, key: string, v: Json): seq<Member> {
    if members == [] then []
    else if members[0].key == key then [Member(key, v)] + members[1..]
    else [members[0]] + Replaced(members[1..], key, v)
  }

  /** deleteNestedField. */
  function Delete(members: seq<Member>, path: Path): seq<Member>
    requires path != []
    decreases |path|
  {
    if |path| == 1 then
      Without(members, path[0])
    else match Find(members, path[0])
         case Some(Object(inner)) => Replaced(members, path[0], Object(Delete(inner, path[1..])))
         case _ => members
  }

  // ----- the request -----

  datatype Body = NoBody | WholeBody | BodyField(path: Path)

  datatype Request = Request(path: seq<Leaf>, body: Option<Json>, query: seq<Leaf>)

  /** encodeQueryFields: every scalar under its dotted name; only scalars may
      stand in an array. */
  function EncodeQuery(v: Json, at: Path): Result<seq<Leaf>>
    decreases v, 1
  {
    match v
    case Null => Ok([])
    case Scalar(text) => Ok([Leaf(at, text)])
    case Array(items) => EncodeItems(items, at)
    case Object(members) => EncodeMembers(members, at)
  }

  function EncodeItems(items: seq<Json>, at: Path): Result<seq<Leaf>>
    decreases items, 0
  {
    if items == [] then
      Ok([])
    else if !items[0].Scalar? then
      Err
    else
      var rest :- EncodeItems(items[1..], at);
      Ok([Leaf(at, items[0].text)] + rest)
  }

  function EncodeMembers(members: seq<Member>, at: Path): Result<seq<Leaf>>
    decreases members, 0
  {
    if members == [] then
      Ok([])
    else
      var first :- EncodeQuery(members[0].value, at + [members[0].key]);
      var rest :- EncodeMembers(members[1..], at);
      Ok(first + rest)
  }

  /** expandPath: every template variable must name a scalar. */
  function ExpandPath(args: seq<Member>, variables: seq<Path>): Result<seq<Leaf>>
    requires forall k :: 0 <= k < |variables| ==> variables[k] != []
  {
    if variables == [] then
      Ok([])
    else
      var before :- ExpandPath(args, variables[..|variables| - 1]);
      match Get(args, variables[|variables| - 1])
      case Some(Scalar(text)) => Ok(before + [Leaf(variables[|variables| - 1], text)])
      case _ => Err
  }

  function DeleteAll(args: seq<Member>, variables: seq<Path>): seq<Member>
    requires forall k :: 0 <= k < |variables| ==> variables[k] != []
  {
    if variables == [] then args
    else Delete(DeleteAll(args, variables[..|variables| - 1]), variables[|variables| - 1])
  }

  /** encodeBody on what the path left over. */
  function BodyValue(rest: seq<Member>, body: Body, connect: bool): Option<Json>
    requires body.BodyField? ==> body.path != []
  {
    match body
    case NoBody => None
    case WholeBody => if rest == [] && !connect then None else Some(Object(rest))
    case BodyField(path) => Get(rest, path)
  }

  function Build(args: seq<Member>, variables: seq<Path>, body: Body, connect: bool): Result<Request>
    requires forall k :: 0 <= k < |variables| ==> variables[k] != []
    requires body.BodyField? ==> body.path != []
  {
    var path :- ExpandPath(args, variables);
    var rest := DeleteAll(args, variables);
    var value := BodyValue(rest, body, connect);
    if body.WholeBody? then
      Ok(Request(path, value, []))
    else
      var left := if body.BodyField? then Delete(rest, body.path) else rest;
      var query :- EncodeMembers(left, []);
      Ok(Request(path, value, query))
  }

  /** Where the body's leaves come from. */
  function BodyLeaves(r: Request, body: Body): seq<Leaf> {
    match r.body
    case None => []
    case Some(v) => Leaves(v, if body.BodyField? then body.path else [])
  }

  /** Every scalar of the arguments is in exactly one of path, body and query. */
  ghost predicate Conserved(args: seq<Member>, r: Request, body: Body) {
    multiset(MemberLeaves(args, [])) == multiset(r.path) + multiset(BodyLeaves(r, body)) + multiset(r.query)
  }

  // ----- loops -----

  /** build: the path first, then deletions, then the body and the query. */
  method BuildRequest(args: seq<Member>, variables: seq<Path>, body: Body, connect: bool) returns (r: Result<Request>)
    requires forall k :: 0 <= k < |variables| ==> variables[k] != []
    requires body.BodyField? ==> body.path != []
    ensures r == Build(args, variables, body, connect)
  {
    hide Get, Delete, EncodeMembers;
    var path: seq<Leaf> := [];
    for k := 0 to |variables|
      invariant ExpandPath(args, variables[..k]) == Ok(path)
    {
      assert variables[..k + 1][..k] == variables[..k];
      match Get(args, variables[k]) {
        case Some(v) =>
          if !v.Scalar? {
            ExpandFails(args, variables, k + 1);
            return Err;
          }
          path := path + [Leaf(variables[k], v.text)];
        case None =>
          ExpandFails(args, variables, k + 1);
          return Err;
      }
    }
    assert variables[..|variables|] == variables;
    var working := args;
    for k := 0 to |variables|
      invariant working == DeleteAll(args, variables[..k])
    {
      assert variables[..k + 1][..k] == variables[..k];
      working := Delete(working, variables[k]);
    }
    var value := BodyValue(working, body, connect);
    if body.BodyField? {
      working := Delete(working, body.path);
    }
    var query: seq<Leaf> := [];
    if !body.WholeBody? {
      var encoded := EncodeMembers(working, []);
      if encoded.Err? {
        return Err;
      }
      query := encoded.value;
    }
    r := Ok(Request(path, value, query));
  }

  lemma {:induction false} ExpandFails(args: seq<Member>, variables: seq<Path>, k: nat)
    requires forall i :: 0 <= i < |variables| ==> variables[i] != []
    requires k <= |variables| && ExpandPath(args, variables[..k]).Err?
    ensures ExpandPath(args, variables).Err?
    decreases |variables| - k
  {
    hide Get;
    if k == |variables| {
      assert variables[..k] == variables;
    } else {
      assert variables[..k + 1][..k] == variables[..k];
      ExpandFails(args, variables, k + 1);
    }
  }
}
