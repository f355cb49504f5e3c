/** Descriptor images: what is linked into the binary and what the server loaded
    at run time.  A service whose reachable files agree in both has request types
    that agree in both. */
module DescriptorImages {

  import opened Reachability

  /** What a field refers to, by full name. */
  datatype TypeRef = MessageType(name: string) | EnumType(name: string) | ScalarType

  datatype Rpc = Rpc(input: string, output: string)

  /** What a file declares, nested declarations included. */
  datatype File = File(
    messages: map<string, seq<TypeRef>>, enums: set<string>, services: map<string, map<string, Rpc>>)

  type Image = map<string, File>

  ghost predicate DeclaresMessage(image: Image, path: string, name: string) {
    path in image && name in image[path].messages
  }

  ghost predicate DeclaresEnum(image: Image, path: string, name: string) {
    path in image && name in image[path].enums
  }

  ghost predicate DeclaresService(image: Image, path: string, name: string) {
    path in image && name in image[path].services
  }

  ghost predicate KnowsMessage(image: Image, name: string) {
    exists path :: DeclaresMessage(image, path, name)
  }

  ghost predicate KnowsEnum(image: Image, name: string) {
    exists path :: DeclaresEnum(image, path, name)
  }

  ghost predicate KnowsService(image: Image, name: string) {
    exists path :: DeclaresService(image, path, name)
  }

  /** What a descriptor registry guarantees: a name is declared once, and every
      name that is referred to is declared. */
  ghost predicate Sound(image: Image) {
    && (forall p, q, name :: DeclaresMessage(image, p, name) && DeclaresMessage(image, q, name) ==> p == q)
    && (forall p, q, name :: DeclaresEnum(image, p, name) && DeclaresEnum(image, q, name) ==> p == q)
    && (forall p, q, name :: DeclaresService(image, p, name) && DeclaresService(image, q, name) ==> p == q)
    && (forall p, name, k :: DeclaresMessage(image, p, name) && 0 <= k < |image[p].messages[name]| ==>
          Resolves(image, image[p].messages[name][k]))
    && (forall p, name, rpc :: DeclaresService(image, p, name) && rpc in image[p].services[name] ==>
          KnowsMessage(image, image[p].services[name][rpc].input)
              && KnowsMessage(image, image[p].services[name][rpc].output))
  }

  ghost predicate Resolves(image: Image, r: TypeRef) {
    && (r.MessageType? ==> KnowsMessage(image, r.name))
    && (r.EnumType? ==> KnowsEnum(image, r.name))
  }

  // ----- the message graph of an image -----

  ghost function MessageFile(image: Image, name: string): (path: string)
    requires KnowsMessage(image, name)
    ensures DeclaresMessage(image, path, name)
  {
    var path :| DeclaresMessage(image, path, name);
    path
  }

  ghost function EnumFile(image: Image, name: string): (path: string)
    requires KnowsEnum(image, name)
    ensures DeclaresEnum(image, path, name)
  {
    var path :| DeclaresEnum(image, path, name);
    path
  }

  ghost function ServiceFile(image: Image, name: string): (path: string)
    requires KnowsService(image, name)
    ensures DeclaresService(image, path, name)
  {
    var path :| DeclaresService(image, path, name);
    path
  }

  ghost function RefOf(image: Image, r: TypeRef): Ref
    requires Resolves(image, r)
  {
    match r
    case MessageType(name) => MessageRef(name)
    case EnumType(name) => EnumRef(EnumFile(image, name))
    case ScalarType => ScalarRef
  }

  ghost function Names(image: Image): set<string> {
    set path, name | path in image && name in image[path].messages :: name
  }

  ghost function Node(image: Image, name: string): Message
    requires Sound(image) && KnowsMessage(image, name)
  {
    var path := MessageFile(image, name);
    var fields := image[path].messages[name];
    Message(path, seq(|fields|, k requires 0 <= k < |fields| => RefOf(image, fields[k])))
  }

  ghost function Graph(image: Image): Messages
    requires Sound(image)
  {
    map name | name in Names(image) && KnowsMessage(image, name) :: Node(image, name)
  }

  lemma {:induction false} InGraph(image: Image, name: string)
    requires Sound(image)
    ensures name in Graph(image) <==> KnowsMessage(image, name)
  {
    hide Node;
    if KnowsMessage(image, name) {
      var path := MessageFile(image, name);
      assert path in image && name in image[path].messages;
    }
  }

  // ----- reachable files -----

  /** reachableMessageFiles. */
  ghost predicate MessageReaches(image: Image, root: string, file: string)
    requires Sound(image)
  {
    exists name :: Reaches(Graph(image), root, name) && Contributes(Graph(image), name, file)
  }

  ghost predicate IsRoot(image: Image, service: string, root: string)
    requires KnowsService(image, service)
  {
    var rpcs := image[ServiceFile(image, service)].services[service];
    exists rpc :: rpc in rpcs && (root == rpcs[rpc].input || root == rpcs[rpc].output)
  }

  /** reachableServiceFiles. */
  ghost predicate ServiceReaches(image: Image, service: string, file: string)
    requires Sound(image) && KnowsService(image, service)
  {
    || file == ServiceFile(image, service)
    || exists root :: IsRoot(image, service, root) && MessageReaches(image, root, file)
  }

  ghost predicate SameFile(a: Image, b: Image, file: string) {
    file in a && file in b && a[file] == b[file]
  }

  /** descriptorGraphMismatch finds nothing for a message. */
  ghost predicate MessagesAgree(linked: Image, loaded: Image, name: string)
    requires Sound(linked) && Sound(loaded)
  {
    forall file ::
      && (MessageReaches(linked, name, file) <==> MessageReaches(loaded, name, file))
      && (MessageReaches(linked, name, file) ==> SameFile(linked, loaded, file))
  }

  /** descriptorGraphMismatch finds nothing for a service. */
  ghost predicate ServicesAgree(linked: Image, loaded: Image, service: string)
    requires Sound(linked) && Sound(loaded) && KnowsService(linked, service) && KnowsService(loaded, service)
  {
    forall file ::
      && (ServiceReaches(linked, service, file) <==> ServiceReaches(loaded, service, file))
      && (ServiceReaches(linked, service, file) ==> SameFile(linked, loaded, file))
  }

  // ----- agreement of a service is agreement of its messages -----

  /** Every file that a message in a set contributes is the same in both images. */
  ghost predicate NodesAgree(linked: Image, loaded: Image, root: string)
    requires Sound(linked) && Sound(loaded)
  {
    forall file :: MessageReaches(linked, root, file) ==> SameFile(linked, loaded, file)
  }

  lemma {:induction false} NodeContributes(image: Image, root: string, name: string)
    requires Sound(image) && Reaches(Graph(image), root, name) && KnowsMessage(image, name)
    ensures MessageReaches(image, root, MessageFile(image, name))
  {
    hide Reaches, Sound;
    InGraph(image, name);
    NodeFile(image, name);
    assert Contributes(Graph(image), name, MessageFile(image, name));
  }

  lemma {:induction false} NodeFile(image: Image, name: string)
    requires Sound(image) && KnowsMessage(image, name) && name in Graph(image)
    ensures Graph(image)[name].file == MessageFile(image, name)
  {
    hide Sound;
  }

  lemma {:induction false} EnumContributes(image: Image, root: string, name: string, k: nat)
    requires Sound(image) && Reaches(Graph(image), root, name) && KnowsMessage(image, name)
    requires k < |image[MessageFile(image, name)].messages[name]|
    requires image[MessageFile(image, name)].messages[name][k].EnumType?
    ensures KnowsEnum(image, image[MessageFile(image, name)].messages[name][k].name)
    ensures MessageReaches(image, root, EnumFile(image, image[MessageFile(image, name)].messages[name][k].name))
  {
    hide Reaches;
    var r := image[MessageFile(image, name)].messages[name][k];
    assert Resolves(image, r);
    InGraph(image, name);
    assert Graph(image)[name].fields[k] == EnumRef(EnumFile(image, r.name));
    assert Contributes(Graph(image), name, EnumFile(image, r.name));
  }

  /** A reached message is the same node in both graphs. */
  lemma {:induction false} SameNode(linked: Image, loaded: Image, root: string, name: string)
    requires Sound(linked) && Sound(loaded) && NodesAgree(linked, loaded, root)
    requires Reaches(Graph(linked), root, name) && KnowsMessage(linked, name)
    ensures name in Graph(linked) && name in Graph(loaded) && Graph(loaded)[name] == Graph(linked)[name]
  {
    hide Reaches;
    InGraph(linked, name);
    InGraph(loaded, name);
    var path := MessageFile(linked, name);
    NodeContributes(linked, root, name);
    assert SameFile(linked, loaded, path);
    assert DeclaresMessage(loaded, path, name);
    assert MessageFile(loaded, name) == path;
    var fields := linked[path].messages[name];
    forall k | 0 <= k < |fields|
      ensures Resolves(linked, fields[k]) && Resolves(loaded, fields[k])
      ensures RefOf(linked, fields[k]) == RefOf(loaded, fields[k])
    {
      SameRef(linked, loaded, root, name, k);
    }
    assert Node(linked, name).fields == Node(loaded, name).fields;
  }

  lemma {:induction false} SameRef(linked: Image, loaded: Image, root: string, name: string, k: nat)
    requires Sound(linked) && Sound(loaded) && NodesAgree(linked, loaded, root)
    requires Reaches(Graph(linked), root, name) && KnowsMessage(linked, name)
    requires DeclaresMessage(loaded, MessageFile(linked, name), name)
    requires loaded[MessageFile(linked, name)] == linked[MessageFile(linked, name)]
    requires k < |linked[MessageFile(linked, name)].messages[name]|
    ensures var r := linked[MessageFile(linked, name)].messages[name][k];
            Resolves(linked, r) && Resolves(loaded, r) && RefOf(linked, r) == RefOf(loaded, r)
  {
    hide Reaches, MessageReaches;
    var path := MessageFile(linked, name);
    var r := linked[path].messages[name][k];
    assert DeclaresMessage(linked, path, name) && Resolves(linked, r);
    assert Resolves(loaded, loaded[path].messages[name][k]);
    if r.EnumType? {
      EnumContributes(linked, root, name, k);
      var file := EnumFile(linked, r.name);
      assert SameFile(linked, loaded, file);
      assert DeclaresEnum(loaded, file, r.name);
    }
  }

  ghost predicate WalkFrom(g: Messages, w: seq<string>, root: string) {
    Walk(g, w) && w[0] == root
  }

  lemma {:induction false} WalkReaches(g: Messages, w: seq<string>, root: string)
    requires WalkFrom(g, w, root)
    ensures Reaches(g, root, w[|w| - 1])
  {
  }

  /** Walks stay among known messages. */
  lemma {:induction false} WalkKnown(image: Image, w: seq<string>, root: string)
    requires Sound(image) && KnowsMessage(image, root) && WalkFrom(Graph(image), w, root)
    ensures KnowsMessage(image, w[|w| - 1])
  {
    if |w| > 1 {
      var init := w[..|w| - 1];
      assert Walk(Graph(image), init);
      WalkKnown(image, init, root);
      assert Edge(Graph(image), w[|w| - 2], w[|w| - 1]);
      EdgeKnown(image, w[|w| - 2], w[|w| - 1]);
    }
  }

  lemma {:induction false} EdgeKnown(image: Image, a: string, b: string)
    requires Sound(image) && Edge(Graph(image), a, b)
    ensures KnowsMessage(image, b)
  {
    InGraph(image, a);
    var path := MessageFile(image, a);
    var fields := image[path].messages[a];
    var k :| 0 <= k < |Graph(image)[a].fields| && Graph(image)[a].fields[k] == MessageRef(b);
    assert Resolves(image, fields[k]);
    assert RefOf(image, fields[k]) == MessageRef(b);
  }

  /** From a common root the two graphs have the same walks. */
  lemma {:induction false} SameWalks(linked: Image, loaded: Image, root: string, w: seq<string>)
    requires Sound(linked) && Sound(loaded) && KnowsMessage(linked, root) && NodesAgree(linked, loaded, root)
    ensures WalkFrom(Graph(linked), w, root) <==> WalkFrom(Graph(loaded), w, root)
  {
    hide Graph, Sound, NodesAgree, KnowsMessage;
    if |w| > 1 {
      var init, a, b := w[..|w| - 1], w[|w| - 2], w[|w| - 1];
      WalkSplit(Graph(linked), w, root);
      WalkSplit(Graph(loaded), w, root);
      SameWalks(linked, loaded, root, init);
      if WalkFrom(Graph(linked), init, root) {
        WalkKnown(linked, init, root);
        WalkReaches(Graph(linked), init, root);
        SameNode(linked, loaded, root, a);
      }
    }
  }

  lemma {:induction false} WalkSplit(g: Messages, w: seq<string>, root: string)
    requires |w| > 1
    ensures WalkFrom(g, w, root) <==> WalkFrom(g, w[..|w| - 1], root) && Edge(g, w[|w| - 2], w[|w| - 1])
  {
    var init := w[..|w| - 1];
    if WalkFrom(g, init, root) && Edge(g, w[|w| - 2], w[|w| - 1]) {
      forall k | 0 < k < |w|
        ensures Edge(g, w[k - 1], w[k])
      {
        assert k < |init| ==> Edge(g, init[k - 1], init[k]);
      }
    }
    if WalkFrom(g, w, root) {
      forall k | 0 < k < |init|
        ensures Edge(g, init[k - 1], init[k])
      {
        assert Edge(g, w[k - 1], w[k]);
      }
    }
  }

  lemma {:induction false} SameReach(linked: Image, loaded: Image, root: string, name: string)
    requires Sound(linked) && Sound(loaded) && KnowsMessage(linked, root) && NodesAgree(linked, loaded, root)
    ensures Reaches(Graph(linked), root, name) <==> Reaches(Graph(loaded), root, name)
    ensures Reaches(Graph(linked), root, name) ==> KnowsMessage(linked, name)
  {
    hide Graph, Sound, NodesAgree, KnowsMessage;
    if Reaches(Graph(linked), root, name) {
      var w :| Walk(Graph(linked), w) && w[0] == root && w[|w| - 1] == name;
      SameWalks(linked, loaded, root, w);
      WalkKnown(linked, w, root);
      assert Walk(Graph(loaded), w);
    }
    if Reaches(Graph(loaded), root, name) {
      var w :| Walk(Graph(loaded), w) && w[0] == root && w[|w| - 1] == name;
      SameWalks(linked, loaded, root, w);
      assert Walk(Graph(linked), w);
    }
  }

  /** Agreement of the files on one side is agreement of both. */
  lemma {:induction false} NodesSuffice(linked: Image, loaded: Image, root: string)
    requires Sound(linked) && Sound(loaded) && KnowsMessage(linked, root) && NodesAgree(linked, loaded, root)
    ensures MessagesAgree(linked, loaded, root)
  {
    hide Graph, Sound, Reaches, KnowsMessage;
    forall file
      ensures MessageReaches(linked, root, file) <==> MessageReaches(loaded, root, file)
    {
      forall name
        ensures Reaches(Graph(linked), root, name) <==> Reaches(Graph(loaded), root, name)
        ensures Reaches(Graph(linked), root, name) ==>
                  (Contributes(Graph(linked), name, file) <==> Contributes(Graph(loaded), name, file))
      {
        SameReach(linked, loaded, root, name);
        if Reaches(Graph(linked), root, name) {
          SameNode(linked, loaded, root, name);
        }
      }
    }
  }

  /** What validateDescriptorAgreement checks of a service covers every request
      and response type of the service. */
  lemma {:induction false} ServiceCoversMessages(linked: Image, loaded: Image, service: string, root: string)
    requires Sound(linked) && Sound(loaded) && KnowsService(linked, service) && KnowsService(loaded, service)
    requires ServicesAgree(linked, loaded, service) && IsRoot(linked, service, root)
    ensures KnowsMessage(linked, root) && KnowsMessage(loaded, root) && MessagesAgree(linked, loaded, root)
  {
    hide Graph, Reaches, MessageReaches;
    RootKnown(linked, service, root);
    assert NodesAgree(linked, loaded, root) by {
      forall file | MessageReaches(linked, root, file)
        ensures SameFile(linked, loaded, file)
      {
        assert ServiceReaches(linked, service, file);
      }
    }
    NodesSuffice(linked, loaded, root);
    SameRoot(linked, loaded, root);
  }

  lemma {:induction false} RootKnown(image: Image, service: string, root: string)
    requires Sound(image) && KnowsService(image, service) && IsRoot(image, service, root)
    ensures KnowsMessage(image, root)
  {
    hide KnowsMessage;
    var path := ServiceFile(image, service);
    assert DeclaresService(image, path, service);
  }

  lemma {:induction false} SameRoot(linked: Image, loaded: Image, root: string)
    requires Sound(linked) && Sound(loaded) && KnowsMessage(linked, root) && NodesAgree(linked, loaded, root)
    ensures KnowsMessage(loaded, root)
  {
    hide Graph, Reaches, Sound, NodesAgree;
    ReachesItself(Graph(linked), root);
    SameNode(linked, loaded, root, root);
    InGraph(loaded, root);
  }
}
