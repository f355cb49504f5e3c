/** Who calls the registration, and with what: a generated service that agreed
    with the descriptors, or proxies whose request types were all checked.  No
    such group is interrupted half way. */
module ServiceRegistryCallers {

  import opened DescriptorImages
  import opened Globs
  import opened ServiceRegistry

  /** messageFactory: the message is in the loaded image and does not disagree with
      a linked one of the same name. */
  ghost predicate HasFactory(linked: Image, loaded: Image, name: string)
    requires Sound(linked) && Sound(loaded)
  {
    KnowsMessage(loaded, name) && (KnowsMessage(linked, name) ==> MessagesAgree(linked, loaded, name))
  }

  /** The input types that a request can be built for are those with a factory. */
  ghost predicate Faithful(d: Descriptors, linked: Image, loaded: Image) {
    && Sound(linked) && Sound(loaded)
    && forall name :: name in d.buildable <==> HasFactory(linked, loaded, name)
  }

  /** What a generated service has passed when it agrees with the descriptors: its
      linked methods take the described input types, and the files it reaches are
      the same in both images. */
  ghost predicate Agrees(d: Descriptors, linked: Image, loaded: Image, service: Service)
    requires Sound(linked) && Sound(loaded) && Described(d, service.name)
  {
    && KnowsService(linked, service.name) && KnowsService(loaded, service.name)
    && ServicesAgree(linked, loaded, service.name)
    && var infos := d.parsed.value[service.name];
       var rpcs := linked[ServiceFile(linked, service.name)].services[service.name];
       forall name :: name in infos ==> name in rpcs && rpcs[name].input == infos[name].input
  }

  /** registerService with a generated service. */
  ghost predicate Generated(d: Descriptors, linked: Image, loaded: Image, group: seq<Service>)
    requires Sound(linked) && Sound(loaded)
  {
    |group| == 1 && (Described(d, group[0].name) && group[0].agrees ==> Agrees(d, linked, loaded, group[0]))
  }

  /** ConnectGRPC and ConnectHTTP: proxies for described unary methods, after a
      request factory was made for each. */
  ghost predicate Proxied(d: Descriptors, linked: Image, loaded: Image, group: seq<Service>)
    requires Sound(linked) && Sound(loaded)
  {
    forall i :: 0 <= i < |group| ==>
      && Described(d, group[i].name) && group[i].streams == []
      && forall k :: 0 <= k < |group[i].unary| ==>
           && group[i].unary[k] in d.parsed.value[group[i].name]
           && HasFactory(linked, loaded, d.parsed.value[group[i].name][group[i].unary[k]].input)
  }

  ghost predicate Called(d: Descriptors, linked: Image, loaded: Image, group: seq<Service>)
    requires Sound(linked) && Sound(loaded)
  {
    Generated(d, linked, loaded, group) || Proxied(d, linked, loaded, group)
  }

  lemma {:induction false} AmongSource(
    d: Descriptors, s: Server, service: string, names: seq<string>, streaming: bool, t: Tool)
    returns (k: nat)
    requires Described(d, service) && t in ToolsAmong(d, s, service, names, streaming)
    ensures k < |names| && names[k] in d.parsed.value[service] && t.input == d.parsed.value[service][names[k]].input
  {
    hide Projected;
    var init := names[..|names| - 1];
    if t in ToolsAmong(d, s, service, init, streaming) {
      k := AmongSource(d, s, service, init, streaming, t);
      assert init[k] == names[k];
    } else {
      k := |names| - 1;
    }
  }

  lemma {:induction false} GeneratedHasFactories(
    d: Descriptors, linked: Image, loaded: Image, service: Service, name: string)
    requires Faithful(d, linked, loaded) && Described(d, service.name) && Agrees(d, linked, loaded, service)
    requires name in d.parsed.value[service.name]
    ensures d.parsed.value[service.name][name].input in d.buildable
  {
    hide Sound, ServicesAgree, MessagesAgree, KnowsMessage;
    var input := d.parsed.value[service.name][name].input;
    assert IsRoot(linked, service.name, input);
    ServiceCoversMessages(linked, loaded, service.name, input);
  }

  lemma {:induction false} ToolIsBuildable(
    d: Descriptors, s: Server, linked: Image, loaded: Image, group: seq<Service>, i: nat, t: Tool)
    requires Faithful(d, linked, loaded) && Called(d, linked, loaded, group)
    requires i < |group| && (Described(d, group[i].name) ==> group[i].agrees) && t in ToolsOf(d, s, group[i])
    ensures t.input in d.buildable
  {
    hide ToolsAmong, Sound, Agrees, HasFactory;
    var service := group[i];
    if Proxied(d, linked, loaded, group) {
      NoStreams(d, s, service, t);
      var k := AmongSource(d, s, service.name, service.unary, false, t);
    } else {
      var name := ToolSource(d, s, service, t);
      GeneratedHasFactories(d, linked, loaded, service, name);
    }
  }

  lemma {:induction false} NoStreams(d: Descriptors, s: Server, service: Service, t: Tool)
    requires Described(d, service.name) && service.streams == [] && t in ToolsOf(d, s, service)
    ensures t in ToolsAmong(d, s, service.name, service.unary, false)
  {
    assert ToolsAmong(d, s, service.name, [], true) == [];
  }

  lemma {:induction false} ToolSource(d: Descriptors, s: Server, service: Service, t: Tool) returns (name: string)
    requires t in ToolsOf(d, s, service)
    ensures Described(d, service.name) && name in d.parsed.value[service.name]
    ensures t.input == d.parsed.value[service.name][name].input
  {
    hide ToolsAmong;
    if t in ToolsAmong(d, s, service.name, service.unary, false) {
      var k := AmongSource(d, s, service.name, service.unary, false, t);
      name := service.unary[k];
    } else {
      var k := AmongSource(d, s, service.name, service.streams, true, t);
      name := service.streams[k];
    }
  }

  /** Whatever a caller registers, a request can be built for every staged tool. */
  lemma {:induction false} CallersAreBuildable(
    d: Descriptors, s: Server, linked: Image, loaded: Image, group: seq<Service>)
    requires Faithful(d, linked, loaded) && Called(d, linked, loaded, group) && Accepts(d, s, group)
    ensures Buildable(d, Staged(d, s, group))
  {
    hide ToolsOf, Staged, Faithful, Called, NewTools;
    var staged := Staged(d, s, group);
    forall k | 0 <= k < |staged|
      ensures staged[k].input in d.buildable
    {
      StagedIff(d, s, group, staged[k]);
      var i :| 0 <= i < |group| && staged[k] in ToolsOf(d, s, group[i]);
      ToolIsBuildable(d, s, linked, loaded, group, i, staged[k]);
    }
  }

  ghost predicate PublicRun(d: Descriptors, linked: Image, loaded: Image, states: seq<Server>, ops: seq<Op>)
    requires Sound(linked) && Sound(loaded)
  {
    Run(d, states, ops) && forall i :: 0 <= i < |ops| && ops[i].Register? ==> Called(d, linked, loaded, ops[i].group)
  }

  /** Over every sequence of public calls: each registration changes nothing or
      commits its whole group, and the catalog is exact in every state. */
  lemma {:induction false} PublicRunsAreExact(
    d: Descriptors, linked: Image, loaded: Image, states: seq<Server>, ops: seq<Op>, k: nat)
    requires Faithful(d, linked, loaded) && PublicRun(d, linked, loaded, states, ops) && k <= |ops|
    ensures CatalogExact(d, states[k])
    ensures k < |ops| && ops[k].Register? ==>
              states[k + 1] == states[k] || states[k + 1] == Committed(d, states[k], ops[k].group)
  {
    hide CatalogExact, Called, Faithful, Accepts, Buildable, Staged, Committed;
    forall i | 0 <= i < |ops|
      ensures !Interrupts(d, states[i], ops[i])
    {
      if ops[i].Register? && Accepts(d, states[i], ops[i].group) {
        CallersAreBuildable(d, states[i], linked, loaded, ops[i].group);
      }
    }
    ExactUntil(d, states, ops, k);
    if k < |ops| {
      assert Takes(d, states[k], ops[k], states[k + 1]) && !Interrupts(d, states[k], ops[k]);
    }
  }
}
