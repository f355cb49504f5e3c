/** The service registry: staged group registration, projection filters and the
    freeze boundary. */
module ServiceRegistry {

  import opened Globs
  import opened Results

  datatype MethodInfo = MethodInfo(clientStreaming: bool, serverStreaming: bool, input: string)

  /** A registration: the method names it dispatches, whether its handler type and
      implementation are valid, and whether it agrees with the descriptors. */
  datatype Service = Service(name: string, unary: seq<string>, streams: seq<string>, valid: bool, agrees: bool)

  datatype Tool = Tool(name: string, service: string, rpc: string, streaming: bool, input: string)

  /** The parsed descriptors, if any, and the input types a request can be built
      for. */
  datatype Descriptors = Descriptors(parsed: Option<map<string, map<string, MethodInfo>>>, buildable: set<string>)

  datatype Server = Server(
    frozen: bool,
    settings: map<string, string>,
    includes: seq<string>,
    excludes: seq<string>,
    services: map<string, Service>,
    native: set<string>,
    tools: map<string, Tool>)

  // ----- the pure filter -----

  predicate Described(d: Descriptors, service: string) {
    d.parsed.Some? && service in d.parsed.value
  }

  /** Whether a method is a tool under the current filters. */
  ghost predicate Projectable(d: Descriptors, s: Server, service: string, name: string, streaming: bool)
    requires Described(d, service)
  {
    var infos := d.parsed.value[service];
    && name in infos
    && !infos[name].clientStreaming
    && infos[name].serverStreaming == streaming
    && Projected(s.includes, s.excludes, service + "." + name)
  }

  function ToolFor(d: Descriptors, service: string, name: string, streaming: bool): Tool
    requires Described(d, service) && name in d.parsed.value[service]
  {
    Tool(service + "." + name, service, name, streaming, d.parsed.value[service][name].input)
  }

  ghost function ToolsAmong(d: Descriptors, s: Server, service: string, names: seq<string>, streaming: bool): seq<Tool>
    requires Described(d, service)
  {
    if names == [] then
      []
    else
      var last := names[|names| - 1];
      ToolsAmong(d, s, service, names[..|names| - 1], streaming) +
      if Projectable(d, s, service, last, streaming) then [ToolFor(d, service, last, streaming)] else []
  }

  /** The tools of one service: its projectable unary methods, then its
      projectable server streams. */
  ghost function ToolsOf(d: Descriptors, s: Server, service: Service): seq<Tool> {
    if !Described(d, service.name) then
      []
    else
      ToolsAmong(d, s, service.name, service.unary, false) + ToolsAmong(d, s, service.name, service.streams, true)
  }

  ghost function Staged(d: Descriptors, s: Server, group: seq<Service>): seq<Tool> {
    if group == [] then [] else Staged(d, s, group[..|group| - 1]) + ToolsOf(d, s, group[|group| - 1])
  }

  // ----- acceptance -----

  ghost predicate NewServices(d: Descriptors, s: Server, group: seq<Service>) {
    && (forall i, j :: 0 <= i < j < |group| ==> group[i].name != group[j].name)
    && (forall i :: 0 <= i < |group| ==> group[i].name !in s.services && group[i].name !in s.native)
    && (forall i :: 0 <= i < |group| ==> Described(d, group[i].name) ==> group[i].agrees)
  }

  predicate NewTools(tools: map<string, Tool>, staged: seq<Tool>) {
    && (forall i, j :: 0 <= i < j < |staged| ==> staged[i].name != staged[j].name)
    && (forall i :: 0 <= i < |staged| ==> staged[i].name !in tools)
  }

  /** Everything that is checked before anything changes. */
  ghost predicate Accepts(d: Descriptors, s: Server, group: seq<Service>) {
    && !s.frozen
    && (forall i :: 0 <= i < |group| ==> group[i].valid)
    && NewServices(d, s, group)
    && NewTools(s.tools, Staged(d, s, group))
  }

  predicate Buildable(d: Descriptors, tools: seq<Tool>) {
    forall i :: 0 <= i < |tools| ==> tools[i].input in d.buildable
  }

  // ----- the commit -----

  function WithTools(tools: map<string, Tool>, added: seq<Tool>): map<string, Tool> {
    if added == [] then tools else WithTools(tools, added[..|added| - 1])[added[|added| - 1].name := added[|added| - 1]]
  }

  function WithServices(services: map<string, Service>, group: seq<Service>): map<string, Service> {
    if group == [] then
      services
    else
      WithServices(services, group[..|group| - 1])[group[|group| - 1].name := group[|group| - 1]]
  }

  function NamesOf(group: seq<Service>): set<string> {
    set i | 0 <= i < |group| :: group[i].name
  }

  /** The server after a whole group has been committed. */
  ghost function Committed(d: Descriptors, s: Server, group: seq<Service>): Server {
    s.(services := WithServices(s.services, group), native := s.native + NamesOf(group),
       tools := WithTools(s.tools, Staged(d, s, group)))
  }

  // ----- the catalog invariant -----

  ghost predicate Offers(d: Descriptors, s: Server, t: Tool) {
    exists name :: name in s.services && t in ToolsOf(d, s, s.services[name])
  }

  /** The catalog is exactly the filter of the registered services. */
  ghost predicate CatalogExact(d: Descriptors, s: Server) {
    && (forall name :: name in s.services ==> s.services[name].name == name)
    && (forall name :: name in s.tools ==> s.tools[name].name == name && Offers(d, s, s.tools[name]))
    && (forall t :: Offers(d, s, t) ==> t.name in s.tools && s.tools[t.name] == t)
  }

  // ----- operations as functions -----

  datatype Op =
    | Configure(key: string, value: string)
    | Include(patterns: seq<string>)
    | Exclude(patterns: seq<string>)
    | Register(group: seq<Service>)
    | Freeze

  /** The server after an operation other than a registration; a refused operation
      changes nothing. */
  ghost function Perform(s: Server, op: Op): Server
    requires !op.Register?
  {
    match op
    case Configure(key, value) => if s.frozen then s else s.(settings := s.settings[key := value])
    case Include(patterns) => if s.frozen || s.services != map[] then s else s.(includes := s.includes + patterns)
    case Exclude(patterns) => if s.frozen || s.services != map[] then s else s.(excludes := s.excludes + patterns)
    case Freeze => s.(frozen := true)
  }

  /** A commit that stopped at the m-th tool of the k-th service, for which no
      request can be built: that service and those before it are in, and so are
      the tools before that one. */
  ghost predicate InterruptedAt(d: Descriptors, s: Server, group: seq<Service>, t: Server, k: int, m: int) {
    && 0 <= k < |group| && 0 <= m < |ToolsOf(d, s, group[k])|
    && ToolsOf(d, s, group[k])[m].input !in d.buildable
    && t == s.(services := WithServices(s.services, group[..k + 1]), native := s.native + NamesOf(group[..k + 1]),
               tools := WithTools(s.tools, Staged(d, s, group[..k]) + ToolsOf(d, s, group[k])[..m]))
  }

  ghost predicate Interrupted(d: Descriptors, s: Server, group: seq<Service>, t: Server) {
    exists k, m :: InterruptedAt(d, s, group, t, k, m)
  }

  /** What a registration leaves. */
  ghost predicate Registers(d: Descriptors, s: Server, group: seq<Service>, t: Server) {
    if !Accepts(d, s, group) then t == s
    else if Buildable(d, Staged(d, s, group)) then t == Committed(d, s, group)
    else Interrupted(d, s, group, t)
  }

  ghost predicate Takes(d: Descriptors, s: Server, op: Op, t: Server) {
    if op.Register? then Registers(d, s, op.group, t) else t == Perform(s, op)
  }

  /** The states of a server under a sequence of operations. */
  ghost predicate Run(d: Descriptors, states: seq<Server>, ops: seq<Op>) {
    && |states| == |ops| + 1 && Fresh(states[0])
    && forall i :: 0 <= i < |ops| ==> Takes(d, states[i], ops[i], states[i + 1])
  }

  /** The operation is an accepted registration with a tool that no request can be
      built for. */
  ghost predicate Interrupts(d: Descriptors, s: Server, op: Op) {
    op.Register? && Accepts(d, s, op.group) && !Buildable(d, Staged(d, s, op.group))
  }

  predicate Fresh(s: Server) {
    !s.frozen && s.services == map[] && s.tools == map[]
  }

  // ----- committing keeps the catalog exact -----

  /** Tools depend on the server only through its filters. */
  lemma {:induction false} AmongDependsOnFilters(
    d: Descriptors, s: Server, t: Server, service: string, names: seq<string>, streaming: bool)
    requires Described(d, service) && s.includes == t.includes && s.excludes == t.excludes
    ensures ToolsAmong(d, s, service, names, streaming) == ToolsAmong(d, t, service, names, streaming)
  {
    if names != [] {
      AmongDependsOnFilters(d, s, t, service, names[..|names| - 1], streaming);
    }
  }

  lemma {:induction false} ToolsDependOnFilters(d: Descriptors, s: Server, t: Server, service: Service)
    requires s.includes == t.includes && s.excludes == t.excludes
    ensures ToolsOf(d, s, service) == ToolsOf(d, t, service)
  {
    if Described(d, service.name) {
      AmongDependsOnFilters(d, s, t, service.name, service.unary, false);
      AmongDependsOnFilters(d, s, t, service.name, service.streams, true);
    }
  }

  lemma {:induction false} ServiceAt(services: map<string, Service>, group: seq<Service>, name: string)
    requires forall i, j :: 0 <= i < j < |group| ==> group[i].name != group[j].name
    requires forall i :: 0 <= i < |group| ==> group[i].name !in services
    ensures name in WithServices(services, group) <==> name in services || name in NamesOf(group)
    ensures name in services ==> WithServices(services, group)[name] == services[name]
    ensures forall i :: 0 <= i < |group| && group[i].name == name ==>
            name in WithServices(services, group) && WithServices(services, group)[name] == group[i]
  {
    if group != [] {
      var init, last := group[..|group| - 1], group[|group| - 1];
      ServiceAt(services, init, name);
      assert forall i :: 0 <= i < |init| ==> init[i] == group[i];
      assert NamesOf(group) == NamesOf(init) + {last.name};
    }
  }

  lemma {:induction false} ToolAt(tools: map<string, Tool>, added: seq<Tool>, name: string)
    requires NewTools(tools, added)
    ensures name in WithTools(tools, added) <==> name in tools || exists i :: 0 <= i < |added| && added[i].name == name
    ensures name in tools ==> name in WithTools(tools, added) && WithTools(tools, added)[name] == tools[name]
    ensures forall i :: 0 <= i < |added| && added[i].name == name ==>
            name in WithTools(tools, added) && WithTools(tools, added)[name] == added[i]
  {
    if added != [] {
      var init, last := added[..|added| - 1], added[|added| - 1];
      assert forall i :: 0 <= i < |init| ==> init[i] == added[i];
      ToolAt(tools, init, name);
      if exists i :: 0 <= i < |init| && init[i].name == name {
        var i :| 0 <= i < |init| && init[i].name == name;
        assert added[i].name == name;
      }
      if exists i :: 0 <= i < |added| && added[i].name == name {
        var i :| 0 <= i < |added| && added[i].name == name;
        assert i < |init| ==> init[i].name == name;
      }
    }
  }

  lemma {:induction false} StagedIff(d: Descriptors, s: Server, group: seq<Service>, t: Tool)
    ensures t in Staged(d, s, group) <==> exists i :: 0 <= i < |group| && t in ToolsOf(d, s, group[i])
  {
    hide ToolsOf;
    if group != [] {
      var init, last := group[..|group| - 1], group[|group| - 1];
      StagedIff(d, s, init, t);
      if exists i :: 0 <= i < |init| && t in ToolsOf(d, s, init[i]) {
        var i :| 0 <= i < |init| && t in ToolsOf(d, s, init[i]);
        assert group[i] == init[i];
      }
      if exists i :: 0 <= i < |group| && t in ToolsOf(d, s, group[i]) {
        var i :| 0 <= i < |group| && t in ToolsOf(d, s, group[i]);
        assert i < |init| ==> init[i] == group[i];
      }
    }
  }

  /** After a commit the services offer what they offered before and what was
      staged. */
  lemma {:induction false} OffersAfter(d: Descriptors, s: Server, group: seq<Service>, t: Tool)
    requires Accepts(d, s, group)
    ensures Offers(d, Committed(d, s, group), t) <==> Offers(d, s, t) || t in Staged(d, s, group)
  {
    hide ToolsOf, Staged, WithTools, WithServices, NewTools;
    var after := Committed(d, s, group);
    StagedIff(d, s, group, t);
    if Offers(d, s, t) {
      var name :| name in s.services && t in ToolsOf(d, s, s.services[name]);
      ServiceAt(s.services, group, name);
      ToolsDependOnFilters(d, s, after, s.services[name]);
      assert name in after.services;
    }
    if t in Staged(d, s, group) {
      var i :| 0 <= i < |group| && t in ToolsOf(d, s, group[i]);
      ServiceAt(s.services, group, group[i].name);
      ToolsDependOnFilters(d, s, after, group[i]);
      assert group[i].name in after.services;
    }
    if Offers(d, after, t) {
      var name :| name in after.services && t in ToolsOf(d, after, after.services[name]);
      ServiceAt(s.services, group, name);
      ToolsDependOnFilters(d, s, after, after.services[name]);
      if name !in s.services {
        var i :| 0 <= i < |group| && group[i].name == name;
      }
    }
  }

  lemma {:induction false} CommitKeepsCatalog(d: Descriptors, s: Server, group: seq<Service>)
    requires CatalogExact(d, s) && Accepts(d, s, group)
    ensures CatalogExact(d, Committed(d, s, group))
  {
    hide ToolsOf, Staged, WithTools, WithServices, Offers, NewServices;
    var after := Committed(d, s, group);
    var staged := Staged(d, s, group);
    forall name | name in after.services
      ensures after.services[name].name == name
    {
      CommittedService(d, s, group, name);
    }
    forall name | name in after.tools
      ensures after.tools[name].name == name && Offers(d, after, after.tools[name])
    {
      ToolAt(s.tools, staged, name);
      OffersAfter(d, s, group, after.tools[name]);
    }
    forall t | Offers(d, after, t)
      ensures t.name in after.tools && after.tools[t.name] == t
    {
      ToolAt(s.tools, staged, t.name);
      OffersAfter(d, s, group, t);
    }
  }

  lemma {:induction false} CommittedService(d: Descriptors, s: Server, group: seq<Service>, name: string)
    requires Accepts(d, s, group) && name in Committed(d, s, group).services
    requires forall n :: n in s.services ==> s.services[n].name == n
    ensures Committed(d, s, group).services[name].name == name
  {
    hide Staged, WithTools, WithServices;
    ServiceAt(s.services, group, name);
  }

  /** Filters can change only while nothing is registered. */
  lemma {:induction false} FiltersKeepCatalog(d: Descriptors, s: Server, t: Server)
    requires CatalogExact(d, s) && t.services == s.services && t.tools == s.tools
    requires s.services == map[] || (t.includes == s.includes && t.excludes == s.excludes)
    ensures CatalogExact(d, t)
  {
    hide ToolsOf;
    forall x
      ensures Offers(d, t, x) <==> Offers(d, s, x)
    {
      forall name | name in s.services
        ensures ToolsOf(d, s, s.services[name]) == ToolsOf(d, t, t.services[name])
      {
        ToolsDependOnFilters(d, s, t, s.services[name]);
      }
    }
  }

  lemma {:induction false} StepKeepsCatalog(d: Descriptors, s: Server, op: Op, t: Server)
    requires CatalogExact(d, s) && Takes(d, s, op, t) && !Interrupts(d, s, op)
    ensures CatalogExact(d, t)
  {
    hide CatalogExact, Accepts, Committed, Buildable, Staged;
    match op
    case Register(group) =>
      if Accepts(d, s, group) {
        CommitKeepsCatalog(d, s, group);
      }
    case _ =>
      FiltersKeepCatalog(d, s, t);
  }

  lemma {:induction false} FreshIsExact(d: Descriptors, s: Server)
    requires Fresh(s)
    ensures CatalogExact(d, s)
  {
  }

  // ----- an interrupted commit breaks the catalog for good -----

  lemma {:induction false} StagedAppend(d: Descriptors, s: Server, group: seq<Service>, k: nat)
    requires k < |group|
    ensures Staged(d, s, group[..k + 1]) == Staged(d, s, group[..k]) + ToolsOf(d, s, group[k])
  {
    hide ToolsOf;
    assert group[..k + 1][..k] == group[..k];
  }

  lemma {:induction false} StagedPrefix(d: Descriptors, s: Server, group: seq<Service>, k: nat)
    requires k <= |group|
    ensures Staged(d, s, group[..k]) <= Staged(d, s, group)
    decreases |group| - k
  {
    hide ToolsOf, Staged;
    if k == |group| {
      assert group[..k] == group;
    } else {
      StagedAppend(d, s, group, k);
      StagedPrefix(d, s, group, k + 1);
    }
  }

  lemma {:induction false} StillNew(tools: map<string, Tool>, staged: seq<Tool>, k: nat)
    requires NewTools(tools, staged) && k < |staged|
    ensures staged[k].name !in WithTools(tools, staged[..k])
  {
    hide WithTools;
    assert NewTools(tools, staged[..k]);
    ToolAt(tools, staged[..k], staged[k].name);
  }

  /** The tool at which a commit stopped stands in the staged list after exactly
      the tools that were added. */
  lemma {:induction false} StoppedAt(d: Descriptors, s: Server, group: seq<Service>, k: nat, m: nat) returns (at: nat)
    requires k < |group| && m < |ToolsOf(d, s, group[k])|
    ensures at < |Staged(d, s, group)| && Staged(d, s, group)[at] == ToolsOf(d, s, group[k])[m]
    ensures Staged(d, s, group)[..at] == Staged(d, s, group[..k]) + ToolsOf(d, s, group[k])[..m]
  {
    hide ToolsOf, Staged;
    var done, more, all := Staged(d, s, group[..k]), ToolsOf(d, s, group[k]), Staged(d, s, group);
    StagedAppend(d, s, group, k);
    StagedPrefix(d, s, group, k + 1);
    at := |done| + m;
    assert all[at] == (done + more)[at] == more[m];
    assert all[..at] == done + more[..m];
  }

  lemma {:induction false} AmongBelongs(
    d: Descriptors, s: Server, service: string, names: seq<string>, streaming: bool, t: Tool)
    requires Described(d, service) && t in ToolsAmong(d, s, service, names, streaming)
    ensures t.service == service
  {
    hide Projectable;
    if t in ToolsAmong(d, s, service, names[..|names| - 1], streaming) {
      AmongBelongs(d, s, service, names[..|names| - 1], streaming, t);
    }
  }

  lemma {:induction false} ToolBelongs(d: Descriptors, s: Server, service: Service, t: Tool)
    requires t in ToolsOf(d, s, service)
    ensures t.service == service.name
  {
    hide ToolsAmong;
    if t in ToolsAmong(d, s, service.name, service.unary, false) {
      AmongBelongs(d, s, service.name, service.unary, false, t);
    } else {
      AmongBelongs(d, s, service.name, service.streams, true, t);
    }
  }

  /** A registered service has a tool that the catalog does not list. */
  ghost predicate Misses(d: Descriptors, s: Server, name: string, t: Tool) {
    && name in s.services && s.services[name].name == name && t in ToolsOf(d, s, s.services[name])
    && !(t.name in s.tools && s.tools[t.name] == t)
  }

  lemma {:induction false} InterruptionMisses(d: Descriptors, s: Server, group: seq<Service>, t: Server, k: nat, m: nat)
    requires Accepts(d, s, group) && InterruptedAt(d, s, group, t, k, m)
    ensures Misses(d, t, group[k].name, ToolsOf(d, s, group[k])[m])
  {
    hide ToolsOf, Staged, WithTools, WithServices;
    var at := StoppedAt(d, s, group, k, m);
    StillNew(s.tools, Staged(d, s, group), at);
    var part := group[..k + 1];
    assert forall i :: 0 <= i <= k ==> part[i] == group[i];
    ServiceAt(s.services, part, part[k].name);
    ToolsDependOnFilters(d, s, t, group[k]);
  }

  /** What is missing stays missing while services and their tools are added. */
  lemma {:induction false} MissingStays(
    d: Descriptors, s: Server, t: Server, name: string, x: Tool, part: seq<Service>, added: seq<Tool>)
    requires Misses(d, s, name, x) && t.includes == s.includes && t.excludes == s.excludes
    requires t.services == WithServices(s.services, part) && t.tools == WithTools(s.tools, added)
    requires forall i, j :: 0 <= i < j < |part| ==> part[i].name != part[j].name
    requires forall i :: 0 <= i < |part| ==> part[i].name !in s.services
    requires NewTools(s.tools, added) && forall i :: 0 <= i < |added| ==> added[i].service != name
    ensures Misses(d, t, name, x)
  {
    hide ToolsOf, WithTools, WithServices;
    ServiceAt(s.services, part, name);
    ToolsDependOnFilters(d, s, t, s.services[name]);
    ToolBelongs(d, s, s.services[name], x);
    ToolAt(s.tools, added, x.name);
  }

  lemma {:induction false} StagedBelongs(d: Descriptors, s: Server, group: seq<Service>, name: string)
    requires forall i :: 0 <= i < |group| ==> group[i].name != name
    ensures forall i :: 0 <= i < |Staged(d, s, group)| ==> Staged(d, s, group)[i].service != name
  {
    hide ToolsOf, Staged;
    forall i | 0 <= i < |Staged(d, s, group)|
      ensures Staged(d, s, group)[i].service != name
    {
      var t := Staged(d, s, group)[i];
      StagedIff(d, s, group, t);
      var j :| 0 <= j < |group| && t in ToolsOf(d, s, group[j]);
      ToolBelongs(d, s, group[j], t);
    }
  }

  lemma {:induction false} RegistrationKeepsMissing(
    d: Descriptors, s: Server, group: seq<Service>, t: Server, name: string, x: Tool)
    requires Misses(d, s, name, x) && Registers(d, s, group, t)
    ensures Misses(d, t, name, x)
  {
    hide ToolsOf, Staged, WithTools, WithServices, Buildable, NewTools, Misses;
    if Accepts(d, s, group) {
      var all := Staged(d, s, group);
      MissesRegistered(d, s, name, x);
      StagedBelongs(d, s, group, name);
      if Buildable(d, all) {
        MissingStays(d, s, t, name, x, group, all);
      } else {
        var k, m :| InterruptedAt(d, s, group, t, k, m);
        var at := StoppedAt(d, s, group, k, m);
        PrefixIsNew(s.tools, all, at);
        MissingStays(d, s, t, name, x, group[..k + 1], all[..at]);
      }
    }
  }

  lemma {:induction false} MissesRegistered(d: Descriptors, s: Server, name: string, x: Tool)
    requires Misses(d, s, name, x)
    ensures name in s.services
  {
  }

  lemma {:induction false} PrefixIsNew(tools: map<string, Tool>, staged: seq<Tool>, k: nat)
    requires k <= |staged|
    ensures NewTools(tools, staged) ==> NewTools(tools, staged[..k])
  {
  }

  lemma {:induction false} StepKeepsMissing(d: Descriptors, s: Server, op: Op, t: Server, name: string, x: Tool)
    requires Misses(d, s, name, x) && Takes(d, s, op, t)
    ensures Misses(d, t, name, x)
  {
    hide ToolsOf, Registers;
    match op
    case Register(group) => RegistrationKeepsMissing(d, s, group, t, name, x);
    case _ => ToolsDependOnFilters(d, s, t, s.services[name]);
  }

  // ----- every run -----

  ghost predicate NeverInterrupted(d: Descriptors, states: seq<Server>, ops: seq<Op>)
    requires |states| == |ops| + 1
  {
    forall i :: 0 <= i < |ops| ==> !Interrupts(d, states[i], ops[i])
  }

  lemma {:induction false} ExactUntil(d: Descriptors, states: seq<Server>, ops: seq<Op>, k: nat)
    requires Run(d, states, ops) && k <= |ops| && forall i :: 0 <= i < k ==> !Interrupts(d, states[i], ops[i])
    ensures CatalogExact(d, states[k])
  {
    hide CatalogExact, Takes, Interrupts;
    if k == 0 {
      FreshIsExact(d, states[0]);
    } else {
      ExactUntil(d, states, ops, k - 1);
      StepKeepsCatalog(d, states[k - 1], ops[k - 1], states[k]);
    }
  }

  lemma {:induction false} MissingForever(
    d: Descriptors, states: seq<Server>, ops: seq<Op>, i: nat, k: nat, name: string, x: Tool)
    requires Run(d, states, ops) && i <= k <= |ops| && Misses(d, states[i], name, x)
    ensures Misses(d, states[k], name, x)
    decreases k
  {
    hide Misses, Takes;
    if i < k {
      MissingForever(d, states, ops, i, k - 1, name, x);
      StepKeepsMissing(d, states[k - 1], ops[k - 1], states[k], name, x);
    }
  }

  /** In every reachable state the catalog is the pure filter of the registered
      services under the current patterns, exactly when no registration so far
      was accepted with a tool that no request can be built for. */
  lemma {:induction false} CatalogExactIff(d: Descriptors, states: seq<Server>, ops: seq<Op>)
    requires Run(d, states, ops)
    ensures CatalogExact(d, states[|ops|]) <==> NeverInterrupted(d, states, ops)
  {
    hide CatalogExact, Takes, Interrupts;
    if NeverInterrupted(d, states, ops) {
      ExactUntil(d, states, ops, |ops|);
    } else {
      var i :| 0 <= i < |ops| && Interrupts(d, states[i], ops[i]);
      InterruptedForever(d, states, ops, i);
    }
  }

  lemma {:induction false} InterruptedForever(d: Descriptors, states: seq<Server>, ops: seq<Op>, i: nat)
    requires Run(d, states, ops) && i < |ops| && Interrupts(d, states[i], ops[i])
    ensures !CatalogExact(d, states[|ops|])
  {
    hide ToolsOf, Staged, WithTools, WithServices, Misses, Buildable, Accepts, InterruptedAt;
    var s, t, group := states[i], states[i + 1], ops[i].group;
    assert Takes(d, s, ops[i], t);
    var k, m :| InterruptedAt(d, s, group, t, k, m);
    StoppedInside(d, s, group, t, k, m);
    InterruptionMisses(d, s, group, t, k, m);
    var name, x := group[k].name, ToolsOf(d, s, group[k])[m];
    MissingForever(d, states, ops, i + 1, |ops|, name, x);
    MissingIsInexact(d, states[|ops|], name, x);
  }

  lemma {:induction false} StoppedInside(d: Descriptors, s: Server, group: seq<Service>, t: Server, k: int, m: int)
    requires InterruptedAt(d, s, group, t, k, m)
    ensures 0 <= k < |group| && 0 <= m < |ToolsOf(d, s, group[k])|
  {
    hide ToolsOf, Staged, WithTools, WithServices;
  }

  lemma {:induction false} MissingIsInexact(d: Descriptors, s: Server, name: string, x: Tool)
    requires Misses(d, s, name, x)
    ensures !CatalogExact(d, s)
  {
    hide ToolsOf;
    assert Offers(d, s, x);
  }

  /** Once frozen, nothing changes any more. */
  lemma {:induction false} FrozenForever(d: Descriptors, states: seq<Server>, ops: seq<Op>, i: nat, k: nat)
    requires Run(d, states, ops) && i <= k <= |ops| && states[i].frozen
    ensures states[k] == states[i]
    decreases k
  {
    hide Takes;
    if i < k {
      FrozenForever(d, states, ops, i, k - 1);
      StaysFrozen(d, states[i], ops[k - 1], states[k]);
    }
  }

  lemma {:induction false} StaysFrozen(d: Descriptors, s: Server, op: Op, t: Server)
    requires s.frozen && Takes(d, s, op, t)
    ensures t == s
  {
    hide Committed, Interrupted, Staged, NewServices, NewTools, Buildable;
  }
}
