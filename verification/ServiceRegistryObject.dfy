/** The registry as the server object: checks first, then an in-place commit. */
module ServiceRegistryObject {

  import opened Globs
  import opened Results
  import opened ServiceRegistry

  class InvariantServer {
    const descriptors: Descriptors
    var frozen: bool
    var settings: map<string, string>
    var includes: seq<string>
    var excludes: seq<string>
    var services: map<string, Service>
    var native: set<string>
    var tools: map<string, Tool>

    ghost function Value(): Server
      reads this
    {
      Server(frozen, settings, includes, excludes, services, native, tools)
    }

    constructor (descriptors: Descriptors, native: set<string>)
      ensures this.descriptors == descriptors && Fresh(Value()) && this.native == native
    {
      this.descriptors := descriptors;
      frozen := false;
      settings, services, tools := map[], map[], map[];
      includes, excludes := [], [];
      this.native := native;
    }

    /** updateConfiguration; a refusal stands for the source's panic. */
    method UpdateConfiguration(key: string, value: string) returns (ok: bool)
      modifies `settings
      ensures ok == !frozen && Value() == Perform(old(Value()), Configure(key, value))
    {
      if frozen {
        return false;
      }
      settings := settings[key := value];
      ok := true;
    }

    /** Include, through updateProjectionFilters. */
    method Include(patterns: seq<string>) returns (ok: bool)
      modifies `includes
      ensures ok == (!frozen && services == map[])
      ensures Value() == Perform(old(Value()), Op.Include(patterns))
    {
      if frozen || services != map[] {
        return false;
      }
      includes := includes + patterns;
      ok := true;
    }

    method Exclude(patterns: seq<string>) returns (ok: bool)
      modifies `excludes
      ensures ok == (!frozen && services == map[])
      ensures Value() == Perform(old(Value()), Op.Exclude(patterns))
    {
      if frozen || services != map[] {
        return false;
      }
      excludes := excludes + patterns;
      ok := true;
    }

    method Freeze()
      modifies `frozen
      ensures Value() == Perform(old(Value()), Op.Freeze)
    {
      frozen := true;
    }

    // ----- staging -----

    method ToolsAmongNames(service: string, names: seq<string>, streaming: bool) returns (staged: seq<Tool>)
      requires Described(descriptors, service)
      ensures staged == ToolsAmong(descriptors, Value(), service, names, streaming)
    {
      staged := [];
      var infos := descriptors.parsed.value[service];
      for k := 0 to |names|
        invariant staged == ToolsAmong(descriptors, Value(), service, names[..k], streaming)
      {
        assert names[..k + 1][..k] == names[..k];
        if names[k] !in infos || infos[names[k]].clientStreaming || infos[names[k]].serverStreaming != streaming {
          continue;
        }
        var included := ShouldInclude(includes, excludes, service, names[k]);
        if included {
          staged := staged + [ToolFor(descriptors, service, names[k], streaming)];
        }
      }
      assert names[..|names|] == names;
    }

    method ToolsForService(service: Service) returns (r: Result<seq<Tool>>)
      ensures r.Ok? <==> (Described(descriptors, service.name) ==> service.agrees)
      ensures r.Ok? ==> r.value == ToolsOf(descriptors, Value(), service)
    {
      if !Described(descriptors, service.name) {
        return Ok([]);
      }
      if !service.agrees {
        return Err;
      }
      var unary := ToolsAmongNames(service.name, service.unary, false);
      var streams := ToolsAmongNames(service.name, service.streams, true);
      r := Ok(unary + streams);
    }

    /** The collision check of one service's staged tools. */
    method Claim(
      owners: map<string, string>, staged: seq<Tool>, ghost before: seq<Tool>) returns (r: Option<map<string, string>>)
      requires NewTools(tools, before) && Owned(owners, tools, before)
      ensures r.Some? <==> NewTools(tools, before + staged)
      ensures r.Some? ==> Owned(r.value, tools, before + staged)
    {
      hide NewTools, Owned;
      var all := owners;
      assert before + staged[..0] == before;
      for k := 0 to |staged|
        invariant NewTools(tools, before + staged[..k]) && Owned(all, tools, before + staged[..k])
      {
        assert before + staged[..k + 1] == before + staged[..k] + [staged[k]];
        ClaimOne(all, tools, before + staged[..k], staged[k]);
        if staged[k].name in all {
          assert (before + staged)[..|before| + k + 1] == before + staged[..k + 1];
          PrefixIsNew(tools, before + staged, |before| + k + 1);
          return None;
        }
        all := all[staged[k].name := staged[k].service];
      }
      assert staged[..|staged|] == staged;
      r := Some(all);
    }

    method Stage(group: seq<Service>) returns (r: Option<seq<seq<Tool>>>)
      ensures r.Some? <==>
        NewServices(descriptors, Value(), group) && NewTools(tools, Staged(descriptors, Value(), group))
      ensures r.Some? ==> |r.value| == |group| && forall i :: 0 <= i < |group| ==>
              r.value[i] == ToolsOf(descriptors, Value(), group[i])
    {
      hide ToolsOf, NewTools, Owned, NewServices;
      var names: set<string> := {};
      var staged: seq<seq<Tool>> := [];
      var owners := map name | name in tools :: tools[name].service;
      NothingStaged(descriptors, Value(), owners);
      for k := 0 to |group|
        invariant names == NamesOf(group[..k])
        invariant |staged| == k && forall i :: 0 <= i < k ==> staged[i] == ToolsOf(descriptors, Value(), group[i])
        invariant NewServices(descriptors, Value(), group[..k])
        invariant NewTools(tools, Staged(descriptors, Value(), group[..k]))
        invariant Owned(owners, tools, Staged(descriptors, Value(), group[..k]))
      {
        ghost var before := Staged(descriptors, Value(), group[..k]);
        StageStep(descriptors, Value(), group, k);
        var name := group[k].name;
        if name in names || name in services || name in native {
          StageFails(descriptors, Value(), group, k + 1);
          return None;
        }
        names := names + {name};
        var more := ToolsForService(group[k]);
        if more.Err? {
          StageFails(descriptors, Value(), group, k + 1);
          return None;
        }
        var claimed := Claim(owners, more.value, before);
        if claimed.None? {
          StageFails(descriptors, Value(), group, k + 1);
          return None;
        }
        owners := claimed.value;
        staged := staged + [more.value];
      }
      assert group[..|group|] == group;
      r := Some(staged);
    }

    // ----- committing -----

    /** addTool: refuses a tool no request can be built for. */
    method AddTool(t: Tool) returns (ok: bool)
      requires t.name !in tools
      modifies `tools
      ensures ok == (t.input in descriptors.buildable)
      ensures tools == if ok then old(tools)[t.name := t] else old(tools)
    {
      if t.input !in descriptors.buildable {
        return false;
      }
      tools := tools[t.name := t];
      ok := true;
    }

    /** Adds one service's tools; on failure some of them may already be in. */
    method AddTools(staged: seq<Tool>) returns (ok: bool)
      requires NewTools(tools, staged)
      modifies `tools
      ensures ok == Buildable(descriptors, staged)
      ensures ok ==> tools == WithTools(old(tools), staged)
      ensures !ok ==>
        exists m :: 0 <= m < |staged| && StoppedBefore(descriptors, old(tools), tools, staged, m)
    {
      ghost var was := tools;
      for k := 0 to |staged|
        invariant tools == WithTools(was, staged[..k]) && Buildable(descriptors, staged[..k])
      {
        assert staged[..k + 1][..k] == staged[..k];
        StillNew(was, staged, k);
        ok := AddTool(staged[k]);
        if !ok {
          assert StoppedBefore(descriptors, was, tools, staged, k);
          return;
        }
      }
      assert staged[..|staged|] == staged;
      ok := true;
    }

    /** registerServices: nothing changes unless every check passes; then the group
        is committed, completely if a request can be built for every tool. */
    method RegisterServices(group: seq<Service>) returns (ok: bool)
      modifies this
      ensures Takes(descriptors, old(Value()), Op.Register(group), Value())
      ensures ok <==>
        || group == []
        || (&& Accepts(descriptors, old(Value()), group)
            && Buildable(descriptors, Staged(descriptors, old(Value()), group)))
    {
      hide ToolsOf, NewTools, NewServices, WithTools, WithServices, Staged, NamesOf, Buildable;
      if |group| == 0 {
        NothingRegistered(descriptors, Value());
        return true;
      }
      for k := 0 to |group|
        invariant forall i :: 0 <= i < k ==> group[i].valid
      {
        if !group[k].valid {
          return false;
        }
      }
      if frozen {
        return false;
      }
      ghost var was := Value();
      var staged := Stage(group);
      if staged.None? {
        return false;
      }
      NothingCommitted(descriptors, was, group);
      for k := 0 to |group|
        invariant Value() == was.(
          services := WithServices(was.services, group[..k]),
          native := was.native + NamesOf(group[..k]),
          tools := WithTools(was.tools, Staged(descriptors, was, group[..k])))
        invariant Buildable(descriptors, Staged(descriptors, was, group[..k]))
      {
        CommitStep(descriptors, was, group, k);
        native := native + {group[k].name};
        services := services[group[k].name := group[k]];
        ok := AddTools(staged.value[k]);
        if !ok {
          ghost var before := WithTools(was.tools, Staged(descriptors, was, group[..k]));
          ghost var m :| 0 <= m < |staged.value[k]| && StoppedBefore(descriptors, before, tools, staged.value[k], m);
          Stopped(descriptors, was, group, k, m, Value());
          return;
        }
        CommitStepTools(descriptors, was, group, k);
      }
      assert group[..|group|] == group;
      ok := true;
    }
  }

  /** The tools before the m-th were added, and no request can be built for that one. */
  ghost predicate StoppedBefore(
    d: Descriptors, was: map<string, Tool>, now: map<string, Tool>, staged: seq<Tool>, m: nat)
    requires m < |staged|
  {
    now == WithTools(was, staged[..m]) && staged[m].input !in d.buildable
  }

  /** The owners table holds exactly the registered and staged tool names. */
  ghost predicate Owned(owners: map<string, string>, tools: map<string, Tool>, staged: seq<Tool>) {
    forall name :: name in owners <==> name in tools || exists i :: 0 <= i < |staged| && staged[i].name == name
  }

  lemma {:induction false} ClaimOne(owners: map<string, string>, tools: map<string, Tool>, staged: seq<Tool>, t: Tool)
    requires NewTools(tools, staged) && Owned(owners, tools, staged)
    ensures NewTools(tools, staged + [t]) <==> t.name !in owners
    ensures Owned(owners[t.name := t.service], tools, staged + [t])
  {
    hide NewTools;
    var all, more := staged + [t], owners[t.name := t.service];
    JoinIsNew(owners, tools, staged, t);
    forall name
      ensures name in more <==> name in tools || exists i :: 0 <= i < |all| && all[i].name == name
    {
      NameAmong(staged, t, name);
    }
  }

  lemma {:induction false} NameAmong(staged: seq<Tool>, t: Tool, name: string)
    ensures (exists i :: 0 <= i < |staged + [t]| && (staged + [t])[i].name == name) <==>
              name == t.name || exists i :: 0 <= i < |staged| && staged[i].name == name
  {
    var all := staged + [t];
    if exists i :: 0 <= i < |staged| && staged[i].name == name {
      var i :| 0 <= i < |staged| && staged[i].name == name;
      assert all[i].name == name;
    }
    if name == t.name {
      assert all[|staged|].name == name;
    }
  }

  lemma {:induction false} JoinIsNew(owners: map<string, string>, tools: map<string, Tool>, staged: seq<Tool>, t: Tool)
    requires NewTools(tools, staged) && Owned(owners, tools, staged)
    ensures NewTools(tools, staged + [t]) <==> t.name !in owners
  {
    var all := staged + [t];
    assert all[|staged|] == t;
    if t.name in owners && t.name !in tools {
      var i :| 0 <= i < |staged| && staged[i].name == t.name;
      assert all[i].name == all[|staged|].name;
    }
  }

  lemma {:induction false} NothingStaged(d: Descriptors, s: Server, owners: map<string, string>)
    requires owners.Keys == s.tools.Keys
    ensures NewServices(d, s, []) && NewTools(s.tools, Staged(d, s, [])) && Owned(owners, s.tools, Staged(d, s, []))
    ensures NamesOf([]) == {}
  {
  }

  lemma {:induction false} StageStep(d: Descriptors, s: Server, group: seq<Service>, k: nat)
    requires k < |group| && NewServices(d, s, group[..k])
    ensures NewServices(d, s, group[..k + 1]) <==>
              && group[k].name !in NamesOf(group[..k]) && group[k].name !in s.services && group[k].name !in s.native
              && (Described(d, group[k].name) ==> group[k].agrees)
    ensures NamesOf(group[..k + 1]) == NamesOf(group[..k]) + {group[k].name}
    ensures Staged(d, s, group[..k + 1]) == Staged(d, s, group[..k]) + ToolsOf(d, s, group[k])
  {
    hide ToolsOf, Staged;
    StagedAppend(d, s, group, k);
    var init, more := group[..k], group[..k + 1];
    assert forall i :: 0 <= i < k ==> more[i] == init[i];
    assert more[k] == group[k];
    if group[k].name in NamesOf(init) {
      var i :| 0 <= i < k && init[i].name == group[k].name;
      assert more[i].name == more[k].name;
    } else {
      forall i | 0 <= i < k
        ensures more[i].name != more[k].name
      {
        assert init[i].name in NamesOf(init);
      }
    }
  }

  /** A group with an unacceptable part is unacceptable. */
  lemma {:induction false} StageFails(d: Descriptors, s: Server, group: seq<Service>, k: nat)
    requires k <= |group|
    requires !NewServices(d, s, group[..k]) || !NewTools(s.tools, Staged(d, s, group[..k]))
    ensures !NewServices(d, s, group) || !NewTools(s.tools, Staged(d, s, group))
  {
    hide ToolsOf, NewTools;
    if !NewServices(d, s, group[..k]) {
      assert forall i :: 0 <= i < k ==> group[..k][i] == group[i];
    } else {
      StagedPrefix(d, s, group, k);
      var part, all := Staged(d, s, group[..k]), Staged(d, s, group);
      assert all[..|part|] == part;
      PrefixIsNew(s.tools, all, |part|);
    }
  }

  lemma {:induction false} NothingCommitted(d: Descriptors, s: Server, group: seq<Service>)
    ensures WithServices(s.services, group[..0]) == s.services && NamesOf(group[..0]) == {}
    ensures Staged(d, s, group[..0]) == [] && WithTools(s.tools, []) == s.tools && Buildable(d, [])
  {
  }

  lemma {:induction false} CommitStep(d: Descriptors, s: Server, group: seq<Service>, k: nat)
    requires k < |group| && Accepts(d, s, group)
    ensures WithServices(s.services, group[..k + 1]) == WithServices(s.services, group[..k])[group[k].name := group[k]]
    ensures s.native + NamesOf(group[..k + 1]) == s.native + NamesOf(group[..k]) + {group[k].name}
    ensures NewTools(WithTools(s.tools, Staged(d, s, group[..k])), ToolsOf(d, s, group[k]))
  {
    hide ToolsOf, Staged, WithTools, NewServices;
    assert group[..k + 1][..k] == group[..k];
    NamesAppend(group, k);
    StagedAppend(d, s, group, k);
    StagedPrefix(d, s, group, k + 1);
    var done, more := Staged(d, s, group[..k]), ToolsOf(d, s, group[k]);
    RestIsNew(s.tools, done, more, Staged(d, s, group));
  }

  lemma {:induction false} NamesAppend(group: seq<Service>, k: nat)
    requires k < |group|
    ensures NamesOf(group[..k + 1]) == NamesOf(group[..k]) + {group[k].name}
  {
    var init, more := group[..k], group[..k + 1];
    assert forall i :: 0 <= i < k ==> more[i] == init[i];
    forall name
      ensures name in NamesOf(more) <==> name in NamesOf(init) || name == group[k].name
    {
      if name in NamesOf(init) {
        var i :| 0 <= i < k && init[i].name == name;
        assert more[i].name == name;
      }
      if name == group[k].name {
        assert more[k].name == name;
      }
    }
  }

  lemma {:induction false} RestIsNew(tools: map<string, Tool>, done: seq<Tool>, more: seq<Tool>, all: seq<Tool>)
    requires NewTools(tools, all) && done + more <= all
    ensures NewTools(WithTools(tools, done), more)
  {
    hide WithTools;
    assert forall i :: 0 <= i < |done| ==> done[i] == all[i];
    assert forall i :: 0 <= i < |more| ==> more[i] == all[|done| + i];
    assert NewTools(tools, done);
    forall i | 0 <= i < |more|
      ensures more[i].name !in WithTools(tools, done)
    {
      ToolAt(tools, done, more[i].name);
    }
  }

  lemma {:induction false} WithToolsAppend(tools: map<string, Tool>, a: seq<Tool>, b: seq<Tool>)
    ensures WithTools(tools, a + b) == WithTools(WithTools(tools, a), b)
  {
    if b == [] {
      assert a + b == a;
    } else {
      assert (a + b)[..|a + b| - 1] == a + b[..|b| - 1];
      WithToolsAppend(tools, a, b[..|b| - 1]);
    }
  }

  lemma {:induction false} CommitStepTools(d: Descriptors, s: Server, group: seq<Service>, k: nat)
    requires k < |group|
    ensures WithTools(s.tools, Staged(d, s, group[..k + 1]))
            == WithTools(WithTools(s.tools, Staged(d, s, group[..k])), ToolsOf(d, s, group[k]))
    ensures Buildable(d, Staged(d, s, group[..k])) && Buildable(d, ToolsOf(d, s, group[k])) ==>
            Buildable(d, Staged(d, s, group[..k + 1]))
  {
    hide ToolsOf, Staged, WithTools;
    StagedAppend(d, s, group, k);
    WithToolsAppend(s.tools, Staged(d, s, group[..k]), ToolsOf(d, s, group[k]));
  }

  lemma {:induction false} NothingRegistered(d: Descriptors, s: Server)
    ensures Takes(d, s, Op.Register([]), s)
  {
    assert Staged(d, s, []) == [] && WithTools(s.tools, []) == s.tools && WithServices(s.services, []) == s.services;
    assert s.native + NamesOf([]) == s.native;
  }

  lemma {:induction false} Stopped(d: Descriptors, s: Server, group: seq<Service>, k: nat, m: nat, t: Server)
    requires k < |group| && m < |ToolsOf(d, s, group[k])| && ToolsOf(d, s, group[k])[m].input !in d.buildable
    requires t == s.(services := WithServices(s.services, group[..k + 1]), native := s.native + NamesOf(group[..k + 1]),
                     tools := WithTools(WithTools(s.tools, Staged(d, s, group[..k])), ToolsOf(d, s, group[k])[..m]))
    ensures Interrupted(d, s, group, t) && !Buildable(d, Staged(d, s, group))
  {
    hide ToolsOf, Staged, WithTools, WithServices, NamesOf;
    WithToolsAppend(s.tools, Staged(d, s, group[..k]), ToolsOf(d, s, group[k])[..m]);
    var at := StoppedAt(d, s, group, k, m);
    assert InterruptedAt(d, s, group, t, k, m);
  }

  /** An accepted registration is all or nothing exactly when a request can be
      built for each of its tools. */
  lemma {:induction false} AtomicIff(d: Descriptors, s: Server, group: seq<Service>, t: Server)
    requires Accepts(d, s, group) && Registers(d, s, group, t)
    ensures Buildable(d, Staged(d, s, group)) <==> t == s || t == Committed(d, s, group)
  {
    hide ToolsOf, Staged, WithTools, WithServices;
    if !Buildable(d, Staged(d, s, group)) {
      var all := Staged(d, s, group);
      var k, m :| InterruptedAt(d, s, group, t, k, m);
      assert group[..k + 1][0].name in NamesOf(group[..k + 1]);
      assert group[0].name in t.native;
      var at := StoppedAt(d, s, group, k, m);
      StillNew(s.tools, all, at);
      ToolAt(s.tools, all, all[at].name);
    }
  }
}
