/** mapScope as it runs: three passes over the fields that fill a name table and
    a table of oneof groups, then emit.  Each pass is proved against the
    declarative scope of ClickHouseLowering. */
module ClickHouseScopeLoops {
  import opened Results
  import opened LogicalSchema
  import opened Sorting
  import opened ClickHouseLowering
  import opened ClickHouseOneofs
  import E = ClickHouseExpr

  datatype OneofGroup = OneofGroup(caseName: string, numbers: seq<int>, firstIndex: nat)

  predicate FieldNameOk(f: Field, topLevel: bool) {
    ValidIdentifier(f.name) && !(RESERVED_PREFIX <= f.name) && (topLevel || f.name != "null")
  }

  /** First pass: every name is usable and used once. */
  method CollectNames(fields: seq<Field>, path: string, topLevel: bool) returns (r: Result<map<string, string>>)
    ensures r.Ok? <==> NamesOk(fields, topLevel)
    ensures r.Ok? ==> r.value.Keys == NamesOf(fields)
  {
    var seen: map<string, string> := map[];
    for index := 0 to |fields|
      invariant forall i :: 0 <= i < index ==> FieldNameOk(fields[i], topLevel)
      invariant forall i, j :: 0 <= i < j < index ==> fields[i].name != fields[j].name
      invariant seen.Keys == NamesOf(fields[..index])
    {
      var f := fields[index];
      if !FieldNameOk(f, topLevel) {
        return Err;
      }
      if f.name in seen {
        assert exists i :: 0 <= i < index && fields[i].name == f.name;
        return Err;
      }
      seen := seen[f.name := JoinPath(path, f.name)];
      assert fields[..index + 1] == fields[..index] + [f];
    }
    assert fields[..|fields|] == fields;
    return Ok(seen);
  }

  /** What the second pass demands of one field, given the earlier ones. */
  predicate MemberOk(fields: seq<Field>, i: nat, names: set<string>)
    requires i < |fields|
  {
    var f := fields[i];
    if f.oneof == "" then f.presence != OneofMember
    else
      && f.presence == OneofMember
      && f.nullable
      && ValidIdentifier(CaseName(f.oneof))
      && CaseName(f.oneof) !in names
      && Number(f) != 0
      && Number(f) !in GroupNumbers(fields[..i], f.oneof)
  }

  lemma {:induction false} GroupExtends(fields: seq<Field>, i: nat, oneof: string)
    requires i < |fields|
    ensures GroupNumbers(fields[..i + 1], oneof)
         == GroupNumbers(fields[..i], oneof) + if fields[i].oneof == oneof then [Number(fields[i])] else []
  {
    GroupConcat(fields[..i], fields[i..i + 1], oneof);
    assert fields[..i + 1] == fields[..i] + fields[i..i + 1];
    assert fields[i..i + 1] == [fields[i]];
    assert [fields[i]][1..] == [];
  }

  lemma {:induction false} GroupConcat(a: seq<Field>, b: seq<Field>, oneof: string)
    ensures GroupNumbers(a + b, oneof) == GroupNumbers(a, oneof) + GroupNumbers(b, oneof)
  {
    hide Number;
    if a == [] {
      assert a + b == b;
    } else {
      var head := if a[0].oneof == oneof then [Number(a[0])] else [];
      GroupConcat(a[1..], b, oneof);
      assert (a + b)[0] == a[0] && (a + b)[1..] == a[1..] + b;
      assert GroupNumbers(a + b, oneof) == head + (GroupNumbers(a[1..], oneof) + GroupNumbers(b, oneof));
      assert GroupNumbers(a, oneof) == head + GroupNumbers(a[1..], oneof);
    }
  }

  function NamesOf(fields: seq<Field>): set<string> {
    set f | f in fields :: f.name
  }

  lemma {:induction false} EarlierNumber(fields: seq<Field>, i: nat)
    requires i < |fields|
    ensures Number(fields[i]) in GroupNumbers(fields[..i], fields[i].oneof) <==>
            exists j :: 0 <= j < i && fields[j].oneof == fields[i].oneof && Number(fields[j]) == Number(fields[i])
  {
    hide Number;
    InGroup(fields[..i], fields[i].oneof, Number(fields[i]));
    assert forall j :: 0 <= j < i ==> fields[..i][j] == fields[j];
  }

  lemma {:induction false} CaseApart(fields: seq<Field>, i: nat)
    requires i < |fields|
    ensures CaseName(fields[i].oneof) !in NamesOf(fields) <==>
            forall j :: 0 <= j < |fields| ==> CaseName(fields[i].oneof) != fields[j].name
  {
    hide CaseName;
  }

  lemma {:induction false} OneofsOkGivesMember(fields: seq<Field>, i: nat)
    requires OneofsOk(fields) && i < |fields|
    ensures MemberOk(fields, i, NamesOf(fields))
  {
    hide Number, CaseName, NamesOf, GroupNumbers, ValidIdentifier;
    EarlierNumber(fields, i);
    CaseApart(fields, i);
  }

  lemma {:induction false} MembersGiveOneofsOk(fields: seq<Field>)
    requires forall i :: 0 <= i < |fields| ==> MemberOk(fields, i, NamesOf(fields))
    ensures OneofsOk(fields)
  {
    hide Number, CaseName, NamesOf, GroupNumbers, ValidIdentifier;
    forall i | 0 <= i < |fields|
      ensures fields[i].oneof == "" ==> fields[i].presence != OneofMember
      ensures fields[i].oneof != "" ==>
        && fields[i].presence == OneofMember && fields[i].nullable
        && ValidIdentifier(CaseName(fields[i].oneof)) && Number(fields[i]) != 0
        && (forall j :: 0 <= j < |fields| ==> CaseName(fields[i].oneof) != fields[j].name)
        && (forall j :: 0 <= j < i && fields[j].oneof == fields[i].oneof ==> Number(fields[j]) != Number(fields[i]))
    {
      assert MemberOk(fields, i, NamesOf(fields));
      EarlierNumber(fields, i);
      CaseApart(fields, i);
    }
  }

  predicate FirstAt(fields: seq<Field>, i: nat, oneof: string)
    requires i < |fields|
  {
    FirstOfGroup(fields, i) && fields[i].oneof == oneof
  }

  /** The group table after the fields before `index`. */
  predicate GroupsBuilt(fields: seq<Field>, index: nat, groups: map<string, OneofGroup>)
    requires index <= |fields|
  {
    && (forall oneof :: oneof in groups ==>
          && groups[oneof].caseName == CaseName(oneof)
          && groups[oneof].numbers == GroupNumbers(fields[..index], oneof)
          && groups[oneof].firstIndex < index
          && FirstAt(fields, groups[oneof].firstIndex, oneof))
    && (forall i :: 0 <= i < index && fields[i].oneof != "" ==> fields[i].oneof in groups)
  }

  lemma {:induction false} NoGroupYet(fields: seq<Field>, index: nat, oneof: string)
    requires index <= |fields| && forall i :: 0 <= i < index ==> fields[i].oneof != oneof
    ensures GroupNumbers(fields[..index], oneof) == []
  {
    hide Number;
    if index > 0 {
      NoGroupYet(fields, index - 1, oneof);
      GroupExtends(fields, index - 1, oneof);
    }
  }

  lemma {:induction false} GroupsGrow(
    fields: seq<Field>, index: nat, groups: map<string, OneofGroup>, next: map<string, OneofGroup>, oneof: string)
    requires index < |fields| && GroupsBuilt(fields, index, groups) && oneof == fields[index].oneof
    requires oneof == "" ==> next == groups && "" !in groups
    requires oneof != "" ==>
      next == groups[oneof :=
        if oneof in groups then groups[oneof].(numbers := groups[oneof].numbers + [Number(fields[index])])
        else OneofGroup(CaseName(oneof), [Number(fields[index])], index)]
    ensures GroupsBuilt(fields, index + 1, next)
  {
    hide Number, CaseName;
    forall g | g in next
      ensures next[g].caseName == CaseName(g)
      ensures next[g].numbers == GroupNumbers(fields[..index + 1], g)
      ensures next[g].firstIndex < index + 1 && FirstAt(fields, next[g].firstIndex, g)
    {
      GroupExtends(fields, index, g);
      if g == oneof && g !in groups {
        NoGroupYet(fields, index, g);
      }
    }
  }

  /** Second pass: the oneof groups, in field order. */
  method CollectGroups(fields: seq<Field>, names: map<string, string>) returns (r: Result<map<string, OneofGroup>>)
    requires names.Keys == NamesOf(fields)
    ensures r.Ok? <==> OneofsOk(fields)
    ensures r.Ok? ==> GroupsBuilt(fields, |fields|, r.value) && "" !in r.value
  {
    hide Number, CaseName, NamesOf, ValidIdentifier, GroupsBuilt, OneofsOk;
    var groups: map<string, OneofGroup> := map[];
    assert GroupsBuilt(fields, 0, groups) by { NoGroups(fields); }
    for index := 0 to |fields|
      invariant GroupsBuilt(fields, index, groups) && "" !in groups
      invariant forall i :: 0 <= i < index ==> MemberOk(fields, i, NamesOf(fields))
    {
      var f := fields[index];
      var accepted := MemberAccepted(fields, index, groups, names);
      if !accepted {
        assert !OneofsOk(fields) by {
          if OneofsOk(fields) {
            OneofsOkGivesMember(fields, index);
          }
        }
        return Err;
      }
      ghost var before := groups;
      if f.oneof != "" {
        if f.oneof in groups {
          var group := groups[f.oneof];
          groups := groups[f.oneof := group.(numbers := group.numbers + [Number(f)])];
        } else {
          groups := groups[f.oneof := OneofGroup(CaseName(f.oneof), [Number(f)], index)];
        }
      }
      GroupsGrow(fields, index, before, groups, f.oneof);
    }
    MembersGiveOneofsOk(fields);
    return Ok(groups);
  }

  lemma {:induction false} NoGroups(fields: seq<Field>)
    ensures GroupsBuilt(fields, 0, map[])
  {
  }

  /** One field against the group table. */
  method MemberAccepted(
    fields: seq<Field>, index: nat, groups: map<string, OneofGroup>,
    names: map<string, string>) returns (accepted: bool)
    requires index < |fields| && GroupsBuilt(fields, index, groups) && names.Keys == NamesOf(fields)
    ensures accepted <==> MemberOk(fields, index, NamesOf(fields))
  {
    hide Number, CaseName, NamesOf, ValidIdentifier;
    var f := fields[index];
    if f.oneof == "" {
      return f.presence != OneofMember;
    }
    if f.presence != OneofMember || !f.nullable {
      return false;
    }
    if f.oneof !in groups {
      NoGroupYet(fields, index, f.oneof);
    }
    var caseName := CaseName(f.oneof);
    var numbers := if f.oneof in groups then groups[f.oneof].numbers else [];
    return ValidIdentifier(caseName) && caseName !in names && Number(f) != 0 && Number(f) !in numbers;
  }

  lemma {:induction false} GroupFirst(fields: seq<Field>, groups: map<string, OneofGroup>, index: nat)
    requires index < |fields| && GroupsBuilt(fields, |fields|, groups)
    ensures fields[index].oneof != "" ==> fields[index].oneof in groups
    ensures FirstOfGroup(fields, index) <==>
            fields[index].oneof != "" && groups[fields[index].oneof].firstIndex == index
  {
    hide Number, CaseName, GroupNumbers;
    var f := fields[index];
    if f.oneof != "" {
      var first := groups[f.oneof].firstIndex;
      assert FirstAt(fields, first, f.oneof);
    }
  }

  lemma {:induction false} AppendAssociative(a: Scope, b: Scope, c: Scope)
    ensures Append(Append(a, b), c) == Append(a, Append(b, c))
  {
  }

  /** mapScope: the three passes together. */
  method RenderScope(fields: seq<Field>, path: string, topLevel: bool) returns (r: Result<Scope>)
    ensures r == MapScope(fields, path, topLevel)
  {
    hide NamesOk, OneofsOk, MapField, EmitOne, GroupsBuilt, Append, CaseCheck, PresenceCheck, Located, CaseDeclaration;
    var names := CollectNames(fields, path, topLevel);
    if names.Err? {
      return Err;
    }
    var collected := CollectGroups(fields, names.value);
    if collected.Err? {
      return Err;
    }
    var groups := collected.value;
    var scope := Scope([], [], []);
    ghost var whole := Emit(fields, 0, path, topLevel);
    assert whole.Ok? ==> Append(scope, whole.value) == whole.value by {
      if whole.Ok? { AppendNothing(whole.value); }
    }
    for index := 0 to |fields|
      invariant whole.Ok? <==> Emit(fields, index, path, topLevel).Ok?
      invariant whole.Ok? ==> Append(scope, Emit(fields, index, path, topLevel).value) == whole.value
    {
      var f := fields[index];
      var mapped := MapField(f, JoinPath(path, f.name));
      if mapped.Err? {
        return Err;
      }
      GroupFirst(fields, groups, index);
      var startsGroup := f.oneof != "" && groups[f.oneof].firstIndex == index;
      var one := EmitField(fields, index, groups, startsGroup, mapped.value, path, topLevel);
      if whole.Ok? {
        AppendAssociative(scope, one, Emit(fields, index + 1, path, topLevel).value);
      }
      scope := Append(scope, one);
    }
    AppendNothing(scope);
    return Ok(scope);
  }

  lemma {:induction false} AppendNothing(scope: Scope)
    ensures Append(scope, Scope([], [], [])) == scope && Append(Scope([], [], []), scope) == scope
  {
  }

  /** Third pass, one field: the discriminator when its group starts here, the
      presence agreement, then the field's own checks, rewritten in place. */
  method EmitField(
    fields: seq<Field>, index: nat, groups: map<string, OneofGroup>, startsGroup: bool, mapped: MappedField,
    path: string, topLevel: bool) returns (r: Scope)
    requires index < |fields| && GroupsBuilt(fields, |fields|, groups)
    requires startsGroup <==> FirstOfGroup(fields, index)
    ensures r == EmitOne(fields, index, mapped, path, topLevel)
  {
    hide GroupsBuilt, PresenceCheck;
    var f := fields[index];
    var declarations, checks := [], [];
    if startsGroup {
      GroupOf(fields, index, groups);
      var group := groups[f.oneof];
      declarations := declarations + [Declaration(group.caseName, E.Int32, "0", JoinPath(path, f.oneof), 0, true)];
      var allowed := [0] + SortBy(group.numbers, (n: int) => n);
      checks := checks + [Check(JoinPath(path, f.oneof), "oneof_case",
        E.InList(ScopeElement(group.caseName, topLevel), allowed))];
    }
    if f.oneof != "" {
      checks := checks + [PresenceCheck(f, path, topLevel)];
    }
    var own := Relocate(mapped.checks, ScopeElement(f.name, topLevel));
    declarations := declarations
      + [Declaration(f.name, mapped.sqlType, mapped.defaultExpr, JoinPath(path, f.name), f.stableId, false)];
    return Scope(declarations, checks + own, mapped.diagnostics);
  }

  /** The rewriting of a field's checks, one after the other in place. */
  method Relocate(checks: seq<Check>, element: E.Expr) returns (own: seq<Check>)
    ensures own == Located(checks, element)
  {
    hide E.Replace;
    own := checks;
    for i := 0 to |own|
      invariant |own| == |checks|
      invariant forall k :: 0 <= k < i ==> own[k] == Located(checks, element)[k]
      invariant forall k :: i <= k < |own| ==> own[k] == checks[k]
    {
      own := own[i := own[i].(expr := E.Replace(own[i].expr, element))];
    }
  }

  lemma {:induction false} GroupOf(fields: seq<Field>, index: nat, groups: map<string, OneofGroup>)
    requires index < |fields| && GroupsBuilt(fields, |fields|, groups) && FirstOfGroup(fields, index)
    ensures var oneof := fields[index].oneof;
            oneof in groups && groups[oneof].caseName == CaseName(oneof)
              && groups[oneof].numbers == GroupNumbers(fields, oneof)
  {
    hide GroupNumbers, CaseName;
    assert fields[..|fields|] == fields;
  }
}
