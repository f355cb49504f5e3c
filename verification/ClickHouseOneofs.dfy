/** A oneof in ClickHouse: one discriminator column, one presence bit per
    member.  The emitted checks hold exactly when the discriminator names the
    one member that is present. */
module ClickHouseOneofs {
  import opened LogicalSchema
  import opened Sorting
  import opened ClickHouseLowering
  import opened ClickHouseValues
  import E = ClickHouseExpr

  lemma {:induction false} InGroup(fields: seq<Field>, oneof: string, n: int)
    ensures n in GroupNumbers(fields, oneof) <==>
            exists i :: 0 <= i < |fields| && fields[i].oneof == oneof && Number(fields[i]) == n
  {
    if fields != [] {
      InGroup(fields[1..], oneof, n);
      assert forall i :: 1 <= i < |fields| ==> fields[i] == fields[1..][i - 1];
      if n in GroupNumbers(fields[1..], oneof) {
        var i :| 0 <= i < |fields[1..]| && fields[1..][i].oneof == oneof && Number(fields[1..][i]) == n;
        assert fields[i + 1].oneof == oneof;
      }
      if n in GroupNumbers(fields, oneof) && n !in GroupNumbers(fields[1..], oneof) {
        assert fields[0].oneof == oneof;
      }
    }
  }

  lemma {:induction false} AllowedCase(fields: seq<Field>, oneof: string, n: int)
    ensures n in CaseNumbers(fields, oneof) <==>
            n == 0 || exists i :: 0 <= i < |fields| && fields[i].oneof == oneof && Number(fields[i]) == n
  {
    SortByMembers(GroupNumbers(fields, oneof), (m: int) => m);
    InGroup(fields, oneof, n);
  }

  lemma {:induction false} ExclusiveTail(fields: seq<Field>, slots: seq<Slot>)
    requires |fields| == |slots| > 0 && Exclusive(fields, slots)
    ensures Exclusive(fields[1..], slots[1..])
  {
  }

  lemma {:induction false} SelectedMember(fields: seq<Field>, slots: seq<Slot>, i: nat)
    requires |fields| == |slots| && i < |fields| && fields[i].oneof != ""
    requires Exclusive(fields, slots) && slots[i].Present?
    ensures Selected(fields, slots, fields[i].oneof) == Number(fields[i])
  {
    if i > 0 {
      ExclusiveTail(fields, slots);
      assert fields[1..][i - 1] == fields[i] && slots[1..][i - 1] == slots[i];
      SelectedMember(fields[1..], slots[1..], i - 1);
    }
  }

  lemma {:induction false} SelectedFrom(fields: seq<Field>, slots: seq<Slot>, oneof: string) returns (i: int)
    requires |fields| == |slots|
    ensures i == -1 ==> Selected(fields, slots, oneof) == 0
                        && forall k :: 0 <= k < |fields| && fields[k].oneof == oneof ==> slots[k].Absent?
    ensures i != -1 ==> 0 <= i < |fields| && fields[i].oneof == oneof && slots[i].Present?
                        && Selected(fields, slots, oneof) == Number(fields[i])
  {
    if fields == [] {
      i := -1;
    } else if fields[0].oneof == oneof && slots[0].Present? {
      i := 0;
    } else {
      var k := SelectedFrom(fields[1..], slots[1..], oneof);
      i := if k == -1 then -1 else k + 1;
      assert forall j :: 1 <= j < |fields| ==> fields[j] == fields[1..][j - 1] && slots[j] == slots[1..][j - 1];
    }
  }

  /** The discriminator of the i-th field's oneof. */
  function Case(fields: seq<Field>, row: map<string, E.Stored>, i: nat): E.Stored
    requires i < |fields|
  {
    E.Lookup(row, CaseName(fields[i].oneof))
  }

  predicate CaseHolds(fields: seq<Field>, row: map<string, E.Stored>, i: nat)
    requires i < |fields|
  {
    fields[i].oneof != "" ==>
      Case(fields, row, i).I? && Case(fields, row, i).n in CaseNumbers(fields, fields[i].oneof)
  }

  predicate BitAgrees(fields: seq<Field>, slots: seq<Slot>, row: map<string, E.Stored>, i: nat)
    requires i < |fields| == |slots|
  {
    fields[i].oneof != "" ==>
      Case(fields, row, i).I? && (Case(fields, row, i).n == Number(fields[i]) <==> slots[i].Present?)
  }

  lemma {:induction false} AgreeingCase(fields: seq<Field>, slots: seq<Slot>, row: map<string, E.Stored>, i: nat)
    requires OneofsOk(fields) && i < |fields| == |slots| && fields[i].oneof != ""
    requires CasesAgree(fields, slots, row)
    ensures CaseHolds(fields, row, i) && BitAgrees(fields, slots, row, i)
  {
    var oneof := fields[i].oneof;
    AllowedCase(fields, oneof, Selected(fields, slots, oneof));
    var k := SelectedFrom(fields, slots, oneof);
    if slots[i].Present? {
      SelectedMember(fields, slots, i);
    } else if k != -1 {
      assert Number(fields[k]) != Number(fields[i]);
    }
  }

  lemma {:induction false} BitsExclude(fields: seq<Field>, slots: seq<Slot>, row: map<string, E.Stored>)
    requires OneofsOk(fields) && |fields| == |slots|
    requires forall i :: 0 <= i < |fields| ==> BitAgrees(fields, slots, row, i)
    ensures Exclusive(fields, slots)
  {
    forall i, j | 0 <= i < j < |fields| && fields[i].oneof == fields[j].oneof != ""
      ensures slots[i].Absent? || slots[j].Absent?
    {
      assert BitAgrees(fields, slots, row, i) && BitAgrees(fields, slots, row, j);
    }
  }

  lemma {:induction false} BitsSelect(fields: seq<Field>, slots: seq<Slot>, row: map<string, E.Stored>, i: nat)
    requires OneofsOk(fields) && i < |fields| == |slots| && fields[i].oneof != ""
    requires CaseHolds(fields, row, i)
    requires forall k :: 0 <= k < |fields| ==> BitAgrees(fields, slots, row, k)
    ensures Case(fields, row, i) == E.I(Selected(fields, slots, fields[i].oneof))
  {
    var oneof := fields[i].oneof;
    var n := Case(fields, row, i).n;
    AllowedCase(fields, oneof, n);
    var k := SelectedFrom(fields, slots, oneof);
    if k == -1 {
      forall j | 0 <= j < |fields| && fields[j].oneof == oneof
        ensures Number(fields[j]) != n
      {
        assert BitAgrees(fields, slots, row, j);
      }
    } else {
      assert BitAgrees(fields, slots, row, k);
    }
  }

  /** The two kinds of oneof check together say that the cases agree. */
  lemma {:induction false} CasesMean(fields: seq<Field>, slots: seq<Slot>, row: map<string, E.Stored>)
    requires OneofsOk(fields) && |fields| == |slots|
    ensures CasesAgree(fields, slots, row) <==>
            forall i :: 0 <= i < |fields| ==> CaseHolds(fields, row, i) && BitAgrees(fields, slots, row, i)
  {
    if CasesAgree(fields, slots, row) {
      forall i | 0 <= i < |fields|
        ensures CaseHolds(fields, row, i) && BitAgrees(fields, slots, row, i)
      {
        if fields[i].oneof != "" {
          AgreeingCase(fields, slots, row, i);
        }
      }
    }
    if forall i :: 0 <= i < |fields| ==> CaseHolds(fields, row, i) && BitAgrees(fields, slots, row, i) {
      BitsExclude(fields, slots, row);
      forall i | 0 <= i < |fields| && fields[i].oneof != ""
        ensures Case(fields, row, i) == E.I(Selected(fields, slots, fields[i].oneof))
      {
        BitsSelect(fields, slots, row, i);
      }
    }
  }
}
