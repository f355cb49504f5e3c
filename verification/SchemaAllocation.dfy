/** The stable-id allocator over a whole compilation. */
module SchemaAllocation {

  import opened LogicalSchema
  import opened Results
  import opened SchemaCompiler
  import opened SchemaIdentity
  import opened SchemaLedger
  import opened SchemaReference

  predicate OwnedBy(owners: map<int, Identity>, id: int, i: Identity) {
    id in owners && owners[id] == i
  }

  /** Every id in use has its one owner on record, and the last id is the
      highest. */
  ghost predicate Backed(env: Env, s: Ids) {
    && (forall k :: k in s.owners ==> 1 <= k <= s.last)
    && (s.last > 0 ==> s.last in s.owners)
    && (forall i :: i in s.active ==> OwnedBy(s.owners, s.active[i], i))
    && (forall i :: i in env.index.active ==> OwnedBy(s.owners, env.index.active[i].stableId, i))
    && (forall i :: i in env.index.retired ==> OwnedBy(s.owners, env.index.retired[i].id, i))
    && (forall i :: i in env.first ==> OwnedBy(s.owners, env.first[i], i))
  }

  /** Identities whose id was decided before this compilation allocates. */
  predicate Fixed(env: Env, i: Identity) {
    i in env.index.active || i in env.first
  }

  function FixedId(env: Env, i: Identity): int32
    requires Fixed(env, i)
  {
    if i in env.index.active then env.index.active[i].stableId else env.first[i]
  }

  /** How many of the identities need a new id. */
  function CountNew(env: Env, identities: seq<Identity>): nat {
    if identities == [] then
      0
    else
      CountNew(env, identities[..|identities| - 1]) + if Fixed(env, identities[|identities| - 1]) then 0 else 1
  }

  predicate Fresh(env: Env, s: Ids, identities: seq<Identity>) {
    && (forall k :: 0 <= k < |identities| ==> identities[k] !in s.active && identities[k] !in env.index.retired)
    && (forall j, k :: 0 <= j < k < |identities| ==> identities[j] != identities[k])
  }

  /** The id the k-th identity gets: its own if it has one, otherwise the next
      one in preorder after the last id. */
  function IdAt(env: Env, s: Ids, identities: seq<Identity>, k: nat): int
    requires k < |identities|
  {
    if Fixed(env, identities[k]) then
      FixedId(env, identities[k])
    else
      s.last + 1 + CountNew(env, identities[..k])
  }

  /** Nothing that is owned changes hands, and every new owner is listed. */
  ghost predicate Grown(s: Ids, r: Ids, identities: seq<Identity>) {
    && s.last <= r.last
    && (forall k :: k in s.owners ==> OwnedBy(r.owners, k, s.owners[k]))
    && (forall k :: k in r.owners && k !in s.owners ==> r.owners[k] in identities)
    && (forall k :: k in r.owners && k !in s.owners ==> r.owners[k] in r.active && r.active[r.owners[k]] == k)
    && (forall i :: i in r.active <==> i in s.active || i in identities)
    && (forall i :: i in s.active ==> r.active[i] == s.active[i])
  }

  /** One step fails only for a repeated or retired identity or when ids run
      out; the next id is never already reserved. */
  lemma {:induction false} AllocateExact(env: Env, s: Ids, i: Identity)
    requires Backed(env, s)
    ensures Allocate(env, s, i).Ok? <==>
              i !in s.active && i !in env.index.retired && (Fixed(env, i) || s.last < MAX_STABLE_ID)
    ensures Allocate(env, s, i).Ok? ==>
              var r := Allocate(env, s, i).value;
              && Backed(env, r) && Grown(s, r, [i])
              && r.active[i] == (if Fixed(env, i) then FixedId(env, i) else s.last + 1)
              && r.last == s.last + (if Fixed(env, i) then 0 else 1)
  {
    hide Backed, Grown;
    if i !in s.active && i !in env.index.retired {
      if Fixed(env, i) {
        KeepId(env, s, i);
      } else if s.last < MAX_STABLE_ID {
        TakeNextId(env, s, i);
      }
    }
  }

  lemma {:induction false} KeepId(env: Env, s: Ids, i: Identity)
    requires Backed(env, s) && Fixed(env, i) && i !in s.active
    ensures var r := s.(active := s.active[i := FixedId(env, i)]); Backed(env, r) && Grown(s, r, [i])
  {
  }

  lemma {:induction false} TakeNextId(env: Env, s: Ids, i: Identity)
    requires Backed(env, s) && s.last < MAX_STABLE_ID && i !in s.active
    ensures s.last + 1 !in s.owners
    ensures var r := Ids(s.last + 1, s.owners[s.last + 1 := i], s.active[i := s.last + 1]);
            Backed(env, r) && Grown(s, r, [i])
  {
  }

  lemma {:induction false} GrownJoin(s: Ids, m: Ids, r: Ids, a: seq<Identity>, b: seq<Identity>)
    requires Grown(s, m, a) && Grown(m, r, b)
    ensures Grown(s, r, a + b)
  {
    forall k | k in r.owners && k !in s.owners
      ensures r.owners[k] in a + b
    {
    }
  }

  lemma {:induction false} AllocateLast(env: Env, s: Ids, identities: seq<Identity>)
    requires identities != []
    ensures AllocateAll(env, s, identities) ==
              match AllocateAll(env, s, identities[..|identities| - 1])
              case Ok(before) => Allocate(env, before, identities[|identities| - 1])
              case Err => Err
  {
    hide Allocate;
    var init, last := identities[..|identities| - 1], identities[|identities| - 1];
    assert identities == init + [last];
    AllocateSplit(env, s, init, [last]);
    assert [last][1..] == [];
    if AllocateAll(env, s, init).Ok? {
      var mid := AllocateAll(env, s, init).value;
      var r := Allocate(env, mid, last);
      assert r.Ok? ==> AllocateAll(env, r.value, []) == r;
    }
  }

  /** A whole compilation's allocation succeeds exactly when no identity is
      repeated, active or retired and the id space suffices; it then hands out
      consecutive ids in preorder to the identities that had none. */
  lemma {:induction false} AllocateAllExact(env: Env, s: Ids, identities: seq<Identity>)
    requires Backed(env, s)
    ensures AllocateAll(env, s, identities).Ok? <==>
              Fresh(env, s, identities) && s.last + CountNew(env, identities) <= MAX_STABLE_ID
    ensures AllocateAll(env, s, identities).Ok? ==>
              var r := AllocateAll(env, s, identities).value;
              && Backed(env, r) && Grown(s, r, identities)
              && r.last == s.last + CountNew(env, identities)
              && forall k :: 0 <= k < |identities| ==> r.active[identities[k]] == IdAt(env, s, identities, k)
    decreases |identities|
  {
    hide Allocate, Backed, AllocateAll, Fixed, FixedId;
    if identities == [] {
      NothingAllocated(env, s);
    } else {
      var init, last := identities[..|identities| - 1], identities[|identities| - 1];
      AllocateAllExact(env, s, init);
      AllocateLast(env, s, identities);
      if AllocateAll(env, s, init).Ok? {
        var mid := AllocateAll(env, s, init).value;
        AllocateExact(env, mid, last);
        FreshLast(env, s, mid, identities);
        if Allocate(env, mid, last).Ok? {
          LastAllocated(env, s, mid, Allocate(env, mid, last).value, identities);
        }
      } else {
        FreshInit(env, s, identities);
      }
    }
  }

  lemma {:induction false} NothingAllocated(env: Env, s: Ids)
    ensures AllocateAll(env, s, []) == Ok(s) && Grown(s, s, [])
  {
  }

  lemma {:induction false} FreshInit(env: Env, s: Ids, identities: seq<Identity>)
    requires identities != []
    ensures Fresh(env, s, identities) ==> Fresh(env, s, identities[..|identities| - 1])
  {
  }

  lemma {:induction false} FreshLast(env: Env, s: Ids, mid: Ids, identities: seq<Identity>)
    requires identities != []
    requires Grown(s, mid, identities[..|identities| - 1]) && Fresh(env, s, identities[..|identities| - 1])
    ensures Fresh(env, s, identities) <==>
              identities[|identities| - 1] !in mid.active && identities[|identities| - 1] !in env.index.retired
  {
    var init, last := identities[..|identities| - 1], identities[|identities| - 1];
    if last in init {
      var j :| 0 <= j < |init| && init[j] == last;
      assert identities[j] == identities[|identities| - 1];
    }
  }

  lemma {:induction false} LastAllocated(env: Env, s: Ids, mid: Ids, r: Ids, identities: seq<Identity>)
    requires identities != []
    requires var init := identities[..|identities| - 1];
             && Fresh(env, s, identities) && Grown(s, mid, init) && mid.last == s.last + CountNew(env, init)
             && forall k :: 0 <= k < |init| ==> mid.active[init[k]] == IdAt(env, s, init, k)
    requires var last := identities[|identities| - 1];
             && Grown(mid, r, [last])
             && r.active[last] == (if Fixed(env, last) then FixedId(env, last) else mid.last + 1)
    ensures Grown(s, r, identities)
    ensures forall k :: 0 <= k < |identities| ==> r.active[identities[k]] == IdAt(env, s, identities, k)
  {
    hide Fixed, FixedId, CountNew;
    var init, last := identities[..|identities| - 1], identities[|identities| - 1];
    assert identities == init + [last];
    GrownJoin(s, mid, r, init, [last]);
    forall k | 0 <= k < |identities|
      ensures r.active[identities[k]] == IdAt(env, s, identities, k)
    {
      if k < |init| {
        assert init[k] == identities[k] && init[..k] == identities[..k];
        assert init[k] in mid.active;
      }
    }
  }
}
