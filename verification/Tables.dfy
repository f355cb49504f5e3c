/** Maps filled entry by entry from a list. */
module Tables {

  /** The table after storing every item in order; a later item wins. */
  function TableOf<A, K, V>(s: seq<A>, key: A -> K, value: A -> V): map<K, V> {
    if s == [] then
      map[]
    else
      TableOf(s[..|s| - 1], key, value)[key(s[|s| - 1]) := value(s[|s| - 1])]
  }

  ghost predicate DistinctKeys<A, K>(s: seq<A>, key: A -> K) {
    forall i, j :: 0 <= i < j < |s| ==> key(s[i]) != key(s[j])
  }

  lemma {:induction false} TableKeys<A, K, V>(s: seq<A>, key: A -> K, value: A -> V, k: K)
    ensures k in TableOf(s, key, value) <==> exists j :: 0 <= j < |s| && key(s[j]) == k
  {
    if s != [] {
      var init := s[..|s| - 1];
      TableKeys(init, key, value, k);
      if exists j :: 0 <= j < |init| && key(init[j]) == k {
        var j :| 0 <= j < |init| && key(init[j]) == k;
        assert key(s[j]) == k;
      }
      if exists j :: 0 <= j < |s| && key(s[j]) == k {
        var j :| 0 <= j < |s| && key(s[j]) == k;
        assert j < |init| ==> key(init[j]) == k;
      }
      assert key(s[|s| - 1]) == key(s[|s| - 1]);
    }
  }

  lemma {:induction false} TableAt<A, K, V>(s: seq<A>, key: A -> K, value: A -> V, j: nat)
    requires DistinctKeys(s, key) && j < |s|
    ensures key(s[j]) in TableOf(s, key, value) && TableOf(s, key, value)[key(s[j])] == value(s[j])
  {
    if j < |s| - 1 {
      var init := s[..|s| - 1];
      assert DistinctKeys(init, key);
      TableAt(init, key, value, j);
      assert init[j] == s[j];
      assert key(s[j]) != key(s[|s| - 1]);
    }
  }

  /** Every stored value comes from an item with that key. */
  lemma {:induction false} TableSource<A, K, V>(s: seq<A>, key: A -> K, value: A -> V, k: K) returns (j: nat)
    requires k in TableOf(s, key, value)
    ensures j < |s| && key(s[j]) == k && TableOf(s, key, value)[k] == value(s[j])
  {
    if key(s[|s| - 1]) == k {
      j := |s| - 1;
    } else {
      j := TableSource(s[..|s| - 1], key, value, k);
    }
  }

  lemma {:induction false} Member<T>(s: set<T>) returns (x: T)
    requires s != {}
    ensures x in s
  {
    x :| x in s;
  }
}
