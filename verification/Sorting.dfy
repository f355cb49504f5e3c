/** Sorting by an integer key, as the compilers do before they emit anything. */
module Sorting {

  function Insert<T>(x: T, s: seq<T>, key: T -> int): (r: seq<T>)
    ensures multiset(r) == multiset(s) + multiset{x}
  {
    if s == [] || key(x) <= key(s[0]) then
      [x] + s
    else
      assert s == [s[0]] + s[1..];
      [s[0]] + Insert(x, s[1..], key)
  }

  function SortBy<T>(s: seq<T>, key: T -> int): (r: seq<T>)
    ensures multiset(r) == multiset(s)
  {
    if s == [] then
      []
    else
      assert s == [s[0]] + s[1..];
      Insert(s[0], SortBy(s[1..], key), key)
  }

  ghost predicate Ordered<T>(s: seq<T>, key: T -> int) {
    forall i, j :: 0 <= i < j < |s| ==> key(s[i]) <= key(s[j])
  }

  lemma {:induction false} InsertKeepsOrder<T>(x: T, s: seq<T>, key: T -> int)
    requires Ordered(s, key)
    ensures Ordered(Insert(x, s, key), key)
  {
    if s != [] && key(x) > key(s[0]) {
      InsertKeepsOrder(x, s[1..], key);
      var r := Insert(x, s[1..], key);
      forall j | 0 <= j < |r|
        ensures key(s[0]) <= key(r[j])
      {
        assert r[j] in multiset(r);
        assert r[j] == x || r[j] in s[1..];
      }
    }
  }

  lemma {:induction false} SortByOrders<T>(s: seq<T>, key: T -> int)
    ensures Ordered(SortBy(s, key), key)
  {
    if s != [] {
      SortByOrders(s[1..], key);
      InsertKeepsOrder(s[0], SortBy(s[1..], key), key);
    }
  }

  lemma SortByMembers<T>(s: seq<T>, key: T -> int)
    ensures |SortBy(s, key)| == |s|
    ensures forall x :: x in SortBy(s, key) <==> x in s
  {
    var r := SortBy(s, key);
    assert |multiset(r)| == |multiset(s)|;
    forall x
      ensures x in r <==> x in s
    {
      assert x in r <==> x in multiset(r);
      assert x in s <==> x in multiset(s);
    }
  }

  lemma {:induction false} SortedMember<T>(s: seq<T>, key: T -> int, i: nat)
    requires i < |SortBy(s, key)|
    ensures SortBy(s, key)[i] in s
  {
    var r := SortBy(s, key);
    assert r[i] in multiset(r);
    assert r[i] in multiset(s);
  }

  ghost predicate Apart<T>(s: seq<T>, key: T -> int) {
    forall i, j :: 0 <= i < j < |s| ==> key(s[i]) != key(s[j])
  }

  lemma {:induction false} InsertKeepsApart<T>(x: T, s: seq<T>, key: T -> int)
    requires Apart(s, key) && forall i :: 0 <= i < |s| ==> key(s[i]) != key(x)
    ensures Apart(Insert(x, s, key), key)
  {
    if s != [] && key(x) > key(s[0]) {
      InsertKeepsApart(x, s[1..], key);
      var r := Insert(x, s[1..], key);
      forall j | 0 <= j < |r|
        ensures key(s[0]) != key(r[j])
      {
        assert r[j] in multiset(r);
        assert r[j] == x || r[j] in s[1..];
      }
    }
  }

  lemma {:induction false} ApartFromHead<T>(s: seq<T>, key: T -> int, x: T)
    requires s != [] && Apart(s, key) && x in s[1..]
    ensures key(x) != key(s[0])
  {
    var j :| 0 <= j < |s[1..]| && s[1..][j] == x;
    assert s[j + 1] == x;
  }

  lemma {:induction false} SortedApartFromHead<T>(s: seq<T>, key: T -> int, i: nat)
    requires s != [] && Apart(s, key) && i < |SortBy(s[1..], key)|
    ensures key(SortBy(s[1..], key)[i]) != key(s[0])
  {
    hide Apart, SortBy;
    SortedMember(s[1..], key, i);
    ApartFromHead(s, key, SortBy(s[1..], key)[i]);
  }

  lemma {:induction false} SortKeepsDistinct<T>(s: seq<T>, key: T -> int)
    requires Apart(s, key)
    ensures Apart(SortBy(s, key), key)
    decreases |s|
  {
    if s != [] {
      hide Insert;
      var rest := s[1..];
      assert Apart(rest, key);
      SortKeepsDistinct(rest, key);
      var r := SortBy(rest, key);
      forall i | 0 <= i < |r|
        ensures key(r[i]) != key(s[0])
      {
        SortedApartFromHead(s, key, i);
      }
      InsertKeepsApart(s[0], r, key);
    }
  }

  /** Distinct keys leave only one order: whatever order the items arrive in,
      sorting gives the same sequence. */
  lemma {:induction false} SortIsCanonical<T>(a: seq<T>, b: seq<T>, key: T -> int)
    requires multiset(a) == multiset(b) && Apart(a, key)
    ensures SortBy(a, key) == SortBy(b, key)
  {
    SortByOrders(a, key);
    SortByOrders(b, key);
    SortKeepsDistinct(a, key);
    OrderIsUnique(SortBy(a, key), SortBy(b, key), key);
  }

  lemma {:induction false} OrderIsUnique<T>(a: seq<T>, b: seq<T>, key: T -> int)
    requires multiset(a) == multiset(b) && Ordered(a, key) && Ordered(b, key) && Apart(a, key)
    ensures a == b
  {
    if a == [] {
      assert |multiset(a)| == |a| && |multiset(b)| == |b|;
    } else {
      SameHead(a, b, key);
      TailMultiset(a);
      TailMultiset(b);
      OrderIsUnique(a[1..], b[1..], key);
      assert a == [a[0]] + a[1..] && b == [b[0]] + b[1..];
    }
  }

  lemma {:induction false} TailMultiset<T>(s: seq<T>)
    requires s != []
    ensures multiset(s[1..]) == multiset(s) - multiset{s[0]}
  {
    assert s == [s[0]] + s[1..];
  }

  lemma {:induction false} SameHead<T>(a: seq<T>, b: seq<T>, key: T -> int)
    requires a != [] && multiset(a) == multiset(b) && Ordered(a, key) && Ordered(b, key) && Apart(a, key)
    ensures b != [] && a[0] == b[0]
  {
    assert a[0] in multiset(b);
    assert b[0] in multiset(a);
    var i :| 0 <= i < |a| && a[i] == b[0];
    var j :| 0 <= j < |b| && b[j] == a[0];
    assert key(b[0]) <= key(a[0]);
  }

  lemma {:induction false} SortedIsFixed<T>(s: seq<T>, key: T -> int)
    requires Ordered(s, key) && Apart(s, key)
    ensures SortBy(s, key) == s
  {
    SortByOrders(s, key);
    OrderIsUnique(s, SortBy(s, key), key);
  }
}
