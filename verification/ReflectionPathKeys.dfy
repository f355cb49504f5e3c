/** The text keys under which comments are stored. */
module ReflectionPathKeys {

  import opened Decimals

  /** pathKey: the numbers of a path, joined by commas. */
  function PathKey(path: seq<int>): string {
    if path == [] then ""
    else if |path| == 1 then Signed(path[0])
    else PathKey(path[..|path| - 1]) + "," + Signed(path[|path| - 1])
  }

  predicate NoComma(s: string) {
    forall k :: 0 <= k < |s| ==> s[k] != ','
  }

  lemma {:induction false} SignedPlain(n: int)
    ensures NoComma(Signed(n)) && Signed(n) != ""
  {
    var d := if n < 0 then Digits(-n) else Digits(n);
    assert AllDigits(d);
  }

  lemma {:induction false} CommaIsLast(a: string, b: string, c: string, d: string)
    requires NoComma(b) && a + "," + b == c + "," + d
    ensures |c| <= |a|
  {
    var s := a + "," + b;
    assert forall k :: |a| < k < |s| ==> s[k] == b[k - |a| - 1];
    assert s[|c|] == ',';
  }

  /** The part after the last comma is determined by the text. */
  lemma {:induction false} SplitUnique(a: string, b: string, c: string, d: string)
    requires NoComma(b) && NoComma(d) && a + "," + b == c + "," + d
    ensures a == c && b == d
  {
    var s := a + "," + b;
    CommaIsLast(a, b, c, d);
    CommaIsLast(c, d, a, b);
    assert a == s[..|a|] && c == s[..|c|];
    assert b == s[|a| + 1..] && d == s[|c| + 1..];
  }

  lemma {:induction false} Joined(path: seq<int>)
    requires |path| > 1
    ensures !NoComma(PathKey(path))
  {
    var front := PathKey(path[..|path| - 1]);
    assert PathKey(path)[|front|] == ',';
  }

  /** Different paths have different keys, so no comment is looked up under
      another path's key. */
  lemma {:induction false} PathKeyInjective(p: seq<int>, q: seq<int>)
    requires PathKey(p) == PathKey(q)
    ensures p == q
  {
    hide Signed, NoComma;
    if |p| > 1 {
      Joined(p);
    }
    if |q| > 1 {
      Joined(q);
    }
    if p != [] {
      SignedPlain(p[|p| - 1]);
    }
    if q != [] {
      SignedPlain(q[|q| - 1]);
    }
    if |p| > 1 && |q| > 1 {
      var a, c := p[..|p| - 1], q[..|q| - 1];
      SplitUnique(PathKey(a), Signed(p[|p| - 1]), PathKey(c), Signed(q[|q| - 1]));
      PathKeyInjective(a, c);
      SignedInjective(p[|p| - 1], q[|q| - 1]);
      assert p == a + [p[|p| - 1]] && q == c + [q[|q| - 1]];
    } else if |p| == 1 && |q| == 1 {
      SignedInjective(p[0], q[0]);
    }
  }
}
