/** Method filters: `*` stands for any sequence of characters. */
module Globs {

  import opened Results

  const STAR: char := '*'

  /** Whether a pattern matches, one pattern character at a time. */
  ghost predicate Matches(p: string, s: string)
    decreases |p|
  {
    if p == "" then
      s == ""
    else if p[0] == STAR then
      exists k :: 0 <= k <= |s| && Matches(p[1..], s[k..])
    else
      s != "" && p[0] == s[0] && Matches(p[1..], s[1..])
  }

  // ----- the reference meaning -----

  function Stars(p: string): nat {
    if p == "" then 0 else Stars(p[1..]) + if p[0] == STAR then 1 else 0
  }

  /** The pattern with its stars replaced, in order. */
  function Filled(p: string, fills: seq<string>): string
    requires |fills| == Stars(p)
  {
    if p == "" then ""
    else if p[0] == STAR then fills[0] + Filled(p[1..], fills[1..])
    else [p[0]] + Filled(p[1..], fills)
  }

  /** A pattern matches exactly the strings its stars can be filled to. */
  lemma {:induction false} MatchesIff(p: string, s: string)
    ensures Matches(p, s) <==> exists fills: seq<string> :: |fills| == Stars(p) && Filled(p, fills) == s
  {
    if Matches(p, s) {
      var fills := FillsOf(p, s);
    }
    if exists fills: seq<string> :: |fills| == Stars(p) && Filled(p, fills) == s {
      var fills: seq<string> :| |fills| == Stars(p) && Filled(p, fills) == s;
      FilledMatches(p, fills);
    }
  }

  lemma {:induction false} FillsOf(p: string, s: string) returns (fills: seq<string>)
    requires Matches(p, s)
    ensures |fills| == Stars(p) && Filled(p, fills) == s
  {
    if p == "" {
      fills := [];
    } else if p[0] == STAR {
      var k :| 0 <= k <= |s| && Matches(p[1..], s[k..]);
      var rest := FillsOf(p[1..], s[k..]);
      fills := [s[..k]] + rest;
      assert fills[1..] == rest && s == s[..k] + s[k..];
    } else {
      fills := FillsOf(p[1..], s[1..]);
      assert s == [s[0]] + s[1..];
    }
  }

  lemma {:induction false} FilledMatches(p: string, fills: seq<string>)
    requires |fills| == Stars(p)
    ensures Matches(p, Filled(p, fills))
  {
    if p != "" {
      var s := Filled(p, fills);
      if p[0] == STAR {
        FilledMatches(p[1..], fills[1..]);
        assert s[|fills[0]|..] == Filled(p[1..], fills[1..]);
      } else {
        FilledMatches(p[1..], fills);
        assert s[1..] == Filled(p[1..], fills);
      }
    }
  }

  // ----- the recursive matcher -----

  lemma {:induction false} StarMatchesAll(s: string)
    ensures Matches([STAR], s)
  {
    assert [STAR][1..] == "";
    assert s[|s|..] == "";
    assert Matches("", s[|s|..]);
  }

  /** globMatch in the Go server. */
  method GlobMatch(pattern: string, text: string) returns (matched: bool)
    ensures matched == Matches(pattern, text)
    decreases |pattern|
  {
    var p, s := pattern, text;
    while p != ""
      invariant Matches(pattern, text) == Matches(p, s) && |p| <= |pattern|
      decreases |p|
    {
      if p[0] == STAR {
        if |p| == 1 {
          assert p == [STAR];
          StarMatchesAll(s);
          return true;
        }
        var rest := p[1..];
        for i := 0 to |s| + 1
          invariant forall k :: 0 <= k < i ==> !Matches(rest, s[k..])
        {
          var found := GlobMatch(rest, s[i..]);
          if found {
            return true;
          }
        }
        return false;
      }
      if s == "" || p[0] != s[0] {
        return false;
      }
      p, s := p[1..], s[1..];
    }
    matched := s == "";
  }

  // ----- the greedy matcher -----

  predicate OnlyStars(p: string) {
    forall k :: 0 <= k < |p| ==> p[k] == STAR
  }

  predicate Position(p: string, s: string, i: nat, j: nat, star: Option<nat>, retry: nat) {
    i <= |p| && retry <= j <= |s| && (star.Some? ==> star.value < i)
  }

  /** The greedy loop from a given position: pattern index i, candidate index j,
      the last star, and the candidate index to retry from. */
  function Greedy(p: string, s: string, i: nat, j: nat, star: Option<nat>, retry: nat): bool
    requires Position(p, s, i, j, star, retry)
    decreases |s| - retry, |p| - i
  {
    if j == |s| then
      OnlyStars(p[i..])
    else if i < |p| && p[i] == s[j] then
      Greedy(p, s, i + 1, j + 1, star, retry)
    else if i < |p| && p[i] == STAR then
      Greedy(p, s, i + 1, j, Some(i), j)
    else if star.Some? then
      Greedy(p, s, star.value + 1, retry + 1, star, retry + 1)
    else
      false
  }

  /** glob_matches in the Rust server; it terminates on every input. */
  method GlobMatches(pattern: string, candidate: string) returns (matched: bool)
    ensures matched == Greedy(pattern, candidate, 0, 0, None, 0)
  {
    var i: nat, j: nat := 0, 0;
    var star: Option<nat>, retry: nat := None, 0;
    while j < |candidate|
      invariant Position(pattern, candidate, i, j, star, retry)
      invariant Greedy(pattern, candidate, 0, 0, None, 0) == Greedy(pattern, candidate, i, j, star, retry)
      decreases |candidate| - retry, |pattern| - i
    {
      if i < |pattern| && pattern[i] == candidate[j] {
        i, j := i + 1, j + 1;
      } else if i < |pattern| && pattern[i] == STAR {
        star, i, retry := Some(i), i + 1, j;
      } else if star.Some? {
        i, retry := star.value + 1, retry + 1;
        j := retry;
      } else {
        return false;
      }
    }
    ghost var start := i;
    while i < |pattern| && pattern[i] == STAR
      invariant start <= i <= |pattern| && OnlyStars(pattern[start..i])
    {
      assert pattern[start..i + 1] == pattern[start..i] + [pattern[i]];
      i := i + 1;
    }
    if i == |pattern| {
      assert pattern[start..i] == pattern[start..];
    } else {
      assert pattern[start..][i - start] == pattern[i];
    }
    matched := i == |pattern|;
  }

  // ----- when the two agree -----

  /** No star in the candidate, except possibly its last character. */
  predicate PlainCandidate(s: string) {
    forall k :: 0 <= k < |s| - 1 ==> s[k] != STAR
  }

  lemma {:induction false} EmptyIff(p: string)
    ensures Matches(p, "") <==> OnlyStars(p)
  {
    if p != "" {
      EmptyIff(p[1..]);
      assert p == [p[0]] + p[1..];
      assert ""[0..] == "";
      assert OnlyStars(p) <==> p[0] == STAR && OnlyStars(p[1..]);
    }
  }

  /** Only stars can match a star. */
  lemma {:induction false} StarTextNeedsStars(p: string)
    requires Matches(p, [STAR])
    ensures OnlyStars(p)
  {
    var s := [STAR];
    if p != "" {
      assert p == [p[0]] + p[1..];
      assert p[0] == STAR;
      var k :| 0 <= k <= |s| && Matches(p[1..], s[k..]);
      if k == 0 {
        assert s[0..] == s;
        StarTextNeedsStars(p[1..]);
      } else {
        assert s[1..] == "";
        EmptyIff(p[1..]);
      }
    }
  }

  /** A literal prefix matches itself only. */
  lemma {:induction false} LiteralPrefix(l: string, q: string, s: string)
    requires forall k :: 0 <= k < |l| ==> l[k] != STAR
    ensures Matches(l + q, s) <==> l <= s && Matches(q, s[|l|..])
  {
    if l == "" {
      assert l + q == q && s[0..] == s;
    } else {
      assert (l + q)[0] == l[0] && (l + q)[1..] == l[1..] + q;
      if s != "" && s[0] == l[0] {
        LiteralPrefix(l[1..], q, s[1..]);
        assert l == [l[0]] + l[1..] && s == [s[0]] + s[1..];
        assert l <= s <==> l[1..] <= s[1..];
        if l <= s {
          assert s[1..][|l[1..]|..] == s[|l|..];
        }
      }
    }
  }

  /** Some suffix from the given position on matches. */
  ghost predicate MatchesFrom(p: string, s: string, from: nat) {
    exists k :: from <= k <= |s| && Matches(p, s[k..])
  }

  /** Between the last star and the current position the pattern is literal and
      has matched so far. */
  predicate Attempt(p: string, s: string, i: nat, j: nat, star: Option<nat>, retry: nat)
    requires Position(p, s, i, j, star, retry)
  {
    var from := if star.Some? then star.value + 1 else 0;
    var start := if star.Some? then retry else 0;
    && (star.None? ==> retry == 0)
    && start <= j
    && p[from..i] == s[start..j]
    && forall k :: from <= k < i ==> p[k] != STAR
  }

  /** What is left to decide. */
  ghost predicate Remaining(p: string, s: string, star: Option<nat>, retry: nat)
    requires star.Some? ==> star.value < |p|
    requires retry <= |s|
  {
    if star.Some? then MatchesFrom(p[star.value + 1..], s, retry) else Matches(p, s)
  }

  /** The current attempt succeeds exactly when the rest matches. */
  lemma {:induction false} AttemptIff(p: string, s: string, i: nat, j: nat, star: Option<nat>, retry: nat)
    requires Position(p, s, i, j, star, retry) && Attempt(p, s, i, j, star, retry)
    ensures Matches(if star.Some? then p[star.value + 1..] else p, if star.Some? then s[retry..] else s) <==>
            Matches(p[i..], s[j..])
  {
    var from := if star.Some? then star.value + 1 else 0;
    var start := if star.Some? then retry else 0;
    var l := p[from..i];
    assert p[from..] == l + p[i..] && p[0..] == p && s[0..] == s;
    LiteralPrefix(l, p[i..], s[start..]);
    assert s[start..][..|l|] == s[start..j];
    assert s[start..][|l|..] == s[j..];
  }

  /** A new star takes over from the old one. */
  lemma {:induction false} NextStar(p: string, s: string, i: nat, j: nat, star: Option<nat>, retry: nat)
    requires Position(p, s, i, j, star, retry) && Attempt(p, s, i, j, star, retry)
    requires i < |p| && p[i] == STAR
    ensures Remaining(p, s, star, retry) <==> MatchesFrom(p[i + 1..], s, j)
  {
    hide Matches, Attempt;
    AttemptIff(p, s, i, j, star, retry);
    StarIff(p[i..], s, j);
    assert p[i..][1..] == p[i + 1..];
    if star.Some? {
      if Remaining(p, s, star, retry) {
        var k :| retry <= k <= |s| && Matches(p[star.value + 1..], s[k..]);
        LaterStar(p, s, i, j, star, retry, k);
      }
      if MatchesFrom(p[i + 1..], s, j) {
        assert Matches(p[star.value + 1..], s[retry..]);
      }
    }
  }

  /** A later attempt leaves no more of the candidate than the current one. */
  lemma {:induction false} LaterStar(p: string, s: string, i: nat, j: nat, star: Option<nat>, retry: nat, k: nat)
    requires Position(p, s, i, j, star, retry) && Attempt(p, s, i, j, star, retry)
    requires star.Some? && i < |p| && p[i] == STAR && retry <= k <= |s| && Matches(p[star.value + 1..], s[k..])
    ensures MatchesFrom(p[i + 1..], s, j)
  {
    hide Matches;
    var from := star.value + 1;
    var l := p[from..i];
    assert p[from..] == l + p[i..];
    LiteralPrefix(l, p[i..], s[k..]);
    assert s[k..][|l|..] == s[k + |l|..];
    StarIff(p[i..], s, k + |l|);
    assert p[i..][1..] == p[i + 1..];
    assert |l| == |s[retry..j]|;
  }

  lemma {:induction false} StarIff(q: string, s: string, j: nat)
    requires q != "" && q[0] == STAR && j <= |s|
    ensures Matches(q, s[j..]) <==> MatchesFrom(q[1..], s, j)
  {
    var t := s[j..];
    if Matches(q, t) {
      var k :| 0 <= k <= |t| && Matches(q[1..], t[k..]);
      assert t[k..] == s[j + k..];
    }
    if MatchesFrom(q[1..], s, j) {
      var k :| j <= k <= |s| && Matches(q[1..], s[k..]);
      assert t[k - j..] == s[k..];
    }
  }

  lemma {:induction false} FromNext(q: string, s: string, retry: nat)
    requires retry < |s| && !Matches(q, s[retry..])
    ensures MatchesFrom(q, s, retry) <==> MatchesFrom(q, s, retry + 1)
  {
  }

  /** At the end of the candidate only the current attempt can still succeed. */
  lemma {:induction false} AtEnd(p: string, s: string, i: nat, star: Option<nat>, retry: nat)
    requires Position(p, s, i, |s|, star, retry) && Attempt(p, s, i, |s|, star, retry)
    ensures Remaining(p, s, star, retry) <==> OnlyStars(p[i..])
  {
    hide Matches, OnlyStars, Attempt;
    AttemptIff(p, s, i, |s|, star, retry);
    assert s[|s|..] == "";
    EmptyIff(p[i..]);
    if star.Some? {
      if Remaining(p, s, star, retry) {
        var k :| retry <= k <= |s| && Matches(p[star.value + 1..], s[k..]);
        OnlyHere(p, s, i, star.value, retry, k);
      } else {
        assert !Matches(p[star.value + 1..], s[retry..]);
      }
    }
  }

  /** An attempt that reached the end leaves no room for a later start. */
  lemma {:induction false} OnlyHere(p: string, s: string, i: nat, star: nat, retry: nat, k: nat)
    requires Position(p, s, i, |s|, Some(star), retry) && Attempt(p, s, i, |s|, Some(star), retry)
    requires retry <= k <= |s| && Matches(p[star + 1..], s[k..])
    ensures k == retry
  {
    hide Matches;
    var l := p[star + 1..i];
    assert p[star + 1..] == l + p[i..];
    assert l == s[retry..|s|];
    LiteralPrefix(l, p[i..], s[k..]);
  }

  /** A star that meets the candidate's last character, itself a star. */
  lemma {:induction false} LastStar(p: string, s: string, i: nat, j: nat, star: Option<nat>, retry: nat)
    requires Position(p, s, i, j, star, retry) && Attempt(p, s, i, j, star, retry)
    requires i < |p| && p[i] == STAR && j == |s| - 1 && s[j] == STAR
    ensures Remaining(p, s, star, retry) <==> OnlyStars(p[i + 1..])
  {
    NextStar(p, s, i, j, star, retry);
    assert s[j..] == [STAR] && s[|s|..] == "";
    EmptyIff(p[i + 1..]);
    if MatchesFrom(p[i + 1..], s, j) {
      var k :| j <= k <= |s| && Matches(p[i + 1..], s[k..]);
      if k == j {
        StarTextNeedsStars(p[i + 1..]);
      }
    }
    if OnlyStars(p[i + 1..]) {
      assert Matches(p[i + 1..], s[|s|..]);
    }
  }

  lemma {:induction false} GreedyDecides(p: string, s: string, i: nat, j: nat, star: Option<nat>, retry: nat)
    requires PlainCandidate(s)
    requires Position(p, s, i, j, star, retry) && Attempt(p, s, i, j, star, retry)
    ensures Greedy(p, s, i, j, star, retry) == Remaining(p, s, star, retry)
    decreases |s| - retry, |p| - i
  {
    hide Matches, MatchesFrom, Remaining, OnlyStars, Attempt;
    if j == |s| {
      AtEnd(p, s, i, star, retry);
    } else if i < |p| && p[i] == s[j] {
      if p[i] == STAR {
        LastStar(p, s, i, j, star, retry);
      } else {
        AttemptGrows(p, s, i, j, star, retry);
        GreedyDecides(p, s, i + 1, j + 1, star, retry);
      }
    } else if i < |p| && p[i] == STAR {
      NextStar(p, s, i, j, star, retry);
      EmptyAttempt(p, s, i, j);
      GreedyDecides(p, s, i + 1, j, Some(i), j);
      RemainingStar(p, s, i, j);
    } else {
      Mismatch(p, s, i, j, star, retry);
      if star.Some? {
        EmptyAttempt(p, s, star.value, retry + 1);
        GreedyDecides(p, s, star.value + 1, retry + 1, star, retry + 1);
      }
    }
  }

  /** Just after a star nothing has been tried yet. */
  lemma {:induction false} EmptyAttempt(p: string, s: string, star: nat, retry: nat)
    requires star < |p| && retry <= |s|
    ensures Attempt(p, s, star + 1, retry, Some(star), retry)
  {
    assert p[star + 1..star + 1] == s[retry..retry];
  }

  lemma {:induction false} AttemptGrows(p: string, s: string, i: nat, j: nat, star: Option<nat>, retry: nat)
    requires Position(p, s, i, j, star, retry) && Attempt(p, s, i, j, star, retry)
    requires i < |p| && j < |s| && p[i] == s[j] && p[i] != STAR
    ensures Attempt(p, s, i + 1, j + 1, star, retry)
  {
    var from := if star.Some? then star.value + 1 else 0;
    var start := if star.Some? then retry else 0;
    assert p[from..i + 1] == p[from..i] + [p[i]];
    assert s[start..j + 1] == s[start..j] + [s[j]];
  }

  lemma {:induction false} RemainingStar(p: string, s: string, i: nat, j: nat)
    requires i < |p| && j <= |s|
    ensures Remaining(p, s, Some(i), j) == MatchesFrom(p[i + 1..], s, j)
  {
  }

  lemma {:induction false} Mismatch(p: string, s: string, i: nat, j: nat, star: Option<nat>, retry: nat)
    requires Position(p, s, i, j, star, retry) && Attempt(p, s, i, j, star, retry)
    requires j < |s| && (i == |p| || (p[i] != s[j] && p[i] != STAR))
    ensures Remaining(p, s, star, retry) == (star.Some? && Remaining(p, s, star, retry + 1))
  {
    AttemptIff(p, s, i, j, star, retry);
    assert !Matches(p[i..], s[j..]);
    if star.Some? {
      FromNext(p[star.value + 1..], s, retry);
    }
  }

  /** The two matchers agree on every candidate with no star before its last
      character. */
  lemma {:induction false} GreedyIsMatching(p: string, s: string)
    requires PlainCandidate(s)
    ensures Greedy(p, s, 0, 0, None, 0) == Matches(p, s)
  {
    hide Matches, Greedy;
    assert p[0..0] == s[0..0];
    GreedyDecides(p, s, 0, 0, None, 0);
  }

  // ----- when they do not -----

  /** The candidate's characters up to its first star, followed by a star. */
  function Trap(s: string): string
    requires !PlainCandidate(s)
  {
    if s[0] == STAR then [STAR] else [s[0]] + Trap(s[1..])
  }

  /** A proper prefix that ends in its only star. */
  predicate IsTrap(s: string, t: string) {
    0 < |t| < |s| && t == s[..|t|] && t[|t| - 1] == STAR && forall k :: 0 <= k < |t| - 1 ==> t[k] != STAR
  }

  lemma {:induction false} TrapShape(s: string)
    requires !PlainCandidate(s)
    ensures IsTrap(s, Trap(s))
  {
    hide IsTrap;
    if s[0] != STAR {
      LaterTrap(s);
      TrapShape(s[1..]);
      TrapGrows(s[0], s[1..], Trap(s[1..]));
      assert [s[0]] + s[1..] == s;
    } else {
      ShortTrap(s);
    }
  }

  lemma {:induction false} LaterTrap(s: string)
    requires !PlainCandidate(s) && s[0] != STAR
    ensures !PlainCandidate(s[1..])
  {
    var k :| 0 <= k < |s| - 1 && s[k] == STAR;
    assert s[1..][k - 1] == STAR;
  }

  lemma {:induction false} ShortTrap(s: string)
    requires |s| > 1 && s[0] == STAR
    ensures IsTrap(s, [STAR])
  {
    assert s[..1] == [STAR];
  }

  lemma {:induction false} TrapGrows(c: char, s: string, t: string)
    requires IsTrap(s, t) && c != STAR
    ensures IsTrap([c] + s, [c] + t)
  {
    assert ([c] + s)[..|t| + 1] == [c] + s[..|t|];
  }

  /** The greedy matcher takes the star of a trap literally and stops. */
  lemma {:induction false} TrapFails(s: string, i: nat)
    requires !PlainCandidate(s) && i <= |Trap(s)| <= |s|
    ensures !Greedy(Trap(s), s, i, i, None, 0)
    decreases |Trap(s)| - i
  {
    TrapShape(s);
    if i < |Trap(s)| {
      assert Trap(s)[i] == s[..|Trap(s)|][i] == s[i];
      TrapFails(s, i + 1);
    }
  }

  lemma {:induction false} TrapMatches(s: string)
    requires !PlainCandidate(s)
    ensures Matches(Trap(s), s)
  {
    hide Trap;
    TrapShape(s);
    var t := Trap(s);
    var l := t[..|t| - 1];
    assert t == l + [STAR];
    LiteralPrefix(l, [STAR], s);
    assert l <= s by {
      assert s[..|t|][..|l|] == s[..|l|];
    }
    StarMatchesAll(s[|l|..]);
  }

  /** The greedy matcher is right for every pattern exactly when the candidate
      has no star before its last character. */
  lemma {:induction false} AgreementIff(s: string)
    ensures (forall p :: Greedy(p, s, 0, 0, None, 0) == Matches(p, s)) <==> PlainCandidate(s)
  {
    hide Matches, Greedy, PlainCandidate;
    if PlainCandidate(s) {
      forall p
        ensures Greedy(p, s, 0, 0, None, 0) == Matches(p, s)
      {
        GreedyIsMatching(p, s);
      }
    } else {
      TrapBounds(s);
      TrapMatches(s);
      TrapFails(s, 0);
    }
  }

  /** The smallest disagreement: the Rust matcher refuses what every star matches. */
  lemma {:induction false} StarInCandidate()
    ensures Matches("*", "*a") && !Greedy("*", "*a", 0, 0, None, 0)
  {
    assert "*"[1..] == "" && "*a"[2..] == "";
    assert Matches("*"[1..], "*a"[2..]);
  }

  lemma {:induction false} TrapBounds(s: string)
    requires !PlainCandidate(s)
    ensures |Trap(s)| <= |s|
  {
    TrapShape(s);
  }

  // ----- filters -----

  ghost predicate AnyMatches(patterns: seq<string>, s: string) {
    exists k :: 0 <= k < |patterns| && Matches(patterns[k], s)
  }

  /** A method is projected when it is included, if anything is, and not
      excluded. */
  ghost predicate Projected(includes: seq<string>, excludes: seq<string>, s: string) {
    (includes != [] ==> AnyMatches(includes, s)) && !AnyMatches(excludes, s)
  }

  /** shouldIncludeLocked in the Go server. */
  method ShouldInclude(
    includes: seq<string>, excludes: seq<string>, service: string, name: string) returns (included: bool)
    ensures included == Projected(includes, excludes, service + "." + name)
  {
    var path := service + "." + name;
    if |includes| > 0 {
      var matched := false;
      for k := 0 to |includes|
        invariant !matched && forall j :: 0 <= j < k ==> !Matches(includes[j], path)
      {
        matched := GlobMatch(includes[k], path);
        if matched {
          break;
        }
      }
      if !matched {
        return false;
      }
    }
    for k := 0 to |excludes|
      invariant forall j :: 0 <= j < k ==> !Matches(excludes[j], path)
    {
      var hit := GlobMatch(excludes[k], path);
      if hit {
        return false;
      }
    }
    included := true;
  }

  predicate AnyGreedy(patterns: seq<string>, s: string) {
    exists k :: 0 <= k < |patterns| && Greedy(patterns[k], s, 0, 0, None, 0)
  }

  /** should_project in the Rust server. */
  predicate ShouldProject(includes: seq<string>, excludes: seq<string>, service: string, name: string) {
    var path := service + "." + name;
    (includes != [] ==> AnyGreedy(includes, path)) && !AnyGreedy(excludes, path)
  }

  /** For names without stars, as all protobuf names are, both servers project the
      same methods. */
  lemma {:induction false} FiltersAgree(includes: seq<string>, excludes: seq<string>, service: string, name: string)
    requires STAR !in service && STAR !in name
    ensures ShouldProject(includes, excludes, service, name) == Projected(includes, excludes, service + "." + name)
  {
    hide Matches, Greedy;
    var path := service + "." + name;
    assert PlainCandidate(path);
    AnyAgree(includes, path);
    AnyAgree(excludes, path);
  }

  lemma {:induction false} AnyAgree(patterns: seq<string>, s: string)
    requires PlainCandidate(s)
    ensures AnyGreedy(patterns, s) == AnyMatches(patterns, s)
  {
    hide Matches, Greedy, PlainCandidate;
    forall k | 0 <= k < |patterns|
      ensures Greedy(patterns[k], s, 0, 0, None, 0) == Matches(patterns[k], s)
    {
      GreedyIsMatching(patterns[k], s);
    }
  }
}
