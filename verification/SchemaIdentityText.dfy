/** The text form of compiler identities, as datasets store it. */
module SchemaIdentityText {

  import opened Decimals
  import opened LogicalSchema
  import opened Results
  import opened SchemaIdentity

  const FIELD := "field:"

  predicate Spelled(s: Segment) {
    s.Number? ==> s.n >= 0
  }

  predicate AllSpelled(i: Identity) {
    forall k :: 0 <= k < |i| ==> Spelled(i[k])
  }

  function SegmentText(s: Segment): string
    requires Spelled(s)
  {
    match s
    case Number(n) => FIELD + Digits(n)
    case Element => "list:element"
    case Key => "map:key"
    case Value => "map:value"
  }

  /** Segments joined the way appendIdentity joins them. */
  function IdentityText(i: Identity): string
    requires AllSpelled(i)
  {
    if i == [] then
      ""
    else if |i| == 1 then
      SegmentText(i[0])
    else
      IdentityText(i[..|i| - 1]) + "/" + SegmentText(i[|i| - 1])
  }

  predicate NoSlash(s: string) {
    forall k :: 0 <= k < |s| ==> s[k] != '/'
  }

  // ----- splitting -----

  /** The part after the last slash. */
  function LastPart(s: string): string {
    if s == "" || s[|s| - 1] == '/' then "" else LastPart(s[..|s| - 1]) + [s[|s| - 1]]
  }

  /** The longest suffix without a slash. */
  predicate IsLast(s: string, part: string) {
    && |part| <= |s| && part == s[|s| - |part|..] && NoSlash(part)
    && (|part| < |s| ==> s[|s| - |part| - 1] == '/')
  }

  lemma {:induction false} LastPartIsSuffix(s: string)
    ensures IsLast(s, LastPart(s))
    decreases |s|
  {
    hide LastPart, IsLast;
    if s == "" || s[|s| - 1] == '/' {
      NothingLast(s);
    } else {
      LastPartIsSuffix(s[..|s| - 1]);
      SuffixOfFront(s);
    }
  }

  lemma {:induction false} SuffixOfFront(s: string)
    requires s != "" && s[|s| - 1] != '/' && IsLast(s[..|s| - 1], LastPart(s[..|s| - 1]))
    ensures IsLast(s, LastPart(s))
  {
    hide IsLast;
    var init, c := s[..|s| - 1], s[|s| - 1];
    assert init + [c] == s;
    LastPartGrows(s);
    SuffixGrows(init, LastPart(init), c);
  }

  lemma {:induction false} NothingLast(s: string)
    requires s == "" || s[|s| - 1] == '/'
    ensures LastPart(s) == "" && IsLast(s, "")
  {
  }

  lemma {:induction false} LastPartGrows(s: string)
    requires s != "" && s[|s| - 1] != '/'
    ensures LastPart(s) == LastPart(s[..|s| - 1]) + [s[|s| - 1]]
  {
  }

  lemma {:induction false} SuffixGrows(s: string, part: string, c: char)
    requires IsLast(s, part) && c != '/'
    ensures IsLast(s + [c], part + [c])
  {
    var t, more := s + [c], part + [c];
    assert t[|t| - |more|..] == s[|s| - |part|..] + [c];
  }

  function Parts(s: string): (r: seq<string>)
    ensures r != []
    decreases |s|
  {
    LastPartIsSuffix(s);
    var last := LastPart(s);
    if |last| == |s| then [s] else Parts(s[..|s| - |last| - 1]) + [last]
  }

  lemma {:induction false} LastPartOfPlain(s: string)
    requires NoSlash(s)
    ensures LastPart(s) == s
  {
    if s != "" {
      LastPartOfPlain(s[..|s| - 1]);
    }
  }

  lemma {:induction false} LastPartOfJoined(before: string, part: string)
    requires NoSlash(part)
    ensures LastPart(before + "/" + part) == part
  {
    var s := before + "/" + part;
    if part == "" {
      assert s == before + "/";
    } else {
      LastPartOfJoined(before, part[..|part| - 1]);
      assert s[..|s| - 1] == before + "/" + part[..|part| - 1];
    }
  }

  function Texts(i: Identity): (r: seq<string>)
    requires AllSpelled(i)
    ensures |r| == |i| && forall k :: 0 <= k < |i| ==> r[k] == SegmentText(i[k])
  {
    seq(|i|, k requires 0 <= k < |i| => SegmentText(i[k]))
  }

  lemma {:induction false} SegmentPlain(s: Segment)
    requires Spelled(s)
    ensures NoSlash(SegmentText(s))
  {
    if s.Number? {
      assert AllDigits(Digits(s.n));
    }
  }

  /** Splitting undoes joining. */
  lemma {:induction false} PartsOfText(i: Identity)
    requires i != [] && AllSpelled(i)
    ensures Parts(IdentityText(i)) == Texts(i)
  {
    hide SegmentText, Parts, NoSlash;
    var last := i[|i| - 1];
    SegmentPlain(last);
    if |i| == 1 {
      PartsOfPlain(SegmentText(last));
    } else {
      var init := i[..|i| - 1];
      PartsOfText(init);
      PartsOfJoined(IdentityText(init), SegmentText(last));
      assert Texts(i) == Texts(init) + [SegmentText(last)];
    }
  }

  lemma {:induction false} PartsOfPlain(s: string)
    requires NoSlash(s)
    ensures Parts(s) == [s]
  {
    LastPartOfPlain(s);
  }

  lemma {:induction false} PartsOfJoined(before: string, part: string)
    requires NoSlash(part)
    ensures Parts(before + "/" + part) == Parts(before) + [part]
  {
    hide LastPart, NoSlash;
    var s := before + "/" + part;
    LastPartOfJoined(before, part);
    assert s[..|s| - |part| - 1] == before;
  }

  /** Joining the parts again gives the text back. */
  lemma {:induction false} TextOfParts(s: string, i: Identity)
    requires i != [] && AllSpelled(i) && Parts(s) == Texts(i)
    ensures IdentityText(i) == s
    decreases |s|
  {
    hide SegmentText;
    LastPartIsSuffix(s);
    var last := LastPart(s);
    if |last| < |s| {
      var before := s[..|s| - |last| - 1];
      var init := i[..|i| - 1];
      assert Parts(s) == Parts(before) + [last];
      assert |i| > 1;
      assert Parts(before) == Texts(i)[..|i| - 1] == Texts(init);
      TextOfParts(before, init);
      assert s == before + "/" + last;
      assert Texts(i)[|i| - 1] == last;
    } else {
      assert Texts(i) == [s];
      assert Texts(i)[0] == s;
    }
  }

  // ----- one segment -----

  /** Accepts exactly the spellings of valid segments. */
  function ParseSegment(s: string): (r: Option<Segment>)
    ensures r.Some? ==> ValidSegment(r.value) && SegmentText(r.value) == s
  {
    if s == "list:element" then
      Some(Element)
    else if s == "map:key" then
      Some(Key)
    else if s == "map:value" then
      Some(Value)
    else if FIELD <= s && AllDigits(s[|FIELD|..]) then
      var n := ValueOf(s[|FIELD|..]);
      if 1 <= n <= MAX_FIELD_NUMBER && FIELD + Digits(n) == s then Some(Number(n)) else None
    else
      None
  }

  lemma {:induction false} ParseSpelled(s: Segment)
    requires ValidSegment(s)
    ensures ParseSegment(SegmentText(s)) == Some(s)
  {
    if s.Number? {
      var text := SegmentText(s);
      assert text[|FIELD|..] == Digits(s.n);
      ValueOfDigits(s.n);
      assert text[0] == 'f';
    }
  }

  // ----- whole identities -----

  /** compilerIdentityRole: the role of a stored identity, or an error. */
  method CompilerIdentityRole(text: string) returns (r: Result<Role>)
    ensures r.Ok? ==> exists i :: ValidIdentity(i) && IdentityText(i) == text && r.value == RoleOf(Last(i))
    ensures r.Err? ==> !exists i :: ValidIdentity(i) && IdentityText(i) == text
  {
    hide ParseSegment, SegmentText, Parts, IdentityText;
    var parts := Parts(text);
    var role := RoleUnspecified;
    ghost var i: Identity := [];
    for k := 0 to |parts|
      invariant |i| == k && (if k == 0 then role == RoleUnspecified else ValidIdentity(i) && role == RoleOf(Last(i)))
      invariant AllSpelled(i) && Texts(i) == parts[..k]
    {
      var segment := ParseSegment(parts[k]);
      if segment.None? || (k == 0 && RoleOf(segment.value) != ProtoField)
         || (RoleOf(segment.value) != ProtoField && role != ProtoField) || role == MapKey {
        NoIdentity(text, i, k);
        return Err;
      }
      var previous := i;
      i := i + [segment.value];
      role := RoleOf(segment.value);
      Extended(previous, segment.value, parts, k);
    }
    assert parts[..|parts|] == parts;
    TextOfParts(text, i);
    r := Ok(role);
  }

  lemma {:induction false} Extended(i: Identity, s: Segment, parts: seq<string>, k: nat)
    requires |i| == k < |parts| && AllSpelled(i) && Texts(i) == parts[..k] && (k > 0 ==> ValidIdentity(i))
    requires ValidSegment(s) && SegmentText(s) == parts[k] && (if k == 0 then s.Number? else MayFollow(Last(i), s))
    ensures ValidIdentity(i + [s]) && AllSpelled(i + [s]) && Texts(i + [s]) == parts[..k + 1]
  {
    hide SegmentText;
    ExtendValid(i, s);
  }

  /** When the loop stops early, no valid identity has this text. */
  lemma {:induction false} NoIdentity(text: string, i: Identity, k: nat)
    requires k < |Parts(text)| && |i| == k && AllSpelled(i) && Texts(i) == Parts(text)[..k]
    requires (k > 0 ==> ValidIdentity(i))
    requires var segment := ParseSegment(Parts(text)[k]);
             || segment.None?
             || (if k == 0 then !segment.value.Number? else !MayFollow(Last(i), segment.value))
    ensures !exists j :: ValidIdentity(j) && IdentityText(j) == text
  {
    hide Parts, IdentityText, ParseSegment;
    forall j | ValidIdentity(j) && IdentityText(j) == text
      ensures false
    {
      SamePrefix(text, i, j, k);
    }
  }

  lemma {:induction false} SamePrefix(text: string, i: Identity, j: Identity, k: nat)
    requires k < |Parts(text)| && |i| == k && AllSpelled(i) && Texts(i) == Parts(text)[..k]
    requires (k > 0 ==> ValidIdentity(i))
    requires ValidIdentity(j) && IdentityText(j) == text
    ensures k < |j| && ParseSegment(Parts(text)[k]) == Some(j[k]) && (k > 0 ==> i[k - 1] == j[k - 1])
  {
    hide Parts, IdentityText, SegmentText, ParseSegment;
    SpelledIdentity(j);
    PartsOfText(j);
    ParseSpelled(j[k]);
    if k > 0 {
      ParseSpelled(j[k - 1]);
      ParseSpelled(i[k - 1]);
      assert Texts(i)[k - 1] == Texts(j)[k - 1];
    }
  }

  lemma {:induction false} SpelledIdentity(i: Identity)
    requires ValidIdentity(i)
    ensures AllSpelled(i)
  {
    forall k | 0 <= k < |i|
      ensures Spelled(i[k])
    {
      assert ValidSegment(i[k]);
    }
  }

  /** Different identities have different texts. */
  lemma {:induction false} TextIsInjective(i: Identity, j: Identity)
    requires ValidIdentity(i) && ValidIdentity(j) && IdentityText(i) == IdentityText(j)
    ensures i == j
  {
    hide Parts, IdentityText, SegmentText, ParseSegment;
    SpelledIdentity(i);
    SpelledIdentity(j);
    PartsOfText(i);
    PartsOfText(j);
    assert |i| == |Texts(i)| == |Texts(j)| == |j|;
    forall k | 0 <= k < |i|
      ensures i[k] == j[k]
    {
      assert Texts(i)[k] == Texts(j)[k];
      ParseSpelled(i[k]);
      ParseSpelled(j[k]);
    }
  }
}
