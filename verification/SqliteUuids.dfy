/** The UUID constraint accepts exactly lower-case hyphenated UUID texts. */
module SqliteUuids {

  import opened SqliteChecks
  import opened SqliteExpr

  predicate HexDigit(c: char) {
    '0' <= c <= '9' || 'a' <= c <= 'f'
  }

  predicate AllHex(s: string) {
    forall k :: 0 <= k < |s| ==> HexDigit(s[k])
  }

  predicate HyphenAt(k: int) {
    k == 8 || k == 13 || k == 18 || k == 23
  }

  /** Hexadecimal digits in groups of 8, 4, 4, 4 and 12. */
  predicate UuidText(v: Value) {
    && v.Text?
    && |v.s| == 36
    && forall k :: 0 <= k < 36 ==> if HyphenAt(k) then v.s[k] == '-' else HexDigit(v.s[k])
  }

  // ----- removing hyphens -----

  lemma {:induction false} WithoutJoin(a: string, b: string, c: char)
    ensures Without(a + b, c) == Without(a, c) + Without(b, c)
  {
    if a == "" {
      assert a + b == b;
    } else {
      assert (a + b)[1..] == a[1..] + b;
      WithoutJoin(a[1..], b, c);
    }
  }

  lemma {:induction false} WithoutShrinks(s: string, c: char)
    ensures |Without(s, c)| <= |s|
    ensures |Without(s, c)| == |s| ==> Without(s, c) == s
    ensures (forall k :: 0 <= k < |s| ==> s[k] != c) ==> Without(s, c) == s
  {
    if s != "" {
      WithoutShrinks(s[1..], c);
      assert s == [s[0]] + s[1..];
    }
  }

  lemma {:induction false} WithoutHyphen(a: string, b: string)
    ensures Without(a + "-" + b, '-') == Without(a, '-') + Without(b, '-')
  {
    WithoutJoin(a + "-", b, '-');
    WithoutJoin(a, "-", '-');
    assert "-"[1..] == "";
    assert Without("-", '-') == "" + Without("", '-');
  }

  predicate Hyphenated(t: string) {
    |t| == 36 && t[8] == '-' && t[13] == '-' && t[18] == '-' && t[23] == '-'
  }

  lemma {:induction false} Groups(t: string)
    requires Hyphenated(t)
    ensures t == t[..8] + "-" + (t[9..13] + "-" + (t[14..18] + "-" + (t[19..23] + "-" + t[24..])))
  {
    assert t[19..] == t[19..23] + "-" + t[24..];
    assert t[14..] == t[14..18] + "-" + t[19..];
    assert t[9..] == t[9..13] + "-" + t[14..];
    assert t == t[..8] + "-" + t[9..];
  }

  lemma {:induction false} GroupsWithout(t: string)
    requires Hyphenated(t)
    ensures Without(t, '-')
         == Without(t[..8], '-')
             + (Without(t[9..13], '-') + (Without(t[14..18], '-') + (Without(t[19..23], '-') + Without(t[24..], '-'))))
  {
    hide Without;
    Groups(t);
    WithoutHyphen(t[19..23], t[24..]);
    WithoutHyphen(t[14..18], t[19..23] + "-" + t[24..]);
    WithoutHyphen(t[9..13], t[14..18] + "-" + (t[19..23] + "-" + t[24..]));
    WithoutHyphen(t[..8], t[9..13] + "-" + (t[14..18] + "-" + (t[19..23] + "-" + t[24..])));
  }

  function Bare(t: string): string
    requires |t| == 36
  {
    t[..8] + (t[9..13] + (t[14..18] + (t[19..23] + t[24..])))
  }

  /** With hyphens in place, 32 characters remain exactly when there is no other
      hyphen. */
  lemma {:induction false} BareIff(t: string)
    requires Hyphenated(t)
    ensures |Without(t, '-')| == 32 <==> Without(t, '-') == Bare(t)
  {
    hide Without;
    GroupsWithout(t);
    WithoutShrinks(t[..8], '-');
    WithoutShrinks(t[9..13], '-');
    WithoutShrinks(t[14..18], '-');
    WithoutShrinks(t[19..23], '-');
    WithoutShrinks(t[24..], '-');
  }

  lemma {:induction false} HexJoin(a: string, b: string)
    ensures AllHex(a + b) <==> AllHex(a) && AllHex(b)
  {
    var s := a + b;
    if AllHex(s) {
      assert forall k :: 0 <= k < |a| ==> a[k] == s[k];
      assert forall k :: 0 <= k < |b| ==> b[k] == s[|a| + k];
    }
  }

  lemma {:induction false} BareHex(t: string)
    requires Hyphenated(t)
    ensures AllHex(Bare(t)) <==>
            AllHex(t[..8]) && AllHex(t[9..13]) && AllHex(t[14..18]) && AllHex(t[19..23]) && AllHex(t[24..])
  {
    hide AllHex;
    HexJoin(t[19..23], t[24..]);
    HexJoin(t[14..18], t[19..23] + t[24..]);
    HexJoin(t[9..13], t[14..18] + (t[19..23] + t[24..]));
    HexJoin(t[..8], t[9..13] + (t[14..18] + (t[19..23] + t[24..])));
  }

  predicate HexBetween(t: string, lo: nat, hi: nat)
    requires lo <= hi <= |t|
  {
    forall k :: lo <= k < hi ==> HexDigit(t[k])
  }

  lemma {:induction false} SliceHex(t: string, lo: nat, hi: nat)
    requires lo <= hi <= |t|
    ensures AllHex(t[lo..hi]) <==> HexBetween(t, lo, hi)
  {
    var s := t[lo..hi];
    if AllHex(s) {
      forall k | lo <= k < hi
        ensures HexDigit(t[k])
      {
        assert s[k - lo] == t[k];
      }
    }
  }

  /** Everything but the hyphens is hexadecimal. */
  lemma {:induction false} UuidIff(t: string)
    requires Hyphenated(t)
    ensures AllHex(Bare(t)) <==> UuidText(Text(t))
  {
    hide AllHex, HexDigit;
    BareHex(t);
    SliceHex(t, 0, 8);
    assert t[0..8] == t[..8];
    SliceHex(t, 9, 13);
    SliceHex(t, 14, 18);
    SliceHex(t, 19, 23);
    SliceHex(t, 24, 36);
    assert t[24..36] == t[24..];
  }

  // ----- evaluation -----

  lemma {:induction false} CharMeans(t: string, k: nat)
    requires Plain(t) && k < |t|
    ensures Eval(Eq(Substr(Column, Num(k + 1), Num(1)), Str("-")), Text(t)) == Bool(t[k] == '-')
  {
    hide Slice, Visible;
    VisibleWhole(t);
    OneSlice(t, k);
    assert Eval(Substr(Column, Num(k + 1), Num(1)), Text(t)) == Text([t[k]]);
    assert [t[k]] == "-" <==> t[k] == '-';
  }

  lemma {:induction false} OneSlice(t: string, k: nat)
    requires k < |t|
    ensures Slice(t, k + 1, 1) == [t[k]]
  {
    assert t[k..k + 1] == [t[k]];
    assert k + 1 == |t| ==> t[k..] == [t[k]];
  }

  lemma {:induction false} HexWithin(c: char)
    ensures Within(HEX_RANGES, c) <==> HexDigit(c)
  {
    assert HEX_RANGES[0] == Range('0', '9') && HEX_RANGES[1] == Range('a', 'f');
  }

  lemma {:induction false} OnlyHexMeans(t: string)
    requires Plain(Without(t, '-'))
    ensures Eval(NotGlob(Remove(Column, '-'), [Star, OutsideOf(HEX_RANGES), Star]), Text(t))
            == Bool(AllHex(Without(t, '-')))
    ensures Eval(Eq(Length(Remove(Column, '-')), Num(32)), Text(t)) == Bool(|Without(t, '-')| == 32)
  {
    hide Glob, Within, HexDigit, Without, Visible;
    var w := Without(t, '-');
    VisibleWhole(w);
    assert Eval(Remove(Column, '-'), Text(t)) == Text(w);
    assert Eval(Length(Remove(Column, '-')), Text(t)) == Integer(|w|);
    GlobOutside(HEX_RANGES, w);
    forall k | 0 <= k < |w|
      ensures Within(HEX_RANGES, w[k]) <==> HexDigit(w[k])
    {
      HexWithin(w[k]);
    }
  }

  lemma {:induction false} WithoutPlain(t: string)
    requires Plain(t)
    ensures Plain(Without(t, '-'))
  {
    if t != "" {
      WithoutPlain(t[1..]);
    }
  }

  function Hyphens(): Expr {
    And(And(And(Eq(Substr(Column, Num(9), Num(1)), Str("-")), Eq(Substr(Column, Num(14), Num(1)), Str("-"))),
            Eq(Substr(Column, Num(19), Num(1)), Str("-"))),
        Eq(Substr(Column, Num(24), Num(1)), Str("-")))
  }

  lemma {:induction false} HyphensMean(t: string)
    requires Plain(t) && |t| == 36
    ensures Eval(Hyphens(), Text(t)) == Bool(Hyphenated(t))
  {
    hide Eval;
    CharMeans(t, 8);
    CharMeans(t, 13);
    CharMeans(t, 18);
    CharMeans(t, 23);
    JoinFour(
      Eq(Substr(Column, Num(9), Num(1)), Str("-")), Eq(Substr(Column, Num(14), Num(1)), Str("-")),
      Eq(Substr(Column, Num(19), Num(1)), Str("-")), Eq(Substr(Column, Num(24), Num(1)), Str("-")), Text(t),
      t[8] == '-', t[13] == '-', t[18] == '-', t[23] == '-');
  }

  lemma {:induction false} JoinFour(a: Expr, b: Expr, c: Expr, d: Expr, v: Value, p: bool, q: bool, r: bool, s: bool)
    requires Eval(a, v) == Bool(p) && Eval(b, v) == Bool(q) && Eval(c, v) == Bool(r) && Eval(d, v) == Bool(s)
    ensures Eval(And(And(And(a, b), c), d), v) == Bool(p && q && r && s)
  {
    hide Eval;
    JoinTwo(a, b, v, p, q);
    JoinTwo(And(a, b), c, v, p && q, r);
    JoinTwo(And(And(a, b), c), d, v, p && q && r, s);
  }

  function Shaped(): Expr {
    And(And(IsText(Column), Eq(Length(Column), Num(36))), NoNul(Column))
  }

  lemma {:induction false} UuidParts()
    ensures UuidCheck()
         == And(And(And(Shaped(), Hyphens()), Eq(Length(Remove(Column, '-')), Num(32))),
                NotGlob(Remove(Column, '-'), [Star, OutsideOf(HEX_RANGES), Star]))
  {
  }

  lemma {:induction false} ShapedMeans(t: string)
    ensures Eval(Shaped(), Text(t)) == Bool(Plain(t) && |t| == 36)
  {
    hide IsText, NoNul, Visible;
    TextIsText(t);
    NoNulMeans(Column, Text(t), t);
    assert Eval(Eq(Length(Column), Num(36)), Text(t)) == Bool(|Visible(t)| == 36);
    JoinTwo(IsText(Column), Eq(Length(Column), Num(36)), Text(t), true, |Visible(t)| == 36);
    JoinTwo(And(IsText(Column), Eq(Length(Column), Num(36))), NoNul(Column), Text(t), |Visible(t)| == 36, Plain(t));
    if Plain(t) {
      VisibleWhole(t);
    }
  }

  lemma {:induction false} TextCheck(t: string)
    ensures Eval(UuidCheck(), Text(t)) == Bool(UuidText(Text(t)))
  {
    hide Eval, UuidCheck, Shaped, Hyphens, Without, Plain, AllHex, Hyphenated, UuidText;
    var v := Text(t);
    var size := Eq(Length(Remove(Column, '-')), Num(32));
    var hex := NotGlob(Remove(Column, '-'), [Star, OutsideOf(HEX_RANGES), Star]);
    UuidParts();
    ShapedMeans(t);
    UuidIsShaped(t);
    if Plain(t) && |t| == 36 {
      HyphensMean(t);
      JoinTwo(Shaped(), Hyphens(), v, true, Hyphenated(t));
      WithoutPlain(t);
      OnlyHexMeans(t);
      JoinTwo(And(Shaped(), Hyphens()), size, v, Hyphenated(t), |Without(t, '-')| == 32);
      JoinTwo(And(And(Shaped(), Hyphens()), size), hex, v, Hyphenated(t)
          && |Without(t, '-')| == 32, AllHex(Without(t, '-')));
      if Hyphenated(t) {
        BareIff(t);
        UuidIff(t);
        BareWhenHex(t);
      }
    } else {
      FalseStays(Shaped(), Hyphens(), v);
      FalseStays(And(Shaped(), Hyphens()), size, v);
      FalseStays(And(And(Shaped(), Hyphens()), size), hex, v);
    }
  }

  lemma {:induction false} UuidIsShaped(t: string)
    ensures UuidText(Text(t)) ==> Plain(t) && Hyphenated(t)
  {
    if UuidText(Text(t)) {
      forall k | 0 <= k < |t|
        ensures t[k] != NUL
      {
        assert HyphenAt(k) || HexDigit(t[k]);
      }
      assert HyphenAt(8) && HyphenAt(13) && HyphenAt(18) && HyphenAt(23);
    }
  }

  /** Hexadecimal groups contain no hyphen. */
  lemma {:induction false} BareWhenHex(t: string)
    requires Hyphenated(t)
    ensures AllHex(Bare(t)) ==> Without(t, '-') == Bare(t)
  {
    hide Without;
    if AllHex(Bare(t)) {
      BareHex(t);
      GroupsWithout(t);
      HexKeeps(t[..8]);
      HexKeeps(t[9..13]);
      HexKeeps(t[14..18]);
      HexKeeps(t[19..23]);
      HexKeeps(t[24..]);
    }
  }

  lemma {:induction false} HexKeeps(s: string)
    requires AllHex(s)
    ensures Without(s, '-') == s
  {
    hide Without;
    forall k | 0 <= k < |s|
      ensures s[k] != '-'
    {
      assert HexDigit(s[k]);
    }
    WithoutShrinks(s, '-');
  }

  /** The UUID constraint is never unknown, and it holds exactly of canonical
      lower-case UUID texts. */
  lemma {:induction false} UuidCheckIsExact(v: Value)
    requires !v.Other?
    ensures Eval(UuidCheck(), v) == Bool(UuidText(v))
  {
    hide Eval, UuidCheck, Shaped, Hyphens;
    if v.Text? {
      TextCheck(v.s);
    } else {
      NotText(v);
      var size := Eq(Length(Remove(Column, '-')), Num(32));
      var hex := NotGlob(Remove(Column, '-'), [Star, OutsideOf(HEX_RANGES), Star]);
      UuidParts();
      NotShaped(v);
      FalseStays(Shaped(), Hyphens(), v);
      FalseStays(And(Shaped(), Hyphens()), size, v);
      FalseStays(And(And(Shaped(), Hyphens()), size), hex, v);
    }
  }

  lemma {:induction false} NotShaped(v: Value)
    requires Eval(IsText(Column), v) == Integer(0)
    ensures Eval(Shaped(), v) == Integer(0)
  {
    hide Eval;
    FalseStays(IsText(Column), Eq(Length(Column), Num(36)), v);
    FalseStays(And(IsText(Column), Eq(Length(Column), Num(36))), NoNul(Column), v);
  }
}
