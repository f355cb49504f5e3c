/** The generated domain checks for uint64, decimal and UUID columns, and exactly
    which stored values they accept. */
module SqliteChecks {

  import D = Decimals
  import opened SqliteExpr

  const DIGIT_RANGE := [Range('0', '9')]

  const HEX_RANGES := [Range('0', '9'), Range('a', 'f')]

  function IsText(e: Expr): Expr {
    Eq(TypeOf(e), Str("text"))
  }

  function NoNul(e: Expr): Expr {
    Eq(Instr(e, Str([NUL])), Num(0))
  }

  function OnlyDigits(e: Expr): Expr {
    NotGlob(e, [Star, OutsideOf(DIGIT_RANGE), Star])
  }

  /** unsignedText: the canonical spelling of a natural number. */
  function Unsigned(e: Expr): Expr {
    And(And(And(Lt(Num(0), Length(e)), NoNul(e)), OnlyDigits(e)),
        Or(Eq(e, Str("0")), Between(Substr(e, Num(1), Num(1)), Str("1"), Str("9"))))
  }

  const MAX_UINT64_TEXT := "18446744073709551615"

  function UInt64Check(): Expr {
    And(And(IsText(Column), Unsigned(Column)),
        Or(Lt(Length(Column), Num(20)),
           And(Eq(Length(Column), Num(20)), Le(Column, Str(MAX_UINT64_TEXT)))))
  }

  function Magnitude(): Expr {
    Case(Eq(Substr(Column, Num(1), Num(1)), Str("-")), From(Column, Num(2)), Column)
  }

  function Whole(scale: nat): Expr {
    if scale == 0 then Magnitude() else Substr(Magnitude(), Num(1), Minus(Length(Magnitude()), Num(scale + 1)))
  }

  function Fraction(scale: nat): Expr {
    From(Magnitude(), Num(0 - scale))
  }

  function Zeros(k: nat): (s: string)
    ensures |s| == k && forall i :: 0 <= i < k ==> s[i] == '0'
  {
    if k == 0 then "" else "0" + Zeros(k - 1)
  }

  function ZeroText(scale: nat): string {
    if scale == 0 then "0" else "0." + Zeros(scale)
  }

  function FractionCheck(scale: nat): Expr {
    And(And(Eq(Substr(Magnitude(), Num(0 - (scale + 1)), Num(1)), Str(".")),
            Eq(Length(Fraction(scale)), Num(scale))),
        OnlyDigits(Fraction(scale)))
  }

  function DecimalCheck(precision: nat, scale: nat): Expr
    requires scale <= precision
  {
    var text := And(IsText(Column), NoNul(Column));
    var fraction := if scale > 0 then And(text, FractionCheck(scale)) else text;
    var whole := And(fraction, Unsigned(Whole(scale)));
    var size := if precision == scale then Eq(Whole(scale), Str("0"))
        else Le(Length(Whole(scale)), Num(precision - scale));
    And(And(whole, size), Ne(Column, Str("-" + ZeroText(scale))))
  }

  function UuidCheck(): Expr {
    var hyphens :=
      And(And(And(Eq(Substr(Column, Num(9), Num(1)), Str("-")), Eq(Substr(Column, Num(14), Num(1)), Str("-"))),
              Eq(Substr(Column, Num(19), Num(1)), Str("-"))),
          Eq(Substr(Column, Num(24), Num(1)), Str("-")));
    And(And(And(And(And(IsText(Column), Eq(Length(Column), Num(36))), NoNul(Column)), hyphens),
            Eq(Length(Remove(Column, '-')), Num(32))),
        NotGlob(Remove(Column, '-'), [Star, OutsideOf(HEX_RANGES), Star]))
  }

  // ----- building blocks -----

  predicate Plain(s: string) {
    forall k :: 0 <= k < |s| ==> s[k] != NUL
  }

  lemma {:induction false} NotText(v: Value)
    requires !v.Text? && !v.Other?
    ensures Eval(IsText(Column), v) == Integer(0)
  {
    assert Eval(TypeOf(Column), v) == TypeName(v);
    assert TypeName(v).s[0] != 't';
  }

  lemma {:induction false} TextIsText(s: string)
    ensures Eval(IsText(Column), Text(s)) == Integer(1)
  {
    assert Eval(TypeOf(Column), Text(s)) == Text("text");
  }

  lemma {:induction false} NoNulMeans(e: Expr, v: Value, s: string)
    requires Eval(e, v) == Text(s)
    ensures Eval(NoNul(e), v) == Bool(Plain(s))
  {
    hide Position;
    var at := Position(s, [NUL], 0);
    assert Eval(Instr(e, Str([NUL])), v) == Integer(at);
    assert Eval(NoNul(e), v) == Bool(at == 0);
    PositionOfChar(s, NUL, 0);
  }

  lemma {:induction false} DigitWithin(c: char)
    ensures Within(DIGIT_RANGE, c) <==> D.IsDigit(c)
  {
    assert DIGIT_RANGE[0] == Range('0', '9');
  }

  lemma {:induction false} OnlyDigitsMeans(e: Expr, v: Value, s: string)
    requires Eval(e, v) == Text(s)
    ensures Eval(OnlyDigits(e), v) == Bool(D.AllDigits(Visible(s)))
  {
    hide Glob, Within, D.IsDigit, Visible;
    var t := Visible(s);
    assert Eval(OnlyDigits(e), v) == Bool(!Glob([Star, OutsideOf(DIGIT_RANGE), Star], t));
    GlobOutside(DIGIT_RANGE, t);
    forall k | 0 <= k < |t|
      ensures Within(DIGIT_RANGE, t[k]) <==> D.IsDigit(t[k])
    {
      DigitWithin(t[k]);
    }
  }

  lemma {:induction false} FirstChar(s: string)
    requires s != ""
    ensures Slice(s, 1, 1) == [s[0]]
  {
    assert s[0..1] == [s[0]];
    if |s| == 1 {
      assert s[0..] == [s[0]];
    }
  }

  lemma {:induction false} SingleLt(a: char, b: char)
    ensures TextLt([a], [b]) <==> a < b
  {
    assert [a][1..] == [] && [b][1..] == [];
  }

  lemma {:induction false} LeadingDigit(e: Expr, v: Value, s: string)
    requires Eval(e, v) == Text(s) && Plain(s) && s != ""
    ensures Eval(Between(Substr(e, Num(1), Num(1)), Str("1"), Str("9")), v) == Bool('1' <= s[0] <= '9')
  {
    hide Slice, Visible;
    VisibleWhole(s);
    FirstChar(s);
    var first := Substr(e, Num(1), Num(1));
    assert Eval(first, v) == Text([s[0]]);
    BetweenChars(first, v, s[0]);
  }

  lemma {:induction false} BetweenChars(e: Expr, v: Value, c: char)
    requires Eval(e, v) == Text([c])
    ensures Eval(Between(e, Str("1"), Str("9")), v) == Bool('1' <= c <= '9')
  {
    hide TextLt;
    assert ['1'] == "1" && ['9'] == "9";
    SingleLt(c, '1');
    SingleLt('9', c);
  }

  /** unsignedText holds exactly of canonical spellings of natural numbers. */
  lemma {:induction false} UnsignedMeans(e: Expr, v: Value, s: string)
    requires Eval(e, v) == Text(s)
    ensures Eval(Unsigned(e), v) == Bool(D.Canonical(s))
  {
    hide Visible, NoNul, OnlyDigits, Eval, D.Canonical, D.AllDigits;
    NoNulMeans(e, v, s);
    OnlyDigitsMeans(e, v, s);
    UnsignedHead(e, v, s);
    var head := And(And(Lt(Num(0), Length(e)), NoNul(e)), OnlyDigits(e));
    var tail := Or(Eq(e, Str("0")), Between(Substr(e, Num(1), Num(1)), Str("1"), Str("9")));
    if Plain(s) && s != "" && D.AllDigits(Visible(s)) {
      VisibleWhole(s);
      LeadingDigit(e, v, s);
      UnsignedTail(e, v, s);
      JoinTwo(head, tail, v, true, D.Canonical(s));
    } else {
      CanonicalPlain(s);
      FalseHead(head, tail, v);
    }
  }

  lemma {:induction false} FalseHead(head: Expr, tail: Expr, v: Value)
    requires Eval(head, v) == Bool(false)
    ensures Eval(And(head, tail), v) == Bool(false)
  {
  }

  lemma {:induction false} CanonicalPlain(s: string)
    ensures D.Canonical(s) ==> Plain(s) && s != "" && D.AllDigits(Visible(s))
  {
    if D.Canonical(s) {
      forall k | 0 <= k < |s|
        ensures s[k] != NUL
      {
        assert D.IsDigit(s[k]);
      }
      VisibleWhole(s);
    }
  }

  lemma {:induction false} LengthMeans(e: Expr, v: Value, s: string)
    requires Eval(e, v) == Text(s)
    ensures Eval(Length(e), v) == Integer(|Visible(s)|) && Eval(Lt(Num(0), Length(e)), v) == Bool(|Visible(s)| > 0)
  {
  }

  lemma {:induction false} UnsignedHead(e: Expr, v: Value, s: string)
    requires Eval(e, v) == Text(s)
    requires Eval(NoNul(e), v) == Bool(Plain(s)) && Eval(OnlyDigits(e), v) == Bool(D.AllDigits(Visible(s)))
    ensures Eval(And(And(Lt(Num(0), Length(e)), NoNul(e)), OnlyDigits(e)), v)
         == Bool(Plain(s) && s != "" && D.AllDigits(Visible(s)))
  {
    hide NoNul, OnlyDigits, D.AllDigits, Eval;
    var size := Lt(Num(0), Length(e));
    LengthMeans(e, v, s);
    JoinTwo(size, NoNul(e), v, |Visible(s)| > 0, Plain(s));
    JoinTwo(And(size, NoNul(e)), OnlyDigits(e), v, |Visible(s)| > 0 && Plain(s), D.AllDigits(Visible(s)));
    if Plain(s) {
      VisibleWhole(s);
    }
  }

  lemma {:induction false} UnsignedTail(e: Expr, v: Value, s: string)
    requires Eval(e, v) == Text(s) && s != "" && D.AllDigits(s)
    requires Eval(Between(Substr(e, Num(1), Num(1)), Str("1"), Str("9")), v) == Bool('1' <= s[0] <= '9')
    ensures Eval(Or(Eq(e, Str("0")), Between(Substr(e, Num(1), Num(1)), Str("1"), Str("9"))), v) == Bool(D.Canonical(s))
  {
    hide Eval;
    TextEqual(e, v, s, "0");
    JoinTwo(Eq(e, Str("0")), Between(Substr(e, Num(1), Num(1)), Str("1"), Str("9")), v, s == "0", '1' <= s[0] <= '9');
    assert D.IsDigit(s[0]);
  }

  lemma {:induction false} TextEqual(e: Expr, v: Value, s: string, t: string)
    requires Eval(e, v) == Text(s)
    ensures Eval(Eq(e, Str(t)), v) == Bool(s == t)
  {
  }

  // ----- uint64 -----

  lemma {:induction false} OrderIsValue(a: string, b: string)
    requires D.AllDigits(a) && D.AllDigits(b) && |a| == |b|
    ensures TextLt(a, b) <==> D.ValueOf(a) < D.ValueOf(b)
  {
    hide D.ValueOf;
    if a == "" {
      assert b == "";
    } else {
      OrderIsValue(a[1..], b[1..]);
      D.ValueFront(a);
      D.ValueFront(b);
      D.ValueBound(a[1..]);
      D.ValueBound(b[1..]);
      FrontDecides(D.DigitValue(a[0]), D.DigitValue(b[0]), D.Pow10(|a| - 1), D.ValueOf(a[1..]), D.ValueOf(b[1..]));
    }
  }

  lemma {:induction false} FrontDecides(a: nat, b: nat, p: nat, x: nat, y: nat)
    requires x < p && y < p
    ensures a < b ==> a * p + x < b * p + y
    ensures a > b ==> a * p + x > b * p + y
  {
    if a < b {
      TimesGrows(a + 1, b, p);
    } else if a > b {
      TimesGrows(b + 1, a, p);
    }
  }

  lemma {:induction false} TimesGrows(a: nat, b: nat, p: nat)
    requires 0 < a <= b
    ensures (a - 1) * p + p <= b * p
  {
    if a < b {
      TimesGrows(a, b - 1, p);
      assert b * p == (b - 1) * p + p;
    } else {
      assert (a - 1) * p + p == a * p;
    }
  }

  const TWO_64 := 18446744073709551616

  lemma {:induction false} TwoDigits(a: char, b: char)
    requires D.IsDigit(a) && D.IsDigit(b)
    ensures D.AllDigits([a, b]) && D.ValueOf([a, b]) == 10 * D.DigitValue(a) + D.DigitValue(b)
  {
    assert [a, b][..1] == [a] && [a][..0] == [];
    assert D.ValueOf([]) == 0;
    assert D.ValueOf([a]) == D.DigitValue(a);
  }

  lemma {:induction false} FourDigits(a: char, b: char, c: char, d: char)
    requires D.IsDigit(a) && D.IsDigit(b) && D.IsDigit(c) && D.IsDigit(d)
    ensures D.AllDigits([a, b, c, d])
    ensures D.ValueOf([a, b, c, d])
            == 100 * (10 * D.DigitValue(a) + D.DigitValue(b)) + 10 * D.DigitValue(c) + D.DigitValue(d)
  {
    hide D.ValueOf, D.DigitValue;
    TwoDigits(a, b);
    TwoDigits(c, d);
    D.ValueJoin([a, b], [c, d]);
    assert [a, b] + [c, d] == [a, b, c, d];
    assert D.Pow10(2) == 100;
  }

  lemma {:induction false} MaxHead()
    ensures D.AllDigits("1844674407") && D.ValueOf("1844674407") == 1844674407
  {
    hide D.ValueOf;
    FourDigits('1', '8', '4', '4');
    FourDigits('6', '7', '4', '4');
    TwoDigits('0', '7');
    assert D.Pow10(4) == 10000 && D.Pow10(2) == 100;
    D.ValueJoin("1844", "6744");
    D.ValueJoin("1844" + "6744", "07");
    assert "1844" + "6744" + "07" == "1844674407";
  }

  lemma {:induction false} MaxTail()
    ensures D.AllDigits("3709551615") && D.ValueOf("3709551615") == 3709551615
  {
    hide D.ValueOf;
    FourDigits('3', '7', '0', '9');
    FourDigits('5', '5', '1', '6');
    TwoDigits('1', '5');
    assert D.Pow10(4) == 10000 && D.Pow10(2) == 100;
    D.ValueJoin("3709", "5516");
    D.ValueJoin("3709" + "5516", "15");
    assert "3709" + "5516" + "15" == "3709551615";
  }

  lemma {:induction false} MaxValue()
    ensures D.AllDigits(MAX_UINT64_TEXT) && |MAX_UINT64_TEXT| == 20 && D.ValueOf(MAX_UINT64_TEXT) == TWO_64 - 1
  {
    hide D.ValueOf, D.AllDigits;
    MaxHead();
    MaxTail();
    D.ValueJoin("1844674407", "3709551615");
    assert "1844674407" + "3709551615" == MAX_UINT64_TEXT;
    assert D.Pow10(5) == 100000;
    D.PowSum(5, 5);
  }

  lemma {:induction false} Pow20()
    ensures D.Pow10(19) < TWO_64 <= D.Pow10(20)
  {
    assert D.Pow10(5) == 100000;
    D.PowSum(5, 5);
    D.PowSum(10, 10);
    assert D.Pow10(20) == 10 * D.Pow10(19);
  }

  /** The length and text bound decide the numeric bound. */
  lemma {:induction false} BoundMeans(s: string)
    requires D.Canonical(s)
    ensures (|s| < 20 || (|s| == 20 && !TextLt(MAX_UINT64_TEXT, s))) <==> D.ValueOf(s) < TWO_64
  {
    hide D.ValueOf, TextLt;
    MaxValue();
    Pow20();
    D.LengthIsSize(s, 19);
    D.LengthIsSize(s, 20);
    if |s| == 20 {
      OrderIsValue(MAX_UINT64_TEXT, s);
    }
  }

  lemma {:induction false} BoundEvaluates(s: string)
    requires Plain(s)
    ensures Eval(Or(Lt(Length(Column), Num(20)), And(Eq(Length(Column), Num(20)), Le(Column, Str(MAX_UINT64_TEXT)))),
            Text(s))
         == Bool(|s| < 20 || (|s| == 20 && !TextLt(MAX_UINT64_TEXT, s)))
  {
    hide TextLt, Eval;
    var v := Text(s);
    SizeEvaluates(s);
    LimitEvaluates(s);
    JoinTwo(Eq(Length(Column), Num(20)), Le(Column, Str(MAX_UINT64_TEXT)), v, |s| == 20, !TextLt(MAX_UINT64_TEXT, s));
    JoinTwo(
      Lt(Length(Column), Num(20)), And(Eq(Length(Column), Num(20)), Le(Column, Str(MAX_UINT64_TEXT))), v,
      |s| < 20, |s| == 20 && !TextLt(MAX_UINT64_TEXT, s));
  }

  lemma {:induction false} SizeEvaluates(s: string)
    requires Plain(s)
    ensures Eval(Lt(Length(Column), Num(20)), Text(s)) == Bool(|s| < 20)
    ensures Eval(Eq(Length(Column), Num(20)), Text(s)) == Bool(|s| == 20)
  {
    VisibleWhole(s);
    assert Eval(Length(Column), Text(s)) == Integer(|s|);
  }

  lemma {:induction false} LimitEvaluates(s: string)
    ensures Eval(Le(Column, Str(MAX_UINT64_TEXT)), Text(s)) == Bool(!TextLt(MAX_UINT64_TEXT, s))
  {
    hide TextLt;
  }

  /** The canonical decimal text of an unsigned 64-bit number. */
  ghost predicate UInt64Text(v: Value) {
    exists n: nat :: n < TWO_64 && v == Text(D.Digits(n))
  }

  lemma {:induction false} CanonicalIff(s: string, bound: nat)
    ensures D.Canonical(s) && D.ValueOf(s) < bound <==> exists n: nat :: n < bound && s == D.Digits(n)
  {
    if D.Canonical(s) && D.ValueOf(s) < bound {
      D.DigitsOfValue(s);
    }
    if exists n: nat :: n < bound && s == D.Digits(n) {
      var n: nat :| n < bound && s == D.Digits(n);
      D.DigitsCanonical(n);
      D.ValueOfDigits(n);
    }
  }

  lemma {:induction false} UInt64TextIff(s: string)
    ensures UInt64Text(Text(s)) <==> exists n: nat :: n < TWO_64 && s == D.Digits(n)
  {
    if exists n: nat :: n < TWO_64 && s == D.Digits(n) {
      var n: nat :| n < TWO_64 && s == D.Digits(n);
      assert Text(s) == Text(D.Digits(n));
    }
  }

  /** The uint64 constraint is never unknown, and it holds exactly of the
      canonical decimal texts of 0 to 2^64 - 1. */
  lemma {:induction false} UInt64CheckIsExact(v: Value)
    requires !v.Other?
    ensures Eval(UInt64Check(), v) == Bool(UInt64Text(v))
  {
    hide Unsigned, IsText, D.Canonical, D.Digits, D.ValueOf, TextLt, UInt64Text;
    if !v.Text? {
      NotText(v);
      NotUInt64(v);
    } else {
      var s := v.s;
      TextIsText(s);
      UnsignedMeans(Column, v, s);
      CanonicalIff(s, TWO_64);
      UInt64TextIff(s);
      if D.Canonical(s) {
        CanonicalPlain(s);
        BoundEvaluates(s);
        BoundMeans(s);
      }
    }
  }

  lemma {:induction false} NotUInt64(v: Value)
    requires !v.Text?
    ensures !UInt64Text(v)
  {
  }
}
