/** The decimal constraint accepts exactly the canonical fixed-scale texts. */
module SqliteDecimals {

  import D = Decimals
  import opened SqliteChecks
  import opened SqliteExpr

  // ----- the reference printer -----

  function Quotient(a: nat, p: nat): nat
    requires p > 0
  {
    a / p
  }

  function WholeUnits(a: nat, scale: nat): nat {
    Quotient(a, D.Pow10(scale))
  }

  function PartUnits(a: nat, scale: nat): nat {
    a % D.Pow10(scale)
  }

  /** A natural number of units of 10^-scale. */
  function Unscaled(a: nat, scale: nat): string {
    D.Digits(WholeUnits(a, scale)) + if scale > 0 then "." + D.Padded(PartUnits(a, scale), scale) else ""
  }

  /** The fixed-scale rendering of an integer number of units; zero has no sign. */
  function Fixed(m: int, scale: nat): string {
    if m < 0 then "-" + Unscaled(-m, scale) else Unscaled(m, scale)
  }

  ghost predicate DecimalText(precision: nat, scale: nat, v: Value) {
    exists m: int :: 0 - D.Pow10(precision) < m < D.Pow10(precision) && v == Text(Fixed(m, scale))
  }

  // ----- what the check computes -----

  function Mag(t: string): string {
    if t != "" && t[0] == '-' then t[1..] else t
  }

  function WholeOf(m: string, scale: nat): string {
    if scale == 0 then m else if |m| > scale + 1 then m[..|m| - scale - 1] else ""
  }

  function FractionOf(m: string, scale: nat): string {
    if |m| >= scale then m[|m| - scale..] else m
  }

  predicate FractionGood(m: string, scale: nat) {
    |m| >= scale + 1 && m[|m| - scale - 1] == '.' && D.AllDigits(m[|m| - scale..])
  }

  predicate Accepted(precision: nat, scale: nat, t: string)
    requires scale <= precision
  {
    var m := Mag(t);
    && Plain(t)
    && (scale > 0 ==> FractionGood(m, scale))
    && D.Canonical(WholeOf(m, scale))
    && (if precision == scale then WholeOf(m, scale) == "0" else |WholeOf(m, scale)| <= precision - scale)
    && t != "-" + ZeroText(scale)
  }

  lemma {:induction false} PlainPart(t: string)
    requires Plain(t)
    ensures Plain(Mag(t)) && Visible(t) == t && Visible(Mag(t)) == Mag(t)
  {
    VisibleWhole(t);
    VisibleWhole(Mag(t));
  }

  lemma {:induction false} MagnitudeMeans(t: string)
    requires Plain(t)
    ensures Eval(Magnitude(), Text(t)) == Text(Mag(t))
  {
    hide Visible;
    PlainPart(t);
    assert Eval(From(Column, Num(2)), Text(t)) == Text(Tail(t, 2));
    assert Eval(Substr(Column, Num(1), Num(1)), Text(t)) == Text(Slice(t, 1, 1));
    var sign := Eq(Substr(Column, Num(1), Num(1)), Str("-"));
    if t != "" {
      FirstChar(t);
      assert [t[0]] == "-" <==> t[0] == '-';
      assert Eval(sign, Text(t)) == Bool(t[0] == '-');
    } else {
      assert Eval(sign, Text(t)) == Integer(0);
    }
  }

  lemma {:induction false} SliceFront(m: string, c: int)
    requires c < |m|
    ensures Slice(m, 1, c) == if c >= 0 then m[..c] else ""
  {
    if c >= 0 {
      assert m[0..c] == m[..c];
    }
  }

  lemma {:induction false} WholeMeans(t: string, scale: nat)
    requires Plain(t)
    ensures Eval(Whole(scale), Text(t)) == Text(WholeOf(Mag(t), scale))
  {
    hide Visible, Magnitude, Slice;
    MagnitudeMeans(t);
    PlainPart(t);
    if scale > 0 {
      var m := Mag(t);
      assert Eval(Length(Magnitude()), Text(t)) == Integer(|m|);
      assert Eval(Minus(Length(Magnitude()), Num(scale + 1)), Text(t)) == Integer(|m| - (scale + 1));
      SliceFront(m, |m| - (scale + 1));
      assert |m| == scale + 1 ==> m[..0] == "";
    }
  }

  lemma {:induction false} FractionMeans(t: string, scale: nat)
    requires Plain(t) && scale > 0
    ensures Eval(Fraction(scale), Text(t)) == Text(FractionOf(Mag(t), scale))
  {
    hide Visible, Magnitude;
    MagnitudeMeans(t);
    PlainPart(t);
    var m := Mag(t);
    assert Eval(Num(0 - scale), Text(t)) == Integer(0 - scale);
    assert m[0..] == m;
  }

  lemma {:induction false} DotMeans(t: string, scale: nat)
    requires Plain(t) && scale > 0
    ensures var m := Mag(t);
            Eval(Eq(Substr(Magnitude(), Num(0 - (scale + 1)), Num(1)), Str(".")), Text(t))
              == Bool(|m| >= scale + 1 && m[|m| - scale - 1] == '.')
  {
    hide Visible, Magnitude;
    MagnitudeMeans(t);
    PlainPart(t);
    var m := Mag(t);
    DotAt(m, scale);
    assert Eval(Substr(Magnitude(), Num(0 - (scale + 1)), Num(1)), Text(t)) == Text(Slice(m, 0 - (scale + 1), 1));
  }

  lemma {:induction false} DotAt(m: string, scale: nat)
    ensures Slice(m, 0 - (scale + 1), 1) == if |m| >= scale + 1 then [m[|m| - scale - 1]] else ""
  {
    if |m| >= scale + 1 {
      var k := |m| - scale - 1;
      assert m[k..k + 1] == [m[k]];
      if k + 1 == |m| {
        assert m[k..] == [m[k]];
      }
    }
  }

  lemma {:induction false} PlainFraction(m: string, scale: nat)
    requires Plain(m)
    ensures Visible(FractionOf(m, scale)) == FractionOf(m, scale)
  {
    VisibleWhole(FractionOf(m, scale));
  }

  lemma {:induction false} FractionCheckMeans(t: string, scale: nat)
    requires Plain(t) && scale > 0
    ensures Eval(FractionCheck(scale), Text(t)) == Bool(FractionGood(Mag(t), scale))
  {
    hide Visible, Magnitude, Fraction, OnlyDigits, Slice, D.AllDigits;
    PlainPart(t);
    var m := Mag(t);
    DotMeans(t, scale);
    FractionMeans(t, scale);
    PlainFraction(m, scale);
    OnlyDigitsMeans(Fraction(scale), Text(t), FractionOf(m, scale));
    assert Eval(Eq(Length(Fraction(scale)), Num(scale)), Text(t)) == Bool(|FractionOf(m, scale)| == scale);
  }

  lemma {:induction false} SizeMeans(t: string, precision: nat, scale: nat)
    requires Plain(t) && scale <= precision
    ensures var w := WholeOf(Mag(t), scale);
            && Eval(Eq(Whole(scale), Str("0")), Text(t)) == Bool(w == "0")
            && Eval(Le(Length(Whole(scale)), Num(precision - scale)), Text(t)) == Bool(|w| <= precision - scale)
  {
    hide Visible, Whole;
    WholeMeans(t, scale);
    PlainPart(t);
    var w := WholeOf(Mag(t), scale);
    VisibleWhole(w);
    assert Eval(Length(Whole(scale)), Text(t)) == Integer(|w|);
  }

  /** The constraint on a text, spelled out. */
  lemma {:induction false} DecimalCheckMeans(precision: nat, scale: nat, t: string)
    requires scale <= precision
    ensures Eval(DecimalCheck(precision, scale), Text(t)) == Bool(Accepted(precision, scale, t))
  {
    hide Visible, Whole, FractionCheck, Unsigned, NoNul, IsText, Mag, WholeOf, FractionGood, D.Canonical, ZeroText;
    TextIsText(t);
    NoNulMeans(Column, Text(t), t);
    if Plain(t) {
      if scale > 0 {
        FractionCheckMeans(t, scale);
      }
      WholeMeans(t, scale);
      UnsignedMeans(Whole(scale), Text(t), WholeOf(Mag(t), scale));
      SizeMeans(t, precision, scale);
      ConjoinAll(precision, scale, t);
    } else {
      ConjoinNone(precision, scale, t);
    }
  }

  lemma {:induction false} ConjoinNone(precision: nat, scale: nat, t: string)
    requires scale <= precision && Eval(NoNul(Column), Text(t)) == Integer(0)
    ensures Eval(DecimalCheck(precision, scale), Text(t)) == Integer(0)
  {
    hide Whole, FractionCheck, Unsigned, NoNul, IsText, ZeroText;
    var text := And(IsText(Column), NoNul(Column));
    var fraction := if scale > 0 then And(text, FractionCheck(scale)) else text;
    var whole := And(fraction, Unsigned(Whole(scale)));
    assert Eval(text, Text(t)) == Integer(0);
    assert Eval(fraction, Text(t)) == Integer(0);
    assert Eval(whole, Text(t)) == Integer(0);
  }

  lemma {:induction false} ConjoinAll(precision: nat, scale: nat, t: string)
    requires scale <= precision && Plain(t)
    requires Eval(IsText(Column), Text(t)) == Integer(1) && Eval(NoNul(Column), Text(t)) == Integer(1)
    requires scale > 0 ==> Eval(FractionCheck(scale), Text(t)) == Bool(FractionGood(Mag(t), scale))
    requires Eval(Unsigned(Whole(scale)), Text(t)) == Bool(D.Canonical(WholeOf(Mag(t), scale)))
    requires Eval(Eq(Whole(scale), Str("0")), Text(t)) == Bool(WholeOf(Mag(t), scale) == "0")
    requires Eval(Le(Length(Whole(scale)), Num(precision - scale)), Text(t))
            == Bool(|WholeOf(Mag(t), scale)| <= precision - scale)
    ensures Eval(DecimalCheck(precision, scale), Text(t)) == Bool(Accepted(precision, scale, t))
  {
    hide Eval, Whole, FractionCheck, Unsigned, NoNul, IsText, ZeroText, D.Canonical, FractionGood, WholeOf, Mag;
    var text := And(IsText(Column), NoNul(Column));
    var fraction := if scale > 0 then And(text, FractionCheck(scale)) else text;
    var whole := And(fraction, Unsigned(Whole(scale)));
    var size := if precision == scale then Eq(Whole(scale), Str("0"))
        else Le(Length(Whole(scale)), Num(precision - scale));
    var v := Text(t);
    var w := WholeOf(Mag(t), scale);
    var good := scale > 0 ==> FractionGood(Mag(t), scale);
    var small := if precision == scale then w == "0" else |w| <= precision - scale;
    JoinTwo(IsText(Column), NoNul(Column), v, true, true);
    if scale > 0 {
      JoinTwo(text, FractionCheck(scale), v, true, good);
    }
    JoinTwo(fraction, Unsigned(Whole(scale)), v, good, D.Canonical(w));
    JoinTwo(whole, size, v, good && D.Canonical(w), small);
    Differs(t, "-" + ZeroText(scale));
    JoinTwo(
      And(whole, size), Ne(Column, Str("-" + ZeroText(scale))), v, good && D.Canonical(w)
          && small, t != "-" + ZeroText(scale));
  }

  lemma {:induction false} Differs(t: string, s: string)
    ensures Eval(Ne(Column, Str(s)), Text(t)) == Bool(t != s)
  {
  }

  // ----- the accepted texts are the rendered ones -----

  /** A magnitude of the right shape renders its own value. */
  function UnitsOf(m: string, scale: nat): nat
    requires D.AllDigits(WholeOf(m, scale)) && D.AllDigits(FractionOf(m, scale))
  {
    D.ValueOf(WholeOf(m, scale)) * D.Pow10(scale) + D.ValueOf(FractionOf(m, scale))
  }

  lemma {:induction false} Divides(w: nat, f: nat, p: nat)
    requires f < p
    ensures (w * p + f) / p == w && (w * p + f) % p == f
  {
    var q, r := (w * p + f) / p, (w * p + f) % p;
    assert q * p + r == w * p + f;
    if q < w {
      FrontDecides(q, w, p, r, f);
    } else if q > w {
      FrontDecides(q, w, p, r, f);
    }
  }

  lemma {:induction false} UnitsSplit(w: nat, f: nat, scale: nat)
    requires f < D.Pow10(scale)
    ensures WholeUnits(w * D.Pow10(scale) + f, scale) == w && PartUnits(w * D.Pow10(scale) + f, scale) == f
  {
    Divides(w, f, D.Pow10(scale));
  }

  lemma {:induction false} UnitsJoin(a: nat, scale: nat)
    ensures a == WholeUnits(a, scale) * D.Pow10(scale) + PartUnits(a, scale) && PartUnits(a, scale) < D.Pow10(scale)
  {
  }

  lemma {:induction false} ShapeRenders(m: string, scale: nat)
    requires D.Canonical(WholeOf(m, scale)) && (scale > 0 ==> FractionGood(m, scale))
    ensures D.AllDigits(WholeOf(m, scale)) && D.AllDigits(FractionOf(m, scale))
    ensures Unscaled(UnitsOf(m, scale), scale) == m
  {
    hide D.ValueOf, D.Digits, D.Padded, WholeUnits, PartUnits;
    var w, f := WholeOf(m, scale), FractionOf(m, scale);
    D.ValueBound(f);
    EmptyValue();
    UnitsSplit(D.ValueOf(w), D.ValueOf(f), scale);
    D.DigitsOfValue(w);
    if scale == 0 {
      assert f == "";
    } else {
      D.PaddedOfValue(f);
      assert m == w + ("." + f);
    }
  }

  lemma {:induction false} EmptyValue()
    ensures D.ValueOf("") == 0 && D.Pow10(0) == 1
  {
  }

  lemma {:induction false} RenderedShape(a: nat, scale: nat)
    ensures var m := Unscaled(a, scale);
            && WholeOf(m, scale) == D.Digits(WholeUnits(a, scale))
            && (scale > 0 ==> FractionGood(m, scale) && FractionOf(m, scale) == D.Padded(PartUnits(a, scale), scale))
            && m != "" && m[0] != '-' && Plain(m)
  {
    hide D.Digits, D.Padded, WholeUnits, PartUnits;
    var m := Unscaled(a, scale);
    var w := D.Digits(WholeUnits(a, scale));
    assert m[0] == w[0] && D.IsDigit(w[0]);
    if scale > 0 {
      var f := D.Padded(PartUnits(a, scale), scale);
      assert m == w + ("." + f);
      assert m[..|m| - scale - 1] == w;
      assert m[|m| - scale..] == f;
    }
    forall k | 0 <= k < |m|
      ensures m[k] != NUL
    {
      DigitOrDot(a, scale, k);
    }
  }

  lemma {:induction false} DigitOrDot(a: nat, scale: nat, k: nat)
    requires k < |Unscaled(a, scale)|
    ensures var c := Unscaled(a, scale)[k]; D.IsDigit(c) || c == '.'
  {
    hide D.Digits, D.Padded, WholeUnits, PartUnits;
    var w := D.Digits(WholeUnits(a, scale));
    if k < |w| {
      assert D.IsDigit(w[k]);
    } else if k > |w| {
      var f := D.Padded(PartUnits(a, scale), scale);
      assert Unscaled(a, scale)[k] == f[k - |w| - 1];
      assert D.IsDigit(f[k - |w| - 1]);
    }
  }

  lemma {:induction false} UnscaledInjective(a: nat, b: nat, scale: nat)
    requires Unscaled(a, scale) == Unscaled(b, scale)
    ensures a == b
  {
    hide D.Digits, D.Padded, Unscaled, FractionGood, WholeOf, FractionOf, WholeUnits, PartUnits;
    RenderedShape(a, scale);
    RenderedShape(b, scale);
    UnitsJoin(a, scale);
    UnitsJoin(b, scale);
    D.DigitsInjective(WholeUnits(a, scale), WholeUnits(b, scale));
    if scale > 0 {
      D.ValueOfPadded(PartUnits(a, scale), scale);
      D.ValueOfPadded(PartUnits(b, scale), scale);
    } else {
      EmptyValue();
    }
  }

  lemma {:induction false} ZeroRendered(scale: nat)
    ensures ZeroText(scale) == Unscaled(0, scale)
  {
    ZerosPadded(scale);
    assert D.Digits(0) == "0";
    assert "0" + ("." + Zeros(scale)) == "0." + Zeros(scale);
  }

  lemma {:induction false} ZerosPadded(k: nat)
    ensures D.Padded(0, k) == Zeros(k)
  {
    if k > 0 {
      ZerosPadded(k - 1);
      var s := D.Padded(0, k);
      assert forall i :: 0 <= i < k ==> s[i] == '0';
    }
  }

  /** The length bound on the whole part is the numeric bound on the units. */
  predicate Sized(a: nat, precision: nat, scale: nat)
    requires scale <= precision
  {
    var w := D.Digits(WholeUnits(a, scale));
    if precision == scale then w == "0" else |w| <= precision - scale
  }

  lemma {:induction false} SizeIff(a: nat, precision: nat, scale: nat)
    requires scale <= precision
    ensures Sized(a, precision, scale) <==> a < D.Pow10(precision)
  {
    hide D.Digits, D.ValueOf, WholeUnits;
    var n := WholeUnits(a, scale);
    UnitsBound(a, precision, scale);
    D.DigitsCanonical(n);
    D.ValueOfDigits(n);
    if precision == scale {
      ZeroDigits(n);
    } else {
      D.LengthIsSize(D.Digits(n), precision - scale);
    }
  }

  lemma {:induction false} UnitsBound(a: nat, precision: nat, scale: nat)
    requires scale <= precision
    ensures WholeUnits(a, scale) < D.Pow10(precision - scale) <==> a < D.Pow10(precision)
  {
    hide D.Pow10;
    D.PowSum(precision - scale, scale);
    assert precision - scale + scale == precision;
    QuotientBound(a, D.Pow10(scale), D.Pow10(precision - scale));
  }

  lemma {:induction false} ZeroDigits(n: nat)
    ensures D.Digits(n) == "0" <==> n < D.Pow10(0)
  {
    if D.Digits(n) == "0" {
      assert D.Digits(0) == "0";
      D.DigitsInjective(n, 0);
    }
  }

  lemma {:induction false} QuotientBound(a: nat, p: nat, q: nat)
    requires p > 0
    ensures a / p < q <==> a < q * p
  {
    var n, r := a / p, a % p;
    assert a == n * p + r;
    if n < q {
      TimesGrows(n + 1, q, p);
    } else if q > 0 {
      TimesGrows(q, n, p);
      assert (q - 1) * p + p == q * p;
    }
  }

  lemma {:induction false} AcceptedIsRendered(precision: nat, scale: nat, t: string) returns (m: int)
    requires scale <= precision && Accepted(precision, scale, t)
    ensures 0 - D.Pow10(precision) < m < D.Pow10(precision) && t == Fixed(m, scale)
  {
    hide D.Digits, D.Padded, D.ValueOf, FractionGood, ZeroText, Unscaled, WholeOf, FractionOf, D.Canonical, UnitsOf,
         WholeUnits;
    var mag := Mag(t);
    ShapeRenders(mag, scale);
    var a: int := UnitsOf(mag, scale);
    RenderedShape(a, scale);
    SizeIff(a, precision, scale);
    ZeroRendered(scale);
    if t != "" && t[0] == '-' {
      m := -a;
      assert t == "-" + mag;
    } else {
      m := a;
    }
  }

  lemma {:induction false} RenderedIsAccepted(precision: nat, scale: nat, m: int)
    requires scale <= precision && 0 - D.Pow10(precision) < m < D.Pow10(precision)
    ensures Accepted(precision, scale, Fixed(m, scale))
  {
    hide D.Digits, D.Padded, FractionGood, ZeroText, Unscaled, WholeOf, FractionOf, WholeUnits, D.Canonical;
    var a: nat := if m < 0 then -m else m;
    var t := Fixed(m, scale);
    RenderedShape(a, scale);
    assert Mag(t) == Unscaled(a, scale) by {
      assert ("-" + Unscaled(a, scale))[1..] == Unscaled(a, scale);
    }
    D.DigitsCanonical(WholeUnits(a, scale));
    SizeIff(a, precision, scale);
    NoNegativeZero(m, scale);
  }

  lemma {:induction false} NoNegativeZero(m: int, scale: nat)
    ensures Fixed(m, scale) != "-" + ZeroText(scale)
  {
    hide ZeroText, Unscaled, FractionGood, WholeOf, FractionOf;
    var a: nat := if m < 0 then -m else m;
    RenderedShape(a, scale);
    ZeroRendered(scale);
    var z := "-" + ZeroText(scale);
    if Fixed(m, scale) == z {
      assert z[0] == '-' && z[1..] == Unscaled(0, scale);
      assert m < 0 ==> Fixed(m, scale)[1..] == Unscaled(a, scale);
      UnscaledInjective(a, 0, scale);
    }
  }

  /** The decimal(p, s) constraint is never unknown, and it holds exactly of the
      fixed-scale renderings of the integers m with |m| < 10^p. */
  lemma {:induction false} DecimalCheckIsExact(precision: nat, scale: nat, v: Value)
    requires scale <= precision
    requires !v.Other?
    ensures Eval(DecimalCheck(precision, scale), v) == Bool(DecimalText(precision, scale, v))
  {
    hide Accepted, Fixed, Eval, DecimalCheck;
    if !v.Text? {
      NotDecimal(precision, scale, v);
    } else {
      DecimalCheckMeans(precision, scale, v.s);
      if Accepted(precision, scale, v.s) {
        var m := AcceptedIsRendered(precision, scale, v.s);
        assert v == Text(Fixed(m, scale));
      }
      if DecimalText(precision, scale, v) {
        var m: int :| 0 - D.Pow10(precision) < m < D.Pow10(precision) && v == Text(Fixed(m, scale));
        RenderedIsAccepted(precision, scale, m);
      }
    }
  }

  lemma {:induction false} NotDecimal(precision: nat, scale: nat, v: Value)
    requires scale <= precision && !v.Text? && !v.Other?
    ensures Eval(DecimalCheck(precision, scale), v) == Integer(0) && !DecimalText(precision, scale, v)
  {
    hide Whole, FractionCheck, Unsigned, NoNul, IsText, ZeroText;
    NotText(v);
    var text := And(IsText(Column), NoNul(Column));
    var fraction := if scale > 0 then And(text, FractionCheck(scale)) else text;
    var whole := And(fraction, Unsigned(Whole(scale)));
    assert Eval(text, v) == Integer(0);
    assert Eval(fraction, v) == Integer(0);
    assert Eval(whole, v) == Integer(0);
  }

  /** Different numbers have different texts: the stored text is a faithful
      representation. */
  lemma {:induction false} FixedInjective(m: int, n: int, scale: nat)
    requires Fixed(m, scale) == Fixed(n, scale)
    ensures m == n
  {
    hide Unscaled;
    var a: nat, b: nat := if m < 0 then -m else m, if n < 0 then -n else n;
    RenderedShape(a, scale);
    RenderedShape(b, scale);
    assert Fixed(m, scale)[0] == '-' <==> m < 0;
    assert Fixed(n, scale)[0] == '-' <==> n < 0;
    if m < 0 {
      assert Fixed(m, scale)[1..] == Unscaled(a, scale) && Fixed(n, scale)[1..] == Unscaled(b, scale);
    }
    UnscaledInjective(a, b, scale);
  }
}
