/** Decimal spellings of integers. */
module Decimals {

  predicate IsDigit(c: char) { '0' <= c <= '9' }

  predicate AllDigits(s: string) {
    forall i :: 0 <= i < |s| ==> IsDigit(s[i])
  }

  function DigitOf(n: nat): (c: char)
    requires n < 10
    ensures IsDigit(c) && DigitValue(c) == n
  {
    ('0' as int + n) as char
  }

  function DigitValue(c: char): (n: nat)
    requires IsDigit(c)
    ensures n < 10
  {
    c as int - '0' as int
  }

  /** The canonical spelling of a natural number: no leading zero. */
  function Digits(n: nat): (s: string)
    ensures s != "" && AllDigits(s)
    ensures s[0] == '0' <==> n == 0
  {
    if n < 10 then [DigitOf(n)] else Digits(n / 10) + [DigitOf(n % 10)]
  }

  function Signed(n: int): string {
    if n < 0 then "-" + Digits(-n) else Digits(n)
  }

  /** The number that a digit string spells. */
  function ValueOf(s: string): nat
    requires AllDigits(s)
  {
    if s == "" then 0 else 10 * ValueOf(s[..|s| - 1]) + DigitValue(s[|s| - 1])
  }

  predicate Canonical(s: string) {
    s != "" && AllDigits(s) && (s == "0" || s[0] != '0')
  }

  // Division by ten, without any text.

  lemma {:induction false} NextDigit(v: nat, d: nat)
    requires d < 10
    ensures (10 * v + d) / 10 == v && (10 * v + d) % 10 == d
  {
  }

  lemma {:induction false} DigitOfDigit(c: char)
    requires '0' <= c <= '9'
    ensures DigitValue(c) < 10 && DigitOf(DigitValue(c)) == c
  {
  }

  lemma {:induction false} DigitsSplit(n: nat)
    requires n >= 10
    ensures Digits(n) == Digits(n / 10) + [DigitOf(n % 10)]
  {
  }

  lemma {:induction false} ValueSplit(front: string, last: char)
    requires AllDigits(front) && '0' <= last <= '9'
    ensures AllDigits(front + [last]) && ValueOf(front + [last]) == 10 * ValueOf(front) + DigitValue(last)
  {
    assert (front + [last])[..|front|] == front;
  }

  lemma {:induction false} ValueOfDigits(n: nat)
    ensures ValueOf(Digits(n)) == n
  {
    if n >= 10 {
      hide Digits, ValueOf;
      ValueOfDigits(n / 10);
      DigitsSplit(n);
      DigitsCanonical(n / 10);
      ValueSplit(Digits(n / 10), DigitOf(n % 10));
    } else {
      assert [DigitOf(n)][..0] == "";
    }
  }

  lemma {:induction false} DigitsCanonical(n: nat)
    ensures Canonical(Digits(n))
  {
  }

  lemma {:induction false} ValuePositive(s: string)
    requires AllDigits(s) && s != "" && s[0] != '0'
    ensures ValueOf(s) > 0
  {
    if |s| > 1 {
      ValuePositive(s[..|s| - 1]);
    } else {
      assert s[..0] == "";
    }
  }

  /** A canonical digit string is the spelling of its value. */
  lemma {:induction false} DigitsOfValue(s: string)
    requires Canonical(s)
    ensures Digits(ValueOf(s)) == s
  {
    hide Digits, ValueOf, DigitOf, DigitValue;
    var front, last := s[..|s| - 1], s[|s| - 1];
    assert s == front + [last];
    DigitOfDigit(last);
    ValueSplit(front, last);
    if front == "" {
      OneDigit(last);
    } else {
      assert front[0] == s[0] != '0';
      DigitsOfValue(front);
      ValuePositive(front);
      NextDigit(ValueOf(front), DigitValue(last));
      DigitsSplit(ValueOf(s));
    }
  }

  lemma {:induction false} OneDigit(c: char)
    requires '0' <= c <= '9'
    ensures Digits(ValueOf([c])) == [c]
  {
    assert [c][..0] == "";
    DigitOfDigit(c);
  }

  lemma {:induction false} DigitsInjective(m: nat, n: nat)
    requires Digits(m) == Digits(n)
    ensures m == n
  {
    ValueOfDigits(m);
    ValueOfDigits(n);
  }

  lemma {:induction false} SignedInjective(m: int, n: int)
    requires Signed(m) == Signed(n)
    ensures m == n
  {
    assert Signed(m)[0] == '-' <==> m < 0;
    assert Signed(n)[0] == '-' <==> n < 0;
    if m < 0 {
      assert Signed(m)[1..] == Digits(-m) && Signed(n)[1..] == Digits(-n);
      DigitsInjective(-m, -n);
    } else {
      DigitsInjective(m, n);
    }
  }

  // ----- digits and size -----

  function Pow10(k: nat): (r: nat)
    ensures r > 0
  {
    if k == 0 then 1 else 10 * Pow10(k - 1)
  }

  lemma {:induction false} PowSum(a: nat, b: nat)
    ensures Pow10(a + b) == Pow10(a) * Pow10(b)
  {
    if b > 0 {
      PowSum(a, b - 1);
      assert Pow10(a) * Pow10(b) == 10 * (Pow10(a) * Pow10(b - 1));
    }
  }

  lemma {:induction false} PowGrows(a: nat, b: nat)
    requires a <= b
    ensures Pow10(a) <= Pow10(b)
  {
    if a < b {
      PowGrows(a, b - 1);
    }
  }

  lemma {:induction false} ValueBound(s: string)
    requires AllDigits(s)
    ensures ValueOf(s) < Pow10(|s|)
  {
    if s != "" {
      ValueBound(s[..|s| - 1]);
    }
  }

  lemma {:induction false} ValueAtLeast(s: string)
    requires AllDigits(s) && s != "" && s[0] != '0'
    ensures ValueOf(s) >= Pow10(|s| - 1)
  {
    if |s| > 1 {
      ValueAtLeast(s[..|s| - 1]);
    } else {
      ValuePositive(s);
    }
  }

  /** A canonical spelling has at most k digits exactly when its value is below
      the k-th power of ten. */
  lemma {:induction false} LengthIsSize(s: string, k: nat)
    requires Canonical(s) && k > 0
    ensures |s| <= k <==> ValueOf(s) < Pow10(k)
  {
    ValueBound(s);
    if |s| <= k {
      PowGrows(|s|, k);
    } else {
      assert s[0] != '0';
      ValueAtLeast(s);
      PowGrows(k, |s| - 1);
    }
  }

  lemma {:induction false} ValueSnoc(s: string, c: char)
    requires AllDigits(s) && IsDigit(c)
    ensures AllDigits(s + [c]) && ValueOf(s + [c]) == 10 * ValueOf(s) + DigitValue(c)
  {
    assert (s + [c])[..|s|] == s;
  }

  lemma {:induction false} ValueJoin(a: string, b: string)
    requires AllDigits(a) && AllDigits(b)
    ensures AllDigits(a + b) && ValueOf(a + b) == ValueOf(a) * Pow10(|b|) + ValueOf(b)
  {
    if b == "" {
      assert a + b == a;
    } else {
      hide ValueOf;
      var front, last := b[..|b| - 1], b[|b| - 1];
      ValueJoin(a, front);
      assert b == front + [last] && a + b == (a + front) + [last];
      ValueSnoc(a + front, last);
      ValueSnoc(front, last);
      Shift(ValueOf(a), Pow10(|front|));
    }
  }

  lemma {:induction false} Shift(v: nat, p: nat)
    ensures v * (10 * p) == 10 * (v * p)
  {
  }

  lemma {:induction false} ValueFront(s: string)
    requires AllDigits(s) && s != ""
    ensures ValueOf(s) == DigitValue(s[0]) * Pow10(|s| - 1) + ValueOf(s[1..])
  {
    hide ValueOf;
    var first, rest := [s[0]], s[1..];
    assert s == first + rest;
    ValueJoin(first, rest);
    SingleValue(s[0]);
  }

  lemma {:induction false} SingleValue(c: char)
    requires IsDigit(c)
    ensures ValueOf([c]) == DigitValue(c)
  {
    assert [c][..0] == "";
  }

  // ----- fixed-width digits -----

  /** The last k digits of a number, with leading zeros. */
  function Padded(n: nat, k: nat): (s: string)
    ensures |s| == k && AllDigits(s)
  {
    if k == 0 then "" else Padded(n / 10, k - 1) + [DigitOf(n % 10)]
  }

  lemma {:induction false} ValueOfPadded(n: nat, k: nat)
    requires n < Pow10(k)
    ensures ValueOf(Padded(n, k)) == n
  {
    if k > 0 {
      ValueOfPadded(n / 10, k - 1);
      ValueSnoc(Padded(n / 10, k - 1), DigitOf(n % 10));
    }
  }

  lemma {:induction false} PaddedOfValue(s: string)
    requires AllDigits(s)
    ensures Padded(ValueOf(s), |s|) == s
  {
    if s != "" {
      var front, last := s[..|s| - 1], s[|s| - 1];
      PaddedOfValue(front);
      assert s == front + [last];
      assert ValueOf(s) / 10 == ValueOf(front) && ValueOf(s) % 10 == DigitValue(last);
      assert DigitOf(DigitValue(last)) == last;
    }
  }
}
