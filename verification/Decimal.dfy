/** Decimal numerals as Go's strconv writes and reads them. */
module Decimal {
  predicate IsDigit(c: char) {
    '0' <= c <= '9'
  }

  function DigitChar(d: nat): (c: char)
    requires d < 10
    ensures IsDigit(c) && DigitValue(c) == d
  {
    ['0', '1', '2', '3', '4', '5', '6', '7', '8', '9'][d]
  }

  function DigitValue(c: char): (d: nat)
    requires IsDigit(c)
    ensures d < 10
  {
    c as int - '0' as int
  }

  ghost predicate AllDigits(s: string) {
    forall i | 0 <= i < |s| :: IsDigit(s[i])
  }

  /** `strconv.FormatInt(n, 10)` for non-negative `n`. */
  function Format(n: nat): (s: string)
    ensures s != "" && AllDigits(s)
    ensures n > 0 ==> s[0] != '0'
  {
    if n < 10 then [DigitChar(n)] else Format(n / 10) + [DigitChar(n % 10)]
  }

  /** The number a string of digits denotes. */
  function Value(s: string): nat
    requires AllDigits(s)
  {
    if s == "" then 0 else 10 * Value(s[..|s| - 1]) + DigitValue(s[|s| - 1])
  }

  function Pow10(k: nat): (p: nat)
    ensures p > 0
  {
    if k == 0 then 1 else 10 * Pow10(k - 1)
  }

  lemma {:induction false} ValueOfFormat(n: nat)
    ensures Value(Format(n)) == n
  {
    if n >= 10 {
      ValueOfFormat(n / 10);
      assert Format(n)[..|Format(n)| - 1] == Format(n / 10);
    } else {
      assert Format(n)[..0] == "";
      assert Value("") == 0;
    }
  }

  lemma FormatInjective(a: nat, b: nat)
    requires Format(a) == Format(b)
    ensures a == b
  {
    ValueOfFormat(a);
    ValueOfFormat(b);
  }

  lemma TenTimes(a: nat, p: nat)
    ensures a * (10 * p) == 10 * (a * p)
  {
  }

  lemma {:induction false} ValueConcat(a: string, b: string)
    requires AllDigits(a) && AllDigits(b)
    ensures AllDigits(a + b) && Value(a + b) == Value(a) * Pow10(|b|) + Value(b)
  {
    if b == "" {
      assert a + b == a;
    } else {
      var k := |b| - 1;
      ValueConcat(a, b[..k]);
      assert (a + b)[..|a + b| - 1] == a + b[..k];
      TenTimes(Value(a), Pow10(k));
      assert (a + b)[|a + b| - 1] == b[k];
    }
  }

  lemma {:induction false} ValueBelowPow10(s: string)
    requires AllDigits(s)
    ensures Value(s) < Pow10(|s|)
  {
    if s != "" {
      ValueBelowPow10(s[..|s| - 1]);
    }
  }

  /** A numeral that ends at a character that is no digit can be told from what follows. */
  lemma NumeralsBeforeSeparator(a: nat, b: nat, sep: char, x: string, y: string)
    requires !IsDigit(sep) && Format(a) + [sep] + x == Format(b) + [sep] + y
    ensures a == b && x == y
  {
    var s := Format(a) + [sep] + x;
    assert s[|Format(a)|] == sep && s[|Format(b)|] == sep;
    forall i | 0 <= i < |Format(a)| ensures IsDigit(s[i]) {
      assert s[i] == Format(a)[i];
    }
    forall i | 0 <= i < |Format(b)| ensures IsDigit(s[i]) {
      assert s[i] == Format(b)[i];
    }
    assert Format(a) == s[..|Format(a)|] == Format(b);
    assert x == s[|Format(a)| + 1..] == y;
    FormatInjective(a, b);
  }
}
