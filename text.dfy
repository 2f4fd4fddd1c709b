/** Decimal rendering of integers, as Swift's string interpolation `"\(n)"`
    produces it, and its inverse. Used for the HUD texts "SCORE : n" and
    "LIVES : n". */
module Text {

  predicate IsDigit(c: char) {
    '0' <= c <= '9'
  }

  predicate AllDigits(s: string) {
    forall i :: 0 <= i < |s| ==> IsDigit(s[i])
  }

  function DigitChar(d: nat): (c: char)
    requires d < 10
    ensures IsDigit(c)
  {
    "0123456789"[d]
  }

  function DigitValue(c: char): (d: nat)
    requires IsDigit(c)
    ensures d < 10
  {
    (c as int) - ('0' as int)
  }

  lemma DigitRoundTrip(d: nat)
    requires d < 10
    ensures DigitValue(DigitChar(d)) == d
  {
  }

  /** The shortest decimal numeral of `n`: no sign, no leading zero. */
  function Digits(n: nat): (s: string)
    ensures |s| >= 1 && AllDigits(s)
    ensures |s| > 1 ==> s[0] != '0'
    decreases n
  {
    if n < 10 then [DigitChar(n)] else Digits(n / 10) + [DigitChar(n % 10)]
  }

  /** Reads a numeral of decimal digits back. */
  function ParseDigits(s: string): nat
    requires AllDigits(s)
    decreases |s|
  {
    if s == [] then 0 else ParseDigits(s[..|s| - 1]) * 10 + DigitValue(s[|s| - 1])
  }

  /** Parsing the numeral of `n` gives back `n`. */
  lemma {:induction false} ParseDigitsOfDigits(n: nat)
    ensures ParseDigits(Digits(n)) == n
    decreases n
  {
    var s := Digits(n);
    if n < 10 {
      DigitRoundTrip(n);
    } else {
      ParseDigitsOfDigits(n / 10);
      assert s[..|s| - 1] == Digits(n / 10);
      DigitRoundTrip(n % 10);
    }
  }

  /** The numeral of a natural number identifies it. */
  lemma DigitsInjective(m: nat, n: nat)
    requires Digits(m) == Digits(n)
    ensures m == n
  {
    ParseDigitsOfDigits(m);
    ParseDigitsOfDigits(n);
  }

  /** Swift's rendering of an `Int`: a minus sign before negative values. */
  function IntText(i: int): (s: string)
    ensures |s| >= 1
    ensures (s[0] == '-') <==> i < 0
    ensures i >= 0 ==> AllDigits(s) && ParseDigits(s) == i
  {
    if i < 0 then "-" + Digits(-i) else (ParseDigitsOfDigits(i); Digits(i))
  }

  /** A negative value renders as its magnitude after the sign. */
  lemma NegativeText(i: int)
    requires i < 0
    ensures IntText(i)[1..] == Digits(-i)
  {
    var d := Digits(-i);
    assert ("-" + d)[1..] == d;
  }

  /** Two different integers never render alike. */
  lemma {:induction false} IntTextInjective(i: int, j: int)
    requires IntText(i) == IntText(j)
    ensures i == j
  {
    if i < 0 {
      assert IntText(j)[0] == '-';
      NegativeText(i);
      NegativeText(j);
      DigitsInjective(-i, -j);
    } else {
      assert IntText(j)[0] != '-';
      DigitsInjective(i, j);
    }
  }
}
