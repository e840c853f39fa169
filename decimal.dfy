/**
 * Base-10 text of integers, as C#'s `int.ToString()` writes it under the
 * invariant culture: an optional '-' followed by decimal digits with no
 * leading zero. `ParseDecimal` reads such text back and is the reference the
 * conversion is proved against.
 */
module Decimal {

  datatype Option<T> = None | Some(value: T)

  predicate IsDigit(c: char) {
    '0' <= c <= '9'
  }

  function DigitValue(c: char): (d: nat)
    requires IsDigit(c)
    ensures d < 10
  {
    (c - '0') as nat
  }

  function DigitChar(d: nat): (c: char)
    requires d < 10
    ensures IsDigit(c) && DigitValue(c) == d
  {
    ('0' as int + d) as char
  }

  predicate AllDigits(s: string) {
    forall k :: 0 <= k < |s| ==> IsDigit(s[k])
  }

  /** Digits only, at least one, and no leading zero unless the text is "0". */
  predicate IsCanonicalNat(s: string) {
    |s| > 0 && AllDigits(s) && (s[0] == '0' ==> |s| == 1)
  }

  /** A canonical natural number, or '-' before a canonical nonzero one. */
  predicate IsCanonicalInt(s: string) {
    || IsCanonicalNat(s)
    || (|s| >= 2 && s[0] == '-' && s[1] != '0' && IsCanonicalNat(s[1..]))
  }

  /** The value of a string of decimal digits, most significant first. */
  function ParseDigits(s: string): nat
    requires AllDigits(s)
  {
    if s == [] then 0 else 10 * ParseDigits(s[..|s| - 1]) + DigitValue(s[|s| - 1])
  }

  /** Reads an optional '-' followed by at least one digit; anything else is None. */
  function ParseDecimal(s: string): Option<int> {
    if |s| >= 2 && s[0] == '-' && AllDigits(s[1..]) then Some(-(ParseDigits(s[1..]) as int))
    else if |s| > 0 && AllDigits(s) then Some(ParseDigits(s) as int)
    else None
  }

  /** The decimal text of a natural number. */
  function NatToDecimal(n: nat): (s: string)
    ensures IsCanonicalNat(s)
    ensures s[0] == '0' <==> n == 0
  {
    if n < 10 then [DigitChar(n)] else NatToDecimal(n / 10) + [DigitChar(n % 10)]
  }

  /** The decimal text of an integer: the sign, if negative, then the digits of its magnitude. */
  function IntToDecimal(i: int): (s: string)
    ensures IsCanonicalInt(s)
    ensures ParseDecimal(s) == Some(i)
  {
    if i < 0 then
      NatRoundTrip(-i);
      assert ("-" + NatToDecimal(-i))[1..] == NatToDecimal(-i);
      "-" + NatToDecimal(-i)
    else
      NatRoundTrip(i);
      NatToDecimal(i)
  }

  /** Reading back the text of `n` gives `n`. */
  lemma {:induction false} NatRoundTrip(n: nat)
    ensures ParseDigits(NatToDecimal(n)) == n
  {
    if n >= 10 {
      var s := NatToDecimal(n);
      assert s[..|s| - 1] == NatToDecimal(n / 10);
      NatRoundTrip(n / 10);
    }
  }

  /** Digits that do not start with '0' denote a positive number. */
  lemma {:induction false} LeadingNonzeroIsPositive(s: string)
    requires |s| > 0 && AllDigits(s) && s[0] != '0'
    ensures ParseDigits(s) > 0
  {
    if |s| > 1 {
      LeadingNonzeroIsPositive(s[..|s| - 1]);
    }
  }

  /** Every canonical digit string is the text of the number it denotes. */
  lemma {:induction false} CanonicalNatRoundTrip(s: string)
    requires IsCanonicalNat(s)
    ensures NatToDecimal(ParseDigits(s)) == s
  {
    var d := s[|s| - 1];
    if |s| == 1 {
      assert DigitChar(DigitValue(d)) == d;
    } else {
      var prefix := s[..|s| - 1];
      CanonicalNatRoundTrip(prefix);
      LeadingNonzeroIsPositive(prefix);
      var n := ParseDigits(s);
      assert n / 10 == ParseDigits(prefix) && n % 10 == DigitValue(d);
      assert DigitChar(DigitValue(d)) == d;
      assert s == prefix + [d];
    }
  }

  /**
   * Every canonical integer text is the text of the number it denotes, so
   * IntToDecimal is a bijection between the integers and canonical texts.
   */
  lemma {:induction false} CanonicalIntRoundTrip(s: string)
    requires IsCanonicalInt(s)
    ensures ParseDecimal(s).Some? && IntToDecimal(ParseDecimal(s).value) == s
  {
    if IsCanonicalNat(s) {
      assert s[0] != '-';
      CanonicalNatRoundTrip(s);
    } else {
      var digits := s[1..];
      CanonicalNatRoundTrip(digits);
      LeadingNonzeroIsPositive(digits);
      assert s == "-" + digits;
    }
  }

  /** Distinct integers have distinct texts. */
  lemma IntToDecimalInjective(i: int, j: int)
    requires IntToDecimal(i) == IntToDecimal(j)
    ensures i == j
  {
  }

  /** The canonical text that reads back as `i` is IntToDecimal(i) and no other. */
  lemma IntToDecimalUnique(i: int, s: string)
    requires IsCanonicalInt(s) && ParseDecimal(s) == Some(i)
    ensures s == IntToDecimal(i)
  {
    CanonicalIntRoundTrip(s);
  }
}
