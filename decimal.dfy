/**
 * Decimal notation of a count, as Java's string concatenation writes an
 * `int`: the digits, most significant first, with no leading zero.
 */
module Decimal {

  predicate IsDigit(c: char) {
    '0' <= c <= '9'
  }

  predicate AllDigits(s: string) {
    forall i | 0 <= i < |s| :: IsDigit(s[i])
  }

  function DigitChar(d: int): (c: char)
    requires 0 <= d < 10
    ensures IsDigit(c) && c as int - '0' as int == d
  {
    (d + '0' as int) as char
  }

  /** The decimal digits of `n`. */
  function DecimalString(n: nat): (s: string)
    ensures |s| > 0 && AllDigits(s)
    ensures |s| > 1 ==> s[0] != '0'
  {
    if n < 10 then [DigitChar(n)] else DecimalString(n / 10) + [DigitChar(n % 10)]
  }

  /** The value a string of decimal digits denotes. */
  function ParseDecimal(s: string): nat
    requires AllDigits(s)
  {
    if s == [] then 0 else 10 * ParseDecimal(s[..|s| - 1]) + (s[|s| - 1] as int - '0' as int)
  }

  /** Reading the digits back gives the count. */
  lemma {:induction false} DecimalRoundTrip(n: nat)
    ensures ParseDecimal(DecimalString(n)) == n
  {
    if n >= 10 {
      DecimalRoundTrip(n / 10);
      var s := DecimalString(n);
      assert s[..|s| - 1] == DecimalString(n / 10);
    }
  }

  /** Different counts are written differently. */
  lemma DecimalInjective(a: nat, b: nat)
    requires DecimalString(a) == DecimalString(b)
    ensures a == b
  {
    DecimalRoundTrip(a);
    DecimalRoundTrip(b);
  }

  /**
   * A count followed by a space can be read back unambiguously: the space
   * marks where the digits end.
   */
  lemma DigitsBeforeSpace(a: nat, b: nat, x: string, y: string)
    requires DecimalString(a) + x == DecimalString(b) + y
    requires |x| > 0 && |y| > 0 && x[0] == ' ' && y[0] == ' '
    ensures a == b && x == y
  {
    var s, t := DecimalString(a), DecimalString(b);
    var whole := s + x;
    var k := if |s| < |t| then |s| else |t|;
    assert IsDigit(whole[k]) <==> k < |s|;
    assert IsDigit(whole[k]) <==> k < |t|;
    assert s == whole[..|s|] == t;
    assert x == whole[|s|..] == y;
    DecimalInjective(a, b);
  }
}
