/**
 * Base-10 rendering of an int64, as Go's strconv.FormatInt(x, 10) produces it,
 * with a parser as its partner: the parser recovers every rendered value, so
 * the rendering is injective.
 */
module Decimal {
  import opened Types
  import opened Results

  predicate IsDigit(c: char) {
    '0' <= c <= '9'
  }

  predicate AllDigits(s: string) {
    forall i :: 0 <= i < |s| ==> IsDigit(s[i])
  }

  function DigitChar(d: nat): (c: char)
    requires d < 10
    ensures IsDigit(c)
    ensures c as int - '0' as int == d
  {
    ('0' as int + d) as char
  }

  function DigitValue(c: char): (d: nat)
    requires IsDigit(c)
    ensures d < 10
    ensures DigitChar(d) == c
  {
    c as int - '0' as int
  }

  /** The digits of n, most significant first, without leading zeros. */
  function NatDigits(n: nat): (s: string)
    ensures |s| >= 1
    ensures AllDigits(s)
    ensures |s| > 1 ==> s[0] != '0'
    decreases n
  {
    if n < 10 then [DigitChar(n)] else NatDigits(n / 10) + [DigitChar(n % 10)]
  }

  /** strconv.FormatInt(x, 10): a minus sign for negative values, then the digits of |x|. */
  function FormatInt(x: Int64): (s: string)
    ensures |s| >= 1
    ensures x < 0 <==> s[0] == '-'
    ensures x >= 0 ==> AllDigits(s)
    ensures x < 0 ==> |s| >= 2 && AllDigits(s[1..])
    ensures x >= 0 && |s| > 1 ==> s[0] != '0'
    ensures x < 0 ==> s[1] != '0'
    ensures forall i :: 0 <= i < |s| ==> s[i] != '"'
  {
    if x < 0 then
      var d := NatDigits(-(x as int));
      assert d[0] != '0' by {
        if |d| == 1 {
          assert DigitValue(d[0]) == -(x as int);
        }
      }
      "-" + d
    else NatDigits(x as int)
  }

  /** The value of a string of digits (the empty string reads as 0). */
  function ParseNat(s: string): nat
    requires AllDigits(s)
  {
    if |s| == 0 then 0 else ParseNat(s[..|s| - 1]) * 10 + DigitValue(s[|s| - 1])
  }

  /** Reads an optionally negative decimal integer; None when the text is not one. */
  function ParseInt(s: string): (r: Option<int>)
    ensures r.Some? ==> |s| >= 1
  {
    if |s| >= 2 && s[0] == '-' && AllDigits(s[1..]) then Some(0 - ParseNat(s[1..]) as int)
    else if |s| >= 1 && AllDigits(s) then Some(ParseNat(s) as int)
    else None
  }

  lemma {:induction false} ParseNatDigits(n: nat)
    ensures ParseNat(NatDigits(n)) == n
    decreases n
  {
    var s := NatDigits(n);
    if n >= 10 {
      ParseNatDigits(n / 10);
      assert s[..|s| - 1] == NatDigits(n / 10);
      assert DigitValue(s[|s| - 1]) == n % 10;
    }
  }

  /** Parsing a rendered value gives the value back. */
  lemma FormatIntRoundTrip(x: Int64)
    ensures ParseInt(FormatInt(x)) == Some(x as int)
  {
    var s := FormatInt(x);
    if x < 0 {
      ParseNatDigits(-(x as int));
      assert s[1..] == NatDigits(-(x as int));
    } else {
      ParseNatDigits(x as int);
    }
  }

  /** Distinct gene ids are rendered as distinct strings. */
  lemma FormatIntInjective(x: Int64, y: Int64)
    ensures FormatInt(x) == FormatInt(y) <==> x == y
  {
    if FormatInt(x) == FormatInt(y) {
      FormatIntRoundTrip(x);
      FormatIntRoundTrip(y);
    }
  }
}
