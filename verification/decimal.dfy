/**
 * Decimal text of an integer, as Arduino's `String(int)` produces it: an optional '-'
 * followed by the digits of the magnitude, most significant first, with no leading zeros.
 * `reconnect` uses it to render the PubSubClient state code in "MQTT error: <code>".
 * `ParseInt` reads such text back, so the code can be recovered from the alert message.
 */
module Decimal {
  import opened Base

  predicate IsDigit(c: char) { '0' <= c <= '9' }

  predicate AllDigits(s: string) { forall i | 0 <= i < |s| :: IsDigit(s[i]) }

  function DigitChar(d: nat): (c: char)
    requires d < 10
    ensures IsDigit(c) && c as int - '0' as int == d
  {
    (d + '0' as int) as char
  }

  function DigitValue(c: char): nat
    requires IsDigit(c)
  {
    c as int - '0' as int
  }

  /** The digits of `n`, most significant first. */
  function NatToString(n: nat): (s: string)
    ensures |s| > 0 && IsDigit(s[0])
    decreases n
  {
    if n < 10 then [DigitChar(n)] else NatToString(n / 10) + [DigitChar(n % 10)]
  }

  /** `String(n)` for a signed integer. */
  function IntToString(n: int): (s: string)
    ensures |s| > 0 && (s[0] == '-' <==> n < 0)
  {
    if n < 0 then "-" + NatToString(-n)
    else NatToString(n)
  }

  /** The value of a string of decimal digits (the empty string reads as 0). */
  function DigitsValue(s: string): nat
    requires AllDigits(s)
  {
    if |s| == 0 then 0 else 10 * DigitsValue(s[..|s| - 1]) + DigitValue(s[|s| - 1])
  }

  /** Reads an optionally signed decimal number; anything else is rejected. */
  function ParseInt(s: string): Option<int>
  {
    if |s| > 1 && s[0] == '-' && AllDigits(s[1..]) then Some(0 - DigitsValue(s[1..]) as int)
    else if |s| > 0 && AllDigits(s) then Some(DigitsValue(s))
    else None
  }

  /** The text of a natural number is non-empty, all digits, without a leading zero, and reads back as the number. */
  lemma {:induction false} NatToStringInverse(n: nat)
    ensures var s := NatToString(n);
      |s| > 0 && AllDigits(s) && (|s| > 1 ==> s[0] != '0') && DigitsValue(s) == n
    decreases n
  {
    if n >= 10 {
      NatToStringInverse(n / 10);
      var s := NatToString(n);
      assert s[..|s| - 1] == NatToString(n / 10);
    }
  }

  /** Round trip: `ParseInt` recovers every integer from its `String(int)` text. */
  lemma IntToStringInverse(n: int)
    ensures ParseInt(IntToString(n)) == Some(n)
  {
    if n < 0 {
      NatToStringInverse(-n);
      assert IntToString(n)[1..] == NatToString(-n);
    } else {
      NatToStringInverse(n);
    }
  }

  /** Distinct integers have distinct texts. */
  lemma IntToStringInjective(m: int, n: int)
    ensures IntToString(m) == IntToString(n) <==> m == n
  {
    IntToStringInverse(m);
    IntToStringInverse(n);
  }
}
