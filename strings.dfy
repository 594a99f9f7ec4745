/** String helpers: prefixes, substrings and JavaScript's decimal rendering of a number. */
module Strings {

  predicate StartsWith(s: string, p: string)
  {
    |p| <= |s| && s[..|p|] == p
  }

  /** `t` occurs somewhere inside `s`. */
  predicate Contains(s: string, t: string)
  {
    exists i :: 0 <= i <= |s| && StartsWith(s[i..], t)
  }

  predicate IsDigit(c: char)
  {
    '0' <= c <= '9'
  }

  function DigitChar(d: int): (c: char)
    requires 0 <= d < 10
    ensures IsDigit(c)
  {
    (48 + d) as char
  }

  function DigitValue(c: char): int
    requires IsDigit(c)
  {
    c as int - 48
  }

  /** A decimal numeral as JavaScript prints a non-negative integer: no sign, no leading zero. */
  predicate IsNumeral(s: string)
  {
    && |s| >= 1
    && (forall i :: 0 <= i < |s| ==> IsDigit(s[i]))
    && (|s| > 1 ==> s[0] != '0')
  }

  /**
   * The plain decimal numeral of `n`: what `String(n)` / `'' + n` prints for
   * a JavaScript number that is a non-negative integer below 10^21 (from
   * there on JavaScript switches to exponent notation).
   */
  function NatToString(n: nat): (s: string)
    ensures IsNumeral(s)
    ensures n < 10 <==> |s| == 1
  {
    if n < 10 then [DigitChar(n)] else NatToString(n / 10) + [DigitChar(n % 10)]
  }

  /** The number a string of digits denotes. */
  function NumeralValue(s: string): nat
    requires forall i :: 0 <= i < |s| ==> IsDigit(s[i])
  {
    if |s| == 0 then 0 else 10 * NumeralValue(s[..|s| - 1]) + DigitValue(s[|s| - 1])
  }

  /** Rendering a number and reading it back gives the number. */
  lemma {:induction false} NatToStringRoundTrip(n: nat)
    ensures NumeralValue(NatToString(n)) == n
  {
    var s := NatToString(n);
    if n >= 10 {
      NatToStringRoundTrip(n / 10);
      assert s[..|s| - 1] == NatToString(n / 10);
    }
  }

  /** The last character of the numeral is the units digit; the one before it, when there is one, the tens digit. */
  lemma NatToStringLastDigits(n: nat)
    ensures NatToString(n)[|NatToString(n)| - 1] == DigitChar(n % 10)
    ensures n >= 10 ==> NatToString(n)[|NatToString(n)| - 2] == DigitChar(n / 10 % 10)
  {
    if n >= 10 {
      var t := NatToString(n / 10);
      assert t[|t| - 1] == DigitChar(n / 10 % 10) by {
        if n / 10 >= 10 {
          assert t == NatToString(n / 10 / 10) + [DigitChar(n / 10 % 10)];
        }
      }
    }
  }

  lemma AppendAssoc<T>(a: seq<T>, b: seq<T>, c: seq<T>)
    ensures a + b + c == a + (b + c)
  {
  }
}
