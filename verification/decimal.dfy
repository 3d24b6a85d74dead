/**
 * Decimal numerals: their value, the canonical numeral of a number, and
 * JavaScript's `parseInt(s, 10)` on the text the page-range parser feeds it.
 */
module Decimal {
  import opened Results
  import opened JsText

  predicate IsDigit(c: char) {
    '0' <= c <= '9'
  }

  predicate AllDigits(s: string) {
    forall i :: 0 <= i < |s| ==> IsDigit(s[i])
  }

  function DigitValue(c: char): nat
    requires IsDigit(c)
  {
    (c as int) - ('0' as int)
  }

  function DigitChar(d: nat): (c: char)
    requires d < 10
    ensures IsDigit(c) && DigitValue(c) == d
  {
    (('0' as int) + d) as char
  }

  /** The value of a string of decimal digits, most significant first. */
  function DigitsValue(s: string): nat
    requires AllDigits(s)
  {
    if |s| == 0 then 0 else DigitsValue(s[..|s| - 1]) * 10 + DigitValue(s[|s| - 1])
  }

  /** The decimal numeral JavaScript writes for `n`: no sign, no leading zero. */
  function NatToString(n: nat): (s: string)
    ensures |s| >= 1 && AllDigits(s)
    ensures DigitsValue(s) == n
    ensures n == 0 ==> s == "0"
    ensures n > 0 ==> s[0] != '0'
  {
    if n < 10 then [DigitChar(n)]
    else
      var s := NatToString(n / 10) + [DigitChar(n % 10)];
      assert s[..|s| - 1] == NatToString(n / 10);
      s
  }

  /** The numeral of an integer, with a leading '-' when it is negative. */
  function IntToString(n: int): (s: string)
    ensures n >= 0 ==> s == NatToString(n)
    ensures n < 0 ==> s == "-" + NatToString(-n)
  {
    if n < 0 then "-" + NatToString(-n) else NatToString(n)
  }

  /** Length of the longest prefix of `s` made of digits. */
  function DigitPrefixLength(s: string): (k: nat)
    ensures k <= |s| && AllDigits(s[..k])
    ensures k == |s| || !IsDigit(s[k])
  {
    if |s| > 0 && IsDigit(s[0]) then
      var k := 1 + DigitPrefixLength(s[1..]);
      assert s[..k] == [s[0]] + s[1..][..k - 1];
      k
    else 0
  }

  /**
   * `parseInt(s, 10)`: leading whitespace is skipped, a '+' sign is allowed,
   * and the longest run of digits that follows is the value; with no digit
   * there the result is `NaN`, written `None`.
   */
  function ParseInt(s: string): (r: Option<nat>)
    ensures var t := TrimStart(s);
      r.Some? <==> |t| > 0 && (IsDigit(t[0]) || (t[0] == '+' && |t| > 1 && IsDigit(t[1])))
  {
    var t := TrimStart(s);
    if |t| > 0 && t[0] == '+' then ParseDigits(t[1..]) else ParseDigits(t)
  }

  /** The value of the leading run of digits of `u`, if there is one. */
  function ParseDigits(u: string): Option<nat>
  {
    var k := DigitPrefixLength(u);
    if k == 0 then None else Some(DigitsValue(u[..k]))
  }

  lemma {:induction false} DigitPrefixOfNumeral(d: string, rest: string)
    requires AllDigits(d)
    requires rest == [] || !IsDigit(rest[0])
    ensures DigitPrefixLength(d + rest) == |d|
    decreases |d|
  {
    if |d| > 0 {
      assert (d + rest)[1..] == d[1..] + rest;
      DigitPrefixOfNumeral(d[1..], rest);
    } else {
      assert d + rest == rest;
    }
  }

  /**
   * `parseInt` reads a numeral: whitespace, an optional '+', a run of digits
   * and anything that does not start with a digit give the run's value.
   */
  lemma {:induction false} ParseIntNumeral(w: string, sign: string, d: string, rest: string)
    requires AllWhitespace(w)
    requires sign == "" || sign == "+"
    requires |d| >= 1 && AllDigits(d)
    requires rest == [] || !IsDigit(rest[0])
    ensures ParseInt(w + sign + d + rest) == Some(DigitsValue(d))
  {
    var u := d + rest;
    var t := sign + u;
    assert w + sign + d + rest == w + t;
    SignedStart(sign, u);
    TrimStartPadded(w, t);
    ParseDigitsNumeral(d, rest);
    ParseIntOfSigned(sign, u);
  }

  /** Text starting with a sign or a digit does not start with whitespace. */
  lemma SignedStart(sign: string, u: string)
    requires sign == "" || sign == "+"
    requires |u| >= 1 && IsDigit(u[0])
    ensures |sign + u| >= 1 && !IsWhitespace((sign + u)[0])
  {
    if sign == "+" { assert (sign + u)[0] == '+'; } else { assert (sign + u)[0] == u[0]; }
  }

  /** Once the whitespace is gone, `parseInt` reads the digits after an optional '+'. */
  lemma ParseIntOfSigned(sign: string, u: string)
    requires sign == "" || sign == "+"
    requires TrimStart(sign + u) == sign + u
    requires |u| >= 1 && IsDigit(u[0])
    ensures ParseInt(sign + u) == ParseDigits(u)
  {
    var t := sign + u;
    if sign == "+" {
      assert t[0] == '+' && t[1..] == u;
    } else {
      assert t == u;
    }
    ParseIntUntrimmed(t);
  }

  /** On text with no leading whitespace, `parseInt` reads digits after an optional '+'. */
  lemma ParseIntUntrimmed(t: string)
    requires TrimStart(t) == t
    ensures |t| > 0 && t[0] == '+' ==> ParseInt(t) == ParseDigits(t[1..])
    ensures !(|t| > 0 && t[0] == '+') ==> ParseInt(t) == ParseDigits(t)
  {
  }

  lemma ParseDigitsNumeral(d: string, rest: string)
    requires |d| >= 1 && AllDigits(d)
    requires rest == [] || !IsDigit(rest[0])
    ensures ParseDigits(d + rest) == Some(DigitsValue(d))
  {
    DigitPrefixOfNumeral(d, rest);
    assert (d + rest)[..|d|] == d;
  }

  /**
   * `parseInt` yields `NaN` when, after the whitespace and an optional '+',
   * no digit follows. A '-' is left out: the parser never hands one over.
   */
  lemma ParseIntNaN(w: string, sign: string, rest: string)
    requires AllWhitespace(w)
    requires sign == "" || sign == "+"
    requires rest == [] || !IsDigit(rest[0])
    requires rest == [] || rest[0] != '-'
    requires sign == "+" || rest == [] || (!IsWhitespace(rest[0]) && rest[0] != '+')
    ensures ParseInt(w + sign + rest) == None
  {
    var s := w + sign + rest;
    assert s == w + (sign + rest);
    if sign == "+" || rest == [] {
      TrimStartPadded(w, sign + rest);
    } else {
      TrimStartPadded(w, rest);
      assert sign + rest == rest;
    }
  }

  /** The numeral JavaScript prints for a page number reads back as that number. */
  lemma ParseIntNatToString(n: nat)
    ensures ParseInt(NatToString(n)) == Some(n)
  {
    NumeralReads(NatToString(n));
  }

  /** A bare numeral reads as its value. */
  lemma NumeralReads(d: string)
    requires |d| >= 1 && AllDigits(d)
    ensures ParseInt(d) == Some(DigitsValue(d))
  {
    assert IsDigit(d[0]) && !IsWhitespace(d[0]);
    assert TrimStart(d) == d;
    ParseDigitsNumeral(d, []);
    assert d + [] == d;
  }
}
