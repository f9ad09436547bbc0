/** The two number/text coercions the reader and printer rely on:
    `elem + ''` (an integer printed in decimal) and `!isNaN(token)` followed by
    `parseInt(token)` (a numeric token read back as an integer). */
module Decimal {

  predicate IsDigit(c: char) {
    '0' <= c <= '9'
  }

  predicate AllDigits(s: string) {
    forall i :: 0 <= i < |s| ==> IsDigit(s[i])
  }

  function DigitChar(d: nat): (c: char)
    requires d < 10
    ensures IsDigit(c)
  {
    (('0' as int) + d) as char
  }

  function DigitValue(c: char): (d: nat)
    requires IsDigit(c)
    ensures d < 10
  {
    (c as int) - ('0' as int)
  }

  /** Decimal text of a natural number, most significant digit first. */
  function NatToString(n: nat): (s: string)
    ensures |s| >= 1 && AllDigits(s)
    decreases n
  {
    if n < 10 then [DigitChar(n)] else NatToString(n / 10) + [DigitChar(n % 10)]
  }

  /** The value of a run of decimal digits. */
  function DigitsValue(s: string): nat
    requires AllDigits(s)
  {
    if s == [] then 0 else DigitsValue(s[..|s| - 1]) * 10 + DigitValue(s[|s| - 1])
  }

  /** JavaScript's `i + ''` for an integer `i`. */
  function IntToString(i: int): (s: string)
    ensures |s| >= 1
  {
    if i < 0 then "-" + NatToString(-i) else NatToString(i)
  }

  predicate IsSign(c: char) {
    c == '+' || c == '-'
  }

  /** Length of the sign prefix of a token: 1 when it starts with `+` or `-`. */
  function SignLength(tok: string): nat {
    if |tok| > 0 && IsSign(tok[0]) then 1 else 0
  }

  /** The length of the leading digit run of `s`. */
  function LeadingDigits(s: string): (k: nat)
    ensures k <= |s| && AllDigits(s[..k])
    ensures k < |s| ==> !IsDigit(s[k])
  {
    if s == [] || !IsDigit(s[0]) then 0
    else
      var k := 1 + LeadingDigits(s[1..]);
      assert s[..k] == [s[0]] + s[1..][..k - 1];
      k
  }

  /** The tokens (made only of the characters the tokenizer can put in one
      token) on which `!isNaN(token)` holds and `parseInt(token)` is an
      integer: an optional sign, at least one digit, and optionally a point
      followed by more digits. */
  predicate IsNumeral(tok: string) {
    var s := SignLength(tok);
    var body := tok[s..];
    var k := LeadingDigits(body);
    k >= 1 && (k == |body| || (body[k] == '.' && AllDigits(body[k + 1..])))
  }

  /** `parseInt(token)`: the signed value of the leading digits; a fractional
      part is dropped. */
  function NumeralValue(tok: string): int
    requires IsNumeral(tok)
  {
    var s := SignLength(tok);
    var body := tok[s..];
    var v: int := DigitsValue(body[..LeadingDigits(body)]);
    if s == 1 && tok[0] == '-' then -v else v
  }

  lemma {:induction false} DigitsValueAppend(s: string, c: char)
    requires AllDigits(s) && IsDigit(c)
    ensures AllDigits(s + [c]) && DigitsValue(s + [c]) == DigitsValue(s) * 10 + DigitValue(c)
  {
    assert (s + [c])[..|s + [c]| - 1] == s;
  }

  /** Printing a natural number and reading its digits back gives the number. */
  lemma {:induction false} NatToStringRoundTrip(n: nat)
    ensures DigitsValue(NatToString(n)) == n
    decreases n
  {
    if n < 10 {
      assert [DigitChar(n)][..0] == [];
      assert DigitValue(DigitChar(n)) == n;
    } else {
      var q, r := n / 10, n % 10;
      NatToStringRoundTrip(q);
      DigitsValueAppend(NatToString(q), DigitChar(r));
      assert DigitValue(DigitChar(r)) == r;
      assert n == q * 10 + r;
    }
  }

  lemma LeadingDigitsAll(s: string)
    requires AllDigits(s)
    ensures LeadingDigits(s) == |s|
  {
  }

  /** The text the printer produces for an integer is a numeral that the reader
      turns back into the same integer. */
  lemma IntToStringRoundTrip(i: int)
    ensures IsNumeral(IntToString(i)) && NumeralValue(IntToString(i)) == i
  {
    var t := IntToString(i);
    var digits := NatToString(if i < 0 then -i else i);
    if i < 0 {
      assert t[0] == '-' && t[1..] == digits;
    } else {
      assert SignLength(t) == 0 && t[0..] == digits;
    }
    LeadingDigitsAll(digits);
    assert digits[..|digits|] == digits;
    NatToStringRoundTrip(if i < 0 then -i else i);
  }
}
