/** Decimal rendering of an `i32` value, as Rust's `{}` formats it: an optional
    minus sign followed by the digits, with no leading zero. */
module Decimal {

  predicate IsDigit(c: char) {
    '0' <= c <= '9'
  }

  predicate AllDigits(s: string) {
    forall i :: 0 <= i < |s| ==> IsDigit(s[i])
  }

  function DigitChar(d: nat): (c: char)
    requires d < 10
    ensures IsDigit(c) && c as int - '0' as int == d
  {
    "0123456789"[d]
  }

  /** Digits of `n`, most significant first. */
  function NatToString(n: nat): (s: string)
    ensures |s| >= 1 && AllDigits(s)
    ensures s[0] == '0' ==> s == "0" && n == 0
    decreases n
  {
    if n < 10 then [DigitChar(n)] else NatToString(n / 10) + [DigitChar(n % 10)]
  }

  /** The value a string of digits denotes. */
  function DigitsValue(s: string): nat
    requires AllDigits(s)
  {
    if s == [] then 0 else DigitsValue(s[..|s| - 1]) * 10 + (s[|s| - 1] as int - '0' as int)
  }

  lemma {:induction false} NatRoundTrip(n: nat)
    ensures DigitsValue(NatToString(n)) == n
    decreases n
  {
    if n >= 10 {
      var s := NatToString(n);
      assert s[..|s| - 1] == NatToString(n / 10);
      NatRoundTrip(n / 10);
    }
  }

  function IntToString(i: int): (s: string)
    ensures |s| >= 1
    ensures i < 0 <==> s[0] == '-'
    ensures AllDigits(s[1..])
    ensures !('(' in s) && !(')' in s)
    ensures s[0] == '0' ==> s == "0"
    ensures i < 0 ==> |s| >= 2 && s[1] != '0'
    ensures IsCanonical(s)
  {
    var s := if i < 0 then "-" + NatToString(-i) else NatToString(i);
    assert i < 0 ==> s[1..] == NatToString(-i) && s[1] == NatToString(-i)[0];
    assert forall k :: 0 <= k < |s| ==> s[k] == '-' || IsDigit(s[k]);
    s
  }

  /** An optional minus sign followed by at least one digit. */
  predicate IsIntLiteral(s: string) {
    |s| >= 1 && AllDigits(s[1..]) && (IsDigit(s[0]) || (s[0] == '-' && |s| >= 2))
  }

  /** The one literal Rust's `{}` writes for a value: no leading zero, and no
      zero after a minus sign. */
  predicate IsCanonical(s: string) {
    && IsIntLiteral(s)
    && (s[0] == '0' ==> s == "0")
    && (s[0] == '-' ==> s[1] != '0')
  }

  /** Reads back what `IntToString` writes. */
  function ParseInt(s: string): int
    requires IsIntLiteral(s)
  {
    if s[0] == '-' then -(DigitsValue(s[1..]) as int) else DigitsValue(s)
  }

  lemma IntRoundTrip(i: int)
    ensures IsCanonical(IntToString(i))
    ensures ParseInt(IntToString(i)) == i
  {
    if i < 0 {
      NatRoundTrip(-i);
      assert IntToString(i)[1..] == NatToString(-i);
    } else {
      NatRoundTrip(i);
      assert IntToString(i) == NatToString(i);
    }
  }

  /** Distinct indices render differently. */
  lemma IntToStringInjective(i: int, j: int)
    requires IntToString(i) == IntToString(j)
    ensures i == j
  {
    IntRoundTrip(i);
    IntRoundTrip(j);
  }
}
