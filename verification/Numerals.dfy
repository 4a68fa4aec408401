/** Decimal text of integers, as `String(n)` writes it and a base-ten reader reads it. */
module Numerals {
  import opened Text

  predicate AllDigits(s: string) { forall i :: 0 <= i < |s| ==> IsDigit(s[i]) }

  function DigitText(d: nat): char
    requires d < 10
  {
    '0' + d as char
  }

  function DigitValue(c: char): nat
    requires IsDigit(c)
  {
    c as int - '0' as int
  }

  function ToText(n: nat): string {
    if n < 10 then [DigitText(n)] else ToText(n / 10) + [DigitText(n % 10)]
  }

  function FromDigits(s: string): nat
    requires AllDigits(s)
  {
    if s == "" then 0 else 10 * FromDigits(s[..|s| - 1]) + DigitValue(s[|s| - 1])
  }

  /** Sign and digits of an integer. */
  function IntText(v: int): string {
    if v < 0 then "-" + ToText(-v) else ToText(v)
  }

  function FromIntText(s: string): Option<int> {
    if s != "" && s[0] == '-' && s[1..] != "" && AllDigits(s[1..]) then Some(0 - FromDigits(s[1..]))
    else if s != "" && AllDigits(s) then Some(FromDigits(s))
    else None
  }

  lemma {:induction false} TextRoundTrip(n: nat)
    ensures ToText(n) != "" && AllDigits(ToText(n)) && FromDigits(ToText(n)) == n
  {
    if n < 10 {
      assert ToText(n)[..0] == "";
    } else {
      TextRoundTrip(n / 10);
      var s := ToText(n);
      assert s[..|s| - 1] == ToText(n / 10);
    }
  }

  lemma IntRoundTrip(v: int)
    ensures FromIntText(IntText(v)) == Some(v)
  {
    if v < 0 {
      TextRoundTrip(-v);
      assert IntText(v)[1..] == ToText(-v);
    } else {
      TextRoundTrip(v);
      assert IsDigit(ToText(v)[0]);
    }
  }
}
