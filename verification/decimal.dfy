/** Decimal rendering of natural numbers, as Rust's `Display` for unsigned
    integers produces it (used for the port of an RPC URL and for the decimal
    sector-size aliases), together with the digit-string value it inverts. */
module Decimal {

  predicate IsDigit(c: char)
  {
    '0' <= c <= '9'
  }

  predicate AllDigits(s: string)
  {
    forall k :: 0 <= k < |s| ==> IsDigit(s[k])
  }

  function DigitChar(d: int): (c: char)
    requires 0 <= d < 10
    ensures IsDigit(c)
  {
    ((('0' as int) + d) as char)
  }

  /** The shortest decimal numeral of `n`: non-empty, all digits, and with a
      leading `0` only for zero itself. */
  function ToString(n: nat): (s: string)
    ensures |s| >= 1 && AllDigits(s)
    ensures s[0] == '0' <==> n == 0
    decreases n
  {
    if n < 10 then [DigitChar(n)] else ToString(n / 10) + [DigitChar(n % 10)]
  }

  /** The value of a string of decimal digits, most significant first. */
  function Value(s: string): nat
    requires AllDigits(s)
    decreases |s|
  {
    if |s| == 0 then 0 else Value(s[..|s| - 1]) * 10 + (s[|s| - 1] as int - '0' as int)
  }

  /** Appending a digit to a positive number appends its character. */
  lemma ToStringSnoc(n: nat, d: nat)
    requires n >= 1 && d < 10
    ensures ToString(n * 10 + d) == ToString(n) + [DigitChar(d)]
  {
  }

  /** Reading back the rendering of `n` yields `n`. */
  lemma {:induction false} ValueOfToString(n: nat)
    ensures Value(ToString(n)) == n
    decreases n
  {
    var s := ToString(n);
    if n >= 10 {
      ValueOfToString(n / 10);
      assert s[..|s| - 1] == ToString(n / 10);
    }
  }

  /** Rendering is injective: distinct numbers have distinct numerals. */
  lemma ToStringInjective(m: nat, n: nat)
    requires ToString(m) == ToString(n)
    ensures m == n
  {
    ValueOfToString(m);
    ValueOfToString(n);
  }
}
