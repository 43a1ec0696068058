// Decimal text of unsigned 64-bit integers: std::to_string on uint64_t and
// the accepting case of std::stoull.

module Decimal {
  import opened Strings

  /** 2^64: the first value std::stoull reports out of range */
  const U64Limit: nat := 0x1_0000_0000_0000_0000

  predicate AllDigits(s: string)
  {
    forall i :: 0 <= i < |s| ==> IsDigit(s[i])
  }

  function DigitChar(d: nat): (c: char)
    requires d < 10
    ensures IsDigit(c) && c as int - '0' as int == d
  {
    ('0' as int + d) as char
  }

  function DigitValue(c: char): (d: nat)
    requires IsDigit(c)
    ensures d < 10
  {
    c as int - '0' as int
  }

  /** std::to_string(n): the shortest decimal numeral of n */
  function ToDecimal(n: nat): (s: string)
    ensures |s| > 0 && AllDigits(s)
    ensures |s| > 1 ==> s[0] != '0'
  {
    if n < 10 then [DigitChar(n)] else ToDecimal(n / 10) + [DigitChar(n % 10)]
  }

  /** std::to_string on a signed 64-bit counter */
  function IntToDecimal(n: int): (s: string)
    ensures |s| > 0
    ensures (s[0] == '-') <==> n < 0
  {
    if n < 0 then "-" + ToDecimal(-n) else ToDecimal(n)
  }

  /** The value of a numeral, most significant digit first */
  function DigitsValue(s: string): nat
    requires AllDigits(s)
  {
    if |s| == 0 then 0 else DigitsValue(s[..|s| - 1]) * 10 + DigitValue(s[|s| - 1])
  }

  /** std::stoull, accepting exactly the non-empty all-digit strings whose value fits in 64 bits */
  function ParseU64(s: string): (r: Option<nat>)
    ensures r.Some? <==> |s| > 0 && AllDigits(s) && DigitsValue(s) < U64Limit
    ensures r.Some? ==> r.value < U64Limit && r.value == DigitsValue(s)
  {
    if |s| > 0 && AllDigits(s) && DigitsValue(s) < U64Limit then Some(DigitsValue(s)) else None
  }

  /** Reading back the numeral std::to_string wrote gives the number */
  lemma {:induction false} DigitsValueOfDecimal(n: nat)
    ensures DigitsValue(ToDecimal(n)) == n
  {
    if n >= 10 {
      DigitsValueOfDecimal(n / 10);
      var s := ToDecimal(n);
      assert s[..|s| - 1] == ToDecimal(n / 10);
    }
  }

  /** std::stoull(std::to_string(n)) == n for every 64-bit n */
  lemma ParseToDecimal(n: nat)
    requires n < U64Limit
    ensures ParseU64(ToDecimal(n)) == Some(n)
  {
    DigitsValueOfDecimal(n);
  }

  /** Distinct numbers have distinct numerals */
  lemma ToDecimalInjective(m: nat, n: nat)
    requires ToDecimal(m) == ToDecimal(n)
    ensures m == n
  {
    DigitsValueOfDecimal(m);
    DigitsValueOfDecimal(n);
  }
}
