/** String helpers: the `SubStartEnd` extension method and the decimal
    digit arithmetic used for number literals and line numbers. */
module Strings {
  import opened Wrappers

  /** `str.SubStartEnd(start, end)`, i.e. `str.Substring(start, end - start)`.
      `None` stands for the ArgumentOutOfRangeException that .NET throws
      when the range does not lie inside the string. */
  function SubStartEnd(s: string, start: int, end: int): (r: Option<string>)
    ensures r.Some? <==> 0 <= start <= end <= |s|
    ensures r.Some? ==> |r.value| == end - start
    ensures r.Some? ==> forall i :: 0 <= i < |r.value| ==> r.value[i] == s[start + i]
    ensures 0 <= start == end <= |s| ==> r == Some("")
  {
    if 0 <= start <= end <= |s| then Some(s[start..end]) else None
  }

  predicate IsDigit(c: char) {
    '0' <= c <= '9'
  }

  predicate AllDigits(s: string) {
    forall i :: 0 <= i < |s| ==> IsDigit(s[i])
  }

  function DigitValue(c: char): nat
    requires IsDigit(c)
  {
    c as int - '0' as int
  }

  function DigitChar(d: nat): (c: char)
    requires d < 10
    ensures IsDigit(c) && DigitValue(c) == d
  {
    ('0' as int + d) as char
  }

  /** The natural number a run of decimal digits denotes. */
  function DigitsValue(s: string): nat
    requires AllDigits(s)
  {
    if |s| == 0 then 0 else 10 * DigitsValue(s[..|s| - 1]) + DigitValue(s[|s| - 1])
  }

  function Pow10(n: nat): (r: nat)
    ensures r > 0
  {
    if n == 0 then 1 else 10 * Pow10(n - 1)
  }

  /** The decimal text of `n` (C#'s `int.ToString()` for the non-negative
      line numbers that diagnostics print): no leading zero, and reading it
      back yields `n`. */
  function NatToDecimal(n: nat): (r: string)
    ensures |r| > 0 && AllDigits(r)
    ensures r[0] != '0' || n == 0
    ensures DigitsValue(r) == n
  {
    if n < 10 then [DigitChar(n)]
    else
      var prefix := NatToDecimal(n / 10);
      var r := prefix + [DigitChar(n % 10)];
      assert r[..|r| - 1] == prefix;
      r
  }

  predicate EndsWith(s: string, suffix: string) {
    |suffix| <= |s| && s[|s| - |suffix|..] == suffix
  }
}
