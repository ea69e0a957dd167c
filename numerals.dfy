/**
 * Decimal integers as Go's `strconv` reads and writes them: `ParseInt(s, 10, 64)`
 * (and `Atoi` on a 64-bit platform) on the reading side, `FormatInt(n, 10)` and
 * `Itoa` on the writing side.
 */
module Numerals {
  import opened Wrappers

  const MinInt64: int := -0x8000_0000_0000_0000
  const MaxInt64: int := 0x7fff_ffff_ffff_ffff

  /** Go's `int64` (and `int` on a 64-bit platform). */
  type Int64 = x: int | MinInt64 <= x <= MaxInt64

  predicate IsDigit(c: char) { '0' <= c <= '9' }

  predicate AllDigits(s: string) {
    forall i :: 0 <= i < |s| ==> IsDigit(s[i])
  }

  /** The value of a string of decimal digits, most significant first. */
  function DigitsValue(s: string): nat
    requires AllDigits(s)
  {
    if s == "" then 0
    else DigitsValue(s[..|s| - 1]) * 10 + (s[|s| - 1] as int - '0' as int)
  }

  /**
   * `strconv.ParseInt(s, 10, 64)`: an optional '+' or '-', then at least one
   * decimal digit and nothing else; values outside the 64-bit range are rejected.
   */
  function ParseInt(s: string): (r: Option<Int64>)
    ensures r.Some? ==> s != "" && (s[0] == '+' || s[0] == '-' || IsDigit(s[0]))
    ensures r.Some? ==> AllDigits(s[1..])
    ensures r.Some? && s[0] == '-' ==> r.value <= 0
    ensures r.Some? && s[0] != '-' ==> r.value >= 0
    ensures r.Some? && IsDigit(s[0]) ==> r.value == DigitsValue(s)
    ensures r.Some? && s[0] == '+' ==> |s| > 1 && r.value == DigitsValue(s[1..])
    ensures r.Some? && s[0] == '-' ==> |s| > 1 && r.value == -(DigitsValue(s[1..]) as int)
    ensures s != "" && AllDigits(s) ==> (r.Some? <==> DigitsValue(s) <= MaxInt64)
    ensures |s| > 1 && s[0] == '+' && AllDigits(s[1..]) ==> (r.Some? <==> DigitsValue(s[1..]) <= MaxInt64)
    ensures |s| > 1 && s[0] == '-' && AllDigits(s[1..]) ==> (r.Some? <==> DigitsValue(s[1..]) <= -MinInt64)
  {
    var signed := s != "" && (s[0] == '+' || s[0] == '-');
    var body := if signed then s[1..] else s;
    if body == "" || !AllDigits(body) then None
    else
      var v := if signed && s[0] == '-' then -(DigitsValue(body) as int) else DigitsValue(body) as int;
      if MinInt64 <= v <= MaxInt64 then Some(v) else None
  }

  function DigitChar(d: nat): (c: char)
    requires d < 10
    ensures IsDigit(c) && c as int - '0' as int == d
  {
    ('0' as int + d) as char
  }

  /** The shortest decimal digits of `n`. */
  function Digits(n: nat): (s: string)
    ensures s != "" && AllDigits(s)
  {
    if n < 10 then [DigitChar(n)] else Digits(n / 10) + [DigitChar(n % 10)]
  }

  /** `strconv.FormatInt(n, 10)`. */
  function FormatInt(n: int): string {
    if n < 0 then "-" + Digits(-n) else Digits(n)
  }

  /** Reading back the digits of `n` gives `n`. */
  lemma {:induction false} DigitsValueOfDigits(n: nat)
    ensures DigitsValue(Digits(n)) == n
  {
    var s := Digits(n);
    if n >= 10 {
      DigitsValueOfDigits(n / 10);
      assert s[..|s| - 1] == Digits(n / 10);
    }
  }

  /** Every 64-bit integer survives being written and read back. */
  lemma ParseFormatInt(n: Int64)
    ensures ParseInt(FormatInt(n)) == Some(n)
  {
    var m: nat := if n < 0 then -(n as int) else n;
    DigitsValueOfDigits(m);
    if n < 0 {
      assert FormatInt(n)[1..] == Digits(m);
    } else {
      assert IsDigit(Digits(m)[0]);
    }
  }
}
