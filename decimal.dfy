/** Decimal text for signed 64-bit integers.

    Counters travel as decimal strings: the store keeps every hash field as
    text, `HINCRBY` writes the canonical decimal form, and the Go side reads
    it back with `strconv.Atoi` / `strconv.ParseInt(s, 10, 64)`. */
module Decimal {
  import opened Common

  const MinInt64: int := -0x8000_0000_0000_0000
  const MaxInt64: int := 0x7FFF_FFFF_FFFF_FFFF

  predicate InInt64(n: int)
  {
    MinInt64 <= n <= MaxInt64
  }

  predicate IsDigit(c: char)
  {
    '0' <= c <= '9'
  }

  predicate AllDigits(s: string)
  {
    forall i :: 0 <= i < |s| ==> IsDigit(s[i])
  }

  function DigitChar(d: nat): (c: char)
    requires d < 10
    ensures IsDigit(c) && (c as int) - ('0' as int) == d
  {
    (('0' as int) + d) as char
  }

  /** The value of a string of digits, most significant digit first. */
  function DigitsValue(s: string): nat
    requires AllDigits(s)
  {
    if s == [] then 0
    else DigitsValue(s[..|s| - 1]) * 10 + ((s[|s| - 1] as int) - ('0' as int))
  }

  /** The shortest digit string of `n`: no leading zeros, "0" for zero. */
  function NatToDigits(n: nat): (s: string)
    ensures |s| > 0 && AllDigits(s)
    ensures s[0] == '0' ==> n == 0
  {
    if n < 10 then [DigitChar(n)] else NatToDigits(n / 10) + [DigitChar(n % 10)]
  }

  /** `strconv.FormatInt(n, 10)`; also how the store renders an integer. */
  function FormatInt(n: int): string
  {
    if n < 0 then "-" + NatToDigits(-n) else NatToDigits(n)
  }

  /** `strconv.ParseInt(s, 10, 64)` (and `strconv.Atoi` on a 64-bit platform):
      one optional sign, then at least one decimal digit, and a value that
      fits in 64 bits; anything else is a syntax or range error (None). */
  function ParseInt(s: string): (r: Option<int>)
    ensures r.Some? ==> InInt64(r.value)
    ensures r.Some? ==> |s| > 0
  {
    var negative := |s| > 0 && s[0] == '-';
    var digits := if |s| > 0 && (s[0] == '-' || s[0] == '+') then s[1..] else s;
    if digits == [] || !AllDigits(digits) then None
    else
      var magnitude: int := DigitsValue(digits);
      var v := if negative then -magnitude else magnitude;
      if InInt64(v) then Some(v) else None
  }

  /** The store's own integer syntax for `HINCRBY`: only the canonical form
      that it writes itself (no '+', no leading zeros, no "-0"). */
  function ParseCanonical(s: string): (r: Option<int>)
    ensures r.Some? ==> FormatInt(r.value) == s && InInt64(r.value)
  {
    match ParseInt(s)
    case Some(n) => if FormatInt(n) == s then Some(n) else None
    case None => None
  }

  lemma {:induction false} DigitsRoundTrip(n: nat)
    ensures DigitsValue(NatToDigits(n)) == n
  {
    if n >= 10 {
      var s := NatToDigits(n);
      assert s == NatToDigits(n / 10) + [DigitChar(n % 10)];
      assert s[..|s| - 1] == NatToDigits(n / 10);
      DigitsRoundTrip(n / 10);
    }
  }

  /** Reading back what `FormatInt` wrote gives the same number. */
  lemma ParseFormat(n: int)
    requires InInt64(n)
    ensures ParseInt(FormatInt(n)) == Some(n)
  {
    var s := FormatInt(n);
    if n < 0 {
      DigitsRoundTrip(-n);
      assert s[1..] == NatToDigits(-n);
      assert NatToDigits(-n)[0] != '-';
    } else {
      DigitsRoundTrip(n);
      assert s[0] != '-' && s[0] != '+';
    }
  }

  /** Every integer the store writes is one it accepts again. */
  lemma ParseCanonicalFormat(n: int)
    requires InInt64(n)
    ensures ParseCanonical(FormatInt(n)) == Some(n)
  {
    ParseFormat(n);
  }
}
