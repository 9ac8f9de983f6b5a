/**
  Fixed-width integer ranges and the decimal text form of unsigned numbers:
  Rust's `Display` for integers and `<u64 as FromStr>::from_str`.
 */
module Decimal {
  import opened Wrappers

  const U16_MAX: int := 0xFFFF
  const U64_MAX: int := 0xFFFF_FFFF_FFFF_FFFF
  const I64_MIN: int := -0x8000_0000_0000_0000
  const I64_MAX: int := 0x7FFF_FFFF_FFFF_FFFF

  type u16 = x: int | 0 <= x <= U16_MAX
  type u64 = x: int | 0 <= x <= U64_MAX

  predicate IsDigit(c: char) {
    '0' <= c <= '9'
  }

  predicate AllDigits(s: string) {
    forall i :: 0 <= i < |s| ==> IsDigit(s[i])
  }

  function DigitChar(d: nat): (c: char)
    requires d < 10
    ensures IsDigit(c)
  {
    (('0' as int) + d) as char
  }

  function DigitValue(c: char): (d: nat)
    requires IsDigit(c)
    ensures d < 10 && DigitChar(d) == c
  {
    (c as int) - ('0' as int)
  }

  /** The number a string of ASCII digits denotes, read most significant digit first. */
  function DigitsValue(s: string): nat
    requires AllDigits(s)
    decreases |s|
  {
    if s == [] then 0 else DigitsValue(s[..|s| - 1]) * 10 + DigitValue(s[|s| - 1])
  }

  /** The shortest decimal rendering of `n`, as Rust's `Display` writes an unsigned integer. */
  function DecimalText(n: nat): (s: string)
    ensures |s| > 0 && AllDigits(s)
    ensures n > 0 ==> s[0] != '0'
    decreases n
  {
    if n < 10 then [DigitChar(n)] else DecimalText(n / 10) + [DigitChar(n % 10)]
  }

  /** Reading back the decimal text of `n` yields `n`. */
  lemma {:induction false} DecimalTextValue(n: nat)
    ensures DigitsValue(DecimalText(n)) == n
    decreases n
  {
    if n >= 10 {
      var s := DecimalText(n);
      DecimalTextValue(n / 10);
      assert s[..|s| - 1] == DecimalText(n / 10);
      assert DigitValue(s[|s| - 1]) == n % 10;
    }
  }

  /** Distinct numbers have distinct decimal texts. */
  lemma DecimalTextInjective(m: nat, n: nat)
    ensures DecimalText(m) == DecimalText(n) ==> m == n
  {
    DecimalTextValue(m);
    DecimalTextValue(n);
  }

  /**
    `<u64 as FromStr>::from_str`: an optional leading '+', then at least one
    ASCII digit and nothing else, with a value that fits in 64 bits. Leading
    zeros are accepted; '-' is never accepted for an unsigned type.
   */
  function ParseU64(s: string): (r: Option<u64>)
    ensures r.Some? ==> |s| > 0 && s[0] != '-'
    ensures r.Some? <==> exists d :: (s == d || s == "+" + d) && |d| > 0 && AllDigits(d) && DigitsValue(d) <= U64_MAX
    ensures forall d | (s == d || s == "+" + d) && |d| > 0 && AllDigits(d) && DigitsValue(d) <= U64_MAX ::
      r == Some(DigitsValue(d))
  {
    var digits := if |s| > 0 && s[0] == '+' then s[1..] else s;
    assert forall d | (s == d || s == "+" + d) && |d| > 0 && AllDigits(d) :: d == digits by {
      forall d | (s == d || s == "+" + d) && |d| > 0 && AllDigits(d) ensures d == digits {
        if s == "+" + d {
          assert s[1..] == d;
        } else {
          assert IsDigit(d[0]);
        }
      }
    }
    if |digits| > 0 && AllDigits(digits) && DigitsValue(digits) <= U64_MAX then
      assert s == digits || s == "+" + digits;
      Some(DigitsValue(digits))
    else
      None
  }

  /** Every u64, rendered in decimal with or without a leading '+', parses back to itself. */
  lemma ParseU64OfDecimal(n: u64)
    ensures ParseU64(DecimalText(n)) == Some(n)
    ensures ParseU64("+" + DecimalText(n)) == Some(n)
  {
    DecimalTextValue(n);
    assert ("+" + DecimalText(n))[1..] == DecimalText(n);
  }

  /** The inputs `from_str` rejects: empty, a lone sign, a leading '-', a non-digit, a value over 2^64 - 1. */
  lemma ParseU64Rejects(s: string)
    ensures s == "" ==> ParseU64(s) == None
    ensures s == "+" ==> ParseU64(s) == None
    ensures |s| > 0 && s[0] == '-' ==> ParseU64(s) == None
    ensures (exists i :: 0 <= i < |s| && !IsDigit(s[i]) && (i > 0 || s[i] != '+')) ==> ParseU64(s) == None
    ensures AllDigits(s) && DigitsValue(s) > U64_MAX ==> ParseU64(s) == None
  {
    if exists i :: 0 <= i < |s| && !IsDigit(s[i]) && (i > 0 || s[i] != '+') {
      var i :| 0 <= i < |s| && !IsDigit(s[i]) && (i > 0 || s[i] != '+');
      if s[0] == '+' {
        assert !IsDigit(s[1..][i - 1]);
      }
    }
  }
}
