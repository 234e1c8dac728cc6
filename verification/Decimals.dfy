/** Decimal notation of numbers. */
module Decimals {
  predicate IsDigit(c: char) { '0' <= c <= '9' }

  function Digit(n: nat): char
    requires n < 10
    ensures IsDigit(Digit(n))
  {
    '0' + n as char
  }

  function DigitValue(c: char): nat
    requires IsDigit(c)
  {
    (c - '0') as nat
  }

  /** The decimal notation of a number, without leading zeros. */
  function Decimal(n: nat): string
    ensures Decimal(n) != "" && forall i :: 0 <= i < |Decimal(n)| ==> IsDigit(Decimal(n)[i])
  {
    if n < 10 then [Digit(n)] else Decimal(n / 10) + [Digit(n % 10)]
  }

  function Number(digits: string): nat
    requires forall i :: 0 <= i < |digits| ==> IsDigit(digits[i])
  {
    if digits == "" then 0
    else Number(digits[..|digits| - 1]) * 10 + DigitValue(digits[|digits| - 1])
  }

  lemma {:induction false} NumberOfDecimal(n: nat)
    ensures Number(Decimal(n)) == n
  {
    if n < 10 {
      assert Decimal(n)[..0] == "";
    } else {
      NumberOfDecimal(n / 10);
      assert Decimal(n)[..|Decimal(n)| - 1] == Decimal(n / 10);
    }
  }

  function Pow10(k: nat): nat { if k == 0 then 1 else 10 * Pow10(k - 1) }

  lemma {:induction false} DecimalIsShort(n: nat, k: nat)
    requires n < Pow10(k) && k > 0
    ensures |Decimal(n)| <= k
  {
    if n >= 10 {
      DecimalIsShort(n / 10, k - 1);
    }
  }

  /** The notation of an integer, with a minus sign if it is negative. */
  function Signed(n: int): string { if n < 0 then "-" + Decimal(-n) else Decimal(n) }

  /** The first position at or after `i` whose character is no digit, or the end. */
  function SkipDigits(s: string, i: nat): (j: nat)
    requires i <= |s|
    ensures i <= j <= |s| && (j < |s| ==> !IsDigit(s[j]))
    ensures forall k :: i <= k < j ==> IsDigit(s[k])
    decreases |s| - i
  {
    if i < |s| && IsDigit(s[i]) then SkipDigits(s, i + 1) else i
  }

  ghost predicate AllDigits(s: string) { s != "" && forall i :: 0 <= i < |s| ==> '0' <= s[i] <= '9' }

  /** What the digits are worth by their places. */
  function Worth(s: string): int { if s == "" then 0 else (s[0] as int - '0' as int) * Pow10(|s| - 1) + Worth(s[1..]) }

  lemma {:induction false} WorthOfLast(s: string)
    requires s != ""
    ensures Worth(s) == Worth(s[..|s| - 1]) * 10 + (s[|s| - 1] as int - '0' as int)
  {
    var init := s[..|s| - 1];
    if init == "" {
      assert s == [s[0]] && s[1..] == "" && Pow10(0) == 1;
    } else {
      WorthOfLast(s[1..]);
      assert s[1..][..|s| - 2] == init[1..];
      assert Pow10(|s| - 1) == 10 * Pow10(|s| - 2);
    }
  }

  lemma {:induction false} NumberIsWorth(s: string)
    requires forall i :: 0 <= i < |s| ==> IsDigit(s[i])
    ensures Number(s) == Worth(s)
    decreases |s|
  {
    if s != "" {
      NumberIsWorth(s[..|s| - 1]);
      WorthOfLast(s);
    }
  }
}
