/** Amount strings, as both consumers read them. */
module Amounts {
  import opened Text

  /** `parse_amount`: leading zeros are skipped, and text that is no `i64` counts as 0. */
  function ParseAmount(s: string): int {
    var t := TrimZeros(Trim(s));
    if t == "" then 0 else ParseI64(t).GetOr(0)
  }

  const AMOUNT_WIDTH := 10
  const MAX_AMOUNT := 9_999_999_999

  /** Every amount a terminal can write as ten zero-padded digits is read back. */
  lemma PaddedAmountSurvives(n: nat)
    requires n <= MAX_AMOUNT
    ensures ParseAmount(Digits(n, AMOUNT_WIDTH)) == n
  {
    var s := Digits(n, AMOUNT_WIDTH);
    assert Power10(5) == 100_000 && Power10(10) == 10_000_000_000;
    ValueOfDigits(n, AMOUNT_WIDTH);
    TrimTrimmed(s);
    ValueTrimZeros(s);
  }

  /** A number with a minus sign counts against the sum. */
  lemma NegativeAmount(n: nat, width: nat)
    requires 0 < width && n < Power10(width) && n <= I64_MAX
    ensures ParseAmount("-" + Digits(n, width)) == 0 - n
  {
    var digits := Digits(n, width);
    var s := "-" + digits;
    ValueOfDigits(n, width);
    assert s[|s| - 1] == digits[width - 1];
    TrimTrimmed(s);
    SignedDigits(digits);
  }

  /** Text that is no number counts as zero. */
  lemma NoAmount(s: string, i: nat)
    requires Trimmed(s) && 1 <= i < |s| && !('0' <= s[i] <= '9') && s[0] != '0'
    ensures ParseAmount(s) == 0
  {
    TrimTrimmed(s);
    var tail := if s[0] == '+' || s[0] == '-' then s[1..] else s;
    assert tail[if |tail| == |s| then i else i - 1] == s[i];
    OnlyDigits(s);
  }

  /** An amount field of at most ten bytes is less than ten thousand million either way. */
  lemma ShortAmountBounded(s: string)
    requires |s| <= AMOUNT_WIDTH
    ensures -MAX_AMOUNT <= ParseAmount(s) <= MAX_AMOUNT
  {
    var t := TrimZeros(Trim(s));
    if t != "" && ParseI64(t).Some? {
      var digits := if t[0] == '-' || t[0] == '+' then t[1..] else t;
      Power10Monotone(|digits|, AMOUNT_WIDTH);
      assert Power10(5) == 100_000 && Power10(10) == 10_000_000_000;
    }
  }
}
