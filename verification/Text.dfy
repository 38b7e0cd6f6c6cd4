/** Options and byte strings.

    Every payload, field and key of the system is a byte string, written here as a `string`
    whose characters are the bytes. Rust's `trim`, `trim_start_matches('0')`, `str::parse` and
    `format!("{:04}")` are given on the ASCII fragment. */
module Text {

  datatype Option<+T> = None | Some(value: T) {
    function GetOr(default: T): T {
      match this
      case Some(v) => v
      case None => default
    }
  }

  function Max(a: int, b: int): (m: int)
    ensures a <= m && b <= m && (m == a || m == b)
  {
    if a < b then b else a
  }

  // ----- whitespace -----

  predicate IsSpace(c: char) {
    c == ' ' || '\t' <= c <= '\r'
  }

  /** A string that `trim` leaves alone. */
  predicate Trimmed(s: string) {
    s != "" ==> !IsSpace(s[0]) && !IsSpace(s[|s| - 1])
  }

  function TrimStart(s: string): (r: string)
    ensures |r| <= |s|
    ensures r != "" ==> !IsSpace(r[0])
  {
    if s != "" && IsSpace(s[0]) then TrimStart(s[1..]) else s
  }

  function TrimEnd(s: string): (r: string)
    ensures r <= s
    ensures r != "" ==> !IsSpace(r[|r| - 1])
  {
    if s != "" && IsSpace(s[|s| - 1]) then TrimEnd(s[..|s| - 1]) else s
  }

  function Trim(s: string): (r: string)
    ensures |r| <= |s|
    ensures Trimmed(r)
  {
    TrimEnd(TrimStart(s))
  }

  lemma TrimTrimmed(s: string)
    requires Trimmed(s)
    ensures Trim(s) == s
  {
  }

  function Spaces(n: nat): (r: string)
    ensures |r| == n
    ensures forall i :: 0 <= i < n ==> r[i] == ' '
  {
    seq(n, _ => ' ')
  }

  lemma {:induction false} TrimPadded(v: string, n: nat)
    requires Trimmed(v)
    ensures Trim(v + Spaces(n)) == v
  {
    if v == "" {
      TrimStartSpaces(n);
      assert v + Spaces(n) == Spaces(n);
    } else {
      TrimEndPadded(v, n);
    }
  }

  lemma {:induction false} TrimStartSpaces(n: nat)
    ensures TrimStart(Spaces(n)) == ""
  {
    if n == 0 {
    } else {
      assert Spaces(n)[1..] == Spaces(n - 1);
      TrimStartSpaces(n - 1);
    }
  }

  lemma {:induction false} TrimEndPadded(v: string, n: nat)
    requires v != "" && !IsSpace(v[|v| - 1])
    ensures TrimEnd(v + Spaces(n)) == v
  {
    var s := v + Spaces(n);
    if n == 0 {
      assert s == v;
    } else {
      assert s[..|s| - 1] == v + Spaces(n - 1);
      TrimEndPadded(v, n - 1);
    }
  }

  /** The ASCII whitespace that `trim` takes off: tab, line feed, vertical tab, form feed, carriage
      return and space. */
  predicate AllBlank(s: string) {
    forall i :: 0 <= i < |s| ==> s[i] == ' ' || s[i] == '\t' || s[i] == '\n' || s[i] as int == 11
                                 || s[i] as int == 12 || s[i] == '\r'
  }

  lemma {:induction false} TrimStartBlank(blank: string, v: string)
    requires AllBlank(blank) && (v == "" || !IsSpace(v[0]))
    ensures TrimStart(blank + v) == v
  {
    if blank == "" {
      assert blank + v == v;
    } else {
      assert (blank + v)[1..] == blank[1..] + v;
      TrimStartBlank(blank[1..], v);
    }
  }

  lemma {:induction false} TrimEndBlank(v: string, blank: string)
    requires AllBlank(blank) && v != "" && !IsSpace(v[|v| - 1])
    ensures TrimEnd(v + blank) == v
  {
    if blank == "" {
      assert v + blank == v;
    } else {
      assert (v + blank)[..|v + blank| - 1] == v + blank[..|blank| - 1];
      TrimEndBlank(v, blank[..|blank| - 1]);
    }
  }

  /** A text between blanks, whose own ends are not blank, is what `trim` leaves. */
  lemma TrimBlanks(before: string, v: string, after: string)
    requires AllBlank(before) && AllBlank(after) && v != ""
    requires !AllBlank([v[0]]) && !AllBlank([v[|v| - 1]])
    ensures Trim(before + (v + after)) == v
  {
    assert [v[0]][0] == v[0] && [v[|v| - 1]][0] == v[|v| - 1];
    assert (v + after)[0] == v[0];
    TrimStartBlank(before, v + after);
    TrimEndBlank(v, after);
  }

  // ----- decimal numbers -----

  predicate IsDigit(c: char) {
    '0' <= c <= '9'
  }

  predicate AllDigits(s: string) {
    forall i :: 0 <= i < |s| ==> IsDigit(s[i])
  }

  lemma DigitsTrimmed(s: string)
    requires AllDigits(s)
    ensures Trim(s) == s
  {
    TrimTrimmed(s);
  }

  function DigitValue(c: char): (d: nat)
    requires IsDigit(c)
    ensures d < 10
  {
    c as int - '0' as int
  }

  function DigitChar(d: nat): (c: char)
    requires d < 10
    ensures IsDigit(c) && DigitValue(c) == d
  {
    ('0' as int + d) as char
  }

  function Power10(n: nat): (p: nat)
    ensures p >= 1
  {
    if n == 0 then 1 else 10 * Power10(n - 1)
  }

  /** The value of a run of digits, most significant first. */
  function Value(s: string): (n: nat)
    requires AllDigits(s)
    ensures n < Power10(|s|)
  {
    if s == "" then 0 else 10 * Value(s[..|s| - 1]) + DigitValue(s[|s| - 1])
  }

  /** The low `width` decimal digits of `n`. */
  function Digits(n: nat, width: nat): (s: string)
    ensures |s| == width && AllDigits(s)
  {
    if width == 0 then "" else Digits(n / 10, width - 1) + [DigitChar(n % 10)]
  }

  lemma {:induction false} ValueOfDigits(n: nat, width: nat)
    requires n < Power10(width)
    ensures Value(Digits(n, width)) == n
  {
    if width == 0 {
    } else {
      var s := Digits(n, width);
      assert s[..width - 1] == Digits(n / 10, width - 1);
      ValueOfDigits(n / 10, width - 1);
    }
  }

  lemma DivMod10(n: nat, d: nat)
    requires d < 10
    ensures (10 * n + d) / 10 == n && (10 * n + d) % 10 == d
  {
  }

  lemma DigitsAppend(n: nat, c: char, width: nat)
    requires IsDigit(c)
    ensures Digits(10 * n + DigitValue(c), width + 1) == Digits(n, width) + [c]
  {
    DivMod10(n, DigitValue(c));
  }

  lemma {:induction false} DigitsOfValue(s: string)
    requires AllDigits(s)
    ensures Digits(Value(s), |s|) == s
  {
    if s == "" {
    } else {
      var init, last := s[..|s| - 1], s[|s| - 1];
      DigitsOfValue(init);
      DigitsAppend(Value(init), last, |init|);
      assert s == init + [last];
    }
  }

  function DigitCount(n: nat): (k: nat) {
    if n < 10 then 1 else 1 + DigitCount(n / 10)
  }

  /** `format!("{:04}", n)`: at least four digits, zero-padded on the left. */
  function Format04(n: nat): (s: string)
    ensures AllDigits(s)
    ensures n < 10000 ==> s == Digits(n, 4)
  {
    Digits(n, if n < 10000 then 4 else DigitCount(n))
  }

  /** `trim_start_matches('0')` */
  function TrimZeros(s: string): (r: string)
    ensures |r| <= |s|
    ensures r != "" ==> r[0] != '0'
    ensures AllDigits(s) ==> AllDigits(r)
  {
    if s != "" && s[0] == '0' then TrimZeros(s[1..]) else s
  }

  lemma {:induction false} ValueSkipsZero(s: string)
    requires AllDigits(s) && s != "" && s[0] == '0'
    ensures Value(s) == Value(s[1..])
  {
    if |s| > 1 {
      var init := s[..|s| - 1];
      ValueSkipsZero(init);
      assert init[1..] == s[1..][..|s| - 2];
    }
  }

  lemma {:induction false} ValueTrimZeros(s: string)
    requires AllDigits(s)
    ensures Value(TrimZeros(s)) == Value(s)
  {
    if s != "" && s[0] == '0' {
      ValueSkipsZero(s);
      ValueTrimZeros(s[1..]);
    }
  }

  // ----- Rust's integer parsers -----

  const I64_MAX: int := 0x7FFF_FFFF_FFFF_FFFF
  const I64_MIN: int := -0x8000_0000_0000_0000
  const I32_MAX: int := 0x7FFF_FFFF
  const U32_MAX: int := 0xFFFF_FFFF

  /** `str::parse::<i64>()`: an optional sign, at least one digit, and a value that fits. */
  function ParseI64(s: string): Option<int> {
    var signed := s != "" && (s[0] == '-' || s[0] == '+');
    var digits := if signed then s[1..] else s;
    if digits == "" || !AllDigits(digits) then None
    else
      var v: int := Value(digits);
      var n := if signed && s[0] == '-' then -v else v;
      if I64_MIN <= n <= I64_MAX then Some(n) else None
  }

  /** `str::parse::<u32>()`: an optional plus sign, at least one digit, and a value that fits. */
  function ParseU32(s: string): Option<nat> {
    var digits := if s != "" && s[0] == '+' then s[1..] else s;
    if digits == "" || !AllDigits(digits) || Value(digits) > U32_MAX then None
    else Some(Value(digits))
  }

  /** Digits with or without a sign are read as the number they write, if it fits. */
  lemma SignedDigits(digits: string)
    requires digits != "" && AllDigits(digits)
    ensures var n: int := Value(digits);
            && ParseI64(digits) == ParseI64("+" + digits)
               == (if n <= 9_223_372_036_854_775_807 then Some(n) else None)
            && ParseI64("-" + digits) == (if n <= 9_223_372_036_854_775_808 then Some(-n) else None)
            && ParseU32(digits) == ParseU32("+" + digits) == (if n <= 4_294_967_295 then Some(n) else None)
  {
    assert ("+" + digits)[1..] == digits && ("-" + digits)[1..] == digits;
  }

  /** Nothing else is. */
  lemma OnlyDigits(s: string)
    requires var tail := if s != "" && (s[0] == '+' || s[0] == '-') then s[1..] else s;
             tail == "" || exists i :: 0 <= i < |tail| && !('0' <= tail[i] <= '9')
    ensures ParseI64(s) == None && ParseU32(s) == None
  {
    var tail := if s != "" && (s[0] == '+' || s[0] == '-') then s[1..] else s;
    if tail != "" {
      var i :| 0 <= i < |tail| && !('0' <= tail[i] <= '9');
      if s[0] == '-' {
        assert s[0] == '-' && !IsDigit(s[0]);
      }
    }
  }

  lemma {:induction false} Power10Monotone(m: nat, n: nat)
    requires m <= n
    ensures Power10(m) <= Power10(n)
  {
    if m == n {
    } else {
      Power10Monotone(m, n - 1);
    }
  }
}
