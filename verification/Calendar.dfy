/** Approval dates and times, and the hour bucket they fall into. */
module Calendar {
  import opened Text

  datatype Date = Date(year: int, month: nat, day: nat)

  predicate IsLeap(year: int) {
    year % 4 == 0 && (year % 100 != 0 || year % 400 == 0)
  }

  function YearLength(year: int): nat {
    if IsLeap(year) then 366 else 365
  }

  function MonthLength(year: int, month: nat): nat {
    if month == 2 then if IsLeap(year) then 29 else 28
    else if month == 4 || month == 6 || month == 9 || month == 11 then 30
    else 31
  }

  predicate Valid(d: Date) {
    1 <= d.month <= 12 && 1 <= d.day <= MonthLength(d.year, d.month)
  }

  /** Days from 1 January of year 0 to 1 January of `year`; negative for the years before. */
  function DaysBeforeYear(year: int): int {
    365 * year + (year + 3) / 4 - (year + 99) / 100 + (year + 399) / 400
  }

  function DaysBeforeMonth(year: int, month: nat): nat
    requires 1 <= month <= 13
  {
    if month == 1 then 0 else DaysBeforeMonth(year, month - 1) + MonthLength(year, month - 1)
  }

  const EPOCH_DAY := 719528

  /** Days since 1 January 1970. */
  function DayNumber(d: Date): int
    requires Valid(d)
  {
    DaysBeforeYear(d.year) + DaysBeforeMonth(d.year, d.month) + d.day - 1 - EPOCH_DAY
  }

  // ----- the calendar day numbers follow -----

  /** The next day of the proleptic Gregorian calendar. */
  function NextDay(d: Date): (n: Date)
    requires Valid(d)
    ensures Valid(n)
  {
    if d.day < MonthLength(d.year, d.month) then d.(day := d.day + 1)
    else if d.month < 12 then Date(d.year, d.month + 1, 1)
    else Date(d.year + 1, 1, 1)
  }

  lemma QuotientStep4(n: int)
    ensures (n + 4) / 4 == (n + 3) / 4 + if n % 4 == 0 then 1 else 0
  {
  }

  lemma QuotientStep100(n: int)
    ensures (n + 100) / 100 == (n + 99) / 100 + if n % 100 == 0 then 1 else 0
  {
  }

  lemma QuotientStep400(n: int)
    ensures (n + 400) / 400 == (n + 399) / 400 + if n % 400 == 0 then 1 else 0
  {
  }

  lemma Divisibility(year: int)
    ensures year % 400 == 0 ==> year % 100 == 0
    ensures year % 100 == 0 ==> year % 4 == 0
  {
    if year % 400 == 0 {
      assert year == 100 * (4 * (year / 400));
      Multiple(100, 4 * (year / 400));
    }
    if year % 100 == 0 {
      assert year == 4 * (25 * (year / 100));
      Multiple(4, 25 * (year / 100));
    }
  }

  lemma Multiple(n: nat, k: int)
    requires n == 4 || n == 100
    ensures (n * k) % n == 0
  {
  }

  lemma YearsAddUp(year: int)
    ensures DaysBeforeYear(year + 1) == DaysBeforeYear(year) + YearLength(year)
  {
    QuotientStep4(year);
    QuotientStep100(year);
    QuotientStep400(year);
    Divisibility(year);
  }

  lemma MonthsAddUp(year: int)
    ensures DaysBeforeMonth(year, 13) == YearLength(year)
  {
    var leapDay := if IsLeap(year) then 1 else 0;
    assert DaysBeforeMonth(year, 2) == 31;
    assert DaysBeforeMonth(year, 3) == 59 + leapDay;
    assert DaysBeforeMonth(year, 5) == 120 + leapDay;
    assert DaysBeforeMonth(year, 7) == 181 + leapDay;
    assert DaysBeforeMonth(year, 9) == 243 + leapDay;
    assert DaysBeforeMonth(year, 11) == 304 + leapDay;
  }

  /** On which day of the year each month begins, and how long December is. */
  lemma MonthsBegin(year: int)
    ensures var leapDay := if year % 4 == 0 && (year % 100 != 0 || year % 400 == 0) then 1 else 0;
            && DaysBeforeMonth(year, 1) == 0
            && DaysBeforeMonth(year, 2) == 31
            && DaysBeforeMonth(year, 3) == 59 + leapDay
            && DaysBeforeMonth(year, 4) == 90 + leapDay
            && DaysBeforeMonth(year, 5) == 120 + leapDay
            && DaysBeforeMonth(year, 6) == 151 + leapDay
            && DaysBeforeMonth(year, 7) == 181 + leapDay
            && DaysBeforeMonth(year, 8) == 212 + leapDay
            && DaysBeforeMonth(year, 9) == 243 + leapDay
            && DaysBeforeMonth(year, 10) == 273 + leapDay
            && DaysBeforeMonth(year, 11) == 304 + leapDay
            && DaysBeforeMonth(year, 12) == 334 + leapDay
            && MonthLength(year, 12) == 31
  {
  }

  /** Day numbers count calendar days from the epoch: 1970-01-01 is day 0 and each next day
      adds one. */
  lemma DayNumberCountsDays(d: Date)
    requires Valid(d)
    ensures DayNumber(NextDay(d)) == DayNumber(d) + 1
    ensures DayNumber(Date(1970, 1, 1)) == 0
  {
    YearsAddUp(d.year);
    MonthsAddUp(d.year);
  }

  predicate Before(a: Date, b: Date) {
    a.year < b.year
    || (a.year == b.year && a.month < b.month)
    || (a.year == b.year && a.month == b.month && a.day < b.day)
  }

  lemma {:induction false} YearsIncrease(a: int, b: int)
    requires a <= b
    ensures DaysBeforeYear(a) <= DaysBeforeYear(b)
    decreases b - a
  {
    if a == b {
    } else {
      YearsAddUp(b - 1);
      YearsIncrease(a, b - 1);
    }
  }

  lemma {:induction false} MonthsIncrease(year: int, a: nat, b: nat)
    requires 1 <= a <= b <= 13
    ensures DaysBeforeMonth(year, a) <= DaysBeforeMonth(year, b)
  {
    if a == b {
    } else {
      MonthsIncrease(year, a, b - 1);
    }
  }

  lemma LaterDayIsGreater(a: Date, b: Date)
    requires Valid(a) && Valid(b) && Before(a, b)
    ensures DayNumber(a) < DayNumber(b)
  {
    MonthsIncrease(a.year, a.month + 1, 13);
    MonthsAddUp(a.year);
    if a.year < b.year {
      YearsAddUp(a.year);
      YearsIncrease(a.year + 1, b.year);
    } else if a.month < b.month {
      MonthsIncrease(a.year, a.month + 1, b.month);
    }
  }

  lemma DayOrder(a: Date, b: Date)
    requires Valid(a) && Valid(b)
    ensures DayNumber(a) < DayNumber(b) <==> Before(a, b)
    ensures DayNumber(a) == DayNumber(b) <==> a == b
  {
    if Before(a, b) {
      LaterDayIsGreater(a, b);
    } else if Before(b, a) {
      LaterDayIsGreater(b, a);
    } else {
      assert a == b;
    }
  }

  // ----- parse_datetime_unix -----

  /** How many digits a text starts with, but no more than `max`. */
  function DigitRun(s: string, max: nat): (n: nat)
    ensures n <= |s| && n <= max && AllDigits(s[..n])
    ensures n < max && n < |s| ==> !IsDigit(s[n])
  {
    if max == 0 || s == "" || !IsDigit(s[0]) then 0
    else
      var n := DigitRun(s[1..], max - 1);
      assert forall i :: 0 <= i < n ==> s[1..][..n][i] == s[i + 1];
      1 + n
  }

  /** A number at the front of a text, and what follows it. */
  datatype Number = Number(value: int, rest: string)

  /** At least one digit and at most `max`. */
  function ScanDigits(s: string, max: nat): (r: Option<Number>)
    ensures r.Some? ==> r.value.value >= 0
  {
    var n := DigitRun(s, max);
    if n == 0 then None else Some(Number(Value(s[..n]), s[n..]))
  }

  /** A year of up to four digits, or a sign and any number of digits. */
  function ScanYear(s: string): Option<Number> {
    if s != "" && s[0] == '-' then
      match ScanDigits(s[1..], |s|)
      case None => None
      case Some(y) => Some(Number(-y.value, y.rest))
    else if s != "" && s[0] == '+' then ScanDigits(s[1..], |s|)
    else ScanDigits(s, 4)
  }

  /** chrono's reading of an eight-byte text by `%Y%m%d`: a year, a month and a day of up to two
      digits, with blanks allowed in front of each, that name a day. */
  function ParseDate(s: string): (r: Option<Date>)
    ensures r.Some? ==> Valid(r.value)
  {
    if |s| != 8 then None
    else
      match ScanYear(TrimStart(s))
      case None => None
      case Some(year) =>
        match ScanDigits(TrimStart(year.rest), 2)
        case None => None
        case Some(month) =>
          match ScanDigits(TrimStart(month.rest), 2)
          case None => None
          case Some(day) =>
            if day.rest != "" then None
            else
              var d := Date(year.value, month.value, day.value);
              if Valid(d) then Some(d) else None
  }

  /** A sign takes the year out of its four digits. */
  lemma SignedYear(digits: string, rest: string)
    requires digits != "" && AllDigits(digits) && (rest == "" || !('0' <= rest[0] <= '9'))
    ensures ScanYear(['-'] + (digits + rest)) == Some(Number(0 - Value(digits), rest))
    ensures ScanYear(['+'] + (digits + rest)) == Some(Number(Value(digits), rest))
  {
    var s := digits + rest;
    DigitsScanned(digits, rest);
    SignScanned('-', s);
    SignScanned('+', s);
  }

  lemma DigitsScanned(digits: string, rest: string)
    requires digits != "" && AllDigits(digits) && (rest == "" || !('0' <= rest[0] <= '9'))
    ensures ScanDigits(digits + rest, 1 + |digits + rest|) == Some(Number(Value(digits), rest))
  {
    StopsAt(digits, rest, 1 + |digits + rest|);
    ScansAll(digits, rest, 1 + |digits + rest|);
  }

  lemma SignScanned(sign: char, s: string)
    requires sign == '-' || sign == '+'
    ensures ScanYear([sign] + s)
            == (match ScanDigits(s, 1 + |s|)
                case None => None
                case Some(y) => Some(Number(if sign == '-' then 0 - y.value else y.value, y.rest)))
  {
    assert ([sign] + s)[1..] == s;
  }

  lemma ScansAll(digits: string, rest: string, max: nat)
    requires digits != "" && AllDigits(digits) && DigitRun(digits + rest, max) == |digits|
    ensures ScanDigits(digits + rest, max) == Some(Number(Value(digits), rest))
  {
    assert (digits + rest)[..|digits|] == digits && (digits + rest)[|digits|..] == rest;
  }

  lemma {:induction false} StopsAt(digits: string, rest: string, max: nat)
    requires AllDigits(digits) && |digits| < max && (rest == "" || !('0' <= rest[0] <= '9'))
    ensures DigitRun(digits + rest, max) == |digits|
  {
    if digits == "" {
      assert digits + rest == rest;
    } else {
      assert (digits + rest)[1..] == digits[1..] + rest;
      StopsAt(digits[1..], rest, max - 1);
    }
  }

  lemma {:induction false} RunOfDigits(s: string, max: nat)
    requires max <= |s| && AllDigits(s[..max])
    ensures DigitRun(s, max) == max
  {
    if max == 0 {
    } else {
      assert s[..max][0] == s[0];
      assert s[1..][..max - 1] == s[..max][1..];
      RunOfDigits(s[1..], max - 1);
    }
  }

  /** Digits at the front of digits. */
  lemma ScanFront(s: string, n: nat)
    requires 1 <= n <= |s| && AllDigits(s)
    ensures TrimStart(s) == s
    ensures ScanDigits(s, n) == Some(Number(Value(s[..n]), s[n..]))
  {
    RunOfDigits(s, n);
  }

  lemma ScanFourThen(y: string, rest: string)
    requires |y| == 4 && AllDigits(y)
    ensures TrimStart(y + rest) == y + rest
    ensures ScanYear(y + rest) == Some(Number(Value(y), rest))
  {
    assert (y + rest)[..4] == y && (y + rest)[4..] == rest;
    RunOfDigits(y + rest, 4);
  }

  /** Eight digits are read as four, two and two. */
  lemma EightDigits(s: string)
    requires |s| == 8 && AllDigits(s)
    ensures ParseDate(s) == (var d := Date(Value(s[..4]), Value(s[4..6]), Value(s[6..]));
                             if Valid(d) then Some(d) else None)
  {
    var r := s[4..];
    var q := s[6..];
    ScanFourThen(s[..4], r);
    assert s[..4] + r == s;
    ScanFront(r, 2);
    ScanFront(q, 2);
    assert r[..2] == s[4..6] && r[2..] == q;
    assert q[..2] == q && q[2..] == "";
  }

  lemma ScanOne(c: char, rest: string)
    requires IsDigit(c) && (rest == "" || !IsDigit(rest[0]))
    ensures ScanDigits([c] + rest, 2) == Some(Number(DigitValue(c), rest))
  {
    var s := [c] + rest;
    assert s[1..] == rest && s[..1] == [c];
    assert DigitRun(rest, 1) == 0;
    assert [c][..0] == "";
  }

  lemma BlankSkipped(s: string)
    requires s != "" && !IsSpace(s[0])
    ensures TrimStart([' '] + s) == s
  {
    assert ([' '] + s)[1..] == s;
  }

  /** Other texts of eight bytes are read too: blanks may stand for the leading zeros of a month and
      of a day. */
  lemma BlanksAreRead(y: string, m: char, d: char)
    requires |y| == 4 && AllDigits(y) && IsDigit(m) && IsDigit(d)
    ensures ParseDate(y + ([' '] + ([m] + ([' '] + [d]))))
            == (var date := Date(Value(y), DigitValue(m), DigitValue(d)); if Valid(date) then Some(date) else None)
  {
    var last := [' '] + [d];
    var rest := [' '] + ([m] + last);
    ScanFourThen(y, rest);
    DayRead(m, d, last, rest);
  }

  /** A date is a year, with a sign as in `SignedYear` or without, and behind it a month and a day,
      with blanks in front as in `DayRead` or without. */
  lemma DateOfParts(s: string, y: int, m: nat, d: nat, rest: string, last: string)
    requires |s| == 8 && !IsSpace(s[0]) && ScanYear(s) == Some(Number(y, rest))
    requires ScanDigits(TrimStart(rest), 2) == Some(Number(m, last))
    requires ScanDigits(TrimStart(last), 2) == Some(Number(d, ""))
    ensures ParseDate(s) == (if Valid(Date(y, m, d)) then Some(Date(y, m, d)) else None)
  {
    assert TrimStart(s) == s;
  }

  /** A month and a day of one digit, with a blank in front of each. */
  lemma DayRead(m: char, d: char, last: string, rest: string)
    requires IsDigit(m) && IsDigit(d) && last == [' '] + [d] && rest == [' '] + ([m] + last)
    ensures ScanDigits(TrimStart(rest), 2) == Some(Number(DigitValue(m), last))
    ensures ScanDigits(TrimStart(last), 2) == Some(Number(DigitValue(d), ""))
  {
    BlankSkipped([m] + last);
    ScanOne(m, last);
    BlankSkipped([d]);
    assert [d] + "" == [d];
    ScanOne(d, "");
  }

  /** The hour of an approval time: its first two characters, or 0 if there are not two. */
  function ParseHour(s: string): (r: Option<nat>)
    ensures r.Some? ==> r.value < 24
  {
    if |s| < 2 then Some(0)
    else
      match ParseU32(s[..2])
      case None => None
      case Some(hour) => if hour < 24 then Some(hour) else None
  }

  /** The hour is that of the first two bytes, whatever follows; without two bytes it is 0. */
  lemma HourWritten(h: nat, rest: string)
    requires h < 24
    ensures ParseHour(Digits(h, 2) + rest) == Some(h)
  {
    assert Power10(2) == 100;
    ValueOfDigits(h, 2);
    assert (Digits(h, 2) + rest)[..2] == Digits(h, 2);
    SignedDigits(Digits(h, 2));
  }

  lemma HourMissing(s: string)
    ensures |s| < 2 ==> ParseHour(s) == Some(0)
    ensures |s| >= 2 && !('0' <= s[1] <= '9') ==> ParseHour(s) == None
  {
    if |s| >= 2 && !('0' <= s[1] <= '9') {
      var two := s[..2];
      var tail := if two[0] == '+' || two[0] == '-' then two[1..] else two;
      assert tail[|tail| - 1] == s[1];
      OnlyDigits(two);
    }
  }

  lemma HourTooLate(h: nat, rest: string)
    requires 24 <= h < 100
    ensures ParseHour(Digits(h, 2) + rest) == None
  {
    assert Power10(2) == 100;
    ValueOfDigits(h, 2);
    assert (Digits(h, 2) + rest)[..2] == Digits(h, 2);
    SignedDigits(Digits(h, 2));
  }

  const KST_OFFSET := 9 * 3600

  /** Unix seconds of the start of the hour, in Korean standard time. */
  function ParseDatetimeUnix(approvalDate: string, approvalTime: string): Option<int> {
    match ParseDate(Trim(approvalDate))
    case None => None
    case Some(d) =>
      match ParseHour(Trim(approvalTime))
      case None => None
      case Some(hour) => Some(HourStart(DayNumber(d), hour))
  }

  function HourStart(day: int, hour: int): int {
    86400 * day + 3600 * hour - KST_OFFSET
  }

  lemma HourOrder(day1: int, hour1: nat, day2: int, hour2: nat)
    requires hour1 < 24 && hour2 < 24
    ensures HourStart(day1, hour1) % 3600 == 0
    ensures HourStart(day1, hour1) < HourStart(day2, hour2) <==> day1 < day2 || (day1 == day2 && hour1 < hour2)
    ensures HourStart(day1, hour1) == HourStart(day2, hour2) <==> day1 == day2 && hour1 == hour2
  {
    assert HourStart(day1, hour1) == 3600 * (24 * day1 + hour1 - 9);
  }

  /** `YYYYMMDD` */
  function DateText(d: Date): (s: string)
    requires d.year >= 0
    ensures |s| == 8 && AllDigits(s)
  {
    Digits(d.year, 4) + Digits(d.month, 2) + Digits(d.day, 2)
  }

  /** `HHMMSS` */
  function TimeText(h: nat, m: nat, sec: nat): (s: string)
    ensures |s| == 6 && AllDigits(s)
  {
    Digits(h, 2) + (Digits(m, 2) + Digits(sec, 2))
  }

  /** `YYYYMMDD` and `HHMMSS` give the Unix second at which that hour began in Korea, nine hours
      ahead of Greenwich. */
  lemma BucketWritten(d: Date, h: nat, m: nat, sec: nat)
    requires Valid(d) && 0 <= d.year < 10000 && h < 24
    ensures ParseDatetimeUnix(DateText(d), TimeText(h, m, sec)) == Some(86400 * DayNumber(d) + 3600 * h - 32400)
  {
    DateWritten(d);
    TimeWritten(h, m, sec);
    BucketOfParts(DateText(d), TimeText(h, m, sec), d, h);
  }

  lemma TimeWritten(h: nat, m: nat, sec: nat)
    requires h < 24
    ensures ParseHour(TimeText(h, m, sec)) == Some(h)
  {
    HourWritten(h, Digits(m, 2) + Digits(sec, 2));
  }

  lemma BucketOfParts(date: string, time: string, d: Date, h: nat)
    requires AllDigits(date) && AllDigits(time) && ParseDate(date) == Some(d) && ParseHour(time) == Some(h)
    ensures ParseDatetimeUnix(date, time) == Some(86400 * DayNumber(d) + 3600 * h - 32400)
  {
    DigitsTrimmed(date);
    DigitsTrimmed(time);
  }

  lemma DateWritten(d: Date)
    requires Valid(d) && 0 <= d.year < 10000
    ensures ParseDate(DateText(d)) == Some(d)
  {
    var s := DateText(d);
    assert Power10(2) == 100 && Power10(4) == 10000;
    ValueOfDigits(d.year, 4);
    ValueOfDigits(d.month, 2);
    ValueOfDigits(d.day, 2);
    assert s[..4] == Digits(d.year, 4) && s[4..6] == Digits(d.month, 2) && s[6..] == Digits(d.day, 2);
    EightDigits(s);
  }

  lemma SameDigits(a: string, b: string)
    requires |a| == |b| && AllDigits(a) && AllDigits(b) && Value(a) == Value(b)
    ensures a == b
  {
    DigitsOfValue(a);
    DigitsOfValue(b);
  }

  /** Eight digits are determined by the day they name. */
  lemma ParseDateInjective(s: string, t: string)
    requires AllDigits(s) && AllDigits(t)
    requires ParseDate(s).Some? && ParseDate(s) == ParseDate(t)
    ensures s == t
  {
    EightDigits(s);
    EightDigits(t);
    SameDigits(s[..4], t[..4]);
    SameDigits(s[4..6], t[4..6]);
    SameDigits(s[6..], t[6..]);
    Parts(s);
    Parts(t);
  }

  lemma Parts(s: string)
    requires |s| == 8
    ensures s == s[..4] + s[4..6] + s[6..]
  {
  }

  /** Hour buckets: a bucket starts on a full hour, buckets are ordered as (date, hour) pairs are,
      and two messages share a bucket exactly when they name the same day and hour; if their dates
      are digits, exactly when date texts and hours agree. */
  lemma HourBucket(date1: string, time1: string, date2: string, time2: string)
    requires ParseDatetimeUnix(date1, time1).Some? && ParseDatetimeUnix(date2, time2).Some?
    ensures var ts1, ts2 := ParseDatetimeUnix(date1, time1).value, ParseDatetimeUnix(date2, time2).value;
            var d1, d2 := ParseDate(Trim(date1)).value, ParseDate(Trim(date2)).value;
            var h1, h2 := ParseHour(Trim(time1)).value, ParseHour(Trim(time2)).value;
            && ts1 % 3600 == 0
            && (ts1 < ts2 <==> Before(d1, d2) || (d1 == d2 && h1 < h2))
            && (ts1 == ts2 <==> d1 == d2 && h1 == h2)
            && (AllDigits(Trim(date1)) && AllDigits(Trim(date2)) ==>
                  (ts1 == ts2 <==> Trim(date1) == Trim(date2) && h1 == h2))
  {
    var d1, d2 := ParseDate(Trim(date1)).value, ParseDate(Trim(date2)).value;
    var h1, h2 := ParseHour(Trim(time1)).value, ParseHour(Trim(time2)).value;
    HourOrder(DayNumber(d1), h1, DayNumber(d2), h2);
    DayOrder(d1, d2);
    if d1 == d2 && AllDigits(Trim(date1)) && AllDigits(Trim(date2)) {
      ParseDateInjective(Trim(date1), Trim(date2));
    }
  }
}
