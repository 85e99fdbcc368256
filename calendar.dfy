/**
 * Calendar dates and times of day as the reservation checks read them from
 * the `reservation_date` ("YYYY-MM-DD") and `reservation_time` ("HH:MM" or
 * "HH:MM:SS") strings. Days are counted from 1970-01-01 in the proleptic
 * Gregorian calendar, which is how UTC weekdays are computed.
 */
module Calendar {
  import opened Wrappers
  import opened Values

  datatype Date = Date(year: int, month: int, day: int)

  predicate IsLeapYear(y: int)
  {
    y % 4 == 0 && (y % 100 != 0 || y % 400 == 0)
  }

  function DaysInMonth(y: int, m: int): int
    requires 1 <= m <= 12
  {
    if m == 2 then (if IsLeapYear(y) then 29 else 28)
    else if m == 4 || m == 6 || m == 9 || m == 11 then 30
    else 31
  }

  predicate ValidDate(d: Date)
  {
    1 <= d.month <= 12 && 1 <= d.day <= DaysInMonth(d.year, d.month)
  }

  /** The calendar day after `d`. */
  function NextDate(d: Date): Date
    requires ValidDate(d)
  {
    if d.day < DaysInMonth(d.year, d.month) then Date(d.year, d.month, d.day + 1)
    else if d.month < 12 then Date(d.year, d.month + 1, 1)
    else Date(d.year + 1, 1, 1)
  }

  /** Number of days from 1970-01-01 to `d` (negative before it). */
  function DayNumber(d: Date): int
  {
    var y := if d.month <= 2 then d.year - 1 else d.year;
    var era := y / 400;
    var yoe := y - era * 400;
    var mp := if d.month > 2 then d.month - 3 else d.month + 9;
    var doy := (153 * mp + 2) / 5 + d.day - 1;
    var doe := yoe * 365 + yoe / 4 - yoe / 100 + doy;
    era * 146097 + doe - 719468
  }

  /** Days in the March-based year that begins in March of `y`. */
  function DaysBeforeMarch(y: int): int
  {
    var era := y / 400;
    var yoe := y - era * 400;
    era * 146097 + yoe * 365 + yoe / 4 - yoe / 100
  }

  /** Leap years repeat with period 400. */
  lemma LeapByRemainder(x: int)
    ensures IsLeapYear(x) <==> var m := x % 400; m % 4 == 0 && (m % 100 != 0 || m == 0)
  {
    var q := x / 400;
    var m := x % 400;
    assert x == 400 * q + m;
    assert x % 4 == m % 4 by { assert x == 4 * (100 * q) + m; }
    assert x % 100 == m % 100 by { assert x == 100 * (4 * q) + m; }
  }

  lemma DaysBeforeMarchByEra(y: int)
    ensures DaysBeforeMarch(y) == (y / 400) * 146097 + (y % 400) * 365 + (y % 400) / 4 - (y % 400) / 100
  {
    assert y - (y / 400) * 400 == y % 400;
  }

  /** Inside one 400-year era, a year is 365 days plus one on leap years. */
  lemma YearLengthInEra(r: int)
    requires 0 <= r < 399
    ensures 365 + ((r + 1) / 4 - r / 4) - ((r + 1) / 100 - r / 100)
         == if (r + 1) % 4 == 0 && (r + 1) % 100 != 0 then 366 else 365
  {
  }

  lemma MarchYearLength(y: int)
    ensures DaysBeforeMarch(y + 1) - DaysBeforeMarch(y) == if IsLeapYear(y + 1) then 366 else 365
  {
    var e := y / 400;
    var r := y % 400;
    DaysBeforeMarchByEra(y);
    DaysBeforeMarchByEra(y + 1);
    LeapByRemainder(y + 1);
    if r == 399 {
      assert (y + 1) / 400 == e + 1 && (y + 1) % 400 == 0 by { assert y + 1 == 400 * (e + 1); }
    } else {
      assert (y + 1) / 400 == e && (y + 1) % 400 == r + 1 by { assert y + 1 == 400 * e + (r + 1); }
      YearLengthInEra(r);
    }
  }

  /** Consecutive calendar days have consecutive day numbers. */
  lemma NextDateIsNextDay(d: Date)
    requires ValidDate(d)
    ensures ValidDate(NextDate(d))
    ensures DayNumber(NextDate(d)) == DayNumber(d) + 1
  {
    if d.day == DaysInMonth(d.year, d.month) && d.month == 2 {
      MarchYearLength(d.year - 1);
      assert DayNumber(d) == DaysBeforeMarch(d.year - 1) + 337 + d.day - 1 - 719468;
      assert DayNumber(NextDate(d)) == DaysBeforeMarch(d.year) - 719468;
    }
  }

  /** The UTC weekday of `d`, Sunday being 0 (as `getUTCDay` counts). */
  function Weekday(d: Date): (w: int)
    ensures 0 <= w < 7
  {
    (DayNumber(d) + 4) % 7
  }

  /** 1970-01-01 was a Thursday. */
  lemma EpochIsThursday()
    ensures DayNumber(Date(1970, 1, 1)) == 0 && Weekday(Date(1970, 1, 1)) == 4
  {
  }

  lemma SuccessorMod7(n: int)
    ensures (n + 1) % 7 == (n % 7 + 1) % 7
  {
    var q := n / 7;
    assert n == 7 * q + n % 7;
    if n % 7 == 6 {
      assert n + 1 == 7 * (q + 1);
    } else {
      assert n + 1 == 7 * q + (n % 7 + 1);
    }
  }

  /** Each day moves the weekday on by one, Saturday (6) wrapping to Sunday (0). */
  lemma WeekdayAdvances(d: Date)
    requires ValidDate(d)
    ensures Weekday(NextDate(d)) == (Weekday(d) + 1) % 7
  {
    NextDateIsNextDay(d);
    SuccessorMod7(DayNumber(d) + 4);
  }

  /** Two digits, zero-padded. */
  function Digits2(n: nat): (s: string)
    requires n < 100
    ensures |s| == 2
  {
    [DigitChar(n / 10), DigitChar(n % 10)]
  }

  /** Four digits, zero-padded. */
  function Digits4(n: nat): (s: string)
    requires n < 10000
    ensures |s| == 4
  {
    Digits2(n / 100) + Digits2(n % 100)
  }

  lemma Digits2RoundTrip(n: nat)
    requires n < 100
    ensures AllDigits(Digits2(n)) && DecimalValue(Digits2(n)) == n
  {
    var s := Digits2(n);
    assert s == [] + [s[0]] + [s[1]];
    DecimalValueSnoc([], s[0]);
    DecimalValueSnoc([s[0]], s[1]);
  }

  lemma DecimalValueOfTwo(s: string)
    requires |s| == 2 && AllDigits(s)
    ensures DecimalValue(s) == 10 * DigitValue(s[0]) + DigitValue(s[1])
    ensures DecimalValue(s) < 100 && Digits2(DecimalValue(s)) == s
  {
    assert s == [] + [s[0]] + [s[1]];
    DecimalValueSnoc([], s[0]);
    DecimalValueSnoc([s[0]], s[1]);
    var v := DecimalValue(s);
    assert v / 10 == DigitValue(s[0]) && v % 10 == DigitValue(s[1]);
    assert DigitChar(DigitValue(s[0])) == s[0];
    assert DigitChar(DigitValue(s[1])) == s[1];
  }

  lemma {:induction false} DecimalValueAppend(a: string, b: string)
    requires AllDigits(a) && |b| == 2 && AllDigits(b)
    ensures AllDigits(a + b) && DecimalValue(a + b) == 100 * DecimalValue(a) + DecimalValue(b)
  {
    DecimalValueOfTwo(b);
    DecimalValueSnoc(a, b[0]);
    DecimalValueSnoc(a + [b[0]], b[1]);
    assert a + b == a + [b[0]] + [b[1]];
  }

  lemma Digits4RoundTrip(n: nat)
    requires n < 10000
    ensures AllDigits(Digits4(n)) && DecimalValue(Digits4(n)) == n
  {
    Digits2RoundTrip(n / 100);
    Digits2RoundTrip(n % 100);
    DecimalValueAppend(Digits2(n / 100), Digits2(n % 100));
  }

  lemma DecimalValueOfFour(s: string)
    requires |s| == 4 && AllDigits(s)
    ensures DecimalValue(s) < 10000 && Digits4(DecimalValue(s)) == s
  {
    assert s == s[..2] + s[2..];
    DecimalValueOfTwo(s[..2]);
    DecimalValueOfTwo(s[2..]);
    DecimalValueAppend(s[..2], s[2..]);
    var v := DecimalValue(s);
    assert v / 100 == DecimalValue(s[..2]) && v % 100 == DecimalValue(s[2..]);
  }

  /**
   * A date-only string "YYYY-MM-DD" naming a real calendar day; None stands
   * for `NaN`. Day numbers past the end of the month are refused here.
   */
  function ParseDate(s: string): Option<Date>
  {
    if |s| == 10 && s[4] == '-' && s[7] == '-'
       && AllDigits(s[..4]) && AllDigits(s[5..7]) && AllDigits(s[8..])
    then
      var d := Date(DecimalValue(s[..4]), DecimalValue(s[5..7]), DecimalValue(s[8..]));
      if ValidDate(d) then Some(d) else None
    else None
  }

  function FormatDate(d: Date): (s: string)
    requires 0 <= d.year < 10000 && ValidDate(d)
    ensures |s| == 10
  {
    Digits4(d.year) + "-" + Digits2(d.month) + "-" + Digits2(d.day)
  }

  /** Every valid date with a four-digit year is read back from its "YYYY-MM-DD" form. */
  lemma ParseFormatDate(d: Date)
    requires 0 <= d.year < 10000 && ValidDate(d)
    ensures ParseDate(FormatDate(d)) == Some(d)
  {
    var s := FormatDate(d);
    assert s[..4] == Digits4(d.year);
    assert s[5..7] == Digits2(d.month);
    assert s[8..] == Digits2(d.day);
    Digits4RoundTrip(d.year);
    Digits2RoundTrip(d.month);
    Digits2RoundTrip(d.day);
  }

  /** The only strings that parse are the "YYYY-MM-DD" forms of valid dates. */
  lemma ParsedDateIsFormatted(s: string)
    requires ParseDate(s).Some?
    ensures var d := ParseDate(s).value; 0 <= d.year < 10000 && ValidDate(d) && s == FormatDate(d)
  {
    var d := ParseDate(s).value;
    DecimalValueOfFour(s[..4]);
    DecimalValueOfTwo(s[5..7]);
    DecimalValueOfTwo(s[8..]);
    assert s == s[..4] + "-" + s[5..7] + "-" + s[8..];
  }

  datatype Time = Time(hour: int, minute: int, second: int)

  predicate ValidTime(t: Time)
  {
    0 <= t.hour <= 23 && 0 <= t.minute <= 59 && 0 <= t.second <= 59
  }

  /** The hour part `(0[0-9]|1[0-9]|2[0-3])`. */
  predicate HourDigits(a: char, b: char)
  {
    ((a == '0' || a == '1') && IsDigit(b)) || (a == '2' && '0' <= b <= '3')
  }

  /** A minute or second part `[0-5][0-9]`. */
  predicate SixtyDigits(a: char, b: char)
  {
    '0' <= a <= '5' && IsDigit(b)
  }

  /** The pattern `^(0[0-9]|1[0-9]|2[0-3]):[0-5][0-9](:[0-5][0-9])?$`. */
  predicate MatchesTimePattern(s: string)
  {
    && (|s| == 5 || |s| == 8)
    && HourDigits(s[0], s[1])
    && s[2] == ':'
    && SixtyDigits(s[3], s[4])
    && (|s| == 8 ==> s[5] == ':' && SixtyDigits(s[6], s[7]))
  }

  /** The time a matching string denotes; a missing seconds part is 0. */
  function ParseTime(s: string): Option<Time>
  {
    if MatchesTimePattern(s) then
      Some(Time(DecimalValue(s[..2]), DecimalValue(s[3..5]), if |s| == 8 then DecimalValue(s[6..]) else 0))
    else None
  }

  /** "HH:MM", or "HH:MM:SS" when `withSeconds`. */
  function FormatTime(t: Time, withSeconds: bool): (s: string)
    requires ValidTime(t)
  {
    Digits2(t.hour) + ":" + Digits2(t.minute) + (if withSeconds then ":" + Digits2(t.second) else "")
  }

  /** Every valid time, with or without seconds, matches the pattern and reads back. */
  lemma FormattedTimeMatches(t: Time, withSeconds: bool)
    requires ValidTime(t) && (withSeconds || t.second == 0)
    ensures MatchesTimePattern(FormatTime(t, withSeconds))
    ensures ParseTime(FormatTime(t, withSeconds)) == Some(t)
  {
    var s := FormatTime(t, withSeconds);
    assert s[..2] == Digits2(t.hour);
    assert s[3..5] == Digits2(t.minute);
    Digits2RoundTrip(t.hour);
    Digits2RoundTrip(t.minute);
    if withSeconds {
      assert s[6..] == Digits2(t.second);
      Digits2RoundTrip(t.second);
    }
  }

  /** Every matching string is the "HH:MM" or "HH:MM:SS" form of a valid time. */
  lemma MatchingTimeIsFormatted(s: string)
    requires MatchesTimePattern(s)
    ensures var t := ParseTime(s).value;
      ValidTime(t) && (|s| == 8 || t.second == 0) && s == FormatTime(t, |s| == 8)
  {
    var t := ParseTime(s).value;
    DecimalValueOfTwo(s[..2]);
    DecimalValueOfTwo(s[3..5]);
    if |s| == 8 {
      DecimalValueOfTwo(s[6..]);
      assert s == s[..2] + ":" + s[3..5] + (":" + s[6..]);
    } else {
      assert s == s[..2] + ":" + s[3..5] + "";
    }
  }

  /** `new Date(date + " " + time).valueOf()`: milliseconds on the local wall-clock timeline. */
  function InstantMs(d: Date, t: Time): int
  {
    (DayNumber(d) * 86400 + t.hour * 3600 + t.minute * 60 + t.second) * 1000
  }
}
