/** The query timestamps of the trajectory endpoint: the fixed textual
    pattern `%Y%m%dZ%H%M%S` (for example `20240101Z013000`), parsed into a
    calendar date-time and counted as whole seconds on Python's proleptic
    Gregorian ordinal scale (day 1 is 0001-01-01). */
module Timestamp {
  import opened Wrappers
  import opened Digits

  datatype DateTime = DateTime(year: nat, month: nat, day: nat, hour: nat, minute: nat, second: nat)

  predicate IsLeap(year: nat) {
    year % 4 == 0 && (year % 100 != 0 || year % 400 == 0)
  }

  function DaysInYear(year: nat): nat {
    if IsLeap(year) then 366 else 365
  }

  function DaysInMonth(year: nat, month: nat): nat
    requires 1 <= month <= 12
  {
    match month
    case 2 => if IsLeap(year) then 29 else 28
    case 4 | 6 | 9 | 11 => 30
    case _ => 31
  }

  /** Days in the years before `year`, as Python's `_days_before_year`. */
  function DaysBeforeYear(year: nat): int
    requires year >= 1
  {
    var y := year - 1;
    y * 365 + y / 4 - y / 100 + y / 400
  }

  /** Days in the months of `year` before `month`. */
  function DaysBeforeMonth(year: nat, month: nat): nat
    requires 1 <= month <= 12
  {
    var common :=
      match month
      case 1 => 0   case 2 => 31   case 3 => 59   case 4 => 90
      case 5 => 120 case 6 => 151  case 7 => 181  case 8 => 212
      case 9 => 243 case 10 => 273 case 11 => 304 case _ => 334;
    common + (if month > 2 && IsLeap(year) then 1 else 0)
  }

  /** The fields a `datetime` accepts; year 0 and 10000 are outside it. */
  predicate Valid(dt: DateTime) {
    && 1 <= dt.year <= 9999
    && 1 <= dt.month <= 12
    && 1 <= dt.day <= DaysInMonth(dt.year, dt.month)
    && dt.hour < 24 && dt.minute < 60 && dt.second < 60
  }

  function Ordinal(dt: DateTime): int
    requires Valid(dt)
  {
    DaysBeforeYear(dt.year) + DaysBeforeMonth(dt.year, dt.month) + dt.day
  }

  function TimeOfDay(dt: DateTime): nat {
    dt.hour * 3600 + dt.minute * 60 + dt.second
  }

  /** The instant a date-time denotes, in whole seconds. */
  function Seconds(dt: DateTime): int
    requires Valid(dt)
  {
    Ordinal(dt) * 86400 + TimeOfDay(dt)
  }

  /** The earliest and latest instants a `datetime` can hold (to the second). */
  const MinSeconds: int := 86400
  const MaxSeconds: int := 3652059 * 86400 + 86399

  predicate InDatetimeRange(t: int) {
    MinSeconds <= t <= MaxSeconds
  }

  /** The literal between date and time; `strptime` matches it ignoring case. */
  predicate IsSeparator(c: char) {
    c == 'Z' || c == 'z'
  }

  /** `datetime.strptime(s, '%Y%m%dZ%H%M%S')`, restricted to two-digit
      (four for the year) fields; `None` where it raises. */
  function Parse(s: string): (r: Option<DateTime>)
    ensures r.Some? ==> Valid(r.value)
  {
    if |s| == 15 && IsSeparator(s[8])
       && AllDigits(s[0..4]) && AllDigits(s[4..6]) && AllDigits(s[6..8])
       && AllDigits(s[9..11]) && AllDigits(s[11..13]) && AllDigits(s[13..15])
    then
      var dt := DateTime(DigitsValue(s[0..4]), DigitsValue(s[4..6]), DigitsValue(s[6..8]),
                         DigitsValue(s[9..11]), DigitsValue(s[11..13]), DigitsValue(s[13..15]));
      if Valid(dt) then Some(dt) else None
    else None
  }

  /** The canonical rendering `YYYYMMDDZHHMMSS` of a valid date-time. */
  function Format(dt: DateTime): (s: string)
    requires Valid(dt)
    ensures |s| == 15
  {
    Pad(dt.year, 4) + Pad(dt.month, 2) + Pad(dt.day, 2) + "Z"
      + Pad(dt.hour, 2) + Pad(dt.minute, 2) + Pad(dt.second, 2)
  }

  /** A timestamp query parameter read as an instant. */
  function ParseTimestamp(s: string): (r: Option<int>)
    ensures r.Some? ==> InDatetimeRange(r.value)
  {
    match Parse(s)
    case Some(dt) => SecondsInRange(dt); Some(Seconds(dt))
    case None => None
  }

  /** Every valid date-time is read back from its rendering. */
  lemma ParseFormat(dt: DateTime)
    requires Valid(dt)
    ensures Parse(Format(dt)) == Some(dt)
  {
    var s := Format(dt);
    assert s[0..4] == Pad(dt.year, 4);
    assert s[4..6] == Pad(dt.month, 2);
    assert s[6..8] == Pad(dt.day, 2);
    assert s[8] == 'Z';
    assert s[9..11] == Pad(dt.hour, 2);
    assert s[11..13] == Pad(dt.minute, 2);
    assert s[13..15] == Pad(dt.second, 2);
  }

  /** Whatever is accepted is the rendering of what it was read as, up to
      the case of the separator: the parser accepts nothing else. */
  lemma FormatParse(s: string)
    requires Parse(s).Some?
    ensures Format(Parse(s).value) == s[..8] + "Z" + s[9..]
  {
    var dt := Parse(s).value;
    assert dt.year == DigitsValue(s[0..4]) && dt.month == DigitsValue(s[4..6]) && dt.day == DigitsValue(s[6..8]);
    assert dt.hour == DigitsValue(s[9..11]) && dt.minute == DigitsValue(s[11..13]) && dt.second == DigitsValue(s[13..15]);
    PadOfValue(s[0..4]);
    PadOfValue(s[4..6]);
    PadOfValue(s[6..8]);
    PadOfValue(s[9..11]);
    PadOfValue(s[11..13]);
    PadOfValue(s[13..15]);
    Reassemble(s);
  }

  lemma Reassemble(s: string)
    requires |s| == 15
    ensures s[..8] + "Z" + s[9..] == s[0..4] + s[4..6] + s[6..8] + "Z" + s[9..11] + s[11..13] + s[13..15]
  {
    assert s[..8] == s[0..4] + s[4..6] + s[6..8];
    assert s[9..] == s[9..11] + s[11..13] + s[13..15];
  }

  /** Lexicographic order on (year, month, day, hour, minute, second). */
  predicate Before(a: DateTime, b: DateTime) {
    || a.year < b.year
    || (a.year == b.year && a.month < b.month)
    || (a.year == b.year && a.month == b.month && a.day < b.day)
    || (a.year == b.year && a.month == b.month && a.day == b.day && TimeOfDay(a) < TimeOfDay(b))
  }

  lemma DaysBeforeYearStep(year: nat)
    requires year >= 1
    ensures DaysBeforeYear(year + 1) == DaysBeforeYear(year) + DaysInYear(year)
  {
    Crosses4(year);
    Crosses100(year);
    Crosses400(year);
    MultiplesNest(year);
    var leap := if IsLeap(year) then 1 else 0;
    assert (year / 4 - (year - 1) / 4) - (year / 100 - (year - 1) / 100) + (year / 400 - (year - 1) / 400) == leap;
  }

  /** A multiple of 400 is a multiple of 100, which is a multiple of 4. */
  lemma MultiplesNest(year: nat)
    ensures year % 400 == 0 ==> year % 100 == 0
    ensures year % 100 == 0 ==> year % 4 == 0
  {
    if year % 400 == 0 {
      var k := year / 400;
      assert year == 100 * (4 * k);
    }
    if year % 100 == 0 {
      var k := year / 100;
      assert year == 4 * (25 * k);
    }
  }

  /** Stepping a year forward crosses a multiple of 4, 100 or 400 exactly when the new year is one. */
  lemma Crosses4(year: nat)
    requires year >= 1
    ensures year / 4 - (year - 1) / 4 == (if year % 4 == 0 then 1 else 0)
  {
  }

  lemma Crosses100(year: nat)
    requires year >= 1
    ensures year / 100 - (year - 1) / 100 == (if year % 100 == 0 then 1 else 0)
  {
  }

  lemma Crosses400(year: nat)
    requires year >= 1
    ensures year / 400 - (year - 1) / 400 == (if year % 400 == 0 then 1 else 0)
  {
  }

  lemma {:induction false} DaysBeforeYearGrows(y1: nat, y2: nat)
    requires 1 <= y1 < y2
    ensures DaysBeforeYear(y1) + DaysInYear(y1) <= DaysBeforeYear(y2)
    decreases y2 - y1
  {
    DaysBeforeYearStep(y1);
    if y1 + 1 < y2 {
      DaysBeforeYearGrows(y1 + 1, y2);
    }
  }

  lemma MonthWithinYear(year: nat, m1: nat, m2: nat)
    requires 1 <= m1 <= 12 && 1 <= m2 <= 12
    ensures DaysBeforeMonth(year, m1) + DaysInMonth(year, m1) <= DaysInYear(year)
    ensures m1 < m2 ==> DaysBeforeMonth(year, m1) + DaysInMonth(year, m1) <= DaysBeforeMonth(year, m2)
  {
  }

  /** A strictly earlier calendar day has a strictly smaller ordinal. */
  lemma OrdinalGrows(a: DateTime, b: DateTime)
    requires Valid(a) && Valid(b)
    requires Before(a, b)
    requires (a.year, a.month, a.day) != (b.year, b.month, b.day)
    ensures Ordinal(a) < Ordinal(b)
  {
    MonthWithinYear(a.year, a.month, b.month);
    if a.year < b.year {
      DaysBeforeYearGrows(a.year, b.year);
    }
  }

  /** Seconds preserve the calendar order strictly. */
  lemma SecondsGrow(a: DateTime, b: DateTime)
    requires Valid(a) && Valid(b)
    requires Before(a, b)
    ensures Seconds(a) < Seconds(b)
  {
    if (a.year, a.month, a.day) != (b.year, b.month, b.day) {
      OrdinalGrows(a, b);
      assert TimeOfDay(a) < 86400;
      assert (Ordinal(a) + 1) * 86400 <= Ordinal(b) * 86400;
    }
  }

  /** Comparing instants is comparing date-times: the order the store's
      timestamp column uses is the order on `Seconds`, and distinct
      date-times never share an instant. */
  lemma SecondsOrderIff(a: DateTime, b: DateTime)
    requires Valid(a) && Valid(b)
    ensures Before(a, b) <==> Seconds(a) < Seconds(b)
    ensures Seconds(a) == Seconds(b) <==> a == b
  {
    if Before(a, b) {
      SecondsGrow(a, b);
    } else if Before(b, a) {
      SecondsGrow(b, a);
    } else {
      assert TimeOfDay(a) == TimeOfDay(b);
      assert a == b;
    }
  }

  /** Every valid date-time lies between the first and last instant a
      `datetime` can hold. */
  lemma SecondsInRange(dt: DateTime)
    requires Valid(dt)
    ensures InDatetimeRange(Seconds(dt))
  {
    assert DaysBeforeYear(dt.year) >= 0;
    var last := LastDateTime();
    if dt != last {
      assert Before(dt, last);
      SecondsGrow(dt, last);
    }
  }

  /** 9999-12-31 23:59:59, the last instant, with its number of seconds. */
  function LastDateTime(): (last: DateTime)
    ensures Valid(last) && Seconds(last) == MaxSeconds
  {
    var last := DateTime(9999, 12, 31, 23, 59, 59);
    assert DaysBeforeYear(last.year) == 3651694;
    last
  }

  /** One hour later on the same day is 3600 seconds later. */
  lemma HourLater(dt: DateTime)
    requires Valid(dt) && dt.hour < 23
    ensures Valid(dt.(hour := dt.hour + 1))
    ensures Seconds(dt.(hour := dt.hour + 1)) == Seconds(dt) + 3600
  {
  }

  /** Two timestamps naming consecutive hours of one day are read as
      instants one hour apart. */
  lemma OneHourApart(s1: string, s2: string)
    requires Parse(s1).Some? && Parse(s1).value.hour < 23
    requires Parse(s2) == Some(Parse(s1).value.(hour := Parse(s1).value.hour + 1))
    ensures ParseTimestamp(s1).Some?
    ensures ParseTimestamp(s2) == Some(ParseTimestamp(s1).value + 3600)
  {
    HourLater(Parse(s1).value);
  }

  /** The pair `20240101Z000000` and `20240101Z010000` is read as a window
      of exactly one hour. The two strings are parameters fixed by the
      precondition rather than literals in the conclusion: with literal
      arguments the solver unfolds the parser on constant strings and the
      proof becomes far more expensive. */
  lemma ExampleTimestamps(s1: string, s2: string)
    requires s1 == "20240101Z000000" && s2 == "20240101Z010000"
    ensures ParseTimestamp(s1).Some?
    ensures ParseTimestamp(s2) == Some(ParseTimestamp(s1).value + 3600)
  {
    ExampleFields();
    assert s1[0..4] == "2024" && s1[4..6] == "01" && s1[6..8] == "01" && s1[8] == 'Z';
    assert s1[9..11] == "00" && s1[11..13] == "00" && s1[13..15] == "00";
    assert Parse(s1) == Some(DateTime(2024, 1, 1, 0, 0, 0));
    assert s2[0..4] == "2024" && s2[4..6] == "01" && s2[6..8] == "01" && s2[8] == 'Z';
    assert s2[9..11] == "01" && s2[11..13] == "00" && s2[13..15] == "00";
    assert Parse(s2) == Some(DateTime(2024, 1, 1, 1, 0, 0));
    OneHourApart(s1, s2);
  }

  lemma ExampleFields()
    ensures AllDigits("2024") && DigitsValue("2024") == 2024
    ensures AllDigits("01") && DigitsValue("01") == 1
    ensures AllDigits("00") && DigitsValue("00") == 0
  {
    assert "2024"[..3] == "202";
    assert "202"[..2] == "20";
    assert "20"[..1] == "2";
    assert "01"[..1] == "0";
    assert "00"[..1] == "0";
    assert "0"[..0] == "";
    assert "2"[..0] == "";
  }
}
