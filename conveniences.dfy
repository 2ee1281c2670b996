/**
  The civil-time conveniences around the propagator: `jday_datetime`, which
  turns a UTC datetime into a Julian day split into a whole-and-a-half part
  and a fraction of a day, and `sat_epoch_datetime`, which turns a
  satellite's two-digit epoch year and day of year back into a datetime.
 */
module Conveniences {
  import opened Wrappers
  import opened DateTimes

  /** Python `int(x)` of a float: truncation toward zero. */
  function Trunc(x: real): (n: int)
    ensures x >= 0.0 ==> n == x.Floor
    ensures n as real <= x < n as real + 1.0 || x < 0.0
    ensures x < 0.0 ==> n as real - 1.0 < x <= n as real
  {
    if x >= 0.0 then x.Floor else -((-x).Floor)
  }

  /** Truncating a quotient of naturals is integer division. */
  lemma TruncQuotient(a: int, b: int)
    requires a >= 0 && b > 0
    ensures Trunc(a as real / b as real) == a / b
  {
    var q, r := a / b, a % b;
    assert a == q * b + r;
    assert a as real / b as real == q as real + r as real / b as real;
    assert 0.0 <= r as real / b as real < 1.0;
  }

  /** The day part of `jday_datetime`: Vallado's Gregorian-to-Julian-day formula,
      exact for 1901 through 2099. */
  function JulianDay(year: int, month: int, day: int): real {
    367.0 * year as real
    - Trunc((7 * (year + Trunc((month + 9) as real / 12.0))) as real * 0.25) as real
    + Trunc((275 * month) as real / 9.0) as real
    + day as real + 1721013.5
  }

  /** The same formula on integers, counting from noon: `JulianDay` is this plus one half. */
  function DayNumber(year: int, month: int, day: int): int {
    367 * year - (7 * (year + (month + 9) / 12)) / 4 + (275 * month) / 9 + day + 1721013
  }

  lemma JulianDayIsDayNumber(year: int, month: int, day: int)
    requires year >= 0 && month >= 1
    ensures JulianDay(year, month, day) == DayNumber(year, month, day) as real + 0.5
  {
    TruncQuotient(month + 9, 12);
    var k := (month + 9) / 12;
    assert (7 * (year + k)) as real * 0.25 == (7 * (year + k)) as real / 4.0;
    TruncQuotient(7 * (year + k), 4);
    TruncQuotient(275 * month, 9);
  }

  /** The fraction of a day that `jday_datetime` returns beside the Julian day. */
  function DayFraction(hour: int, minute: int, second: int, microsecond: int): real {
    ((second as real + microsecond as real / 1000000.0) + minute as real * 60.0 + hour as real * 3600.0)
    / 86400.0
  }

  /** `jday_datetime(dt)`: the Julian day of the civil date, a whole number plus one half,
      and the time of day as a fraction in [0, 1) that is zero exactly at midnight. */
  function JDayDatetime(t: DateTime): (r: (real, real))
    requires Valid(t)
    ensures (r.0 - 0.5).Floor as real == r.0 - 0.5
    ensures 0.0 <= r.1 < 1.0
    ensures r.1 == 0.0 <==> (t.hour == 0 && t.minute == 0 && t.second == 0 && t.microsecond == 0)
  {
    JulianDayIsDayNumber(t.year, t.month, t.day);
    (JulianDay(t.year, t.month, t.day), DayFraction(t.hour, t.minute, t.second, t.microsecond))
  }

  /** A civil time as one Julian date: day plus fraction. */
  function JulianInstant(t: DateTime): real
    requires Valid(t)
  {
    JDayDatetime(t).0 + JDayDatetime(t).1
  }

  /** The first instant of 2000 is Julian day 2451544.5. */
  lemma JDayOfJanuaryFirst2000()
    ensures JDayDatetime(DateTime(2000, 1, 1, 0, 0, 0, 0)) == (2451544.5, 0.0)
  {
    JulianDayIsDayNumber(2000, 1, 1);
  }

  /** Seven consecutive years move the day count by 2 * 7/4 rounded: the step from
      one year's end of February to March 1 depends only on whether 4 divides it. */
  lemma YearTermStep(year: int)
    requires year >= 0
    ensures (7 * (year + 1)) / 4 - (7 * year) / 4 == (if year % 4 == 0 then 1 else 2)
  {
    var q, r := year / 4, year % 4;
    assert 7 * year == 28 * q + 7 * r;
    assert (7 * year) / 4 == 7 * q + (7 * r) / 4;
    assert 7 * (year + 1) == 28 * q + 7 * r + 7;
    assert (7 * (year + 1)) / 4 == 7 * q + (7 * r + 7) / 4;
  }

  /** In 1901..2099 the Gregorian leap years are exactly the years divisible by 4. */
  lemma LeapYearsOfTheRange(year: int)
    requires 1901 <= year <= 2099
    ensures IsLeapYear(year) <==> year % 4 == 0
  {
  }

  /** Month m starts (275 * m) / 9 - 30 days into a year that had a 30-day February. */
  lemma MonthStarts(m: int)
    requires 1 <= m <= 11
    ensures m != 2 ==> (275 * (m + 1)) / 9 - (275 * m) / 9 == DaysInMonth(2001, m)
    ensures m == 2 ==> (275 * (m + 1)) / 9 - (275 * m) / 9 == 30
  {
    if m == 1 { } else if m == 2 { } else if m == 3 { } else if m == 4 { }
    else if m == 5 { } else if m == 6 { } else if m == 7 { } else if m == 8 { }
    else if m == 9 { } else if m == 10 { } else { }
  }

  /** The integer day count of consecutive calendar days in 1901..2099 differs by one. */
  lemma DayNumberNextDay(d: Date)
    requires IsCalendarDay(d) && 1901 <= d.year <= 2099
    ensures DayNumber(NextDay(d).year, NextDay(d).month, NextDay(d).day) == DayNumber(d.year, d.month, d.day) + 1
  {
    var y, m := d.year, d.month;
    if d.day < DaysInMonth(y, m) {
    } else if m == 2 {
      DayNumberEndOfFebruary(y, d.day);
    } else if m < 12 {
      DayNumberEndOfMonth(y, m);
    } else {
      DayNumberEndOfYear(y);
    }
  }

  lemma DayNumberEndOfFebruary(y: int, day: int)
    requires 1901 <= y <= 2099 && day == DaysInMonth(y, 2)
    ensures DayNumber(y, 3, 1) == DayNumber(y, 2, day) + 1
  {
    YearTermStep(y);
    LeapYearsOfTheRange(y);
    assert DayNumber(y, 3, 1) == 367 * y - (7 * (y + 1)) / 4 + 91 + 1 + 1721013;
    assert DayNumber(y, 2, day) == 367 * y - (7 * y) / 4 + 61 + day + 1721013;
  }

  lemma DayNumberEndOfMonth(y: int, m: int)
    requires 1 <= m < 12 && m != 2
    ensures DayNumber(y, m + 1, 1) == DayNumber(y, m, DaysInMonth(y, m)) + 1
  {
    MonthStarts(m);
    assert (m + 1 + 9) / 12 == (m + 9) / 12;
    assert DaysInMonth(y, m) == DaysInMonth(2001, m);
  }

  lemma DayNumberEndOfYear(y: int)
    requires y >= 0
    ensures DayNumber(y + 1, 1, 1) == DayNumber(y, 12, 31) + 1
  {
    YearTermStep(y);
    assert DayNumber(y + 1, 1, 1) - DayNumber(y, 12, 31)
        == 367 - (7 * (y + 1)) / 4 + (7 * y + 7) / 4 + 30 - 366 + 1 - 31;
  }

  /** Consecutive calendar days have Julian days exactly one apart, across month and
      year ends, for days in 1901 through 2099. */
  lemma JulianDayNextDay(d: Date)
    requires IsCalendarDay(d) && 1901 <= d.year <= 2099
    ensures JulianDay(NextDay(d).year, NextDay(d).month, NextDay(d).day)
         == JulianDay(d.year, d.month, d.day) + 1.0
  {
    var n := NextDay(d);
    JulianDayIsDayNumber(d.year, d.month, d.day);
    JulianDayIsDayNumber(n.year, n.month, n.day);
    DayNumberNextDay(d);
  }

  lemma JulianDayPrevDay(d: Date)
    requires IsCalendarDay(d) && 1901 <= PrevDay(d).year && d.year <= 2099
    ensures JulianDay(PrevDay(d).year, PrevDay(d).month, PrevDay(d).day)
         == JulianDay(d.year, d.month, d.day) - 1.0
  {
    NextPrevInverse(d);
    JulianDayNextDay(PrevDay(d));
  }

  /** Moving a date by k days inside 1901..2099 moves its Julian day by exactly k. */
  lemma {:induction false} JulianDayShift(d: Date, k: int)
    requires ValidDate(d) && ShiftDays(d, k).Some?
    requires 1901 <= d.year <= 2099
    requires 1901 <= ShiftDays(d, k).value.year <= 2099
    ensures var e := ShiftDays(d, k).value;
      JulianDay(e.year, e.month, e.day) == JulianDay(d.year, d.month, d.day) + k as real
    decreases if k >= 0 then k else -k
  {
    if k > 0 {
      var n := NextDay(d);
      ShiftDaysYear(n, k - 1);
      JulianDayNextDay(d);
      JulianDayShift(n, k - 1);
    } else if k < 0 {
      var p := PrevDay(d);
      ShiftDaysYear(p, k + 1);
      JulianDayPrevDay(d);
      JulianDayShift(p, k + 1);
    }
  }

  /** Adding s seconds to a datetime inside 1901..2099 adds s/86400 to its Julian date. */
  lemma JulianInstantAddSeconds(t: DateTime, s: int)
    requires Valid(t) && AddSeconds(t, s).Ok?
    requires 1901 <= t.year <= 2099 && 1901 <= AddSeconds(t, s).value.year <= 2099
    ensures JulianInstant(AddSeconds(t, s).value) == JulianInstant(t) + s as real / 86400.0
  {
    var u := AddSeconds(t, s).value;
    var total := SecondOfDay(t) + s;
    var days := total / SecondsPerDay;
    var rest := total % SecondsPerDay;
    JulianDayShift(DateOf(t), days);
    assert JulianDay(u.year, u.month, u.day) == JulianDay(t.year, t.month, t.day) + days as real;
    assert SecondOfDay(u) == rest;
    assert total == days * SecondsPerDay + rest;
    assert DayFraction(u.hour, u.minute, u.second, u.microsecond)
        == (rest as real + u.microsecond as real / 1000000.0) / 86400.0;
    assert DayFraction(t.hour, t.minute, t.second, t.microsecond)
        == (SecondOfDay(t) as real + t.microsecond as real / 1000000.0) / 86400.0;
  }

  // ---------------------------------------------------------------- satellite epoch

  /** What `days2mdhms(year, days)` returns: month, day, hour, minute and seconds. */
  datatype MonthDayTime = MonthDayTime(month: int, day: int, hour: int, minute: int, second: real)

  /** The year reading of a two-digit epoch year: below 57 is 20xx, otherwise 19xx. */
  function PivotYear(epochyr: int): (year: int)
    ensures 0 <= epochyr < 100 ==> 1957 <= year <= 2056 && year % 100 == epochyr
  {
    epochyr + 1900 + (if epochyr < 57 then 100 else 0)
  }

  /** Reducing a year of 1957..2056 to two digits and pivoting it back gives the year. */
  lemma PivotYearOfTwoDigits(year: int)
    requires 1957 <= year <= 2056
    ensures PivotYear(year % 100) == year
  {
  }

  /** `divmod(second, 1.0)` then `int(fraction * 1e6)`: whole seconds and the
      microseconds below them, never a full second. */
  function SplitSeconds(second: real): (r: (int, int))
    ensures 0 <= r.1 < 1000000
    ensures r.0 as real + r.1 as real / 1000000.0 <= second < r.0 as real + (r.1 + 1) as real / 1000000.0
  {
    var whole := second.Floor;
    var fraction := second - whole as real;
    (whole, Trunc(fraction * 1000000.0))
  }

  /** The December 32 rollover: a day past December 31 becomes that many days into
      January of the next year. It names the same day, leaves no December day past 31,
      and changes nothing else. */
  function RollOver(year: int, month: int, day: int): (r: (int, int, int))
    ensures DayNumber(r.0, r.1, r.2) == DayNumber(year, month, day)
    ensures !(r.1 == 12 && r.2 > 31)
    ensures r != (year, month, day) ==> month == 12 && day > 31
  {
    if month == 12 && day > 31 then (year + 1, 1, day - 31) else (year, month, day)
  }

  /** `sat_epoch_datetime(sat)`, with `days2mdhms` supplied by the caller. The result is
      the datetime of the pivoted year, rolled over past December 31, with seconds split
      into microseconds; the datetime constructor's ValueError is an `Err`. */
  function SatEpochDatetime(epochyr: int, epochdays: real,
                            days2mdhms: (int, real) -> MonthDayTime): (r: Result<DateTime, string>)
    ensures r.Ok? ==> Valid(r.value)
    ensures r.Ok? && 0 <= epochyr < 100 ==> 1957 <= r.value.year <= 2057
  {
    var year := PivotYear(epochyr);
    var md := days2mdhms(year, epochdays);
    var (y, m, d) := RollOver(year, md.month, md.day);
    var (sec, micro) := SplitSeconds(md.second);
    Make(y, m, d, md.hour, md.minute, sec, micro)
  }

  /** The epoch datetime is the day `days2mdhms` names, whether or not it was rolled
      over: its Julian day is that of the un-rolled year, month and day. Its hour and
      minute are those of `days2mdhms`, and its seconds and microseconds truncate that
      seconds value to the microsecond. */
  lemma SatEpochDatetimeDay(epochyr: int, epochdays: real, days2mdhms: (int, real) -> MonthDayTime)
    requires SatEpochDatetime(epochyr, epochdays, days2mdhms).Ok?
    ensures var t := SatEpochDatetime(epochyr, epochdays, days2mdhms).value;
      var md := days2mdhms(PivotYear(epochyr), epochdays);
      JulianDay(t.year, t.month, t.day) == JulianDay(PivotYear(epochyr), md.month, md.day)
      && t.hour == md.hour && t.minute == md.minute
      && t.second as real + t.microsecond as real / 1000000.0 <= md.second
      && md.second < t.second as real + (t.microsecond + 1) as real / 1000000.0
  {
    var t := SatEpochDatetime(epochyr, epochdays, days2mdhms).value;
    var year := PivotYear(epochyr);
    var md := days2mdhms(year, epochdays);
    var rolled := RollOver(year, md.month, md.day);
    assert (t.year, t.month, t.day) == rolled;
    JulianDayIsDayNumber(t.year, t.month, t.day);
    JulianDayIsDayNumber(year, md.month, md.day);
  }
}
