/**
  The part of Python's `datetime` that the core leans on: which civil times a
  `datetime` can hold (its constructor raises ValueError otherwise) and
  `datetime + timedelta(seconds=n)` for a whole number of seconds (which raises
  OverflowError when the result leaves years 1..9999), and `date.toordinal()`, the
  day count that describes that addition for every year.
 */
module DateTimes {
  import opened Wrappers

  /** A naive civil time; the source's datetimes all carry the UTC zone. */
  datatype DateTime = DateTime(year: int, month: int, day: int,
                               hour: int, minute: int, second: int, microsecond: int)

  datatype Date = Date(year: int, month: int, day: int)

  const MinYear: int := 1
  const MaxYear: int := 9999
  const SecondsPerDay: int := 86400

  /** The Gregorian leap-year rule. */
  predicate IsLeapYear(y: int) {
    y % 4 == 0 && (y % 100 != 0 || y % 400 == 0)
  }

  function DaysInMonth(y: int, m: int): (n: int)
    requires 1 <= m <= 12
    ensures 28 <= n <= 31
    ensures n == 29 <==> (m == 2 && IsLeapYear(y))
  {
    if m == 2 then (if IsLeapYear(y) then 29 else 28)
    else if m == 4 || m == 6 || m == 9 || m == 11 then 30
    else 31
  }

  /** A calendar day, ignoring the year range. */
  predicate IsCalendarDay(d: Date) {
    1 <= d.month <= 12 && 1 <= d.day <= DaysInMonth(d.year, d.month)
  }

  predicate ValidDate(d: Date) {
    MinYear <= d.year <= MaxYear && IsCalendarDay(d)
  }

  function DateOf(t: DateTime): Date {
    Date(t.year, t.month, t.day)
  }

  /** The values a Python `datetime` can hold. */
  predicate Valid(t: DateTime) {
    ValidDate(DateOf(t))
    && 0 <= t.hour < 24 && 0 <= t.minute < 60 && 0 <= t.second < 60
    && 0 <= t.microsecond < 1000000
  }

  /** `datetime(year, month, day, hour, minute, second, microsecond)`. */
  function Make(year: int, month: int, day: int, hour: int, minute: int, second: int,
                microsecond: int): (r: Result<DateTime, string>)
    ensures r.Ok? <==> Valid(DateTime(year, month, day, hour, minute, second, microsecond))
    ensures r.Ok? ==> r.value == DateTime(year, month, day, hour, minute, second, microsecond)
  {
    var t := DateTime(year, month, day, hour, minute, second, microsecond);
    if Valid(t) then Ok(t) else Err("datetime field out of range")
  }

  /** The following calendar day. */
  function NextDay(d: Date): (n: Date)
    requires IsCalendarDay(d)
    ensures IsCalendarDay(n)
    ensures n.year == d.year || (n.year == d.year + 1 && n.month == 1 && n.day == 1)
  {
    if d.day < DaysInMonth(d.year, d.month) then Date(d.year, d.month, d.day + 1)
    else if d.month < 12 then Date(d.year, d.month + 1, 1)
    else Date(d.year + 1, 1, 1)
  }

  /** The preceding calendar day. */
  function PrevDay(d: Date): (p: Date)
    requires IsCalendarDay(d)
    ensures IsCalendarDay(p)
    ensures p.year == d.year || (p.year == d.year - 1 && p.month == 12 && p.day == 31)
  {
    if d.day > 1 then Date(d.year, d.month, d.day - 1)
    else if d.month > 1 then Date(d.year, d.month - 1, DaysInMonth(d.year, d.month - 1))
    else Date(d.year - 1, 12, 31)
  }

  /** PrevDay undoes NextDay, and NextDay undoes PrevDay. */
  lemma NextPrevInverse(d: Date)
    requires IsCalendarDay(d)
    ensures PrevDay(NextDay(d)) == d
    ensures NextDay(PrevDay(d)) == d
  {
  }

  /** Days of year `y` before the first of month `m`. */
  function DaysBeforeMonth(y: int, m: int): (n: int)
    requires 1 <= m <= 12
    ensures 0 <= n <= 335
  {
    [0, 31, 59, 90, 120, 151, 181, 212, 243, 273, 304, 334][m - 1]
      + (if m > 2 && IsLeapYear(y) then 1 else 0)
  }

  /** The next month starts when this one's days are used up. */
  lemma MonthStep(y: int, m: int)
    requires 1 <= m < 12
    ensures DaysBeforeMonth(y, m + 1) == DaysBeforeMonth(y, m) + DaysInMonth(y, m)
  {
  }

  /** Days of the proleptic Gregorian calendar before 1 January of year `y`. */
  function DaysBeforeYear(y: int): int {
    var p := y - 1;
    p * 365 + p / 4 - p / 100 + p / 400
  }

  /** `date.toordinal()`: 1 January of year 1 is day 1. */
  function Ordinal(d: Date): int
    requires IsCalendarDay(d)
  {
    DaysBeforeYear(d.year) + DaysBeforeMonth(d.year, d.month) + d.day
  }

  /** The ordinal of 31 December 9999, the last day a `datetime` can hold. */
  const MaxOrdinal: int := 3652059

  /** A year has 366 days exactly when it is a leap year. */
  lemma YearLength(y: int)
    ensures DaysBeforeYear(y + 1) == DaysBeforeYear(y) + (if IsLeapYear(y) then 366 else 365)
  {
    var a, b, c := y / 4 - (y - 1) / 4, y / 100 - (y - 1) / 100, y / 400 - (y - 1) / 400;
    assert DaysBeforeYear(y + 1) - DaysBeforeYear(y) == 365 + a - b + c;
    DivStep4(y);
    DivStep100(y);
    DivStep400(y);
    LeapDivisors(y);
  }

  /** A multiple of 400 is one of 100, and a multiple of 100 is one of 4. */
  lemma LeapDivisors(y: int)
    ensures y % 400 == 0 ==> y % 100 == 0
    ensures y % 100 == 0 ==> y % 4 == 0
  {
    if y % 400 == 0 {
      var k := y / 400;
      assert y == 400 * k;
      MultipleOf400(k);
    }
    if y % 100 == 0 {
      var k := y / 100;
      assert y == 100 * k;
      MultipleOf100(k);
    }
  }

  lemma MultipleOf400(k: int)
    ensures (400 * k) % 100 == 0
  {
    assert 400 * k == 100 * (4 * k) + 0;
  }

  lemma MultipleOf100(k: int)
    ensures (100 * k) % 4 == 0
  {
    assert 100 * k == 4 * (25 * k) + 0;
  }

  lemma DivStep4(y: int)
    ensures y / 4 - (y - 1) / 4 == (if y % 4 == 0 then 1 else 0)
  {
  }

  lemma DivStep100(y: int)
    ensures y / 100 - (y - 1) / 100 == (if y % 100 == 0 then 1 else 0)
  {
  }

  lemma DivStep400(y: int)
    ensures y / 400 - (y - 1) / 400 == (if y % 400 == 0 then 1 else 0)
  {
  }

  /** NextDay moves the ordinal one day on. */
  lemma NextDayOrdinal(d: Date)
    requires IsCalendarDay(d)
    ensures Ordinal(NextDay(d)) == Ordinal(d) + 1
  {
    if d.day == DaysInMonth(d.year, d.month) {
      if d.month < 12 {
        MonthStep(d.year, d.month);
      } else {
        YearLength(d.year);
      }
    }
  }

  /** PrevDay moves the ordinal one day back. */
  lemma PrevDayOrdinal(d: Date)
    requires IsCalendarDay(d)
    ensures Ordinal(PrevDay(d)) == Ordinal(d) - 1
  {
    NextPrevInverse(d);
    NextDayOrdinal(PrevDay(d));
  }

  /** The ordinals of years `a` and `b` keep their order. */
  lemma DaysBeforeYearMonotone(a: int, b: int)
    requires a <= b
    ensures DaysBeforeYear(a) <= DaysBeforeYear(b)
  {
  }

  /** Every date a `datetime` can hold has an ordinal in 1..MaxOrdinal. */
  lemma OrdinalRange(d: Date)
    requires ValidDate(d)
    ensures 1 <= Ordinal(d) <= MaxOrdinal
  {
    DaysBeforeYearMonotone(1, d.year);
    DaysBeforeYearMonotone(d.year + 1, MaxYear + 1);
    YearLength(d.year);
    assert Ordinal(d) <= DaysBeforeYear(d.year) + DaysBeforeMonth(d.year, 12) + DaysInMonth(d.year, 12) by {
      MonthsAfter(d.year, d.month);
    }
  }

  /** The days before a month and in it never pass the end of December. */
  lemma {:induction false} MonthsAfter(y: int, m: int)
    requires 1 <= m <= 12
    ensures DaysBeforeMonth(y, m) + DaysInMonth(y, m) <= DaysBeforeMonth(y, 12) + DaysInMonth(y, 12)
    decreases 12 - m
  {
    if m < 12 {
      MonthStep(y, m);
      MonthsAfter(y, m + 1);
    }
  }

  /** Moves a date by `k` whole days; None once it leaves years 1..9999. */
  function ShiftDays(d: Date, k: int): (r: Option<Date>)
    requires ValidDate(d)
    ensures r.Some? ==> ValidDate(r.value)
    decreases if k >= 0 then k else -k
  {
    if k == 0 then Some(d)
    else if k > 0 then
      var n := NextDay(d);
      if n.year > MaxYear then None else ShiftDays(n, k - 1)
    else
      var p := PrevDay(d);
      if p.year < MinYear then None else ShiftDays(p, k + 1)
  }

  /** Moving forward never lowers the year, moving back never raises it. */
  lemma {:induction false} ShiftDaysYear(d: Date, k: int)
    requires ValidDate(d) && ShiftDays(d, k).Some?
    ensures k >= 0 ==> ShiftDays(d, k).value.year >= d.year
    ensures k <= 0 ==> ShiftDays(d, k).value.year <= d.year
    decreases if k >= 0 then k else -k
  {
    if k > 0 {
      ShiftDaysYear(NextDay(d), k - 1);
    } else if k < 0 {
      ShiftDaysYear(PrevDay(d), k + 1);
    }
  }

  /** Shifting by `k` days succeeds exactly when the ordinal stays in 1..MaxOrdinal,
      and then it adds `k` to the ordinal. */
  lemma ShiftDaysOrdinal(d: Date, k: int)
    requires ValidDate(d)
    ensures ShiftDays(d, k).Some? <==> 1 <= Ordinal(d) + k <= MaxOrdinal
    ensures ShiftDays(d, k).Some? ==> Ordinal(ShiftDays(d, k).value) == Ordinal(d) + k
  {
    if k >= 0 {
      ShiftForward(d, k);
    } else {
      ShiftBack(d, k);
    }
  }

  lemma {:induction false} ShiftForward(d: Date, k: nat)
    requires ValidDate(d)
    ensures ShiftDays(d, k).Some? <==> Ordinal(d) + k <= MaxOrdinal
    ensures ShiftDays(d, k).Some? ==> Ordinal(ShiftDays(d, k).value) == Ordinal(d) + k
    decreases k
  {
    OrdinalRange(d);
    if k > 0 {
      var n := NextDay(d);
      NextDayOrdinal(d);
      if n.year > MaxYear {
        assert Ordinal(n) == MaxOrdinal + 1;
      } else {
        ShiftForward(n, k - 1);
      }
    }
  }

  lemma {:induction false} ShiftBack(d: Date, k: int)
    requires ValidDate(d) && k <= 0
    ensures ShiftDays(d, k).Some? <==> 1 <= Ordinal(d) + k
    ensures ShiftDays(d, k).Some? ==> Ordinal(ShiftDays(d, k).value) == Ordinal(d) + k
    decreases -k
  {
    OrdinalRange(d);
    if k < 0 {
      var p := PrevDay(d);
      PrevDayOrdinal(d);
      if p.year < MinYear {
        assert Ordinal(p) == 0;
      } else {
        ShiftBack(p, k + 1);
      }
    }
  }

  /** The seconds since midnight of a civil time. */
  function SecondOfDay(t: DateTime): int {
    t.hour * 3600 + t.minute * 60 + t.second
  }

  /** `t + timedelta(seconds=s)`: carry whole days into the date, keep the microseconds. */
  function AddSeconds(t: DateTime, s: int): (r: Result<DateTime, string>)
    requires Valid(t)
    ensures r.Ok? ==> Valid(r.value) && r.value.microsecond == t.microsecond
    ensures r.Ok? ==> SecondOfDay(r.value) == (SecondOfDay(t) + s) % SecondsPerDay
  {
    var total := SecondOfDay(t) + s;
    var days := total / SecondsPerDay;
    var rest := total % SecondsPerDay;
    match ShiftDays(DateOf(t), days)
    case None => Err("date value out of range")
    case Some(d) =>
      Ok(DateTime(d.year, d.month, d.day, rest / 3600, rest % 3600 / 60, rest % 60, t.microsecond))
  }

  /** Adding `s` seconds moves the date by the whole days in the time of day plus `s`
      (rounded down), and fails exactly when that day leaves 1 January 1 .. 31 December 9999. */
  lemma AddSecondsDays(t: DateTime, s: int)
    requires Valid(t)
    ensures var shift := (SecondOfDay(t) + s) / SecondsPerDay;
      && (AddSeconds(t, s).Ok? <==> 1 <= Ordinal(DateOf(t)) + shift <= MaxOrdinal)
      && (AddSeconds(t, s).Ok? ==> Ordinal(DateOf(AddSeconds(t, s).value)) == Ordinal(DateOf(t)) + shift)
  {
    ShiftDaysOrdinal(DateOf(t), (SecondOfDay(t) + s) / SecondsPerDay);
  }
}
