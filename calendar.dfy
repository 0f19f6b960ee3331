/**
 * The proleptic Gregorian calendar and the part of ECMAScript's `Date` that `new Date(y, m, d, h, min)`
 * uses: MakeFullYear (years 0..99 mean 1900..1999), MakeDay (months and days roll over into the next
 * month or year), MakeTime, MakeDate and TimeClip. Time values are milliseconds since 1970-01-01 00:00
 * on a naive local clock: the local time zone is not modelled.
 */
module Calendar {
  import opened Options

  const MsPerMinute := 60_000
  const MsPerHour := 3_600_000
  const MsPerDay := 86_400_000
  /** The largest magnitude a `Date` time value may have; beyond it the date is invalid. */
  const MaxTimeValue := 8_640_000_000_000_000

  predicate IsLeapYear(y: int) {
    y % 4 == 0 && (y % 100 != 0 || y % 400 == 0)
  }

  /** The length of month `m` (1..12) of year `y`. */
  function DaysInMonth(y: int, m: int): (n: int)
    requires 1 <= m <= 12
    ensures 28 <= n <= 31
  {
    if m == 2 then (if IsLeapYear(y) then 29 else 28)
    else if m == 4 || m == 6 || m == 9 || m == 11 then 30
    else 31
  }

  /** The days before year `y` of a calendar whose years begin on 1 March, counted from year 0. */
  function DaysBeforeMarchYear(y: int): int {
    365 * y + y / 4 - y / 100 + y / 400
  }

  /** The number of days from 1970-01-01 to day `d` of month `m` (1..12) of year `y`; `d` may lie outside
      the month, in which case the count simply runs on. */
  function DaysFromCivil(y: int, m: int, d: int): int
    requires 1 <= m <= 12
  {
    var marchYear := if m <= 2 then y - 1 else y;
    var monthsSinceMarch := (m + 9) % 12;
    DaysBeforeMarchYear(marchYear) + (153 * monthsSinceMarch + 2) / 5 + d - 1 - 719_468
  }

  lemma Epoch()
    ensures DaysFromCivil(1970, 1, 1) == 0
  {
  }

  /** A March-based year has 366 days when the calendar year it ends in is a leap year, else 365. */
  lemma MarchYearLength(y: int)
    ensures DaysBeforeMarchYear(y + 1) == DaysBeforeMarchYear(y) + (if IsLeapYear(y + 1) then 366 else 365)
  {
    var n := y + 1;
    assert n / 4 == y / 4 + (if n % 4 == 0 then 1 else 0);
    assert n / 100 == y / 100 + (if n % 100 == 0 then 1 else 0);
    assert n / 400 == y / 400 + (if n % 400 == 0 then 1 else 0);
    assert n % 100 == 0 ==> n % 4 == 0;
    assert n % 400 == 0 ==> n % 100 == 0;
  }

  /** The day number of the first of month `m`, written out for that month. */
  lemma FirstOfMonth(y: int, m: int)
    requires 1 <= m <= 12
    ensures DaysFromCivil(y, m, 1) == (if m <= 2 then DaysBeforeMarchYear(y - 1) else DaysBeforeMarchYear(y))
      + [306, 337, 0, 31, 61, 92, 122, 153, 184, 214, 245, 275][m - 1] - 719_468
  {
  }

  /** The first of the next month is one month length after the first of month `m`. */
  lemma NextMonth(y: int, m: int)
    requires 1 <= m <= 12
    ensures m < 12 ==> DaysFromCivil(y, m + 1, 1) == DaysFromCivil(y, m, 1) + DaysInMonth(y, m)
    ensures m == 12 ==> DaysFromCivil(y + 1, 1, 1) == DaysFromCivil(y, m, 1) + DaysInMonth(y, m)
  {
    FirstOfMonth(y, m);
    if m < 12 {
      FirstOfMonth(y, m + 1);
      if m == 2 {
        MarchYearLength(y - 1);
      }
    } else {
      FirstOfMonth(y + 1, 1);
    }
  }

  /** The first day of the month with index `k == 12 * year + month0`. */
  function MonthStart(k: int): int {
    DaysFromCivil(k / 12, k % 12 + 1, 1)
  }

  /** Consecutive month starts are one month length apart, across year ends and leap days included. */
  lemma MonthLength(k: int)
    ensures MonthStart(k + 1) == MonthStart(k) + DaysInMonth(k / 12, k % 12 + 1)
  {
    var y, m := k / 12, k % 12 + 1;
    NextMonth(y, m);
    if m == 12 {
      assert (k + 1) / 12 == y + 1 && (k + 1) % 12 == 0;
    } else {
      assert (k + 1) / 12 == y && (k + 1) % 12 + 1 == m + 1;
    }
  }

  /** A whole month lies before the start of every later month. */
  lemma {:induction false} MonthStartsIncrease(k1: int, k2: int)
    requires k1 < k2
    ensures MonthStart(k1) + DaysInMonth(k1 / 12, k1 % 12 + 1) <= MonthStart(k2)
    decreases k2 - k1
  {
    MonthLength(k1);
    if k1 + 1 < k2 {
      MonthStartsIncrease(k1 + 1, k2);
    }
  }

  /** ECMAScript MakeDay: the day number of day `date` of month `month0` (0-based, rolling over into other
      years when outside 0..11) of `year`. */
  function MakeDay(year: int, month0: int, date: int): int {
    DaysFromCivil(year + month0 / 12, month0 % 12 + 1, 1) + date - 1
  }

  /** Only the month index `12 * year + month0` matters, which is how a month of 12 or -1 rolls over. */
  lemma MakeDayMonthIndex(year: int, month0: int, date: int)
    ensures MakeDay(year, month0, date) == MonthStart(12 * year + month0) + date - 1
  {
    var k := 12 * year + month0;
    assert k / 12 == year + month0 / 12 && k % 12 == month0 % 12;
  }

  /** A real calendar date with a 0-based month. */
  predicate IsValidDate(year: int, month0: int, date: int) {
    0 <= month0 < 12 && 1 <= date <= DaysInMonth(year, month0 + 1)
  }

  predicate DateBefore(y1: int, m1: int, d1: int, y2: int, m2: int, d2: int) {
    y1 < y2 || (y1 == y2 && (m1 < m2 || (m1 == m2 && d1 < d2)))
  }

  /** Within a month, days run consecutively; a later month starts after all of them. */
  lemma {:induction false} DaysInMonthOrder(k1: int, d1: int, k2: int, d2: int)
    requires 1 <= d1 <= DaysInMonth(k1 / 12, k1 % 12 + 1)
    requires 1 <= d2 <= DaysInMonth(k2 / 12, k2 % 12 + 1)
    ensures MonthStart(k1) + d1 < MonthStart(k2) + d2 <==> k1 < k2 || (k1 == k2 && d1 < d2)
  {
    if k1 < k2 {
      MonthStartsIncrease(k1, k2);
    } else if k2 < k1 {
      MonthStartsIncrease(k2, k1);
    }
  }

  lemma MonthIndex(year: int, month0: int)
    requires 0 <= month0 < 12
    ensures (12 * year + month0) / 12 == year && (12 * year + month0) % 12 == month0
  {
  }

  /** On real dates the day number follows the calendar: an earlier date has a smaller day number. */
  lemma MakeDayChronological(y1: int, m1: int, d1: int, y2: int, m2: int, d2: int)
    requires IsValidDate(y1, m1, d1) && IsValidDate(y2, m2, d2)
    ensures MakeDay(y1, m1, d1) < MakeDay(y2, m2, d2) <==> DateBefore(y1, m1, d1, y2, m2, d2)
  {
    MakeDayMonthIndex(y1, m1, d1);
    MakeDayMonthIndex(y2, m2, d2);
    MonthIndex(y1, m1);
    MonthIndex(y2, m2);
    DaysInMonthOrder(12 * y1 + m1, d1, 12 * y2 + m2, d2);
  }

  /** ECMAScript MakeFullYear, applied by the multi-argument `Date` constructor: 0..99 mean 1900..1999. */
  function MakeFullYear(year: int): int {
    if 0 <= year <= 99 then 1900 + year else year
  }

  /** `new Date(year, month0, date, hour, minute).getTime()` on a naive local clock; `None` is the invalid
      date that TimeClip produces for a time value beyond `MaxTimeValue`. */
  function LocalTimeValue(year: int, month0: int, date: int, hour: int, minute: int): (t: Option<int>)
    ensures t.Some? ==> -MaxTimeValue <= t.value <= MaxTimeValue
  {
    var tv := MakeDay(MakeFullYear(year), month0, date) * MsPerDay + hour * MsPerHour + minute * MsPerMinute;
    if -MaxTimeValue <= tv <= MaxTimeValue then Some(tv) else None
  }

  predicate WallClockBefore(y1: int, m1: int, d1: int, h1: int, n1: int, y2: int, m2: int, d2: int, h2: int, n2: int) {
    DateBefore(y1, m1, d1, y2, m2, d2) || (y1 == y2 && m1 == m2 && d1 == d2 && (h1 < h2 || (h1 == h2 && n1 < n2)))
  }

  /** For real dates and times of day, comparing time values is comparing wall-clock readings. */
  lemma LocalTimeChronological(y1: int, m1: int, d1: int, h1: int, n1: int, y2: int, m2: int, d2: int, h2: int, n2: int)
    requires IsValidDate(MakeFullYear(y1), m1, d1) && 0 <= h1 < 24 && 0 <= n1 < 60
    requires IsValidDate(MakeFullYear(y2), m2, d2) && 0 <= h2 < 24 && 0 <= n2 < 60
    requires LocalTimeValue(y1, m1, d1, h1, n1).Some? && LocalTimeValue(y2, m2, d2, h2, n2).Some?
    ensures LocalTimeValue(y1, m1, d1, h1, n1).value < LocalTimeValue(y2, m2, d2, h2, n2).value
        <==> WallClockBefore(MakeFullYear(y1), m1, d1, h1, n1, MakeFullYear(y2), m2, d2, h2, n2)
  {
    var f1, f2 := MakeFullYear(y1), MakeFullYear(y2);
    var day1, day2 := MakeDay(f1, m1, d1), MakeDay(f2, m2, d2);
    MakeDayChronological(f1, m1, d1, f2, m2, d2);
    MakeDayChronological(f2, m2, d2, f1, m1, d1);
    var tod1, tod2 := h1 * MsPerHour + n1 * MsPerMinute, h2 * MsPerHour + n2 * MsPerMinute;
    assert 0 <= tod1 < MsPerDay && 0 <= tod2 < MsPerDay;
    assert LocalTimeValue(y1, m1, d1, h1, n1).value == day1 * MsPerDay + tod1;
    assert LocalTimeValue(y2, m2, d2, h2, n2).value == day2 * MsPerDay + tod2;
    if day1 == day2 {
      assert !DateBefore(f1, m1, d1, f2, m2, d2) && !DateBefore(f2, m2, d2, f1, m1, d1);
      assert f1 == f2 && m1 == m2 && d1 == d2;
    }
  }

  /** Every wall-clock reading of the years 1000 to 9999 lies well within the range of valid dates. */
  lemma LocalTimeValueInRange(year: int, month0: int, date: int, hour: int, minute: int)
    requires 1000 <= year <= 9999 && 0 <= month0 < 12 && 1 <= date <= 31 && 0 <= hour < 24 && 0 <= minute < 60
    ensures LocalTimeValue(year, month0, date, hour, minute).Some?
  {
    var day := MakeDay(year, month0, date);
    assert month0 / 12 == 0 && month0 % 12 == month0;
    assert -800_000 <= day <= 3_000_000;
    assert -800_000 * MsPerDay <= day * MsPerDay <= 3_000_000 * MsPerDay;
  }
}
