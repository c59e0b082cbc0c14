/**
 * Proleptic Gregorian calendar arithmetic, standing in for the two host `Date`
 * calls of the calendar grid: `new Date(y, m + 1, 0).getDate()` (the last day
 * of month `m`) and `new Date(y, m, 1).getDay()` (the weekday of its first day).
 * Months are 0-based as in the host API; weekdays count 0 = Sunday .. 6 = Saturday.
 * Years use astronomical numbering (year 0 exists and is a leap year).
 */
module Gregorian {

  /** A 0-based month index, as `Date.prototype.getMonth` returns it. */
  type Month = m: int | 0 <= m < 12

  const FEBRUARY: Month := 1

  predicate IsLeapYear(year: int) {
    year % 4 == 0 && (year % 100 != 0 || year % 400 == 0)
  }

  /** Month lengths of a common year, January first. */
  const MONTH_LENGTHS: seq<int> := [31, 28, 31, 30, 31, 30, 31, 31, 30, 31, 30, 31]

  /** Days of a common year before the first of each month. */
  const DAYS_BEFORE: seq<int> := [0, 31, 59, 90, 120, 151, 181, 212, 243, 273, 304, 334]

  /** The number of days of `month` in `year`: February gains a day in leap years. */
  function DaysInMonth(year: int, month: Month): int {
    MONTH_LENGTHS[month] + (if month == FEBRUARY && IsLeapYear(year) then 1 else 0)
  }

  /** The total length of the first `k` months of `year`. */
  function MonthsTotal(year: int, k: nat): int
    requires k <= 12
  {
    if k == 0 then 0 else MonthsTotal(year, k - 1) + DaysInMonth(year, k - 1)
  }

  /** The length of `year`: its twelve month lengths added up. */
  function YearLength(year: int): int {
    MonthsTotal(year, 12)
  }

  /** Days of `year` that lie before the first day of `month`. */
  function DaysBeforeMonth(year: int, month: Month): int {
    DAYS_BEFORE[month] + (if month > FEBRUARY && IsLeapYear(year) then 1 else 0)
  }

  /**
   * Days from 1 January of year 1 to 1 January of `year` (negative before year 1).
   * Dafny's `/` rounds down for a positive divisor, which is what the leap-day
   * count needs for years before 1.
   */
  function DaysBeforeYear(year: int): int {
    var y := year - 1;
    365 * y + y / 4 - y / 100 + y / 400
  }

  /** The serial number of a date: 0 for 1 January of year 1, and one more per day. */
  function DayNumber(year: int, month: Month, day: int): int {
    DaysBeforeYear(year) + DaysBeforeMonth(year, month) + (day - 1)
  }

  /** The weekday of a date, 0 = Sunday; 1 January of year 1 was a Monday. */
  function Weekday(year: int, month: Month, day: int): (w: int)
    ensures 0 <= w < 7
  {
    (DayNumber(year, month, day) + 1) % 7
  }

  /** The weekday of the first day of `month`: the number of blank cells before day 1. */
  function FirstWeekday(year: int, month: Month): (w: int)
    ensures 0 <= w <= 6
  {
    Weekday(year, month, 1)
  }

  /** Every month has 28 to 31 days; February has 29 exactly in leap years. */
  lemma DaysInMonthRange(year: int, month: Month)
    ensures 28 <= DaysInMonth(year, month) <= 31
    ensures DaysInMonth(year, month) == 29 <==> month == FEBRUARY && IsLeapYear(year)
    ensures DaysInMonth(year, month) == 28 <==> month == FEBRUARY && !IsLeapYear(year)
    ensures DaysInMonth(year, month) == 30 <==> month in {3, 5, 8, 10}
  {
    assert month in {0, 1, 2, 3, 4, 5, 6, 7, 8, 9, 10, 11};
  }

  /** Consecutive entries of the common-year table differ by the month's length. */
  lemma DaysBeforeStep(month: Month)
    requires month < 11
    ensures DAYS_BEFORE[month + 1] == DAYS_BEFORE[month] + MONTH_LENGTHS[month]
  {
    assert month in {0, 1, 2, 3, 4, 5, 6, 7, 8, 9, 10};
  }

  /** The days before a month are the lengths of the months before it, added up. */
  lemma {:induction false} DaysBeforeIsMonthsTotal(year: int, month: Month)
    ensures DaysBeforeMonth(year, month) == MonthsTotal(year, month)
  {
    if month > 0 {
      DaysBeforeIsMonthsTotal(year, month - 1);
      DaysBeforeStep(month - 1);
    }
  }

  /** The days before December and December itself fill the year. */
  lemma MonthsFillYear(year: int)
    ensures DaysBeforeMonth(year, 11) + DaysInMonth(year, 11) == YearLength(year)
  {
    DaysBeforeIsMonthsTotal(year, 11);
  }

  /** A year has 366 days exactly when it is a leap year, and 365 otherwise. */
  lemma YearLengthRule(year: int)
    ensures YearLength(year) == 365 || YearLength(year) == 366
    ensures YearLength(year) == 366 <==> IsLeapYear(year)
  {
    MonthsFillYear(year);
  }

  /** Stepping `n` down by one changes `n / k` exactly when `n` is a multiple of `k`. */
  lemma DivStep(n: int, k: int)
    requires k in {4, 100, 400}
    ensures n / k - (n - 1) / k == if n % k == 0 then 1 else 0
  {
    var q, r := (n - 1) / k, (n - 1) % k;
    assert n - 1 == k * q + r && 0 <= r < k;
    if r == k - 1 {
      assert n == k * (q + 1) + 0;
    } else {
      assert n == k * q + (r + 1) && 0 <= r + 1 < k;
    }
  }

  /** A year has as many days as there are between its first day and the next year's. */
  lemma YearSpan(year: int)
    ensures DaysBeforeYear(year + 1) == DaysBeforeYear(year) + YearLength(year)
  {
    YearLengthRule(year);
    DivStep(year, 4);
    DivStep(year, 100);
    DivStep(year, 400);
  }

  /**
   * Day `DaysInMonth(y, m)` of month `m` is immediately followed by day 1 of the
   * next month (of the next year after December): the day before "day 1 of month
   * m + 1", which is what `new Date(y, m + 1, 0)` denotes, is the last day of `m`.
   */
  lemma {:induction false} LastDayIsFollowedByFirst(year: int, month: Month)
    ensures month < 11 ==>
      DayNumber(year, month + 1, 1) == DayNumber(year, month, DaysInMonth(year, month)) + 1
    ensures month == 11 ==>
      DayNumber(year + 1, 0, 1) == DayNumber(year, 11, DaysInMonth(year, 11)) + 1
  {
    if month < 11 {
      DaysBeforeStep(month);
    } else {
      YearSpan(year);
      MonthsFillYear(year);
    }
  }

  /** Consecutive days of a month have consecutive weekdays. */
  lemma NextWeekday(year: int, month: Month, day: int)
    ensures Weekday(year, month, day + 1) == (Weekday(year, month, day) + 1) % 7
  {
    var x := DayNumber(year, month, day) + 1;
    assert DayNumber(year, month, day + 1) + 1 == x + 1;
    ShiftWeek(x, 1);
  }

  /** The weekday of the first of the next month follows from the month's length. */
  lemma {:induction false} FirstWeekdayOfNextMonth(year: int, month: Month)
    ensures month < 11 ==>
      FirstWeekday(year, month + 1) == (FirstWeekday(year, month) + DaysInMonth(year, month)) % 7
    ensures month == 11 ==>
      FirstWeekday(year + 1, 0) == (FirstWeekday(year, 11) + DaysInMonth(year, 11)) % 7
  {
    LastDayIsFollowedByFirst(year, month);
    var n := DaysInMonth(year, month);
    if month < 11 {
      ShiftWeek(DayNumber(year, month, 1) + 1, n);
    } else {
      ShiftWeek(DayNumber(year, 11, 1) + 1, n);
    }
  }

  /** Adding `n` days to a weekday works modulo the week. */
  lemma ShiftWeek(x: int, n: int)
    ensures (x % 7 + n) % 7 == (x + n) % 7
  {
    var q := x / 7;
    assert x == 7 * q + x % 7;
    assert x + n == 7 * q + (x % 7 + n);
  }

  /** Adding 400 to `x` adds 400 / k to its quotient by k and keeps its remainder. */
  lemma ShiftBy400(x: int, k: int)
    requires k in {4, 100, 400}
    ensures (x + 400) / k == x / k + 400 / k
    ensures (x + 400) % k == x % k
  {
    var q, r := x / k, x % k;
    assert x == k * q + r && 0 <= r < k;
    assert 400 == k * (400 / k);
    assert x + 400 == k * (q + 400 / k) + r;
  }

  /** 400 years hold 97 leap years: 146097 days. */
  lemma YearCycle(year: int)
    ensures DaysBeforeYear(year + 400) == DaysBeforeYear(year) + 146097
  {
    ShiftBy400(year - 1, 4);
    ShiftBy400(year - 1, 100);
    ShiftBy400(year - 1, 400);
  }

  lemma LeapCycle(year: int)
    ensures IsLeapYear(year + 400) == IsLeapYear(year)
  {
    ShiftBy400(year, 4);
    ShiftBy400(year, 100);
    ShiftBy400(year, 400);
  }

  /** The calendar repeats every 400 years (146097 days, a whole number of weeks). */
  lemma {:induction false} FourHundredYearCycle(year: int, month: Month, day: int)
    ensures DayNumber(year + 400, month, day) == DayNumber(year, month, day) + 146097
    ensures Weekday(year + 400, month, day) == Weekday(year, month, day)
  {
    YearCycle(year);
    LeapCycle(year);
    WholeWeeks(DayNumber(year, month, day) + 1);
  }

  /** 146097 days are a whole number of weeks. */
  lemma WholeWeeks(x: int)
    ensures (x + 146097) % 7 == x % 7
  {
    var q, r := x / 7, x % 7;
    assert x == 7 * q + r && 0 <= r < 7;
    assert x + 146097 == 7 * (q + 20871) + r;
  }

  /** March 2024 has 31 days and starts on a Friday, after five blank cells. */
  lemma March2024()
    ensures DaysInMonth(2024, 2) == 31
    ensures FirstWeekday(2024, 2) == 5
  {
  }
}
