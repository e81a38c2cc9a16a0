/** Calendar dates (proleptic Gregorian, as JavaScript's Date uses) and day
    arithmetic with month, year and leap-year rollover.

    A loan's due date is kept as a civil date. `AddDays` steps one day at a
    time; `DayNumber` counts days from 0001-01-01 independently of that
    stepping, and the contracts tie the two together. */
module CivilDate {

  datatype Date = Date(year: int, month: int, day: int)

  predicate IsLeapYear(y: int) {
    y % 4 == 0 && (y % 100 != 0 || y % 400 == 0)
  }

  function DaysInYear(y: int): int {
    if IsLeapYear(y) then 366 else 365
  }

  function DaysInMonth(y: int, m: int): int
    requires 1 <= m <= 12
  {
    if m == 2 then (if IsLeapYear(y) then 29 else 28)
    else if m == 4 || m == 6 || m == 9 || m == 11 then 30
    else 31
  }

  /** A date that names a real calendar day. */
  predicate ValidDate(d: Date) {
    1 <= d.month <= 12 && 1 <= d.day <= DaysInMonth(d.year, d.month)
  }

  /** Days in the months of a common year before month m (m = 13 gives the whole year). */
  const CommonYearMonthStarts: seq<int> := [0, 31, 59, 90, 120, 151, 181, 212, 243, 273, 304, 334, 365]

  /** Days of year y that come before the first day of month m. */
  function DaysBeforeMonth(y: int, m: int): int
    requires 1 <= m <= 13
  {
    CommonYearMonthStarts[m - 1] + (if m > 2 && IsLeapYear(y) then 1 else 0)
  }

  /** Days from 0001-01-01 to the first day of year y (negative before year 1):
      365 a year plus one for every leap year among years 1 .. y - 1
      (Dafny's division by a positive constant rounds down, as needed here). */
  function DaysBeforeYear(y: int): int {
    var p := y - 1;
    365 * p + p / 4 - p / 100 + p / 400
  }

  /** The reference numbering of days: consecutive days get consecutive numbers. */
  function DayNumber(d: Date): int
    requires ValidDate(d)
  {
    DaysBeforeYear(d.year) + DaysBeforeMonth(d.year, d.month) + d.day - 1
  }

  /** Among the years before y + 1, the leap years are those before y and
      possibly y itself. */
  lemma YearStep(y: int)
    ensures DaysBeforeYear(y + 1) == DaysBeforeYear(y) + DaysInYear(y)
  {
    assert y / 4 - (y - 1) / 4 == if y % 4 == 0 then 1 else 0;
    assert y / 100 - (y - 1) / 100 == if y % 100 == 0 then 1 else 0;
    assert y / 400 - (y - 1) / 400 == if y % 400 == 0 then 1 else 0;
  }

  lemma MonthStep(y: int, m: int)
    requires 1 <= m <= 12
    ensures DaysBeforeMonth(y, m + 1) == DaysBeforeMonth(y, m) + DaysInMonth(y, m)
  {
  }

  /** The calendar day after d. */
  function NextDay(d: Date): (r: Date)
    requires ValidDate(d)
    ensures ValidDate(r)
    ensures DayNumber(r) == DayNumber(d) + 1
  {
    MonthStep(d.year, d.month);
    if d.day < DaysInMonth(d.year, d.month) then Date(d.year, d.month, d.day + 1)
    else if d.month < 12 then Date(d.year, d.month + 1, 1)
    else
      YearStep(d.year);
      Date(d.year + 1, 1, 1)
  }

  /** The calendar day n days after d, found by stepping one day at a time
      (JavaScript's setDate(getDate() + n) on a date without a time part). */
  function AddDays(d: Date, n: nat): (r: Date)
    requires ValidDate(d)
    ensures ValidDate(r)
    ensures DayNumber(r) == DayNumber(d) + n
    decreases n
  {
    if n == 0 then d else AddDays(NextDay(d), n - 1)
  }

  lemma {:induction false} DaysBeforeYearMonotone(a: int, b: int)
    requires a < b
    ensures DaysBeforeYear(a + 1) <= DaysBeforeYear(b)
    decreases b - a
  {
    if a + 1 < b {
      DaysBeforeYearMonotone(a, b - 1);
      YearStep(b - 1);
    }
  }

  lemma DaysBeforeMonthMonotone(y: int, a: int, b: int)
    requires 1 <= a < b <= 13
    ensures DaysBeforeMonth(y, a + 1) <= DaysBeforeMonth(y, b)
  {
  }

  /** A valid date's number lies inside its own year. */
  lemma DayNumberInYear(d: Date)
    requires ValidDate(d)
    ensures DaysBeforeYear(d.year) <= DayNumber(d) < DaysBeforeYear(d.year + 1)
  {
    MonthStep(d.year, d.month);
    DaysBeforeMonthMonotone(d.year, d.month, 13);
    YearStep(d.year);
  }

  /** Distinct valid dates have distinct numbers, so AddDays(d, n) is THE
      valid date n days after d. */
  lemma DayNumberInjective(a: Date, b: Date)
    requires ValidDate(a) && ValidDate(b)
    requires DayNumber(a) == DayNumber(b)
    ensures a == b
  {
    DayNumberInYear(a);
    DayNumberInYear(b);
    if a.year < b.year {
      DaysBeforeYearMonotone(a.year, b.year);
    } else if b.year < a.year {
      DaysBeforeYearMonotone(b.year, a.year);
    }
    assert a.year == b.year;
    MonthStep(a.year, a.month);
    MonthStep(b.year, b.month);
    if a.month < b.month {
      DaysBeforeMonthMonotone(a.year, a.month, b.month);
    } else if b.month < a.month {
      DaysBeforeMonthMonotone(b.year, b.month, a.month);
    }
  }

  /** Adding days in two steps is adding them at once. */
  lemma AddDaysAdditive(d: Date, m: nat, n: nat)
    requires ValidDate(d)
    ensures AddDays(AddDays(d, m), n) == AddDays(d, m + n)
  {
    DayNumberInjective(AddDays(AddDays(d, m), n), AddDays(d, m + n));
  }

  /** Worked rollovers for a 14-day renewal: within a month, across a year
      end, and across February in a leap and a common year. */
  /** AddDays(d, n) is the valid date whose number is n more than d's. */
  lemma AddDaysByNumber(d: Date, n: nat, e: Date)
    requires ValidDate(d) && ValidDate(e)
    requires DayNumber(e) == DayNumber(d) + n
    ensures AddDays(d, n) == e
  {
    DayNumberInjective(AddDays(d, n), e);
  }

  lemma FourteenDaysWithinMonth()
    ensures AddDays(Date(2024, 12, 15), 14) == Date(2024, 12, 29)
  {
    AddDaysByNumber(Date(2024, 12, 15), 14, Date(2024, 12, 29));
  }

  lemma FourteenDaysAcrossYearEnd()
    ensures AddDays(Date(2024, 12, 25), 14) == Date(2025, 1, 8)
  {
    AddDaysByNumber(Date(2024, 12, 25), 14, Date(2025, 1, 8));
  }

  lemma FourteenDaysAcrossLeapFebruary()
    ensures AddDays(Date(2024, 2, 20), 14) == Date(2024, 3, 5)
  {
    AddDaysByNumber(Date(2024, 2, 20), 14, Date(2024, 3, 5));
  }

  lemma FourteenDaysAcrossCommonFebruary()
    ensures AddDays(Date(2023, 2, 20), 14) == Date(2023, 3, 6)
  {
    AddDaysByNumber(Date(2023, 2, 20), 14, Date(2023, 3, 6));
  }
}
