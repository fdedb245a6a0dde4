/** The calendar arithmetic of JavaScript's `Date` constructor that the core relies on:
    the two-digit-year rule, month overflow, and the lengths of Gregorian months. */
module Calendar {

  /** The year `new Date(year, ...)` actually uses: years 0 to 99 are read as 1900 to 1999. */
  function FullYear(year: int): int {
    if 0 <= year <= 99 then 1900 + year else year
  }

  predicate IsLeapYear(y: int) {
    y % 4 == 0 && (y % 100 != 0 || y % 400 == 0)
  }

  /** The number of days of month `m` (1 to 12) of year `y` in the proleptic Gregorian calendar. */
  function DaysInMonth(y: int, m: int): (r: int)
    requires 1 <= m <= 12
    ensures 28 <= r <= 31
    ensures r == 29 <==> m == 2 && IsLeapYear(y)
    ensures r == 31 <==> m in {1, 3, 5, 7, 8, 10, 12}
  {
    if m == 2 then (if IsLeapYear(y) then 29 else 28)
    else if m == 4 || m == 6 || m == 9 || m == 11 then 30
    else 31
  }

  /** A calendar date at local midnight, with `month` counted from 1. */
  datatype Day = Day(year: int, month: int, day: int)

  /** `a < b` for `Date` objects at midnight: earlier year, then earlier month, then earlier day.
      This is the order of timestamps only when both are real calendar dates (month 1 to 12,
      day within the month); a `Date` always is one, and callers pass only such days. */
  predicate Before(a: Day, b: Day) {
    a.year < b.year
    || (a.year == b.year && (a.month < b.month || (a.month == b.month && a.day < b.day)))
  }

  /** `new Date(year, monthIndex, 1)`: the first of the month `monthIndex` months (counted
      from 0) after January of `FullYear(year)`; indices outside 0 to 11 roll into
      neighbouring years. */
  function FirstOfMonth(year: int, monthIndex: int): (r: Day)
    ensures 1 <= r.month <= 12 && r.day == 1
    ensures (r.year - FullYear(year)) * 12 + (r.month - 1) == monthIndex
  {
    Day(FullYear(year) + monthIndex / 12, monthIndex % 12 + 1, 1)
  }

  /** For a month in range and a year outside 0 to 99 the constructor takes the date as written. */
  lemma FirstOfMonthAsWritten(year: int, month: int)
    requires 1 <= month <= 12 && !(0 <= year <= 99)
    ensures FirstOfMonth(year, month - 1) == Day(year, month, 1)
  {
  }
}
