/** Year-month arithmetic for the job ranker. A "%Y-%m" date is a month index:
    the number of months since January of year 1, so 2015-06 is 12 * 2014 + 5.
    Parsed with strptime, such a date is midnight on the first day of that month. */
module Calendar {

  type Month = nat

  function YearOf(m: Month): nat { m / 12 + 1 }

  /** 1 for January ... 12 for December. */
  function MonthOfYear(m: Month): nat { m % 12 + 1 }

  function MonthIndex(year: nat, month: nat): (m: Month)
    requires year >= 1 && 1 <= month <= 12
    ensures YearOf(m) == year && MonthOfYear(m) == month
  {
    12 * (year - 1) + month - 1
  }

  /** Gregorian leap years, as Python's calendar counts them. */
  predicate IsLeapYear(y: nat) {
    y % 4 == 0 && (y % 100 != 0 || y % 400 == 0)
  }

  function DaysInMonth(m: Month): (d: nat)
    ensures 28 <= d <= 31
    ensures d == 29 <==> MonthOfYear(m) == 2 && IsLeapYear(YearOf(m))
  {
    var mo := MonthOfYear(m);
    if mo == 2 then (if IsLeapYear(YearOf(m)) then 29 else 28)
    else if mo == 4 || mo == 6 || mo == 9 || mo == 11 then 30
    else 31
  }

  /** Days from 0001-01-01 to the first day of month `m`. */
  function DayOf(m: Month): nat {
    if m == 0 then 0 else DayOf(m - 1) + DaysInMonth(m - 1)
  }

  /** `(datetime(end) - datetime(start)).days` for two first-of-month datetimes:
      negative when `end` comes before `start`. */
  function DaysBetween(start: Month, end: Month): int {
    DayOf(end) - DayOf(start)
  }

  /** A month of `n` months spans between 28n and 31n days. */
  lemma {:induction false} DaysBetweenBounds(start: Month, end: Month)
    requires start <= end
    ensures 28 * (end - start) <= DaysBetween(start, end) <= 31 * (end - start)
  {
    if start < end {
      DaysBetweenBounds(start, end - 1);
    }
  }

  /** A point in time: a month and how far into that month it lies (in any unit). */
  datatype Instant = Instant(month: int, tick: nat)

  /** Midnight on the first day of `m`, which is what strptime gives for "%Y-%m". */
  function StartOf(m: Month): Instant { Instant(m, 0) }

  /** Datetime comparison `a > b`. */
  predicate After(a: Instant, b: Instant) {
    a.month > b.month || (a.month == b.month && a.tick > b.tick)
  }

  /** `now - relativedelta(years=n)`: the same point of the month, `n` years earlier.
      relativedelta moves 29 February to the 28th; that only changes the tick, which the
      lemma StartAfterCutoff shows to be irrelevant. */
  function YearsBefore(now: Instant, n: int): Instant {
    Instant(now.month - 12 * n, now.tick)
  }

  /** The first of month `m` lies after the cutoff exactly when `m` is a later month than
      the cutoff's, whatever the day and time of the cutoff. */
  lemma StartAfterCutoff(m: Month, now: Instant, n: int)
    ensures After(StartOf(m), YearsBefore(now, n)) <==> m > now.month - 12 * n
  {
  }
}
