/** Proleptic Gregorian calendar, as Python's `datetime` and `calendar` modules
    implement it: leap years, month lengths, the dates `datetime(y, m, d)` accepts,
    the day after a date, and the weekday of a date. */
module Calendar {

  datatype Date = Date(year: int, month: int, day: int)

  /** `calendar.isleap`: every fourth year, except centuries not divisible by 400. */
  predicate IsLeap(year: int) {
    year % 4 == 0 && (year % 100 != 0 || year % 400 == 0)
  }

  /** The second result of `calendar.monthrange(year, month)`: the number of days in the month. */
  function DaysInMonth(year: int, month: int): (n: int)
    requires 1 <= month <= 12
    ensures 28 <= n <= 31
    ensures n == 31 <==> month == 1 || month == 3 || month == 5 || month == 7 || month == 8 || month == 10 || month == 12
    ensures n == 30 <==> month == 4 || month == 6 || month == 9 || month == 11
    ensures month == 2 ==> (n == 29 <==> IsLeap(year))
  {
    if month == 2 then (if IsLeap(year) then 29 else 28)
    else if month == 4 || month == 6 || month == 9 || month == 11 then 30
    else 31
  }

  /** The dates `datetime(year, month, day)` accepts without raising `ValueError`:
      years 1..9999 (MINYEAR..MAXYEAR), months 1..12, and a day that exists in that month. */
  predicate ValidDate(d: Date) {
    1 <= d.year <= 9999 && 1 <= d.month <= 12 && 1 <= d.day <= DaysInMonth(d.year, d.month)
  }

  /** Python's ordering of `date` objects: lexicographic on (year, month, day). */
  predicate DateLe(a: Date, b: Date) {
    a.year < b.year ||
    (a.year == b.year && (a.month < b.month || (a.month == b.month && a.day <= b.day)))
  }

  /** `date + timedelta(days=1)`; only `date.max`, 9999-12-31, has no next day. */
  function NextDay(d: Date): (r: Date)
    requires ValidDate(d) && d != Date(9999, 12, 31)
    ensures ValidDate(r)
    ensures DateLe(d, r) && r != d
  {
    if d.day < DaysInMonth(d.year, d.month) then Date(d.year, d.month, d.day + 1)
    else if d.month < 12 then Date(d.year, d.month + 1, 1)
    else Date(d.year + 1, 1, 1)
  }

  /** No valid date lies strictly between a date and the day after it. */
  lemma NextDayIsSuccessor(d: Date, e: Date)
    requires ValidDate(d) && d != Date(9999, 12, 31) && ValidDate(e)
    requires DateLe(d, e) && e != d
    ensures DateLe(NextDay(d), e)
  {
  }

  /** `date + timedelta(days=n)` for the offsets of one week; the year bound keeps
      the result below `date.max`. */
  function AddDays(d: Date, n: nat): (r: Date)
    requires ValidDate(d) && d.year < 9999 && n <= 6
    ensures ValidDate(r) && DateLe(d, r)
    ensures r.year == d.year || (r.year == d.year + 1 && r.month == 1 && r.day <= n)
  {
    if n == 0 then d else NextDay(AddDays(d, n - 1))
  }

  /** Days before January 1 of `year`, counting from 0001-01-01 (Python's `_days_before_year`). */
  function DaysBeforeYear(year: int): int {
    var y := year - 1;
    y * 365 + y / 4 - y / 100 + y / 400
  }

  /** Days in the months of `year` before `month`. */
  function DaysBeforeMonth(year: int, month: int): int
    requires 1 <= month <= 12
  {
    if month == 1 then 0 else DaysBeforeMonth(year, month - 1) + DaysInMonth(year, month - 1)
  }

  /** `date.toordinal()`: 0001-01-01 is day 1. */
  function Ordinal(d: Date): int
    requires 1 <= d.month <= 12
  {
    DaysBeforeYear(d.year) + DaysBeforeMonth(d.year, d.month) + d.day
  }

  /** `date.weekday()`: Monday is 0, Sunday is 6. */
  function Weekday(d: Date): (w: int)
    requires 1 <= d.month <= 12
    ensures 0 <= w < 7
  {
    (Ordinal(d) + 6) % 7
  }

  /** Monday 13 October 2025 has weekday 0, as `date(2025, 10, 13).weekday()` does. */
  lemma WeekdayMondayIsZero()
    ensures Weekday(Date(2025, 10, 13)) == 0
    ensures Weekday(Date(2025, 10, 19)) == 6
  {
  }

  /** Moving a date forward by whole weeks inside its month keeps its weekday. */
  lemma {:induction false} WeekdayEveryWeek(year: int, month: int, day: int, weeks: nat)
    requires 1 <= month <= 12
    ensures Weekday(Date(year, month, day + 7 * weeks)) == Weekday(Date(year, month, day))
  {
    if weeks > 0 {
      WeekdayEveryWeek(year, month, day, weeks - 1);
      var o := Ordinal(Date(year, month, day + 7 * (weeks - 1)));
      assert Ordinal(Date(year, month, day + 7 * weeks)) == o + 7;
      assert (o + 7 + 6) % 7 == (o + 6) % 7;
    }
  }
}
