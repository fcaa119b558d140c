/**
 * Proleptic Gregorian calendar arithmetic on wall-clock date-times, as used by
 * Python's `datetime` and `dateutil.relativedelta`.
 *
 * Years are unbounded here; the range Python's `datetime` accepts
 * (years 1 through 9999) is a separate predicate, `InPythonRange`, so that an
 * arithmetic step that leaves the range can be detected after the fact.
 */
module Calendar {

  const MinYear: int := 1
  const MaxYear: int := 9999

  datatype Date = Date(year: int, month: int, day: int)

  datatype Time = Time(hour: int, minute: int, second: int, microsecond: int)

  /** A naive (wall-clock) date-time; the time zone never takes part in the arithmetic. */
  datatype DateTime = DateTime(date: Date, time: Time)

  predicate IsLeap(y: int) {
    y % 4 == 0 && (y % 100 != 0 || y % 400 == 0)
  }

  function DaysInMonth(y: int, m: int): (n: int)
    requires 1 <= m <= 12
    ensures 28 <= n <= 31
    ensures n == 29 <==> m == 2 && IsLeap(y)
    ensures n == 28 <==> m == 2 && !IsLeap(y)
    ensures n == 30 <==> m in {4, 6, 9, 11}
  {
    if m == 2 then (if IsLeap(y) then 29 else 28)
    else if m == 4 || m == 6 || m == 9 || m == 11 then 30
    else 31
  }

  function DaysInYear(y: int): (n: int)
    ensures n == 365 || n == 366
    ensures n == 366 <==> IsLeap(y)
  {
    if IsLeap(y) then 366 else 365
  }

  /** A calendar date from year 1 onwards (no upper bound on the year). */
  predicate ValidDate(d: Date) {
    d.year >= MinYear && 1 <= d.month <= 12 && 1 <= d.day <= DaysInMonth(d.year, d.month)
  }

  predicate ValidTime(t: Time) {
    0 <= t.hour < 24 && 0 <= t.minute < 60 && 0 <= t.second < 60 && 0 <= t.microsecond < 1000000
  }

  /** The values a Python `datetime` can hold. */
  predicate InPythonRange(dt: DateTime) {
    ValidDate(dt.date) && dt.date.year <= MaxYear && ValidTime(dt.time)
  }

  function Min(a: int, b: int): int {
    if a <= b then a else b
  }

  // ---------------------------------------------------------------------------
  // Day numbers: day 1 is 0001-01-01, as in `date.toordinal`.
  // ---------------------------------------------------------------------------

  /** Days in all years before `y`, counted from year 1. */
  function DaysBeforeYear(y: int): (n: nat)
    requires y >= MinYear
    decreases y
  {
    if y == MinYear then 0 else DaysBeforeYear(y - 1) + DaysInYear(y - 1)
  }

  /** Days in the months of year `y` before month `m`. */
  function DaysBeforeMonth(y: int, m: int): (n: nat)
    requires 1 <= m <= 12
    decreases m
  {
    if m == 1 then 0 else DaysBeforeMonth(y, m - 1) + DaysInMonth(y, m - 1)
  }

  function Ordinal(d: Date): (n: int)
    requires ValidDate(d)
    ensures n >= 1
  {
    DaysBeforeYear(d.year) + DaysBeforeMonth(d.year, d.month) + d.day
  }

  lemma MonthsFillYear(y: int)
    ensures DaysBeforeMonth(y, 12) + DaysInMonth(y, 12) == DaysInYear(y)
  {
    assert DaysBeforeMonth(y, 3) == 31 + DaysInMonth(y, 2);
    assert DaysBeforeMonth(y, 6) == DaysBeforeMonth(y, 3) + 92;
    assert DaysBeforeMonth(y, 9) == DaysBeforeMonth(y, 6) + 92;
    assert DaysBeforeMonth(y, 12) == DaysBeforeMonth(y, 9) + 91;
  }

  /** The day after `d`. */
  function NextDay(d: Date): (r: Date)
    requires ValidDate(d)
    ensures ValidDate(r)
  {
    if d.day < DaysInMonth(d.year, d.month) then Date(d.year, d.month, d.day + 1)
    else if d.month < 12 then Date(d.year, d.month + 1, 1)
    else Date(d.year + 1, 1, 1)
  }

  lemma OrdinalNextDay(d: Date)
    requires ValidDate(d)
    ensures Ordinal(NextDay(d)) == Ordinal(d) + 1
  {
    if d.day == DaysInMonth(d.year, d.month) && d.month == 12 {
      MonthsFillYear(d.year);
    }
  }

  /** The date `n` days after `d`, one day at a time: its day number is exactly `n` higher. */
  function AddDays(d: Date, n: nat): (r: Date)
    requires ValidDate(d)
    ensures ValidDate(r)
    ensures Ordinal(r) == Ordinal(d) + n
    decreases n
  {
    if n == 0 then d
    else
      OrdinalNextDay(d);
      AddDays(NextDay(d), n - 1)
  }

  /** Day shifts compose: `a` days and then `b` days is `a + b` days. */
  lemma AddDaysAdditive(d: Date, a: nat, b: nat)
    requires ValidDate(d)
    ensures AddDays(AddDays(d, a), b) == AddDays(d, a + b)
  {
    OrdinalInjective(AddDays(AddDays(d, a), b), AddDays(d, a + b));
  }

  // ---------------------------------------------------------------------------
  // The day number identifies the date.
  // ---------------------------------------------------------------------------

  lemma {:induction false} DaysBeforeYearGrows(y1: int, y2: int)
    requires MinYear <= y1 < y2
    ensures DaysBeforeYear(y1) + DaysInYear(y1) <= DaysBeforeYear(y2)
    decreases y2 - y1
  {
    if y1 + 1 < y2 {
      DaysBeforeYearGrows(y1 + 1, y2);
    }
  }

  lemma {:induction false} DaysBeforeMonthGrows(y: int, m1: int, m2: int)
    requires 1 <= m1 < m2 <= 12
    ensures DaysBeforeMonth(y, m1) + DaysInMonth(y, m1) <= DaysBeforeMonth(y, m2)
    decreases m2 - m1
  {
    if m1 + 1 < m2 {
      DaysBeforeMonthGrows(y, m1 + 1, m2);
    }
  }

  lemma OrdinalWithinYear(d: Date)
    requires ValidDate(d)
    ensures DaysBeforeYear(d.year) < Ordinal(d) <= DaysBeforeYear(d.year) + DaysInYear(d.year)
  {
    MonthsFillYear(d.year);
    if d.month < 12 {
      DaysBeforeMonthGrows(d.year, d.month, 12);
    }
  }

  /** Two calendar dates with the same day number are the same date. */
  lemma OrdinalInjective(a: Date, b: Date)
    requires ValidDate(a) && ValidDate(b)
    requires Ordinal(a) == Ordinal(b)
    ensures a == b
  {
    OrdinalWithinYear(a);
    OrdinalWithinYear(b);
    if a.year < b.year {
      DaysBeforeYearGrows(a.year, b.year);
    } else if b.year < a.year {
      DaysBeforeYearGrows(b.year, a.year);
    }
    assert a.year == b.year;
    if a.month < b.month {
      DaysBeforeMonthGrows(a.year, a.month, b.month);
    } else if b.month < a.month {
      DaysBeforeMonthGrows(a.year, b.month, a.month);
    }
  }

  /** `AddDays(d, n)` is the one date that lies exactly `n` days after `d`. */
  lemma AddDaysUnique(d: Date, n: nat, e: Date)
    requires ValidDate(d) && ValidDate(e)
    ensures Ordinal(e) == Ordinal(d) + n <==> e == AddDays(d, n)
  {
    if Ordinal(e) == Ordinal(d) + n {
      OrdinalInjective(e, AddDays(d, n));
    }
  }

  // ---------------------------------------------------------------------------
  // relativedelta(months=n) and relativedelta(years=n) for n >= 0.
  // ---------------------------------------------------------------------------

  /** Months since the start of year 0; the quantity `relativedelta(months=n)` advances by `n`. */
  function MonthIndex(d: Date): int {
    d.year * 12 + (d.month - 1)
  }

  /**
   * `d + relativedelta(months=n)`: `n` is split into whole years and a
   * remainder below 12, the remainder is added to the month with one carry
   * into the year, and the day is clamped to the length of the target month.
   */
  function AddMonths(d: Date, n: nat): (r: Date)
    requires ValidDate(d)
    ensures ValidDate(r)
    ensures MonthIndex(r) == MonthIndex(d) + n
    ensures r.day <= d.day
    ensures r.day == d.day <==> d.day <= DaysInMonth(r.year, r.month)
    ensures r.day < d.day ==> r.day == DaysInMonth(r.year, r.month)
  {
    var years, months := n / 12, n % 12;
    var year := d.year + years;
    var month := d.month + months;
    var year', month' := if month > 12 then year + 1 else year, if month > 12 then month - 12 else month;
    Date(year', month', Min(d.day, DaysInMonth(year', month')))
  }

  /** `d + relativedelta(years=n)`: the month is kept and the day clamped (29 February). */
  function AddYears(d: Date, n: nat): (r: Date)
    requires ValidDate(d)
    ensures ValidDate(r)
    ensures r.year == d.year + n && r.month == d.month
  {
    var year := d.year + n;
    Date(year, d.month, Min(d.day, DaysInMonth(year, d.month)))
  }

  /** Adding `n` years is adding `12 * n` months. */
  lemma AddYearsIsTwelveMonths(d: Date, n: nat)
    requires ValidDate(d)
    ensures AddYears(d, n) == AddMonths(d, 12 * n)
  {
    assert (12 * n) / 12 == n && (12 * n) % 12 == 0;
  }

  /** Only 29 February moves when years are added: to 28 February in a common year. */
  lemma AddYearsDay(d: Date, n: nat)
    requires ValidDate(d)
    ensures d.month == 2 && d.day == 29 ==> AddYears(d, n).day == if IsLeap(d.year + n) then 29 else 28
    ensures !(d.month == 2 && d.day == 29) ==> AddYears(d, n).day == d.day
  {
  }
}
