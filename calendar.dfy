/**
 * Gregorian calendar arithmetic, as the collector and the aggregator use it:
 * the leap-year rule and the month lengths of `calendar.monthrange`, the
 * proleptic day number of a date and its ISO weekday (Monday is 1).
 */
module Calendar {

  /** Strictly ascending month or weekday numbers, as the month range and the pivot's index are. */
  predicate Increasing(ns: seq<int>) {
    forall i, j :: 0 <= i < j < |ns| ==> ns[i] < ns[j]
  }

  /** The Gregorian leap-year rule of `calendar.isleap`. */
  predicate IsLeapYear(year: int) {
    year % 4 == 0 && (year % 100 != 0 || year % 400 == 0)
  }

  function YearLength(year: int): int {
    if IsLeapYear(year) then 366 else 365
  }

  /** The last day of `month` in `year`, the second value `calendar.monthrange` returns. */
  function DaysInMonth(year: int, month: int): (n: int)
    requires 1 <= month <= 12
    ensures 28 <= n <= 31
  {
    if month == 2 then (if IsLeapYear(year) then 29 else 28)
    else if month == 4 || month == 6 || month == 9 || month == 11 then 30
    else 31
  }

  datatype Date = Date(year: int, month: int, day: int)

  predicate ValidDate(d: Date) {
    1 <= d.month <= 12 && 1 <= d.day <= DaysInMonth(d.year, d.month)
  }

  /** Days in the months of `year` before `month`. */
  function DaysBeforeMonth(year: int, month: int): int
    requires 1 <= month <= 13
  {
    if month == 1 then 0 else DaysBeforeMonth(year, month - 1) + DaysInMonth(year, month - 1)
  }

  /** Days in all years before `year`, counted from year 1, in closed form. */
  function DaysBeforeYear(year: int): int {
    var y := year - 1;
    365 * y + y / 4 - y / 100 + y / 400
  }

  /** Reference definition of DaysBeforeYear: add up the year lengths one by one. */
  function CountedDaysBeforeYear(year: int): int
    requires year >= 1
  {
    if year == 1 then 0 else CountedDaysBeforeYear(year - 1) + YearLength(year - 1)
  }

  /** The proleptic Gregorian day number; 0001-01-01 is day 1. */
  function Ordinal(d: Date): int
    requires 1 <= d.month <= 12
  {
    DaysBeforeYear(d.year) + DaysBeforeMonth(d.year, d.month) + d.day
  }

  /** ISO weekday of a date: Monday is 1 and Sunday is 7. */
  function IsoWeekday(d: Date): (w: int)
    requires 1 <= d.month <= 12
    ensures 1 <= w <= 7
  {
    (Ordinal(d) + 6) % 7 + 1
  }

  /** The calendar day after `d`. */
  function NextDay(d: Date): Date
    requires ValidDate(d)
  {
    if d.day < DaysInMonth(d.year, d.month) then d.(day := d.day + 1)
    else if d.month < 12 then Date(d.year, d.month + 1, 1)
    else Date(d.year + 1, 1, 1)
  }

  /** Crossing a year boundary adds exactly that year's length to the closed form. */
  lemma DaysBeforeYearStep(year: int)
    ensures DaysBeforeYear(year + 1) == DaysBeforeYear(year) + YearLength(year)
  {
    assert year / 4 - (year - 1) / 4 == if year % 4 == 0 then 1 else 0;
    assert year / 100 - (year - 1) / 100 == if year % 100 == 0 then 1 else 0;
    assert year / 400 - (year - 1) / 400 == if year % 400 == 0 then 1 else 0;
    if year % 400 == 0 {
      assert year % 100 == 0 && year % 4 == 0;
    }
    if year % 100 == 0 {
      assert year % 4 == 0;
    }
  }

  /** The closed form agrees with counting the years one by one. */
  lemma {:induction false} DaysBeforeYearCounts(year: int)
    requires year >= 1
    ensures DaysBeforeYear(year) == CountedDaysBeforeYear(year)
  {
    if year > 1 {
      DaysBeforeYearCounts(year - 1);
      DaysBeforeYearStep(year - 1);
    }
  }

  /** The twelve months of a year add up to the year's length. */
  lemma MonthsFillYear(year: int)
    ensures DaysBeforeMonth(year, 13) == YearLength(year)
  {
    var feb := DaysInMonth(year, 2);
    assert DaysBeforeMonth(year, 2) == 31;
    assert DaysBeforeMonth(year, 3) == 31 + feb;
    assert DaysBeforeMonth(year, 4) == 62 + feb;
    assert DaysBeforeMonth(year, 5) == 92 + feb;
    assert DaysBeforeMonth(year, 6) == 123 + feb;
    assert DaysBeforeMonth(year, 7) == 153 + feb;
    assert DaysBeforeMonth(year, 8) == 184 + feb;
    assert DaysBeforeMonth(year, 9) == 215 + feb;
    assert DaysBeforeMonth(year, 10) == 245 + feb;
    assert DaysBeforeMonth(year, 11) == 276 + feb;
    assert DaysBeforeMonth(year, 12) == 306 + feb;
  }

  /** The day number of the next day is one more; so NextDay and Ordinal agree. */
  lemma NextDayOrdinal(d: Date)
    requires ValidDate(d)
    ensures ValidDate(NextDay(d)) && Ordinal(NextDay(d)) == Ordinal(d) + 1
  {
    if d.day == DaysInMonth(d.year, d.month) && d.month == 12 {
      DaysBeforeYearStep(d.year);
      MonthsFillYear(d.year);
    }
  }

  /** Weekdays advance cyclically from one day to the next: Sunday (7) is followed by Monday (1). */
  lemma NextDayWeekday(d: Date)
    requires ValidDate(d)
    ensures ValidDate(NextDay(d)) && IsoWeekday(NextDay(d)) == IsoWeekday(d) % 7 + 1
  {
    NextDayOrdinal(d);
    WeekdayCycle(Ordinal(d));
  }

  lemma WeekdayCycle(o: int)
    ensures (o + 1 + 6) % 7 + 1 == ((o + 6) % 7 + 1) % 7 + 1
  {
    var r := (o + 6) % 7;
    assert o + 6 == 7 * ((o + 6) / 7) + r;
    if r == 6 {
      assert o + 7 == 7 * ((o + 6) / 7 + 1);
    } else {
      assert o + 7 == 7 * ((o + 6) / 7) + (r + 1);
    }
  }

  /** 0001-01-01 of the proleptic Gregorian calendar was a Monday. */
  lemma FirstDayIsMonday()
    ensures Ordinal(Date(1, 1, 1)) == 1 && IsoWeekday(Date(1, 1, 1)) == 1
  {
    assert DaysBeforeYear(1) == 0;
    assert DaysBeforeMonth(1, 1) == 0;
  }
}
