/**
 * Calendar days as integer day numbers. Day 0 is a Sunday, so `d % 7` is JavaScript's
 * `getDay()` (0 = Sunday ... 6 = Saturday); Dafny's `%` never goes negative, so this holds
 * for days before day 0 too.
 */
module Dates {

  /** `date.getDay()`. */
  function DayOfWeek(d: int): (r: nat)
    ensures r < 7
  {
    d % 7
  }

  /** The next day is the next weekday, and Saturday is followed by Sunday. */
  lemma DayOfWeekNext(d: int)
    ensures DayOfWeek(d + 1) == if DayOfWeek(d) == 6 then 0 else DayOfWeek(d) + 1
  {
    assert d + 1 == (d / 7) * 7 + (d % 7 + 1);
  }

  /** Seven consecutive days starting on a Sunday. */
  predicate IsSundayWeek(w: seq<int>) {
    |w| == 7 && DayOfWeek(w[0]) == 0 && forall i :: 0 <= i < 7 ==> w[i] == w[0] + i
  }

  /**
   * `getWeekDates(date)`: step back `getDay()` days to Sunday, then take that day and the
   * six after it.
   */
  function WeekDates(d: int): (r: seq<int>)
    ensures IsSundayWeek(r)
    ensures r[0] <= d <= r[0] + 6
    ensures r[DayOfWeek(d)] == d
  {
    var start := d - DayOfWeek(d);
    seq(7, i requires 0 <= i < 7 => start + i)
  }

  /** The Sunday-started week holding a day is unique: any such week is `WeekDates(d)`. */
  lemma WeekDatesUnique(d: int, w: seq<int>)
    requires IsSundayWeek(w) && d in w
    ensures w == WeekDates(d)
  {
    var i :| 0 <= i < 7 && w[i] == d;
    assert w[0] == d - i;
    assert DayOfWeek(d) == i;
  }

  /** Days in month `month` (0 = January, as `getMonth()`) of the Gregorian year `year`. */
  function DaysInMonth(year: int, month: nat): (n: nat)
    requires month < 12
    ensures 28 <= n <= 31
  {
    if month == 1 then
      (if year % 4 == 0 && (year % 100 != 0 || year % 400 == 0) then 29 else 28)
    else if month == 3 || month == 5 || month == 8 || month == 10 then 30
    else 31
  }

  /**
   * `getMonthDates(date)`: from the first of the month step back to Sunday, then take 42
   * consecutive days (six weeks). `dayOfMonth` is `date.getDate()`.
   */
  function MonthDates(d: int, dayOfMonth: nat): (r: seq<int>)
    requires 1 <= dayOfMonth <= 31
    ensures |r| == 42
    ensures DayOfWeek(r[0]) == 0
    ensures forall i :: 0 <= i < 42 ==> r[i] == r[0] + i
    ensures var first := d - (dayOfMonth - 1); r[0] <= first <= r[0] + 6
  {
    var first := d - (dayOfMonth - 1);
    var start := first - DayOfWeek(first);
    seq(42, i requires 0 <= i < 42 => start + i)
  }

  /**
   * The 42-day window always shows the whole month, from the 1st to the last day
   * (`new Date(year, month + 1, 0)`): at most 6 leading days plus at most 31 days of the
   * month fit in 42. `d` is day `dayOfMonth` of month `month` of `year`.
   */
  lemma MonthDatesCoverMonth(d: int, year: int, month: nat, dayOfMonth: nat)
    requires month < 12 && 1 <= dayOfMonth <= DaysInMonth(year, month)
    ensures var first := d - (dayOfMonth - 1);
      forall k :: first <= k < first + DaysInMonth(year, month) ==> k in MonthDates(d, dayOfMonth)
  {
    var r := MonthDates(d, dayOfMonth);
    var first := d - (dayOfMonth - 1);
    forall k | first <= k < first + DaysInMonth(year, month)
      ensures k in r
    {
      assert r[k - r[0]] == k;
    }
  }
}
