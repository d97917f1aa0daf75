/** The day numbers are the Gregorian calendar: dates and day numbers are converted by the usual closed formula. */
module CalendarLaws {
  import opened Calendars

  /** The number of days before the first of January of a year: 365 a year, and one for each leap year that is over. */
  function NewYear(y: nat): (n: nat)
    requires y >= 1
  {
    365 * (y - 1) + (y - 1) / 4 - (y - 1) / 100 + (y - 1) / 400
  }

  /** The days of a year before each of its months, without a 29th of February. */
  const BEFORE_MONTH: seq<nat> := [0, 31, 59, 90, 120, 151, 181, 212, 243, 273, 304, 334, 365]

  function LeapDays(y: nat): int
    requires y >= 1
  {
    NewYear(y + 1) - NewYear(y) - 365
  }

  /** The day number of the first of a month; month 13 is the next January. */
  function MonthStart(y: nat, m: nat): nat
    requires y >= 1 && 1 <= m <= 13
  {
    LeapYear(y);
    NewYear(y) + BEFORE_MONTH[m - 1] + (if m > 2 then LeapDays(y) else 0)
  }

  lemma Fourths(y: nat)
    requires y >= 1
    ensures y / 4 - (y - 1) / 4 == if y % 4 == 0 then 1 else 0
  {
  }

  lemma Hundredths(y: nat)
    requires y >= 1
    ensures y / 100 - (y - 1) / 100 == if y % 100 == 0 then 1 else 0
  {
  }

  lemma FourHundredths(y: nat)
    requires y >= 1
    ensures y / 400 - (y - 1) / 400 == if y % 400 == 0 then 1 else 0
  {
  }

  lemma Multiples(y: nat)
    ensures y % 400 == 0 ==> y % 100 == 0
    ensures y % 100 == 0 ==> y % 4 == 0
  {
    if y % 400 == 0 {
      assert y == 100 * (4 * (y / 400));
    }
    if y % 100 == 0 {
      assert y == 4 * (25 * (y / 100));
    }
  }

  /** A year has a leap day exactly when the model's calendar gives it one. */
  lemma LeapYear(y: nat)
    requires y >= 1
    ensures LeapDays(y) == if IsLeap(y) then 1 else 0
  {
    Fourths(y);
    Hundredths(y);
    FourHundredths(y);
    Multiples(y);
    LeapSum(y, y / 4, (y - 1) / 4, y / 100, (y - 1) / 100, y / 400, (y - 1) / 400);
  }

  lemma LeapSum(y: nat, a: nat, a': nat, b: nat, b': nat, c: nat, c': nat)
    requires y >= 1 && a == y / 4 && a' == (y - 1) / 4 && b == y / 100 && b' == (y - 1) / 100 && c == y / 400 && c' == (y - 1) / 400
    ensures LeapDays(y) == (a - a') - (b - b') + (c - c')
  {
  }

  /** Months have their usual lengths. */
  lemma MonthLengths(y: nat, m: nat)
    requires y >= 1 && 1 <= m <= 12
    ensures MonthStart(y, m + 1) == MonthStart(y, m) + DaysIn(y, m)
  {
    LeapYear(y);
  }

  lemma YearEnds(y: nat)
    requires y >= 1
    ensures MonthStart(y, 13) == MonthStart(y + 1, 1)
  {
  }

  /** Each month starts where the formula says. */
  lemma {:induction false} FirstOfMonth(y: nat, m: nat)
    requires y >= 1 && 1 <= m <= 12
    ensures Civil(MonthStart(y, m)) == Date(y, m, 1)
    decreases y, m
  {
    if m > 1 {
      FirstOfMonth(y, m - 1);
      OneMonthOn(y, m - 1, MonthStart(y, m - 1), MonthStart(y, m));
    } else if y > 1 {
      FirstOfMonth(y - 1, 12);
      YearEnds(y - 1);
      OneMonthOn(y - 1, 12, MonthStart(y - 1, 12), MonthStart(y, 1));
    }
  }

  lemma OneMonthOn(y: nat, m: nat, n: nat, next: nat)
    requires y >= 1 && 1 <= m <= 12 && n == MonthStart(y, m) && next == MonthStart(y, m + 1) && Civil(n) == Date(y, m, 1)
    ensures Civil(next) == if m < 12 then Date(y, m + 1, 1) else Date(y + 1, 1, 1)
  {
    MonthLengths(y, m);
    NextMonth(n);
  }

  /**
   Every date has the day number of the closed formula: years are 365 days and every fourth, except every hundredth,
   but also every four hundredth, one more; and months have their usual lengths.
   */
  lemma CivilIsGregorian(y: nat, m: nat, d: nat)
    requires y >= 1 && 1 <= m <= 12 && 1 <= d <= MonthStart(y, m + 1) - MonthStart(y, m)
    ensures Civil(MonthStart(y, m) + (d - 1)) == Date(y, m, d)
  {
    FirstOfMonth(y, m);
    MonthLengths(y, m);
    DayOn(y, m, d, MonthStart(y, m));
  }

  lemma DayOn(y: nat, m: nat, d: nat, n: nat)
    requires Civil(n) == Date(y, m, 1) && 1 <= d <= DaysIn(y, m)
    ensures Civil(n + (d - 1)) == Date(y, m, d)
  {
    SameMonth(n, d - 1);
  }

  /** And every day number is that of its date. */
  lemma {:induction false} DayNumberOfCivil(n: nat)
    ensures var c := Civil(n);
      && c.year >= 1 && 1 <= c.month <= 12 && n == MonthStart(c.year, c.month) + (c.day - 1)
      && 1 <= c.day <= MonthStart(c.year, c.month + 1) - MonthStart(c.year, c.month)
  {
    if n > 0 {
      DayNumberOfCivil(n - 1);
      NextDayNumber(Civil(n - 1), n - 1);
    }
    MonthLengths(Civil(n).year, Civil(n).month);
  }

  lemma NextDayNumber(was: Date, n: nat)
    requires ValidDate(was) && was.year >= 1 && n == MonthStart(was.year, was.month) + (was.day - 1)
    ensures var c := Tomorrow(was); c.year >= 1 && 1 <= c.month <= 12 && n + 1 == MonthStart(c.year, c.month) + (c.day - 1)
  {
    MonthLengths(was.year, was.month);
    YearEnds(was.year);
  }

  /** Years begin where the formula says. */
  lemma YearsBegin(y: nat)
    requires y >= 1
    ensures Civil(NewYear(y)) == Date(y, 1, 1)
  {
    CivilIsGregorian(y, 1, 1);
  }

  /** Weekdays repeat every seven days from a Monday on, and the first day of 2024 is one. */
  lemma WeekdaysAreAnchored(n: nat)
    ensures IsoWeekday(n) == n % 7 + 1
    ensures IsoWeekday(NewYear(2024)) == 1
  {
    assert NewYear(2024) == 738885;
  }
}
