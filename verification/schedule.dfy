/**
 Calendar scheduling in Beijing wall-clock time.  Dates are the proleptic Gregorian calendar, counted in days
 from 0001-01-01 (day 0, a Monday).
 */
module Calendars {

  datatype Date = Date(year: nat, month: nat, day: nat)

  predicate IsLeap(y: nat) {
    y % 4 == 0 && (y % 100 != 0 || y % 400 == 0)
  }

  function DaysIn(y: nat, m: nat): (d: nat)
    ensures 28 <= d <= 31
  {
    if m in {4, 6, 9, 11} then 30 else if m == 2 then (if IsLeap(y) then 29 else 28) else 31
  }

  predicate ValidDate(d: Date) {
    1 <= d.month <= 12 && 1 <= d.day <= DaysIn(d.year, d.month)
  }

  function Tomorrow(d: Date): Date {
    if d.day < DaysIn(d.year, d.month) then Date(d.year, d.month, d.day + 1)
    else if d.month < 12 then Date(d.year, d.month + 1, 1)
    else Date(d.year + 1, 1, 1)
  }

  /** The civil date of a day number. */
  function Civil(n: nat): (d: Date)
    ensures ValidDate(d)
  {
    if n == 0 then Date(1, 1, 1) else Tomorrow(Civil(n - 1))
  }

  /** Monday is 1. */
  function IsoWeekday(n: nat): (w: nat)
    ensures 1 <= w <= 7
  {
    n % 7 + 1
  }

  /** Within a month the day of the month counts up. */
  lemma {:induction false} SameMonth(n: nat, k: nat)
    requires Civil(n).day + k <= DaysIn(Civil(n).year, Civil(n).month)
    ensures Civil(n + k) == Date(Civil(n).year, Civil(n).month, Civil(n).day + k)
  {
    if k > 0 {
      SameMonth(n, k - 1);
    }
  }

  /** The first day of the next month, at most 31 days ahead. */
  function ToNextMonth(d: Date): (k: nat)
    requires ValidDate(d)
    ensures 1 <= k <= 31
  {
    DaysIn(d.year, d.month) - d.day + 1
  }

  lemma NextMonth(n: nat)
    ensures var k := ToNextMonth(Civil(n));
      Civil(n + k) == if Civil(n).month < 12 then Date(Civil(n).year, Civil(n).month + 1, 1) else Date(Civil(n).year + 1, 1, 1)
  {
    var k := ToNextMonth(Civil(n));
    SameMonth(n, k - 1);
    assert Civil(n + k) == Tomorrow(Civil(n + (k - 1)));
  }

  lemma LaterThisMonth(n: nat, day: nat)
    requires Civil(n).day <= day <= DaysIn(Civil(n).year, Civil(n).month)
    ensures Civil(n + (day - Civil(n).day)).day == day
  {
    SameMonth(n, day - Civil(n).day);
  }

  lemma InNextMonth(n: nat, day: nat)
    requires var m := n + ToNextMonth(Civil(n)); 1 <= day <= DaysIn(Civil(m).year, Civil(m).month)
    ensures Civil(n + ToNextMonth(Civil(n)) + (day - 1)).day == day
  {
    NextMonth(n);
    LaterThisMonth(n + ToNextMonth(Civil(n)), day);
  }

  /** `e` is the first day of the month after that of `d`. */
  predicate Follows(d: Date, e: Date) {
    ValidDate(d) && ValidDate(e) && e.day == 1 && (if d.month < 12 then e.month == d.month + 1 else e.month == 1)
  }

  lemma NextFollows(n: nat)
    ensures Follows(Civil(n), Civil(n + ToNextMonth(Civil(n))))
  {
    NextMonth(n);
  }

  /** Of two neighbouring months one has 31 days. */
  lemma LongNeighbour(d: Date, e: Date)
    requires Follows(d, e)
    ensures DaysIn(d.year, d.month) == 31 || DaysIn(e.year, e.month) == 31
  {
  }

  /** A day that neither the rest of this month nor the next one has is in the one after, soon enough. */
  lemma ThirdMonthHasIt(d: Date, e: Date, f: Date, day: nat)
    requires Follows(d, e) && Follows(e, f) && 1 <= day <= 31
    requires !(d.day <= day <= DaysIn(d.year, d.month)) && day > DaysIn(e.year, e.month)
    ensures day <= DaysIn(f.year, f.month) && ToNextMonth(d) + ToNextMonth(e) + (day - 1) <= 62
  {
    LongNeighbour(d, e);
    LongNeighbour(e, f);
  }

  lemma InThirdMonth(n: nat, day: nat) returns (k: nat)
    requires var d, e := Civil(n), Civil(n + ToNextMonth(Civil(n)));
      1 <= day <= 31 && !(d.day <= day <= DaysIn(d.year, d.month)) && day > DaysIn(e.year, e.month)
    ensures k <= 62 && Civil(n + k).day == day
  {
    var m := n + ToNextMonth(Civil(n));
    NextFollows(n);
    NextFollows(m);
    ThirdMonthHasIt(Civil(n), Civil(m), Civil(m + ToNextMonth(Civil(m))), day);
    InNextMonth(m, day);
    k := ToNextMonth(Civil(n)) + ToNextMonth(Civil(m)) + (day - 1);
  }

  /** Every day of the month from 1 to 31 comes up again within 62 days: no two neighbouring months are both short. */
  lemma MonthDayRecurs(n: nat, day: nat) returns (k: nat)
    requires 1 <= day <= 31
    ensures k <= 62 && Civil(n + k).day == day
  {
    var d := Civil(n);
    var a := ToNextMonth(d);
    var e := Civil(n + a);
    NextFollows(n);
    if d.day <= day <= DaysIn(d.year, d.month) {
      k := day - d.day;
      LaterThisMonth(n, day);
    } else if day <= DaysIn(e.year, e.month) {
      k := a + (day - 1);
      InNextMonth(n, day);
    } else {
      k := InThirdMonth(n, day);
    }
  }

  lemma WeekdayRecurs(n: nat, weekday: nat) returns (k: nat)
    requires 1 <= weekday <= 7
    ensures k <= 6 && IsoWeekday(n + k) == weekday
  {
    k := (weekday + 6 - n % 7) % 7;
    assert (n + k) % 7 == weekday - 1;
  }
}
