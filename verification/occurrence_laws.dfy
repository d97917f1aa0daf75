/** What the next occurrence is on the calendar: clock times, weekdays, Gregorian dates and date limits spelled out. */
module OccurrenceLaws {
  import opened Options
  import opened Calendars
  import opened CalendarLaws
  import opened NextOccurrences

  function Entries(task: Task): seq<RawTime> {
    if task.times.Some? then task.times.value else [task.time]
  }

  predicate IsClock(t: RawTime) {
    t.Clock? && 0 <= t.hour && t.hour < 24 && 0 <= t.minute && t.minute < 60
  }

  /** The day with this number has this day of the month. */
  ghost predicate HasDate(n: nat, y: nat, m: nat, d: nat) {
    && y >= 1 && 1 <= m <= 12 && 1 <= d <= MonthStart(y, m + 1) - MonthStart(y, m)
    && n == MonthStart(y, m) + (d - 1)
  }

  ghost predicate OnListedDay(rule: Rule, n: nat) {
    match rule
    case Daily => true
    case Weekly(weekdays) => weekdays.Some? && exists w :: w in weekdays.value && w == n % 7 + 1
    case Monthly(monthDays) => monthDays.Some? && exists y, m, d :: HasDate(n, y, m, d) && d in monthDays.value
    case _ => false
  }

  ghost predicate AtListedTime(task: Task, micros: nat) {
    exists i :: 0 <= i < |Entries(task)| && IsClock(Entries(task)[i])
      && micros == (Entries(task)[i].hour * 3600 + Entries(task)[i].minute * 60) * 1_000_000
  }

  /** A calendar task is due at this moment. */
  ghost predicate DueAt(task: Task, x: Moment) {
    && (task.start.Some? ==> task.start.value <= x.day) && (task.end.Some? ==> x.day <= task.end.value)
    && OnListedDay(task.rule, x.day) && AtListedTime(task, x.micros)
  }

  /** Microseconds since the first midnight. */
  function Instant(m: Moment): nat {
    m.day * 86_400_000_000 + m.micros
  }

  lemma OnListedDayIff(rule: Rule, n: nat)
    requires IsCalendar(rule)
    ensures DayMatches(rule, n) <==> OnListedDay(rule, n)
  {
    if rule.Monthly? {
      DayNumberOfCivil(n);
      var c := Civil(n);
      assert HasDate(n, c.year, c.month, c.day);
      forall y, m, d | HasDate(n, y, m, d) ensures d == c.day {
        CivilIsGregorian(y, m, d);
      }
    }
  }

  lemma AtListedTimeIff(task: Task, micros: nat)
    ensures IsTime(task, micros) <==> AtListedTime(task, micros)
    ensures IsTime(task, micros) ==> micros < 86_400_000_000
  {
    assert RawTimes(task) == Entries(task);
  }

  lemma DueIff(task: Task, reference: Moment, x: Moment)
    requires IsCalendar(task.rule) && reference.micros < 86_400_000_000
    ensures Candidate(task, reference, x) <==> DueAt(task, x) && Instant(reference) < Instant(x)
  {
    OnListedDayIff(task.rule, x.day);
    AtListedTimeIff(task, x.micros);
  }

  /** A calendar task runs next at the first moment after the reference at which it is due. */
  lemma NextIsFirstDue(task: Task, reference: Moment, m: Moment)
    requires IsCalendar(task.rule) && reference.micros < 86_400_000_000 && IsNext(task, reference, At(m))
    ensures DueAt(task, m) && Instant(reference) < Instant(m)
    ensures forall x :: DueAt(task, x) && Instant(reference) < Instant(x) ==> Instant(m) <= Instant(x)
  {
    DueIff(task, reference, m);
    forall x | DueAt(task, x) && Instant(reference) < Instant(x) ensures Instant(m) <= Instant(x) {
      DueIff(task, reference, x);
      AtListedTimeIff(task, x.micros);
      AtListedTimeIff(task, m.micros);
      assert !Before(x, m);
    }
  }

  /** A task that runs no more has no moment left at which it is due. */
  lemma NoneLeft(task: Task, reference: Moment, x: Moment)
    requires IsCalendar(task.rule) && reference.micros < 86_400_000_000 && IsNext(task, reference, Exhausted) && DueAt(task, x)
    ensures Instant(x) <= Instant(reference)
  {
    DueIff(task, reference, x);
  }

  /** Some weekday from 1 to 7, or some day from 1 to 31, is on the list. */
  ghost predicate ListsADay(rule: Rule) {
    match rule
    case Daily => true
    case Weekly(weekdays) => weekdays.Some? && exists w :: w in weekdays.value && 0 < w && w < 8
    case Monthly(monthDays) => monthDays.Some? && exists d :: d in monthDays.value && 0 < d && d < 32
    case _ => false
  }

  /** The task is unusable: dates in the wrong order, no clock time or an impossible one, no interval, or no moment. */
  ghost predicate Unusable(task: Task) {
    || (task.start.Some? && task.end.Some? && task.end.value < task.start.value)
    || match task.rule
       case Once(at) => at.None?
       case Recurring(interval) => interval <= 0
       case Unknown => true
       case _ => |Entries(task)| == 0 || exists i :: 0 <= i < |Entries(task)| && !IsClock(Entries(task)[i])
  }

  /** The first day the search looks at: that of the reference, or the start date if that is later. */
  function SearchFrom(task: Task, reference: Moment): nat {
    if task.start.Some? && reference.day < task.start.value then task.start.value else reference.day
  }

  /** Exactly when there is no answer: an unusable task, or no day that exists is listed and the end date leaves 20 years to search. */
  lemma InvalidIff(task: Task, reference: Moment, r: Occurrence)
    requires IsNext(task, reference, r)
    ensures r.Invalid? <==>
      || Unusable(task)
      || (IsCalendar(task.rule) && !ListsADay(task.rule)
          && (task.end.None? || SearchFrom(task, reference) + 7320 <= task.end.value + 1))
  {
    assert RawTimes(task) == Entries(task);
    if IsCalendar(task.rule) && !Unusable(task) {
      assert ValidTimes(task);
      WindowErrorExactly(task, reference, r);
      assert CanMatch(task.rule) <==> ListsADay(task.rule);
    }
  }

  /** Adding an interval moves the instant by that many seconds and stays on the clock. */
  lemma PlusAdds(m: Moment, seconds: nat)
    ensures Instant(Plus(m, seconds)) == Instant(m) + seconds * 1_000_000
    ensures Plus(m, seconds).micros < 86_400_000_000
  {
  }

  /** A recurring task runs one interval after the reference, or at the start of its first day, and not after its last. */
  lemma RecurringIs(task: Task, reference: Moment, r: Occurrence)
    requires task.rule.Recurring? && !Unusable(task) && IsNext(task, reference, r)
    ensures r.At? ==>
      var due := Instant(reference) + task.rule.interval * 1_000_000;
      && r.moment.micros < 86_400_000_000
      && Instant(r.moment) ==
         if task.start.Some? && due < task.start.value * 86_400_000_000 then task.start.value * 86_400_000_000 else due
    ensures r.Exhausted? <==>
      task.end.Some? && Instant(reference) + task.rule.interval * 1_000_000 >= (task.end.value + 1) * 86_400_000_000
  {
    PlusAdds(reference, task.rule.interval);
  }

  /** A task that runs once is due at its moment, whenever that is, unless the date limits exclude it. */
  lemma OnceIs(task: Task, reference: Moment, r: Occurrence)
    requires task.rule.Once? && !Unusable(task) && IsNext(task, reference, r)
    ensures var at := task.rule.at.value;
      var inside := (task.start.Some? ==> task.start.value <= at.day) && (task.end.Some? ==> at.day <= task.end.value);
      r == if inside then At(at) else Exhausted
  {
  }
}
