/** The next run of a scheduled task: `compute_next_occurrence` and what makes its search window long enough. */
module NextOccurrences {
  import opened Options
  import opened Calendars

  const MINUTE: nat := 60_000_000
  const DAY: nat := 1440 * MINUTE
  const WINDOW: nat := 366 * 20

  /** A wall-clock moment: day number and microseconds since midnight. */
  datatype Moment = Moment(day: nat, micros: nat)

  predicate Before(a: Moment, b: Moment) {
    a.day < b.day || (a.day == b.day && a.micros < b.micros)
  }

  function Plus(m: Moment, seconds: nat): Moment {
    var total := m.micros + seconds * 1_000_000;
    Moment(m.day + total / DAY, total % DAY)
  }

  /** One entry of `times`: not a string, not of the form `a:b`, or two integers. */
  datatype RawTime = NotText | NotClock | Clock(hour: int, minute: int)

  datatype Rule =
    | Once(at: Option<Moment>)        // `None`: missing or unreadable
    | Recurring(interval: int)
    | Daily
    | Weekly(weekdays: Option<seq<int>>)
    | Monthly(monthDays: Option<seq<int>>)
    | Unknown

  datatype Task = Task(rule: Rule, times: Option<seq<RawTime>>, time: RawTime, start: Option<nat>, end: Option<nat>)

  datatype Occurrence = At(moment: Moment) | Exhausted | Invalid

  predicate IsCalendar(rule: Rule) {
    rule.Daily? || rule.Weekly? || rule.Monthly?
  }

  predicate ValidClock(t: RawTime) {
    t.Clock? && 0 <= t.hour <= 23 && 0 <= t.minute <= 59
  }

  function MicrosOf(t: RawTime): nat
    requires ValidClock(t)
  {
    (t.hour * 60 + t.minute) * MINUTE
  }

  /** The entries that count: `times`, or the single `time`. */
  function RawTimes(task: Task): seq<RawTime> {
    if task.times.None? then [task.time] else task.times.value
  }

  predicate ValidTimes(task: Task) {
    RawTimes(task) != [] && forall i :: 0 <= i < |RawTimes(task)| ==> ValidClock(RawTimes(task)[i])
  }

  predicate IsTime(task: Task, micros: nat) {
    exists i :: 0 <= i < |RawTimes(task)| && ValidClock(RawTimes(task)[i]) && MicrosOf(RawTimes(task)[i]) == micros
  }

  predicate DayMatches(rule: Rule, day: nat) {
    match rule
    case Daily => true
    case Weekly(weekdays) => weekdays.Some? && IsoWeekday(day) in weekdays.value
    case Monthly(monthDays) => monthDays.Some? && Civil(day).day in monthDays.value
    case _ => false
  }

  predicate InRange(task: Task, day: nat) {
    (task.start.Some? ==> task.start.value <= day) && (task.end.Some? ==> day <= task.end.value)
  }

  /** A moment at which a calendar task runs after the reference. */
  predicate Candidate(task: Task, reference: Moment, m: Moment) {
    Before(reference, m) && InRange(task, m.day) && DayMatches(task.rule, m.day) && IsTime(task, m.micros)
  }

  function FirstDay(task: Task, reference: Moment): nat {
    if task.start.Some? && task.start.value > reference.day then task.start.value else reference.day
  }

  predicate DatesInOrder(task: Task) {
    task.start.Some? && task.end.Some? ==> task.start.value <= task.end.value
  }

  /** `None` is the validation error. */
  method TaskTimes(task: Task) returns (r: Option<seq<nat>>)
    ensures r.Some? <==> ValidTimes(task)
    ensures r.Some? ==> r.value != [] && forall i, j :: 0 <= i < j < |r.value| ==> r.value[i] < r.value[j]
    ensures r.Some? ==> forall t :: t in r.value <==> IsTime(task, t)
  {
    var raw := RawTimes(task);
    if raw == [] {
      return None;
    }
    var parsed: seq<nat> := [];
    var i := 0;
    while i < |raw|
      invariant i <= |raw| && (i > 0 ==> parsed != [])
      invariant forall k :: 0 <= k < i ==> ValidClock(raw[k])
      invariant forall j, k :: 0 <= j < k < |parsed| ==> parsed[j] < parsed[k]
      invariant forall t :: t in parsed <==> exists k :: 0 <= k < i && MicrosOf(raw[k]) == t
    {
      if !ValidClock(raw[i]) {
        return None;
      }
      parsed := InsertSorted(parsed, MicrosOf(raw[i]));
      i := i + 1;
    }
    return Some(parsed);
  }

  /** One step of `sorted(set(parsed))`. */
  function InsertSorted(s: seq<nat>, x: nat): (r: seq<nat>)
    requires forall i, j :: 0 <= i < j < |s| ==> s[i] < s[j]
    ensures forall i, j :: 0 <= i < j < |r| ==> r[i] < r[j]
    ensures forall y :: y in r <==> y in s || y == x
    ensures r != []
  {
    if s == [] || x < s[0] then [x] + s
    else if x == s[0] then s
    else
      var rest := InsertSorted(s[1..], x);
      assert s == [s[0]] + s[1..];
      assert forall i :: 0 <= i < |rest| ==> rest[i] in rest && s[0] < rest[i];
      [s[0]] + rest
  }

  /** The result is exactly the next run. */
  ghost predicate IsNext(task: Task, reference: Moment, r: Occurrence) {
    if !DatesInOrder(task) then r.Invalid?
    else match task.rule
      case Once(at) =>
        if at.None? then r.Invalid? else r == (if InRange(task, at.value.day) then At(at.value) else Exhausted)
      case Recurring(interval) =>
        if interval < 1 then r.Invalid?
        else
          var next := Plus(reference, interval);
          var m := if task.start.Some? && next.day < task.start.value then Moment(task.start.value, 0) else next;
          r == (if task.end.Some? && m.day > task.end.value then Exhausted else At(m))
      case Unknown => r.Invalid?
      case _ =>
        if !ValidTimes(task) then r.Invalid?
        else IsNextOnCalendar(task, reference, r)
  }

  ghost predicate IsNextOnCalendar(task: Task, reference: Moment, r: Occurrence) {
    match r
    case At(m) => Candidate(task, reference, m) && forall x :: Candidate(task, reference, x) ==> !Before(x, m)
    case Exhausted => EndsInWindow(task, reference) && forall x :: !Candidate(task, reference, x)
    case Invalid =>
      && !EndsInWindow(task, reference)
      && forall x :: Candidate(task, reference, x) ==> x.day >= FirstDay(task, reference) + WINDOW
  }

  /** The end date stops the search before its last day. */
  predicate EndsInWindow(task: Task, reference: Moment) {
    task.end.Some? && task.end.value + 1 < FirstDay(task, reference) + WINDOW
  }

  method SearchCalendar(task: Task, times: seq<nat>, reference: Moment) returns (r: Occurrence)
    requires IsCalendar(task.rule) && DatesInOrder(task)
    requires forall i, j :: 0 <= i < j < |times| ==> times[i] < times[j]
    requires forall t :: t in times <==> IsTime(task, t)
    ensures IsNextOnCalendar(task, reference, r)
  {
    var firstDay := FirstDay(task, reference);
    var offset := 0;
    while offset < WINDOW
      invariant offset <= WINDOW
      invariant forall x :: Candidate(task, reference, x) ==> x.day >= firstDay + offset
      invariant offset > 0 && task.end.Some? ==> firstDay + offset <= task.end.value + 1
    {
      var day := firstDay + offset;
      if task.end.Some? && day > task.end.value {
        return Exhausted;
      }
      if DayMatches(task.rule, day) {
        var i := 0;
        while i < |times|
          invariant i <= |times|
          invariant forall k :: 0 <= k < i ==> !Before(reference, Moment(day, times[k]))
        {
          var candidate := Moment(day, times[i]);
          if Before(reference, candidate) {
            assert IsTime(task, times[i]);
            forall x | Candidate(task, reference, x) ensures !Before(x, candidate) {
              assert x.micros in times;
            }
            return At(candidate);
          }
          i := i + 1;
        }
      }
      forall x | Candidate(task, reference, x) ensures x.day >= firstDay + offset + 1 {
        assert x.micros in times;
      }
      offset := offset + 1;
    }
    return Invalid;
  }

  /** `compute_next_occurrence`. */
  method ComputeNextOccurrence(task: Task, reference: Moment) returns (r: Occurrence)
    ensures IsNext(task, reference, r)
  {
    if task.start.Some? && task.end.Some? && task.start.value > task.end.value {
      return Invalid;
    }
    match task.rule {
      case Once(at) =>
        if at.None? {
          return Invalid;
        }
        return if InRange(task, at.value.day) then At(at.value) else Exhausted;
      case Recurring(interval) =>
        if interval < 1 {
          return Invalid;
        }
        var candidate := Plus(reference, interval);
        if task.start.Some? && candidate.day < task.start.value {
          candidate := Moment(task.start.value, 0);
        }
        if task.end.Some? && candidate.day > task.end.value {
          return Exhausted;
        }
        return At(candidate);
      case Unknown => return Invalid;
      case _ =>
        var times := TaskTimes(task);
        if times.None? {
          return Invalid;
        }
        r := SearchCalendar(task, times.value, reference);
    }
  }

  /* ---- The search window ---- */

  /** Some real day can match: weekdays meet 1..7, month days meet 1..31. */
  predicate CanMatch(rule: Rule) {
    match rule
    case Daily => true
    case Weekly(weekdays) => weekdays.Some? && exists w :: 1 <= w <= 7 && w in weekdays.value
    case Monthly(monthDays) => monthDays.Some? && exists d :: 1 <= d <= 31 && d in monthDays.value
    case _ => false
  }

  lemma MatchesSoon(rule: Rule, day: nat) returns (k: nat)
    requires CanMatch(rule)
    ensures k <= 62 && DayMatches(rule, day + k)
  {
    match rule {
      case Daily => k := 0;
      case Weekly(weekdays) =>
        var w :| 1 <= w <= 7 && w in weekdays.value;
        k := WeekdayRecurs(day, w);
      case Monthly(monthDays) =>
        var d :| 1 <= d <= 31 && d in monthDays.value;
        k := MonthDayRecurs(day, d);
    }
  }

  lemma NeverMatches(rule: Rule, day: nat)
    requires !CanMatch(rule)
    ensures !DayMatches(rule, day)
  {
  }

  /**
   For a well-formed calendar task the "no run within the window" error occurs exactly when no day of any
   month or week can match and no end date ends the search first.
   */
  lemma WindowErrorExactly(task: Task, reference: Moment, r: Occurrence)
    requires IsCalendar(task.rule) && ValidTimes(task) && DatesInOrder(task) && IsNext(task, reference, r)
    ensures r.Invalid? <==> !CanMatch(task.rule) && !EndsInWindow(task, reference)
  {
    if CanMatch(task.rule) {
      var first := FirstDay(task, reference);
      var k := MatchesSoon(task.rule, first + 1);
      var m := Moment(first + 1 + k, MicrosOf(RawTimes(task)[0]));
      assert IsTime(task, m.micros);
      if r.Invalid? {
        assert Candidate(task, reference, m);
      }
    } else {
      forall m ensures !Candidate(task, reference, m) {
        NeverMatches(task.rule, m.day);
      }
    }
  }

  /** The specification determines the result. */
  lemma NextIsUnique(task: Task, reference: Moment, a: Occurrence, b: Occurrence)
    requires IsNext(task, reference, a) && IsNext(task, reference, b)
    ensures a == b
  {
    if IsCalendar(task.rule) && ValidTimes(task) && DatesInOrder(task) {
      WindowErrorExactly(task, reference, a);
      WindowErrorExactly(task, reference, b);
      if a.At? && b.At? {
        assert !Before(a.moment, b.moment) && !Before(b.moment, a.moment);
      }
    }
  }

  /** A recurring or calendar task is next due strictly after the reference. */
  lemma NextIsLater(task: Task, reference: Moment, m: Moment)
    requires !task.rule.Once? && IsNext(task, reference, At(m)) && reference.micros < DAY
    ensures Before(reference, m)
  {
  }
}
