/**
 Claiming and finishing scheduled tasks with attempt generations, on a store that applies each update
 atomically and refuses records that break its own rules.
 */
module Lifecycles {
  import opened Options
  import opened Calendars
  import opened NextOccurrences

  datatype Status = Enabled | Running | Paused | Failed | Completed | Cancelled

  /** `attempt == 0` means the task was never claimed; `next == None` is the empty `next_run_at`. */
  datatype Record = Record(task: Task, status: Status, attempt: nat, runs: nat, maxRuns: Option<nat>, next: Option<Moment>)

  datatype Result = Succeeded | FailedRun | CancelledRun

  /** The store's validation of counters and of the next run. */
  predicate Storable(r: Record) {
    && (r.maxRuns.Some? ==> r.maxRuns.value >= 1 && r.runs <= r.maxRuns.value)
    && (r.maxRuns.Some? && r.runs >= r.maxRuns.value ==> r.status !in {Enabled, Paused, Failed})
    && (r.status in {Enabled, Running, Failed} ==> r.next.Some?)
  }

  /** `CronStore.update`: a refused update leaves the record as it was. */
  function Update(r: Record, changed: Option<Record>): Record {
    if changed.Some? && Storable(changed.value) then changed.value else r
  }

  function Claimed(r: Record, attempt: nat): Option<Record> {
    if r.status != Enabled then None else Some(r.(status := Running, attempt := attempt))
  }

  function Reverted(r: Record): Option<Record> {
    Some(r.(status := Enabled))
  }

  /** `occ` is the next occurrence computed when the run succeeded. */
  function Finished(r: Record, attempt: nat, result: Result, occ: Occurrence): Option<Record> {
    if r.attempt != attempt then None
    else match result
      case CancelledRun => Some(r.(status := Cancelled, next := None))
      case FailedRun => Some(r.(status := Failed))
      case Succeeded =>
        var s := r.(runs := r.runs + 1);
        if r.task.rule.Once? || (r.maxRuns.Some? && s.runs >= r.maxRuns.value) then
          Some(s.(status := Completed, next := None))
        else match occ
          case At(m) => Some(s.(status := Enabled, next := Some(m)))
          case Exhausted => Some(s.(status := Completed, next := None))
          case Invalid => None
  }

  class CronTaskStore {
    var record: Record
    var attempts: nat  // attempt identifiers handed out so far

    constructor (record: Record)
      requires Storable(record)
      ensures this.record == record && attempts == record.attempt
    {
      this.record, attempts := record, record.attempt;
    }

    /** Replace the record if the store accepts it. */
    method Store(changed: Record) returns (ok: bool)
      modifies this`record
      ensures record == Update(old(record), Some(changed)) && (ok <==> Storable(changed))
    {
      ok := Storable(changed);
      if ok {
        record := changed;
      }
    }

    method ClaimTask() returns (attempt: Option<nat>)
      modifies this
      ensures record == Update(old(record), Claimed(old(record), old(attempts) + 1))
      ensures attempts == old(attempts) + 1 && (attempt.Some? ==> attempt.value == attempts && record.attempt == attempts)
      ensures attempt.Some? <==>
        old(record).status == Enabled && Storable(old(record).(status := Running, attempt := old(attempts) + 1))
    {
      attempts := attempts + 1;
      if record.status != Enabled {
        return None;
      }
      var current := record.(status := Running);
      current := current.(attempt := attempts);
      var ok := Store(current);
      return if ok then Some(attempts) else None;
    }

    method FinishTask(attempt: nat, result: Result, now: Moment) returns (ok: bool, ghost occ: Occurrence)
      modifies this`record
      ensures IsNext(old(record).task, now, occ)
      ensures record == Update(old(record), Finished(old(record), attempt, result, occ))
      ensures ok <==> Finished(old(record), attempt, result, occ).Some? && Storable(Finished(old(record), attempt, result, occ).value)
    {
      var next := ComputeNextOccurrence(record.task, now);
      occ := next;
      if record.attempt != attempt {
        return false, occ;
      }
      var current := record;
      match result {
        case CancelledRun =>
          current := current.(status := Cancelled);
          current := current.(next := None);
        case FailedRun =>
          current := current.(status := Failed);
        case Succeeded =>
          current := current.(runs := current.runs + 1);
          if current.task.rule.Once? {
            current := current.(status := Completed, next := None);
          } else if current.maxRuns.Some? && current.runs >= current.maxRuns.value {
            current := current.(status := Completed, next := None);
          } else {
            if next.Invalid? {
              return false, occ;
            }
            current := current.(status := if next.At? then Enabled else Completed,
                                next := if next.At? then Some(next.moment) else None);
          }
      }
      ok := Store(current);
    }

    /** The error of the store is swallowed and the stored record returned. */
    method RevertClaim()
      modifies this`record
      ensures record == Update(old(record), Reverted(old(record)))
    {
      var _ := Store(record.(status := Enabled));
    }
  }

  /* ---- Whole runs ---- */

  /** Events of any number of workers; `occ` is what the schedule yields at `now`. */
  datatype Event = Claim | Finish(attempt: nat, result: Result, now: Moment, occ: Occurrence) | Revert

  /** `finished` are the attempts that already wrote an outcome. */
  datatype World = World(record: Record, attempts: nat, finished: set<nat>)

  function Next(w: World, e: Event): World {
    match e
    case Claim => w.(record := Update(w.record, Claimed(w.record, w.attempts + 1)), attempts := w.attempts + 1)
    case Finish(a, result, _, occ) =>
      w.(record := Update(w.record, Finished(w.record, a, result, occ)), finished := w.finished + {a})
    case Revert => w.(record := Update(w.record, Reverted(w.record)))
  }

  function Run(w: World, events: seq<Event>): World
    decreases |events|
  {
    if events == [] then w else Run(Next(w, events[0]), events[1..])
  }

  /** Every attempt writes at most one outcome, and the schedule answers are right. */
  ghost predicate OneOutcomeEach(w: World, events: seq<Event>)
    decreases |events|
  {
    events == [] ||
    (&& (events[0].Finish? ==> events[0].attempt !in w.finished && events[0].attempt <= w.attempts
                               && IsNext(w.record.task, events[0].now, events[0].occ))
     && OneOutcomeEach(Next(w, events[0]), events[1..]))
  }

  /** What holds at every moment of every run. */
  ghost predicate Inv(w: World) {
    && Storable(w.record) && w.record.attempt <= w.attempts
    && (forall a :: a in w.finished ==> a <= w.attempts)
    // a running task still has runs left
    && (w.record.status == Running && w.record.maxRuns.Some? ==> w.record.runs < w.record.maxRuns.value)
    // an ended task has no next run, and the attempt that ended it is spent
    && (w.record.status in {Completed, Cancelled} ==> w.record.next.None?)
    && (w.record.task.rule.Once? && w.record.runs > 0 ==>
          w.record.runs == 1 && w.record.status == Completed && w.record.attempt in w.finished)
  }

  lemma StepKeepsInv(w: World, e: Event)
    requires Inv(w)
    requires e.Finish? ==> e.attempt !in w.finished && e.attempt <= w.attempts
    ensures Inv(Next(w, e))
    ensures Next(w, e).record.task == w.record.task && Next(w, e).record.maxRuns == w.record.maxRuns
  {
  }

  /** If every attempt writes at most one outcome, a `once` task succeeds at most once. */
  lemma {:induction false} OnceSucceedsOnce(w: World, events: seq<Event>)
    requires Inv(w) && OneOutcomeEach(w, events)
    ensures Inv(Run(w, events)) && Run(w, events).record.task == w.record.task
    ensures w.record.task.rule.Once? ==> Run(w, events).record.runs <= 1
    decreases |events|
  {
    if events != [] {
      StepKeepsInv(w, events[0]);
      OnceSucceedsOnce(Next(w, events[0]), events[1..]);
    }
  }

  /** The store takes the outcome. */
  predicate Accepts(r: Record, attempt: nat, result: Result, occ: Occurrence) {
    Finished(r, attempt, result, occ).Some? && Storable(Finished(r, attempt, result, occ).value)
  }

  /** Whether the task has more runs after the one that has just succeeded. */
  predicate LastRun(r: Record) {
    r.task.rule.Once? || (r.maxRuns.Some? && r.runs + 1 >= r.maxRuns.value)
  }

  predicate RunsLeft(r: Record) {
    r.maxRuns.Some? ==> r.runs < r.maxRuns.value
  }

  /**
   Exactly which outcomes are written, whatever state the record is in: none of a superseded attempt; of the current
   one a cancellation always, a failure while a next run and runs are left, and a success while runs are left and
   the schedule is usable or no longer needed.
   */
  lemma FinishIsAcceptedIff(r: Record, attempt: nat, result: Result, occ: Occurrence)
    requires Storable(r)
    ensures Accepts(r, attempt, result, occ) <==>
      attempt == r.attempt &&
      match result
      case CancelledRun => true
      case FailedRun => r.next.Some? && RunsLeft(r)
      case Succeeded => RunsLeft(r) && (occ.Invalid? ==> LastRun(r))
    ensures Update(r, Finished(r, attempt, result, occ)).runs ==
      r.runs + (if result.Succeeded? && Accepts(r, attempt, result, occ) then 1 else 0)
    ensures !Accepts(r, attempt, result, occ) ==> Update(r, Finished(r, attempt, result, occ)) == r
  {
  }

  /**
   The attempt check alone does not make an outcome unique: exactly if runs are left again (and the schedule is usable
   or no longer needed) a second success of the same attempt is counted too.
   */
  lemma SecondSuccessCountsIff(w: World, a: nat, now: Moment, occ: Occurrence, later: Moment, second: Occurrence)
    requires Storable(w.record) && Accepts(w.record, a, Succeeded, occ)
    ensures var once_ := Next(w, Finish(a, Succeeded, now, occ));
      var twice := Next(once_, Finish(a, Succeeded, later, second));
      && once_.record.runs == w.record.runs + 1
      && (twice.record.runs == w.record.runs + 2 <==>
            && (w.record.maxRuns.Some? ==> w.record.runs + 1 < w.record.maxRuns.value)
            && (second.Invalid? ==> w.record.task.rule.Once? || (w.record.maxRuns.Some? && w.record.runs + 2 >= w.record.maxRuns.value)))
  {
    var once_ := Next(w, Finish(a, Succeeded, now, occ));
    FinishIsAcceptedIff(w.record, a, Succeeded, occ);
    FinishIsAcceptedIff(once_.record, a, Succeeded, second);
  }

  /** No task succeeds more often than it may, however often its workers report. */
  lemma {:induction false} RunsNeverExceedMaximum(w: World, events: seq<Event>)
    requires Storable(w.record)
    ensures var r := Run(w, events).record;
      Storable(r) && r.task == w.record.task && r.maxRuns == w.record.maxRuns && (r.maxRuns.Some? ==> r.runs <= r.maxRuns.value)
    decreases |events|
  {
    if events != [] {
      RunsNeverExceedMaximum(Next(w, events[0]), events[1..]);
    }
  }

  lemma OnceTwice(w: World, now: Moment)
    requires Storable(w.record) && w.record.task.rule.Once? && w.record.runs == 0 && w.record.status == Enabled
    requires w.record.maxRuns != Some(1)
    ensures var a := w.attempts + 1;
      Run(w, [Claim, Finish(a, Succeeded, now, Exhausted), Finish(a, Succeeded, now, Exhausted)]).record.runs == 2
  {
    var a := w.attempts + 1;
    var success := Finish(a, Succeeded, now, Exhausted);
    var v := Next(w, Claim);
    assert v.record == w.record.(status := Running, attempt := a);
    SecondSuccessCountsIff(v, a, now, Exhausted, now, Exhausted);
    var events := [Claim, success, success];
    assert events[1..] == [success, success] && events[1..][1..] == [success] && [success][1..] == [];
    assert Run(w, events) == Run(v, [success, success]) == Run(Next(v, success), [success]);
    assert Run(Next(v, success), [success]) == Run(Next(Next(v, success), success), []);
  }

  /** Without relying on its workers, a fresh `once` task succeeds at most once exactly if its maximum says so. */
  lemma OnceSucceedsOnceIff(w: World)
    requires Storable(w.record) && w.record.task.rule.Once? && w.record.runs == 0 && w.record.status == Enabled
    ensures (forall events :: Run(w, events).record.runs <= 1) <==> w.record.maxRuns == Some(1)
  {
    if w.record.maxRuns == Some(1) {
      forall events ensures Run(w, events).record.runs <= 1 {
        RunsNeverExceedMaximum(w, events);
      }
    } else {
      OnceTwice(w, Moment(0, 0));
    }
  }

  /** After a success of a recurring or calendar task the next run lies strictly after the finish. */
  lemma NextRunIsLater(w: World, attempt: nat, now: Moment, occ: Occurrence)
    requires !w.record.task.rule.Once?
    requires IsNext(w.record.task, now, occ) && now.micros < DAY
    ensures var r := Next(w, Finish(attempt, Succeeded, now, occ)).record;
      r.runs == w.record.runs + 1 ==>
        if r.next.Some? then Before(now, r.next.value) && r.status == Enabled else r.status == Completed
  {
    if occ.At? {
      NextIsLater(w.record.task, now, occ.moment);
    }
  }

  /** Exactly when a claim is reverted: a next run is stored and runs are left. */
  lemma RevertIsAcceptedIff(w: World)
    requires Storable(w.record)
    ensures Next(w, Revert).record == (if w.record.next.Some? && RunsLeft(w.record) then w.record.(status := Enabled) else w.record)
  {
  }

  /**
   Reverting a claim does not look at the attempt: a second worker's late revert re-enables the task while a later
   attempt is running, so that the task is claimed once more and that attempt's outcome is refused.
   */
  lemma RevertIgnoresAttempts(w: World, result: Result, now: Moment, occ: Occurrence)
    requires Storable(w.record) && w.record.status == Enabled && w.record.attempt <= w.attempts
    ensures var running := Run(w, [Claim, Revert, Claim]);
      var reverted := Next(running, Revert);
      var again := Next(reverted, Claim);
      && running.record.status == Running && running.record.attempt == w.attempts + 2
      && reverted.record == running.record.(status := Enabled)
      && again.record.status == Running && again.record.attempt == w.attempts + 3
      && Next(again, Finish(w.attempts + 2, result, now, occ)).record == again.record
  {
    var a := Next(w, Claim);
    var b := Next(a, Revert);
    var events := [Claim, Revert, Claim];
    assert events[1..] == [Revert, Claim] && events[1..][1..] == [Claim] && [Claim][1..] == [];
    assert Run(w, events) == Run(a, [Revert, Claim]) == Run(b, [Claim]);
    assert Run(b, [Claim]) == Run(Next(b, Claim), []) == Next(b, Claim);
    assert a.record == w.record.(status := Running, attempt := w.attempts + 1);
    RevertIsAcceptedIff(a);
    RevertIsAcceptedIff(Next(b, Claim));
  }

  /* ---- What each event does to the record ---- */

  /** What the store insists on: counts within the maximum, no open task without runs left or without a next run. */
  lemma StorableIff(r: Record)
    ensures Storable(r) <==>
      match r.maxRuns
      case None => r.next.Some? || r.status !in {Enabled, Running, Failed}
      case Some(most) =>
        && 1 <= most && r.runs <= most && (r.next.Some? || r.status !in {Enabled, Running, Failed})
        && (r.runs == most ==> r.status in {Running, Completed, Cancelled})
  {
    var s := r.status;
    assert s == Enabled || s == Running || s == Paused || s == Failed || s == Completed || s == Cancelled;
  }

  /** A claim takes an enabled task, hands it to a new attempt, and does nothing else. */
  lemma ClaimEffect(w: World)
    requires Storable(w.record)
    ensures var r := Next(w, Claim).record;
      if w.record.status == Enabled
      then r.status == Running && r.attempt == w.attempts + 1 && r == w.record.(status := r.status, attempt := r.attempt)
      else r == w.record
    ensures Next(w, Claim).attempts == w.attempts + 1
  {
  }

  /**
   An outcome that is written: a cancelled task has no next run, a failed one keeps it and waits to be enabled, and a
   successful one is counted and is completed or due again.
   */
  lemma FinishEffect(w: World, result: Result, now: Moment, occ: Occurrence)
    requires Accepts(w.record, w.record.attempt, result, occ)
    ensures var r := Next(w, Finish(w.record.attempt, result, now, occ)).record;
      && r == w.record.(status := r.status, next := r.next, runs := r.runs)
      && match result
         case CancelledRun => r.status == Cancelled && r.next == None && r.runs == w.record.runs
         case FailedRun => r.status == Failed && r.next == w.record.next && r.runs == w.record.runs
         case Succeeded =>
           && r.runs == w.record.runs + 1
           && (r.status == Completed <==> LastRun(w.record) || occ == Exhausted)
           && (r.status == Completed ==> r.next == None)
           && (r.status != Completed ==> r.status == Enabled && occ == At(r.next.value))
  {
  }

  /** A completed or cancelled task stays as it is if every attempt writes at most one outcome. */
  lemma {:induction false} EndedForGood(w: World, events: seq<Event>)
    requires w.record.status in {Completed, Cancelled} && w.record.next.None? && w.record.attempt in w.finished
    requires OneOutcomeEach(w, events)
    ensures Run(w, events).record == w.record
    decreases |events|
  {
    if events != [] {
      EndedForGood(Next(w, events[0]), events[1..]);
    }
  }

  /** From the outcome on that ended it. */
  lemma OutcomeEndsForGood(w: World, result: Result, now: Moment, occ: Occurrence, events: seq<Event>)
    requires Accepts(w.record, w.record.attempt, result, occ)
    requires result.CancelledRun? || (result.Succeeded? && (LastRun(w.record) || occ == Exhausted))
    ensures var ended := Next(w, Finish(w.record.attempt, result, now, occ));
      OneOutcomeEach(ended, events) ==> Run(ended, events).record == ended.record
  {
    var ended := Next(w, Finish(w.record.attempt, result, now, occ));
    FinishEffect(w, result, now, occ);
    if OneOutcomeEach(ended, events) {
      EndedForGood(ended, events);
    }
  }
}
