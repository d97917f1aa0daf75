/**
 Admission of inbound messages: a bounded semaphore, two counters and one ticket per message, released in
 several steps that other threads interleave with.
 */
module Routers {

  /** The shared counters.  The semaphore starts with `capacity` permits and refuses to exceed them. */
  datatype Core = Core(capacity: nat, permits: nat, outstanding: int, active: int)

  function NonNegative(x: int): int {
    if x < 0 then 0 else x
  }

  /** The counter part of `_release_ticket`, with its clamps. */
  function Decrement(c: Core, active: bool): Core {
    c.(active := if active then NonNegative(c.active - 1) else c.active, outstanding := NonNegative(c.outstanding - 1))
  }

  /* ---- Interleavings ---- */

  datatype Stage = Acquired | Counted | Queued | Running | Ended

  /**
   One message: where it is, whether its ticket is released, whether its permit is still owed, how many permits it
   has given back, and whether it finished only after its ticket had been released by a failed submit.
   */
  datatype Message = Message(stage: Stage, released: bool, owes: bool, given: nat, late: bool)

  datatype State = State(core: Core, at: map<nat, Message>)

  /** `SubmitFails(_, true)` is an executor that raises although the work item is already in its queue. */
  datatype Event =
    | Arrive(id: nat) | Count(id: nat) | SubmitOk(id: nat) | SubmitFails(id: nat, queued: bool)
    | Start(id: nat) | Finish(id: nat) | Cancel(id: nat) | GiveBack(id: nat)

  function Put(s: State, id: nat, m: Message, core: Core): State {
    State(core, s.at[id := m])
  }

  /** The locked part of `_release_ticket`; `after` is where the message is afterwards. */
  function Release(s: State, id: nat, active: bool, after: Stage): State
    requires id in s.at
  {
    var m := s.at[id];
    if m.released then Put(s, id, m.(stage := after, late := m.late || active), s.core)
    else Put(s, id, m.(stage := after, released := true, owes := true), Decrement(s.core, active))
  }

  /** One atomic step; a step that is not possible changes nothing. */
  function Next(s: State, e: Event): State {
    if e.Arrive? then
      if e.id !in s.at && s.core.permits > 0
      then Put(s, e.id, Message(Acquired, false, false, 0, false), s.core.(permits := s.core.permits - 1)) else s
    else if e.id !in s.at then s
    else
      var m := s.at[e.id];
      match e
      case Count(id) =>
        if m.stage == Acquired then Put(s, id, m.(stage := Counted), s.core.(outstanding := s.core.outstanding + 1)) else s
      case SubmitOk(id) => if m.stage == Counted then Put(s, id, m.(stage := Queued), s.core) else s
      case SubmitFails(id, queued) => if m.stage == Counted then Release(s, id, false, if queued then Queued else Ended) else s
      case Start(id) =>
        if m.stage == Queued then Put(s, id, m.(stage := Running), s.core.(active := s.core.active + 1)) else s
      case Finish(id) => if m.stage == Running then Release(s, id, true, Ended) else s
      case Cancel(id) => if m.stage == Queued then Release(s, id, false, Ended) else s
      case GiveBack(id) =>
        if m.owes && s.core.permits < s.core.capacity
        then Put(s, id, m.(owes := false, given := m.given + 1), s.core.(permits := s.core.permits + 1)) else s
  }

  function Run(s: State, events: seq<Event>): State
    decreases |events|
  {
    if events == [] then s else Run(Next(s, events[0]), events[1..])
  }

  function Empty(capacity: nat): State {
    State(Core(capacity, capacity, 0, 0), map[])
  }

  function In(s: State, stage: Stage): set<nat> {
    set id | id in s.at && s.at[id].stage == stage
  }

  /** Counted messages whose ticket is not released yet. */
  predicate IsOpen(m: Message) {
    !m.released && m.stage in {Counted, Queued, Running}
  }

  function Open(s: State): set<nat> {
    set id | id in s.at && IsOpen(s.at[id])
  }

  function Owing(s: State): set<nat> {
    set id | id in s.at && s.at[id].owes
  }

  function Late(s: State): set<nat> {
    set id | id in s.at && s.at[id].late
  }

  /** Messages that wait or run although a failed submit has released their ticket. */
  function Stale(s: State): set<nat> {
    set id | id in s.at && s.at[id].released && s.at[id].stage in {Queued, Running}
  }

  /** What holds of a single message. */
  predicate Consistent(m: Message) {
    && (m.stage == Ended ==> m.released) && (m.stage in {Acquired, Counted} ==> !m.released)
    && m.given + (if m.owes then 1 else 0) == (if m.released then 1 else 0)
    && (m.late ==> m.stage == Ended)
  }

  /** The books, whatever the executor does. */
  ghost predicate Accounted(s: State) {
    && (forall id :: id in s.at ==> Consistent(s.at[id]))
    && s.core.outstanding == |Open(s)|
    && s.core.active == |In(s, Running)| + |Late(s)|
    && s.core.permits + |In(s, Acquired)| + |Open(s)| + |Owing(s)| == s.core.capacity
  }

  /** Two sets that differ in one element at most. */
  lemma Recount(a: set<nat>, b: set<nat>, id: nat)
    requires forall x :: x != id ==> (x in a <==> x in b)
    ensures |b| == |a| - (if id in a then 1 else 0) + (if id in b then 1 else 0)
  {
    assert a - {id} == b - {id};
    assert |a - {id}| == |a| - (if id in a then 1 else 0);
    assert |b - {id}| == |b| - (if id in b then 1 else 0);
  }

  function One(b: bool): int {
    if b then 1 else 0
  }

  /** How the counts move when one message changes. */
  lemma PutCounts(s: State, id: nat, m: Message, core: Core)
    ensures var t := Put(s, id, m, core);
      && |Open(t)| == |Open(s)| - One(id in s.at && IsOpen(s.at[id])) + One(IsOpen(m))
      && |In(t, Running)| == |In(s, Running)| - One(id in s.at && s.at[id].stage == Running) + One(m.stage == Running)
      && |In(t, Acquired)| == |In(s, Acquired)| - One(id in s.at && s.at[id].stage == Acquired) + One(m.stage == Acquired)
      && |Owing(t)| == |Owing(s)| - One(id in s.at && s.at[id].owes) + One(m.owes)
      && |Late(t)| == |Late(s)| - One(id in s.at && s.at[id].late) + One(m.late)
  {
    var t := Put(s, id, m, core);
    Recount(Open(s), Open(t), id);
    Recount(In(s, Running), In(t, Running), id);
    Recount(In(s, Acquired), In(t, Acquired), id);
    Recount(Owing(s), Owing(t), id);
    Recount(Late(s), Late(t), id);
  }

  /** A member is counted. */
  lemma Counts(s: State, id: nat)
    requires id in s.at
    ensures IsOpen(s.at[id]) ==> |Open(s)| >= 1
    ensures s.at[id].stage == Running ==> |In(s, Running)| >= 1
    ensures s.at[id].owes ==> |Owing(s)| >= 1
  {
    assert IsOpen(s.at[id]) ==> id in Open(s);
    assert s.at[id].stage == Running ==> id in In(s, Running);
    assert s.at[id].owes ==> id in Owing(s);
  }

  /** A change of one message keeps the books if the counters move along with it. */
  lemma PutAccounts(s: State, id: nat, m: Message, core: Core)
    requires Accounted(s) && Consistent(m) && core.capacity == s.core.capacity && core.permits >= 0
    requires var known := id in s.at;
      && core.outstanding == s.core.outstanding - One(known && IsOpen(s.at[id])) + One(IsOpen(m))
      && core.active == s.core.active - One(known && (s.at[id].stage == Running || s.at[id].late)) + One(m.stage == Running || m.late)
      && core.permits + One(m.stage == Acquired) + One(IsOpen(m)) + One(m.owes)
         == s.core.permits + One(known && s.at[id].stage == Acquired) + One(known && IsOpen(s.at[id])) + One(known && s.at[id].owes)
    ensures Accounted(Put(s, id, m, core))
  {
    PutCounts(s, id, m, core);
    assert id in s.at ==> Consistent(s.at[id]);
  }

  /** Releasing a ticket keeps the books; the clamps have nothing to cut off. */
  lemma ReleaseAccounts(s: State, id: nat, active: bool, after: Stage)
    requires Accounted(s) && id in s.at && s.at[id].stage in {Counted, Queued, Running}
    requires active <==> s.at[id].stage == Running
    requires after == Ended || (s.at[id].stage == Counted && after == Queued)
    ensures Accounted(Release(s, id, active, after))
  {
    var t := Release(s, id, active, after);
    assert Consistent(s.at[id]);
    Counts(s, id);
    PutAccounts(s, id, t.at[id], t.core);
  }

  lemma ForwardAccounts(s: State, e: Event)
    requires Accounted(s) && e.id in s.at && (e.Count? || e.SubmitOk? || e.Start?)
    ensures Accounted(Next(s, e))
  {
    var m, c := s.at[e.id], s.core;
    assert Consistent(m);
    if e.Count? && m.stage == Acquired {
      PutAccounts(s, e.id, m.(stage := Counted), c.(outstanding := c.outstanding + 1));
    } else if e.SubmitOk? && m.stage == Counted {
      PutAccounts(s, e.id, m.(stage := Queued), c);
    } else if e.Start? && m.stage == Queued {
      PutAccounts(s, e.id, m.(stage := Running), c.(active := c.active + 1));
    }
  }

  lemma BackAccounts(s: State, e: Event)
    requires Accounted(s) && e.id in s.at && (e.SubmitFails? || e.Finish? || e.Cancel?)
    ensures Accounted(Next(s, e))
  {
    var stage := s.at[e.id].stage;
    if e.SubmitFails? && stage == Counted {
      ReleaseAccounts(s, e.id, false, if e.queued then Queued else Ended);
    } else if e.Finish? && stage == Running {
      ReleaseAccounts(s, e.id, true, Ended);
    } else if e.Cancel? && stage == Queued {
      ReleaseAccounts(s, e.id, false, Ended);
    }
  }

  lemma PermitAccounts(s: State, id: nat)
    requires Accounted(s) && id in s.at
    ensures Accounted(Next(s, Event.GiveBack(id)))
    ensures s.at[id].owes ==> s.core.permits < s.core.capacity
  {
    var m, c := s.at[id], s.core;
    assert Consistent(m);
    Counts(s, id);
    if m.owes && c.permits < c.capacity {
      PutAccounts(s, id, m.(owes := false, given := m.given + 1), c.(permits := c.permits + 1));
    }
  }

  lemma ArriveAccounts(s: State, id: nat)
    requires Accounted(s)
    ensures Accounted(Next(s, Arrive(id)))
  {
    if id !in s.at && s.core.permits > 0 {
      PutAccounts(s, id, Message(Acquired, false, false, 0, false), s.core.(permits := s.core.permits - 1));
    }
  }

  /** A new message is turned away exactly when messages that arrived, are open or still owe their permit fill the capacity. */
  lemma TurnedAwayIffFull(s: State, id: nat)
    requires Accounted(s) && id !in s.at
    ensures id !in Next(s, Arrive(id)).at <==> |In(s, Acquired)| + |Open(s)| + |Owing(s)| == s.core.capacity
    ensures id !in Next(s, Arrive(id)).at ==> Next(s, Arrive(id)) == s
  {
  }

  /** Every step keeps the books; in particular no owed permit is refused. */
  lemma StepAccounts(s: State, e: Event)
    requires Accounted(s)
    ensures Accounted(Next(s, e)) && Next(s, e).core.capacity == s.core.capacity
    ensures e.GiveBack? && e.id in s.at && s.at[e.id].owes ==> s.core.permits < s.core.capacity
  {
    if e.Arrive? {
      ArriveAccounts(s, e.id);
    } else if e.id in s.at {
      if e.GiveBack? {
        PermitAccounts(s, e.id);
      } else if e.Count? || e.SubmitOk? || e.Start? {
        ForwardAccounts(s, e);
      } else {
        BackAccounts(s, e);
      }
    }
  }

  /**
   For every interleaving and every executor: open tickets are what `outstanding` counts, permits add up to the
   capacity, each ticket gives its permit back at most once, and `active` counts the running messages and those
   that finished after a failed submit had released their ticket.
   */
  lemma {:induction false} BooksAreKept(s: State, events: seq<Event>)
    requires Accounted(s)
    ensures Accounted(Run(s, events)) && Run(s, events).core.capacity == s.core.capacity
    decreases |events|
  {
    if events != [] {
      StepAccounts(s, events[0]);
      BooksAreKept(Next(s, events[0]), events[1..]);
    }
  }

  lemma EmptyAccounts(capacity: nat)
    ensures Accounted(Empty(capacity))
  {
    var s := Empty(capacity);
    assert Open(s) == {} && In(s, Running) == {} && In(s, Acquired) == {} && Owing(s) == {} && Late(s) == {};
  }

  /** The two counters tell exactly the running and the unfinished messages if and only if there is nothing late and nothing stale. */
  lemma CountersAreExactIff(capacity: nat, events: seq<Event>)
    ensures var s := Run(Empty(capacity), events);
      && (s.core.active == |In(s, Running)| <==> Late(s) == {})
      && (s.core.outstanding == |In(s, Counted)| + |In(s, Queued)| + |In(s, Running)| <==> Stale(s) == {})
      && 0 <= s.core.active && 0 <= s.core.outstanding && s.core.permits <= s.core.capacity
      && (Late(s) == {} && Stale(s) == {} ==> s.core.active <= s.core.outstanding)
  {
    EmptyAccounts(capacity);
    BooksAreKept(Empty(capacity), events);
    Unfinished(Run(Empty(capacity), events));
  }

  lemma Sizes<T>(a: set<T>, b: set<T>, all: set<T>)
    requires a !! b && (forall x :: x in all <==> x in a || x in b)
    ensures |all| == |a| + |b|
  {
    assert all == a + b;
  }

  lemma Unfinished(s: State)
    requires forall id :: id in s.at ==> Consistent(s.at[id])
    ensures |In(s, Counted)| + |In(s, Queued)| + |In(s, Running)| == |Open(s)| + |Stale(s)|
    ensures Stale(s) == {} ==> |In(s, Running)| <= |Open(s)|
  {
    var a, b, c := In(s, Counted), In(s, Queued), In(s, Running);
    Sizes(a, b, a + b);
    Sizes(a + b, c, a + b + c);
    Sizes(Open(s), Stale(s), a + b + c);
    if Stale(s) == {} {
      Sizes(c, Open(s) - c, Open(s));
    }
  }

  /** What is late stays late: the error in `active` never goes away. */
  lemma {:induction false} LateForGood(s: State, events: seq<Event>)
    requires Accounted(s)
    ensures Late(s) <= Late(Run(s, events))
    ensures Run(s, events).core.active >= |In(Run(s, events), Running)| + |Late(s)|
    decreases |events|
  {
    if events != [] {
      StepAccounts(s, events[0]);
      var t := Next(s, events[0]);
      forall id | id in Late(s) ensures id in Late(t) {
        assert Consistent(s.at[id]);
      }
      LateForGood(t, events[1..]);
      LateGrows(Late(s), Late(t));
    }
  }

  lemma LateGrows(a: set<nat>, b: set<nat>)
    requires a <= b
    ensures |a| <= |b|
  {
    assert b == a + (b - a);
  }

  ghost predicate NoQueuedFailures(events: seq<Event>) {
    forall i :: 0 <= i < |events| && events[i].SubmitFails? ==> !events[i].queued
  }

  ghost predicate Exact(s: State) {
    Stale(s) == {} && Late(s) == {}
  }

  lemma StepStaysExact(s: State, e: Event)
    requires Accounted(s) && Exact(s) && (e.SubmitFails? ==> !e.queued)
    ensures Exact(Next(s, e))
  {
    var t := Next(s, e);
    forall id | id in t.at ensures id !in Stale(t) && id !in Late(t) {
      if id in s.at {
        assert id !in Stale(s) && id !in Late(s) && Consistent(s.at[id]);
      }
    }
  }

  /** As long as a failed submit leaves nothing queued, nothing is ever stale or late, so the counters are exact. */
  lemma {:induction false} ExactWithoutQueuedFailures(s: State, events: seq<Event>)
    requires Accounted(s) && Exact(s) && NoQueuedFailures(events)
    ensures Exact(Run(s, events))
    decreases |events|
  {
    if events != [] {
      StepAccounts(s, events[0]);
      StepStaysExact(s, events[0]);
      assert forall i :: 0 <= i < |events[1..]| ==> events[1..][i] == events[i + 1];
      ExactWithoutQueuedFailures(Next(s, events[0]), events[1..]);
    }
  }

  /** And conversely: a failed submit that did queue the message leaks once that message has run. */
  lemma QueuedFailureLeaks(s: State, id: nat)
    requires Accounted(s) && id in s.at && s.at[id].stage == Counted
    ensures id in Late(Next(Next(Next(s, SubmitFails(id, true)), Start(id)), Finish(id)))
  {
    assert Consistent(s.at[id]);
  }

  /* ---- The router ---- */

  class Ticket {
    var started: bool
    var released: bool

    constructor ()
      ensures !started && !released
    {
      started, released := false, false;
    }
  }

  /** `executor.submit`: the work item is queued, or an exception comes before or after that. */
  datatype Executor = Accepts | Raises(queued: bool)

  class MessageRouter {
    const capacity: nat
    var permits: nat
    var outstanding: int
    var active: int
    ghost var state: State  // the messages and where they are

    /** The fields are the counters of the abstract state, whose books are kept. */
    ghost predicate Valid()
      reads this
    {
      state.core == Core(capacity, permits, outstanding, active) && Accounted(state)
    }

    constructor (maxWorkers: int, maxQueued: int)
      requires maxQueued > 0
      ensures Valid() && state == Empty((if maxWorkers < 1 then 1 else maxWorkers) + maxQueued)
    {
      capacity := (if maxWorkers < 1 then 1 else maxWorkers) + maxQueued;
      permits := (if maxWorkers < 1 then 1 else maxWorkers) + maxQueued;
      outstanding, active := 0, 0;
      state := Empty((if maxWorkers < 1 then 1 else maxWorkers) + maxQueued);
      EmptyAccounts((if maxWorkers < 1 then 1 else maxWorkers) + maxQueued);
    }

    method Acquire(ghost id: nat) returns (ok: bool)
      requires Valid() && id !in state.at
      modifies this
      ensures Valid() && state == Next(old(state), Arrive(id)) && (ok <==> id in state.at)
    {
      StepAccounts(state, Arrive(id));
      state := Next(state, Arrive(id));
      ok := permits > 0;
      if ok {
        permits := permits - 1;
      }
    }

    method CountIn(ghost id: nat)
      requires Valid() && id in state.at && state.at[id].stage == Acquired
      modifies this
      ensures Valid() && state == Next(old(state), Count(id))
    {
      StepAccounts(state, Count(id));
      state := Next(state, Count(id));
      outstanding := outstanding + 1;
    }

    method Begin(t: Ticket, ghost id: nat)
      requires Valid() && id in state.at && state.at[id].stage == Queued
      modifies this, t
      ensures Valid() && state == Next(old(state), Start(id))
      ensures t.started && t.released == old(t.released)
    {
      StepAccounts(state, Start(id));
      state := Next(state, Start(id));
      t.started := true;
      active := active + 1;
    }

    /**
     The locked part of `_release_ticket`, called on a finished, a cancelled or a refused message: the first call
     wins, and only it owes a permit.
     */
    method ReleaseCounters(t: Ticket, wasActive: bool, ghost id: nat, ghost e: Event) returns (owes: bool)
      requires Valid() && id in state.at && t.released == state.at[id].released
      requires wasActive ==> e == Finish(id) && state.at[id].stage == Running
      requires !wasActive ==> (e == Cancel(id) && state.at[id].stage == Queued)
                              || (e.SubmitFails? && e.id == id && state.at[id].stage == Counted)
      modifies this, t
      ensures Valid() && state == Next(old(state), e)
      ensures t.released == state.at[id].released == true && t.started == old(t.started)
      ensures owes <==> !old(t.released)
    {
      StepAccounts(state, e);
      Counts(state, id);
      state := Next(state, e);
      if t.released {
        return false;
      }
      t.released := true;
      if wasActive {
        active := if active - 1 < 0 then 0 else active - 1;
      }
      outstanding := if outstanding - 1 < 0 then 0 else outstanding - 1;
      return true;
    }

    /** `BoundedSemaphore.release`; a permit that is owed is never refused. */
    method GiveBack(ghost id: nat) returns (ok: bool)
      requires Valid() && id in state.at && state.at[id].owes
      modifies this
      ensures Valid() && state == Next(old(state), Event.GiveBack(id))
      ensures ok && state.at[id].given == 1 && !state.at[id].owes
    {
      StepAccounts(state, Event.GiveBack(id));
      assert Consistent(state.at[id]);
      state := Next(state, Event.GiveBack(id));
      ok := permits < capacity;
      if ok {
        permits := permits + 1;
      }
    }

    method ReleaseTicket(t: Ticket, wasActive: bool, ghost id: nat, ghost e: Event)
      requires Valid() && id in state.at && t.released == state.at[id].released
      requires wasActive ==> e == Finish(id) && state.at[id].stage == Running
      requires !wasActive ==> (e == Cancel(id) && state.at[id].stage == Queued)
                              || (e.SubmitFails? && e.id == id && state.at[id].stage == Counted)
      modifies this, t
      ensures Valid() && t.released && t.started == old(t.started)
      ensures state == if old(t.released) then Next(old(state), e) else Next(Next(old(state), e), Event.GiveBack(id))
    {
      var owes := ReleaseCounters(t, wasActive, id, e);
      if owes {
        var ok := GiveBack(id);
      }
    }

    /** `submit` without interruption: refused when the queue is full, else counted and handed to the executor. */
    method Submit(executor: Executor, ghost id: nat) returns (t: Ticket?)
      requires Valid() && id !in state.at
      modifies this
      ensures Valid()
      ensures t == null ==> old(permits) == 0 || executor.Raises?
      ensures t != null ==> fresh(t) && executor.Accepts? && !t.released && !t.started
      ensures state ==
        var s := Next(Next(old(state), Arrive(id)), Count(id));
        if old(permits) == 0 then old(state)
        else if executor.Accepts? then Next(s, SubmitOk(id))
        else Next(Next(s, SubmitFails(id, executor.queued)), Event.GiveBack(id))
    {
      var ok := Acquire(id);
      if !ok {
        return null;
      }
      t := new Ticket();
      CountIn(id);
      match executor {
        case Accepts =>
          StepAccounts(state, SubmitOk(id));
          state := Next(state, SubmitOk(id));
        case Raises(queued) =>
          ReleaseTicket(t, false, id, SubmitFails(id, queued));
          t := null;
      }
    }

    /** `_route_tracked` without interruption: whatever `route` does, the ticket is released afterwards. */
    method RouteTracked(t: Ticket, ghost id: nat)
      requires Valid() && id in state.at && state.at[id].stage == Queued && t.released == state.at[id].released
      modifies this, t
      ensures Valid() && t.started && t.released
      ensures var s := Next(Next(old(state), Start(id)), Finish(id));
        state == if old(t.released) then s else Next(s, Event.GiveBack(id))
    {
      Begin(t, id);
      ReleaseTicket(t, true, id, Finish(id));
    }

    /** What the status reports means: nothing late and nothing stale, and it is exact. */
    method QueueStatus() returns (activeWorkers: int, queued: int)
      requires Valid()
      ensures activeWorkers == |In(state, Running)| + |Late(state)|
      ensures Late(state) == {} && Stale(state) == {} ==> queued == |In(state, Counted)| + |In(state, Queued)|
    {
      activeWorkers := active;
      queued := if outstanding - active < 0 then 0 else outstanding - active;
      Unfinished(state);
    }
  }
}
