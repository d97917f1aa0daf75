/**
 The process-wide request pool and its replacement while idle.

 The factory lock covers choosing the pool and registering on it; granting, leaving and releasing only take
 the pool's own lock and therefore run at any time, also between the idle check and the replacement.
 */
module Factories {
  import opened Options
  import opened Collections
  import opened Fairness
  import opened TurnLaws
  import opened Pools
  import opened PoolRuns

  predicate Idle<Scope>(p: Pool<Scope>) {
    |p.active| == 0 && |p.pending| == 0
  }

  /** Where a request thread is. */
  datatype Phase<Scope> =
    | Outside
    | Entered(max: nat)             // holds the factory lock
    | Looked(max: nat, idle: bool)  // read the status of the current pool
    | Chose(pool: nat)              // has its pool, still holds the factory lock
    | Queued(pool: nat, ticket: Ticket<Scope>)
    | Holding(pool: nat, scope: Scope)

  /** All pools ever created; the newest one is current. */
  datatype State<Scope> = State(pools: seq<World<Scope>>, lock: Option<nat>, at: map<nat, Phase<Scope>>)

  function NoPools<Scope>(): State<Scope> {
    State([], None, map[])
  }

  datatype Move<Scope> =
    | Enter(max: nat) | Look | Swap | Leave      // under the factory lock
    | Enrol(scope: Scope)                        // register, then drop the factory lock
    | Poll | Quit | Finish                       // under the pool's own lock only

  function PhaseOf<Scope>(st: State<Scope>, thread: nat): Phase<Scope> {
    if thread in st.at then st.at[thread] else Outside
  }

  function Current<Scope>(st: State<Scope>): nat
    requires st.pools != []
  {
    |st.pools| - 1
  }

  function To<Scope>(st: State<Scope>, thread: nat, phase: Phase<Scope>): State<Scope> {
    st.(at := st.at[thread := phase])
  }

  function WithPool<Scope>(st: State<Scope>, i: nat, w: World<Scope>): State<Scope>
    requires i < |st.pools|
  {
    st.(pools := st.pools[i := w])
  }

  /** One step of one thread; a step that is not possible leaves everything alone. */
  function Do<Scope(==, !new)>(st: State<Scope>, thread: nat, m: Move<Scope>): State<Scope> {
    match (m, PhaseOf(st, thread))
    case (Enter(max), Outside) =>
      if st.lock.None? && max >= 1 then To(st, thread, Entered(max)).(lock := Some(thread)) else st
    case (Look, Entered(max)) =>
      if st.pools == [] then To(st.(pools := [Start(max)]), thread, Chose(0))
      else if st.pools[Current(st)].pool.limit == max then To(st, thread, Chose(Current(st)))
      else To(st, thread, Looked(max, Idle(st.pools[Current(st)].pool)))
    case (Swap, Looked(max, idle)) =>
      if st.pools == [] then st
      else if idle then To(st.(pools := st.pools + [Start(max)]), thread, Chose(|st.pools|))
      else To(st, thread, Chose(Current(st)))
    case (Leave, Chose(_)) => To(st, thread, Outside).(lock := None)
    case (Enrol(scope), Chose(i)) =>
      if i < |st.pools| then
        To(WithPool(st, i, Next(st.pools[i], Event.Arrive(scope))), thread,
           Queued(i, Ticket(st.pools[i].pool.issued, scope))).(lock := None)
      else st
    case (Poll, Queued(i, t)) =>
      if i < |st.pools| then
        To(WithPool(st, i, Next(st.pools[i], Event.Try(t))), thread,
           if Passes(st.pools[i].pool, t) then Holding(i, t.scope) else Queued(i, t))
      else st
    case (Quit, Queued(i, t)) =>
      if i < |st.pools| then To(WithPool(st, i, Next(st.pools[i], Event.Leave(t))), thread, Outside) else st
    case (Finish, Holding(i, scope)) =>
      if i < |st.pools| then To(WithPool(st, i, Next(st.pools[i], Event.Finish(scope))), thread, Outside) else st
    case _ => st
  }

  function Play<Scope(==, !new)>(st: State<Scope>, moves: seq<(nat, Move<Scope>)>): State<Scope>
    decreases |moves|
  {
    if moves == [] then st else Play(Do(st, moves[0].0, moves[0].1), moves[1..])
  }

  /** The moves of one lookup, which holds the factory lock throughout: read the pool's status, then replace it or not. */
  function AfterLookup<Scope(==, !new)>(st: State<Scope>, thread: nat, max: nat): State<Scope> {
    Do(Do(Do(st, thread, Enter(max)), thread, Look), thread, Swap)
  }

  /** What a lookup amounts to. */
  lemma LookupMoves<Scope(!new)>(st: State<Scope>, thread: nat, max: nat)
    requires st.lock.None? && PhaseOf(st, thread).Outside? && max >= 1
    ensures var to := AfterLookup(st, thread, max);
      var replaced := st.pools == [] || (st.pools[Current(st)].pool.limit != max && Idle(st.pools[Current(st)].pool));
      && to.pools == (if replaced then st.pools + [Start(max)] else st.pools)
      && PhaseOf(to, thread) == Chose(|to.pools| - 1) && to.lock == Some(thread)
  {
  }

  class ProviderFactory<Scope(==, !new)> {
    var pool: FairRequestPool?<Scope>
    var limit: nat

    /** The factory and its current pool are as in the state `st`. */
    ghost predicate Represents(st: State<Scope>)
      reads this, pool, if pool != null then {pool.turns} else {}
    {
      if pool == null then st.pools == []
      else st.pools != [] && pool.View() == st.pools[Current(st)].pool && pool.limit == limit
    }

    constructor ()
      ensures pool == null && limit == 0 && Represents(NoPools())
    {
      pool, limit := null, 0;
    }

    /** `get_provider_semaphore`; `null` is the error for a limit below one. */
    method Get(maxConcurrent: int, ghost st: State<Scope>, ghost thread: nat) returns (r: FairRequestPool?<Scope>)
      requires Represents(st) && st.lock.None? && PhaseOf(st, thread).Outside?
      modifies this
      ensures maxConcurrent < 1 ==> r == null && pool == old(pool) && limit == old(limit)
      ensures maxConcurrent >= 1 ==> r != null && r == pool
      ensures maxConcurrent >= 1 && old(pool) != null && (old(limit) == maxConcurrent || !Idle(old(pool.View()))) ==>
        pool == old(pool) && limit == old(limit)
      ensures maxConcurrent >= 1 && (old(pool) == null || (old(limit) != maxConcurrent && Idle(old(pool.View())))) ==>
        fresh(pool) && limit == maxConcurrent && pool.View() == Pool(maxConcurrent, multiset{}, [], Turns([], None), 0)
      // in terms of the state machine: the lookup's moves, after which the thread has the current pool
      ensures maxConcurrent >= 1 ==>
        var to := AfterLookup(st, thread, maxConcurrent);
        Represents(to) && PhaseOf(to, thread) == Chose(|to.pools| - 1) && to.lock == Some(thread)
    {
      if maxConcurrent < 1 {
        return null;
      }
      LookupMoves(st, thread, maxConcurrent);
      if pool == null {
        pool := new FairRequestPool(maxConcurrent);
        limit := maxConcurrent;
      } else if limit != maxConcurrent {
        var active, _, _, waiting := pool.Status();
        if active == 0 && waiting == 0 {
          pool := new FairRequestPool(maxConcurrent);
          limit := maxConcurrent;
        }
      }
      return pool;
    }
  }

  /** The threads holding a slot of pool `i` for `scope`. */
  ghost function Holders<Scope(!new)>(st: State<Scope>, i: nat, scope: Scope): set<nat> {
    set x | x in st.at && st.at[x] == Holding(i, scope)
  }

  predicate UnderLock<Scope>(phase: Phase<Scope>) {
    phase.Entered? || phase.Looked? || phase.Chose?
  }

  /** What the factory keeps: only the current pool is ever busy, and every ticket and slot belongs to it. */
  ghost predicate OnlyCurrentBusy<Scope(!new)>(st: State<Scope>) {
    forall i :: 0 <= i < |st.pools| - 1 ==> Idle(st.pools[i].pool)
  }

  /** Threads under the lock know the current pool. */
  ghost predicate LockInv<Scope(!new)>(st: State<Scope>) {
    && (forall x :: x in st.at && UnderLock(st.at[x]) ==> st.lock == Some(x))
    && (forall x :: x in st.at && st.at[x].Looked? ==> st.pools != [] && (st.at[x].idle ==> Idle(st.pools[|st.pools| - 1].pool)))
    && (forall x :: x in st.at && st.at[x].Chose? ==> st.at[x].pool == |st.pools| - 1)
  }

  /** Waiting threads have distinct pending tickets. */
  ghost predicate QueueInv<Scope(!new)>(st: State<Scope>) {
    && (forall x :: x in st.at && st.at[x].Queued? ==>
          st.at[x].pool < |st.pools| && st.at[x].ticket in st.pools[st.at[x].pool].pool.pending)
    && (forall x, y :: x in st.at && y in st.at && x != y && st.at[x].Queued? && st.at[y].Queued? && st.at[x].pool == st.at[y].pool ==>
          st.at[x].ticket != st.at[y].ticket)
  }

  /** Occupied slots are exactly the holding threads, pool by pool and scope by scope. */
  ghost predicate SlotInv<Scope(!new)>(st: State<Scope>) {
    && (forall x :: x in st.at && st.at[x].Holding? ==> st.at[x].pool < |st.pools|)
    && (forall i, s :: 0 <= i < |st.pools| ==> st.pools[i].pool.active[s] == |Holders(st, i, s)|)
  }

  ghost predicate Inv<Scope(!new)>(st: State<Scope>) {
    && OnlyCurrentBusy(st)
    && AllSound(st)
    && LockInv(st) && QueueInv(st) && SlotInv(st)
  }

  /** Busy pools are current. */
  lemma BusyIsCurrent<Scope(!new)>(st: State<Scope>, i: nat)
    requires OnlyCurrentBusy(st) && i < |st.pools| && !Idle(st.pools[i].pool)
    ensures i == |st.pools| - 1
  {
  }

  /** `to` differs from `st` in the phase of one thread and in pool `i` only. */
  ghost predicate Touches<Scope(!new)>(st: State<Scope>, to: State<Scope>, thread: nat, i: nat) {
    && thread in to.at && to.at == st.at[thread := to.at[thread]]
    && i < |st.pools| == |to.pools|
    && forall j :: 0 <= j < |st.pools| && j != i ==> to.pools[j] == st.pools[j]
  }

  /** A thread that neither takes nor drops a slot. */
  lemma SlotsSame<Scope(!new)>(st: State<Scope>, to: State<Scope>, thread: nat, i: nat)
    requires SlotInv(st) && Touches(st, to, thread, i)
    requires !PhaseOf(st, thread).Holding? && !to.at[thread].Holding?
    requires to.pools[i].pool.active == st.pools[i].pool.active
    ensures SlotInv(to)
  {
    forall j, s | 0 <= j < |to.pools| ensures to.pools[j].pool.active[s] == |Holders(to, j, s)| {
      assert Holders(to, j, s) == Holders(st, j, s);
    }
  }

  lemma HoldersAfter<Scope(!new)>(st: State<Scope>, to: State<Scope>, thread: nat, i: nat, j: nat, s: Scope)
    requires Touches(st, to, thread, i)
    ensures Holders(to, j, s) == Holders(st, j, s) - {thread} + (if to.at[thread] == Holding(j, s) then {thread} else {})
    ensures thread in Holders(st, j, s) <==> PhaseOf(st, thread) == Holding(j, s)
  {
  }

  lemma SlotTaken<Scope(!new)>(st: State<Scope>, to: State<Scope>, thread: nat, i: nat, scope: Scope)
    requires SlotInv(st) && Touches(st, to, thread, i)
    requires !PhaseOf(st, thread).Holding? && to.at[thread] == Holding(i, scope)
    requires to.pools[i].pool.active == st.pools[i].pool.active + multiset{scope}
    ensures SlotInv(to)
  {
    forall j, s | 0 <= j < |to.pools| ensures to.pools[j].pool.active[s] == |Holders(to, j, s)| {
      HoldersAfter(st, to, thread, i, j, s);
    }
  }

  lemma SlotDropped<Scope(!new)>(st: State<Scope>, to: State<Scope>, thread: nat, i: nat, scope: Scope)
    requires SlotInv(st) && Touches(st, to, thread, i)
    requires PhaseOf(st, thread) == Holding(i, scope) && !to.at[thread].Holding?
    requires to.pools[i].pool.active == st.pools[i].pool.active - multiset{scope}
    ensures SlotInv(to)
  {
    forall j, s | 0 <= j < |to.pools| ensures to.pools[j].pool.active[s] == |Holders(to, j, s)| {
      HoldersAfter(st, to, thread, i, j, s);
    }
  }

  /** A holding thread's slot is counted, so its pool is busy. */
  lemma HolderCounts<Scope(!new)>(st: State<Scope>, thread: nat)
    requires SlotInv(st) && PhaseOf(st, thread).Holding?
    ensures var i := st.at[thread].pool; i < |st.pools| && st.at[thread].scope in st.pools[i].pool.active
  {
    assert thread in Holders(st, st.at[thread].pool, st.at[thread].scope);
  }

  lemma QueuesKept<Scope(!new)>(st: State<Scope>, to: State<Scope>, thread: nat, i: nat)
    requires QueueInv(st) && Touches(st, to, thread, i)
    requires forall x :: x in st.at && x != thread && st.at[x].Queued? && st.at[x].pool == i ==>
      st.at[x].ticket in to.pools[i].pool.pending
    requires to.at[thread].Queued? ==> to.at[thread].pool == i && to.at[thread].ticket in to.pools[i].pool.pending
    requires to.at[thread].Queued? ==> forall x :: x in st.at && x != thread && st.at[x].Queued? && st.at[x].pool == i ==>
      st.at[x].ticket != to.at[thread].ticket
    ensures QueueInv(to)
  {
  }

  lemma LocksKept<Scope(!new)>(st: State<Scope>, to: State<Scope>, thread: nat, i: nat)
    requires LockInv(st) && Touches(st, to, thread, i) && !UnderLock(to.at[thread])
    requires to.lock == st.lock || (to.lock == None && PhaseOf(st, thread).Chose?)
    requires Idle(st.pools[|st.pools| - 1].pool) ==> Idle(to.pools[|to.pools| - 1].pool) || PhaseOf(st, thread).Chose?
    ensures LockInv(to)
  {
  }

  ghost predicate AllSound<Scope(!new)>(st: State<Scope>) {
    forall i :: 0 <= i < |st.pools| ==> Sound(st.pools[i])
  }

  lemma NewPoolSlots<Scope(!new)>(st: State<Scope>, to: State<Scope>, thread: nat)
    requires SlotInv(st) && thread in to.at && to.at == st.at[thread := to.at[thread]]
    requires !PhaseOf(st, thread).Holding? && !to.at[thread].Holding?
    requires to.pools == st.pools || exists max :: to.pools == st.pools + [Start(max)]
    ensures SlotInv(to)
  {
    forall j, s | 0 <= j < |to.pools| ensures to.pools[j].pool.active[s] == |Holders(to, j, s)| {
      assert Holders(to, j, s) == Holders(st, j, s);
      if j >= |st.pools| {
        assert Holders(st, j, s) == {};
      }
    }
  }

  /* ---- Steps under the factory lock ---- */

  lemma LockMoveShape<Scope(!new)>(st: State<Scope>, thread: nat, m: Move<Scope>)
    requires m.Enter? || m.Look? || m.Swap? || m.Leave?
    ensures var to := Do(st, thread, m);
      to == st || (thread in to.at && to.at == st.at[thread := to.at[thread]]
                   && (to.pools == st.pools || exists max :: to.pools == st.pools + [Start(max)])
                   && !PhaseOf(st, thread).Holding? && !PhaseOf(st, thread).Queued?
                   && !to.at[thread].Holding? && !to.at[thread].Queued?)
  {
  }

  lemma LockMoveLocks<Scope(!new)>(st: State<Scope>, thread: nat, m: Move<Scope>)
    requires OnlyCurrentBusy(st) && LockInv(st) && (m.Enter? || m.Look? || m.Swap? || m.Leave?)
    ensures OnlyCurrentBusy(Do(st, thread, m)) && LockInv(Do(st, thread, m))
  {
  }

  lemma LockMove<Scope(!new)>(st: State<Scope>, thread: nat, m: Move<Scope>)
    requires Inv(st) && (m.Enter? || m.Look? || m.Swap? || m.Leave?)
    ensures Inv(Do(st, thread, m))
  {
    var to := Do(st, thread, m);
    LockMoveShape(st, thread, m);
    LockMoveLocks(st, thread, m);
    if to != st {
      NewPoolSlots(st, to, thread);
      NewPoolRest(st, to, thread);
    }
  }

  lemma NewPoolRest<Scope(!new)>(st: State<Scope>, to: State<Scope>, thread: nat)
    requires AllSound(st) && QueueInv(st) && thread in to.at && to.at == st.at[thread := to.at[thread]]
    requires !to.at[thread].Queued?
    requires to.pools == st.pools || exists max :: to.pools == st.pools + [Start(max)]
    ensures AllSound(to) && QueueInv(to)
  {
  }

  /* ---- Steps of one pool ---- */

  /** The shape of a step that concerns one pool. */
  lemma PoolMoveIs<Scope(!new)>(st: State<Scope>, to: State<Scope>, thread: nat, i: nat, w: World<Scope>, phase: Phase<Scope>)
    requires i < |st.pools| && to.pools == st.pools[i := w] && to.at == st.at[thread := phase]
    ensures Touches(st, to, thread, i) && to.pools[i] == w && to.at[thread] == phase
  {
  }

  /** The parts that do not depend on which step it was. */
  lemma PoolMoveFrame<Scope(!new)>(st: State<Scope>, to: State<Scope>, thread: nat, i: nat)
    requires OnlyCurrentBusy(st) && AllSound(st) && Touches(st, to, thread, i)
    requires i == |st.pools| - 1 && Sound(to.pools[i])
    ensures OnlyCurrentBusy(to) && AllSound(to)
  {
  }

  lemma EnrolQueues<Scope(!new)>(st: State<Scope>, to: State<Scope>, thread: nat, i: nat, t: Ticket<Scope>)
    requires QueueInv(st) && Touches(st, to, thread, i) && to.at[thread] == Queued(i, t)
    requires to.pools[i].pool.pending == st.pools[i].pool.pending + [t]
    requires forall x :: x in st.pools[i].pool.pending ==> x.id < t.id
    ensures QueueInv(to)
  {
    assert t in to.pools[i].pool.pending;
    QueuesKept(st, to, thread, i);
  }

  lemma PendingBelowIssued<Scope(!new)>(w: World<Scope>)
    requires Partitioned(w)
    ensures forall x :: x in w.pool.pending ==> x.id < w.pool.issued
  {
    forall x | x in w.pool.pending ensures x.id < w.pool.issued {
      assert x.id in Ids(w.pool.pending);
    }
  }

  lemma EnrolMove<Scope(!new)>(st: State<Scope>, thread: nat, scope: Scope)
    requires Inv(st)
    ensures Inv(Do(st, thread, Enrol(scope)))
  {
    var to := Do(st, thread, Enrol(scope));
    if PhaseOf(st, thread).Chose? {
      var i := st.at[thread].pool;
      PoolMoveIs(st, to, thread, i, Next(st.pools[i], Event.Arrive(scope)), Queued(i, Ticket(st.pools[i].pool.issued, scope)));
      ArriveSound(st.pools[i], scope);
      PendingBelowIssued(st.pools[i]);
      PoolMoveFrame(st, to, thread, i);
      LocksKept(st, to, thread, i);
      SlotsSame(st, to, thread, i);
      EnrolQueues(st, to, thread, i, Ticket(st.pools[i].pool.issued, scope));
    }
  }

  lemma RemovedQueues<Scope(!new)>(st: State<Scope>, to: State<Scope>, thread: nat, i: nat, t: Ticket<Scope>)
    requires QueueInv(st) && Touches(st, to, thread, i) && PhaseOf(st, thread) == Queued(i, t) && !to.at[thread].Queued?
    requires forall x :: x in to.pools[i].pool.pending <==> x in st.pools[i].pool.pending && x != t
    ensures QueueInv(to)
  {
    QueuesKept(st, to, thread, i);
  }

  lemma Granted<Scope(!new)>(st: State<Scope>, to: State<Scope>, thread: nat, i: nat, t: Ticket<Scope>)
    requires Inv(st) && PhaseOf(st, thread) == Queued(i, t) && i == |st.pools| - 1 && Passes(st.pools[i].pool, t)
    requires to.pools == st.pools[i := Next(st.pools[i], Event.Try(t))]
    requires to.at == st.at[thread := Holding(i, t.scope)] && to.lock == st.lock
    ensures Inv(to)
  {
    TrySound(st.pools[i], t);
    PoolMoveIs(st, to, thread, i, Next(st.pools[i], Event.Try(t)), Holding(i, t.scope));
    PoolMoveFrame(st, to, thread, i);
    BusyStays(st, to, thread, i);
    RemoveTicket(st.pools[i].pool.pending, t);
    SlotTaken(st, to, thread, i, t.scope);
    RemovedQueues(st, to, thread, i, t);
  }

  lemma StillWaiting<Scope(!new)>(st: State<Scope>, to: State<Scope>, thread: nat, i: nat, t: Ticket<Scope>)
    requires Inv(st) && PhaseOf(st, thread) == Queued(i, t) && i == |st.pools| - 1 && !Passes(st.pools[i].pool, t)
    requires to.pools == st.pools[i := Next(st.pools[i], Event.Try(t))]
    requires to.at == st.at[thread := Queued(i, t)] && to.lock == st.lock
    ensures Inv(to)
  {
    TrySound(st.pools[i], t);
    PoolMoveIs(st, to, thread, i, Next(st.pools[i], Event.Try(t)), Queued(i, t));
    PoolMoveFrame(st, to, thread, i);
    BusyStays(st, to, thread, i);
    SlotsSame(st, to, thread, i);
    QueuesKept(st, to, thread, i);
  }

  /** The current pool is busy before the step, so nobody under the lock has seen it idle. */
  lemma BusyStays<Scope(!new)>(st: State<Scope>, to: State<Scope>, thread: nat, i: nat)
    requires LockInv(st) && Touches(st, to, thread, i) && !UnderLock(to.at[thread]) && to.lock == st.lock
    requires i == |st.pools| - 1 && !Idle(st.pools[i].pool)
    ensures LockInv(to)
  {
    LocksKept(st, to, thread, i);
  }

  lemma PollMove<Scope(!new)>(st: State<Scope>, thread: nat)
    requires Inv(st)
    ensures Inv(Do(st, thread, Poll))
  {
    if PhaseOf(st, thread).Queued? {
      var i, t := st.at[thread].pool, st.at[thread].ticket;
      BusyIsCurrent(st, i);
      if Passes(st.pools[i].pool, t) {
        Granted(st, Do(st, thread, Poll), thread, i, t);
      } else {
        StillWaiting(st, Do(st, thread, Poll), thread, i, t);
      }
    }
  }

  lemma QuitMove<Scope(!new)>(st: State<Scope>, thread: nat)
    requires Inv(st)
    ensures Inv(Do(st, thread, Quit))
  {
    var to := Do(st, thread, Quit);
    if PhaseOf(st, thread).Queued? {
      var i, t := st.at[thread].pool, st.at[thread].ticket;
      BusyIsCurrent(st, i);
      PoolMoveIs(st, to, thread, i, Next(st.pools[i], Event.Leave(t)), Outside);
      LeaveSound(st.pools[i], t);
      PoolMoveFrame(st, to, thread, i);
      LocksKept(st, to, thread, i);
      SlotsSame(st, to, thread, i);
      RemoveTicket(st.pools[i].pool.pending, t);
      RemovedQueues(st, to, thread, i, t);
    }
  }

  lemma SlotReturned<Scope(!new)>(st: State<Scope>, to: State<Scope>, thread: nat, i: nat, scope: Scope)
    requires Inv(st) && PhaseOf(st, thread) == Holding(i, scope) && i == |st.pools| - 1 && scope in st.pools[i].pool.active
    requires to.pools == st.pools[i := Next(st.pools[i], Event.Finish(scope))]
    requires to.at == st.at[thread := Outside] && to.lock == st.lock
    ensures Inv(to)
  {
    FinishSound(st.pools[i], scope);
    PoolMoveIs(st, to, thread, i, Next(st.pools[i], Event.Finish(scope)), Outside);
    PoolMoveFrame(st, to, thread, i);
    BusyStays(st, to, thread, i);
    SlotDropped(st, to, thread, i, scope);
    QueuesKept(st, to, thread, i);
  }

  lemma FinishMove<Scope(!new)>(st: State<Scope>, thread: nat)
    requires Inv(st)
    ensures Inv(Do(st, thread, Move.Finish))
  {
    if PhaseOf(st, thread).Holding? {
      var i, scope := st.at[thread].pool, st.at[thread].scope;
      HolderCounts(st, thread);
      BusyIsCurrent(st, i);
      SlotReturned(st, Do(st, thread, Move.Finish), thread, i, scope);
    }
  }

  /** Live reconfiguration is safe: however the threads interleave, two pools are never busy at once. */
  lemma {:induction false} ReconfigurationIsSafe<Scope(!new)>(st: State<Scope>, moves: seq<(nat, Move<Scope>)>)
    requires Inv(st)
    ensures Inv(Play(st, moves))
    decreases |moves|
  {
    if moves != [] {
      var (thread, m) := moves[0];
      match m
      case Enter(_) => LockMove(st, thread, m); ReconfigurationIsSafe(Do(st, thread, m), moves[1..]);
      case Look => LockMove(st, thread, m); ReconfigurationIsSafe(Do(st, thread, m), moves[1..]);
      case Swap => LockMove(st, thread, m); ReconfigurationIsSafe(Do(st, thread, m), moves[1..]);
      case Leave => LockMove(st, thread, m); ReconfigurationIsSafe(Do(st, thread, m), moves[1..]);
      case Enrol(scope) => EnrolMove(st, thread, scope); ReconfigurationIsSafe(Do(st, thread, m), moves[1..]);
      case Poll => PollMove(st, thread); ReconfigurationIsSafe(Do(st, thread, m), moves[1..]);
      case Quit => QuitMove(st, thread); ReconfigurationIsSafe(Do(st, thread, m), moves[1..]);
      case Finish => FinishMove(st, thread); ReconfigurationIsSafe(Do(st, thread, m), moves[1..]);
    }
  }

  /** Requests in flight over all pools. */
  function InFlight<Scope(!new)>(pools: seq<World<Scope>>): nat
    decreases |pools|
  {
    if pools == [] then 0 else InFlight(pools[..|pools| - 1]) + |pools[|pools| - 1].pool.active|
  }

  /** From the empty factory on: every ticket and slot is the current pool's, and its limit bounds them all. */
  lemma AllRequestsShareOnePool<Scope(!new)>(moves: seq<(nat, Move<Scope>)>, thread: nat)
    ensures var st := Play(NoPools<Scope>(), moves);
      && OnlyCurrentBusy(st)
      && (PhaseOf(st, thread).Queued? || PhaseOf(st, thread).Holding? ==> PhaseOf(st, thread).pool == |st.pools| - 1)
      && InFlight(st.pools) <= if st.pools == [] then 0 else st.pools[|st.pools| - 1].pool.limit
  {
    var st := Play(NoPools<Scope>(), moves);
    ReconfigurationIsSafe(NoPools<Scope>(), moves);
    if PhaseOf(st, thread).Queued? {
      BusyIsCurrent(st, st.at[thread].pool);
    } else if PhaseOf(st, thread).Holding? {
      assert thread in Holders(st, st.at[thread].pool, st.at[thread].scope);
      BusyIsCurrent(st, st.at[thread].pool);
    }
    if st.pools != [] {
      NoneInFlight(st.pools[..|st.pools| - 1]);
    }
  }

  lemma {:induction false} NoneInFlight<Scope(!new)>(pools: seq<World<Scope>>)
    requires forall i :: 0 <= i < |pools| ==> Idle(pools[i].pool)
    ensures InFlight(pools) == 0
    decreases |pools|
  {
    if pools != [] {
      NoneInFlight(pools[..|pools| - 1]);
    }
  }

  /* ---- Registering without the factory lock ---- */

  /** `acquire` registers on whatever pool its caller looked up earlier. */
  function Unlocked<Scope(==, !new)>(st: State<Scope>, i: nat, scope: Scope): State<Scope>
    requires i < |st.pools|
  {
    WithPool(st, i, Next(st.pools[i], Event.Arrive(scope)))
  }

  /** Some thread has seen the current pool idle and is about to replace it. */
  ghost predicate ReplacementDue<Scope(!new)>(st: State<Scope>) {
    exists x :: x in st.at && st.at[x].Looked? && st.at[x].idle
  }

  /**
   Registering without the factory lock is safe exactly when the pool is still the current one and nobody has already
   seen it idle; then everything shown above goes on to hold.
   */
  lemma UnlockedRegistrationIsSafeIff<Scope(!new)>(st: State<Scope>, i: nat, scope: Scope)
    requires Inv(st) && i < |st.pools|
    ensures Inv(Unlocked(st, i, scope)) <==> i == |st.pools| - 1 && !ReplacementDue(st)
  {
    var to := Unlocked(st, i, scope);
    UnlockedKeeps(st, i, scope);
    assert !Idle(to.pools[i].pool);
    if i == |st.pools| - 1 && ReplacementDue(st) {
      var x :| x in st.at && st.at[x].Looked? && st.at[x].idle;
      assert to.at[x].Looked? && to.at[x].idle;
    }
  }

  /** Everything but the idleness of pools survives an unlocked registration anyway. */
  lemma UnlockedKeeps<Scope(!new)>(st: State<Scope>, i: nat, scope: Scope)
    requires Inv(st) && i < |st.pools|
    ensures var to := Unlocked(st, i, scope);
      AllSound(to) && QueueInv(to) && SlotInv(to) && to.at == st.at && to.lock == st.lock
  {
    var to := Unlocked(st, i, scope);
    ArriveSound(st.pools[i], scope);
    assert to.pools[i] == Next(st.pools[i], Event.Arrive(scope));
    forall j, s | 0 <= j < |to.pools| ensures to.pools[j].pool.active[s] == |Holders(to, j, s)| {
      assert Holders(to, j, s) == Holders(st, j, s);
      assert st.pools[j].pool.active[s] == |Holders(st, j, s)|;
    }
  }

  /** The race: a thread has seen the pool idle, a second one registers on it unlocked, and the first one replaces it. */
  lemma UnlockedRegistrationRaces<Scope(!new)>(st: State<Scope>, thread: nat, scope: Scope)
    requires Inv(st) && thread in st.at && st.at[thread].Looked? && st.at[thread].idle
    ensures st.pools != [] && !OnlyCurrentBusy(Do(Unlocked(st, |st.pools| - 1, scope), thread, Swap))
  {
    var i := |st.pools| - 1;
    var u := Unlocked(st, i, scope);
    assert !Idle(u.pools[i].pool);
    var v := Do(u, thread, Swap);
    assert v.pools[i] == u.pools[i] && i < |v.pools| - 1;
  }

  lemma {:induction false} PlaySnoc<Scope(!new)>(st: State<Scope>, moves: seq<(nat, Move<Scope>)>, thread: nat, m: Move<Scope>)
    ensures Play(st, moves + [(thread, m)]) == Do(Play(st, moves), thread, m)
    decreases |moves|
  {
    if moves == [] {
      assert (moves + [(thread, m)])[1..] == [];
    } else {
      assert (moves + [(thread, m)])[1..] == moves[1..] + [(thread, m)];
      PlaySnoc(Do(st, moves[0].0, moves[0].1), moves[1..], thread, m);
    }
  }

  lemma Continue<Scope(!new)>(st: State<Scope>, moves: seq<(nat, Move<Scope>)>, m: Move<Scope>, before: State<Scope>, after: State<Scope>)
      returns (more: seq<(nat, Move<Scope>)>)
    requires Play(st, moves) == before && Do(before, 0, m) == after
    ensures Play(st, more) == after
  {
    PlaySnoc(st, moves, 0, m);
    more := moves + [(0, m)];
  }

  /** A first request makes the pool, and leaves again. */
  lemma FirstRequest<Scope(!new)>() returns (moves: seq<(nat, Move<Scope>)>)
    ensures Play(NoPools<Scope>(), moves) == State([Start(10)], None, map[0 := Outside])
  {
    var st := NoPools<Scope>();
    var entered, chose := State([], Some(0), map[0 := Entered(10)]), State([Start(10)], Some(0), map[0 := Chose(0)]);
    moves := Continue(st, [], Enter(10), st, entered);
    moves := Continue(st, moves, Look, entered, chose);
    moves := Continue(st, moves, Move.Leave, chose, State([Start(10)], None, map[0 := Outside]));
  }

  /** Two requests of one thread with different limits lead into such a state. */
  lemma ReplacementIsReached<Scope(!new)>() returns (moves: seq<(nat, Move<Scope>)>)
    ensures Inv(Play(NoPools<Scope>(), moves)) && ReplacementDue(Play(NoPools<Scope>(), moves))
  {
    var st := NoPools<Scope>();
    var entered := State([Start(10)], Some(0), map[0 := Entered(5)]);
    var looked := State([Start(10)], Some(0), map[0 := Looked(5, true)]);
    moves := FirstRequest<Scope>();
    moves := Continue(st, moves, Enter(5), Play(st, moves), entered);
    moves := Continue(st, moves, Look, entered, looked);
    assert looked.at[0].Looked? && looked.at[0].idle;
    ReconfigurationIsSafe(st, moves);
  }
}
