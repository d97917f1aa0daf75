/** Whole runs of the request pool, in any interleaving of its locked steps. */
module PoolRuns {
  import opened Options
  import opened Collections
  import opened Fairness
  import opened TurnLaws
  import opened Pools

  datatype Event<Scope> = Arrive(scope: Scope) | Try(ticket: Ticket<Scope>) | Leave(ticket: Ticket<Scope>) | Finish(scope: Scope)

  /** A pool with everything that ever happened to its tickets and slots. */
  datatype World<Scope> = World(pool: Pool<Scope>, granted: seq<Ticket<Scope>>, abandoned: seq<Ticket<Scope>>,
                                released: multiset<Scope>)

  function Start<Scope>(limit: nat): World<Scope> {
    World(Pool(limit, multiset{}, [], Turns([], None), 0), [], [], multiset{})
  }

  function Next<Scope(==, !new)>(w: World<Scope>, e: Event<Scope>): World<Scope> {
    match e
    case Arrive(scope) => w.(pool := AfterRegister(w.pool, scope))
    case Try(t) => w.(pool := AfterTry(w.pool, t), granted := if Passes(w.pool, t) then w.granted + [t] else w.granted)
    case Leave(t) => w.(pool := AfterGiveUp(w.pool, t), abandoned := if t in w.pool.pending then w.abandoned + [t] else w.abandoned)
    case Finish(scope) => w.(pool := AfterRelease(w.pool, scope),
                             released := if scope in w.pool.active then w.released + multiset{scope} else w.released)
  }

  function Run<Scope(==, !new)>(w: World<Scope>, events: seq<Event<Scope>>): World<Scope>
    decreases |events|
  {
    if events == [] then w else Run(Next(w, events[0]), events[1..])
  }

  ghost predicate InOrder<Scope>(tickets: seq<Ticket<Scope>>) {
    forall i, j :: 0 <= i < j < |tickets| ==> tickets[i].id < tickets[j].id
  }

  /** Tickets of one scope are granted in the order they were registered. */
  ghost predicate FirstComeFirstServed<Scope>(w: World<Scope>) {
    && (forall i, j :: 0 <= i < j < |w.granted| && w.granted[i].scope == w.granted[j].scope ==> w.granted[i].id < w.granted[j].id)
    && (forall i, j :: 0 <= i < |w.granted| && 0 <= j < |w.pool.pending| && w.granted[i].scope == w.pool.pending[j].scope ==>
          w.granted[i].id < w.pool.pending[j].id)
  }

  ghost function Ids<Scope>(tickets: seq<Ticket<Scope>>): set<nat> {
    set t | t in tickets :: t.id
  }

  /** Every issued ticket is in exactly one of the three lists. */
  ghost predicate Partitioned<Scope>(w: World<Scope>) {
    && Ids(w.pool.pending) !! Ids(w.granted) !! Ids(w.abandoned)
    && forall id: nat :: id < w.pool.issued <==> id in Ids(w.pool.pending) || id in Ids(w.granted) || id in Ids(w.abandoned)
  }

  ghost predicate Sound<Scope(!new)>(w: World<Scope>) {
    && Valid(w.pool.turns)
    && (forall s :: s in Scopes(w.pool.pending) ==> s in w.pool.turns.order)
    && |w.pool.active| <= w.pool.limit
    && multiset(Scopes(w.granted)) == w.pool.active + w.released
    && InOrder(w.pool.pending)
    && Partitioned(w)
    && FirstComeFirstServed(w)
  }

  lemma {:induction false} FirstOfLaws<Scope(!new)>(tickets: seq<Ticket<Scope>>, scope: Option<Scope>)
    ensures var r := FirstOf(tickets, scope);
      && (r.None? <==> forall t :: t in tickets ==> Some(t.scope) != scope)
      && (r.Some? ==> exists i :: 0 <= i < |tickets| && tickets[i] == r.value && Some(r.value.scope) == scope
                        && forall j :: 0 <= j < i ==> Some(tickets[j].scope) != scope)
    decreases |tickets|
  {
    if tickets != [] && Some(tickets[0].scope) != scope {
      assert tickets == [tickets[0]] + tickets[1..];
      FirstOfLaws(tickets[1..], scope);
      var r := FirstOf(tickets[1..], scope);
      if r.Some? {
        var i :| 0 <= i < |tickets[1..]| && tickets[1..][i] == r.value && Some(r.value.scope) == scope
                 && forall j :: 0 <= j < i ==> Some(tickets[1..][j].scope) != scope;
        assert tickets[i + 1] == r.value;
        forall j | 0 <= j < i + 1 ensures Some(tickets[j].scope) != scope {
          assert j > 0 ==> tickets[j] == tickets[1..][j - 1];
        }
      }
    }
  }

  lemma CutMembers<T(!new)>(s: seq<T>, j: nat)
    requires Distinct(s) && j < |s|
    ensures forall x :: x in s[..j] + s[j + 1..] <==> x in s && x != s[j]
  {
    assert s == s[..j] + [s[j]] + s[j + 1..];
    assert s[j] !in s[..j] && s[j] !in s[j + 1..];
  }

  lemma IdsWithout<Scope(!new)>(tickets: seq<Ticket<Scope>>, r: seq<Ticket<Scope>>, t: Ticket<Scope>)
    requires InOrder(tickets) && t in tickets
    requires forall x :: x in r <==> x in tickets && x != t
    ensures Ids(r) == Ids(tickets) - {t.id}
  {
    forall x | x in tickets && x.id == t.id ensures x == t {
      var i :| 0 <= i < |tickets| && tickets[i] == x;
      var j :| 0 <= j < |tickets| && tickets[j] == t;
    }
  }

  /** A removed ticket leaves the others in place. */
  lemma RemoveTicket<Scope(!new)>(tickets: seq<Ticket<Scope>>, t: Ticket<Scope>)
    requires InOrder(tickets)
    ensures InOrder(Remove(tickets, t))
    ensures forall x :: x in Remove(tickets, t) <==> x in tickets && x != t
    ensures Ids(Remove(tickets, t)) == if t in tickets then Ids(tickets) - {t.id} else Ids(tickets)
  {
    RemoveIsCut(tickets, t);
    if t in tickets {
      CutTickets(tickets, Position(tickets, t));
      IdsWithout(tickets, Remove(tickets, t), t);
    }
  }

  lemma CutTickets<Scope(!new)>(tickets: seq<Ticket<Scope>>, j: nat)
    requires InOrder(tickets) && j < |tickets|
    ensures InOrder(tickets[..j] + tickets[j + 1..])
    ensures forall x :: x in tickets[..j] + tickets[j + 1..] <==> x in tickets && x != tickets[j]
  {
    forall a, b | 0 <= a < b < |tickets| ensures tickets[a] != tickets[b] {
      assert tickets[a].id < tickets[b].id;
    }
    CutMembers(tickets, j);
  }

  lemma MemberScopes<Scope(!new)>(tickets: seq<Ticket<Scope>>)
    ensures forall s :: s in Scopes(tickets) <==> exists t :: t in tickets && t.scope == s
  {
    forall s ensures s in Scopes(tickets) <==> exists t :: t in tickets && t.scope == s {
      if t :| t in tickets && t.scope == s {
        var i :| 0 <= i < |tickets| && tickets[i] == t;
        assert Scopes(tickets)[i] == s;
      }
      if s in Scopes(tickets) {
        var i :| 0 <= i < |tickets| && Scopes(tickets)[i] == s;
        assert tickets[i] in tickets;
      }
    }
  }

  lemma ScopesAppend<Scope(!new)>(a: seq<Ticket<Scope>>, t: Ticket<Scope>)
    ensures Scopes(a + [t]) == Scopes(a) + [t.scope]
  {
  }

  lemma IdsAppend<Scope(!new)>(a: seq<Ticket<Scope>>, t: Ticket<Scope>)
    ensures Ids(a + [t]) == Ids(a) + {t.id}
  {
    assert forall x :: x in a + [t] <==> x in a || x == t;
  }

  lemma RefreshedSound<Scope(!new)>(p: Pool<Scope>)
    requires Valid(p.turns)
    ensures Valid(Refreshed(p).turns)
    ensures forall s :: s in Scopes(p.pending) ==> s in Refreshed(p).turns.order
  {
    RefreshLaws(p.turns, Scopes(p.pending), p.active);
  }

  lemma ArriveSound<Scope(!new)>(w: World<Scope>, scope: Scope)
    requires Sound(w)
    ensures Sound(Next(w, Arrive(scope)))
  {
    var t := Ticket(w.pool.issued, scope);
    IdsAppend(w.pool.pending, t);
    RefreshedSound(w.pool.(pending := w.pool.pending + [t], issued := w.pool.issued + 1));
    var v := Next(w, Arrive(scope));
    forall x | x in w.pool.pending ensures x.id < w.pool.issued {
      assert x.id in Ids(w.pool.pending);
    }
    forall x | x in w.granted ensures x.id < w.pool.issued {
      assert x.id in Ids(w.granted);
    }
    forall i, j | 0 <= i < j < |v.pool.pending| ensures v.pool.pending[i].id < v.pool.pending[j].id {
      assert v.pool.pending[i] == w.pool.pending[i] && w.pool.pending[i] in w.pool.pending;
    }
  }

  /** The ticket that passes is the earliest of its scope. */
  lemma PassingTicket<Scope(!new)>(w: World<Scope>, t: Ticket<Scope>)
    requires Sound(w) && Passes(w.pool, t)
    ensures t in w.pool.pending
    ensures Choice(w.pool.turns, Scopes(w.pool.pending), w.pool.active) == Some(t.scope)
    ensures forall x :: x in w.pool.pending && x.scope == t.scope && x != t ==> t.id < x.id
  {
    var pending := w.pool.pending;
    var chosen := Choice(w.pool.turns, Scopes(pending), w.pool.active);
    FirstOfLaws(pending, chosen);
    var i :| 0 <= i < |pending| && pending[i] == t && Some(t.scope) == chosen
             && forall j :: 0 <= j < i ==> Some(pending[j].scope) != chosen;
    forall x | x in pending && x.scope == t.scope && x != t ensures t.id < x.id {
      var j :| 0 <= j < |pending| && pending[j] == x;
    }
  }

  /** A grant keeps the turn list covering everybody who still waits. */
  lemma GrantCovers<Scope(!new)>(p: Pool<Scope>, t: Ticket<Scope>)
    requires Valid(p.turns) && InOrder(p.pending) && t in p.pending
    ensures Valid(Serve(Refreshed(p).turns, t.scope))
    ensures forall s :: s in Scopes(Remove(p.pending, t)) ==> s in Serve(Refreshed(p).turns, t.scope).order
  {
    RefreshedSound(p);
    RemoveTicket(p.pending, t);
    ServeLaws(Refreshed(p).turns, t.scope);
    MemberScopes(p.pending);
    MemberScopes(Remove(p.pending, t));
  }

  lemma TrySound<Scope(!new)>(w: World<Scope>, t: Ticket<Scope>)
    requires Sound(w)
    ensures Sound(Next(w, Try(t)))
  {
    if Passes(w.pool, t) {
      var v := Next(w, Try(t));
      PassingTicket(w, t);
      GrantCovers(w.pool, t);
      ScopesAppend(w.granted, t);
      GrantMoves(w, t, v);
      GrantInTurn(w, t, v);
    } else {
      RefreshedSound(w.pool);
    }
  }

  lemma GrantMoves<Scope(!new)>(w: World<Scope>, t: Ticket<Scope>, v: World<Scope>)
    requires Partitioned(w) && InOrder(w.pool.pending) && t in w.pool.pending
    requires v.pool.pending == Remove(w.pool.pending, t) && v.pool.issued == w.pool.issued
    requires v.granted == w.granted + [t] && v.abandoned == w.abandoned
    ensures Partitioned(v) && InOrder(v.pool.pending)
    ensures forall x :: x in v.pool.pending ==> x in w.pool.pending && x != t
  {
    RemoveTicket(w.pool.pending, t);
    IdsAppend(w.granted, t);
  }

  lemma GrantInTurn<Scope(!new)>(w: World<Scope>, t: Ticket<Scope>, v: World<Scope>)
    requires FirstComeFirstServed(w) && v.granted == w.granted + [t] && t in w.pool.pending
    requires forall x :: x in v.pool.pending ==> x in w.pool.pending && x != t
    requires forall x :: x in w.pool.pending && x.scope == t.scope && x != t ==> t.id < x.id
    ensures FirstComeFirstServed(v)
  {
    var k :| 0 <= k < |w.pool.pending| && w.pool.pending[k] == t;
    forall i, j | 0 <= i < |v.granted| && 0 <= j < |v.pool.pending| && v.granted[i].scope == v.pool.pending[j].scope
      ensures v.granted[i].id < v.pool.pending[j].id
    {
      assert v.pool.pending[j] in w.pool.pending;
      var m :| 0 <= m < |w.pool.pending| && w.pool.pending[m] == v.pool.pending[j];
    }
  }

  lemma LeaveMoves<Scope(!new)>(w: World<Scope>, t: Ticket<Scope>, v: World<Scope>)
    requires Partitioned(w) && InOrder(w.pool.pending) && t in w.pool.pending
    requires v.pool.pending == Remove(w.pool.pending, t) && v.pool.issued == w.pool.issued
    requires v.granted == w.granted && v.abandoned == w.abandoned + [t]
    ensures Partitioned(v) && InOrder(v.pool.pending)
    ensures forall x :: x in v.pool.pending ==> x in w.pool.pending
  {
    RemoveTicket(w.pool.pending, t);
    IdsAppend(w.abandoned, t);
  }

  lemma FewerInTurn<Scope(!new)>(w: World<Scope>, v: World<Scope>)
    requires FirstComeFirstServed(w) && v.granted == w.granted
    requires forall x :: x in v.pool.pending ==> x in w.pool.pending
    ensures FirstComeFirstServed(v)
  {
    forall i, j | 0 <= i < |v.granted| && 0 <= j < |v.pool.pending| && v.granted[i].scope == v.pool.pending[j].scope
      ensures v.granted[i].id < v.pool.pending[j].id
    {
      assert v.pool.pending[j] in w.pool.pending;
      var m :| 0 <= m < |w.pool.pending| && w.pool.pending[m] == v.pool.pending[j];
    }
  }

  lemma LeaveSound<Scope(!new)>(w: World<Scope>, t: Ticket<Scope>)
    requires Sound(w)
    ensures Sound(Next(w, Leave(t)))
  {
    var v := Next(w, Leave(t));
    if t in w.pool.pending {
      LeaveMoves(w, t, v);
      FewerInTurn(w, v);
      MemberScopes(w.pool.pending);
      MemberScopes(v.pool.pending);
    } else {
      RemoveIsCut(w.pool.pending, t);
    }
  }

  lemma FinishSound<Scope(!new)>(w: World<Scope>, scope: Scope)
    requires Sound(w)
    ensures Sound(Next(w, Finish(scope)))
  {
    if scope in w.pool.active {
      assert w.pool.active + w.released == (w.pool.active - multiset{scope}) + (w.released + multiset{scope});
    }
  }

  /**
   Whatever the interleaving: the limit holds, slots in use are grants minus releases scope by scope, every
   ticket is waiting, granted or abandoned, and a scope's tickets are granted in registration order.
   */
  lemma {:induction false} PoolIsSafe<Scope(!new)>(w: World<Scope>, events: seq<Event<Scope>>)
    requires Sound(w)
    ensures Sound(Run(w, events))
    decreases |events|
  {
    if events != [] {
      NextIsSound(w, events[0]);
      PoolIsSafe(Next(w, events[0]), events[1..]);
    }
  }

  lemma NextIsSound<Scope(!new)>(w: World<Scope>, e: Event<Scope>)
    requires Sound(w)
    ensures Sound(Next(w, e))
  {
    match e
    case Arrive(scope) => ArriveSound(w, scope);
    case Try(t) => TrySound(w, t);
    case Leave(t) => LeaveSound(w, t);
    case Finish(scope) => FinishSound(w, scope);
  }

  lemma StartIsSound<Scope(!new)>(limit: nat)
    ensures Sound(Start<Scope>(limit))
  {
  }

  /** The same for every run of a new pool, with the limit it was made with. */
  lemma {:induction false} EveryRunIsSafe<Scope(!new)>(limit: nat, events: seq<Event<Scope>>)
    ensures var w := Run(Start<Scope>(limit), events); Sound(w) && w.pool.limit == limit && |w.pool.active| <= limit
  {
    StartIsSound<Scope>(limit);
    PoolIsSafe(Start<Scope>(limit), events);
    LimitStays(Start<Scope>(limit), events);
  }

  lemma {:induction false} LimitStays<Scope(!new)>(w: World<Scope>, events: seq<Event<Scope>>)
    ensures Run(w, events).pool.limit == w.pool.limit
    decreases |events|
  {
    if events != [] {
      LimitStays(Next(w, events[0]), events[1..]);
    }
  }

  /** With a free slot and somebody waiting, exactly one waiting ticket passes, and asking again does not change which. */
  lemma WorkConserving<Scope(!new)>(w: World<Scope>) returns (t: Ticket<Scope>)
    requires Sound(w) && |w.pool.active| < w.pool.limit && w.pool.pending != []
    ensures t in w.pool.pending && forall x :: Passes(w.pool, x) <==> x == t
    ensures forall x :: Passes(Refreshed(w.pool), x) <==> x == t
  {
    var chosen := Choice(w.pool.turns, Scopes(w.pool.pending), w.pool.active);
    ChoiceLaws(w.pool.turns, Scopes(w.pool.pending), w.pool.active);
    assert Scopes(w.pool.pending) != [];
    MemberScopes(w.pool.pending);
    FirstOfLaws(w.pool.pending, chosen);
    t := FirstOf(w.pool.pending, chosen).value;
    RefreshIdempotent(w.pool.turns, Scopes(w.pool.pending), w.pool.active);
  }

  /* ---- Bounded bypass ---- */

  /** The scope has a waiting ticket, holds no slot and was not the one served last. */
  predicate Waiting<Scope(==, !new)>(p: Pool<Scope>, s: Scope) {
    s in Scopes(p.pending) && p.active[s] == 0 && p.turns.last != Some(s)
  }

  predicate KeepsWaiting<Scope(==, !new)>(w: World<Scope>, events: seq<Event<Scope>>, s: Scope)
    decreases |events|
  {
    Waiting(w.pool, s) && (events == [] || KeepsWaiting(Next(w, events[0]), events[1..], s))
  }

  /** Grants made during a run. */
  function Grants<Scope(==, !new)>(w: World<Scope>, events: seq<Event<Scope>>): int {
    |Run(w, events).granted| - |w.granted|
  }

  /** Somebody new never moves a waiting scope back. */
  lemma ArriveAdvances<Scope(!new)>(p: Pool<Scope>, scope: Scope, s: Scope)
    requires Valid(p.turns) && Waiting(p, s) && s in p.turns.order
    ensures s in AfterRegister(p, scope).turns.order
    ensures Position(AfterRegister(p, scope).turns.order, s) <= Position(p.turns.order, s)
  {
    var q := p.(pending := p.pending + [Ticket(p.issued, scope)], issued := p.issued + 1);
    ScopesAppend(p.pending, Ticket(p.issued, scope));
    RefreshLaws(q.turns, Scopes(q.pending), q.active);
  }

  /** Whoever is served while `s` waits without a slot stood before `s`. */
  lemma ChosenStandsBefore<Scope(!new)>(t: Turns<Scope>, pending: seq<Scope>, active: multiset<Scope>, s: Scope, x: Scope)
    requires Valid(t) && s in pending && active[s] == 0 && x != s && Choice(t, pending, active) == Some(x)
    ensures var order := Refresh(t, pending, active).order;
      s in order && x in order && Position(order, x) < Position(order, s)
  {
    var order := Refresh(t, pending, active).order;
    assert Eligible(s, pending, active);
    ChoiceLaws(t, pending, active);
    DifferentPlaces(order, x, s);
  }

  lemma DifferentPlaces<T(!new)>(order: seq<T>, a: T, b: T)
    requires a in order && b in order && a != b
    ensures Position(order, a) != Position(order, b)
  {
    assert order[Position(order, a)] == a && order[Position(order, b)] == b;
  }

  /** A check of the condition never moves a waiting scope back, and a grant moves it forward. */
  lemma TryAdvances<Scope(!new)>(w: World<Scope>, t: Ticket<Scope>, s: Scope)
    requires Sound(w) && Waiting(w.pool, s) && Waiting(AfterTry(w.pool, t), s)
    requires s in w.pool.turns.order
    ensures s in AfterTry(w.pool, t).turns.order
    ensures Position(AfterTry(w.pool, t).turns.order, s) + (if Passes(w.pool, t) then 1 else 0) <= Position(w.pool.turns.order, s)
  {
    var p := w.pool;
    RefreshLaws(p.turns, Scopes(p.pending), p.active);
    if Passes(p, t) {
      PassingTicket(w, t);
      ChosenStandsBefore(p.turns, Scopes(p.pending), p.active, s, t.scope);
      ServeLaws(Refreshed(p).turns, t.scope);
    }
  }

  /** One step never moves a waiting scope back, and every grant to somebody else moves it forward. */
  lemma StepAdvances<Scope(!new)>(w: World<Scope>, e: Event<Scope>, s: Scope)
    requires Sound(w) && Waiting(w.pool, s) && Waiting(Next(w, e).pool, s)
    ensures Sound(Next(w, e)) && s in Next(w, e).pool.turns.order && s in w.pool.turns.order
    ensures Position(Next(w, e).pool.turns.order, s) + |Next(w, e).granted| <= Position(w.pool.turns.order, s) + |w.granted|
  {
    NextIsSound(w, e);
    match e
    case Arrive(scope) => ArriveAdvances(w.pool, scope, s);
    case Try(t) => TryAdvances(w, t, s);
    case Leave(t) =>
    case Finish(scope) =>
  }

  /**
   Bounded bypass: while a scope waits without a slot, the grants that go to other scopes number at most its
   current place in the turn list, whoever arrives, leaves, asks or releases in the meantime.
   */
  lemma {:induction false} BoundedBypass<Scope(!new)>(w: World<Scope>, events: seq<Event<Scope>>, s: Scope)
    requires Sound(w) && KeepsWaiting(w, events, s)
    ensures s in w.pool.turns.order && Grants(w, events) <= Position(w.pool.turns.order, s)
    decreases |events|
  {
    if events != [] {
      StepAdvances(w, events[0], s);
      BoundedBypass(Next(w, events[0]), events[1..], s);
    }
  }

  /* ---- The scope served last ---- */

  lemma {:induction false} KeepAppend<Scope(!new)>(a: seq<Scope>, b: seq<Scope>, last: Option<Scope>, pending: seq<Scope>, active: multiset<Scope>)
    ensures Keep(a + b, last, pending, active) == Keep(a, last, pending, active) + Keep(b, last, pending, active)
    decreases |b|
  {
    if b == [] {
      assert a + b == a;
    } else {
      assert (a + b)[..|a + b| - 1] == a + b[..|b| - 1];
      KeepAppend(a, b[..|b| - 1], last, pending, active);
    }
  }

  lemma {:induction false} KeepNone<Scope(!new)>(order: seq<Scope>, last: Option<Scope>, pending: seq<Scope>, active: multiset<Scope>)
    requires forall x :: x in order ==> !Needed(x, last, pending, active)
    ensures Keep(order, last, pending, active) == []
    decreases |order|
  {
    if order != [] {
      KeepNone(order[..|order| - 1], last, pending, active);
    }
  }

  /** Idle pool, `s` served last and waiting; the newcomers so far are queued right before it. */
  ghost predicate Gathered<Scope(!new)>(w: World<Scope>, s: Scope, before: seq<Scope>, stale: seq<Scope>) {
    && Sound(w) && w.pool.active == multiset{} && w.pool.turns.last == Some(s) && s !in before
    && w.pool.turns.order == stale + (before + [s])
    && (forall x :: x in before + [s] ==> x in Scopes(w.pool.pending))
    && (forall x :: x in Scopes(w.pool.pending) ==> x in before + [s])
    && (forall x :: x in stale ==> x !in before + [s])
  }

  /** Refreshing drops what is stale and queues the newcomer before the scope served last. */
  lemma RefreshGathers<Scope(!new)>(stale: seq<Scope>, before: seq<Scope>, s: Scope, waiting: seq<Scope>, x: Scope)
    requires (forall k :: k in before + [s] ==> k in waiting) && (forall k :: k in waiting ==> k in before + [s])
    requires (forall k :: k in stale ==> k !in before + [s]) && x !in before + [s] && x !in stale
    ensures Refresh(Turns(stale + (before + [s]), Some(s)), waiting + [x], multiset{}).order == before + [x] + [s]
  {
    var pending, none: multiset<Scope> := waiting + [x], multiset{};
    KeepAppend(stale, before + [s], Some(s), pending, none);
    KeepNone(stale, Some(s), pending, none);
    KeepAll(before + [s], Some(s), pending, none);
    assert [] + (before + [s]) == before + [s];
    assert pending[..|waiting|] == waiting && x !in waiting;
    var seen := Dedup(waiting);
    assert Dedup(pending) == seen + [x];
    InsertNone(before + [s], Some(s), seen);
    assert (seen + [x])[..|seen|] == seen;
    assert (before + [s])[..|before|] == before && (before + [s])[|before|..] == [s];
  }

  /** One more newcomer is queued right before the scope served last. */
  lemma NewcomerArrives<Scope(!new)>(w: World<Scope>, s: Scope, before: seq<Scope>, stale: seq<Scope>, x: Scope)
      returns (v: World<Scope>)
    requires Gathered(w, s, before, stale) && x !in w.pool.turns.order
    ensures v == Next(w, Arrive(x)) && Gathered(v, s, before + [x], [])
    ensures v.granted == w.granted && v.pool.limit == w.pool.limit
    ensures forall k :: k in v.pool.turns.order ==> k in w.pool.turns.order || k == x
  {
    v := Next(w, Arrive(x));
    ArriveSound(w, x);
    ScopesAppend(w.pool.pending, Ticket(w.pool.issued, x));
    RefreshGathers(stale, before, s, Scopes(w.pool.pending), x);
    assert Scopes(v.pool.pending) == Scopes(w.pool.pending) + [x];
    assert v.pool.turns.order == [] + (before + [x] + [s]);
  }

  lemma RunThen<Scope(!new)>(w: World<Scope>, e: Event<Scope>, rest: seq<Event<Scope>>)
    ensures Run(w, [e] + rest) == Run(Next(w, e), rest)
  {
    assert ([e] + rest)[1..] == rest;
  }

  lemma NewToAll<Scope(!new)>(order: seq<Scope>, xs: seq<Scope>, next: seq<Scope>)
    requires xs != [] && Distinct(xs) && forall x :: x in xs ==> x !in order
    requires forall k :: k in next ==> k in order || k == xs[0]
    ensures Distinct(xs[1..]) && forall x :: x in xs[1..] ==> x !in next
  {
    forall x | x in xs[1..] ensures x !in next {
      var i :| 0 <= i < |xs[1..]| && xs[1..][i] == x;
      assert xs[i + 1] == x && x in xs;
    }
  }

  lemma {:induction false} NewcomersArrive<Scope(!new)>(w: World<Scope>, s: Scope, before: seq<Scope>, stale: seq<Scope>,
                                                        xs: seq<Scope>, all: seq<Scope>)
      returns (events: seq<Event<Scope>>, v: World<Scope>)
    requires Gathered(w, s, before, stale) && all == before + xs
    requires xs != [] && Distinct(xs) && forall x :: x in xs ==> x !in w.pool.turns.order
    ensures v == Run(w, events) && v.granted == w.granted && v.pool.limit == w.pool.limit
    ensures Gathered(v, s, all, [])
    decreases |xs|
  {
    var x := xs[0];
    var u := NewcomerArrives(w, s, before, stale, x);
    assert all == before + [x] + xs[1..];
    if |xs| == 1 {
      assert all == before + [x];
      RunThen(w, Arrive(x), []);
      events, v := [Arrive(x)], u;
      assert [Arrive(x)] + [] == events;
    } else {
      NewToAll(w.pool.turns.order, xs, u.pool.turns.order);
      var rest;
      rest, v := NewcomersArrive(u, s, before + [x], [], xs[1..], all);
      RunThen(w, Arrive(x), rest);
      events := [Arrive(x)] + rest;
    }
  }

  /** On an idle pool whose turn list begins with waiting scopes, the first of them is chosen. */
  lemma FirstIsChosen<Scope(!new)>(w: World<Scope>, ys: seq<Scope>)
    requires Sound(w) && w.pool.active == multiset{} && ys != [] && ys <= w.pool.turns.order
    requires forall y :: y in ys ==> y in Scopes(w.pool.pending)
    ensures Choice(w.pool.turns, Scopes(w.pool.pending), w.pool.active) == Some(ys[0])
    ensures ys <= Refreshed(w.pool).turns.order
  {
    var p, pending := w.pool, Scopes(w.pool.pending);
    var rest := p.turns.order[|ys|..];
    assert p.turns.order == ys + rest;
    KeepAppend(ys, rest, p.turns.last, pending, p.active);
    KeepAll(ys, p.turns.last, pending, p.active);
    var kept := Keep(p.turns.order, p.turns.last, pending, p.active);
    KeepLaws(p.turns.order, p.turns.last, pending, p.active);
    InsertNone(kept, p.turns.last, Dedup(pending));
    assert Refreshed(p).turns.order == kept && kept[0] == ys[0];
    assert Eligible(ys[0], pending, p.active);
  }

  /** An idle pool whose turn list begins with the waiting scopes `ys`, and in which `s` is waiting too. */
  ghost predicate InLine<Scope(!new)>(w: World<Scope>, ys: seq<Scope>, s: Scope) {
    && Sound(w) && w.pool.active == multiset{} && w.pool.limit > 0 && ys <= w.pool.turns.order
    && s in Scopes(w.pool.pending) && s !in ys && forall y :: y in ys ==> y in Scopes(w.pool.pending)
  }

  /** One waiting scope is served and leaves again; the others are where they were. */
  lemma ServeFirst<Scope(!new)>(w: World<Scope>, ys: seq<Scope>, s: Scope) returns (t: Ticket<Scope>, v: World<Scope>)
    requires InLine(w, ys, s) && ys != []
    ensures v == Next(Next(w, Try(t)), Finish(ys[0])) && t.scope == ys[0] && v.granted == w.granted + [t]
    ensures InLine(v, ys[1..], s)
  {
    FirstIsChosen(w, ys);
    t := WorkConserving(w);
    PassingTicket(w, t);
    v := Next(Next(w, Try(t)), Finish(ys[0]));
    NextIsSound(w, Try(t));
    NextIsSound(Next(w, Try(t)), Finish(ys[0]));
    ServedAndGone(w.pool, t);
    RestInLine(w, v, ys, s, t);
  }

  /** The others move up when the first in line has been served. */
  lemma RestInLine<Scope(!new)>(w: World<Scope>, v: World<Scope>, ys: seq<Scope>, s: Scope, t: Ticket<Scope>)
    requires InLine(w, ys, s) && ys != [] && t.scope == ys[0] && Sound(v) && v.pool.limit == w.pool.limit
    requires ys <= Refreshed(w.pool).turns.order
    requires v.pool.active == multiset{} && v.pool.pending == Remove(w.pool.pending, t)
    requires v.pool.turns.order == Remove(Refreshed(w.pool).turns.order, ys[0]) + [ys[0]]
    ensures InLine(v, ys[1..], s)
  {
    RefreshedSound(w.pool);
    OrderAfterServe(Refreshed(w.pool).turns.order, ys);
    StillPending(w.pool.pending, t, ys, s);
  }

  /** A grant on an idle pool followed by the release of the slot. */
  lemma ServedAndGone<Scope(!new)>(p: Pool<Scope>, t: Ticket<Scope>)
    requires Passes(p, t) && p.active == multiset{}
    ensures var q := AfterRelease(AfterTry(p, t), t.scope);
      && q.active == multiset{} && q.limit == p.limit && q.pending == Remove(p.pending, t)
      && q.turns.order == Remove(Refreshed(p).turns.order, t.scope) + [t.scope]
  {
    assert AfterTry(p, t).active == multiset{t.scope};
  }

  lemma OrderAfterServe<Scope(!new)>(order: seq<Scope>, ys: seq<Scope>)
    requires Distinct(order) && ys <= order && ys != []
    ensures Remove(order, ys[0]) == order[1..] && ys[1..] <= order[1..] + [ys[0]]
    ensures forall y :: y in ys[1..] ==> y != ys[0] && y in ys
  {
    forall y | y in ys[1..] ensures y != ys[0] && y in ys {
      var i :| 0 <= i < |ys[1..]| && ys[1..][i] == y;
      assert ys[i + 1] == y == order[i + 1] && order[0] == ys[0];
    }
  }

  /** Removing the ticket of one scope leaves the others waiting. */
  lemma StillPending<Scope(!new)>(pending: seq<Ticket<Scope>>, t: Ticket<Scope>, ys: seq<Scope>, s: Scope)
    requires InOrder(pending) && ys != [] && t.scope == ys[0] && s != ys[0] && s in Scopes(pending)
    requires forall y :: y in ys ==> y in Scopes(pending)
    requires forall y :: y in ys[1..] ==> y != ys[0] && y in ys
    ensures s in Scopes(Remove(pending, t)) && forall y :: y in ys[1..] ==> y in Scopes(Remove(pending, t))
  {
    RemoveTicket(pending, t);
    MemberScopes(pending);
    MemberScopes(Remove(pending, t));
  }

  lemma {:induction false} ServeAll<Scope(!new)>(w: World<Scope>, ys: seq<Scope>, s: Scope)
      returns (events: seq<Event<Scope>>, v: World<Scope>)
    requires InLine(w, ys, s)
    ensures v == Run(w, events) && InLine(v, [], s) && Scopes(v.granted) == Scopes(w.granted) + ys
    decreases |ys|
  {
    events, v := [], w;
    if ys == [] {
      assert Scopes(w.granted) + ys == Scopes(w.granted);
    } else {
      var t, u := ServeFirst(w, ys, s);
      var rest;
      rest, v := ServeAll(u, ys[1..], s);
      RunTwoThen(w, Try(t), Finish(ys[0]), rest);
      events := [Try(t), Finish(ys[0])] + rest;
      GrantedScopes(w.granted, t, ys);
    }
  }

  lemma RunTwoThen<Scope(!new)>(w: World<Scope>, a: Event<Scope>, b: Event<Scope>, rest: seq<Event<Scope>>)
    ensures Run(w, [a, b] + rest) == Run(Next(Next(w, a), b), rest)
  {
    var events := [a, b] + rest;
    assert events[1..] == [b] + rest && events[1..][1..] == rest;
  }

  lemma GrantedScopes<Scope(!new)>(granted: seq<Ticket<Scope>>, t: Ticket<Scope>, ys: seq<Scope>)
    requires ys != [] && t.scope == ys[0]
    ensures Scopes(granted + [t]) + ys[1..] == Scopes(granted) + ys
  {
    ScopesAppend(granted, t);
  }

  lemma {:induction false} RunAppend<Scope(!new)>(w: World<Scope>, a: seq<Event<Scope>>, b: seq<Event<Scope>>)
    ensures Run(w, a + b) == Run(Run(w, a), b)
    decreases |a|
  {
    if a == [] {
      assert a + b == b;
    } else {
      assert (a + b)[1..] == a[1..] + b;
      RunAppend(Next(w, a[0]), a[1..], b);
    }
  }

  /**
   The scope served last has no bound: on an idle pool in which only it is waiting, any number of newcomers is served
   before it, if they all arrive before the next grant.
   */
  lemma ServedLastIsOvertaken<Scope(!new)>(w: World<Scope>, s: Scope, xs: seq<Scope>) returns (events: seq<Event<Scope>>)
    requires Sound(w) && w.pool.turns.last == Some(s) && w.pool.active == multiset{} && w.pool.limit > 0
    requires s in Scopes(w.pool.pending) && forall k :: k in Scopes(w.pool.pending) ==> k == s
    requires Distinct(xs) && forall x :: x in xs ==> x !in w.pool.turns.order
    ensures Scopes(Run(w, events).granted) == Scopes(w.granted) + xs
    ensures s in Scopes(Run(w, events).pool.pending)
  {
    var stale := w.pool.turns.order[..|w.pool.turns.order| - 1];
    assert w.pool.turns.order == stale + ([] + [s]);
    assert Gathered(w, s, [], stale);
    if xs == [] {
      events := [];
      assert Scopes(w.granted) + xs == Scopes(w.granted);
    } else {
      assert [] + xs == xs;
      var arrivals, v := NewcomersArrive(w, s, [], stale, xs, xs);
      assert v.pool.turns.order == [] + (xs + [s]) == xs + [s];
      assert InLine(v, xs, s);
      var grants, u := ServeAll(v, xs, s);
      events := arrivals + grants;
      RunAppend(w, arrivals, grants);
    }
  }

  /** As soon as one other scope has been granted a slot, the scope that was served last is bounded by its index like any other. */
  lemma BoundedAfterOneGrant<Scope(!new)>(w: World<Scope>, t: Ticket<Scope>, s: Scope, events: seq<Event<Scope>>)
    requires Sound(w) && w.pool.active[s] == 0 && s in Scopes(w.pool.pending)
    requires Passes(w.pool, t) && t.scope != s
    ensures var v := Next(w, Try(t));
      && Waiting(v.pool, s) && Sound(v) && s in v.pool.turns.order
      && (KeepsWaiting(v, events, s) ==> Grants(v, events) <= Position(v.pool.turns.order, s))
  {
    var v := Next(w, Try(t));
    PassingTicket(w, t);
    NextIsSound(w, Try(t));
    RemoveTicket(w.pool.pending, t);
    MemberScopes(w.pool.pending);
    MemberScopes(v.pool.pending);
    if KeepsWaiting(v, events, s) {
      BoundedBypass(v, events, s);
    }
  }
}
