/**
 The fair request pool: tickets wait in registration order, and a slot goes to the first ticket of the scope
 whose turn it is.  A wait is a sequence of locked passes (`TryGrant`) that ends in a grant or in `GiveUp`;
 other requests run between the passes.
 */
module Pools {
  import opened Options
  import opened Collections
  import opened Fairness

  /** Tickets are compared by identity. */
  datatype Ticket<Scope> = Ticket(id: nat, scope: Scope)

  datatype Pool<Scope> = Pool(limit: nat, active: multiset<Scope>, pending: seq<Ticket<Scope>>,
                              turns: Turns<Scope>, issued: nat)

  function Scopes<Scope>(tickets: seq<Ticket<Scope>>): (r: seq<Scope>)
    ensures |r| == |tickets| && forall i :: 0 <= i < |r| ==> r[i] == tickets[i].scope
  {
    seq(|tickets|, i requires 0 <= i < |tickets| => tickets[i].scope)
  }

  function FirstOf<Scope(==)>(tickets: seq<Ticket<Scope>>, scope: Option<Scope>): Option<Ticket<Scope>> {
    if tickets == [] then None
    else if Some(tickets[0].scope) == scope then Some(tickets[0])
    else FirstOf(tickets[1..], scope)
  }

  function Refreshed<Scope(==, !new)>(p: Pool<Scope>): Pool<Scope> {
    p.(turns := Refresh(p.turns, Scopes(p.pending), p.active))
  }

  /** The locked check of `wait` passes for this ticket. */
  predicate Passes<Scope(==, !new)>(p: Pool<Scope>, t: Ticket<Scope>) {
    && |p.active| < p.limit
    && FirstOf(p.pending, Choice(p.turns, Scopes(p.pending), p.active)) == Some(t)
  }

  function AfterRegister<Scope(==, !new)>(p: Pool<Scope>, scope: Scope): Pool<Scope> {
    Refreshed(p.(pending := p.pending + [Ticket(p.issued, scope)], issued := p.issued + 1))
  }

  function AfterTry<Scope(==, !new)>(p: Pool<Scope>, t: Ticket<Scope>): Pool<Scope> {
    var q := Refreshed(p);
    if Passes(p, t)
    then q.(pending := Remove(p.pending, t), active := p.active + multiset{t.scope}, turns := Serve(q.turns, t.scope))
    else q
  }

  function AfterGiveUp<Scope(==, !new)>(p: Pool<Scope>, t: Ticket<Scope>): Pool<Scope> {
    p.(pending := Remove(p.pending, t))
  }

  function AfterRelease<Scope(==, !new)>(p: Pool<Scope>, scope: Scope): Pool<Scope> {
    if p.active[scope] < 1 then p else p.(active := p.active - multiset{scope})
  }

  class FairRequestPool<Scope(==, !new)> {
    const limit: nat
    const turns: SpaceTurns<Scope>
    var active: multiset<Scope>
    var pending: seq<Ticket<Scope>>
    var issued: nat

    ghost function View(): Pool<Scope>
      reads this, turns
    {
      Pool(limit, active, pending, turns.View(), issued)
    }

    constructor (limit: nat)
      ensures fresh(turns) && View() == Pool(limit, multiset{}, [], Turns([], None), 0)
    {
      this.limit, active, pending, issued := limit, multiset{}, [], 0;
      turns := new SpaceTurns();
    }

    method Status() returns (activeRequests: nat, maxRequests: nat, available: int, waiting: nat)
      ensures activeRequests == |View().active| && maxRequests == limit
      ensures available == limit - |View().active| && waiting == |View().pending|
    {
      activeRequests, maxRequests, available, waiting := |active|, limit, limit - |active|, |pending|;
    }

    method Register(scope: Scope) returns (t: Ticket<Scope>)
      modifies this, turns
      ensures View() == AfterRegister(old(View()), scope)
      ensures t == Ticket(old(issued), scope)
    {
      t := Ticket(issued, scope);
      pending, issued := pending + [t], issued + 1;
      var _ := turns.Choose(Scopes(pending), active);
    }

    method TryGrant(t: Ticket<Scope>) returns (granted: bool)
      modifies this, turns
      ensures View() == AfterTry(old(View()), t)
      ensures granted <==> Passes(old(View()), t)
    {
      var chosen := turns.Choose(Scopes(pending), active);
      var i := 0;
      assert pending[0..] == pending;
      while i < |pending| && Some(pending[i].scope) != chosen
        invariant i <= |pending|
        invariant FirstOf(pending, chosen) == FirstOf(pending[i..], chosen)
      {
        assert pending[i..][1..] == pending[i + 1..];
        i := i + 1;
      }
      granted := |active| < limit && i < |pending| && pending[i] == t;
      if granted {
        pending := Remove(pending, t);
        active := active + multiset{t.scope};
        turns.Served(t.scope);
      }
    }

    /** The `finally` part of `wait`: a ticket that is still pending leaves. */
    method GiveUp(t: Ticket<Scope>)
      modifies this
      ensures View() == AfterGiveUp(old(View()), t)
    {
      pending := Remove(pending, t);
    }

    /** `false` is the error for a slot that is not held. */
    method Release(scope: Scope) returns (ok: bool)
      modifies this
      ensures View() == AfterRelease(old(View()), scope) && (ok <==> scope in old(active))
    {
      ok := active[scope] >= 1;
      if ok {
        active := active - multiset{scope};
      }
    }
  }
}
