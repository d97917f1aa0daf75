/**
 Least-occupied round robin over conversation scopes.

 `order` is the turn list and `last` the scope served most recently.  New contenders are queued before the
 scope that was just served, so it cannot refill its slot ahead of them.
 */
module Fairness {
  import opened Options
  import opened Collections

  datatype Turns<Scope> = Turns(order: seq<Scope>, last: Option<Scope>)

  /** The turn list has no repetitions and ends with the scope served last. */
  ghost predicate Valid<Scope>(t: Turns<Scope>) {
    Distinct(t.order) && (t.last.Some? ==> t.order != [] && t.order[|t.order| - 1] == t.last.value)
  }

  predicate Needed<Scope(==, !new)>(key: Scope, last: Option<Scope>, pending: seq<Scope>, active: multiset<Scope>) {
    key in pending || key in active || last == Some(key)
  }

  function Keep<Scope(==, !new)>(order: seq<Scope>, last: Option<Scope>, pending: seq<Scope>, active: multiset<Scope>): seq<Scope> {
    if order == [] then []
    else
      Keep(order[..|order| - 1], last, pending, active)
      + (if Needed(order[|order| - 1], last, pending, active) then [order[|order| - 1]] else [])
  }

  /** Queue a contender that has no turn yet: before `last` if that is at the end, else at the end. */
  function Insert<Scope(==, !new)>(order: seq<Scope>, last: Option<Scope>, key: Scope): seq<Scope> {
    if key in order then order
    else if order != [] && last == Some(order[|order| - 1]) then order[..|order| - 1] + [key] + order[|order| - 1..]
    else order + [key]
  }

  function InsertAll<Scope(==, !new)>(order: seq<Scope>, last: Option<Scope>, keys: seq<Scope>): seq<Scope> {
    if keys == [] then order else Insert(InsertAll(order, last, keys[..|keys| - 1]), last, keys[|keys| - 1])
  }

  function Refresh<Scope(==, !new)>(t: Turns<Scope>, pending: seq<Scope>, active: multiset<Scope>): Turns<Scope> {
    t.(order := InsertAll(Keep(t.order, t.last, pending, active), t.last, Dedup(pending)))
  }

  /** A waiting scope that occupies no more slots than any other waiting scope. */
  predicate Eligible<Scope(==, !new)>(key: Scope, pending: seq<Scope>, active: multiset<Scope>) {
    key in pending && forall k :: k in pending ==> active[key] <= active[k]
  }

  function FirstEligible<Scope(==, !new)>(order: seq<Scope>, pending: seq<Scope>, active: multiset<Scope>): Option<Scope> {
    if order == [] then None
    else if Eligible(order[0], pending, active) then Some(order[0])
    else FirstEligible(order[1..], pending, active)
  }

  /** Whose turn it is. */
  function Choice<Scope(==, !new)>(t: Turns<Scope>, pending: seq<Scope>, active: multiset<Scope>): Option<Scope> {
    FirstEligible(Refresh(t, pending, active).order, pending, active)
  }

  lemma {:induction false} NobodyEligible<Scope(!new)>(order: seq<Scope>, pending: seq<Scope>, active: multiset<Scope>)
    requires pending == []
    ensures FirstEligible(order, pending, active) == None
  {
    if order != [] {
      NobodyEligible(order[1..], pending, active);
    }
  }

  function Remove<Scope(==, !new)>(order: seq<Scope>, key: Scope): seq<Scope> {
    if order == [] then [] else if order[0] == key then order[1..] else [order[0]] + Remove(order[1..], key)
  }

  function Serve<Scope(==, !new)>(t: Turns<Scope>, key: Scope): Turns<Scope> {
    Turns(Remove(t.order, key) + [key], Some(key))
  }

  class SpaceTurns<Scope(==, !new)> {
    var order: seq<Scope>
    var last: Option<Scope>

    ghost function View(): Turns<Scope>
      reads this
    {
      Turns(order, last)
    }

    constructor ()
      ensures View() == Turns([], None)
    {
      order, last := [], None;
    }

    /** Forget scopes that neither wait nor run, except the one served last. */
    method Forget(pending: seq<Scope>, active: multiset<Scope>)
      modifies this
      ensures order == Keep(old(order), last, pending, active) && last == old(last)
    {
      var kept := [];
      var i := 0;
      while i < |order|
        invariant i <= |order| && View() == old(View())
        invariant kept == Keep(order[..i], last, pending, active)
      {
        assert order[..i + 1] == order[..i] + [order[i]] && order[..i + 1][..i] == order[..i];
        if Needed(order[i], last, pending, active) {
          kept := kept + [order[i]];
        }
        i := i + 1;
      }
      assert order[..i] == order;
      order := kept;
    }

    /** Give every contender without a turn one. */
    method Enqueue(candidates: seq<Scope>)
      modifies this
      ensures order == InsertAll(old(order), last, candidates) && last == old(last)
    {
      var i := 0;
      while i < |candidates|
        invariant i <= |candidates| && last == old(last)
        invariant order == InsertAll(old(order), last, candidates[..i])
      {
        var key := candidates[i];
        assert candidates[..i + 1] == candidates[..i] + [key] && candidates[..i + 1][..i] == candidates[..i];
        if key !in order {
          var index := if order != [] && last == Some(order[|order| - 1]) then |order| - 1 else |order|;
          assert order[..|order|] == order && order[|order|..] == [];
          order := order[..index] + [key] + order[index..];
        }
        i := i + 1;
      }
      assert candidates[..i] == candidates;
    }

    method Choose(pending: seq<Scope>, active: multiset<Scope>) returns (r: Option<Scope>)
      modifies this
      ensures View() == Refresh(old(View()), pending, active)
      ensures r == Choice(old(View()), pending, active)
    {
      var candidates := Dedup(pending);
      Forget(pending, active);
      Enqueue(candidates);
      if candidates == [] {
        NobodyEligible(order, pending, active);
        return None;
      }
      var lowest := Lowest(candidates, active);
      EligibleIsLowest(pending, candidates, active, lowest);
      r := FirstWith(candidates, active, lowest, pending);
    }

    /** `min(active.get(key, 0) for key in candidates)` */
    method Lowest(candidates: seq<Scope>, active: multiset<Scope>) returns (lowest: nat)
      requires candidates != []
      ensures exists k :: 0 <= k < |candidates| && lowest == active[candidates[k]]
      ensures forall k :: 0 <= k < |candidates| ==> lowest <= active[candidates[k]]
    {
      lowest := active[candidates[0]];
      var i := 1;
      while i < |candidates|
        invariant 1 <= i <= |candidates|
        invariant exists k :: 0 <= k < i && lowest == active[candidates[k]]
        invariant forall k :: 0 <= k < i ==> lowest <= active[candidates[k]]
      {
        if active[candidates[i]] < lowest {
          lowest := active[candidates[i]];
        }
        i := i + 1;
      }
    }

    /** The first scope in turn among the lowest candidates. */
    method FirstWith(candidates: seq<Scope>, active: multiset<Scope>, lowest: nat, ghost pending: seq<Scope>) returns (r: Option<Scope>)
      requires forall key :: Eligible(key, pending, active) <==> key in candidates && active[key] == lowest
      ensures r == FirstEligible(order, pending, active)
    {
      var i := 0;
      assert order[0..] == order;
      while i < |order|
        invariant i <= |order|
        invariant FirstEligible(order, pending, active) == FirstEligible(order[i..], pending, active)
      {
        assert order[i..][1..] == order[i + 1..];
        if order[i] in candidates && active[order[i]] == lowest {
          return Some(order[i]);
        }
        i := i + 1;
      }
      return None;
    }

    static lemma EligibleIsLowest(pending: seq<Scope>, candidates: seq<Scope>, active: multiset<Scope>, lowest: nat)
      requires candidates == Dedup(pending)
      requires exists k :: 0 <= k < |candidates| && lowest == active[candidates[k]]
      requires forall k :: 0 <= k < |candidates| ==> lowest <= active[candidates[k]]
      ensures forall key :: Eligible(key, pending, active) <==> key in candidates && active[key] == lowest
    {
      forall key ensures Eligible(key, pending, active) <==> key in candidates && active[key] == lowest {
        var k :| 0 <= k < |candidates| && lowest == active[candidates[k]];
        assert candidates[k] in pending;
        assert forall x :: x in pending ==> x in candidates && lowest <= active[x];
      }
    }

    method Served(key: Scope)
      modifies this
      ensures View() == Serve(old(View()), key)
    {
      var i := 0;
      assert order[..0] + Remove(order[0..], key) == Remove(order, key);
      while i < |order| && order[i] != key
        invariant i <= |order| && View() == old(View())
        invariant order[..i] + Remove(order[i..], key) == Remove(order, key)
      {
        assert order[i..][1..] == order[i + 1..];
        assert order[..i] + ([order[i]] + Remove(order[i + 1..], key)) == order[..i + 1] + Remove(order[i + 1..], key);
        i := i + 1;
      }
      if i < |order| {
        assert order[i..][1..] == order[i + 1..];
        order := order[..i] + order[i + 1..];
      }
      order := order + [key];
      last := Some(key);
    }
  }
}
