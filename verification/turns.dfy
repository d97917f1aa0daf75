/** What `choose` and `served` keep, and how they move a waiting scope through the turn list. */
module TurnLaws {
  import opened Options
  import opened Collections
  import opened Fairness

  /** The index of a scope in the turn list. */
  function Position<Scope(==)>(order: seq<Scope>, s: Scope): (i: nat)
    requires s in order
    ensures i < |order| && order[i] == s
  {
    if order[0] == s then 0 else 1 + Position(order[1..], s)
  }

  lemma {:induction false} KeepLaws<Scope(!new)>(order: seq<Scope>, last: Option<Scope>, pending: seq<Scope>, active: multiset<Scope>)
    requires Distinct(order)
    ensures var r := Keep(order, last, pending, active);
      && Distinct(r)
      && (forall x :: x in r <==> x in order && Needed(x, last, pending, active))
      && (order != [] && last == Some(order[|order| - 1]) ==> r != [] && r[|r| - 1] == order[|order| - 1])
    decreases |order|
  {
    if order != [] {
      var prefix, x := order[..|order| - 1], order[|order| - 1];
      assert order == prefix + [x];
      KeepLaws(prefix, last, pending, active);
      var k := Keep(prefix, last, pending, active);
      assert forall y :: y in k ==> y in prefix;
      assert x !in prefix;
    }
  }

  /** What is kept moves forward, if at all. */
  lemma {:induction false} KeepPlace<Scope(!new)>(order: seq<Scope>, last: Option<Scope>, pending: seq<Scope>, active: multiset<Scope>, i: nat)
      returns (j: nat)
    requires i < |order| && Needed(order[i], last, pending, active)
    ensures var r := Keep(order, last, pending, active); j <= i && j < |r| && r[j] == order[i]
    decreases |order|
  {
    var prefix := order[..|order| - 1];
    if i < |prefix| {
      j := KeepPlace(prefix, last, pending, active, i);
    } else {
      KeepShortens(prefix, last, pending, active);
      j := |Keep(prefix, last, pending, active)|;
    }
  }

  lemma {:induction false} KeepShortens<Scope(!new)>(order: seq<Scope>, last: Option<Scope>, pending: seq<Scope>, active: multiset<Scope>)
    ensures |Keep(order, last, pending, active)| <= |order|
    decreases |order|
  {
    if order != [] {
      KeepShortens(order[..|order| - 1], last, pending, active);
    }
  }

  lemma InsertLaws<Scope(!new)>(order: seq<Scope>, last: Option<Scope>, key: Scope)
    requires Valid(Turns(order, last))
    ensures var r := Insert(order, last, key);
      && Valid(Turns(r, last)) && |order| <= |r|
      && (forall x :: x in r <==> x in order || x == key)
      && (forall i :: 0 <= i < |order| && last != Some(order[i]) ==> i < |r| && r[i] == order[i])
  {
    var r := Insert(order, last, key);
    if key !in order {
      var n := if order != [] && last == Some(order[|order| - 1]) then |order| - 1 else |order|;
      assert r == order[..n] + [key] + order[n..];
      assert forall x :: x in order <==> x in order[..n] || x in order[n..] by { assert order == order[..n] + order[n..]; }
    }
  }

  lemma {:induction false} InsertAllLaws<Scope(!new)>(order: seq<Scope>, last: Option<Scope>, keys: seq<Scope>)
    requires Valid(Turns(order, last))
    ensures var r := InsertAll(order, last, keys);
      && Valid(Turns(r, last)) && |order| <= |r|
      && (forall x :: x in r <==> x in order || x in keys)
      && (forall i :: 0 <= i < |order| && last != Some(order[i]) ==> i < |r| && r[i] == order[i])
    decreases |keys|
  {
    if keys != [] {
      assert keys == keys[..|keys| - 1] + [keys[|keys| - 1]];
      InsertAllLaws(order, last, keys[..|keys| - 1]);
      InsertLaws(InsertAll(order, last, keys[..|keys| - 1]), last, keys[|keys| - 1]);
    }
  }

  /** Refreshing keeps the list well formed, gives every waiting scope a turn and never moves one back. */
  lemma RefreshLaws<Scope(!new)>(t: Turns<Scope>, pending: seq<Scope>, active: multiset<Scope>)
    requires Valid(t)
    ensures var r := Refresh(t, pending, active);
      && Valid(r) && r.last == t.last
      && (forall x :: x in r.order <==> x in pending || (x in t.order && (x in active || t.last == Some(x))))
      && (forall s :: s in t.order && s in pending && t.last != Some(s) ==>
            s in r.order && Position(r.order, s) <= Position(t.order, s))
  {
    var k, r := Keep(t.order, t.last, pending, active), Refresh(t, pending, active);
    KeepLaws(t.order, t.last, pending, active);
    InsertAllLaws(k, t.last, Dedup(pending));
    forall s | s in t.order && s in pending && t.last != Some(s)
      ensures s in r.order && Position(r.order, s) <= Position(t.order, s)
    {
      var i := Position(t.order, s);
      var j := KeepPlace(t.order, t.last, pending, active, i);
      assert r.order[j] == s;
    }
  }

  /** A refreshed list is already fresh, so asking twice gives the same answer and the same list. */
  lemma RefreshIdempotent<Scope(!new)>(t: Turns<Scope>, pending: seq<Scope>, active: multiset<Scope>)
    requires Valid(t)
    ensures Refresh(Refresh(t, pending, active), pending, active) == Refresh(t, pending, active)
    ensures Choice(Refresh(t, pending, active), pending, active) == Choice(t, pending, active)
  {
    var r := Refresh(t, pending, active);
    KeepLaws(t.order, t.last, pending, active);
    InsertAllLaws(Keep(t.order, t.last, pending, active), t.last, Dedup(pending));
    KeepAll(r.order, r.last, pending, active);
    InsertNone(r.order, r.last, Dedup(pending));
  }

  lemma {:induction false} KeepAll<Scope(!new)>(order: seq<Scope>, last: Option<Scope>, pending: seq<Scope>, active: multiset<Scope>)
    requires forall x :: x in order ==> Needed(x, last, pending, active)
    ensures Keep(order, last, pending, active) == order
    decreases |order|
  {
    if order != [] {
      assert order == order[..|order| - 1] + [order[|order| - 1]];
      KeepAll(order[..|order| - 1], last, pending, active);
    }
  }

  lemma {:induction false} InsertNone<Scope(!new)>(order: seq<Scope>, last: Option<Scope>, keys: seq<Scope>)
    requires forall x :: x in keys ==> x in order
    ensures InsertAll(order, last, keys) == order
    decreases |keys|
  {
    if keys != [] {
      InsertNone(order, last, keys[..|keys| - 1]);
    }
  }

  lemma {:induction false} FirstEligibleLaws<Scope(!new)>(order: seq<Scope>, pending: seq<Scope>, active: multiset<Scope>)
    ensures var r := FirstEligible(order, pending, active);
      && (r.None? <==> forall x :: x in order ==> !Eligible(x, pending, active))
      && (r.Some? ==> r.value in order && Eligible(r.value, pending, active))
      && (r.Some? ==> forall x :: x in order && Eligible(x, pending, active) ==> Position(order, r.value) <= Position(order, x))
    decreases |order|
  {
    if order != [] {
      assert order == [order[0]] + order[1..];
      FirstEligibleLaws(order[1..], pending, active);
    }
  }

  lemma {:induction false} SomebodyEligible<Scope(!new)>(pending: seq<Scope>, active: multiset<Scope>) returns (s: Scope)
    requires pending != []
    ensures Eligible(s, pending, active)
    decreases |pending|
  {
    s := pending[0];
    if |pending| > 1 {
      var rest := SomebodyEligible(pending[1..], active);
      assert pending == [pending[0]] + pending[1..];
      s := if active[pending[0]] < active[rest] then pending[0] else rest;
    }
  }

  /** `choose` finds somebody whenever somebody waits: a least occupied scope, the earliest of them in the list. */
  lemma ChoiceLaws<Scope(!new)>(t: Turns<Scope>, pending: seq<Scope>, active: multiset<Scope>)
    requires Valid(t)
    ensures var r := Choice(t, pending, active);
      && (r.None? <==> pending == [])
      && (r.Some? ==> Eligible(r.value, pending, active) && r.value in Refresh(t, pending, active).order)
      && (r.Some? ==> r.value in pending && forall x :: x in pending ==> active[r.value] <= active[x])
      && (r.Some? ==> forall x :: x in pending && active[x] == active[r.value] ==>
            && x in Refresh(t, pending, active).order
            && Position(Refresh(t, pending, active).order, r.value) <= Position(Refresh(t, pending, active).order, x))
  {
    RefreshLaws(t, pending, active);
    FirstEligibleLaws(Refresh(t, pending, active).order, pending, active);
    if pending != [] {
      var s := SomebodyEligible(pending, active);
      assert s in Refresh(t, pending, active).order;
    }
  }

  lemma {:induction false} RemoveIsCut<Scope(!new)>(order: seq<Scope>, key: Scope)
    ensures Remove(order, key) ==
            if key in order then order[..Position(order, key)] + order[Position(order, key) + 1..] else order
    decreases |order|
  {
    if order != [] {
      assert order == [order[0]] + order[1..];
      RemoveIsCut(order[1..], key);
    }
  }

  lemma PositionIs<Scope(!new)>(order: seq<Scope>, i: nat)
    requires Distinct(order) && i < |order|
    ensures Position(order, order[i]) == i
  {
  }

  lemma MoveToEnd<Scope(!new)>(order: seq<Scope>, j: nat, r: seq<Scope>)
    requires Distinct(order) && j < |order| && r == order[..j] + order[j + 1..] + [order[j]]
    ensures |r| == |order| && Distinct(r)
    ensures forall i :: j < i < |order| ==> r[i - 1] == order[i]
    ensures forall x :: x in r <==> x in order
  {
    assert forall i :: 0 <= i < |r| ==> r[i] == order[if i < j then i else if i < |r| - 1 then i + 1 else j];
    forall x | x in order ensures x in r {
      var i :| 0 <= i < |order| && order[i] == x;
      assert r[if i < j then i else if i == j then |r| - 1 else i - 1] == x;
    }
  }

  lemma AppendNew<Scope(!new)>(order: seq<Scope>, key: Scope)
    requires Distinct(order) && key !in order
    ensures Distinct(order + [key])
  {
  }

  /** Serving one scope keeps the list well formed and moves everybody behind it one place forward. */
  lemma ServeLaws<Scope(!new)>(t: Turns<Scope>, key: Scope)
    requires Valid(t)
    ensures var r := Serve(t, key);
      && Valid(r) && (forall x :: x in r.order <==> x in t.order || x == key)
      && r.last == Some(key) && r.order != [] && r.order[|r.order| - 1] == key
      && (key in t.order ==> forall s :: s in t.order && Position(t.order, key) < Position(t.order, s) ==>
            Position(r.order, s) == Position(t.order, s) - 1)
  {
    var r, order := Serve(t, key), t.order;
    RemoveIsCut(order, key);
    if key in order {
      var j := Position(order, key);
      MoveToEnd(order, j, r.order);
      forall s | s in order && j < Position(order, s)
        ensures Position(r.order, s) == Position(order, s) - 1
      {
        PositionIs(r.order, Position(order, s) - 1);
      }
    } else {
      AppendNew(order, key);
    }
  }
}
