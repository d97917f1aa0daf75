/**
 Which lists of changes can always be rolled back: what matters is which nested change is written, and in which
 order, because entries are undone last to first.
 */
module UndoOrder {
  import opened Options
  import opened Trees
  import opened Transactions

  /** The names that a list of changes has written and not deleted again. */
  function Written(changes: seq<Change>): set<Path> {
    if changes == [] then {}
    else
      var c, before := changes[|changes| - 1], Written(changes[..|changes| - 1]);
      if c.content.Some? then before + {c.name} else before - {c.name}
  }

  /** When its turn comes, the change meets a file that the list itself put in the way. */
  predicate Blocked(changes: seq<Change>, k: nat)
    requires k < |changes|
  {
    exists a :: a in Written(changes[..k]) && Above(a, changes[k].name)
  }

  /** Execution gets as far as change number `k`, and that one is not blocked either. */
  ghost predicate GoesThrough(changes: seq<Change>, k: nat)
    requires k < |changes|
  {
    forall i :: 0 <= i <= k ==> !Blocked(changes, i)
  }

  /** Writing number `i` makes a directory of a changed path. */
  ghost predicate Buries(changes: seq<Change>, i: nat)
    requires i < |changes|
  {
    exists j :: 0 <= j < |changes| && Above(changes[j].name, changes[i].name)
  }

  /** Writing number `i` leaves a file above a path that is undone before that file. */
  ghost predicate Obstructs(changes: seq<Change>, i: nat)
    requires i < |changes|
  {
    exists j :: 0 <= j < |changes| && Above(changes[i].name, changes[j].name)
             && forall k :: j < k < |changes| ==> changes[k].name != changes[i].name
  }

  /** No write that is carried out buries a changed path or obstructs one. */
  ghost predicate Undoable(changes: seq<Change>) {
    forall i :: 0 <= i < |changes| && changes[i].content.Some? && GoesThrough(changes, i) ==>
      !Buries(changes, i) && !Obstructs(changes, i)
  }

  /** One entry for each change, in order. */
  ghost predicate Matches(entries: seq<Entry>, changes: seq<Change>) {
    && |entries| == |changes|
    && forall i :: 0 <= i < |changes| ==> entries[i].name == changes[i].name
  }

  lemma MatchingNames(entries: seq<Entry>, changes: seq<Change>)
    requires Matches(entries, changes)
    ensures EntryNames(entries) == NamesOf(changes)
  {
    forall n ensures n in EntryNames(entries) <==> n in NamesOf(changes) {
      if n in EntryNames(entries) {
        var e :| e in entries && e.name == n;
        var i :| 0 <= i < |entries| && entries[i] == e;
        assert changes[i] in changes;
      }
      if n in NamesOf(changes) {
        var c :| c in changes && c.name == n;
        var i :| 0 <= i < |changes| && changes[i] == c;
        assert entries[i] in entries;
      }
    }
  }

  lemma NoNestingIsUndoable(changes: seq<Change>)
    requires NoNesting(NamesOf(changes))
    ensures Undoable(changes)
  {
    forall i, j | 0 <= i < |changes| && 0 <= j < |changes| ensures !Above(changes[i].name, changes[j].name) {
      assert changes[i] in changes && changes[j] in changes;
      assert changes[i].name in NamesOf(changes) && changes[j].name in NamesOf(changes);
    }
  }

  lemma {:induction false} WrittenMember(changes: seq<Change>, k: nat, a: Path) returns (i: nat)
    requires k <= |changes| && a in Written(changes[..k])
    ensures i < k && changes[i].name == a && changes[i].content.Some?
    decreases k
  {
    assert changes[..k][..k - 1] == changes[..k - 1];
    if changes[k - 1].name == a {
      i := k - 1;
    } else {
      i := WrittenMember(changes, k - 1, a);
    }
  }

  lemma WrittenNext(changes: seq<Change>, k: nat)
    requires k < |changes|
    ensures Written(changes[..k + 1]) ==
            if changes[k].content.Some? then Written(changes[..k]) + {changes[k].name} else Written(changes[..k]) - {changes[k].name}
  {
    assert changes[..k + 1][..k] == changes[..k];
  }

  /* ---- What one change does to the tree ---- */

  ghost predicate Grown(cur: Tree, c: Change, t: Tree) {
    && cur.dirs <= t.dirs
    && (forall d :: d in t.dirs ==> d in cur.dirs || (c.content.Some? && Above(d, c.name)))
    && (forall p :: p in t.files ==> p in cur.files || (c.content.Some? && p == c.name))
    && (forall p :: p in cur.files ==> p in t.files || (c.content.None? && p == c.name))
  }

  /** A step of the change `c`. */
  predicate StepOf(c: Change, op: Op) {
    match op
    case Mkdir(d) => c.content.Some? && Above(d, c.name)
    case Put(p, _) => c.content.Some? && p == c.name
    case Del(p) => c.content.None? && p == c.name
    case Rmdir(_) => false
  }

  lemma StepsOf(c: Change)
    ensures forall op :: op in ChangeOps(c) ==> StepOf(c, op)
  {
    if c.content.Some? {
      MkdirsAbove(c.name, 0);
    }
  }

  lemma {:induction false} StepsGrow(cur: Tree, c: Change, ops: seq<Op>)
    requires forall op :: op in ops ==> StepOf(c, op)
    ensures Grown(cur, c, Run(cur, ops))
    decreases |ops|
  {
    if ops != [] && Enabled(cur, ops[0]) {
      assert ops[0] in ops;
      StepsGrow(Step(cur, ops[0]), c, ops[1..]);
    }
  }

  lemma PartialGrows(cur: Tree, c: Change, m: nat)
    requires m <= |ChangeOps(c)|
    ensures Grown(cur, c, Run(cur, ChangeOps(c)[..m]))
  {
    StepsOf(c);
    StepsGrow(cur, c, ChangeOps(c)[..m]);
  }

  /** After a completed change its file is there, or gone. */
  lemma ChangeTakesEffect(cur: Tree, c: Change)
    requires Completes(cur, ChangeOps(c))
    ensures c.name in Run(cur, ChangeOps(c)).files <==> c.content.Some?
  {
    if c.content.Some? {
      var put := [Put(c.name, File(c.content.value, c.mode))];
      CompletesParts(cur, Mkdirs(c.name, 0), put);
      RunAppend(cur, Mkdirs(c.name, 0), put);
      assert put[1..] == [];
    } else {
      assert ChangeOps(c)[1..] == [];
    }
  }

  lemma CompletesParts(t: Tree, a: seq<Op>, b: seq<Op>)
    requires Completes(t, a + b)
    ensures Completes(t, a) && Completes(Run(t, a), b)
  {
    if !Completes(t, a) {
      NeverCompletes(t, a, b);
    } else {
      RunAppend(t, a, b);
    }
  }

  /** A change whose path lies beneath a regular file is refused without having touched anything. */
  lemma BlockedChange(pre: Tree, names: set<Path>, cur: Tree, c: Change, a: Path, m: nat)
    requires Between(pre, names, cur) && c.name in names && a in cur.files && Above(a, c.name) && m <= |ChangeOps(c)|
    ensures !Completes(cur, ChangeOps(c))
    ensures var t := Run(cur, ChangeOps(c)[..m]); t.dirs <= cur.dirs && t.files.Keys <= cur.files.Keys
  {
    ApplyConfined(pre, names, [c]);
    assert ApplyOps([c]) == ChangeOps(c) by { assert [c][1..] == []; assert ChangeOps(c) + ApplyOps([]) == ChangeOps(c); }
    var t := Run(cur, ChangeOps(c)[..m]);
    ConfinedRun(pre, names, cur, ChangeOps(c)[..m]);
    PartialGrows(cur, c, m);
    assert a in t.files;
    NothingBeneathFile(t, a);
    forall d | d in t.dirs ensures d in cur.dirs {
      if Above(d, c.name) && |d| < |a| {
        assert d == a[..|d|];
        AncestorsAreDirs(cur, a, |d|);
      } else if Above(d, c.name) {
        OnOnePath(a, d, c.name);
      }
    }
    if Completes(cur, ChangeOps(c)) {
      ChangeTakesEffect(cur, c);
      assert ChangeOps(c)[..|ChangeOps(c)|] == ChangeOps(c);
      ConfinedRun(pre, names, cur, ChangeOps(c));
      PartialGrows(cur, c, |ChangeOps(c)|);
      NothingBeneathFile(Run(cur, ChangeOps(c)), a);
    }
  }

  lemma OnOnePath(a: Path, d: Path, p: Path)
    requires Above(a, p) && Above(d, p) && |a| <= |d|
    ensures a == d || Above(a, d)
  {
    assert d[..|a|] == p[..|a|];
  }

  lemma NothingBeneathFile(t: Tree, a: Path)
    requires WellFormed(t) && a in t.files
    ensures forall p :: Exists(t, p) ==> !Above(a, p)
  {
    forall p | Exists(t, p) && Above(a, p) ensures false {
      AncestorsAreDirs(t, p, |a|);
    }
  }

  /* ---- Carrying the list out ---- */

  /** All changes before number `k` have been carried out. */
  ghost predicate Reached(pre: Tree, changes: seq<Change>, k: nat, cur: Tree) {
    && k <= |changes| && Between(pre, NamesOf(changes), cur)
    && (forall i :: 0 <= i < k ==> !Blocked(changes, i))
    && Written(changes[..k]) <= cur.files.Keys
    && (forall p :: p in cur.files ==> p in pre.files || p in Written(changes[..k]))
    && (forall d :: d in cur.dirs ==> d in pre.dirs || exists i :: 0 <= i < k && changes[i].content.Some? && Above(d, changes[i].name))
  }

  lemma ReachedStart(pre: Tree, changes: seq<Change>)
    requires WellFormed(pre) && forall n :: n in NamesOf(changes) ==> Acceptable(pre, n)
    ensures Reached(pre, changes, 0, pre)
  {
  }

  lemma NotBlockedHere(pre: Tree, changes: seq<Change>, k: nat, cur: Tree)
    requires Reached(pre, changes, k, cur) && k < |changes| && Completes(cur, ChangeOps(changes[k]))
    ensures !Blocked(changes, k)
  {
    if a :| a in Written(changes[..k]) && Above(a, changes[k].name) {
      assert changes[k] in changes && changes[k].name in NamesOf(changes);
      BlockedChange(pre, NamesOf(changes), cur, changes[k], a, 0);
    }
  }

  lemma ReachedNext(pre: Tree, changes: seq<Change>, k: nat, cur: Tree)
    requires Reached(pre, changes, k, cur) && k < |changes| && Completes(cur, ChangeOps(changes[k]))
    ensures Reached(pre, changes, k + 1, Run(cur, ChangeOps(changes[k])))
  {
    var c, names := changes[k], NamesOf(changes);
    var ops := ChangeOps(c);
    assert c in changes && c.name in names;
    NotBlockedHere(pre, changes, k, cur);
    ApplyConfined(pre, names, [c]);
    assert ApplyOps([c]) == ops by { assert [c][1..] == []; assert ops + ApplyOps([]) == ops; }
    ConfinedRun(pre, names, cur, ops);
    assert ops[..|ops|] == ops;
    PartialGrows(cur, c, |ops|);
    ChangeTakesEffect(cur, c);
    WrittenNext(changes, k);
    forall d | d in Run(cur, ops).dirs && d !in pre.dirs
      ensures exists i :: 0 <= i < k + 1 && changes[i].content.Some? && Above(d, changes[i].name)
    {
      if d in cur.dirs {
        var i :| 0 <= i < k && changes[i].content.Some? && Above(d, changes[i].name);
      }
    }
  }

  lemma EntriesAcceptable(pre: Tree, changes: seq<Change>, entries: seq<Entry>, backup: map<Path, File>)
    requires Matches(entries, changes) && FaithfulEntries(pre, entries, backup)
    ensures forall i :: 0 <= i < |entries| ==> Acceptable(pre, entries[i].name) && (entries[i].existed <==> entries[i].name in pre.files)
  {
    forall i | 0 <= i < |entries|
      ensures Acceptable(pre, entries[i].name) && (entries[i].existed <==> entries[i].name in pre.files)
    {
      assert entries[i] in entries;
    }
  }

  /** Whatever only takes away keeps the tree fit for a rollback. */
  lemma CanUndoLess(entries: seq<Entry>, cur: Tree, t: Tree)
    requires CanUndo(entries, cur) && t.dirs <= cur.dirs && t.files.Keys <= cur.files.Keys
    ensures CanUndo(entries, t)
  {
  }

  /** Between two changes of an undoable list. */
  lemma ReachedCanUndo(pre: Tree, changes: seq<Change>, entries: seq<Entry>, backup: map<Path, File>, k: nat, cur: Tree)
    requires Matches(entries, changes) && FaithfulEntries(pre, entries, backup) && Undoable(changes)
    requires Reached(pre, changes, k, cur)
    ensures CanUndo(entries, cur)
  {
    EntriesAcceptable(pre, changes, entries, backup);
    forall j | 0 <= j < |entries| && !entries[j].existed ensures entries[j].name !in cur.dirs {
      if i :| 0 <= i < k && changes[i].content.Some? && Above(entries[j].name, changes[i].name) {
        assert GoesThrough(changes, i) && Above(changes[j].name, changes[i].name);
        assert Buries(changes, i);
      }
    }
    forall j, a | 0 <= j < |entries| && a in cur.files && Above(a, entries[j].name)
      ensures exists m :: j < m < |entries| && entries[m].name == a
    {
      NothingAboveTargets(pre, entries[j].name, a);
      var i := WrittenMember(changes, k, a);
      assert GoesThrough(changes, i) && Above(changes[i].name, changes[j].name);
      assert !Obstructs(changes, i);
      var m :| j < m < |changes| && changes[m].name == a;
      assert entries[m].name == a;
    }
  }

  /** In the middle of a change of an undoable list. */
  lemma PartialCanUndo(pre: Tree, changes: seq<Change>, entries: seq<Entry>, backup: map<Path, File>, k: nat, cur: Tree, m: nat)
    requires Matches(entries, changes) && FaithfulEntries(pre, entries, backup) && Undoable(changes)
    requires Reached(pre, changes, k, cur) && k < |changes| && m <= |ChangeOps(changes[k])|
    ensures CanUndo(entries, Run(cur, ChangeOps(changes[k])[..m]))
  {
    var c, t := changes[k], Run(cur, ChangeOps(changes[k])[..m]);
    assert c in changes && c.name in NamesOf(changes);
    ReachedCanUndo(pre, changes, entries, backup, k, cur);
    PartialGrows(cur, c, m);
    if Blocked(changes, k) {
      var a :| a in Written(changes[..k]) && Above(a, c.name);
      BlockedChange(pre, NamesOf(changes), cur, c, a, m);
      CanUndoLess(entries, cur, t);
    } else if c.content.None? {
      CanUndoLess(entries, cur, t);
    } else {
      assert GoesThrough(changes, k);
      WrittenCanUndo(changes, entries, k, cur, t);
    }
  }

  lemma WrittenCanUndo(changes: seq<Change>, entries: seq<Entry>, k: nat, cur: Tree, t: Tree)
    requires Matches(entries, changes) && k < |changes| && CanUndo(entries, cur) && Grown(cur, changes[k], t)
    requires !Buries(changes, k) && !Obstructs(changes, k)
    ensures CanUndo(entries, t)
  {
    var c := changes[k];
    forall j | 0 <= j < |entries| && !entries[j].existed ensures entries[j].name !in t.dirs {
      assert !Above(changes[j].name, c.name);
    }
    forall j, a | 0 <= j < |entries| && a in t.files && Above(a, entries[j].name)
      ensures exists m :: j < m < |entries| && entries[m].name == a
    {
      if a !in cur.files {
        assert Above(c.name, changes[j].name);
        var m :| j < m < |changes| && changes[m].name == c.name;
        assert entries[m].name == a;
      }
    }
  }

  lemma {:induction false} RunStops(t: Tree, a: seq<Op>, b: seq<Op>)
    requires !Completes(t, a)
    ensures Run(t, a + b) == Run(t, a)
    decreases |a|
  {
    if Enabled(t, a[0]) {
      assert (a + b)[1..] == a[1..] + b;
      RunStops(Step(t, a[0]), a[1..], b);
    }
  }

  /** Cutting a run beyond its first part. */
  lemma CutBeyond(t: Tree, a: seq<Op>, b: seq<Op>, cut: nat)
    requires |a| <= cut <= |a| + |b|
    ensures Run(t, (a + b)[..cut]) == if Completes(t, a) then Run(Run(t, a), b[..cut - |a|]) else Run(t, a)
  {
    assert (a + b)[..cut] == a + b[..cut - |a|];
    if Completes(t, a) {
      RunAppend(t, a, b[..cut - |a|]);
    } else {
      RunStops(t, a, b[..cut - |a|]);
    }
  }

  lemma NextOps(changes: seq<Change>, k: nat)
    requires k < |changes|
    ensures ApplyOps(changes[k..]) == ChangeOps(changes[k]) + ApplyOps(changes[k + 1..])
  {
    assert changes[k..][1..] == changes[k + 1..];
  }

  /** Cut short inside change number `k`, or stopped by it. */
  lemma StopsHere(pre: Tree, changes: seq<Change>, k: nat, cur: Tree, cut: nat) returns (m: nat)
    requires k < |changes| && cut <= |ApplyOps(changes[k..])|
    requires cut <= |ChangeOps(changes[k])| || !Completes(cur, ChangeOps(changes[k]))
    ensures m <= |ChangeOps(changes[k])|
    ensures Run(cur, ApplyOps(changes[k..])[..cut]) == Run(cur, ChangeOps(changes[k])[..m])
  {
    var ops, rest := ChangeOps(changes[k]), ApplyOps(changes[k + 1..]);
    NextOps(changes, k);
    if cut <= |ops| {
      m := cut;
      assert (ops + rest)[..cut] == ops[..cut];
    } else {
      m := |ops|;
      CutBeyond(cur, ops, rest, cut);
      assert ops[..|ops|] == ops;
    }
  }

  /** A cut beyond change number `k` is a cut of what follows it. */
  lemma StepOver(pre: Tree, changes: seq<Change>, k: nat, cur: Tree, cut: nat) returns (next: Tree)
    requires Reached(pre, changes, k, cur) && k < |changes| && Completes(cur, ChangeOps(changes[k]))
    requires |ChangeOps(changes[k])| < cut <= |ApplyOps(changes[k..])|
    ensures Reached(pre, changes, k + 1, next) && cut - |ChangeOps(changes[k])| <= |ApplyOps(changes[k + 1..])|
    ensures Run(cur, ApplyOps(changes[k..])[..cut]) == Run(next, ApplyOps(changes[k + 1..])[..cut - |ChangeOps(changes[k])|])
  {
    next := Run(cur, ChangeOps(changes[k]));
    NextOps(changes, k);
    CutBeyond(cur, ChangeOps(changes[k]), ApplyOps(changes[k + 1..]), cut);
    ReachedNext(pre, changes, k, cur);
  }

  /** Every cut ends after all changes, or within one of them. */
  lemma {:induction false} CutLands(pre: Tree, changes: seq<Change>, k: nat, cur: Tree, cut: nat)
      returns (at: nat, start: Tree, m: nat)
    requires Reached(pre, changes, k, cur) && cut <= |ApplyOps(changes[k..])|
    ensures Reached(pre, changes, at, start) && (if at < |changes| then m <= |ChangeOps(changes[at])| else m == 0)
    ensures Run(cur, ApplyOps(changes[k..])[..cut]) ==
      if at < |changes| then Run(start, ChangeOps(changes[at])[..m]) else start
    decreases |changes| - k
  {
    at, start, m := k, cur, 0;
    if k < |changes| {
      var ops := ChangeOps(changes[k]);
      if cut <= |ops| || !Completes(cur, ops) {
        m := StopsHere(pre, changes, k, cur, cut);
      } else {
        var next := StepOver(pre, changes, k, cur, cut);
        at, start, m := CutLands(pre, changes, k + 1, next, cut - |ops|);
      }
    }
  }

  /* ---- The other direction ---- */

  /** A write that goes through, with nothing buried before it, is carried out. */
  lemma NextCompletes(pre: Tree, changes: seq<Change>, k: nat, cur: Tree)
    requires Reached(pre, changes, k, cur) && k < |changes| && !Blocked(changes, k)
    requires forall i :: 0 <= i < k && changes[i].content.Some? ==> !Buries(changes, i)
    ensures changes[k].content.Some? ==> Completes(cur, Mkdirs(changes[k].name, 0))
    ensures Completes(cur, ChangeOps(changes[k]))
  {
    var c := changes[k];
    assert c in changes && c.name in NamesOf(changes);
    forall i | 0 <= i < |c.name| ensures c.name[..i] !in cur.files {
      assert Above(c.name[..i], c.name) && c.name[..i] !in pre.files;
    }
    forall i | 0 <= i < k && changes[i].content.Some? ensures !Above(c.name, changes[i].name) {
      assert !Buries(changes, i);
    }
    if c.content.Some? {
      assert c.name[..0] == [];
      MkdirsWork(cur, c.name, 0);
      StepsOf(c);
      StepsGrow(cur, c, Mkdirs(c.name, 0));
      var put := [Put(c.name, File(c.content.value, c.mode))];
      assert put[1..] == [];
      RunAppend(cur, Mkdirs(c.name, 0), put);
    } else {
      assert ChangeOps(c)[1..] == [];
    }
  }

  lemma PrefixNext(pre: Tree, changes: seq<Change>, k: nat)
    requires k < |changes| && Completes(pre, ApplyOps(changes[..k]))
    requires Completes(Run(pre, ApplyOps(changes[..k])), ChangeOps(changes[k]))
    ensures Completes(pre, ApplyOps(changes[..k + 1]))
    ensures Run(pre, ApplyOps(changes[..k + 1])) == Run(Run(pre, ApplyOps(changes[..k])), ChangeOps(changes[k]))
  {
    var last := [changes[k]];
    assert changes[..k + 1] == changes[..k] + last;
    ApplyOpsAppend(changes[..k], last);
    assert last[1..] == [] && ChangeOps(changes[k]) + ApplyOps([]) == ChangeOps(changes[k]);
    RunAppend(pre, ApplyOps(changes[..k]), ChangeOps(changes[k]));
  }

  /** The execution up to the first write that buries something. */
  lemma {:induction false} Reaches(pre: Tree, changes: seq<Change>, k: nat) returns (cur: Tree)
    requires WellFormed(pre) && forall n :: n in NamesOf(changes) ==> Acceptable(pre, n)
    requires k <= |changes| && forall i :: 0 <= i < k ==> !Blocked(changes, i)
    requires forall i :: 0 <= i < k && changes[i].content.Some? ==> !Buries(changes, i)
    ensures Reached(pre, changes, k, cur)
    ensures Completes(pre, ApplyOps(changes[..k])) && cur == Run(pre, ApplyOps(changes[..k]))
    decreases k
  {
    if k == 0 {
      ReachedStart(pre, changes);
      cur := pre;
    } else {
      var before := Reaches(pre, changes, k - 1);
      NextCompletes(pre, changes, k - 1, before);
      ReachedNext(pre, changes, k - 1, before);
      PrefixNext(pre, changes, k - 1);
      cur := Run(before, ChangeOps(changes[k - 1]));
    }
  }

  lemma {:induction false} ApplyOpsAppend(a: seq<Change>, b: seq<Change>)
    ensures ApplyOps(a + b) == ApplyOps(a) + ApplyOps(b)
    decreases |a|
  {
    if a == [] {
      assert a + b == b;
    } else {
      assert (a + b)[1..] == a[1..] + b;
      ApplyOpsAppend(a[1..], b);
      assert ChangeOps(a[0]) + (ApplyOps(a[1..]) + ApplyOps(b)) == ChangeOps(a[0]) + ApplyOps(a[1..]) + ApplyOps(b);
    }
  }

  /** The steps of a prefix, and of a prefix of the next change, are a prefix of all steps. */
  lemma CutAt(changes: seq<Change>, k: nat, m: nat) returns (cut: nat)
    requires k < |changes| && m <= |ChangeOps(changes[k])|
    ensures cut <= |ApplyOps(changes)|
    ensures ApplyOps(changes)[..cut] == ApplyOps(changes[..k]) + ChangeOps(changes[k])[..m]
  {
    var first, ops, rest := ApplyOps(changes[..k]), ChangeOps(changes[k]), ApplyOps(changes[k + 1..]);
    assert changes == changes[..k] + changes[k..] && changes[k..][1..] == changes[k + 1..];
    ApplyOpsAppend(changes[..k], changes[k..]);
    assert ApplyOps(changes) == first + (ops + rest);
    cut := |first| + m;
    assert (first + (ops + rest))[..cut] == first + ops[..m];
  }

  ghost predicate Bad(changes: seq<Change>, i: nat) {
    i < |changes| && changes[i].content.Some? && GoesThrough(changes, i) && (Buries(changes, i) || Obstructs(changes, i))
  }

  lemma {:induction false} FirstBad(changes: seq<Change>, i: nat) returns (k: nat)
    requires Bad(changes, i)
    ensures Bad(changes, k) && forall j :: 0 <= j < k ==> !Bad(changes, j)
    decreases i
  {
    if j :| 0 <= j < i && Bad(changes, j) {
      k := FirstBad(changes, j);
    } else {
      k := i;
    }
  }

  /** While the directories for write number `k` are being made, one of them takes the place of a changed path. */
  lemma BuriedCut(pre: Tree, changes: seq<Change>, entries: seq<Entry>, k: nat, cur: Tree) returns (cut: nat)
    requires Matches(entries, changes) && k < |changes| && changes[k].content.Some? && Buries(changes, k)
    requires forall i :: 0 <= i < |entries| ==> Acceptable(pre, entries[i].name) && (entries[i].existed <==> entries[i].name in pre.files)
    requires Completes(pre, ApplyOps(changes[..k])) && cur == Run(pre, ApplyOps(changes[..k]))
    requires Completes(cur, Mkdirs(changes[k].name, 0))
    ensures cut <= |ApplyOps(changes)| && !CanUndo(entries, Run(pre, ApplyOps(changes)[..cut]))
  {
    var c := changes[k];
    var j :| 0 <= j < |changes| && Above(changes[j].name, c.name);
    var mkdirs := Mkdirs(c.name, 0);
    cut := CutAt(changes, k, |mkdirs|);
    assert ChangeOps(c)[..|mkdirs|] == mkdirs;
    RunAppend(pre, ApplyOps(changes[..k]), mkdirs);
    assert entries[j].name == changes[j].name && entries[k].name == c.name;
    MkdirsMake(cur, c.name, 0, |changes[j].name|);
    NothingAboveTargets(pre, c.name, changes[j].name);
    assert entries[j].name in Run(cur, mkdirs).dirs && !entries[j].existed;
  }

  /** Right after write number `k` its file stands above a path that is looked up first. */
  lemma ObstructedCut(pre: Tree, changes: seq<Change>, entries: seq<Entry>, k: nat, cur: Tree) returns (cut: nat)
    requires Matches(entries, changes) && k < |changes| && changes[k].content.Some? && Obstructs(changes, k)
    requires Completes(pre, ApplyOps(changes[..k])) && cur == Run(pre, ApplyOps(changes[..k]))
    requires Completes(cur, ChangeOps(changes[k]))
    ensures cut <= |ApplyOps(changes)| && !CanUndo(entries, Run(pre, ApplyOps(changes)[..cut]))
  {
    var c := changes[k];
    var j :| 0 <= j < |changes| && Above(c.name, changes[j].name)
             && forall x :: j < x < |changes| ==> changes[x].name != c.name;
    cut := CutAt(changes, k, |ChangeOps(c)|);
    assert ChangeOps(c)[..|ChangeOps(c)|] == ChangeOps(c);
    RunAppend(pre, ApplyOps(changes[..k]), ChangeOps(c));
    ChangeTakesEffect(cur, c);
    assert Above(c.name, entries[j].name);
  }

  /** A list that is not undoable leaves, at some step, a tree that cannot be rolled back. */
  lemma SomeCutCannotUndo(pre: Tree, changes: seq<Change>, entries: seq<Entry>, backup: map<Path, File>) returns (cut: nat)
    requires WellFormed(pre) && Matches(entries, changes) && FaithfulEntries(pre, entries, backup) && !Undoable(changes)
    ensures cut <= |ApplyOps(changes)| && !CanUndo(entries, Run(pre, ApplyOps(changes)[..cut]))
  {
    var i :| 0 <= i < |changes| && changes[i].content.Some? && GoesThrough(changes, i)
             && (Buries(changes, i) || Obstructs(changes, i));
    var k := FirstBad(changes, i);
    EntriesAcceptable(pre, changes, entries, backup);
    NamesAcceptable(pre, changes, entries);
    forall x | 0 <= x < k ensures !Blocked(changes, x) && (changes[x].content.Some? ==> !Buries(changes, x)) {
      assert GoesThrough(changes, x) && !Bad(changes, x);
    }
    var cur := Reaches(pre, changes, k);
    NextCompletes(pre, changes, k, cur);
    if Buries(changes, k) {
      cut := BuriedCut(pre, changes, entries, k, cur);
    } else {
      cut := ObstructedCut(pre, changes, entries, k, cur);
    }
  }

  lemma {:induction false} MkdirsMake(t: Tree, p: Path, k: nat, i: nat)
    requires k < i < |p| && Completes(t, Mkdirs(p, k))
    ensures p[..i] in Run(t, Mkdirs(p, k)).dirs
    decreases |p| - k
  {
    MkdirsAbove(p, k + 1);
    var next := Step(t, Mkdir(p[..k + 1]));
    if i > k + 1 {
      MkdirsMake(next, p, k + 1, i);
    } else {
      MkdirsKeepDirs(next, p, k + 1);
    }
  }

  lemma {:induction false} MkdirsKeepDirs(t: Tree, p: Path, k: nat)
    requires k <= |p|
    ensures t.dirs <= Run(t, Mkdirs(p, k)).dirs
    decreases |p| - k
  {
    if |p| > k + 1 && Enabled(t, Mkdir(p[..k + 1])) {
      MkdirsKeepDirs(Step(t, Mkdir(p[..k + 1])), p, k + 1);
    }
  }

  /* ---- Main results ---- */

  /**
   Exactly which lists can be rolled back from every tree an interruption can leave: those in which no write that is
   carried out makes a directory of a changed path or leaves a file above a path that is undone earlier.
   */
  lemma RollbackCompletesIff(pre: Tree, changes: seq<Change>, entries: seq<Entry>, backup: map<Path, File>, created: seq<Path>)
    requires WellFormed(pre) && Matches(entries, changes) && FaithfulEntries(pre, entries, backup)
    requires forall d :: d in created <==> d in MissingDirs(pre, NamesOf(changes))
    ensures (forall cut :: 0 <= cut <= |ApplyOps(changes)| ==>
               Completes(Run(pre, ApplyOps(changes)[..cut]), RestoreOps(entries, backup, created)))
            <==> Undoable(changes)
  {
    MatchingNames(entries, changes);
    EntriesAcceptable(pre, changes, entries, backup);
    NamesAcceptable(pre, changes, entries);
    forall cut | 0 <= cut <= |ApplyOps(changes)|
      ensures Completes(Run(pre, ApplyOps(changes)[..cut]), RestoreOps(entries, backup, created))
              <==> CanUndo(entries, Run(pre, ApplyOps(changes)[..cut]))
    {
      CutIsBetween(pre, changes, cut);
      RestoreIsExact(pre, NamesOf(changes), Run(pre, ApplyOps(changes)[..cut]), entries, backup, created);
    }
    if Undoable(changes) {
      forall cut | 0 <= cut <= |ApplyOps(changes)| ensures CanUndo(entries, Run(pre, ApplyOps(changes)[..cut])) {
        AnyCutCanUndo(pre, changes, entries, backup, cut);
      }
    } else {
      var cut := SomeCutCannotUndo(pre, changes, entries, backup);
    }
  }

  lemma NamesAcceptable(pre: Tree, changes: seq<Change>, entries: seq<Entry>)
    requires Matches(entries, changes) && forall i :: 0 <= i < |entries| ==> Acceptable(pre, entries[i].name)
    ensures forall n :: n in NamesOf(changes) ==> Acceptable(pre, n)
  {
    forall n | n in NamesOf(changes) ensures Acceptable(pre, n) {
      var c :| c in changes && c.name == n;
      var x :| 0 <= x < |changes| && changes[x] == c;
      assert entries[x].name == n;
    }
  }

  lemma CutIsBetween(pre: Tree, changes: seq<Change>, cut: nat)
    requires WellFormed(pre) && (forall n :: n in NamesOf(changes) ==> Acceptable(pre, n)) && cut <= |ApplyOps(changes)|
    ensures Between(pre, NamesOf(changes), Run(pre, ApplyOps(changes)[..cut]))
  {
    ApplyConfined(pre, NamesOf(changes), changes);
    ConfinedRun(pre, NamesOf(changes), pre, ApplyOps(changes)[..cut]);
  }

  /** Wherever an undoable list is cut short, it can be rolled back. */
  lemma AnyCutCanUndo(pre: Tree, changes: seq<Change>, entries: seq<Entry>, backup: map<Path, File>, cut: nat)
    requires WellFormed(pre) && Matches(entries, changes) && FaithfulEntries(pre, entries, backup) && Undoable(changes)
    requires cut <= |ApplyOps(changes)|
    ensures CanUndo(entries, Run(pre, ApplyOps(changes)[..cut]))
  {
    EntriesAcceptable(pre, changes, entries, backup);
    NamesAcceptable(pre, changes, entries);
    ReachedStart(pre, changes);
    assert changes[0..] == changes;
    var k, start, m := CutLands(pre, changes, 0, pre, cut);
    if k < |changes| {
      PartialCanUndo(pre, changes, entries, backup, k, start, m);
    } else {
      ReachedCanUndo(pre, changes, entries, backup, k, start);
    }
  }

  /** Crash anywhere while applying an undoable list, then anywhere in any number of recoveries: the tree comes back whole. */
  lemma CrashAtomicity(pre: Tree, changes: seq<Change>, entries: seq<Entry>, backup: map<Path, File>,
                       created: seq<Path>, cut: nat, cuts: seq<nat>)
    requires WellFormed(pre) && cut <= |ApplyOps(changes)|
    requires Matches(entries, changes) && FaithfulEntries(pre, entries, backup)
    requires forall d :: d in created <==> d in MissingDirs(pre, NamesOf(changes))
    requires Undoable(changes)
    ensures AfterCrashes(Run(pre, ApplyOps(changes)[..cut]), RestoreOps(entries, backup, created), cuts) == pre
  {
    MatchingNames(entries, changes);
    EntriesAcceptable(pre, changes, entries, backup);
    NamesAcceptable(pre, changes, entries);
    CutIsBetween(pre, changes, cut);
    AnyCutCanUndo(pre, changes, entries, backup, cut);
    RecoveriesAreExact(pre, NamesOf(changes), Run(pre, ApplyOps(changes)[..cut]), entries, backup, created, cuts);
  }
}
