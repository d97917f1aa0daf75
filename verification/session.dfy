/**
 Whole histories of one installation root: any number of commands, each of which recovers and then commits
 while holding the update lock, each losing power wherever it may.
 */
module Sessions {
  import opened Options
  import opened Trees
  import opened Transactions
  import opened UndoOrder
  import opened Installations

  /** One install or update, with the power failure and the exceptions it will meet. */
  datatype Command = Command(id: nat, changes: seq<Change>, record: Bytes, fault: Fault, power: nat, errors: seq<nat>)

  function Target(t: Tree, c: Command): Tree {
    Run(t, ApplyOps(WithRecord(c.changes, c.record)))
  }

  /** The rollback after a durable flip was itself cut short. */
  predicate Tears(c: Command, outcome: Ending) {
    c.fault.AfterFlip? && (outcome.PowerLost? || outcome.UndoRefused? || outcome.UndoBroken?)
  }

  /**
   What one command makes of the tree it found: nothing or everything, in accordance with what it reports; only
   a torn rollback may leave its own targets mixed.
   */
  ghost predicate Moves(t: Tree, c: Command, outcome: Ending, u: Tree) {
    || (u == t && !outcome.Success?)
    || (u == Target(t, c) && !outcome.Rejected? && !outcome.Aborted? && !outcome.Undone?)
    || (Tears(c, outcome) && Between(t, NamesOf(WithRecord(c.changes, c.record)), u))
  }

  /** One command: recover, then commit. */
  method RunCommand(inst: Installation, c: Command, ghost now: Tree) returns (outcome: Ending, ghost after: Tree)
    requires StandsFor(inst.digest, inst.txs, inst.tree, now) && c.id !in inst.txs
    modifies inst
    ensures StandsFor(inst.digest, inst.txs, inst.tree, after) && Moves(now, c, outcome, after)
    ensures inst.txs.Keys <= old(inst.txs).Keys + {c.id}
  {
    inst.power, inst.errors := c.power, c.errors;
    var s, count := inst.Recover(now);
    if !s.Done? {
      return match s case Raised => UndoRefused case Failed => UndoBroken case Lost => PowerLost, now;
    }
    outcome := inst.Commit(c.id, c.changes, c.record, c.fault);
    if StandsFor(inst.digest, inst.txs, inst.tree, now) && !outcome.Success? {
      after := now;
    } else if StandsFor(inst.digest, inst.txs, inst.tree, Target(now, c)) {
      after := Target(now, c);
    } else {
      after := inst.tree;
    }
  }

  /**
   Every history is a sequence of commands that each took effect completely or not at all, torn rollbacks apart,
   and at every moment at most one journal is unfinished (the third conjunct of `StandsFor`).
   */
  method RunCommands(inst: Installation, commands: seq<Command>, ghost start: Tree)
    returns (outcomes: seq<Ending>, ghost trees: seq<Tree>)
    requires StandsFor(inst.digest, inst.txs, inst.tree, start)
    requires forall i :: 0 <= i < |commands| ==> commands[i].id !in inst.txs
    requires forall i, j :: 0 <= i < j < |commands| ==> commands[i].id != commands[j].id
    modifies inst
    ensures |outcomes| == |commands| && |trees| == |commands| + 1 && trees[0] == start
    ensures forall i :: 0 <= i < |commands| ==> Moves(trees[i], commands[i], outcomes[i], trees[i + 1])
    ensures StandsFor(inst.digest, inst.txs, inst.tree, trees[|commands|])
  {
    outcomes, trees := [], [start];
    var i := 0;
    while i < |commands|
      invariant i <= |commands| && |outcomes| == i && |trees| == i + 1 && trees[0] == start
      invariant forall k :: 0 <= k < i ==> Moves(trees[k], commands[k], outcomes[k], trees[k + 1])
      invariant StandsFor(inst.digest, inst.txs, inst.tree, trees[i])
      invariant forall k :: i <= k < |commands| ==> commands[k].id !in inst.txs
    {
      var outcome;
      ghost var after;
      outcome, after := RunCommand(inst, commands[i], trees[i]);
      outcomes, trees := outcomes + [outcome], trees + [after];
      i := i + 1;
    }
  }

  /**
   An exception that surfaces after the journal says `committed` but before `commit` has left its `try` block
   starts a rollback.  `flipped` is whether the journal was already durable when the rollback began.
   */
  function AfterTornRollback(pre: Tree, changes: seq<Change>, entries: seq<Entry>, backup: map<Path, File>,
                             created: seq<Path>, flipped: bool, cut: nat): Tree
    requires BackedUp(entries, backup) && cut <= |RestoreOps(entries, backup, created)|
  {
    var undo := RestoreOps(entries, backup, created);
    var half := Run(Run(pre, ApplyOps(changes)), undo[..cut]);
    if flipped then half else Run(half, undo)  // recovery skips a journal that says committed
  }

  /** The tree ends up whole, old or new, wherever the rollback is cut. */
  ghost predicate WholeAfterRollback(flipped: bool) {
    forall pre: Tree, changes: seq<Change>, entries: seq<Entry>, backup: map<Path, File>, created: seq<Path>, cut: nat ::
      Recorded(pre, changes, entries, backup, created) && cut <= |RestoreOps(entries, backup, created)| ==>
        AfterTornRollback(pre, changes, entries, backup, created, flipped, cut) in {pre, Run(pre, ApplyOps(changes))}
  }

  ghost predicate Recorded(pre: Tree, changes: seq<Change>, entries: seq<Entry>, backup: map<Path, File>, created: seq<Path>) {
    && WellFormed(pre) && BackedUp(entries, backup)
    && FaithfulEntries(pre, entries, backup) && Matches(entries, changes)
    && (forall d :: d in created <==> d in MissingDirs(pre, NamesOf(changes)))
    && Undoable(changes)
  }

  /** A crash inside that rollback leaves a torn tree for good exactly when the flip was already durable. */
  lemma RollbackIsSafeIffNotFlipped(flipped: bool)
    ensures WholeAfterRollback(flipped) <==> !flipped
  {
    if flipped {
      TornWitness();
    } else {
      forall pre: Tree, changes: seq<Change>, entries: seq<Entry>, backup: map<Path, File>, created: seq<Path>, cut: nat |
        Recorded(pre, changes, entries, backup, created) && cut <= |RestoreOps(entries, backup, created)|
        ensures AfterTornRollback(pre, changes, entries, backup, created, false, cut) == pre
      {
        var undo := RestoreOps(entries, backup, created);
        assert ApplyOps(changes)[..|ApplyOps(changes)|] == ApplyOps(changes);
        CrashAtomicity(pre, changes, entries, backup, created, |ApplyOps(changes)|, [cut]);
        assert undo[..|undo|] == undo;
        var half := Run(Run(pre, ApplyOps(changes)), undo[..cut]);
        assert AfterCrashes(half, undo, [cut][1..]) == Run(half, undo);
      }
    }
  }

  /* ---- Which rollbacks tear ---- */

  /** A place in a tree: a file, or a directory. */
  datatype Spot = FileSpot(path: Path) | DirSpot(path: Path)

  predicate Differs(a: Tree, b: Tree, s: Spot) {
    match s
    case FileSpot(p) => !((p in a.files <==> p in b.files) && (p in a.files ==> a.files[p] == b.files[p]))
    case DirSpot(d) => (d in a.dirs) != (d in b.dirs)
  }

  function SpotOf(op: Op): Spot {
    match op
    case Mkdir(d) => DirSpot(d)
    case Put(p, _) => FileSpot(p)
    case Del(p) => FileSpot(p)
    case Rmdir(d) => DirSpot(d)
  }

  lemma SameTree(a: Tree, b: Tree)
    requires forall s :: !Differs(a, b, s)
    ensures a == b
  {
    forall p ensures (p in a.files <==> p in b.files) && (p in a.files ==> a.files[p] == b.files[p]) {
      assert !Differs(a, b, FileSpot(p));
    }
    forall d ensures d in a.dirs <==> d in b.dirs {
      assert !Differs(a, b, DirSpot(d));
    }
    assert a.files == b.files && a.dirs == b.dirs;
  }

  lemma SpotAgrees(a: Tree, b: Tree, c: Tree, s: Spot)
    requires !Differs(a, b, s)
    ensures Differs(a, c, s) <==> Differs(b, c, s)
  {
  }

  /** A step changes one spot at most. */
  lemma OneSpot(t: Tree, op: Op, s: Spot)
    requires Enabled(t, op) && Differs(t, Step(t, op), s)
    ensures s == SpotOf(op)
  {
  }

  /** Every spot is as in `a` or as in `b`. */
  ghost predicate Mixes(t: Tree, a: Tree, b: Tree) {
    forall s :: !Differs(t, a, s) || !Differs(t, b, s)
  }

  /** The step gives its spot the state it has in `pre`. */
  ghost predicate Towards(pre: Tree, op: Op) {
    match op
    case Mkdir(d) => d in pre.dirs
    case Put(p, f) => p in pre.files && pre.files[p] == f
    case Del(p) => p !in pre.files
    case Rmdir(d) => d !in pre.dirs
  }

  lemma {:induction false} TowardsMixes(pre: Tree, target: Tree, t: Tree, ops: seq<Op>)
    requires Mixes(t, pre, target) && forall op :: op in ops ==> Towards(pre, op)
    ensures Mixes(Run(t, ops), pre, target)
    decreases |ops|
  {
    if ops != [] && Enabled(t, ops[0]) {
      var next := Step(t, ops[0]);
      assert ops[0] in ops && Towards(pre, ops[0]);
      forall s ensures !Differs(next, pre, s) || !Differs(next, target, s) {
        if Differs(t, next, s) {
          OneSpot(t, ops[0], s);
        } else {
          SpotAgrees(t, next, pre, s);
          SpotAgrees(t, next, target, s);
          assert !Differs(t, pre, s) || !Differs(t, target, s);
        }
      }
      TowardsMixes(pre, target, next, ops[1..]);
    }
  }

  /** Two spots that start out different cannot become right in the same step. */
  lemma {:induction false} OneBeforeTheOther(pre: Tree, t: Tree, ops: seq<Op>, a: Spot, b: Spot) returns (cut: nat)
    requires a != b && Differs(t, pre, a) && Differs(t, pre, b) && Completes(t, ops) && Run(t, ops) == pre
    ensures cut <= |ops| && Differs(Run(t, ops[..cut]), pre, a) != Differs(Run(t, ops[..cut]), pre, b)
    decreases |ops|
  {
    var next := Step(t, ops[0]);
    if Differs(next, pre, a) && Differs(next, pre, b) {
      cut := OneBeforeTheOther(pre, next, ops[1..], a, b);
      assert ops[..cut + 1][1..] == ops[1..][..cut];
      cut := cut + 1;
    } else {
      if !Differs(next, pre, a) {
        OneSpot(t, ops[0], a);
      }
      if !Differs(next, pre, b) {
        OneSpot(t, ops[0], b);
      }
      cut := 1;
      assert ops[..1][1..] == [];
    }
  }

  lemma RestoreGoesBack(pre: Tree, entries: seq<Entry>, backup: map<Path, File>, created: seq<Path>)
    requires WellFormed(pre) && FaithfulEntries(pre, entries, backup)
    requires forall d :: d in created ==> d !in pre.dirs
    ensures forall op :: op in RestoreOps(entries, backup, created) ==> Towards(pre, op)
  {
    UndoGoesBack(pre, entries, backup);
    RmdirsGoBack(pre, SortByDepth(created));
  }

  lemma {:induction false} UndoGoesBack(pre: Tree, entries: seq<Entry>, backup: map<Path, File>)
    requires WellFormed(pre) && FaithfulEntries(pre, entries, backup)
    ensures forall op :: op in UndoOps(entries, backup) ==> Towards(pre, op)
  {
    if entries != [] {
      var e := entries[|entries| - 1];
      assert e in entries;
      if e.existed {
        AtomicBackward(pre, e.name, File(backup[e.name].content, e.mode));
        MkdirsAbove(e.name, 0);
      }
      UndoGoesBack(pre, entries[..|entries| - 1], backup);
    }
  }

  lemma {:induction false} RmdirsGoBack(pre: Tree, ds: seq<Path>)
    requires forall d :: d in ds ==> d !in pre.dirs
    ensures forall op :: op in RmdirOps(ds) ==> Towards(pre, op)
  {
    if ds != [] {
      RmdirsGoBack(pre, ds[1..]);
    }
  }

  /** The transaction changes one file or one directory at most. */
  ghost predicate ChangesOneSpot(pre: Tree, target: Tree) {
    forall a, b :: Differs(target, pre, a) && Differs(target, pre, b) ==> a == b
  }

  /** No interruption of the rollback after a durable flip leaves anything but the old or the new tree. */
  ghost predicate NeverTears(pre: Tree, changes: seq<Change>, entries: seq<Entry>, backup: map<Path, File>, created: seq<Path>)
    requires BackedUp(entries, backup)
  {
    forall cut :: 0 <= cut <= |RestoreOps(entries, backup, created)| ==>
      AfterTornRollback(pre, changes, entries, backup, created, true, cut) in {pre, Run(pre, ApplyOps(changes))}
  }

  /** Exactly which transactions cannot be torn after a durable flip: those that change one file or directory at most. */
  lemma NeverTearsIffOneSpot(pre: Tree, changes: seq<Change>, entries: seq<Entry>, backup: map<Path, File>, created: seq<Path>)
    requires Recorded(pre, changes, entries, backup, created)
    ensures NeverTears(pre, changes, entries, backup, created) <==> ChangesOneSpot(pre, Run(pre, ApplyOps(changes)))
  {
    var target, undo := Run(pre, ApplyOps(changes)), RestoreOps(entries, backup, created);
    forall d | d in created ensures d !in pre.dirs {
      assert d in MissingDirs(pre, NamesOf(changes));
    }
    RestoreGoesBack(pre, entries, backup, created);
    if ChangesOneSpot(pre, target) {
      forall cut | 0 <= cut <= |undo|
        ensures AfterTornRollback(pre, changes, entries, backup, created, true, cut) in {pre, target}
      {
        TowardsMixes(pre, target, target, undo[..cut]);
        OneSpotLeft(pre, target, Run(target, undo[..cut]));
      }
    } else {
      var a, b :| Differs(target, pre, a) && Differs(target, pre, b) && a != b;
      WholeRollback(pre, changes, entries, backup, created);
      var cut := OneBeforeTheOther(pre, target, undo, a, b);
      assert AfterTornRollback(pre, changes, entries, backup, created, true, cut) !in {pre, target};
    }
  }

  lemma OneSpotLeft(pre: Tree, target: Tree, t: Tree)
    requires Mixes(t, pre, target) && ChangesOneSpot(pre, target)
    ensures t == pre || t == target
  {
    if s :| Differs(t, pre, s) {
      forall x ensures !Differs(t, target, x) {
        if Differs(t, target, x) {
          assert !Differs(t, pre, x) && Differs(target, pre, x) && Differs(target, pre, s);
        }
      }
      SameTree(t, target);
    } else {
      SameTree(t, pre);
    }
  }

  /** From the new tree an undisturbed rollback of a recorded transaction completes and gives back the old one. */
  lemma WholeRollback(pre: Tree, changes: seq<Change>, entries: seq<Entry>, backup: map<Path, File>, created: seq<Path>)
    requires Recorded(pre, changes, entries, backup, created)
    ensures var target, undo := Run(pre, ApplyOps(changes)), RestoreOps(entries, backup, created);
      Completes(target, undo) && Run(target, undo) == pre
  {
    var n := |ApplyOps(changes)|;
    assert ApplyOps(changes)[..n] == ApplyOps(changes);
    MatchingNames(entries, changes);
    EntriesAcceptable(pre, changes, entries, backup);
    NamesAcceptable(pre, changes, entries);
    CutIsBetween(pre, changes, n);
    AnyCutCanUndo(pre, changes, entries, backup, n);
    RestoreIsExact(pre, NamesOf(changes), Run(pre, ApplyOps(changes)), entries, backup, created);
  }

  lemma TwoWrites(a: Path, b: Path, v: File)
    requires |a| == |b| == 1
    ensures ApplyOps([Change(a, Some(v.content), v.mode), Change(b, Some(v.content), v.mode)]) == [Put(a, v), Put(b, v)]
  {
    var x, y := Change(a, Some(v.content), v.mode), Change(b, Some(v.content), v.mode);
    assert Mkdirs(a, 0) == Mkdirs(b, 0) == [];
    assert [x, y][1..] == [y] && [y][1..] == [];
    assert ApplyOps([y]) == [Put(b, v)] + [];
  }

  lemma RunTwo(t: Tree, x: Op, y: Op)
    requires Enabled(t, x) && Enabled(Step(t, x), y)
    ensures Run(t, [x]) == Step(t, x) && Run(t, [x, y]) == Step(Step(t, x), y)
  {
    assert [x][1..] == [] && [x, y][1..] == [y] && [y][1..] == [];
    assert Run(Step(t, x), [y]) == Step(Step(t, x), y);
  }

  lemma TwoRecorded(a: Path, b: Path, v: File, w: File, pre: Tree)
    requires |a| == |b| == 1 && a != b && pre == Tree(map[a := v, b := v], {[]})
    ensures Recorded(pre, [Change(a, Some(w.content), w.mode), Change(b, Some(w.content), w.mode)],
                     [Entry(a, true, v.mode, ""), Entry(b, true, v.mode, "")], map[a := v, b := v], [])
  {
    var changes := [Change(a, Some(w.content), w.mode), Change(b, Some(w.content), w.mode)];
    var entries := [Entry(a, true, v.mode, ""), Entry(b, true, v.mode, "")];
    assert changes[0] in changes && changes[1] in changes && entries[0] in entries && entries[1] in entries;
    assert NamesOf(changes) == {a, b} == EntryNames(entries);
    assert a[..0] == [] && b[..0] == [];
    NoNestingIsUndoable(changes);
  }

  lemma TwoChange(a: Path, b: Path, v: File, w: File, pre: Tree)
    requires |a| == |b| == 1 && a != b && v != w && pre == Tree(map[a := v, b := v], {[]})
    ensures var changes := [Change(a, Some(w.content), w.mode), Change(b, Some(w.content), w.mode)];
      !ChangesOneSpot(pre, Run(pre, ApplyOps(changes)))
  {
    TwoWrites(a, b, w);
    RunTwo(pre, Put(a, w), Put(b, w));
    var target := Step(Step(pre, Put(a, w)), Put(b, w));
    assert Differs(target, pre, FileSpot(a)) && Differs(target, pre, FileSpot(b));
    assert FileSpot(a) != FileSpot(b);
  }

  /** Two files change; the rollback may restore one of them before the machine goes down. */
  lemma TornWitness()
    ensures !WholeAfterRollback(true)
  {
    var a, b: Path := ["a"], ["b"];
    var v, w := File("1", 420), File("2", 420);
    var pre := Tree(map[a := v, b := v], {[]});
    var changes := [Change(a, Some("2"), 420), Change(b, Some("2"), 420)];
    var entries := [Entry(a, true, 420, ""), Entry(b, true, 420, "")];
    TwoRecorded(a, b, v, w, pre);
    TwoChange(a, b, v, w, pre);
    NeverTearsIffOneSpot(pre, changes, entries, map[a := v, b := v], []);
  }
}
