/**
 The crash-safe replacement of files by the deployment tool, as durable steps on a tree.

 A transaction records what every target looked like, applies its changes one step at a time and is undone
 from that record unless it finished.  Everything here is about the steps alone; the journal that decides
 which of the two happened is in `Installations`.
 */
module Transactions {
  import opened Options
  import opened Trees

  type Digest = string

  /** `content == None` deletes the file. */
  datatype Change = Change(name: Path, content: Option<Bytes>, mode: nat)

  /** What a target looked like before the transaction. */
  datatype Entry = Entry(name: Path, existed: bool, mode: nat, sha256: Digest)

  function NamesOf(changes: seq<Change>): set<Path> {
    set c | c in changes :: c.name
  }

  function EntryNames(entries: seq<Entry>): set<Path> {
    set e | e in entries :: e.name
  }

  lemma NamesAppend(a: seq<Change>, b: seq<Change>)
    ensures NamesOf(a + b) == NamesOf(a) + NamesOf(b)
  {
    assert forall c :: c in a + b <==> c in a || c in b;
  }

  lemma EntryNamesAppend(a: seq<Entry>, b: seq<Entry>)
    ensures EntryNames(a + b) == EntryNames(a) + EntryNames(b)
  {
    assert forall e :: e in a + b <==> e in a || e in b;
  }

  /* ---- Applying ---- */

  function ChangeOps(c: Change): seq<Op> {
    match c.content
    case None => [Del(c.name)]
    case Some(data) => AtomicOps(c.name, File(data, c.mode))
  }

  function ApplyOps(changes: seq<Change>): seq<Op> {
    if changes == [] then [] else ChangeOps(changes[0]) + ApplyOps(changes[1..])
  }

  /** The preparation pass accepts the name: not a directory, and no ancestor is a regular file. */
  predicate Acceptable(t: Tree, name: Path) {
    && name != []
    && name !in t.dirs
    && Resolves(t, name)
  }

  /** No changed path lies beneath another one. */
  ghost predicate NoNesting(names: set<Path>) {
    forall a, b :: a in names && b in names ==> !Above(a, b)
  }

  /** The ancestors of the changed paths that did not exist before. */
  function MissingDirs(t: Tree, names: set<Path>): set<Path> {
    set n, k | n in names && 0 < k < |n| && n[..k] !in t.dirs :: n[..k]
  }

  /* ---- Undoing ---- */

  function EntryOps(e: Entry, backup: map<Path, File>): seq<Op>
    requires e.existed ==> e.name in backup
  {
    if e.existed then AtomicOps(e.name, File(backup[e.name].content, e.mode)) else [Del(e.name)]
  }

  predicate BackedUp(entries: seq<Entry>, backup: map<Path, File>) {
    forall e :: e in entries && e.existed ==> e.name in backup
  }

  /** The entries are undone last to first. */
  function UndoOps(entries: seq<Entry>, backup: map<Path, File>): seq<Op>
    requires BackedUp(entries, backup)
  {
    if entries == [] then []
    else EntryOps(entries[|entries| - 1], backup) + UndoOps(entries[..|entries| - 1], backup)
  }

  function RmdirOps(ds: seq<Path>): seq<Op> {
    if ds == [] then [] else [Rmdir(ds[0])] + RmdirOps(ds[1..])
  }

  predicate DeepestFirst(ds: seq<Path>) {
    forall i, j :: 0 <= i < j < |ds| ==> |ds[i]| >= |ds[j]|
  }

  function InsertByDepth(d: Path, ds: seq<Path>): (r: seq<Path>)
    requires DeepestFirst(ds)
    ensures DeepestFirst(r) && forall x :: x in r <==> x == d || x in ds
  {
    if ds == [] || |d| >= |ds[0]| then [d] + ds
    else
      var rest := InsertByDepth(d, ds[1..]);
      assert ds == [ds[0]] + ds[1..];
      assert forall x :: x in rest ==> |x| <= |ds[0]|;
      [ds[0]] + rest
  }

  /** `sorted(created_dirs, key=depth, reverse=True)`. */
  function SortByDepth(ds: seq<Path>): (r: seq<Path>)
    ensures DeepestFirst(r) && forall x :: x in r <==> x in ds
  {
    if ds == [] then []
    else
      assert ds == [ds[0]] + ds[1..];
      InsertByDepth(ds[0], SortByDepth(ds[1..]))
  }

  function RestoreOps(entries: seq<Entry>, backup: map<Path, File>, created: seq<Path>): seq<Op>
    requires BackedUp(entries, backup)
  {
    UndoOps(entries, backup) + RmdirOps(SortByDepth(created))
  }

  /** The record of a transaction describes the tree `pre` it started from. */
  ghost predicate FaithfulEntries(pre: Tree, entries: seq<Entry>, backup: map<Path, File>) {
    forall e :: e in entries ==>
      && Acceptable(pre, e.name)
      && (e.existed <==> e.name in pre.files)
      && (e.existed ==> e.name in backup && File(backup[e.name].content, e.mode) == pre.files[e.name])
  }

  /* ---- What every step keeps ---- */

  /** `cur` is somewhere between `pre` and a version of `pre` with the files `names` changed. */
  ghost predicate Between(pre: Tree, names: set<Path>, cur: Tree) {
    && WellFormed(pre) && WellFormed(cur)
    && (forall n :: n in names ==> Acceptable(pre, n))
    && pre.dirs <= cur.dirs
    && (forall d :: d in cur.dirs ==> d in pre.dirs || exists n :: n in names && Above(d, n))
    && (forall p :: p !in names ==> (p in pre.files <==> p in cur.files))
    && (forall p :: p !in names && p in pre.files ==> cur.files[p] == pre.files[p])
  }

  ghost predicate Confined(pre: Tree, names: set<Path>, op: Op) {
    match op
    case Mkdir(d) => exists n :: n in names && Above(d, n)
    case Put(p, _) => p in names
    case Del(p) => p in names
    case Rmdir(d) => d !in pre.dirs
  }

  lemma ConfinedStep(pre: Tree, names: set<Path>, cur: Tree, op: Op)
    requires Between(pre, names, cur) && Confined(pre, names, op) && Enabled(cur, op)
    ensures Between(pre, names, Step(cur, op))
  {
  }

  lemma {:induction false} ConfinedRun(pre: Tree, names: set<Path>, cur: Tree, ops: seq<Op>)
    requires Between(pre, names, cur) && forall op :: op in ops ==> Confined(pre, names, op)
    ensures Between(pre, names, Run(cur, ops))
    decreases |ops|
  {
    if ops != [] && Enabled(cur, ops[0]) {
      ConfinedStep(pre, names, cur, ops[0]);
      ConfinedRun(pre, names, Step(cur, ops[0]), ops[1..]);
    }
  }

  lemma AtomicConfined(pre: Tree, names: set<Path>, p: Path, f: File)
    requires p in names
    ensures forall op :: op in AtomicOps(p, f) ==> Confined(pre, names, op)
  {
    MkdirsAbove(p, 0);
  }

  lemma {:induction false} ApplyConfined(pre: Tree, names: set<Path>, changes: seq<Change>)
    requires NamesOf(changes) <= names
    ensures forall op :: op in ApplyOps(changes) ==> Confined(pre, names, op)
  {
    if changes != [] {
      var c := changes[0];
      assert c.name in NamesOf(changes);
      if c.content.Some? {
        AtomicConfined(pre, names, c.name, File(c.content.value, c.mode));
      }
      ApplyConfined(pre, names, changes[1..]);
    }
  }

  lemma {:induction false} UndoConfined(pre: Tree, names: set<Path>, entries: seq<Entry>, backup: map<Path, File>)
    requires FaithfulEntries(pre, entries, backup) && EntryNames(entries) <= names
    ensures forall op :: op in UndoOps(entries, backup) ==> Confined(pre, names, op)
  {
    if entries != [] {
      var e := entries[|entries| - 1];
      assert e.name in EntryNames(entries);
      if e.existed {
        AtomicConfined(pre, names, e.name, File(backup[e.name].content, e.mode));
      }
      UndoConfined(pre, names, entries[..|entries| - 1], backup);
    }
  }

  lemma {:induction false} RmdirConfined(pre: Tree, names: set<Path>, ds: seq<Path>)
    requires forall d :: d in ds ==> d !in pre.dirs
    ensures forall op :: op in RmdirOps(ds) ==> Confined(pre, names, op)
  {
    if ds != [] {
      RmdirConfined(pre, names, ds[1..]);
    }
  }

  /* ---- Undoing reaches the starting tree ---- */

  ghost predicate Agree(pre: Tree, cur: Tree, names: set<Path>) {
    forall n :: n in names ==>
      (n in pre.files <==> n in cur.files) && (n in pre.files ==> cur.files[n] == pre.files[n])
  }

  /** Creating directories that are already there changes nothing. */
  lemma {:induction false} MkdirsIdle(t: Tree, p: Path, k: nat)
    requires WellFormed(t) && k <= |p| && forall i :: 0 <= i < |p| ==> p[..i] in t.dirs
    ensures Completes(t, Mkdirs(p, k)) && Run(t, Mkdirs(p, k)) == t
    decreases |p| - k
  {
    if |p| > k + 1 {
      assert Parent(p[..k + 1]) == p[..k];
      assert t.dirs + {p[..k + 1]} == t.dirs;
      MkdirsIdle(t, p, k + 1);
    }
  }

  lemma ExistingIsNoDir(pre: Tree, names: set<Path>, cur: Tree, p: Path)
    requires Between(pre, names, cur) && p in pre.files
    ensures p !in cur.dirs
  {
    forall n | n in names ensures !Above(p, n) {
      assert |p| < |n| ==> n[..|p|] !in pre.files;
    }
  }

  /** Outside `n` nothing differs between the two sets of files. */
  ghost predicate SameExcept(a: Tree, b: Tree, n: Path) {
    && a.dirs == b.dirs
    && forall p :: p != n ==> (p in a.files <==> p in b.files) && (p in a.files ==> b.files[p] == a.files[p])
  }

  lemma UndoOne(pre: Tree, names: set<Path>, cur: Tree, e: Entry, backup: map<Path, File>)
    requires Between(pre, names, cur) && FaithfulEntries(pre, [e], backup)
    ensures e in [e]
    ensures var ops := EntryOps(e, backup);
      && (Completes(cur, ops) <==> e.existed || (e.name !in cur.dirs && Resolves(cur, e.name)))
      && (Completes(cur, ops) ==>
            SameExcept(cur, Run(cur, ops), e.name) && Agree(pre, Run(cur, ops), {e.name}))
  {
    assert e in [e];
    if e.existed {
      forall i | 0 <= i < |e.name| ensures e.name[..i] in cur.dirs {
        AncestorsAreDirs(pre, e.name, i);
      }
      var put := [Put(e.name, File(backup[e.name].content, e.mode))];
      MkdirsIdle(cur, e.name, 0);
      RunAppend(cur, Mkdirs(e.name, 0), put);
      assert e.name[..|e.name| - 1] in cur.dirs;
      ExistingIsNoDir(pre, names, cur, e.name);
      assert put[1..] == [];
    } else {
      assert EntryOps(e, backup)[1..] == [];
    }
  }

  /**
   What a rollback needs of the tree it starts from: no added file has become a directory, and every file that
   stands in the way of a recorded path is itself removed before that path is looked up.
   */
  ghost predicate CanUndo(entries: seq<Entry>, cur: Tree) {
    && (forall j :: 0 <= j < |entries| && !entries[j].existed ==> entries[j].name !in cur.dirs)
    && (forall j, a :: 0 <= j < |entries| && a in cur.files && Above(a, entries[j].name) ==>
          exists k :: j < k < |entries| && entries[k].name == a)
  }

  lemma NothingAboveTargets(pre: Tree, name: Path, a: Path)
    requires Acceptable(pre, name) && Above(a, name)
    ensures a !in pre.files
  {
    assert name[..|a|] == a;
  }

  /** One entry less to undo. */
  lemma CanUndoStep(pre: Tree, names: set<Path>, cur: Tree, entries: seq<Entry>, backup: map<Path, File>)
    requires entries != [] && Between(pre, names, cur) && FaithfulEntries(pre, entries, backup)
    ensures var e, rest := entries[|entries| - 1], entries[..|entries| - 1];
      e in entries && (CanUndo(entries, cur) <==>
        Completes(cur, EntryOps(e, backup)) && CanUndo(rest, Run(cur, EntryOps(e, backup))))
  {
    var e, rest := entries[|entries| - 1], entries[..|entries| - 1];
    assert e in entries && forall x :: x in [e] ==> x in entries;
    UndoOne(pre, names, cur, e, backup);
    if Completes(cur, EntryOps(e, backup)) {
      var next := Run(cur, EntryOps(e, backup));
      if CanUndo(entries, cur) {
        StillCanUndo(pre, cur, entries, next);
      }
      if CanUndo(rest, next) {
        if e.existed {
          forall i | 0 <= i < |e.name| ensures e.name[..i] !in cur.files {
            AncestorsAreDirs(pre, e.name, i);
          }
        }
        CouldUndo(pre, cur, entries, next);
      }
    } else if CanUndo(entries, cur) {
      NoneInTheWay(entries, cur);
      assert false;
    }
  }

  /** The last entry is looked up first, so nothing may stand in its way. */
  lemma NoneInTheWay(entries: seq<Entry>, cur: Tree)
    requires entries != [] && CanUndo(entries, cur)
    ensures Resolves(cur, entries[|entries| - 1].name)
    ensures !entries[|entries| - 1].existed ==> entries[|entries| - 1].name !in cur.dirs
  {
    var n := entries[|entries| - 1].name;
    forall k | 0 <= k < |n| ensures n[..k] !in cur.files {
      assert Above(n[..k], n);
    }
  }

  lemma StillCanUndo(pre: Tree, cur: Tree, entries: seq<Entry>, next: Tree)
    requires entries != [] && CanUndo(entries, cur)
    requires forall i :: 0 <= i < |entries| ==> Acceptable(pre, entries[i].name)
    requires var e := entries[|entries| - 1]; SameExcept(cur, next, e.name) && Agree(pre, next, {e.name})
    ensures CanUndo(entries[..|entries| - 1], next)
  {
    var rest := entries[..|entries| - 1];
    forall j | 0 <= j < |rest| && !rest[j].existed ensures rest[j].name !in next.dirs {
      assert rest[j] == entries[j];
    }
    forall j, a | 0 <= j < |rest| && a in next.files && Above(a, rest[j].name)
      ensures exists k :: j < k < |rest| && rest[k].name == a
    {
      assert rest[j] == entries[j];
      NothingAboveTargets(pre, entries[j].name, a);
      var k := StillCleared(cur, entries, next, j, a);
      assert rest[k].name == a;
    }
  }

  lemma StillCleared(cur: Tree, entries: seq<Entry>, next: Tree, j: nat, a: Path) returns (k: nat)
    requires j < |entries| - 1 && CanUndo(entries, cur) && a in next.files && Above(a, entries[j].name)
    requires var e := entries[|entries| - 1]; a != e.name && (a in cur.files <==> a in next.files)
    ensures j < k < |entries| - 1 && entries[k].name == a
  {
    k :| j < k < |entries| && entries[k].name == a;
  }

  lemma CouldUndo(pre: Tree, cur: Tree, entries: seq<Entry>, next: Tree)
    requires entries != [] && CanUndo(entries[..|entries| - 1], next)
    requires var e := entries[|entries| - 1];
      SameExcept(cur, next, e.name) && Resolves(cur, e.name) && (!e.existed ==> e.name !in cur.dirs)
    ensures CanUndo(entries, cur)
  {
    var e, rest := entries[|entries| - 1], entries[..|entries| - 1];
    forall j | 0 <= j < |entries| && !entries[j].existed ensures entries[j].name !in cur.dirs {
      assert j < |rest| ==> rest[j] == entries[j];
    }
    forall j, a | 0 <= j < |entries| && a in cur.files && Above(a, entries[j].name)
      ensures exists k :: j < k < |entries| && entries[k].name == a
    {
      if a == e.name {
        assert entries[|entries| - 1].name == a && j != |entries| - 1;
      } else if j < |rest| {
        assert rest[j] == entries[j] && a in next.files;
        var k :| j < k < |rest| && rest[k].name == a;
        assert entries[k].name == a;
      }
    }
  }

  lemma EntryIsConfined(pre: Tree, names: set<Path>, cur: Tree, e: Entry, backup: map<Path, File>)
    requires Between(pre, names, cur) && FaithfulEntries(pre, [e], backup) && e.name in names
    ensures Between(pre, names, Run(cur, EntryOps(e, backup)))
  {
    UndoConfined(pre, names, [e], backup);
    assert UndoOps([e], backup) == EntryOps(e, backup) + UndoOps([], backup) == EntryOps(e, backup) by {
      assert [e][..0] == [];
    }
    ConfinedRun(pre, names, cur, EntryOps(e, backup));
  }

  /** Undoing puts every recorded file back, and is refused exactly when some target cannot be looked up or has become a directory. */
  lemma {:induction false} UndoRestoresFiles(pre: Tree, names: set<Path>, done: set<Path>, cur: Tree,
                                             entries: seq<Entry>, backup: map<Path, File>)
    requires Between(pre, names, cur) && Agree(pre, cur, done)
    requires FaithfulEntries(pre, entries, backup) && EntryNames(entries) <= names
    ensures Completes(cur, UndoOps(entries, backup)) ==>
      && Run(cur, UndoOps(entries, backup)).dirs == cur.dirs
      && Agree(pre, Run(cur, UndoOps(entries, backup)), done + EntryNames(entries))
    ensures Completes(cur, UndoOps(entries, backup)) <==> CanUndo(entries, cur)
    decreases |entries|
  {
    if entries != [] {
      var e, rest := entries[|entries| - 1], entries[..|entries| - 1];
      var ops := EntryOps(e, backup);
      assert entries == rest + [e] && e.name in EntryNames(entries);
      CanUndoStep(pre, names, cur, entries, backup);
      UndoOne(pre, names, cur, e, backup);
      if Completes(cur, ops) {
        RunAppend(cur, ops, UndoOps(rest, backup));
        EntryIsConfined(pre, names, cur, e, backup);
        UndoRestoresFiles(pre, names, done + {e.name}, Run(cur, ops), rest, backup);
        assert done + EntryNames(entries) == done + {e.name} + EntryNames(rest);
      } else {
        NeverCompletes(cur, ops, UndoOps(rest, backup));
      }
    }
  }

  lemma {:induction false} NeverCompletes(t: Tree, a: seq<Op>, b: seq<Op>)
    requires !Completes(t, a)
    ensures !Completes(t, a + b)
    decreases |a|
  {
    if Enabled(t, a[0]) {
      assert (a + b)[1..] == a[1..] + b;
      NeverCompletes(Step(t, a[0]), a[1..], b);
    }
  }

  /** Once the files are back, removing the new directories deepest first empties each before its turn. */
  lemma {:induction false} RmdirsRestoreDirs(pre: Tree, names: set<Path>, cur: Tree, ds: seq<Path>)
    requires Between(pre, names, cur) && cur.files == pre.files
    requires DeepestFirst(ds) && forall d :: d in ds ==> d !in pre.dirs && Resolves(pre, d)
    requires forall d :: d in cur.dirs && d !in pre.dirs ==> d in ds
    ensures Completes(cur, RmdirOps(ds)) && Run(cur, RmdirOps(ds)) == pre
    decreases |ds|
  {
    if ds == [] {
      assert cur.dirs == pre.dirs;
    } else {
      assert ds == [ds[0]] + ds[1..];
      assert !HasEntries(cur, ds[0]) by {
        forall p | p in cur.dirs && p != [] ensures Parent(p) != ds[0] {
          assert p in ds ==> |p| <= |ds[0]|;
        }
      }
      ConfinedStep(pre, names, cur, Rmdir(ds[0]));
      RmdirsRestoreDirs(pre, names, Step(cur, Rmdir(ds[0])), ds[1..]);
    }
  }

  lemma NoNestingKeepsTargetsFiles(pre: Tree, names: set<Path>, cur: Tree)
    requires Between(pre, names, cur) && NoNesting(names)
    ensures forall n :: n in names ==> n !in cur.dirs
  {
    forall n | n in names ensures n !in cur.dirs {
      assert Acceptable(pre, n);
    }
  }

  lemma MissingResolve(pre: Tree, names: set<Path>, d: Path)
    requires (forall n :: n in names ==> Acceptable(pre, n)) && d in MissingDirs(pre, names)
    ensures Resolves(pre, d) && d !in pre.dirs
  {
    var n, k :| n in names && 0 < k < |n| && n[..k] !in pre.dirs && d == n[..k];
    assert forall i :: 0 <= i < |d| ==> d[..i] == n[..i];
  }

  /** With all targets restored only created directories are left over. */
  lemma FilesAreBack(pre: Tree, names: set<Path>, mid: Tree)
    requires Between(pre, names, mid) && Agree(pre, mid, names)
    ensures mid.files == pre.files
    ensures forall d :: d in mid.dirs && d !in pre.dirs ==> d in MissingDirs(pre, names)
  {
    assert forall p :: p in names || p !in names ==> (p in mid.files <==> p in pre.files);
    forall d | d in mid.dirs && d !in pre.dirs ensures d in MissingDirs(pre, names) {
      var n :| n in names && Above(d, n);
      assert n[..|d|] == d;
    }
  }

  /**
   A rollback that runs to its end gives back exactly the starting tree, files, modes and directories alike, and
   it does so exactly from the trees described by `CanUndo`.
   */
  lemma RestoreIsExact(pre: Tree, names: set<Path>, cur: Tree,
                       entries: seq<Entry>, backup: map<Path, File>, created: seq<Path>)
    requires Between(pre, names, cur)
    requires FaithfulEntries(pre, entries, backup) && EntryNames(entries) == names
    requires forall d :: d in created <==> d in MissingDirs(pre, names)
    ensures Completes(cur, RestoreOps(entries, backup, created)) ==> Run(cur, RestoreOps(entries, backup, created)) == pre
    ensures Completes(cur, RestoreOps(entries, backup, created)) <==> CanUndo(entries, cur)
  {
    var undo, sorted := UndoOps(entries, backup), SortByDepth(created);
    UndoRestoresFiles(pre, names, {}, cur, entries, backup);
    if Completes(cur, undo) {
      var mid := Run(cur, undo);
      UndoConfined(pre, names, entries, backup);
      ConfinedRun(pre, names, cur, undo);
      FilesAreBack(pre, names, mid);
      forall d | d in sorted ensures d !in pre.dirs && Resolves(pre, d) {
        MissingResolve(pre, names, d);
      }
      RmdirsRestoreDirs(pre, names, mid, sorted);
      RunAppend(cur, undo, RmdirOps(sorted));
    } else {
      NeverCompletes(cur, undo, RmdirOps(sorted));
    }
  }

  /* ---- Applying reaches the new tree ---- */

  /** The files after all changes, in order: a later change to the same name wins. */
  function Outcome(files: map<Path, File>, changes: seq<Change>): map<Path, File>
    decreases |changes|
  {
    if changes == [] then files
    else
      var c := changes[0];
      Outcome(if c.content.None? then files - {c.name} else files[c.name := File(c.content.value, c.mode)], changes[1..])
  }

  /** Creating the ancestors of a path works as long as none of them is a file, and touches no file. */
  lemma {:induction false} MkdirsWork(t: Tree, p: Path, k: nat)
    requires k < |p| && p[..k] in t.dirs
    requires forall i :: 0 <= i < |p| ==> p[..i] !in t.files
    ensures Completes(t, Mkdirs(p, k))
    ensures Run(t, Mkdirs(p, k)).files == t.files
    ensures p[..|p| - 1] in Run(t, Mkdirs(p, k)).dirs
    decreases |p| - k
  {
    if |p| > k + 1 {
      assert Parent(p[..k + 1]) == p[..k];
      MkdirsWork(Step(t, Mkdir(p[..k + 1])), p, k + 1);
    }
  }

  /** Without nesting every change goes through, and the files end up as the changes say. */
  lemma {:induction false} ApplyReachesOutcome(pre: Tree, names: set<Path>, cur: Tree, changes: seq<Change>)
    requires Between(pre, names, cur) && NoNesting(names) && NamesOf(changes) <= names
    ensures Completes(cur, ApplyOps(changes))
    ensures Run(cur, ApplyOps(changes)).files == Outcome(cur.files, changes)
    decreases |changes|
  {
    if changes != [] {
      var c := changes[0];
      var ops := ChangeOps(c);
      assert c.name in NamesOf(changes);
      NoNestingKeepsTargetsFiles(pre, names, cur);
      forall i | 0 <= i < |c.name| ensures c.name[..i] !in cur.files {
        assert c.name[..i] !in pre.files && Above(c.name[..i], c.name);
      }
      if c.content.Some? {
        var put := [Put(c.name, File(c.content.value, c.mode))];
        assert c.name[..0] == [];
        MkdirsWork(cur, c.name, 0);
        AtomicConfined(pre, names, c.name, File(c.content.value, c.mode));
        ConfinedRun(pre, names, cur, Mkdirs(c.name, 0));
        NoNestingKeepsTargetsFiles(pre, names, Run(cur, Mkdirs(c.name, 0)));
        RunAppend(cur, Mkdirs(c.name, 0), put);
        assert put[1..] == [];
      } else {
        assert ops[1..] == [];
      }
      ApplyConfined(pre, names, [c]);
      assert ApplyOps([c]) == ops by { assert [c][1..] == []; assert ops + ApplyOps([]) == ops; }
      ConfinedRun(pre, names, cur, ops);
      ApplyReachesOutcome(pre, names, Run(cur, ops), changes[1..]);
      RunAppend(cur, ops, ApplyOps(changes[1..]));
    }
  }

  /* ---- Crashes ---- */

  /** Recovery attempts cut short after the given numbers of steps, then one that is not. */
  function AfterCrashes(t: Tree, ops: seq<Op>, cuts: seq<nat>): Tree
    decreases |cuts|
  {
    if cuts == [] then Run(t, ops)
    else AfterCrashes(Run(t, if cuts[0] < |ops| then ops[..cuts[0]] else ops), ops, cuts[1..])
  }

  lemma RestoreConfined(pre: Tree, names: set<Path>, entries: seq<Entry>, backup: map<Path, File>, created: seq<Path>)
    requires FaithfulEntries(pre, entries, backup) && EntryNames(entries) <= names
    requires forall d :: d in created ==> d !in pre.dirs
    ensures forall op :: op in RestoreOps(entries, backup, created) ==> Confined(pre, names, op)
  {
    UndoConfined(pre, names, entries, backup);
    RmdirConfined(pre, names, SortByDepth(created));
  }

  /** A step that only takes files and directories away, or puts an old one back. */
  ghost predicate Backward(pre: Tree, op: Op) {
    match op
    case Mkdir(d) => d in pre.dirs
    case Put(p, _) => p in pre.files
    case Del(_) => true
    case Rmdir(_) => true
  }

  lemma AtomicBackward(pre: Tree, p: Path, f: File)
    requires WellFormed(pre) && p in pre.files
    ensures forall op :: op in AtomicOps(p, f) ==> Backward(pre, op)
  {
    MkdirsAbove(p, 0);
    forall op | op in Mkdirs(p, 0) ensures op.dir in pre.dirs {
      AncestorsAreDirs(pre, p, |op.dir|);
    }
  }

  lemma {:induction false} UndoBackward(pre: Tree, entries: seq<Entry>, backup: map<Path, File>)
    requires WellFormed(pre) && FaithfulEntries(pre, entries, backup)
    ensures forall op :: op in UndoOps(entries, backup) ==> Backward(pre, op)
  {
    if entries != [] {
      var e := entries[|entries| - 1];
      if e.existed {
        AtomicBackward(pre, e.name, File(backup[e.name].content, e.mode));
      }
      UndoBackward(pre, entries[..|entries| - 1], backup);
    }
  }

  lemma {:induction false} RmdirBackward(pre: Tree, ds: seq<Path>)
    ensures forall op :: op in RmdirOps(ds) ==> Backward(pre, op)
  {
    if ds != [] {
      RmdirBackward(pre, ds[1..]);
    }
  }

  /** An interrupted rollback can be taken up again. */
  lemma {:induction false} BackwardKeepsCanUndo(pre: Tree, entries: seq<Entry>, cur: Tree, ops: seq<Op>)
    requires CanUndo(entries, cur) && pre.dirs <= cur.dirs
    requires forall i :: 0 <= i < |entries| ==> Acceptable(pre, entries[i].name)
    requires forall op :: op in ops ==> Backward(pre, op) && (op.Rmdir? ==> op.dir !in pre.dirs)
    ensures CanUndo(entries, Run(cur, ops))
    decreases |ops|
  {
    if ops != [] && Enabled(cur, ops[0]) {
      assert ops[0] in ops;
      var next := Step(cur, ops[0]);
      forall j, a | 0 <= j < |entries| && a in next.files && Above(a, entries[j].name)
        ensures exists k :: j < k < |entries| && entries[k].name == a
      {
        NothingAboveTargets(pre, entries[j].name, a);
        assert a in cur.files;
      }
      BackwardKeepsCanUndo(pre, entries, next, ops[1..]);
    }
  }

  lemma {:induction false} RecoveriesAreExact(pre: Tree, names: set<Path>, cur: Tree, entries: seq<Entry>,
                                              backup: map<Path, File>, created: seq<Path>, cuts: seq<nat>)
    requires Between(pre, names, cur) && CanUndo(entries, cur)
    requires FaithfulEntries(pre, entries, backup) && EntryNames(entries) == names
    requires forall d :: d in created <==> d in MissingDirs(pre, names)
    ensures AfterCrashes(cur, RestoreOps(entries, backup, created), cuts) == pre
    decreases |cuts|
  {
    var ops := RestoreOps(entries, backup, created);
    if cuts == [] {
      RestoreIsExact(pre, names, cur, entries, backup, created);
    } else {
      var part := if cuts[0] < |ops| then ops[..cuts[0]] else ops;
      RestoreConfined(pre, names, entries, backup, created);
      ConfinedRun(pre, names, cur, part);
      UndoBackward(pre, entries, backup);
      RmdirBackward(pre, SortByDepth(created));
      forall i | 0 <= i < |entries| ensures Acceptable(pre, entries[i].name) {
        assert entries[i] in entries;
      }
      BackwardKeepsCanUndo(pre, entries, cur, part);
      RecoveriesAreExact(pre, names, Run(cur, part), entries, backup, created, cuts[1..]);
    }
  }
}
