/** What a rollback brings back, what it removes, and which runtime-owned files it removes as well. */
module RollbackLaws {
  import opened Trees
  import opened SourceSync
  import opened SyncLaws
  import opened Rollbacks

  /** Removed while mirroring one of the managed directories: the patterns see only the path inside it. */
  predicate Swept(snapshot: Tree, x: Rules, managed: seq<string>, p: Path) {
    && |p| > 1 && p[0] in managed && [p[0]] in snapshot.dirs
    && !DeleteExcluded(x, p[1..]) && p !in snapshot.files && p !in snapshot.dirs
  }

  lemma SweptHere(snapshot: Tree, x: Rules, name: string, p: Path)
    requires [name] in snapshot.dirs
    ensures Doomed(snapshot, [name], x, p) <==> Swept(snapshot, x, [name], p)
  {
    if |p| > 1 {
      assert p[..1] == [p[0]];
    }
    assert [name] < p <==> |p| > 1 && p[0] == name;
  }

  /** Mirroring all managed directories removes exactly the swept files and touches nothing else. */
  lemma {:induction false} MirroredFiles(snapshot: Tree, x: Rules, managed: seq<string>, t: Tree)
    requires WellFormed(snapshot) && WellFormed(t) && Contains(snapshot, t)
    ensures var r := Mirrored(snapshot, x, managed, t);
      && Contains(snapshot, r)
      && forall p :: (p in r.files <==> p in t.files && !Swept(snapshot, x, managed, p)) && (p in r.files ==> r.files[p] == t.files[p])
    decreases |managed|
  {
    if managed != [] {
      var m := [managed[0]];
      var next := if m in snapshot.dirs && m in t.dirs then Synced(snapshot, m, x, true, t) else t;
      if m in snapshot.dirs {
        MirrorOne(snapshot, m, x, t);
        SyncedWellFormed(snapshot, m, x, t);
      }
      MirroredFiles(snapshot, x, managed[1..], next);
      forall p ensures Swept(snapshot, x, managed, p) <==>
          (m in snapshot.dirs && Doomed(snapshot, m, x, p)) || Swept(snapshot, x, managed[1..], p)
      {
        if m in snapshot.dirs {
          SweptHere(snapshot, x, managed[0], p);
        }
      }
    }
  }

  lemma SyncedWellFormed(source: Tree, at: Path, x: Rules, t: Tree)
    requires WellFormed(source) && WellFormed(t) && at in source.dirs && NoClash(source, at, x, t)
    ensures WellFormed(Synced(source, at, x, true, t))
  {
    CopiedWellFormed(source, at, x, t);
    PrunedWellFormed(source, at, x, Copied(source, at, x, t));
  }

  lemma PrunedWellFormed(source: Tree, at: Path, x: Rules, t: Tree)
    requires WellFormed(t)
    ensures WellFormed(Pruned(source, at, x, t))
  {
    var r := Pruned(source, at, x, t);
    forall d | d in r.dirs && d != [] ensures Parent(d) in r.dirs {
      assert Parent(d) <= d;
      if DirGone(source, at, x, t, Parent(d)) {
        GoneInherits(source, at, x, t, Parent(d), d);
      }
    }
    forall p | p in r.files ensures Parent(p) in r.dirs {
      assert Parent(p) <= p;
    }
  }

  /** Removed by the rollback, in terms of the tree `before` the update. */
  predicate Removed(before: Tree, x: Rules, rootFiles: seq<string>, managed: seq<string>, p: Path) {
    || (|p| == 1 && p[0] in rootFiles)
    || (|p| > 1 && p[0] in managed && [p[0]] in before.dirs && !IsExcluded(x, [p[0]]) && !DeleteExcluded(x, p[1..]))
  }

  lemma FirstComponent(x: Rules, name: string)
    ensures CopyExcluded(x, [name]) <==> IsExcluded(x, [name])
  {
    assert [name][..1] == [name];
  }

  /**
   Rollback inverts whatever was written: every file that is not excluded has its old content again (and its old
   mode, unless only the mode had changed), and of the others exactly those are left that are not removed.
   */
  lemma RollbackRestores(before: Tree, written: Tree, x: Rules, rootFiles: seq<string>, managed: seq<string>, p: Path)
    requires WellFormed(before) && WellFormed(written)
    requires NoClash(Snapshot(x, before), [], x, written)
    ensures var after := Restored(Snapshot(x, before), x, rootFiles, managed, written);
      if p in before.files && !CopyExcluded(x, p) then
        p in after.files && after.files[p] == Incoming(before, written, p) && after.files[p].content == before.files[p].content
      else
        && (p in after.files <==> p in written.files && !Removed(before, x, rootFiles, managed, p))
        && (p in after.files ==> after.files[p] == written.files[p])
  {
    var s := Snapshot(x, before);
    SnapshotFiles(x, before);
    CopyContains(s, x, written);
    var c := Copied(s, [], x, written);
    var w := WithoutNew(s, rootFiles, c);
    WithoutNewContains(s, rootFiles, c);
    MirroredFiles(s, x, managed, w);
    if p in written.files && p !in s.files {
      NoDirectoryThere(s, x, written, p);
      if |p| > 1 {
        FirstComponent(x, p[0]);
      }
    }
  }

  lemma NoDirectoryThere(snapshot: Tree, x: Rules, written: Tree, p: Path)
    requires Complete(x, snapshot) && NoClash(snapshot, [], x, written) && p in written.files
    ensures p !in snapshot.dirs
  {
    assert p[0..] == p;
    if p in snapshot.dirs {
      assert Visits(snapshot, [], x, p);
    }
  }

  /** Removed while mirroring: a directory of a managed tree that the snapshot lacks and in which nothing is spared. */
  ghost predicate SweptDir(snapshot: Tree, x: Rules, managed: seq<string>, t: Tree, d: Path) {
    && |d| > 1 && d[0] in managed && [d[0]] in snapshot.dirs && !Exists(snapshot, d) && !Spared(t, [d[0]], x, d)
  }

  /** Mirroring one directory does not change what is spared anywhere. */
  lemma SparedStable(snapshot: Tree, name: string, x: Rules, t: Tree, k: string, d: Path)
    requires WellFormed(snapshot) && WellFormed(t) && Contains(snapshot, t) && [name] in snapshot.dirs
    ensures Spared(Synced(snapshot, [name], x, true, t), [k], x, d) <==> Spared(t, [k], x, d)
  {
    MirrorOne(snapshot, [name], x, t);
    var next := Pruned(snapshot, [name], x, t);
    if Spared(t, [k], x, d) {
      var p :| [k] < p && d <= p && ((p in t.dirs && IsExcluded(x, p[1..])) || (p in t.files && DeleteExcluded(x, p[1..])));
      assert p in t.dirs && IsExcluded(x, p[1..]) ==> !Removable(snapshot, [name], x, p) by {
        assert [name] < p ==> name == p[0] == k;
      }
      assert p in t.files && DeleteExcluded(x, p[1..]) ==> !Doomed(snapshot, [name], x, p) by {
        assert [name] < p ==> name == p[0] == k;
      }
    }
  }

  /** Which directories one mirroring removes. */
  lemma MirrorOneDir(snapshot: Tree, name: string, x: Rules, t: Tree, d: Path)
    requires WellFormed(snapshot) && WellFormed(t) && Contains(snapshot, t) && [name] in snapshot.dirs
    ensures d in Synced(snapshot, [name], x, true, t).dirs <==> d in t.dirs && !SweptDir(snapshot, x, [name], t, d)
  {
    MirrorOne(snapshot, [name], x, t);
    SyncedDirs(snapshot, [name], x, t, d);
    PrefixesAreDirs(t, [name]);
    assert [name] < d <==> |d| > 1 && d[0] == name;
  }

  lemma {:induction false} MirroredDirs(snapshot: Tree, x: Rules, managed: seq<string>, t: Tree, d: Path)
    requires WellFormed(snapshot) && WellFormed(t) && Contains(snapshot, t)
    ensures d in Mirrored(snapshot, x, managed, t).dirs <==> d in t.dirs && !SweptDir(snapshot, x, managed, t, d)
    decreases |managed|
  {
    if managed != [] {
      var m := [managed[0]];
      var next := if m in snapshot.dirs && m in t.dirs then Synced(snapshot, m, x, true, t) else t;
      if m in snapshot.dirs {
        MirrorOne(snapshot, m, x, t);
        MirrorOneDir(snapshot, managed[0], x, t, d);
        SyncedWellFormed(snapshot, m, x, t);
        if d != [] {
          SparedStable(snapshot, managed[0], x, t, d[0], d);
        }
      }
      MirroredDirs(snapshot, x, managed[1..], next, d);
      assert managed == [managed[0]] + managed[1..];
    }
  }

  /** Removed by the rollback, in terms of the trees before and after the update. */
  ghost predicate RemovedDir(before: Tree, written: Tree, x: Rules, managed: seq<string>, d: Path) {
    && |d| > 1 && d[0] in managed && [d[0]] in before.dirs && !IsExcluded(x, [d[0]]) && !Spared(written, [d[0]], x, d)
  }

  /**
   Every directory that is not excluded is there again, and of the others exactly those are left that are not beneath a
   managed directory or hold something spared.
   */
  lemma RollbackRestoresDirs(before: Tree, written: Tree, x: Rules, rootFiles: seq<string>, managed: seq<string>, d: Path)
    requires WellFormed(before) && WellFormed(written)
    requires NoClash(Snapshot(x, before), [], x, written)
    ensures var after := Restored(Snapshot(x, before), x, rootFiles, managed, written);
      if d in before.dirs && !CopyExcluded(x, d) then d in after.dirs
      else d in after.dirs <==> d in written.dirs && !RemovedDir(before, written, x, managed, d)
  {
    var s := Snapshot(x, before);
    SnapshotFiles(x, before);
    CopyContains(s, x, written);
    var w := WithoutNew(s, rootFiles, Copied(s, [], x, written));
    WithoutNewContains(s, rootFiles, Copied(s, [], x, written));
    WithoutNewWellFormed(s, rootFiles, Copied(s, [], x, written));
    MirroredDirs(s, x, managed, w, d);
    CopiedDirs(s, x, written);
    if |d| > 1 && d !in s.dirs {
      FirstComponent(x, d[0]);
      if d in written.dirs {
        SparedAfterCopy(before, x, rootFiles, written, d);
      }
    }
  }

  lemma WithoutNewWellFormed(snapshot: Tree, names: seq<string>, t: Tree)
    requires WellFormed(t)
    ensures WellFormed(WithoutNew(snapshot, names, t))
  {
  }

  lemma CopiedDirs(snapshot: Tree, x: Rules, t: Tree)
    requires WellFormed(t) && Complete(x, snapshot)
    ensures forall d :: d in Copied(snapshot, [], x, t).dirs <==> d in t.dirs || d in snapshot.dirs
  {
    assert forall d: Path :: d[0..] == d;
    forall d | d in snapshot.dirs ensures Visits(snapshot, [], x, d) {
    }
    assert forall d :: d in Prefixes([]) ==> d == [] && d in t.dirs;
  }

  /** Copying the snapshot back spares nothing beneath a directory that the snapshot lacks. */
  lemma SparedAfterCopy(before: Tree, x: Rules, rootFiles: seq<string>, written: Tree, d: Path)
    requires WellFormed(before) && WellFormed(written) && NoClash(Snapshot(x, before), [], x, written)
    requires |d| > 1 && d in written.dirs && d !in Snapshot(x, before).dirs
    ensures var s := Snapshot(x, before);
      !Exists(s, d) &&
      (Spared(WithoutNew(s, rootFiles, Copied(s, [], x, written)), [d[0]], x, d) <==> Spared(written, [d[0]], x, d))
  {
    var s := Snapshot(x, before);
    SnapshotFiles(x, before);
    CopyContains(s, x, written);
    CopiedDirs(s, x, written);
    var c := Copied(s, [], x, written);
    assert d[0..] == d && (d in s.files ==> Copies(s, [], x, d));
    forall p | d <= p ensures (p in WithoutNew(s, rootFiles, c).files <==> p in written.files) && (p in c.dirs <==> p in written.dirs) {
      assert d < p || d == p;
      if Exists(s, p) && d < p {
        BeneathSource(s, d, p);
      }
    }
  }

  /** A path owned by the running deployment survives a rollback exactly when `Removed` does not reach it. */
  lemma RuntimeFileSurvivesIff(before: Tree, x: Rules, rootFiles: seq<string>, managed: seq<string>, written: Tree, p: Path)
    requires WellFormed(before) && WellFormed(written) && NoClash(Snapshot(x, before), [], x, written)
    requires p in written.files && CopyExcluded(x, p)
    ensures p in Restored(Snapshot(x, before), x, rootFiles, managed, written).files
       <==> !Removed(before, x, rootFiles, managed, p)
  {
    RollbackRestores(before, written, x, rootFiles, managed, p);
  }

  /** A pattern of one component protects at every depth: such a file survives under every managed directory. */
  lemma PlainNamesSurvive(before: Tree, x: Rules, managed: seq<string>, p: Path)
    requires |p| > 1 && (([p[|p| - 1]] in x.files) || exists i :: 0 < i < |p| && [p[i]] in x.dirs)
    ensures !Removed(before, x, [], managed, p)
  {
    var rel := p[1..];
    if [p[|p| - 1]] !in x.files {
      var i :| 0 < i < |p| && [p[i]] in x.dirs;
      assert rel[i - 1] == p[i];
      assert [p[i]][0] in rel;
      assert DirMatch(x, rel);
    } else {
      assert rel[|rel| - 1] == p[|p| - 1];
    }
  }

  lemma PlainDirectories(d: Path)
    requires d in BACKUP_EXCLUDES.dirs && |d| == 1
    ensures d[0] != "" && d[0][0] in ".urstv_"
  {
  }

  lemma PlainFiles(f: Path)
    requires f in BACKUP_EXCLUDES.files && |f| == 1
    ensures f[0] != "" && f[0][0] == '.'
  {
  }

  lemma LongDirectories(d: Path)
    requires d in BACKUP_EXCLUDES.dirs && |d| > 1
    ensures d[0] != "out"
  {
  }

  lemma LongFiles(f: Path)
    requires f in BACKUP_EXCLUDES.files && |f| > 1
    ensures f[0] != "out"
  {
  }

  /** The patterns name `message/out` and nothing else on the way to a file in it. */
  ghost predicate ListsOutgoing(x: Rules) {
    && ["message", "out"] in x.dirs
    && (forall d :: d in x.dirs && |d| == 1 ==> d[0] != "" && d[0][0] in ".urstv_")
    && (forall f :: f in x.files && |f| == 1 ==> f[0] != "" && f[0][0] == '.')
    && (forall d :: d in x.dirs && |d| > 1 ==> d[0] != "out")
    && (forall f :: f in x.files && |f| > 1 ==> f[0] != "out")
  }

  lemma NotMentioned(x: Rules, rel: Path)
    requires ListsOutgoing(x) && (rel == ["message"] || rel == ["out"] || rel == ["out", "a"])
    ensures !IsExcluded(x, rel)
  {
    assert forall i :: 0 <= i < |rel| ==> rel[i] != "" && rel[i][0] !in ".urstv_";
    forall d | d in x.dirs ensures !(|d| == 1 && d[0] in rel) && !(|d| > 1 && d <= rel) {
    }
    assert rel !in x.files;
    var name := [rel[|rel| - 1]];
    assert name[0] == rel[|rel| - 1];
    assert name !in x.files;
  }

  /** A pattern of several components does not: mail waiting in `message/out` is lost by a rollback that changed nothing. */
  lemma OutgoingIsLost(x: Rules, rootFiles: seq<string>, managed: seq<string>)
    requires ListsOutgoing(x) && "message" in managed
    ensures MailIsLost(x, rootFiles, managed)
  {
    var p := ["message", "out", "a"];
    var t := MailTree();
    assert Parent(["message"]) == [] && Parent(["message", "out"]) == ["message"] && Parent(p) == ["message", "out"];
    assert p[..2] == ["message", "out"];
    assert DirMatch(x, p[..2]);
    NotMentioned(x, ["message"]);
    NotMentioned(x, ["out"]);
    NotMentioned(x, ["out", "a"]);
    assert p[1..] == ["out", "a"] && Parent(["out", "a"]) == ["out"];
    assert Removed(t, x, rootFiles, managed, p);
    SameTreeNeverClashes(t, x);
    RuntimeFileSurvivesIff(t, x, rootFiles, managed, t, p);
  }

  function MailTree(): Tree {
    Tree(map[["message", "out", "a"] := File("mail", 0)], {[], ["message"], ["message", "out"]})
  }

  /** A file in `message/out` is excluded from backups, and a rollback over the unchanged tree removes it. */
  ghost predicate MailIsLost(x: Rules, rootFiles: seq<string>, managed: seq<string>) {
    var p, t := ["message", "out", "a"], MailTree();
    && WellFormed(t) && p in t.files && CopyExcluded(x, p)
    && p !in Restored(Snapshot(x, t), x, rootFiles, managed, t).files
  }

  lemma OutgoingMailIsLost()
    ensures MailIsLost(BACKUP_EXCLUDES, ROLLBACK_MANAGED_FILES, ROLLBACK_MANAGED_PATHS)
  {
    var x, rootFiles, managed := BACKUP_EXCLUDES, ROLLBACK_MANAGED_FILES, ROLLBACK_MANAGED_PATHS;
    ShippedListsOutgoing();
    ShippedManagesMessage();
    OutgoingIsLost(x, rootFiles, managed);
  }

  lemma ShippedManagesMessage()
    ensures "message" in ROLLBACK_MANAGED_PATHS
  {
    assert ROLLBACK_MANAGED_PATHS[6] == "message";
  }

  lemma ShippedListsOutgoing()
    ensures ListsOutgoing(BACKUP_EXCLUDES)
  {
    forall d | d in BACKUP_EXCLUDES.dirs && |d| == 1 ensures d[0] != "" && d[0][0] in ".urstv_" {
      PlainDirectories(d);
    }
    forall f | f in BACKUP_EXCLUDES.files && |f| == 1 ensures f[0] != "" && f[0][0] == '.' {
      PlainFiles(f);
    }
    forall d | d in BACKUP_EXCLUDES.dirs && |d| > 1 ensures d[0] != "out" {
      LongDirectories(d);
    }
    forall f | f in BACKUP_EXCLUDES.files && |f| > 1 ensures f[0] != "out" {
      LongFiles(f);
    }
  }

  /** A snapshot can always be copied back over the tree it was taken from. */
  lemma SameTreeNeverClashes(t: Tree, x: Rules)
    requires WellFormed(t)
    ensures NoClash(Snapshot(x, t), [], x, t)
  {
    SnapshotFiles(x, t);
  }
}
