/** What the exclusion patterns mean for a file: which pattern keeps it out of a copy, and what happens without one. */
module PatternLaws {
  import opened Options
  import opened Trees
  import opened SourceSync
  import opened SyncLaws
  import opened Rollbacks
  import opened RollbackLaws

  /** A pattern that names this very path, or, if it has one component only, any file of that name. */
  ghost predicate NamedByFilePattern(x: Rules, rel: Path) {
    rel != [] && exists f :: f in x.files && (f == rel || (|f| == 1 && f[0] == rel[|rel| - 1]))
  }

  /** A directory pattern of one component that occurs anywhere in the path, or one that the path starts with. */
  ghost predicate NamedByDirPattern(x: Rules, rel: Path) {
    || (exists i :: 0 <= i < |rel| && [rel[i]] in x.dirs)
    || (exists k :: 2 <= k <= |rel| && rel[..k] in x.dirs)
  }

  ghost predicate Named(x: Rules, rel: Path) {
    NamedByFilePattern(x, rel) || NamedByDirPattern(x, rel)
  }

  /** A path or a directory on the way to it is named. */
  ghost predicate NamedOnTheWay(x: Rules, rel: Path) {
    exists k :: 0 < k <= |rel| && Named(x, rel[..k])
  }

  /** The test of both walks is that a pattern names the path. */
  lemma ExcludedIffNamed(x: Rules, rel: Path)
    ensures IsExcluded(x, rel) <==> Named(x, rel)
  {
    if NamedByFilePattern(x, rel) {
      var f :| f in x.files && (f == rel || (|f| == 1 && f[0] == rel[|rel| - 1]));
      assert |f| == 1 ==> f == [f[0]];
      assert FileMatch(x, rel);
    }
    if DirMatch(x, rel) {
      var d :| d in x.dirs && ((|d| == 1 && d[0] in rel) || (|d| > 1 && d <= rel));
      if |d| == 1 {
        var i :| 0 <= i < |rel| && rel[i] == d[0];
        assert d == [rel[i]];
      } else {
        assert d == rel[..|d|];
      }
    }
    if NamedByDirPattern(x, rel) {
      DirPatternMatches(x, rel);
    }
  }

  lemma DirPatternMatches(x: Rules, rel: Path)
    requires NamedByDirPattern(x, rel)
    ensures DirMatch(x, rel)
  {
    if i :| 0 <= i < |rel| && [rel[i]] in x.dirs {
      var d := [rel[i]];
      assert d in x.dirs && |d| == 1 && d[0] in rel;
    } else {
      var k :| 2 <= k <= |rel| && rel[..k] in x.dirs;
      assert rel[..k] <= rel;
    }
  }

  lemma CopyExcludedIffNamed(x: Rules, rel: Path)
    ensures CopyExcluded(x, rel) <==> NamedOnTheWay(x, rel)
  {
    forall k | 0 < k <= |rel| ensures IsExcluded(x, rel[..k]) <==> Named(x, rel[..k]) {
      ExcludedIffNamed(x, rel[..k]);
    }
  }

  /** A pattern names the file or the directory it is in. */
  ghost predicate NamedNearby(x: Rules, rel: Path) {
    rel != [] && (Named(x, rel) || (|rel| > 1 && Named(x, rel[..|rel| - 1])))
  }

  lemma DeleteExcludedIffNamed(x: Rules, rel: Path)
    ensures DeleteExcluded(x, rel) <==> NamedNearby(x, rel)
  {
    ExcludedIffNamed(x, rel);
    if |rel| > 1 {
      ExcludedIffNamed(x, Parent(rel));
    }
  }

  function FileAt(t: Tree, p: Path): Option<File> {
    if p in t.files then Some(t.files[p]) else None
  }

  /** The source's file, or the target's own if it has the same content already. */
  function Taken(mine: Option<File>, theirs: File): File {
    if mine.Some? && mine.value.content == theirs.content then mine.value else theirs
  }

  /**
   A synchronisation leaves alone what a pattern names, and copies and deletes what none names.  In between, beneath a
   directory that is named two levels up or more, nothing is copied, but with `delete` what the source lacks is deleted.
   */
  lemma SyncByPatterns(source: Tree, at: Path, x: Rules, delete: bool, t: Tree, p: Path)
    requires WellFormed(source) && WellFormed(t) && at in source.dirs && NoClash(source, at, x, t)
    ensures var mine, theirs, after := FileAt(t, p), FileAt(source, p), FileAt(Synced(source, at, x, delete, t), p);
      var rel := if at < p then p[|at|..] else [];
      after ==
        if !(at < p) || NamedNearby(x, rel) then mine
        else if NamedOnTheWay(x, rel) then (if delete && !Exists(source, p) then None else mine)
        else if theirs.Some? then Some(Taken(mine, theirs.value))
        else if delete then None else mine
  {
    if at < p {
      CopyExcludedIffNamed(x, p[|at|..]);
      DeleteExcludedIffNamed(x, p[|at|..]);
    }
    SyncedFiles(source, at, x, t, p);
    if at < p && DeleteExcluded(x, p[|at|..]) {
      SparedIsExcluded(x, p[|at|..]);
    }
    if !delete {
      CopiedFile(source, at, x, t, p);
    }
  }

  /** Something at or beneath `d` is named by a pattern, a file also through the directory it is in. */
  ghost predicate NamedBeneath(t: Tree, at: Path, x: Rules, d: Path) {
    exists p :: at < p && d <= p && ((p in t.dirs && Named(x, p[|at|..])) || (p in t.files && NamedNearby(x, p[|at|..])))
  }

  lemma SparedIffNamed(t: Tree, at: Path, x: Rules, d: Path)
    ensures Spared(t, at, x, d) <==> NamedBeneath(t, at, x, d)
  {
    forall p | at < p
      ensures IsExcluded(x, p[|at|..]) <==> Named(x, p[|at|..])
      ensures DeleteExcluded(x, p[|at|..]) <==> NamedNearby(x, p[|at|..])
    {
      ExcludedIffNamed(x, p[|at|..]);
      DeleteExcludedIffNamed(x, p[|at|..]);
    }
    if Spared(t, at, x, d) {
      var p :| at < p && d <= p && ((p in t.dirs && IsExcluded(x, p[|at|..])) || (p in t.files && DeleteExcluded(x, p[|at|..])));
      assert (p in t.dirs && Named(x, p[|at|..])) || (p in t.files && NamedNearby(x, p[|at|..]));
    }
    if NamedBeneath(t, at, x, d) {
      var p :| at < p && d <= p && ((p in t.dirs && Named(x, p[|at|..])) || (p in t.files && NamedNearby(x, p[|at|..])));
      assert (p in t.dirs && IsExcluded(x, p[|at|..])) || (p in t.files && DeleteExcluded(x, p[|at|..]));
    }
  }

  /**
   A synchronisation with deletion makes the directories that no pattern names on the way, and keeps of its own those
   that the source has too and those in which something is named.
   */
  lemma SyncDirsByPatterns(source: Tree, at: Path, x: Rules, t: Tree, d: Path)
    requires WellFormed(source) && WellFormed(t) && at in source.dirs && NoClash(source, at, x, t)
    ensures var r := Synced(source, at, x, true, t);
      if !(at < d) then d in r.dirs <==> d in t.dirs || d <= at
      else d in r.dirs <==>
        || (d in source.dirs && !NamedOnTheWay(x, d[|at|..]))
        || (d in t.dirs && (Exists(source, d) || NamedBeneath(t, at, x, d)))
  {
    SyncedDirs(source, at, x, t, d);
    SparedIffNamed(t, at, x, d);
    if at < d {
      CopyExcludedIffNamed(x, d[|at|..]);
    } else if d <= at {
      assert at[..|d|] == d;
    }
  }

  lemma CopiedFile(source: Tree, at: Path, x: Rules, t: Tree, p: Path)
    requires WellFormed(source) && WellFormed(t) && at in source.dirs
    ensures FileAt(Copied(source, at, x, t), p) ==
      if Copies(source, at, x, p) then Some(Incoming(source, t, p)) else FileAt(t, p)
  {
    if Copies(source, at, x, p) {
      ParentVisited(source, at, x, p);
    }
  }

  /** A backup holds exactly the files and directories that no pattern names, nor any directory on the way. */
  lemma SnapshotByPatterns(x: Rules, t: Tree, p: Path)
    requires WellFormed(t)
    ensures FileAt(Snapshot(x, t), p) == if NamedOnTheWay(x, p) then None else FileAt(t, p)
    ensures p in Snapshot(x, t).dirs <==> p in t.dirs && !NamedOnTheWay(x, p)
  {
    SnapshotFiles(x, t);
    CopyExcludedIffNamed(x, p);
  }

  /** Files that a pattern lists by their path, or by their name, stay out of every backup. */
  lemma ListedFilesStayOut(x: Rules, t: Tree, p: Path)
    requires WellFormed(t) && p != [] && (p in x.files || [p[|p| - 1]] in x.files)
    ensures p !in Snapshot(x, t).files
  {
    SnapshotByPatterns(x, t, p);
    assert p[..|p|] == p;
    var f := if p in x.files then p else [p[|p| - 1]];
    assert f in x.files && (f == p || (|f| == 1 && f[0] == p[|p| - 1]));
    assert NamedByFilePattern(x, p[..|p|]);
  }

  /** What a rollback removes of the files that the backup lacks. */
  ghost predicate RollbackRemoves(before: Tree, x: Rules, rootFiles: seq<string>, managed: seq<string>, p: Path) {
    || (|p| == 1 && p[0] in rootFiles)
    || (|p| > 1 && p[0] in managed && [p[0]] in before.dirs && !Named(x, [p[0]]) && !NamedNearby(x, p[1..]))
  }

  /**
   A rollback over whatever was written: a file that no pattern names on its way is as before, unless only its mode had
   changed; of the others exactly the root files on the list and the files in managed directories are removed, as far
   as no pattern names them seen from that directory.
   */
  lemma RollbackByPatterns(before: Tree, written: Tree, x: Rules, rootFiles: seq<string>, managed: seq<string>, p: Path)
    requires WellFormed(before) && WellFormed(written)
    requires NoClash(Snapshot(x, before), [], x, written)
    ensures FileAt(Restored(Snapshot(x, before), x, rootFiles, managed, written), p) ==
      if p in before.files && !NamedOnTheWay(x, p) then Some(Taken(FileAt(written, p), before.files[p]))
      else if RollbackRemoves(before, x, rootFiles, managed, p) then None else FileAt(written, p)
  {
    RollbackRestores(before, written, x, rootFiles, managed, p);
    CopyExcludedIffNamed(x, p);
    if |p| > 1 {
      ExcludedIffNamed(x, [p[0]]);
      DeleteExcludedIffNamed(x, p[1..]);
    }
  }

  const OWN_DIRECTORIES: set<string> := {"users", "runtime", "tmp", ".git", ".venv", "venv", ".backups"}

  lemma OwnDirectoriesAreListed(name: string)
    requires name in OWN_DIRECTORIES
    ensures [name] in BACKUP_EXCLUDES.dirs && name !in ROLLBACK_MANAGED_PATHS
  {
  }

  /** With the shipped patterns the user data and the tool's own directories are neither backed up nor rolled back. */
  lemma OwnDirectoriesAreUntouched(before: Tree, written: Tree, p: Path)
    requires WellFormed(before) && WellFormed(written) && |p| > 1 && p[0] in OWN_DIRECTORIES
    requires NoClash(Snapshot(BACKUP_EXCLUDES, before), [], BACKUP_EXCLUDES, written)
    ensures p !in Snapshot(BACKUP_EXCLUDES, before).files
    ensures FileAt(Restored(Snapshot(BACKUP_EXCLUDES, before), BACKUP_EXCLUDES, ROLLBACK_MANAGED_FILES,
                            ROLLBACK_MANAGED_PATHS, written), p) == FileAt(written, p)
  {
    var x := BACKUP_EXCLUDES;
    OwnDirectoriesAreListed(p[0]);
    DirectoryKeepsOut(x, p);
    SnapshotByPatterns(x, before, p);
    RollbackByPatterns(before, written, x, ROLLBACK_MANAGED_FILES, ROLLBACK_MANAGED_PATHS, p);
  }

  lemma DirectoryKeepsOut(x: Rules, p: Path)
    requires p != [] && [p[0]] in x.dirs
    ensures NamedOnTheWay(x, p)
  {
    assert [p[..1][0]] in x.dirs && p[..1][0] == p[0];
    assert NamedByDirPattern(x, p[..1]);
  }
}
