/** Backup of the source tree before an update, and its restoration after a failed one. */
module Rollbacks {
  import opened Trees
  import opened SourceSync
  import opened SyncLaws

  const BACKUP_EXCLUDES := Rules(
    {["users"], ["shared_skills"], ["runtime"], ["tmp"], ["message", "out"], ["cron", "task_cron_system"],
     ["global_knowledge", "kemo-graph-storage"], ["web", "node_modules"], ["web", "frontend", "node_modules"],
     ["__pycache__"], ["global_expand", "kemo_app", "logs"],
     ["global_expand", "kemo_gateway_status", "data"], ["global_expand", "kemo_gateway_status", "artifacts"],
     ["global_expand", "kemo_graph", "data"], ["global_expand", "kemo_graph", "artifacts"],
     [".git"], [".venv"], ["venv"], [".backups"]},
    {["global_knowledge", "classify.sqlite3"], ["global_knowledge", "classify.sql"],
     ["shared_knowledge", "classify.sqlite3"], ["shared_knowledge", "classify.sql"],
     [".env"], [".module.execution.lock"], [".update.lock"], [".update.maintenance"],
     ["global_expand", "kemo_app", "config.json"], ["global_expand", "kemo_app", "users.json"],
     ["global_expand", "kemo_app", "credential_registry.json"], ["global_expand", "kemo_app", "_connections.json"],
     ["global_expand", "kemo_app", "_device_commands.json"], ["global_expand", "kemo_app", "_device_commands.json.lock"],
     ["global_expand", "kemo_app", "_app_runs.sqlite3"], ["global_expand", "kemo_app", "_app_runs.sqlite3-shm"],
     ["global_expand", "kemo_app", "_app_runs.sqlite3-wal"], ["global_expand", "kemo_app", "_runtime.json"],
     ["global_expand", "kemo_app", "_activated.json"], ["global_expand", "kemo_app", "_server.pid"],
     ["global_expand", "kemo_app", "_lifecycle.lock"], ["global_expand", "kemo_app", "_last_run.json"],
     ["global_expand", "kemo_app", ".runtime.lock"], ["global_expand", "kemo_app", "expand.json"],
     ["global_expand", "kemo_app", "input_data.md"],
     ["global_expand", "kemo_gateway_status", "gateway_config.json"], ["global_expand", "kemo_gateway_status", "_runtime.json"],
     ["global_expand", "kemo_gateway_status", "_last_run.json"], ["global_expand", "kemo_gateway_status", ".runtime.lock"],
     ["global_expand", "kemo_gateway_status", "expand.json"], ["global_expand", "kemo_gateway_status", "input_data.md"],
     ["global_expand", "kemo_graph", "graph_config.json"], ["global_expand", "kemo_graph", "_runtime.json"],
     ["global_expand", "kemo_graph", "_last_run.json"], ["global_expand", "kemo_graph", ".runtime.lock"],
     ["global_expand", "kemo_graph", "expand.json"], ["global_expand", "kemo_graph", "input_data.md"]})

  const ROLLBACK_MANAGED_PATHS: seq<string> :=
    ["run", "provider", "cron", "template", "tests", "update", "message", "global_knowledge", "global_expand",
     "global_sense", "shared_expand", "shared_skills", "agents", "plugins", "web", "config"]

  const ROLLBACK_MANAGED_FILES: seq<string> :=
    ["version.json", "cli.py", "events.py", "setup.py", "update.py", "requirements.txt", "requirements-dev.txt",
     ".env.example", "LICENSE", "kemo-agent.ico", "kemo-agent.jpg", "kemo-web-UI.png", "agents.md", "restart.py",
     "start_web.py", "user_create.py", "README.md", "readme.md", "README_EN.md"]

  const EmptyTree := Tree(map[], {[]})

  /* ---- Specification ---- */

  ghost function Snapshot(x: Rules, t: Tree): Tree {
    Copied(t, [], x, EmptyTree)
  }

  /** Remove the managed root files that the snapshot lacks. */
  function WithoutNew(snapshot: Tree, names: seq<string>, t: Tree): Tree {
    t.(files := map p | p in t.files && !(|p| == 1 && p[0] in names && p !in snapshot.files && p !in snapshot.dirs) :: t.files[p])
  }

  /** Mirror each managed directory that exists on both sides, with the patterns now relative to that directory. */
  ghost function Mirrored(snapshot: Tree, x: Rules, names: seq<string>, t: Tree): Tree
    decreases |names|
  {
    if names == [] then t
    else
      var m := [names[0]];
      Mirrored(snapshot, x, names[1..], if m in snapshot.dirs && m in t.dirs then Synced(snapshot, m, x, true, t) else t)
  }

  ghost function Restored(snapshot: Tree, x: Rules, rootFiles: seq<string>, managed: seq<string>, t: Tree): Tree {
    Mirrored(snapshot, x, managed, WithoutNew(snapshot, rootFiles, Copied(snapshot, [], x, t)))
  }

  /* ---- The operations ---- */

  /** `make_backup` */
  method MakeBackup(root: Directory, x: Rules) returns (ok: bool, snapshot: Tree)
    requires root.Valid()
    ensures ok && snapshot == Snapshot(x, root.tree) && WellFormed(snapshot)
  {
    var backup := new Directory(EmptyTree);
    SnapshotClean(x, root.tree);
    ok := backup.SyncDirectory(root.tree, [], x, false);
    snapshot := backup.tree;
  }

  /** `restore_backup` */
  method RestoreBackup(root: Directory, snapshot: Tree, x: Rules, rootFiles: seq<string>, managed: seq<string>) returns (ok: bool)
    requires root.Valid() && WellFormed(snapshot)
    modifies root
    ensures root.Valid()
    ensures Complete(x, snapshot) && NoClash(snapshot, [], x, old(root.tree)) ==>
              ok && root.tree == Restored(snapshot, x, rootFiles, managed, old(root.tree))
    // it succeeds exactly if no file stands at a directory of the snapshot and no file of it is blocked twice; a
    // single directory at the place of a file goes unnoticed, and the file is not put back
    ensures Complete(x, snapshot) ==> (ok <==> CanRestore(snapshot, old(root.tree)))
    ensures Complete(x, snapshot) && ok ==>
      (AllBack(snapshot, root.tree) <==> forall p :: p in snapshot.files ==> p !in old(root.tree).dirs)
    ensures forall p :: p in snapshot.files && p in old(root.tree).dirs ==> p in root.tree.dirs
  {
    ghost var clean := Complete(x, snapshot) && NoClash(snapshot, [], x, root.tree);
    ghost var was := root.tree;
    if Complete(x, snapshot) {
      CompleteCanCopy(snapshot, x, was);
    }
    ok := root.SyncDirectory(snapshot, [], x, false);
    if !ok {
      return;
    }
    if Complete(x, snapshot) {
      FirstPassSettles(snapshot, x, was, root.tree);
    }
    if clean {
      CopyContains(snapshot, x, was);
    }
    RemoveNewFiles(root, snapshot, rootFiles);
    if clean {
      WithoutNewContains(snapshot, rootFiles, Copied(snapshot, [], x, was));
    }
    ok := MirrorManaged(root, snapshot, x, managed);
  }

  /** The last loop: mirror each managed directory that exists on both sides. */
  method MirrorManaged(root: Directory, snapshot: Tree, x: Rules, managed: seq<string>) returns (ok: bool)
    requires root.Valid() && WellFormed(snapshot)
    modifies root
    ensures root.Valid()
    ensures Settled(snapshot, old(root.tree)) ==> ok
    ensures Contains(snapshot, old(root.tree)) ==>
      ok && root.tree == Mirrored(snapshot, x, managed, old(root.tree)) && Contains(snapshot, root.tree)
    ensures forall d :: d in old(root.tree).dirs && Exists(snapshot, d) ==> d in root.tree.dirs
  {
    ghost var clean := Contains(snapshot, root.tree);
    var i := 0;
    assert managed[0..] == managed;
    while i < |managed|
      invariant i <= |managed| && root.Valid()
      invariant clean ==> Contains(snapshot, root.tree)
      invariant clean ==> Mirrored(snapshot, x, managed[i..], root.tree) == Mirrored(snapshot, x, managed, old(root.tree))
      invariant Settled(snapshot, old(root.tree)) ==> Settled(snapshot, root.tree)
      invariant forall d :: d in old(root.tree).dirs && Exists(snapshot, d) ==> d in root.tree.dirs
    {
      assert managed[i..][1..] == managed[i + 1..];
      var m := [managed[i]];
      if m in snapshot.dirs && m in root.tree.dirs {
        if clean {
          MirrorOne(snapshot, m, x, root.tree);
        }
        ghost var before := root.tree;
        if Settled(snapshot, before) {
          SettledCanCopy(snapshot, m, x, before);
        }
        ok := root.SyncDirectory(snapshot, m, x, true);
        if !ok {
          return;
        }
        if Settled(snapshot, before) {
          SettledStays(snapshot, m, x, before, root.tree);
        }
      }
      i := i + 1;
    }
    return true;
  }

  method RemoveNewFiles(root: Directory, snapshot: Tree, rootFiles: seq<string>)
    requires root.Valid()
    modifies root
    ensures root.Valid() && root.tree == WithoutNew(snapshot, rootFiles, old(root.tree))
  {
    var i := 0;
    while i < |rootFiles|
      invariant i <= |rootFiles| && root.Valid()
      invariant root.tree == WithoutNew(snapshot, rootFiles[..i], old(root.tree))
    {
      var target := [rootFiles[i]];
      assert rootFiles[..i + 1] == rootFiles[..i] + [rootFiles[i]];
      assert forall p: Path :: |p| == 1 && p[0] == rootFiles[i] ==> p == target;
      if target !in snapshot.files && target !in snapshot.dirs && target in root.tree.files {
        root.tree := root.tree.(files := root.tree.files - {target});
      }
      i := i + 1;
    }
    assert rootFiles[..i] == rootFiles;
  }

  /** `update_transaction`: `written` is whatever the update boards left behind. */
  method UpdateTransaction(root: Directory, written: Tree, failed: bool) returns (restored: bool)
    requires root.Valid() && WellFormed(written)
    modifies root
    ensures !failed ==> root.tree == written
    ensures failed && NoClash(Snapshot(BACKUP_EXCLUDES, old(root.tree)), [], BACKUP_EXCLUDES, written) ==>
      && restored
      && root.tree == Restored(Snapshot(BACKUP_EXCLUDES, old(root.tree)), BACKUP_EXCLUDES,
                               ROLLBACK_MANAGED_FILES, ROLLBACK_MANAGED_PATHS, written)
    ensures failed ==> (restored <==> CanRestore(Snapshot(BACKUP_EXCLUDES, old(root.tree)), written))
    ensures failed && restored ==>
      (AllBack(Snapshot(BACKUP_EXCLUDES, old(root.tree)), root.tree) <==>
         forall p :: p in Snapshot(BACKUP_EXCLUDES, old(root.tree)).files ==> p !in written.dirs)
  {
    var ok, snapshot := MakeBackup(root, BACKUP_EXCLUDES);
    SnapshotFiles(BACKUP_EXCLUDES, root.tree);
    root.tree := written;
    restored := false;
    if failed {
      restored := RestoreBackup(root, snapshot, BACKUP_EXCLUDES, ROLLBACK_MANAGED_FILES, ROLLBACK_MANAGED_PATHS);
    }
  }

  /** A directory in the place of a file: the restoration reports success, and the file is missing. */
  method DirectoryInPlaceOfFile(x: Rules) returns (ok: bool, snapshot: Tree, after: Tree)
    requires !IsExcluded(x, ["a"])
    ensures ok && ["a"] in snapshot.files && ["a"] !in after.files
  {
    snapshot := Tree(map[["a"] := File("content", 420)], {[]});
    assert Parent(["a"]) == [];
    assert ["a"][..1] == ["a"];
    var root := new Directory(Tree(map[], {[], ["a"]}));
    assert Nested(["a"]) != ["a"] && Nested(["a"]) != [];
    ok := RestoreBackup(root, snapshot, x, [], []);
    after := root.tree;
  }

  /* ---- Clashing kinds ---- */

  /** What a restoration needs in order to succeed. */
  ghost predicate CanRestore(snapshot: Tree, t: Tree) {
    && (forall d :: d in snapshot.dirs ==> d !in t.files)
    && (forall p :: p in snapshot.files ==> !TwiceBlocked(t, p))
  }

  predicate AllBack(snapshot: Tree, t: Tree) {
    forall p :: p in snapshot.files ==> p in t.files && t.files[p].content == snapshot.files[p].content
  }

  lemma CompleteVisits(snapshot: Tree, x: Rules)
    requires WellFormed(snapshot) && Complete(x, snapshot)
    ensures forall d :: Visits(snapshot, [], x, d) <==> d in snapshot.dirs
    ensures forall p :: Copies(snapshot, [], x, p) <==> p in snapshot.files
  {
    assert forall d: Path :: d[0..] == d;
  }

  lemma CompleteCanCopy(snapshot: Tree, x: Rules, t: Tree)
    requires WellFormed(snapshot) && WellFormed(t) && Complete(x, snapshot)
    ensures CanCopy(snapshot, [], x, t) <==> CanRestore(snapshot, t)
  {
    CompleteVisits(snapshot, x);
  }

  /** All directories of the snapshot are there, and none of its files is blocked twice. */
  ghost predicate Settled(snapshot: Tree, t: Tree) {
    snapshot.dirs <= t.dirs && forall p :: p in snapshot.files ==> !TwiceBlocked(t, p)
  }

  /** Directories that are added are the snapshot's own, so they block none of its files. */
  lemma StillNotBlocked(snapshot: Tree, t: Tree, after: Tree)
    requires WellFormed(snapshot) && forall d :: d in after.dirs ==> d in t.dirs || d in snapshot.dirs
    requires forall p :: p in snapshot.files ==> !TwiceBlocked(t, p)
    ensures forall p :: p in snapshot.files ==> !TwiceBlocked(after, p)
  {
    forall p | p in snapshot.files ensures !TwiceBlocked(after, p) {
      assert Parent(Nested(p)) == p;
    }
  }

  lemma FirstPassSettles(snapshot: Tree, x: Rules, t: Tree, after: Tree)
    requires WellFormed(snapshot) && WellFormed(t) && Complete(x, snapshot) && CanRestore(snapshot, t)
    requires forall d :: Visits(snapshot, [], x, d) ==> d in after.dirs
    requires forall d :: d in after.dirs ==> d in t.dirs || Visits(snapshot, [], x, d) || d in Prefixes([])
    ensures Settled(snapshot, after)
  {
    CompleteVisits(snapshot, x);
    StillNotBlocked(snapshot, t, after);
  }

  lemma SettledCanCopy(snapshot: Tree, m: Path, x: Rules, t: Tree)
    requires WellFormed(snapshot) && WellFormed(t) && Settled(snapshot, t) && m in snapshot.dirs
    ensures CanCopy(snapshot, m, x, t)
  {
    PrefixesAreDirs(snapshot, m);
  }

  lemma SettledStays(snapshot: Tree, m: Path, x: Rules, t: Tree, after: Tree)
    requires WellFormed(snapshot) && Settled(snapshot, t) && m in snapshot.dirs
    requires forall d :: d in t.dirs && Exists(snapshot, d) ==> d in after.dirs
    requires forall d :: d in after.dirs ==> d in t.dirs || Visits(snapshot, m, x, d) || d in Prefixes(m)
    ensures Settled(snapshot, after)
  {
    PrefixesAreDirs(snapshot, m);
    StillNotBlocked(snapshot, t, after);
  }

  /* ---- What a snapshot holds ---- */

  /** Nothing in the tree is excluded, so a copy of it is complete. */
  ghost predicate Complete(x: Rules, snapshot: Tree) {
    && (forall p :: p in snapshot.files ==> !CopyExcluded(x, p))
    && (forall d :: d in snapshot.dirs ==> !CopyExcluded(x, d))
  }

  predicate Contains(snapshot: Tree, t: Tree) {
    && snapshot.dirs <= t.dirs
    && forall p :: p in snapshot.files ==> p in t.files && t.files[p].content == snapshot.files[p].content
  }

  lemma SnapshotClean(x: Rules, t: Tree)
    requires WellFormed(t)
    ensures NoClash(t, [], x, EmptyTree) && WellFormed(EmptyTree) && WellFormed(Snapshot(x, t))
  {
    CopiedWellFormed(t, [], x, EmptyTree);
  }

  /** A snapshot holds exactly the files that are not excluded, contents and modes. */
  lemma SnapshotFiles(x: Rules, t: Tree)
    requires WellFormed(t)
    ensures Complete(x, Snapshot(x, t)) && WellFormed(Snapshot(x, t))
    ensures Snapshot(x, t).files == map p | p in t.files && !CopyExcluded(x, p) :: t.files[p]
    ensures Snapshot(x, t).dirs == set d | d in t.dirs && !CopyExcluded(x, d)
  {
    SnapshotClean(x, t);
    var s := Snapshot(x, t);
    assert forall p: Path :: p[0..] == p;
    forall p ensures p in s.files <==> p in t.files && !CopyExcluded(x, p) {
      if p in t.files && !CopyExcluded(x, p) {
        ParentVisited(t, [], x, p);
      }
    }
    forall d ensures d in s.dirs <==> d in t.dirs && !CopyExcluded(x, d) {
    }
  }

  lemma CopyContains(snapshot: Tree, x: Rules, t: Tree)
    requires WellFormed(snapshot) && WellFormed(t) && Complete(x, snapshot) && NoClash(snapshot, [], x, t)
    ensures Contains(snapshot, Copied(snapshot, [], x, t)) && WellFormed(Copied(snapshot, [], x, t))
    ensures var c := Copied(snapshot, [], x, t);
      forall p :: (p in c.files <==> p in snapshot.files || p in t.files)
        && (p in c.files ==> c.files[p] == if p in snapshot.files then Incoming(snapshot, t, p) else t.files[p])
  {
    CopiedWellFormed(snapshot, [], x, t);
    assert forall p: Path :: p[0..] == p;
    forall p | p in snapshot.files ensures Copies(snapshot, [], x, p) && Parent(p) in Visited(snapshot, [], x) {
      ParentVisited(snapshot, [], x, p);
    }
    forall d | d in snapshot.dirs ensures Visits(snapshot, [], x, d) {
    }
  }

  lemma WithoutNewContains(snapshot: Tree, names: seq<string>, t: Tree)
    requires Contains(snapshot, t)
    ensures Contains(snapshot, WithoutNew(snapshot, names, t))
  {
  }

  /** When the snapshot is already there, mirroring one directory only deletes. */
  lemma MirrorOne(snapshot: Tree, m: Path, x: Rules, t: Tree)
    requires WellFormed(snapshot) && WellFormed(t) && Contains(snapshot, t) && m in snapshot.dirs
    ensures NoClash(snapshot, m, x, t)
    ensures Synced(snapshot, m, x, true, t) == Pruned(snapshot, m, x, t)
    ensures Contains(snapshot, Synced(snapshot, m, x, true, t))
    ensures var r := Synced(snapshot, m, x, true, t);
      forall p :: (p in r.files <==> p in t.files && !Doomed(snapshot, m, x, p)) && (p in r.files ==> r.files[p] == t.files[p])
  {
    PrefixesAreDirs(t, m);
    CopyAgainChangesNothing(snapshot, m, x, t);
    forall p | p in t.files && Doomed(snapshot, m, x, p) ensures Parent(p) in Beneath(t, m) {
      assert Parent(p)[..|m|] == m;
    }
  }
}
