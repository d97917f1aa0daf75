/** The two walks together are one equation: a mirror on what is not excluded, nothing on what is. */
module SyncLaws {
  import opened Trees
  import opened SourceSync

  /** The delete walk spares no file that the copy walk would have copied. */
  lemma SparedIsExcluded(x: Rules, rel: Path)
    requires DeleteExcluded(x, rel)
    ensures CopyExcluded(x, rel)
  {
    assert rel[..|rel|] == rel;
    if !IsExcluded(x, rel) {
      assert rel[..|rel| - 1] == Parent(rel);
    }
  }

  /** The kept part of a tree stays a tree after the copy walk. */
  lemma CopiedWellFormed(source: Tree, at: Path, x: Rules, t: Tree)
    requires WellFormed(source) && WellFormed(t) && at in source.dirs && NoClash(source, at, x, t)
    ensures WellFormed(Copied(source, at, x, t))
  {
    var r := Copied(source, at, x, t);
    assert at[..|at|] == at;
    forall d | d in r.dirs && d != [] ensures Parent(d) in r.dirs {
      if d in Prefixes(at) {
        assert d == at[..|d|];
        assert Parent(d) == at[..|d| - 1];
      } else if d !in t.dirs {
        ParentVisited(source, at, x, d);
      }
    }
    forall p | p in r.files ensures p != [] && p !in r.dirs && Parent(p) in r.dirs {
      if Copies(source, at, x, p) {
        ParentVisited(source, at, x, p);
        assert p !in Prefixes(at);
      }
    }
  }

  /** Exactly which files there are afterwards, without any assumption about names. */
  lemma SyncedFiles(source: Tree, at: Path, x: Rules, t: Tree, p: Path)
    requires WellFormed(source) && WellFormed(t) && at in source.dirs && NoClash(source, at, x, t)
    ensures var r := Synced(source, at, x, true, t);
      if !(at < p) then (p in r.files <==> p in t.files) && (p in t.files ==> r.files[p] == t.files[p])
      else if !CopyExcluded(x, p[|at|..]) then
        (p in r.files <==> p in source.files) && (p in source.files ==> r.files[p] == Incoming(source, t, p))
      else
        && (p in r.files <==> p in t.files && (DeleteExcluded(x, p[|at|..]) || p in source.files || p in source.dirs))
        && (p in r.files ==> r.files[p] == t.files[p])
  {
    var c := Copied(source, at, x, t);
    CopiedWellFormed(source, at, x, t);
    if Copies(source, at, x, p) {
      ParentVisited(source, at, x, p);
    }
    if at < p {
      if DeleteExcluded(x, p[|at|..]) {
        SparedIsExcluded(x, p[|at|..]);
      }
      assert Parent(p)[..|at|] == at;
    }
  }

  /** Something at or beneath `d` is spared by the delete walk. */
  ghost predicate Spared(t: Tree, at: Path, x: Rules, d: Path) {
    exists p :: at < p && d <= p && ((p in t.dirs && IsExcluded(x, p[|at|..])) || (p in t.files && DeleteExcluded(x, p[|at|..])))
  }

  /** Exactly which directories there are afterwards. */
  lemma SyncedDirs(source: Tree, at: Path, x: Rules, t: Tree, d: Path)
    requires WellFormed(source) && WellFormed(t) && at in source.dirs && NoClash(source, at, x, t)
    ensures var r := Synced(source, at, x, true, t);
      if !(at < d) then d in r.dirs <==> d in t.dirs || d in Prefixes(at)
      else d in r.dirs <==> Visits(source, at, x, d) || (d in t.dirs && (Exists(source, d) || Spared(t, at, x, d)))
  {
    var c := Copied(source, at, x, t);
    var r := Synced(source, at, x, true, t);
    assert at[..|at|] == at;
    assert at <= d && !(at < d) ==> at == d;
    CopiedWellFormed(source, at, x, t);
    if at < d && d in t.dirs && !Exists(source, d) {
      GoneIff(source, at, x, t, d);
    }
  }

  lemma GoneIff(source: Tree, at: Path, x: Rules, t: Tree, d: Path)
    requires WellFormed(source) && WellFormed(t) && at in source.dirs && NoClash(source, at, x, t)
    requires at < d && d in t.dirs && !Exists(source, d)
    ensures DirGone(source, at, x, Copied(source, at, x, t), d) <==> !Spared(t, at, x, d)
  {
    var c := Copied(source, at, x, t);
    forall p | d <= p ensures !Exists(source, p) && (p in c.files <==> p in t.files) && (p in c.dirs <==> p in t.dirs) {
      assert d < p || d == p;
      if Exists(source, p) && d < p {
        BeneathSource(source, d, p);
      }
      assert p in Prefixes(at) ==> |p| <= |at|;
    }
    if Spared(t, at, x, d) {
      var p :| at < p && d <= p && ((p in t.dirs && IsExcluded(x, p[|at|..])) || (p in t.files && DeleteExcluded(x, p[|at|..])));
      assert p in t.dirs && IsExcluded(x, p[|at|..]) ==> !Removable(source, at, x, p);
    }
  }

  /** A directory the source lacks has nothing of the source beneath it. */
  lemma BeneathSource(source: Tree, d: Path, p: Path)
    requires WellFormed(source) && Exists(source, p) && d < p
    ensures d in source.dirs
  {
    AncestorsAreDirs(source, p, |d|);
    assert p[..|d|] == d;
  }

  /** No directory of `t` is excluded merely because its name is on the list of files. */
  ghost predicate FileNamesOnly(at: Path, x: Rules, t: Tree) {
    forall d :: d in t.dirs && at < d && FileMatch(x, d[|at|..]) ==> DirMatch(x, d[|at|..])
  }

  lemma {:induction false} DirMatchInherits(x: Rules, rel: Path, k: nat)
    requires k <= |rel| && DirMatch(x, rel[..k])
    ensures DirMatch(x, rel)
  {
    var d :| d in x.dirs && ((|d| == 1 && d[0] in rel[..k]) || (|d| > 1 && d <= rel[..k]));
    if |d| == 1 {
      var i :| 0 <= i < k && rel[..k][i] == d[0];
      assert rel[i] == d[0];
    }
  }

  /** With file names only, both walks spare the same files. */
  lemma WalksAgree(at: Path, x: Rules, t: Tree, p: Path)
    requires WellFormed(t) && FileNamesOnly(at, x, t) && at < p && p in t.files
    ensures CopyExcluded(x, p[|at|..]) <==> DeleteExcluded(x, p[|at|..])
  {
    var rel := p[|at|..];
    if CopyExcluded(x, rel) {
      var k :| 0 < k <= |rel| && IsExcluded(x, rel[..k]);
      if k < |rel| {
        AncestorsAreDirs(t, p, |at| + k);
        var d := p[..|at| + k];
        assert d[|at|..] == rel[..k];
        DirMatchInherits(x, rel, k);
      } else {
        assert rel[..k] == rel;
      }
    } else if DeleteExcluded(x, rel) {
      SparedIsExcluded(x, rel);
    }
  }

  /**
   With `delete`, every path that is not excluded has the source's content or is absent with it, and nothing else
   changes.  The last part needs that no directory is named like a file pattern.
   */
  lemma SyncMirrors(source: Tree, at: Path, x: Rules, t: Tree, p: Path)
    requires WellFormed(source) && WellFormed(t) && at in source.dirs && NoClash(source, at, x, t)
    requires FileNamesOnly(at, x, t)
    ensures var r := Synced(source, at, x, true, t);
      if at < p && !CopyExcluded(x, p[|at|..]) then
        (p in r.files <==> p in source.files) && (p in source.files ==> r.files[p].content == source.files[p].content)
      else
        (p in r.files <==> p in t.files) && (p in t.files ==> r.files[p] == t.files[p])
  {
    SyncedFiles(source, at, x, t, p);
    if at < p && p in t.files {
      WalksAgree(at, x, t, p);
    }
  }

  /** Excluded files all survive exactly when each is spared by the delete walk too, or is in the source. */
  lemma ExcludedSurviveIff(source: Tree, at: Path, x: Rules, t: Tree)
    requires WellFormed(source) && WellFormed(t) && at in source.dirs && NoClash(source, at, x, t)
    ensures (forall p :: p in t.files && at < p && CopyExcluded(x, p[|at|..]) ==> p in Synced(source, at, x, true, t).files)
       <==> (forall p :: p in t.files && at < p && CopyExcluded(x, p[|at|..]) ==>
               DeleteExcluded(x, p[|at|..]) || p in source.files || p in source.dirs)
  {
    forall p | p in t.files && at < p && CopyExcluded(x, p[|at|..])
      ensures p in Synced(source, at, x, true, t).files <==> DeleteExcluded(x, p[|at|..]) || p in source.files || p in source.dirs
    {
      SyncedFiles(source, at, x, t, p);
    }
  }

  /** A directory named like an excluded file, two levels above a file: the copy walk skips it, the delete walk does not. */
  lemma DeepFileIsLost()
    ensures var x := Rules({}, {["cache"]});
      var p := ["cache", "a", "b"];
      var t := Tree(map[p := File("kept?", 0)], {[], ["cache"], ["cache", "a"]});
      && WellFormed(t) && CopyExcluded(x, p) && p !in Synced(Tree(map[], {[]}), [], x, true, t).files
  {
    var x := Rules({}, {["cache"]});
    var p := ["cache", "a", "b"];
    var t := Tree(map[p := File("kept?", 0)], {[], ["cache"], ["cache", "a"]});
    assert Parent(["cache"]) == [] && Parent(["cache", "a"]) == ["cache"] && Parent(p) == ["cache", "a"];
    assert p[..1] == ["cache"];
    assert FileMatch(x, p[..1]);
    assert !FileMatch(x, p) && !FileMatch(x, Parent(p)) && !DirMatch(x, p) && !DirMatch(x, Parent(p));
    assert p[0..] == p;
    SyncedFiles(Tree(map[], {[]}), [], x, t, p);
  }

  /* ---- Synchronising twice ---- */

  lemma CopyAgainChangesNothing(source: Tree, at: Path, x: Rules, t: Tree)
    requires Prefixes(at) <= t.dirs && Visited(source, at, x) <= t.dirs
    requires forall p :: Copies(source, at, x, p) ==> p in t.files && t.files[p].content == source.files[p].content
    ensures Copied(source, at, x, t) == t
  {
    assert t.dirs + (Prefixes(at) + Visited(source, at, x)) == t.dirs;
  }

  lemma PruneAgainChangesNothing(source: Tree, at: Path, x: Rules, t: Tree)
    requires WellFormed(t)
    ensures Pruned(source, at, x, Pruned(source, at, x, t)) == Pruned(source, at, x, t)
  {
    var r := Pruned(source, at, x, t);
    assert forall p :: p in r.files && Doomed(source, at, x, p) ==> Parent(p) !in Beneath(r, at);
    forall d | d in r.dirs ensures !DirGone(source, at, x, r, d) {
      if DirGone(source, at, x, r, d) {
        forall e | e in t.dirs && d <= e ensures Removable(source, at, x, e) {
          assert e in r.dirs || DirGone(source, at, x, t, e);
        }
        forall p | p in t.files && d <= p ensures Doomed(source, at, x, p) {
          assert p in r.files || Doomed(source, at, x, p);
        }
        assert DirGone(source, at, x, t, d);
      }
    }
  }

  /** A second synchronisation finds nothing to do. */
  lemma SyncIdempotent(source: Tree, at: Path, x: Rules, t: Tree)
    requires WellFormed(source) && WellFormed(t) && at in source.dirs && NoClash(source, at, x, t)
    ensures Synced(source, at, x, true, Synced(source, at, x, true, t)) == Synced(source, at, x, true, t)
  {
    var c := Copied(source, at, x, t);
    var r := Pruned(source, at, x, c);
    CopiedWellFormed(source, at, x, t);
    forall p | Copies(source, at, x, p) ensures p in r.files && r.files[p].content == source.files[p].content {
      SyncedFiles(source, at, x, t, p);
    }
    forall d | d in Visited(source, at, x) + Prefixes(at) ensures d in r.dirs {
      SyncedDirs(source, at, x, t, d);
    }
    CopyAgainChangesNothing(source, at, x, r);
    PruneAgainChangesNothing(source, at, x, c);
  }
}
