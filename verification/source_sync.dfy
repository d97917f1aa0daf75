/**
 The updater's directory synchronisation: a top-down copy walk and a bottom-up delete walk, both filtered by
 exclusion patterns.  Source and target are the directories at the same path `at` of two trees.
 */
module SourceSync {
  import opened Collections
  import opened Trees

  /* ---- Patterns ---- */

  /** Patterns split into components: those written with a trailing slash, and the others. */
  datatype Rules = Rules(dirs: set<Path>, files: set<Path>)

  predicate FileMatch(x: Rules, rel: Path) {
    rel != [] && (rel in x.files || [rel[|rel| - 1]] in x.files)
  }

  predicate DirMatch(x: Rules, rel: Path) {
    exists d :: d in x.dirs && ((|d| == 1 && d[0] in rel) || (|d| > 1 && d <= rel))
  }

  /** `_is_excluded`. */
  predicate IsExcluded(x: Rules, rel: Path) {
    FileMatch(x, rel) || DirMatch(x, rel)
  }

  /** What the copy walk leaves alone: it never enters an excluded directory. */
  predicate CopyExcluded(x: Rules, rel: Path) {
    exists k :: 0 < k <= |rel| && IsExcluded(x, rel[..k])
  }

  /** Files the delete walk leaves alone: it looks at the file and at its own directory, no higher. */
  predicate DeleteExcluded(x: Rules, rel: Path) {
    rel != [] && (IsExcluded(x, rel) || (|rel| > 1 && IsExcluded(x, Parent(rel))))
  }

  lemma CopyExcludedStep(x: Rules, rel: Path)
    requires rel != []
    ensures CopyExcluded(x, rel) <==> CopyExcluded(x, Parent(rel)) || IsExcluded(x, rel)
  {
    assert rel[..|rel|] == rel;
    assert forall k :: 0 < k <= |rel| - 1 ==> Parent(rel)[..k] == rel[..k];
  }

  /* ---- The copy walk ---- */

  ghost predicate Visits(source: Tree, at: Path, x: Rules, d: Path) {
    d in source.dirs && at <= d && !CopyExcluded(x, d[|at|..])
  }

  ghost predicate Copies(source: Tree, at: Path, x: Rules, p: Path) {
    p in source.files && at < p && !CopyExcluded(x, p[|at|..])
  }

  ghost function Visited(source: Tree, at: Path, x: Rules): (r: set<Path>)
    ensures forall d :: d in r <==> Visits(source, at, x, d)
  {
    set d | d in source.dirs && Visits(source, at, x, d)
  }

  ghost function CopiesIn(source: Tree, at: Path, x: Rules, dirs: set<Path>): (r: set<Path>)
    ensures forall p :: p in r <==> Copies(source, at, x, p) && Parent(p) in dirs
  {
    set p | p in source.files && Copies(source, at, x, p) && Parent(p) in dirs
  }

  function Prefixes(d: Path): (r: set<Path>)
    ensures forall k :: 0 <= k <= |d| ==> d[..k] in r
    ensures forall e :: e in r ==> e <= d
  {
    set k | 0 <= k <= |d| :: d[..k]
  }

  /** A file with the right content already is left alone, mode and all. */
  function Incoming(source: Tree, t: Tree, p: Path): File
    requires p in source.files
  {
    if p in t.files && t.files[p].content == source.files[p].content then t.files[p] else source.files[p]
  }

  /** `t` with some directories made and some files copied. */
  ghost function CopyState(source: Tree, t: Tree, dirs: set<Path>, files: set<Path>): Tree
    requires files <= source.files.Keys
  {
    Tree(map p | p in t.files.Keys + files :: if p in files then Incoming(source, t, p) else t.files[p], t.dirs + dirs)
  }

  /** The whole effect of the copy walk. */
  ghost function Copied(source: Tree, at: Path, x: Rules, t: Tree): Tree {
    var dirs := Visited(source, at, x);
    CopyState(source, t, Prefixes(at) + dirs, CopiesIn(source, at, x, dirs))
  }

  /** No file stands where a directory is to be made, and no directory where a file is to be copied. */
  ghost predicate NoClash(source: Tree, at: Path, x: Rules, t: Tree) {
    && (forall d :: d in Prefixes(at) ==> d !in t.files)
    && (forall d :: Visits(source, at, x, d) ==> d !in t.files)
    && (forall p :: Copies(source, at, x, p) ==> p !in t.dirs)
  }

  /** Where a copy of `p` goes if there is a directory at `p`. */
  function Nested(p: Path): Path
    requires p != []
  {
    p + [p[|p| - 1]]
  }

  /** A directory stands where the file is to be copied, and another one where it would go instead. */
  predicate TwiceBlocked(t: Tree, p: Path) {
    p != [] && p in t.dirs && Nested(p) in t.dirs
  }

  /** What the copy walk needs in order to succeed. */
  ghost predicate CanCopy(source: Tree, at: Path, x: Rules, t: Tree) {
    && (forall d :: d in Prefixes(at) ==> d !in t.files)
    && (forall d :: Visits(source, at, x, d) ==> d !in t.files)
    && (forall p :: Copies(source, at, x, p) ==> !TwiceBlocked(t, p))
  }

  /** Files appear only at the given paths or inside directories that stand there. */
  ghost predicate FilesAppear(before: Tree, after: Tree, copied: set<Path>) {
    && before.files.Keys <= after.files.Keys
    && forall q :: q in after.files ==> q in before.files || q in copied || (q != [] && Parent(q) in copied)
  }

  /** The copy walk only adds, and only what it visits and copies. */
  ghost predicate Extends(source: Tree, at: Path, x: Rules, was: Tree, t: Tree) {
    && was.dirs <= t.dirs && was.files.Keys <= t.files.Keys
    && (forall d :: d in t.dirs ==> d in was.dirs || Visits(source, at, x, d) || d in Prefixes(at))
    && (forall q :: q in t.files ==>
          q in was.files || Copies(source, at, x, q) || (q != [] && Copies(source, at, x, Parent(q))))
  }

  /* ---- The delete walk ---- */

  predicate Doomed(source: Tree, at: Path, x: Rules, p: Path) {
    at < p && !DeleteExcluded(x, p[|at|..]) && p !in source.files && p !in source.dirs
  }

  predicate Removable(source: Tree, at: Path, x: Rules, d: Path) {
    at < d && !IsExcluded(x, d[|at|..]) && d !in source.files && d !in source.dirs
  }

  /** A directory goes when it and every directory beneath may go and every file beneath goes. */
  ghost predicate DirGone(source: Tree, at: Path, x: Rules, t: Tree, d: Path) {
    && Removable(source, at, x, d)
    && (forall e :: e in t.dirs && d <= e ==> Removable(source, at, x, e))
    && (forall p :: p in t.files && d <= p ==> Doomed(source, at, x, p))
  }

  /** `t` after the delete walk has dealt with the directories `done`. */
  ghost function PruneState(source: Tree, at: Path, x: Rules, t: Tree, done: set<Path>): Tree {
    Tree(map p | p in t.files && !(p != [] && Parent(p) in done && Doomed(source, at, x, p)) :: t.files[p],
         set d | d in t.dirs && !(d in done && DirGone(source, at, x, t, d)))
  }

  function Beneath(t: Tree, at: Path): (r: set<Path>)
    ensures forall d :: d in r <==> d in t.dirs && at <= d
  {
    set d | d in t.dirs && at <= d
  }

  /** The whole effect of the delete walk. */
  ghost function Pruned(source: Tree, at: Path, x: Rules, t: Tree): Tree {
    PruneState(source, at, x, t, Beneath(t, at))
  }

  ghost function Synced(source: Tree, at: Path, x: Rules, delete: bool, t: Tree): Tree {
    var copied := Copied(source, at, x, t);
    if delete then Pruned(source, at, x, copied) else copied
  }

  /* ---- Proof helpers ---- */

  lemma {:induction false} AllVisited(source: Tree, at: Path, x: Rules, done: set<Path>, d: Path)
    requires WellFormed(source) && at in done && Visits(source, at, x, d)
    requires forall c :: Visits(source, at, x, c) && c != at && Parent(c) in done ==> c in done
    ensures d in done
    decreases |d|
  {
    if d != at {
      ParentVisited(source, at, x, d);
      AllVisited(source, at, x, done, Parent(d));
    }
  }

  lemma ParentVisited(source: Tree, at: Path, x: Rules, d: Path)
    requires WellFormed(source) && (Visits(source, at, x, d) || Copies(source, at, x, d)) && d != at
    ensures d != [] && Visits(source, at, x, Parent(d))
    ensures !IsExcluded(x, d[|at|..])
  {
    CopyExcludedStep(x, d[|at|..]);
    assert Parent(d)[|at|..] == Parent(d[|at|..]);
  }

  /** A child that is not excluded itself is visited or copied. */
  lemma ChildReached(source: Tree, at: Path, x: Rules, c: Path)
    requires WellFormed(source) && c != [] && Visits(source, at, x, Parent(c)) && !IsExcluded(x, c[|at|..])
    ensures at < c
    ensures c in source.dirs ==> Visits(source, at, x, c)
    ensures c in source.files ==> Copies(source, at, x, c)
  {
    assert Parent(c)[|at|..] == Parent(c[|at|..]);
    CopyExcludedStep(x, c[|at|..]);
  }

  lemma DeepestExists(pending: set<Path>)
    requires pending != {}
    ensures exists d :: d in pending && forall e :: e in pending ==> !Above(d, e)
  {
    var d := FirstExists(pending, (a: Path, b: Path) => |a| >= |b|);
    assert forall e :: e in pending ==> !Above(d, e);
  }

  lemma PrefixesAreDirs(t: Tree, d: Path)
    requires WellFormed(t) && d in t.dirs
    ensures Prefixes(d) <= t.dirs
  {
    forall e | e in Prefixes(d) ensures e in t.dirs {
      assert e == d[..|e|];
      if |e| < |d| {
        AncestorsAreDirs(t, d, |e|);
      } else {
        assert e == d;
      }
    }
  }

  lemma ListedAreCopied(source: Tree, at: Path, x: Rules, d: Path, listed: set<Path>)
    requires WellFormed(source) && Visits(source, at, x, d)
    requires forall p :: p in listed <==> p in source.files && p != [] && Parent(p) == d && !IsExcluded(x, p[|at|..])
    ensures listed == CopiesIn(source, at, x, {d})
  {
    forall p ensures p in listed <==> p in CopiesIn(source, at, x, {d}) {
      if p in listed {
        ChildReached(source, at, x, p);
      } else if p in CopiesIn(source, at, x, {d}) {
        ParentVisited(source, at, x, p);
      }
    }
  }

  /** Copying in two steps is copying at once. */
  lemma CopyStateAdds(source: Tree, t: Tree, dirs: set<Path>, files: set<Path>, moreDirs: set<Path>, more: set<Path>)
    requires files + more <= source.files.Keys && files !! more
    ensures CopyState(source, CopyState(source, t, dirs, files), moreDirs, more)
            == CopyState(source, t, dirs + moreDirs, files + more)
  {
    var step := CopyState(source, t, dirs, files);
    assert forall p :: p in more ==> Incoming(source, step, p) == Incoming(source, t, p);
    assert t.dirs + dirs + moreDirs == t.dirs + (dirs + moreDirs);
  }

  lemma CopiedAfterMkdir(source: Tree, at: Path, x: Rules, t: Tree)
    requires WellFormed(source) && at in source.dirs
    ensures var made := t.(dirs := t.dirs + Prefixes(at));
      && Copied(source, at, x, made) == Copied(source, at, x, t)
      && (NoClash(source, at, x, t) ==> NoClash(source, at, x, made))
  {
    var made := t.(dirs := t.dirs + Prefixes(at));
    assert forall p :: p in source.files ==> Incoming(source, made, p) == Incoming(source, t, p);
    assert made.dirs + (Prefixes(at) + Visited(source, at, x)) == t.dirs + (Prefixes(at) + Visited(source, at, x));
  }

  lemma PrefixesOfNext(t: Tree, at: Path, d: Path)
    requires WellFormed(t) && at in t.dirs && (d == at || (d != [] && Parent(d) in t.dirs))
    ensures Prefixes(d) <= t.dirs + {d} && d in Prefixes(d)
  {
    assert d[..|d|] == d;
    if d == at {
      PrefixesAreDirs(t, at);
    } else {
      PrefixesOfChild(t, d);
    }
  }

  lemma RemovingEmptyKeepsForm(t: Tree, d: Path)
    requires WellFormed(t) && d != [] && !HasEntries(t, d)
    ensures WellFormed(t.(dirs := t.dirs - {d}))
  {
  }

  lemma PrefixesOfChild(t: Tree, d: Path)
    requires WellFormed(t) && d != [] && Parent(d) in t.dirs
    ensures Prefixes(d) <= t.dirs + {d}
  {
    PrefixesAreDirs(t, Parent(d));
    forall e | e in Prefixes(d) ensures e in t.dirs + {d} {
      assert e == d[..|e|];
      if |e| < |d| {
        assert e == Parent(d)[..|e|];
      } else {
        assert e == d;
      }
    }
  }

  /** The entry of `d` on the way to something beneath it. */
  lemma EntryTowards(t: Tree, d: Path, p: Path)
    requires WellFormed(t) && Exists(t, p) && Above(d, p)
    ensures var c := p[..|d| + 1]; Parent(c) == d && Above(d, c) && (c == p || (c in t.dirs && Above(c, p)))
  {
    var c := p[..|d| + 1];
    if c != p {
      AncestorsAreDirs(t, p, |d| + 1);
    }
  }

  /** If everything directly in `d` goes, everything beneath it goes. */
  lemma GoneBeneath(source: Tree, at: Path, x: Rules, t: Tree, d: Path)
    requires WellFormed(t) && d in t.dirs && Removable(source, at, x, d)
    requires forall c :: c in t.dirs && c != [] && Parent(c) == d ==> DirGone(source, at, x, t, c)
    requires forall c :: c in t.files && c != [] && Parent(c) == d ==> Doomed(source, at, x, c)
    ensures DirGone(source, at, x, t, d)
  {
    forall p | Exists(t, p) && d <= p
      ensures p in t.files ==> Doomed(source, at, x, p)
      ensures p in t.dirs ==> Removable(source, at, x, p)
    {
      if p != d {
        EntryTowards(t, d, p);
        var c := p[..|d| + 1];
        assert c in t.dirs ==> DirGone(source, at, x, t, c);
        assert c <= p;
      }
    }
  }

  /** Once everything beneath has been dealt with, a removable directory is empty exactly when it is to go. */
  lemma EmptyIffGone(source: Tree, at: Path, x: Rules, t: Tree, done: set<Path>, d: Path, now: Tree)
    requires WellFormed(t) && d in t.dirs && at < d && d in done
    requires forall e :: e in t.dirs && Above(d, e) ==> e in done
    requires Removable(source, at, x, d)
    requires now.files == PruneState(source, at, x, t, done).files && now.dirs == PruneState(source, at, x, t, done - {d}).dirs
    ensures DirGone(source, at, x, t, d) <==> !HasEntries(now, d)
  {
    if DirGone(source, at, x, t, d) {
      forall c | c in t.dirs && c != [] && Parent(c) == d ensures c !in now.dirs {
        assert Above(d, c) && d <= c;
        GoneInherits(source, at, x, t, d, c);
      }
      forall c | c in t.files && c != [] && Parent(c) == d ensures c !in now.files {
        assert d <= c;
      }
    } else if !HasEntries(now, d) {
      forall c | c in t.dirs && c != [] && Parent(c) == d ensures DirGone(source, at, x, t, c) {
        assert c !in now.dirs;
      }
      forall c | c in t.files && c != [] && Parent(c) == d ensures Doomed(source, at, x, c) {
        assert c !in now.files;
      }
      GoneBeneath(source, at, x, t, d);
    }
  }

  lemma GoneInherits(source: Tree, at: Path, x: Rules, t: Tree, d: Path, c: Path)
    requires DirGone(source, at, x, t, d) && c in t.dirs && d <= c
    ensures DirGone(source, at, x, t, c)
  {
  }

  /** The files of `d` have just been dealt with; what remains is `d` itself. */
  lemma PruneStep(source: Tree, at: Path, x: Rules, t: Tree, done: set<Path>, d: Path, now: Tree)
    requires WellFormed(t) && d in t.dirs && at <= d && d !in done
    requires forall e :: e in t.dirs && Above(d, e) ==> e in done
    requires now.dirs == PruneState(source, at, x, t, done).dirs
    requires now.files == map p | p in PruneState(source, at, x, t, done).files && !(Parent(p) == d && Doomed(source, at, x, p))
                                :: PruneState(source, at, x, t, done).files[p]
    ensures PruneState(source, at, x, t, done + {d})
            == if Removable(source, at, x, d) && !HasEntries(now, d) then now.(dirs := now.dirs - {d}) else now
  {
    var next := PruneState(source, at, x, t, done + {d});
    assert next.files == now.files;
    assert done + {d} - {d} == done;
    if Removable(source, at, x, d) {
      EmptyIffGone(source, at, x, t, done + {d}, d, now);
    }
    assert next.dirs == if DirGone(source, at, x, t, d) then now.dirs - {d} else now.dirs;
  }

  /** When nothing is left to visit everything has been visited. */
  lemma AllCopied(source: Tree, at: Path, x: Rules, t: Tree, done: set<Path>)
    requires WellFormed(source) && at in done && Prefixes(at) <= t.dirs
    requires forall d :: d in done ==> Visits(source, at, x, d)
    requires forall c :: Visits(source, at, x, c) && c != at && Parent(c) in done ==> c in done
    ensures CopyState(source, t, done, CopiesIn(source, at, x, done)) == Copied(source, at, x, t)
  {
    forall d ensures d in done <==> d in Visited(source, at, x) {
      if Visits(source, at, x, d) {
        AllVisited(source, at, x, done, d);
      }
    }
    assert done == Visited(source, at, x);
    assert t.dirs + done == t.dirs + (Prefixes(at) + done);
  }

  /** Visiting one more directory. */
  lemma CopyStep(source: Tree, at: Path, x: Rules, t: Tree, done: set<Path>, d: Path)
    requires d !in done && Visits(source, at, x, d)
    requires Prefixes(d) <= t.dirs + done + {d}
    ensures var now := CopyState(source, t, done, CopiesIn(source, at, x, done));
      CopyState(source, now.(dirs := now.dirs + Prefixes(d)), {}, CopiesIn(source, at, x, {d}))
      == CopyState(source, t, done + {d}, CopiesIn(source, at, x, done + {d}))
  {
    var now := CopyState(source, t, done, CopiesIn(source, at, x, done));
    assert d[..|d|] == d;
    assert now.dirs + Prefixes(d) == t.dirs + (done + {d});
    assert CopiesIn(source, at, x, done) + CopiesIn(source, at, x, {d}) == CopiesIn(source, at, x, done + {d});
    var made := CopyState(source, t, done + {d}, CopiesIn(source, at, x, done));
    assert now.(dirs := now.dirs + Prefixes(d)) == made;
    CopyStateAdds(source, t, done + {d}, CopiesIn(source, at, x, done), {}, CopiesIn(source, at, x, {d}));
    assert done + {d} + {} == done + {d};
  }

  /** What the walk lists in a visited directory is visited too. */
  lemma ListedAreVisited(source: Tree, at: Path, x: Rules, d: Path, listed: set<Path>)
    requires WellFormed(source) && Visits(source, at, x, d)
    requires forall c :: c in listed <==> c in source.dirs && c != [] && Parent(c) == d && !IsExcluded(x, c[|at|..])
    ensures forall c :: c in listed <==> Visits(source, at, x, c) && c != at && Parent(c) == d
  {
    forall c ensures c in listed <==> Visits(source, at, x, c) && c != at && Parent(c) == d {
      if c in listed {
        ChildReached(source, at, x, c);
      } else if Visits(source, at, x, c) && c != at {
        ParentVisited(source, at, x, c);
      }
    }
  }

  /** Which directories the copy walk has dealt with and which it has found but not yet entered. */
  ghost predicate Frontier(source: Tree, at: Path, x: Rules, done: set<Path>, pending: set<Path>) {
    && done !! pending && at in done + pending
    && (forall d :: d in done + pending ==> Visits(source, at, x, d))
    && (forall d :: d in done + pending ==> d == at || (d != [] && Parent(d) in done))
    && (forall c :: Visits(source, at, x, c) && c != at && c != [] && Parent(c) in done ==> c in done + pending)
  }

  lemma FrontierMoves(source: Tree, at: Path, x: Rules, done: set<Path>, pending: set<Path>, d: Path, listed: set<Path>)
    requires WellFormed(source) && Frontier(source, at, x, done, pending) && d in pending
    requires forall c :: c in listed <==> c in source.dirs && c != [] && Parent(c) == d && !IsExcluded(x, c[|at|..])
    ensures Frontier(source, at, x, done + {d}, pending - {d} + listed)
    ensures d == at || (d != [] && Parent(d) in done)
  {
    ListedAreVisited(source, at, x, d, listed);
    assert forall c :: c in listed ==> c !in done + pending && Parent(c) == d;
  }

  /** A file in the way of a visited directory stood there from the start. */
  lemma InTheWayFromTheStart(source: Tree, at: Path, x: Rules, was: Tree, t: Tree, d: Path, e: Path)
    requires WellFormed(source) && WellFormed(t) && at in t.dirs && Extends(source, at, x, was, t)
    requires Visits(source, at, x, d) && e in Prefixes(d) && e in t.files
    ensures e in was.files && Visits(source, at, x, e)
  {
    assert e == d[..|e|] && d[..|at|] == at;
    assert |e| <= |at| ==> e == at[..|e|];
    if |e| < |at| {
      AncestorsAreDirs(t, at, |e|);
    }
    assert |e| == |at| ==> e == at;
    if |e| < |d| {
      AncestorsAreDirs(source, d, |e|);
    } else {
      assert e == d;
    }
    assert forall k :: 0 < k <= |e| - |at| ==> e[|at|..][..k] == d[|at|..][..k];
    AncestorsAreDirs(source, e, |e| - 1);
  }

  /** A copied path is twice blocked only if it was from the start. */
  lemma BlockedFromTheStart(source: Tree, at: Path, x: Rules, was: Tree, t: Tree, p: Path)
    requires WellFormed(source) && Extends(source, at, x, was, t) && Copies(source, at, x, p)
    ensures TwiceBlocked(t, p) <==> TwiceBlocked(was, p)
  {
    assert Parent(Nested(p)) == p;
    assert Visits(source, at, x, Nested(p)) ==> p in source.dirs;
  }

  lemma BlockedAlike(source: Tree, at: Path, x: Rules, was: Tree, t: Tree, copied: set<Path>)
    requires WellFormed(source) && Extends(source, at, x, was, t) && forall p :: p in copied ==> Copies(source, at, x, p)
    ensures forall p :: p in copied ==> (TwiceBlocked(t, p) <==> TwiceBlocked(was, p))
  {
    forall p | p in copied ensures TwiceBlocked(t, p) <==> TwiceBlocked(was, p) {
      BlockedFromTheStart(source, at, x, was, t, p);
    }
  }

  /** `done` of the files `all` have been copied, none of them twice blocked; exact if no directory is in the way. */
  ghost predicate CopiedSome(source: Tree, was: Tree, t: Tree, all: set<Path>, done: set<Path>)
    requires all <= source.files.Keys && done <= all
  {
    && t.dirs == was.dirs && FilesAppear(was, t, all)
    && (forall p :: p in done ==> !TwiceBlocked(was, p))
    && (all !! was.dirs ==> t == CopyState(source, was, {}, done))
  }

  lemma CopiedSomeStart(source: Tree, was: Tree, all: set<Path>)
    requires all <= source.files.Keys
    ensures all - all == {} && CopiedSome(source, was, was, all, {})
  {
    assert was.dirs + {} == was.dirs;
  }

  lemma CopiedOneMore(source: Tree, was: Tree, t: Tree, next: Tree, all: set<Path>, done: set<Path>, p: Path)
    requires all <= source.files.Keys && done <= all && p in all && p !in done && CopiedSome(source, was, t, all, done)
    requires next.dirs == t.dirs && FilesAppear(t, next, {p}) && !TwiceBlocked(t, p)
    requires p !in t.dirs ==> next == CopyState(source, t, {}, {p})
    ensures CopiedSome(source, was, next, all, done + {p})
  {
    if all !! was.dirs {
      CopyStateAdds(source, was, {}, done, {}, {p});
    }
  }

  lemma CleanCanCopy(source: Tree, at: Path, x: Rules, t: Tree)
    requires NoClash(source, at, x, t)
    ensures CanCopy(source, at, x, t)
  {
  }

  lemma CleanStep(source: Tree, at: Path, x: Rules, was: Tree, t: Tree, d: Path)
    requires NoClash(source, at, x, was) && Extends(source, at, x, was, t) && WellFormed(source)
    requires Visits(source, at, x, d) && Prefixes(d) <= t.dirs + {d}
    ensures CopiesIn(source, at, x, {d}) !! t.dirs + Prefixes(d)
  {
  }

  /** The walk has succeeded once every directory has been visited. */
  lemma WalkEnds(source: Tree, at: Path, x: Rules, was: Tree, t: Tree, done: set<Path>)
    requires WellFormed(source) && WellFormed(t) && at in done && done <= t.dirs && at in was.dirs && WellFormed(was)
    requires Extends(source, at, x, was, t)
    requires forall c :: Visits(source, at, x, c) && c != at && Parent(c) in done ==> c in done
    requires forall p :: p in CopiesIn(source, at, x, done) ==> !TwiceBlocked(was, p)
    ensures CanCopy(source, at, x, was) && forall d :: Visits(source, at, x, d) ==> d in t.dirs
  {
    PrefixesAreDirs(was, at);
    forall d | Visits(source, at, x, d) ensures d in t.dirs {
      AllVisited(source, at, x, done, d);
    }
    forall p | Copies(source, at, x, p) ensures !TwiceBlocked(was, p) {
      ParentVisited(source, at, x, p);
      AllVisited(source, at, x, done, Parent(p));
    }
  }

  lemma ExtendsMore(source: Tree, at: Path, x: Rules, was: Tree, t: Tree, d: Path, made: Tree, after: Tree)
    requires WellFormed(source) && Extends(source, at, x, was, t) && Visits(source, at, x, d)
    requires Prefixes(d) <= t.dirs + {d} && made == t.(dirs := t.dirs + Prefixes(d))
    requires after.dirs == made.dirs && FilesAppear(made, after, CopiesIn(source, at, x, {d}))
    ensures Extends(source, at, x, was, after)
  {
  }

  /* ---- The walks ---- */

  /** A directory on disk that the updater writes to. */
  class Directory {
    var tree: Tree

    ghost predicate Valid()
      reads this
    {
      WellFormed(tree)
    }

    constructor (tree: Tree)
      requires WellFormed(tree)
      ensures Valid() && this.tree == tree
    {
      this.tree := tree;
    }

    /** `mkdir(parents=True, exist_ok=True)`; fails when a file is in the way. */
    method MakeDirectory(d: Path) returns (ok: bool)
      requires Valid()
      modifies this
      ensures Valid()
      ensures ok <==> forall e :: e in Prefixes(d) ==> e !in old(tree).files
      ensures tree == if ok then old(tree).(dirs := old(tree).dirs + Prefixes(d)) else old(tree)
    {
      ok := forall e :: e in Prefixes(d) ==> e !in tree.files;
      if ok {
        tree := tree.(dirs := tree.dirs + Prefixes(d));
        forall e | e in Prefixes(d) && e != [] ensures Parent(e) in Prefixes(d) {
          assert Parent(e) == d[..|e| - 1];
        }
      }
    }

    /** Copy one file unless the content is there already; into a directory of that name if there is one. */
    method CopyFile(source: Tree, p: Path) returns (ok: bool)
      requires Valid() && p != [] && p in source.files && Parent(p) in tree.dirs
      modifies this
      ensures Valid() && tree.dirs == old(tree).dirs && FilesAppear(old(tree), tree, {p})
      ensures ok <==> !TwiceBlocked(old(tree), p)
      ensures tree == if !ok then old(tree)
                      else if p in old(tree).dirs
                      then old(tree).(files := old(tree).files[Nested(p) := source.files[p]])
                      else CopyState(source, old(tree), {}, {p})
    {
      if p in tree.files && tree.files[p].content == source.files[p].content {
        return true;
      }
      var destination := if p in tree.dirs then Nested(p) else p;
      assert p in tree.dirs ==> Parent(destination) == p && p in {p};
      if destination in tree.dirs {
        return false;
      }
      tree := tree.(files := tree.files[destination := source.files[p]]);
      return true;
    }

    /** The files of one visited directory; the result is exact when no directory is in the way. */
    method CopyFiles(source: Tree, at: Path, x: Rules, d: Path) returns (ok: bool)
      requires Valid() && WellFormed(source) && Visits(source, at, x, d) && d in tree.dirs
      modifies this
      ensures Valid() && tree.dirs == old(tree).dirs
      ensures FilesAppear(old(tree), tree, CopiesIn(source, at, x, {d}))
      ensures ok <==> forall p :: p in CopiesIn(source, at, x, {d}) ==> !TwiceBlocked(old(tree), p)
      ensures CopiesIn(source, at, x, {d}) !! old(tree).dirs ==>
                ok && tree == CopyState(source, old(tree), {}, CopiesIn(source, at, x, {d}))
    {
      var todo := set p | p in source.files && p != [] && Parent(p) == d && !IsExcluded(x, p[|at|..]);
      ListedAreCopied(source, at, x, d, todo);
      ok := CopyListed(source, todo);
    }

    method CopyListed(source: Tree, listed: set<Path>) returns (ok: bool)
      requires Valid() && listed <= source.files.Keys && forall p :: p in listed ==> p != [] && Parent(p) in tree.dirs
      modifies this
      ensures Valid() && tree.dirs == old(tree).dirs && FilesAppear(old(tree), tree, listed)
      ensures ok <==> forall p :: p in listed ==> !TwiceBlocked(old(tree), p)
      ensures listed !! old(tree).dirs ==> ok && tree == CopyState(source, old(tree), {}, listed)
    {
      var todo := listed;
      ghost var was := tree;
      CopiedSomeStart(source, was, listed);
      while todo != {}
        invariant Valid() && todo <= listed && CopiedSome(source, was, tree, listed, listed - todo)
      {
        var p :| p in todo;
        ghost var before := tree;
        ok := CopyFile(source, p);
        if !ok {
          return;
        }
        CopiedOneMore(source, was, before, tree, listed, listed - todo, p);
        assert listed - (todo - {p}) == listed - todo + {p};
        todo := todo - {p};
      }
      assert listed - todo == listed;
      return true;
    }

    /** One turn of the copy walk: make the directory, then copy its files. */
    method VisitDirectory(source: Tree, at: Path, x: Rules, d: Path, ghost was: Tree) returns (ok: bool)
      requires Valid() && WellFormed(source) && at in tree.dirs && Extends(source, at, x, was, tree)
      requires Visits(source, at, x, d) && Prefixes(d) <= tree.dirs + {d} && d in Prefixes(d)
      modifies this
      ensures Valid() && Extends(source, at, x, was, tree) && old(tree).dirs <= tree.dirs
      ensures if ok then d in tree.dirs && forall p :: p in CopiesIn(source, at, x, {d}) ==> !TwiceBlocked(was, p)
              else !CanCopy(source, at, x, was)
      ensures var made := old(tree).(dirs := old(tree).dirs + Prefixes(d));
        ok && CopiesIn(source, at, x, {d}) !! made.dirs ==> tree == CopyState(source, made, {}, CopiesIn(source, at, x, {d}))
    {
      ghost var before := tree;
      ok := MakeDirectory(d);
      if !ok {
        ghost var e :| e in Prefixes(d) && e in before.files;
        InTheWayFromTheStart(source, at, x, was, before, d, e);
        return;
      }
      ghost var made := tree;
      ok := CopyFiles(source, at, x, d);
      ExtendsMore(source, at, x, was, before, d, made, made);
      ExtendsMore(source, at, x, was, before, d, made, tree);
      BlockedAlike(source, at, x, was, made, CopiesIn(source, at, x, {d}));
    }

    /** `_walk_sync`: directories in any order that visits a directory before those in it. */
    method WalkSync(source: Tree, at: Path, x: Rules) returns (ok: bool)
      requires Valid() && WellFormed(source) && at in source.dirs && at in tree.dirs
      modifies this
      ensures Valid()
      ensures NoClash(source, at, x, old(tree)) ==> ok && tree == Copied(source, at, x, old(tree))
      ensures Extends(source, at, x, old(tree), tree)
      ensures ok <==> CanCopy(source, at, x, old(tree))
      ensures ok ==> forall d :: Visits(source, at, x, d) ==> d in tree.dirs
    {
      ghost var was := tree;
      var pending := {at};
      ghost var done: set<Path> := {};
      PrefixesAreDirs(tree, at);
      ghost var clean := NoClash(source, at, x, was);
      while pending != {}
        invariant Valid() && Frontier(source, at, x, done, pending) && done + {at} <= tree.dirs
        invariant Extends(source, at, x, was, tree)
        invariant forall p :: p in CopiesIn(source, at, x, done) ==> !TwiceBlocked(was, p)
        invariant clean ==> tree == CopyState(source, was, done, CopiesIn(source, at, x, done))
        decreases source.dirs - done
      {
        var d :| d in pending;
        // A directory that is excluded itself never gets here: it was dropped from its parent's list.
        var subdirectories := set c | c in source.dirs && c != [] && Parent(c) == d && !IsExcluded(x, c[|at|..]);
        FrontierMoves(source, at, x, done, pending, d, subdirectories);
        PrefixesOfNext(tree, at, d);
        if clean {
          CopyStep(source, at, x, was, done, d);
          CleanStep(source, at, x, was, tree, d);
        }
        ok := VisitDirectory(source, at, x, d, was);
        if !ok {
          if clean {
            CleanCanCopy(source, at, x, was);
          }
          return;
        }
        pending := pending - {d} + subdirectories;
        done := done + {d};
      }
      AllCopied(source, at, x, was, done);
      WalkEnds(source, at, x, was, tree, done);
      return true;
    }

    /** The files of one directory that the source no longer has. */
    method DeleteFiles(source: Tree, at: Path, x: Rules, d: Path)
      requires Valid() && d in tree.dirs && at <= d
      modifies this
      ensures Valid() && tree.dirs == old(tree).dirs
      ensures tree.files == map p | p in old(tree).files && !(Parent(p) == d && Doomed(source, at, x, p)) :: old(tree).files[p]
    {
      var todo := set p | p in tree.files && Parent(p) == d && !DeleteExcluded(x, p[|at|..])
                          && p !in source.files && p !in source.dirs;
      ghost var all := todo;
      while todo != {}
        invariant Valid() && tree.dirs == old(tree).dirs && todo <= all
        invariant tree.files == map p | p in old(tree).files && p !in all - todo :: old(tree).files[p]
      {
        var p :| p in todo;
        tree := tree.(files := tree.files - {p});
        todo := todo - {p};
      }
    }

    /** `_walk_delete`: directories in any order that visits a directory after those beneath it. */
    method WalkDelete(source: Tree, at: Path, x: Rules)
      requires Valid()
      modifies this
      ensures Valid() && tree == Pruned(source, at, x, old(tree))
    {
      ghost var was := tree;
      var pending := Beneath(tree, at);
      ghost var all := pending;
      while pending != {}
        invariant pending <= all && all == Beneath(was, at) && Valid()
        invariant forall d, e :: d in all - pending && e in all && Above(d, e) ==> e !in pending
        invariant pending <= tree.dirs
        invariant tree == PruneState(source, at, x, was, all - pending)
      {
        DeepestExists(pending);
        var d :| d in pending && forall e :: e in pending ==> !Above(d, e);
        ghost var done := all - pending;
        assert all - (pending - {d}) == done + {d};
        pending := pending - {d};
        DeleteFiles(source, at, x, d);
        PruneStep(source, at, x, was, done, d, tree);
        var rel := d[|at|..];
        if rel != [] && !IsExcluded(x, rel) && d !in source.files && d !in source.dirs && !HasEntries(tree, d) {
          RemovingEmptyKeepsForm(tree, d);
          tree := tree.(dirs := tree.dirs - {d});
        }
      }
    }

    /** `sync_directory`; fails when the source is not a directory, or a file or a directory is in the way. */
    method SyncDirectory(source: Tree, at: Path, x: Rules, delete: bool) returns (ok: bool)
      requires Valid() && WellFormed(source)
      modifies this
      ensures Valid()
      ensures at !in source.dirs ==> !ok && tree == old(tree)
      ensures at in source.dirs && NoClash(source, at, x, old(tree)) ==> ok && tree == Synced(source, at, x, delete, old(tree))
      ensures at in source.dirs ==> (ok <==> CanCopy(source, at, x, old(tree)))
      ensures ok ==> forall d :: Visits(source, at, x, d) ==> d in tree.dirs
      ensures forall d :: d in old(tree).dirs && Exists(source, d) ==> d in tree.dirs
      ensures forall d :: d in tree.dirs ==> d in old(tree).dirs || Visits(source, at, x, d) || d in Prefixes(at)
    {
      if at !in source.dirs {
        return false;
      }
      ok := MakeDirectory(at);
      if !ok {
        return;
      }
      CopiedAfterMkdir(source, at, x, old(tree));
      assert at[..|at|] == at;
      ok := WalkSync(source, at, x);
      if ok && delete {
        WalkDelete(source, at, x);
      }
    }
  }
}
