/**
 The file tree below an installation root, and the primitive durable steps that change it.

 A path is the sequence of its components, so `config/a.json` is `["config", "a.json"]` and the root
 itself is `[]`.  Every step either happens completely or raises and leaves the tree alone.
 */
module Trees {

  type Path = seq<string>
  type Bytes = string

  datatype File = File(content: Bytes, mode: nat)

  datatype Tree = Tree(files: map<Path, File>, dirs: set<Path>)

  /** `d` is a proper ancestor of `p`. */
  predicate Above(d: Path, p: Path) {
    |d| < |p| && p[..|d|] == d
  }

  function Parent(p: Path): Path
    requires p != []
  {
    p[..|p| - 1]
  }

  /** What a real file system guarantees: parents are directories and no path is both kinds. */
  ghost predicate WellFormed(t: Tree) {
    && [] in t.dirs
    && (forall d :: d in t.dirs && d != [] ==> Parent(d) in t.dirs)
    && (forall p :: p in t.files ==> p != [] && p !in t.dirs && Parent(p) in t.dirs)
  }

  ghost predicate Exists(t: Tree, p: Path) {
    p in t.files || p in t.dirs
  }

  predicate HasEntries(t: Tree, d: Path) {
    || (exists p :: p in t.files && p != [] && Parent(p) == d)
    || (exists p :: p in t.dirs && p != [] && Parent(p) == d)
  }

  /** Looking the path up does not run into a regular file on the way; otherwise `lstat` raises. */
  predicate Resolves(t: Tree, p: Path) {
    forall k :: 0 <= k < |p| ==> p[..k] !in t.files
  }

  datatype Op =
    | Mkdir(dir: Path)            // mkdir(exist_ok=True) of one level
    | Put(path: Path, file: File) // os.replace of a finished temporary file
    | Del(path: Path)             // unlink(missing_ok=True)
    | Rmdir(dir: Path)            // rmdir guarded by is_dir and emptiness

  /** The operating system accepts the step; otherwise it raises and nothing changes. */
  predicate Enabled(t: Tree, op: Op) {
    match op
    case Mkdir(d) => d != [] && d !in t.files && Parent(d) in t.dirs
    case Put(p, _) => p != [] && p !in t.dirs && Parent(p) in t.dirs
    case Del(p) => p !in t.dirs && Resolves(t, p)
    case Rmdir(d) => Resolves(t, d)
  }

  function Step(t: Tree, op: Op): Tree
    requires Enabled(t, op)
  {
    match op
    case Mkdir(d) => t.(dirs := t.dirs + {d})
    case Put(p, f) => t.(files := t.files[p := f])
    case Del(p) => t.(files := t.files - {p})
    case Rmdir(d) => if d != [] && d in t.dirs && !HasEntries(t, d) then t.(dirs := t.dirs - {d}) else t
  }

  /** Run steps in order and stop at the first one that raises. */
  function Run(t: Tree, ops: seq<Op>): Tree
    decreases |ops|
  {
    if ops == [] || !Enabled(t, ops[0]) then t else Run(Step(t, ops[0]), ops[1..])
  }

  predicate Completes(t: Tree, ops: seq<Op>)
    decreases |ops|
  {
    ops == [] || (Enabled(t, ops[0]) && Completes(Step(t, ops[0]), ops[1..]))
  }

  lemma {:induction false} RunAppend(t: Tree, a: seq<Op>, b: seq<Op>)
    requires Completes(t, a)
    ensures Run(t, a + b) == Run(Run(t, a), b)
    ensures Completes(t, a + b) <==> Completes(Run(t, a), b)
    decreases |a|
  {
    if a == [] {
      assert a + b == b;
    } else {
      assert (a + b)[1..] == a[1..] + b;
      RunAppend(Step(t, a[0]), a[1..], b);
    }
  }

  /** Writing one file durably: create each missing ancestor, outermost first, then replace. */
  function Mkdirs(p: Path, k: nat): seq<Op>
    requires k <= |p|
    decreases |p| - k
  {
    if |p| <= k + 1 then [] else [Mkdir(p[..k + 1])] + Mkdirs(p, k + 1)
  }

  function AtomicOps(p: Path, f: File): seq<Op> {
    Mkdirs(p, 0) + [Put(p, f)]
  }

  lemma {:induction false} MkdirsAbove(p: Path, k: nat)
    requires k <= |p|
    ensures forall op :: op in Mkdirs(p, k) ==> op.Mkdir? && op.dir != [] && Above(op.dir, p)
    decreases |p| - k
  {
    if |p| > k + 1 {
      MkdirsAbove(p, k + 1);
      assert Above(p[..k + 1], p);
    }
  }

  /** In a well-formed tree all ancestors of something that exists are directories. */
  lemma {:induction false} AncestorsAreDirs(t: Tree, p: Path, k: nat)
    requires WellFormed(t) && Exists(t, p) && k < |p|
    ensures p[..k] in t.dirs
    decreases |p|
  {
    assert Parent(p) in t.dirs;
    if k < |p| - 1 {
      AncestorsAreDirs(t, Parent(p), k);
      assert Parent(p)[..k] == p[..k];
    }
  }
}
