/**
 An installation root with its transaction journals: `commit`, `_restore`, `recover` and `_prune` as they
 change it in place, with the power failing after any durable step.
 */
module Installations {
  import opened Options
  import opened Collections
  import opened Trees
  import opened Transactions
  import opened UndoOrder

  datatype JournalState = Applying | Committed | RolledBack

  datatype Journal = Journal(state: JournalState, entries: seq<Entry>, createdDirs: seq<Path>)

  /** One directory below `.kemo-deploy/transactions`. */
  datatype Tx = Tx(backup: map<Path, File>, journal: Option<Journal>)

  predicate InState(tx: Tx, state: JournalState) {
    tx.journal.Some? && tx.journal.value.state == state
  }

  function WithState(tx: Tx, state: JournalState): Tx
    requires tx.journal.Some?
  {
    tx.(journal := Some(tx.journal.value.(state := state)))
  }

  function ApplyingIds(txs: map<nat, Tx>): set<nat> {
    set id | id in txs && InState(txs[id], Applying)
  }

  function CommittedIds(txs: map<nat, Tx>): set<nat> {
    set id | id in txs && InState(txs[id], Committed)
  }

  function NewerIn(s: set<nat>, id: nat): set<nat> {
    set x | x in s && x > id
  }

  /** Taking the only unfinished journal to another state leaves none unfinished. */
  lemma FlipsOne(txs: map<nat, Tx>, id: nat, state: JournalState)
    requires ApplyingIds(txs) == {id} && id in txs && state != Applying
    ensures txs[id].journal.Some?
    ensures var now := txs[id := WithState(txs[id], state)];
      && ApplyingIds(now) == {} && now.Keys == txs.Keys
      && (state == RolledBack ==> CommittedIds(now) == CommittedIds(txs))
  {
    assert id in ApplyingIds(txs);
    var now := txs[id := WithState(txs[id], state)];
    assert forall x :: x in ApplyingIds(now) ==> x in ApplyingIds(txs) && x != id;
  }

  lemma NoneApplyingAfter(txs: map<nat, Tx>, id: nat)
    requires id in txs && txs[id].journal.Some? && forall i :: i in ApplyingIds(txs) ==> i == id
    ensures ApplyingIds(txs[id := WithState(txs[id], RolledBack)]) == {}
    ensures ApplyingIds(txs[id := WithState(txs[id], Committed)]) == {}
    ensures id in CommittedIds(txs[id := WithState(txs[id], Committed)])
  {
    var a, b := txs[id := WithState(txs[id], RolledBack)], txs[id := WithState(txs[id], Committed)];
    assert forall x :: x in ApplyingIds(a) ==> x in ApplyingIds(txs) && x != id;
    assert forall x :: x in ApplyingIds(b) ==> x in ApplyingIds(txs) && x != id;
  }

  /** The journal and the backups of `tx` describe the tree `pre`. */
  ghost predicate Sound(digest: Bytes -> Digest, pre: Tree, tx: Tx) {
    && tx.journal.Some?
    && FaithfulEntries(pre, tx.journal.value.entries, tx.backup)
    && (forall e :: e in tx.journal.value.entries && e.existed ==>
          digest(tx.backup[e.name].content) == e.sha256)
    && (forall d :: d in tx.journal.value.createdDirs <==>
          d in MissingDirs(pre, EntryNames(tx.journal.value.entries)))
  }

  ghost function NamesIn(tx: Tx): set<Path>
    requires tx.journal.Some?
  {
    EntryNames(tx.journal.value.entries)
  }

  /** The disk stands for the tree `t`: it is that tree, or one recovery away from it. */
  ghost predicate StandsFor(digest: Bytes -> Digest, txs: map<nat, Tx>, tree: Tree, t: Tree) {
    && WellFormed(t)
    && (ApplyingIds(txs) == {} ==> tree == t)
    && (forall i, j :: i in ApplyingIds(txs) && j in ApplyingIds(txs) ==> i == j)
    && (forall i :: i in ApplyingIds(txs) ==> Sound(digest, t, txs[i]) && Between(t, NamesIn(txs[i]), tree))
  }

  /** How a piece of work ended: finished, refused by the tree, failed in the operating system, or cut off. */
  datatype Signal = Done | Raised | Failed | Lost

  /** An exception that surfaces after the journal flip took effect, but before `commit` has left its `try` block. */
  datatype Fault = NoFault | AfterFlip

  /** `Aborted` and `UndoBroken` are operating-system errors before the first write and inside the rollback. */
  datatype Ending = Success | Rejected | Aborted | Undone | UndoRefused | UndoBroken | PowerLost

  const RECORD: Path := [".kemo-install.json"]

  /** `commit` always writes the installation record last, readable by the owner only. */
  function WithRecord(changes: seq<Change>, record: Bytes): seq<Change> {
    changes + [Change(RECORD, Some(record), 384)]
  }

  method ListOf(ds: set<Path>) returns (r: seq<Path>)
    ensures forall d :: d in r <==> d in ds
  {
    r := [];
    var rest := ds;
    while rest != {}
      invariant rest <= ds && forall d :: d in r <==> d in ds && d !in rest
      decreases |rest|
    {
      var d :| d in rest;
      r, rest := r + [d], rest - {d};
    }
  }

  method Least(s: set<nat>) returns (m: nat)
    requires s != {}
    ensures m in s && forall x :: x in s ==> m <= x
  {
    m :| m in s;
    var rest := s - {m};
    while rest != {}
      invariant m in s && m !in rest && rest <= s && forall x :: x in s && x !in rest ==> m <= x
      decreases |rest|
    {
      var x :| x in rest;
      rest := rest - {x};
      m := if x < m then x else m;
    }
  }

  /** `now` is where a run of `ops` from `start` stood after `k` of them, and `s` says why it stopped there. */
  ghost predicate Performed(start: Tree, ops: seq<Op>, s: Signal, k: nat, now: Tree) {
    && k <= |ops|
    && now == Run(start, ops[..k])
    && (s.Done? ==> k == |ops| && Completes(start, ops))
    && (s.Raised? ==> !Completes(start, ops))
  }

  /** The entries, backups and missing directories describe the targets of `changes` in the tree `t`. */
  ghost predicate Described(digest: Bytes -> Digest, t: Tree, changes: seq<Change>, entries: seq<Entry>,
                            backup: map<Path, File>, created: set<Path>) {
    && (forall n :: n in NamesOf(changes) ==> Acceptable(t, n))
    && Matches(entries, changes) && EntryNames(entries) == NamesOf(changes)
    && FaithfulEntries(t, entries, backup)
    && (forall e :: e in entries && e.existed ==> digest(backup[e.name].content) == e.sha256)
    && created == MissingDirs(t, NamesOf(changes))
  }

  function Describe(digest: Bytes -> Digest, t: Tree, c: Change): Entry {
    var file := if c.name in t.files then t.files[c.name] else File("", c.mode);
    Entry(c.name, c.name in t.files, file.mode, digest(file.content))
  }

  lemma DescribedMore(digest: Bytes -> Digest, t: Tree, changes: seq<Change>, entries: seq<Entry>, backup: map<Path, File>,
                      created: set<Path>, c: Change)
    requires Described(digest, t, changes, entries, backup, created) && Acceptable(t, c.name)
    ensures Described(digest, t, changes + [c], entries + [Describe(digest, t, c)],
                      if c.name in t.files then backup[c.name := t.files[c.name]] else backup,
                      created + MissingDirs(t, {c.name}))
  {
    var entry := Describe(digest, t, c);
    NamesAppend(changes, [c]);
    assert NamesOf([c]) == {c.name};
    EntryNamesAppend(entries, [entry]);
    assert EntryNames([entry]) == {c.name};
    assert forall e :: e in entries + [entry] <==> e in entries || e == entry;
    MissingDirsAppend(t, NamesOf(changes), {c.name});
  }

  lemma MissingDirsAppend(t: Tree, a: set<Path>, b: set<Path>)
    ensures MissingDirs(t, a + b) == MissingDirs(t, a) + MissingDirs(t, b)
  {
  }

  lemma PerformedThen(start: Tree, a: seq<Op>, mid: Tree, b: seq<Op>, s: Signal, k: nat, now: Tree)
    requires Performed(start, a, Done, |a|, mid) && Performed(mid, b, s, k, now)
    ensures Performed(start, a + b, s, |a| + k, now)
  {
    assert a[..|a|] == a && (a + b)[..|a| + k] == a + b[..k];
    RunAppend(start, a, b);
    RunAppend(start, a, b[..k]);
  }

  lemma PerformedOnly(start: Tree, a: seq<Op>, s: Signal, k: nat, now: Tree, b: seq<Op>)
    requires Performed(start, a, s, k, now) && !s.Done?
    ensures Performed(start, a + b, s, k, now)
  {
    assert (a + b)[..k] == a[..k];
    if s.Raised? {
      NeverCompletes(start, a, b);
    }
  }

  /** The steps that undo the entries from number `i` on, last to first. */
  ghost function OpsFrom(entries: seq<Entry>, backup: map<Path, File>, i: nat): seq<Op>
    requires BackedUp(entries, backup) && i <= |entries|
    decreases |entries| - i
  {
    if i == |entries| then [] else OpsFrom(entries, backup, i + 1) + EntryOps(entries[i], backup)
  }

  ghost predicate UndoneTo(start: Tree, entries: seq<Entry>, backup: map<Path, File>, i: nat, now: Tree)
    requires BackedUp(entries, backup) && i <= |entries|
  {
    Performed(start, OpsFrom(entries, backup, i), Done, |OpsFrom(entries, backup, i)|, now)
  }

  lemma {:induction false} OpsFromAndBefore(entries: seq<Entry>, backup: map<Path, File>, i: nat)
    requires BackedUp(entries, backup) && i <= |entries|
    ensures BackedUp(entries[..i], backup)
    ensures UndoOps(entries, backup) == OpsFrom(entries, backup, i) + UndoOps(entries[..i], backup)
    decreases |entries| - i
  {
    if i == |entries| {
      assert entries[..i] == entries;
    } else {
      OpsFromAndBefore(entries, backup, i + 1);
      assert entries[..i + 1][..i] == entries[..i];
      Regroup(OpsFrom(entries, backup, i + 1), EntryOps(entries[i], backup), UndoOps(entries[..i], backup));
    }
  }

  lemma SplitAt(entries: seq<Entry>, backup: map<Path, File>, i: nat)
    requires BackedUp(entries, backup) && 0 < i <= |entries|
    ensures BackedUp(entries[..i - 1], backup)
    ensures UndoOps(entries, backup) == OpsFrom(entries, backup, i) + EntryOps(entries[i - 1], backup) + UndoOps(entries[..i - 1], backup)
  {
    OpsFromAndBefore(entries, backup, i - 1);
  }

  /** The work stopped while undoing entry number `i - 1`. */
  lemma UndoStopped(start: Tree, entries: seq<Entry>, backup: map<Path, File>, i: nat, mid: Tree, s: Signal, n: nat, now: Tree)
    requires BackedUp(entries, backup) && 0 < i <= |entries| && !s.Done?
    requires UndoneTo(start, entries, backup, i, mid) && Performed(mid, EntryOps(entries[i - 1], backup), s, n, now)
    ensures Performed(start, UndoOps(entries, backup), s, |OpsFrom(entries, backup, i)| + n, now)
  {
    SplitAt(entries, backup, i);
    PerformedInside(start, OpsFrom(entries, backup, i), mid, EntryOps(entries[i - 1], backup), s, n, now,
                    UndoOps(entries[..i - 1], backup), UndoOps(entries, backup));
  }

  lemma ApplySnoc(a: seq<Change>, c: Change)
    ensures ApplyOps(a + [c]) == ApplyOps(a) + ChangeOps(c)
  {
    ApplyOpsAppend(a, [c]);
    assert [c][1..] == [] && ChangeOps(c) + ApplyOps([]) == ChangeOps(c);
  }

  /** The steps before, in and after one change. */
  lemma ApplySplit(a: seq<Change>, c: Change, b: seq<Change>)
    ensures ApplyOps(a + [c] + b) == ApplyOps(a) + ChangeOps(c) + ApplyOps(b)
  {
    ApplySnoc(a, c);
    ApplyOpsAppend(a + [c], b);
  }

  lemma PerformedInside(start: Tree, a: seq<Op>, mid: Tree, b: seq<Op>, s: Signal, k: nat, now: Tree, c: seq<Op>, all: seq<Op>)
    requires Performed(start, a, Done, |a|, mid) && Performed(mid, b, s, k, now) && !s.Done?
    requires all == a + b + c
    ensures Performed(start, all, s, |a| + k, now)
  {
    PerformedThen(start, a, mid, b, s, k, now);
    PerformedOnly(start, a + b, s, |a| + k, now, c);
  }

  /** The changes before number `i` have been applied. */
  ghost predicate AppliedTo(start: Tree, changes: seq<Change>, i: nat, now: Tree)
    requires i <= |changes|
  {
    Performed(start, ApplyOps(changes[..i]), Done, |ApplyOps(changes[..i])|, now)
  }

  lemma AppliedMore(start: Tree, changes: seq<Change>, i: nat, mid: Tree, n: nat, now: Tree)
    requires i < |changes| && AppliedTo(start, changes, i, mid) && Performed(mid, ChangeOps(changes[i]), Done, n, now)
    ensures AppliedTo(start, changes, i + 1, now)
  {
    ApplySnoc(changes[..i], changes[i]);
    assert changes[..i + 1] == changes[..i] + [changes[i]];
    PerformedThen(start, ApplyOps(changes[..i]), mid, ChangeOps(changes[i]), Done, n, now);
  }

  lemma ApplyAround(changes: seq<Change>, i: nat)
    requires i < |changes|
    ensures ApplyOps(changes) == ApplyOps(changes[..i]) + ChangeOps(changes[i]) + ApplyOps(changes[i + 1..])
  {
    Around(changes, i);
    ApplySplit(changes[..i], changes[i], changes[i + 1..]);
  }

  /** The work stopped in change number `i`. */
  lemma ApplyStopped(start: Tree, changes: seq<Change>, i: nat, mid: Tree, s: Signal, n: nat, now: Tree)
    requires i < |changes| && !s.Done? && AppliedTo(start, changes, i, mid) && Performed(mid, ChangeOps(changes[i]), s, n, now)
    ensures Performed(start, ApplyOps(changes), s, |ApplyOps(changes[..i])| + n, now)
  {
    ApplyAround(changes, i);
    PerformedInside(start, ApplyOps(changes[..i]), mid, ChangeOps(changes[i]), s, n, now,
                    ApplyOps(changes[i + 1..]), ApplyOps(changes));
  }

  /** Where a rollback ends, or stops. */
  lemma RestoreStopped(digest: Bytes -> Digest, pre: Tree, tx: Tx, start: Tree, s: Signal, k: nat, now: Tree)
    requires Sound(digest, pre, tx) && Between(pre, NamesIn(tx), start)
    requires Performed(start, RestoreOps(tx.journal.value.entries, tx.backup, tx.journal.value.createdDirs), s, k, now)
    ensures Between(pre, NamesIn(tx), now)
    ensures s.Done? ==> now == pre
    ensures s.Raised? ==> !CanUndo(tx.journal.value.entries, start)
  {
    var entries, created := tx.journal.value.entries, tx.journal.value.createdDirs;
    var all := RestoreOps(entries, tx.backup, created);
    RestoreConfined(pre, NamesIn(tx), entries, tx.backup, created);
    RestoreIsExact(pre, NamesIn(tx), start, entries, tx.backup, created);
    ConfinedRun(pre, NamesIn(tx), start, all[..k]);
    if s.Done? {
      assert all[..k] == all;
    }
  }

  /** After any number of steps of the write loop the rollback can start, and succeeds if the list is undoable. */
  lemma RollbackReady(digest: Bytes -> Digest, pre: Tree, changes: seq<Change>, tx: Tx, k: nat)
    requires Sound(digest, pre, tx) && Matches(tx.journal.value.entries, changes) && WellFormed(pre)
    requires k <= |ApplyOps(changes)| && forall n :: n in NamesOf(changes) ==> Acceptable(pre, n)
    ensures Between(pre, NamesOf(changes), Run(pre, ApplyOps(changes)[..k]))
    ensures Undoable(changes) ==> CanUndo(tx.journal.value.entries, Run(pre, ApplyOps(changes)[..k]))
  {
    CutIsBetween(pre, changes, k);
    if Undoable(changes) {
      AnyCutCanUndo(pre, changes, tx.journal.value.entries, tx.backup, k);
    }
  }

  /** All but the transactions `completed` have been considered for removal, oldest first. */
  ghost predicate Pruning(was: map<nat, Tx>, now: map<nat, Tx>, all: set<nat>, completed: set<nat>) {
    && all == CommittedIds(was) && completed <= all && completed <= CommittedIds(now)
    && (forall id :: id in now ==> id in was && now[id] == was[id])
    && (forall id :: id in was && id !in now ==> id in all && |NewerIn(all, id)| >= 2)
    && (forall a, b :: a in all && a !in completed && b in completed ==> a < b)
  }

  lemma PruneOne(was: map<nat, Tx>, now: map<nat, Tx>, all: set<nat>, completed: set<nat>, oldest: nat)
    requires Pruning(was, now, all, completed) && |completed| > 2
    requires oldest in completed && forall b :: b in completed ==> oldest <= b
    ensures Pruning(was, now, all, completed - {oldest}) && Pruning(was, now - {oldest}, all, completed - {oldest})
    ensures CommittedIds(now) == completed ==> CommittedIds(now - {oldest}) == completed - {oldest}
  {
    assert completed - {oldest} <= NewerIn(all, oldest);
    SubsetSize(completed - {oldest}, NewerIn(all, oldest));
  }

  lemma NewestTwo(all: set<nat>, completed: set<nat>)
    requires |completed| <= 2 && completed <= all
    requires forall a, b :: a in all && a !in completed && b in completed ==> a < b
    ensures forall id :: id in completed ==> |NewerIn(all, id)| < 2
  {
    forall id | id in completed ensures |NewerIn(all, id)| < 2 {
      assert NewerIn(all, id) <= completed - {id};
      SubsetSize(NewerIn(all, id), completed - {id});
    }
  }

  /** What recovery makes of a transaction: an unfinished journal is marked rolled back, and nothing else changes. */
  function Recovered(tx: Tx): Tx {
    match tx.journal
    case Some(Journal(Applying, entries, created)) => Tx(tx.backup, Some(Journal(RolledBack, entries, created)))
    case _ => tx
  }

  /** Every transaction is as it was, if it is unfinished, or as recovery leaves it. */
  ghost predicate RecoveredSoFar(was: map<nat, Tx>, now: map<nat, Tx>) {
    && now.Keys == was.Keys
    && forall x :: x in now ==> now[x] == if x in ApplyingIds(now) then was[x] else Recovered(was[x])
  }

  lemma RecoveredOneMore(was: map<nat, Tx>, now: map<nat, Tx>, id: nat)
    requires RecoveredSoFar(was, now) && id in ApplyingIds(now)
    ensures RecoveredSoFar(was, now[id := WithState(now[id], RolledBack)])
  {
    var next := now[id := WithState(now[id], RolledBack)];
    assert forall x :: x in ApplyingIds(next) <==> x in ApplyingIds(now) && x != id;
  }

  /** The journal is there and says so. */
  predicate Says(txs: map<nat, Tx>, id: nat, state: JournalState) {
    id in txs && txs[id].journal.Some? && txs[id].journal.value.state == state
  }

  /** Of the committed transactions `id` is neither the newest nor the second newest. */
  ghost predicate Superseded(txs: map<nat, Tx>, id: nat) {
    exists a, b :: id < a < b && Says(txs, a, Committed) && Says(txs, b, Committed)
  }

  predicate IsOrSays(txs: map<nat, Tx>, id: nat, x: nat) {
    x == id || Says(txs, x, Committed)
  }

  /** With `id` committed as well, `x` is neither the newest nor the second newest. */
  ghost predicate SupersededWith(txs: map<nat, Tx>, id: nat, x: nat) {
    exists a, b :: x < a < b && IsOrSays(txs, id, a) && IsOrSays(txs, id, b)
  }

  /**
   What a commit does to the transactions: its journal tells how it ended, the others stay as they are, and only a
   success removes some, all of them committed and followed by two newer ones.
   */
  ghost predicate Bookkept(was: map<nat, Tx>, now: map<nat, Tx>, id: nat, outcome: Ending) {
    && (forall x :: x in was && x in now ==> now[x] == was[x])
    && (outcome.Success? ==>
          && (id in now ==> Says(now, id, Committed)) && (id !in now ==> SupersededWith(was, id, id))
          && forall x :: x in was && x !in now ==> Says(was, x, Committed) && SupersededWith(was, id, x))
    && (!outcome.Success? ==> forall x :: x in was ==> x in now)
    && (outcome.Undone? ==> Says(now, id, RolledBack))
    && (outcome.Rejected? || outcome.Aborted? ==> (id in now ==> now[id].journal == None))
  }

  lemma BookkeptByPrune(was: map<nat, Tx>, mid: map<nat, Tx>, now: map<nat, Tx>, id: nat)
    requires id !in was && Says(mid, id, Committed) && mid - {id} == was
    requires forall x :: x in now ==> x in mid && now[x] == mid[x]
    requires forall x :: x in mid && x !in now ==> Says(mid, x, Committed) && Superseded(mid, x)
    ensures Bookkept(was, now, id, Success)
  {
    OthersAlike(was, mid, id);
    forall x | x in mid && x !in now ensures SupersededWith(was, id, x) {
      SupersededCarries(was, mid, id, x);
    }
  }

  lemma OthersAlike(was: map<nat, Tx>, mid: map<nat, Tx>, id: nat)
    requires id !in was && mid - {id} == was
    ensures forall x :: x in was ==> x in mid && mid[x] == was[x]
    ensures forall x :: x in mid && x != id ==> x in was && mid[x] == was[x]
  {
    assert forall x :: x in (mid - {id}) <==> x in mid && x != id;
  }

  lemma SupersededCarries(was: map<nat, Tx>, mid: map<nat, Tx>, id: nat, x: nat)
    requires forall y :: y in mid && y != id ==> y in was && mid[y] == was[y]
    requires Superseded(mid, x)
    ensures SupersededWith(was, id, x)
  {
    var a, b :| x < a < b && Says(mid, a, Committed) && Says(mid, b, Committed);
    assert IsOrSays(was, id, a) && IsOrSays(was, id, b);
  }

  lemma BookkeptWithout(was: map<nat, Tx>, now: map<nat, Tx>, id: nat, outcome: Ending)
    requires id !in was && now - {id} == was && !outcome.Success?
    requires outcome.Undone? ==> Says(now, id, RolledBack)
    requires outcome.Rejected? || outcome.Aborted? ==> (id in now ==> now[id].journal == None)
    ensures Bookkept(was, now, id, outcome)
  {
    forall x | x in was ensures x in now && now[x] == was[x] {
      assert x in (now - {id});
    }
  }

  lemma SupersededIff(txs: map<nat, Tx>, id: nat)
    ensures Superseded(txs, id) <==> |NewerIn(CommittedIds(txs), id)| >= 2
  {
    var newer := NewerIn(CommittedIds(txs), id);
    if Superseded(txs, id) {
      var a, b :| id < a < b && Says(txs, a, Committed) && Says(txs, b, Committed);
      assert {a, b} <= newer && |{a, b}| == 2;
      SubsetSize({a, b}, newer);
    }
    if |newer| >= 2 {
      var x :| x in newer;
      assert |newer - {x}| >= 1;
      var y :| y in newer - {x};
      assert Says(txs, x, Committed) && Says(txs, y, Committed);
      assert x < y || y < x;
    }
  }

  /** Removing superseded transactions leaves the two newest committed ones. */
  lemma StillSuperseded(was: map<nat, Tx>, now: map<nat, Tx>, id: nat)
    requires forall x :: x in now ==> x in was && now[x] == was[x]
    requires !Superseded(was, id)
    ensures !Superseded(now, id)
  {
    if Superseded(now, id) {
      var a, b :| id < a < b && Says(now, a, Committed) && Says(now, b, Committed);
      assert Says(was, a, Committed) && Says(was, b, Committed);
    }
  }

  /** Work is cut off only when the power is used up, and fails only when an error was due. */
  predicate Undisturbed(s: Signal, before: seq<nat>, after: seq<nat>, power: nat) {
    && (s.Lost? ==> power == 0)
    && (before == [] ==> after == [] && !s.Failed?)
  }

  class Installation {
    const digest: Bytes -> Digest
    var tree: Tree
    var txs: map<nat, Tx>
    var power: nat        // durable steps left before the power fails
    var errors: seq<nat>  // durable steps left before each next operating-system error or other exception

    constructor (digest: Bytes -> Digest, tree: Tree, power: nat, errors: seq<nat>)
      requires WellFormed(tree)
      ensures this.digest == digest && this.tree == tree && this.power == power && this.errors == errors
      ensures StandsFor(digest, txs, tree, tree)
    {
      this.digest, this.tree, this.txs, this.power, this.errors := digest, tree, map[], power, errors;
    }

    /** Whether the next durable step takes place. */
    method Tick() returns (s: Signal)
      modifies this`power, this`errors
      ensures !s.Raised? && Undisturbed(s, old(errors), errors, power)
    {
      if power == 0 {
        return Lost;
      }
      if errors != [] && errors[0] == 0 {
        errors := errors[1..];
        return Failed;
      }
      power := power - 1;
      errors := if errors == [] then [] else [errors[0] - 1] + errors[1..];
      return Done;
    }

    /** Durable steps on the tree, in order, until one is refused or fails, or the power goes. */
    method Perform(ops: seq<Op>) returns (s: Signal, ghost k: nat)
      modifies this`tree, this`power, this`errors
      ensures Performed(old(tree), ops, s, k, tree)
      ensures Undisturbed(s, old(errors), errors, power)
    {
      var i := 0;
      assert ops[..0] == [];
      while i < |ops|
        invariant i <= |ops| && Performed(old(tree), ops[..i], Done, i, tree)
        invariant old(errors) == [] ==> errors == []
      {
        assert ops[..i + 1] == ops[..i] + [ops[i]] && ops == ops[..i + 1] + ops[i + 1..];
        assert [ops[i]][1..] == [];
        if !Enabled(tree, ops[i]) {
          assert ops[..i][..i] == ops[..i];
          RunAppend(old(tree), ops[..i], [ops[i]]);
          NeverCompletes(old(tree), ops[..i + 1], ops[i + 1..]);
          return Raised, i;
        }
        s := Tick();
        if !s.Done? {
          assert ops[..i][..i] == ops[..i];
          return s, i;
        }
        ghost var mid := tree;
        tree := Step(tree, ops[i]);
        PerformedThen(old(tree), ops[..i], mid, [ops[i]], Done, 1, tree);
        i := i + 1;
      }
      assert ops[..i] == ops;
      return Done, i;
    }

    /** `atomic` on the journal of transaction `id`. */
    method WriteTx(id: nat, tx: Tx) returns (s: Signal)
      modifies this`txs, this`power, this`errors
      ensures !s.Raised?
      ensures txs == if s.Done? then old(txs)[id := tx] else old(txs)
      ensures Undisturbed(s, old(errors), errors, power)
    {
      s := Tick();
      if s.Done? {
        txs := txs[id := tx];
      }
    }

    method UndoEntry(e: Entry, backup: map<Path, File>) returns (s: Signal, ghost k: nat)
      requires e.existed ==> e.name in backup && digest(backup[e.name].content) == e.sha256
      modifies this`tree, this`power, this`errors
      ensures Performed(old(tree), EntryOps(e, backup), s, k, tree)
      ensures Undisturbed(s, old(errors), errors, power)
    {
      if e.existed {
        var content := backup[e.name].content;
        if digest(content) != e.sha256 {
          assert false;
        }
        s, k := Perform(AtomicOps(e.name, File(content, e.mode)));
      } else {
        s, k := Perform([Del(e.name)]);
      }
    }

    /** The first loop of `_restore`: the recorded files, last to first. */
    method UndoEntries(entries: seq<Entry>, backup: map<Path, File>) returns (s: Signal, ghost k: nat)
      requires BackedUp(entries, backup)
      requires forall e :: e in entries && e.existed ==> digest(backup[e.name].content) == e.sha256
      modifies this`tree, this`power, this`errors
      ensures Performed(old(tree), UndoOps(entries, backup), s, k, tree)
      ensures Undisturbed(s, old(errors), errors, power)
    {
      var i := |entries|;
      while i > 0
        invariant 0 <= i <= |entries|
        invariant UndoneTo(old(tree), entries, backup, i, tree)
        invariant old(errors) == [] ==> errors == []
      {
        ghost var mid, n := tree, 0;
        s, n := UndoEntry(entries[i - 1], backup);
        if !s.Done? {
          UndoStopped(old(tree), entries, backup, i, mid, s, n, tree);
          return s, |OpsFrom(entries, backup, i)| + n;
        }
        PerformedThen(old(tree), OpsFrom(entries, backup, i), mid, EntryOps(entries[i - 1], backup), s, n, tree);
        i := i - 1;
      }
      OpsFromAndBefore(entries, backup, 0);
      assert entries[..0] == [] && OpsFrom(entries, backup, 0) + [] == OpsFrom(entries, backup, 0);
      return Done, |UndoOps(entries, backup)|;
    }

    /** The second loop of `_restore`: the directories that are new and empty again, deepest first. */
    method RemoveDirs(dirs: seq<Path>) returns (s: Signal, ghost k: nat)
      modifies this`tree, this`power, this`errors
      ensures Performed(old(tree), RmdirOps(dirs), s, k, tree)
      ensures Undisturbed(s, old(errors), errors, power)
    {
      var i := 0;
      s, k := Done, 0;
      ghost var done: seq<Op> := [];
      assert dirs[i..] == dirs;
      while i < |dirs|
        invariant 0 <= i <= |dirs| && s.Done? && k == |done|
        invariant Performed(old(tree), done, Done, k, tree)
        invariant RmdirOps(dirs) == done + RmdirOps(dirs[i..])
        invariant old(errors) == [] ==> errors == []
      {
        ghost var mid, ops, n := tree, [Rmdir(dirs[i])], 0;
        ghost var later := RmdirOps(dirs[i + 1..]);
        assert dirs[i..][1..] == dirs[i + 1..];
        assert RmdirOps(dirs) == done + ops + later;
        s, n := Perform([Rmdir(dirs[i])]);
        PerformedThen(old(tree), done, mid, ops, s, n, tree);
        k := k + n;
        if !s.Done? {
          PerformedOnly(old(tree), done + ops, s, k, tree, later);
          return;
        }
        done := done + ops;
        i := i + 1;
      }
      assert done + [] == done;
    }

    /** Put the tree back as the journal of `id` describes it, then mark the journal rolled back. */
    method Restore(id: nat, ghost pre: Tree) returns (s: Signal)
      requires id in txs && Sound(digest, pre, txs[id]) && Between(pre, NamesIn(txs[id]), tree)
      modifies this`tree, this`txs, this`power, this`errors
      ensures s.Done? ==> tree == pre && txs == old(txs)[id := WithState(old(txs)[id], RolledBack)]
      ensures !s.Done? ==> txs == old(txs) && Between(pre, NamesIn(txs[id]), tree)
      ensures s.Raised? ==> !CanUndo(old(txs)[id].journal.value.entries, old(tree))
      ensures Undisturbed(s, old(errors), errors, power)
    {
      var tx := txs[id];
      var entries, created := tx.journal.value.entries, tx.journal.value.createdDirs;
      ghost var start, k := tree, 0;
      s, k := RestoreTree(entries, tx.backup, created);
      RestoreStopped(digest, pre, tx, start, s, k, tree);
      if s.Done? {
        s := WriteTx(id, WithState(tx, RolledBack));
      }
    }

    /** The two loops of `_restore`. */
    method RestoreTree(entries: seq<Entry>, backup: map<Path, File>, created: seq<Path>) returns (s: Signal, ghost k: nat)
      requires BackedUp(entries, backup)
      requires forall e :: e in entries && e.existed ==> digest(backup[e.name].content) == e.sha256
      modifies this`tree, this`power, this`errors
      ensures Performed(old(tree), RestoreOps(entries, backup, created), s, k, tree)
      ensures Undisturbed(s, old(errors), errors, power)
    {
      ghost var start, n := tree, 0;
      ghost var undo, rmdirs := UndoOps(entries, backup), RmdirOps(SortByDepth(created));
      s, k := UndoEntries(entries, backup);
      if s.Done? {
        ghost var mid := tree;
        s, n := RemoveDirs(SortByDepth(created));
        PerformedThen(start, undo, mid, rmdirs, s, n, tree);
        k := k + n;
      } else {
        PerformedOnly(start, undo, s, k, tree, rmdirs);
      }
    }

    /** Undo every transaction whose journal still says `applying`, oldest first. */
    method Recover(ghost pre: Tree) returns (s: Signal, count: nat)
      requires StandsFor(digest, txs, tree, pre)
      modifies this`tree, this`txs, this`power, this`errors
      ensures StandsFor(digest, txs, tree, pre)
      ensures txs.Keys == old(txs).Keys && CommittedIds(txs) == CommittedIds(old(txs))
      ensures s.Done? ==> tree == pre && ApplyingIds(txs) == {} && count == |ApplyingIds(old(txs))|
      ensures s.Done? ==> forall id :: id in txs ==> txs[id] == Recovered(old(txs)[id])
      ensures s.Raised? ==>
        exists id :: id in ApplyingIds(old(txs)) && !CanUndo(old(txs)[id].journal.value.entries, old(tree))
      ensures Undisturbed(s, old(errors), errors, power)
    {
      s, count := Done, 0;
      var rest := txs.Keys;
      while rest != {}
        invariant rest <= txs.Keys && s.Done?
        invariant txs.Keys == old(txs).Keys && CommittedIds(txs) == CommittedIds(old(txs))
        invariant StandsFor(digest, txs, tree, pre) && ApplyingIds(txs) <= rest
        invariant (txs == old(txs) && tree == old(tree)) || ApplyingIds(txs) == {}
        invariant ApplyingIds(old(txs)) == ApplyingIds(txs) ==> count == 0
        invariant ApplyingIds(txs) == {} ==> count == |ApplyingIds(old(txs))|
        invariant RecoveredSoFar(old(txs), txs)
        invariant old(errors) == [] ==> errors == []
        decreases |rest|
      {
        var id := Least(rest);
        if InState(txs[id], Applying) {
          assert id in ApplyingIds(txs);
          assert ApplyingIds(txs) == {id};
          FlipsOne(txs, id, RolledBack);
          RecoveredOneMore(old(txs), txs, id);
          s := Restore(id, pre);
          if !s.Done? {
            return;
          }
          count := count + 1;
        }
        rest := rest - {id};
      }
    }

    /** Describe and back up every target before any of them is touched. */
    method Prepare(id: nat, changes: seq<Change>) returns (s: Signal, entries: seq<Entry>, created: set<Path>)
      requires WellFormed(tree) && id !in txs
      modifies this`txs, this`power, this`errors
      ensures txs - {id} == old(txs) && (id in txs ==> txs[id].journal.None?)
      ensures s.Raised? ==> exists n :: n in NamesOf(changes) && !Acceptable(tree, n)
      ensures s.Done? ==> id in txs && Described(digest, tree, changes, entries, txs[id].backup, created)
      ensures Undisturbed(s, old(errors), errors, power)
    {
      entries, created := [], {};
      s := WriteTx(id, Tx(map[], None));
      var i := 0;
      while i < |changes| && s.Done?
        invariant i <= |changes| && !s.Raised? && Undisturbed(s, old(errors), errors, power)
        invariant txs - {id} == old(txs) && (id in txs ==> txs[id].journal.None?)
        invariant s.Done? ==>
          id in txs && Described(digest, tree, changes[..i], entries, txs[id].backup, created)
      {
        var c := changes[i];
        assert changes[..i + 1] == changes[..i] + [c] && c.name in NamesOf(changes);
        if !Acceptable(tree, c.name) {
          return Raised, entries, created;
        }
        DescribedMore(digest, tree, changes[..i], entries, txs[id].backup, created, c);
        created := created + MissingDirs(tree, {c.name});
        var exists_ := c.name in tree.files;
        var file := if exists_ then tree.files[c.name] else File("", c.mode);
        entries := entries + [Entry(c.name, exists_, file.mode, digest(file.content))];
        if exists_ {
          s := WriteTx(id, txs[id].(backup := txs[id].backup[c.name := file]));
        }
        i := i + 1;
      }
      assert changes[..|changes|] == changes;
    }

    method ApplyOne(c: Change) returns (s: Signal, ghost k: nat)
      modifies this`tree, this`power, this`errors
      ensures Performed(old(tree), ChangeOps(c), s, k, tree)
      ensures Undisturbed(s, old(errors), errors, power)
    {
      if c.content.None? {
        s, k := Perform([Del(c.name)]);
      } else {
        s, k := Perform(AtomicOps(c.name, File(c.content.value, c.mode)));
      }
    }

    /** The write loop of `commit`. */
    method ApplyAll(changes: seq<Change>) returns (s: Signal, ghost k: nat)
      modifies this`tree, this`power, this`errors
      ensures Performed(old(tree), ApplyOps(changes), s, k, tree)
      ensures Undisturbed(s, old(errors), errors, power)
    {
      var i := 0;
      assert changes[..0] == [];
      while i < |changes|
        invariant i <= |changes| && AppliedTo(old(tree), changes, i, tree)
        invariant old(errors) == [] ==> errors == []
      {
        ghost var mid, n := tree, 0;
        s, n := ApplyOne(changes[i]);
        if !s.Done? {
          ApplyStopped(old(tree), changes, i, mid, s, n, tree);
          return s, |ApplyOps(changes[..i])| + n;
        }
        AppliedMore(old(tree), changes, i, mid, n, tree);
        i := i + 1;
      }
      assert changes[..i] == changes;
      return Done, |ApplyOps(changes)|;
    }

    /** `_prune`: drop all but the two newest finished transactions; one that cannot be removed is left. */
    method Prune() returns (s: Signal)
      modifies this`txs, this`power, this`errors
      ensures forall id :: id in txs ==> id in old(txs) && txs[id] == old(txs)[id]
      ensures forall id :: id in old(txs) && id !in txs ==>
        id in CommittedIds(old(txs)) && |NewerIn(CommittedIds(old(txs)), id)| >= 2
      ensures s.Done? ==> forall id :: id in CommittedIds(txs) ==> |NewerIn(CommittedIds(old(txs)), id)| < 2
      // in other words
      ensures forall id :: id in old(txs) && id !in txs ==> Says(old(txs), id, Committed) && Superseded(old(txs), id)
      ensures s.Done? ==> forall id :: Says(txs, id, Committed) ==> !Superseded(txs, id)
      ensures !s.Raised? && (s.Lost? ==> power == 0) && (old(errors) == [] ==> !s.Failed?)
    {
      ghost var all := CommittedIds(txs);
      var completed := CommittedIds(txs);
      s := Done;
      while |completed| > 2
        invariant !s.Lost? && !s.Raised? && Pruning(old(txs), txs, all, completed)
        invariant s.Done? ==> CommittedIds(txs) == completed
        invariant old(errors) == [] ==> errors == [] && !s.Failed?
        decreases |completed|
      {
        var oldest := Least(completed);
        PruneOne(old(txs), txs, all, completed, oldest);
        var tick := Tick();
        if tick.Lost? {
          PrunedAreSuperseded(old(txs), txs);
          return Lost;
        }
        if tick.Done? {
          txs := txs - {oldest};
        } else {
          s := Failed;
        }
        completed := completed - {oldest};
      }
      NewestTwo(all, completed);
      PrunedAreSuperseded(old(txs), txs);
    }

    static lemma PrunedAreSuperseded(was: map<nat, Tx>, now: map<nat, Tx>)
      requires forall id :: id in now ==> id in was && now[id] == was[id]
      requires forall id :: id in was && id !in now ==> id in CommittedIds(was) && |NewerIn(CommittedIds(was), id)| >= 2
      ensures forall id :: id in was && id !in now ==> Says(was, id, Committed) && Superseded(was, id)
      ensures (forall id :: id in CommittedIds(now) ==> |NewerIn(CommittedIds(was), id)| < 2) ==>
        forall id :: Says(now, id, Committed) ==> !Superseded(now, id)
    {
      forall id | id in was && id !in now ensures Superseded(was, id) {
        SupersededIff(was, id);
      }
      if forall id :: id in CommittedIds(now) ==> |NewerIn(CommittedIds(was), id)| < 2 {
        forall id | Says(now, id, Committed) ensures !Superseded(now, id) {
          assert id in CommittedIds(now);
          SupersededIff(was, id);
          StillSuperseded(was, now, id);
        }
      }
    }

    /** After an exception past the flip: the journal says committed while a rollback is under way. */
    ghost predicate Torn(pre: Tree, names: set<Path>, id: nat)
      reads this
    {
      id in CommittedIds(txs) && ApplyingIds(txs) == {} && Between(pre, names, tree)
    }

    /** The part of `commit` before its `try`: descriptions, backups, then the journal. */
    method Open(id: nat, changes: seq<Change>) returns (s: Signal)
      requires WellFormed(tree) && ApplyingIds(txs) == {} && id !in txs
      modifies this`txs, this`power, this`errors
      ensures s.Raised? ==> exists n :: n in NamesOf(changes) && !Acceptable(tree, n)
      ensures txs.Keys <= old(txs).Keys + {id} && txs - {id} == old(txs)
      ensures !s.Done? ==> ApplyingIds(txs) == {} && (id in txs ==> txs[id].journal == None)
      ensures s.Done? ==>
        && ApplyingIds(txs) == {id} && id in txs && Sound(digest, tree, txs[id]) && NamesIn(txs[id]) == NamesOf(changes)
        && Matches(txs[id].journal.value.entries, changes)
        && (forall n :: n in NamesOf(changes) ==> Acceptable(tree, n))
      ensures Undisturbed(s, old(errors), errors, power)
    {
      var entries, created;
      s, entries, created := Prepare(id, changes);
      assert ApplyingIds(txs) == {};
      if s.Done? {
        var createdDirs := ListOf(created);
        s := WriteTx(id, txs[id].(journal := Some(Journal(Applying, entries, createdDirs))));
        assert s.Done? ==> ApplyingIds(txs) == {id};
      }
    }

    /** The `try` block of `commit`: all writes, then the flip of the journal. */
    method Write(id: nat, changes: seq<Change>, ghost pre: Tree) returns (s: Signal, ghost k: nat)
      requires tree == pre && WellFormed(pre) && forall n :: n in NamesOf(changes) ==> Acceptable(pre, n)
      requires ApplyingIds(txs) == {id} && id in txs && txs[id].journal.Some?
      modifies this`tree, this`txs, this`power, this`errors
      ensures k <= |ApplyOps(changes)| && tree == Run(pre, ApplyOps(changes)[..k])
      ensures Between(pre, NamesOf(changes), tree)
      ensures txs == if s.Done? then old(txs)[id := WithState(old(txs)[id], Committed)] else old(txs)
      ensures s.Done? ==> ApplyingIds(txs) == {} && id in CommittedIds(txs)
      ensures s.Done? ==> Completes(pre, ApplyOps(changes)) && tree == Run(pre, ApplyOps(changes))
      ensures s.Raised? ==> !Completes(pre, ApplyOps(changes))
      ensures Undisturbed(s, old(errors), errors, power)
    {
      s, k := ApplyAll(changes);
      CutIsBetween(pre, changes, k);
      if s.Done? {
        assert ApplyOps(changes)[..k] == ApplyOps(changes);
        NoneApplyingAfter(txs, id);
        s := WriteTx(id, WithState(txs[id], Committed));
      }
    }

    /** The rollback inside `commit`. */
    method RollBack(id: nat, changes: seq<Change>, ghost pre: Tree, ghost k: nat) returns (outcome: Ending)
      requires id in txs && Sound(digest, pre, txs[id]) && NamesIn(txs[id]) == NamesOf(changes)
      requires Matches(txs[id].journal.value.entries, changes) && WellFormed(pre)
      requires forall n :: n in NamesOf(changes) ==> Acceptable(pre, n)
      requires k <= |ApplyOps(changes)| && tree == Run(pre, ApplyOps(changes)[..k])
      requires forall i :: i in ApplyingIds(txs) ==> i == id
      modifies this`tree, this`txs, this`power, this`errors
      ensures outcome.Undone? || outcome.UndoRefused? || outcome.UndoBroken? || outcome.PowerLost?
      ensures outcome.Undone? ==> tree == pre && ApplyingIds(txs) == {} && txs.Keys == old(txs).Keys
      ensures outcome.Undone? ==> Says(txs, id, RolledBack) && txs - {id} == old(txs) - {id}
      ensures outcome.UndoRefused? ==> !Undoable(changes)
      ensures (outcome.PowerLost? ==> power == 0) && (old(errors) == [] ==> errors == [] && !outcome.UndoBroken?)
      ensures !outcome.Undone? ==> txs == old(txs) && Between(pre, NamesOf(changes), tree)
    {
      RollbackReady(digest, pre, changes, txs[id], k);
      NoneApplyingAfter(txs, id);
      var s := Restore(id, pre);
      outcome := match s case Done => Undone case Raised => UndoRefused case Failed => UndoBroken case Lost => PowerLost;
    }

    /** The `try` statement of `commit`, its handler included. */
    method Attempt(id: nat, changes: seq<Change>, fault: Fault, ghost pre: Tree) returns (outcome: Ending)
      requires tree == pre && WellFormed(pre) && forall n :: n in NamesOf(changes) ==> Acceptable(pre, n)
      requires ApplyingIds(txs) == {id} && id in txs && Sound(digest, pre, txs[id])
      requires NamesIn(txs[id]) == NamesOf(changes) && Matches(txs[id].journal.value.entries, changes)
      modifies this`tree, this`txs, this`power, this`errors
      ensures !outcome.Rejected? && !outcome.Aborted? && txs.Keys == old(txs).Keys && txs - {id} == old(txs) - {id}
      ensures (outcome.Success? ==> Says(txs, id, Committed)) && (outcome.Undone? ==> Says(txs, id, RolledBack))
      ensures outcome.Success? && old(errors) == [] ==> errors == []
      ensures outcome.Success? ==>
        && Completes(pre, ApplyOps(changes)) && tree == Run(pre, ApplyOps(changes)) && WellFormed(tree) && ApplyingIds(txs) == {}
      ensures outcome.Undone? ==> tree == pre && ApplyingIds(txs) == {}
      ensures outcome.UndoRefused? ==> !Undoable(changes)
      ensures outcome.PowerLost? || outcome.UndoRefused? || outcome.UndoBroken? ==>
        || StandsFor(digest, txs, tree, pre)
        || (fault.AfterFlip? && Torn(pre, NamesOf(changes), id))
      ensures (outcome.PowerLost? ==> power == 0) && (old(errors) == [] ==> !outcome.UndoBroken?)
      ensures outcome.Undone? || outcome.UndoRefused? ==>
        old(errors) != [] || fault.AfterFlip? || !Completes(pre, ApplyOps(changes))
    {
      var s;
      ghost var k;
      s, k := Write(id, changes, pre);
      if s.Done? && fault.NoFault? {
        return Success;
      }
      if s.Lost? {
        return PowerLost;
      }
      outcome := RollBack(id, changes, pre, k);
    }

    /** The `try` statement and the clean-up after it. */
    method AttemptAndPrune(id: nat, changes: seq<Change>, fault: Fault, ghost pre: Tree, ghost was: map<nat, Tx>)
        returns (outcome: Ending)
      requires id !in was && txs - {id} == was
      requires tree == pre && WellFormed(pre) && forall n :: n in NamesOf(changes) ==> Acceptable(pre, n)
      requires ApplyingIds(txs) == {id} && id in txs && Sound(digest, pre, txs[id])
      requires NamesIn(txs[id]) == NamesOf(changes) && Matches(txs[id].journal.value.entries, changes)
      modifies this`tree, this`txs, this`power, this`errors
      ensures !outcome.Rejected? && !outcome.Aborted? && txs.Keys <= old(txs).Keys
      ensures outcome.Success? ==>
        && Completes(pre, ApplyOps(changes)) && tree == Run(pre, ApplyOps(changes)) && WellFormed(tree) && ApplyingIds(txs) == {}
      ensures outcome.Undone? ==> tree == pre && ApplyingIds(txs) == {}
      ensures outcome.UndoRefused? ==> !Undoable(changes)
      ensures outcome.PowerLost? || outcome.UndoRefused? || outcome.UndoBroken? ==>
        || StandsFor(digest, txs, tree, pre)
        || (fault.AfterFlip? && Torn(pre, NamesOf(changes), id))
      ensures (outcome.PowerLost? ==> power == 0) && (old(errors) == [] ==> !outcome.UndoBroken?)
      ensures outcome.Undone? || outcome.UndoRefused? ==>
        old(errors) != [] || fault.AfterFlip? || !Completes(pre, ApplyOps(changes))
      ensures Bookkept(was, txs, id, outcome)
      ensures outcome.Success? && old(errors) == [] && power > 0 ==> forall x :: Says(txs, x, Committed) ==> !Superseded(txs, x)
    {
      outcome := Attempt(id, changes, fault, pre);
      if outcome.Success? {
        ghost var mid := txs;
        var pruned := Prune();
        BookkeptByPrune(was, mid, txs, id);
      } else {
        BookkeptWithout(was, txs, id, outcome);
      }
    }

    /** `commit` */
    method Commit(id: nat, changes: seq<Change>, record: Bytes, fault: Fault) returns (outcome: Ending)
      requires WellFormed(tree) && ApplyingIds(txs) == {} && id !in txs
      modifies this
      ensures outcome.Success? ==>
        && Completes(old(tree), ApplyOps(WithRecord(changes, record)))
        && tree == Run(old(tree), ApplyOps(WithRecord(changes, record))) && WellFormed(tree) && ApplyingIds(txs) == {}
      ensures outcome.Rejected? ==> exists n :: n in NamesOf(WithRecord(changes, record)) && !Acceptable(old(tree), n)
      ensures outcome.Rejected? || outcome.Aborted? || outcome.Undone? ==> tree == old(tree) && ApplyingIds(txs) == {}
      ensures outcome.UndoRefused? ==> !Undoable(WithRecord(changes, record))
      ensures outcome.PowerLost? || outcome.UndoRefused? || outcome.UndoBroken? ==>
        || StandsFor(digest, txs, tree, old(tree))
        || (&& Completes(old(tree), ApplyOps(WithRecord(changes, record)))
            && StandsFor(digest, txs, tree, Run(old(tree), ApplyOps(WithRecord(changes, record)))))
        || (fault.AfterFlip? && Torn(old(tree), NamesOf(WithRecord(changes, record)), id))
      ensures txs.Keys <= old(txs).Keys + {id}
      ensures Bookkept(old(txs), txs, id, outcome)
      ensures outcome.Success? && old(errors) == [] && power > 0 ==> forall x :: Says(txs, x, Committed) ==> !Superseded(txs, x)
      // undisturbed, it installs every list that the tree accepts and in which every change goes through
      ensures (outcome.PowerLost? ==> power == 0) && (old(errors) == [] ==> !outcome.Aborted? && !outcome.UndoBroken?)
      ensures outcome.Undone? || outcome.UndoRefused? ==>
        old(errors) != [] || fault.AfterFlip? || !Completes(old(tree), ApplyOps(WithRecord(changes, record)))
    {
      var all := WithRecord(changes, record);
      ghost var pre := tree;
      var s := Open(id, all);
      if !s.Done? {
        outcome := match s case Raised => Rejected case Failed => Aborted case Lost => PowerLost;
        BookkeptWithout(old(txs), txs, id, outcome);
        return;
      }
      outcome := AttemptAndPrune(id, all, fault, pre, old(txs));
    }
  }
}
