/** One `install` or `update` under the lock: recover, read and check the state, plan, commit. */
module Deploys {
  import opened Options
  import opened Trees
  import opened Transactions
  import opened UndoOrder
  import opened Installations
  import opened Configs
  import opened Policies
  import opened Versions
  import opened Plans
  import opened Reinstalls

  /**
   What does not change while the command runs.  `read` is the installation record (`None`: it is unusable, or
   contradicts the tree), `ready` whether it says the runtime is prepared for the wanted interpreter, `prepares`
   whether preparing the runtime succeeds.
   */
  datatype Job = Job(codec: Codec, extra: seq<Guard>, bundle: Bundle, overwrite: bool, update: bool, force: bool,
                     allowDowngrade: bool, read: Tree -> Option<Record>, ready: Tree -> bool, prepares: bool,
                     render: map<Path, Digest> -> Bytes)

  const LOCK: string := ".update.lock"

  predicate NotInstalled(was: Record) {
    was.version == "" && was.files.names == [] && was.files.at == map[]
  }

  /** Nothing but the lock file (and the tool's own transactions) is in the root. */
  predicate Untouched(t: Tree) {
    && (forall p :: p in t.files ==> p != [] && p[0] == LOCK)
    && (forall d :: d in t.dirs ==> d == [] || d[0] == LOCK)
  }

  /** `_validate_update` */
  predicate ValidUpdate(job: Job, t: Tree, was: Record) {
    if NotInstalled(was) then !job.update && Untouched(t)
    else
      var had, gets := job.codec.version(was.version), job.codec.version(job.bundle.version);
      had.Some? && gets.Some? && (Leq(had.value, gets.value) || job.allowDowngrade)
  }

  predicate UpToDate(job: Job, t: Tree, was: Record) {
    !NotInstalled(was) && was.version == job.bundle.version && !job.force && job.ready(t)
  }

  function RequestOn(job: Job, t: Tree): Request
    requires job.read(t).Some?
  {
    Request(job.codec, RulesWith(job.extra), t, job.bundle, job.read(t).value, job.overwrite)
  }

  /** The tables of a record and of a release are dictionaries, and the release does not nest files. */
  ghost predicate WellGiven(job: Job) {
    && (forall t :: job.read(t).Some? ==> ValidTable(job.read(t).value.files))
    && ValidTable(job.bundle.files) && job.bundle.modes.Keys == job.bundle.files.at.Keys
    && NoNesting(job.bundle.files.at.Keys + {RECORD})
  }

  ghost predicate PlanRefused(job: Job, t: Tree)
    requires WellGiven(job) && WellFormed(t)
  {
    job.read(t).Some? && PlanOf(RequestOn(job, t)).Refused?
  }

  lemma JobIsInstallable(job: Job, t: Tree)
    requires WellGiven(job) && WellFormed(t) && job.read(t).Some? && Acceptable(t, RECORD)
    ensures Installable(RequestOn(job, t))
  {
    ShippedRulesAreSound(job.extra);
  }

  /** What the command is meant to do on the tree `t`. */
  datatype Intent = Decline | Keep | Install(goal: Tree)

  ghost function IntentOn(job: Job, t: Tree): Intent
    requires WellGiven(job) && WellFormed(t)
  {
    if job.read(t).None? || !ValidUpdate(job, t, job.read(t).value) then Decline
    else if UpToDate(job, t, job.read(t).value) then Keep
    else
      var req := RequestOn(job, t);
      if PlanOf(req).Refused? || !job.prepares then Decline
      else Install(Installed(req, job.render(PlanOf(req).managed)))
  }

  datatype Verdict = Finished | Current | Declined | NoChange | Interrupted

  /** The record describes every managed file. */
  ghost predicate Truthful(job: Job, start: Tree, t: Tree)
    requires WellGiven(job) && WellFormed(start) && job.read(start).Some?
  {
    forall n :: n in Managed(RequestOn(job, start)) ==>
      n in t.files && job.codec.digest(t.files[n].content) == Managed(RequestOn(job, start))[n]
  }

  /** An unfinished transaction cannot be undone from this tree. */
  ghost predicate RecoveryRefused(txs: map<nat, Tx>, t: Tree) {
    exists id :: id in ApplyingIds(txs) && !CanUndo(txs[id].journal.value.entries, t)
  }

  /**
   A command may go on from a tree whose record can be used: an install from an empty root, and any command from an
   installed release unless it is strictly newer than the wanted one and downgrading was not allowed.
   */
  ghost predicate Admitted(job: Job, t: Tree) {
    && job.read(t).Some?
    && var was := job.read(t).value;
       var had, gets := job.codec.version(was.version), job.codec.version(job.bundle.version);
       if was.version == "" && was.files == Table([], map[])
       then !job.update && forall p :: Exists(t, p) ==> p == [] || p[0] == ".update.lock"
       else had.Some? && gets.Some? && (job.allowDowngrade || !Precedes(gets.value, had.value))
  }

  /** The wanted release is installed, its runtime is prepared, and nobody insists. */
  ghost predicate Settled(job: Job, t: Tree) {
    && job.read(t).Some? && !job.force && job.ready(t)
    && job.read(t).value.version == job.bundle.version
    && (job.bundle.version != "" || job.read(t).value.files != Table([], map[]))
  }

  lemma AdmittedIff(job: Job, t: Tree)
    requires WellFormed(t)
    ensures Admitted(job, t) <==> job.read(t).Some? && ValidUpdate(job, t, job.read(t).value)
    ensures Settled(job, t) <==> job.read(t).Some? && UpToDate(job, t, job.read(t).value)
  {
    if job.read(t).Some? {
      LeqIsPrecedenceFor(job.codec.version(job.read(t).value.version), job.codec.version(job.bundle.version));
    }
  }

  lemma LeqIsPrecedenceFor(had: Option<Key>, gets: Option<Key>)
    ensures had.Some? && gets.Some? ==> (Leq(had.value, gets.value) <==> !Precedes(gets.value, had.value))
  {
    if had.Some? && gets.Some? {
      LeqIsPrecedence(had.value, gets.value);
    }
  }

  method RunOne(inst: Installation, job: Job, id: nat, fault: Fault, ghost start: Tree) returns (v: Verdict)
    requires StandsFor(inst.digest, inst.txs, inst.tree, start) && id !in inst.txs
    requires WellGiven(job) && Acceptable(start, RECORD)
    modifies inst
    // a command does what it is meant to do on the tree the disk stood for
    ensures v.Finished? ==>
      IntentOn(job, start) == Install(inst.tree) && ApplyingIds(inst.txs) == {} && Truthful(job, start, inst.tree)
    ensures v.Current? ==> IntentOn(job, start).Keep?
    ensures v.Declined? ==> IntentOn(job, start).Decline?
    ensures v.NoChange? ==> IntentOn(job, start).Install?
    // without errors it does so unless the power goes, or an earlier transaction cannot be undone
    ensures old(inst.errors) == [] && fault.NoFault? ==>
      !v.NoChange? && (v.Interrupted? ==> inst.power == 0 || RecoveryRefused(old(inst.txs), old(inst.tree)))
    // short of finishing or being interrupted it leaves the tree as it was
    ensures v.Current? || v.Declined? || v.NoChange? ==> inst.tree == start && ApplyingIds(inst.txs) == {}
    // it goes on only if it may, and is declined only if it may not, or the release cannot be planned or prepared
    ensures v.Finished? || v.Current? || v.NoChange? ==> Admitted(job, start) && (v.Current? <==> Settled(job, start))
    ensures v.Declined? ==> !Admitted(job, start) || (!Settled(job, start) && (!job.prepares || PlanRefused(job, start)))
    // an interrupted one is a recovery away from the old tree or from the planned one, unless its rollback was torn
    ensures v.Interrupted? ==>
      || StandsFor(inst.digest, inst.txs, inst.tree, start)
      || (IntentOn(job, start).Install? && StandsFor(inst.digest, inst.txs, inst.tree, IntentOn(job, start).goal))
      || (fault.AfterFlip? && WellFormed(inst.tree) && StandsFor(inst.digest, inst.txs, inst.tree, inst.tree))
  {
    var s, count := inst.Recover(start);
    if !s.Done? {
      return Interrupted;
    }
    AdmittedIff(job, start);
    var was := job.read(inst.tree);
    if was.None? || !ValidUpdate(job, inst.tree, was.value) {
      return Declined;
    }
    if UpToDate(job, inst.tree, was.value) {
      return Current;
    }
    v := PlanAndCommit(inst, job, id, fault, start, IntentOn(job, start));
  }

  /** What committing the plan amounts to. */
  lemma Intended(job: Job, t: Tree, r: Result)
    requires WellGiven(job) && WellFormed(t) && Acceptable(t, RECORD) && job.prepares
    requires job.read(t).Some? && ValidUpdate(job, t, job.read(t).value) && !UpToDate(job, t, job.read(t).value)
    requires r.Planned? && r == PlanOf(RequestOn(job, t))
    ensures var all := WithRecord(r.changes, job.render(r.managed));
      && IntentOn(job, t) == Install(Run(t, ApplyOps(all)))
      && Completes(t, ApplyOps(all)) && Undoable(all)
      && (forall n :: n in NamesOf(all) ==> Acceptable(t, n))
      && Truthful(job, t, Run(t, ApplyOps(all)))
  {
    JobIsInstallable(job, t);
    PlanIsSafe(RequestOn(job, t), job.render(r.managed));
    RecordDescribesDisk(RequestOn(job, t), job.render(r.managed));
  }

  /** The part of the command after its checks. */
  method PlanAndCommit(inst: Installation, job: Job, id: nat, fault: Fault, ghost start: Tree, ghost intent: Intent)
      returns (v: Verdict)
    requires inst.tree == start && WellFormed(start) && ApplyingIds(inst.txs) == {} && id !in inst.txs
    requires WellGiven(job) && Acceptable(start, RECORD) && intent == IntentOn(job, start)
    requires job.read(start).Some? && ValidUpdate(job, start, job.read(start).value)
    requires !UpToDate(job, start, job.read(start).value)
    modifies inst
    ensures !v.Current?
    ensures v.Finished? ==> intent == Install(inst.tree) && ApplyingIds(inst.txs) == {} && Truthful(job, start, inst.tree)
    ensures v.Declined? ==> intent.Decline? && (!job.prepares || PlanRefused(job, start))
    ensures v.NoChange? ==> intent.Install?
    ensures old(inst.errors) == [] && fault.NoFault? && v.Interrupted? ==> inst.power == 0
    ensures old(inst.errors) == [] && fault.NoFault? ==> !v.NoChange?
    ensures v.Declined? || v.NoChange? ==> inst.tree == start && ApplyingIds(inst.txs) == {}
    ensures v.Interrupted? ==>
      || StandsFor(inst.digest, inst.txs, inst.tree, start)
      || (intent.Install? && StandsFor(inst.digest, inst.txs, inst.tree, intent.goal))
      || (fault.AfterFlip? && WellFormed(inst.tree) && StandsFor(inst.digest, inst.txs, inst.tree, inst.tree))
  {
    JobIsInstallable(job, inst.tree);
    var r := Plan(RequestOn(job, inst.tree));
    if r.Refused? || !job.prepares {
      return Declined;
    }
    Intended(job, inst.tree, r);
    v := CommitPlan(inst, id, r.changes, job.render(r.managed), fault, start, intent.goal);
  }

  /** The commit of an acceptable plan, in terms of the trees before and after. */
  method CommitPlan(inst: Installation, id: nat, changes: seq<Change>, record: Bytes, fault: Fault, ghost start: Tree, ghost goal: Tree)
      returns (v: Verdict)
    requires inst.tree == start && WellFormed(start) && ApplyingIds(inst.txs) == {} && id !in inst.txs
    requires goal == Run(start, ApplyOps(WithRecord(changes, record)))
    requires Completes(start, ApplyOps(WithRecord(changes, record)))
    requires forall n :: n in NamesOf(WithRecord(changes, record)) ==> Acceptable(start, n)
    modifies inst
    ensures v.Finished? || v.NoChange? || v.Interrupted?
    ensures old(inst.errors) == [] && fault.NoFault? ==> v.Finished? || (v.Interrupted? && inst.power == 0)
    ensures v.Finished? ==> inst.tree == goal && ApplyingIds(inst.txs) == {}
    ensures v.NoChange? ==> inst.tree == start && ApplyingIds(inst.txs) == {}
    ensures v.Interrupted? ==>
      || StandsFor(inst.digest, inst.txs, inst.tree, start) || StandsFor(inst.digest, inst.txs, inst.tree, goal)
      || (fault.AfterFlip? && WellFormed(inst.tree) && StandsFor(inst.digest, inst.txs, inst.tree, inst.tree))
  {
    var outcome := inst.Commit(id, changes, record, fault);
    return match outcome
      case Success => Finished
      case Undone => NoChange
      case Aborted => NoChange
      case Rejected => NoChange
      case _ => Interrupted;
  }

  /** The record just written is read back when the tree is inspected again. */
  ghost predicate ReadsBack(job: Job, start: Tree, goal: Tree)
    requires WellGiven(job) && WellFormed(start) && job.read(start).Some?
  {
    && job.read(goal).Some? && job.read(goal).value.version == job.bundle.version
    && job.read(goal).value.files.at == Managed(RequestOn(job, start))
  }

  /** The same release and guards, read in the same way; `force`, `overwrite` and the other flags are free. */
  ghost predicate SameRelease(job: Job, second: Job) {
    second.codec == job.codec && second.extra == job.extra && second.bundle == job.bundle && second.read == job.read
  }

  /**
   Another command for the same release after a finished one, whatever the flags of either and with a record of its
   own (a new time stamp, say), changes nothing but that record, provided every merged file can be merged again.
   */
  lemma SecondRunChangesOnlyTheRecord(job: Job, start: Tree, goal: Tree, second: Job)
    requires WellGiven(job) && WellFormed(start) && Acceptable(start, RECORD) && RoundTrips(job.codec)
    requires IntentOn(job, start) == Install(goal) && ReadsBack(job, start, goal)
    requires AllMergeAgain(RequestOn(job, start)) && SameRelease(job, second)
    ensures WellFormed(goal) && WellGiven(second)
    ensures IntentOn(second, goal).Install? ==>
      && PlanOf(RequestOn(second, goal)) == Planned([], Managed(RequestOn(job, start)))
      && IntentOn(second, goal).goal.files == goal.files[RECORD := File(second.render(Managed(RequestOn(job, start))), 384)]
  {
    JobIsInstallable(job, start);
    var req := RequestOn(job, start);
    var record, names := job.render(PlanOf(req).managed), job.read(goal).value.files.names;
    ReplanIsFixpoint(req, record, names, second.overwrite);
    GoalIsAgain(job, start, goal, second);
    StillAFile(req, record);
    if IntentOn(second, goal).Install? {
      NothingButTheRecord(second, goal, Managed(req));
    }
  }

  lemma StillAFile(req: Request, record: Bytes)
    requires Installable(req) && PlanOf(req).Planned?
    ensures WellFormed(Installed(req, record)) && RECORD !in Installed(req, record).dirs
  {
    var all := AllChanges(req, record);
    PlanIsSafe(req, record);
    CutIsBetween(req.tree, all, |ApplyOps(all)|);
    assert ApplyOps(all)[..|ApplyOps(all)|] == ApplyOps(all);
    RecordIsNoOneElses(req);
    InstalledFile(req, record, RECORD);
  }

  /** An empty plan writes the record and nothing else. */
  lemma NothingButTheRecord(job: Job, goal: Tree, managed: map<Path, Digest>)
    requires WellGiven(job) && WellFormed(goal) && IntentOn(job, goal).Install?
    requires PlanOf(RequestOn(job, goal)) == Planned([], managed) && RECORD !in goal.dirs
    ensures IntentOn(job, goal).goal.files == goal.files[RECORD := File(job.render(managed), 384)]
  {
    var record := job.render(managed);
    assert AllChanges(RequestOn(job, goal), record) == [Change(RECORD, Some(record), 384)];
    EmptyInstall(goal, record);
  }

  /** The second request is the one that `Again` describes. */
  lemma GoalIsAgain(job: Job, start: Tree, goal: Tree, second: Job)
    requires SameRelease(job, second) && WellGiven(job) && WellFormed(start) && job.read(start).Some? && PlanOf(RequestOn(job, start)).Planned?
    requires IntentOn(job, start) == Install(goal) && ReadsBack(job, start, goal)
    ensures var req := RequestOn(job, start);
      RequestOn(second, goal) ==
        Again(req, job.render(PlanOf(req).managed), job.read(goal).value.files.names, second.overwrite)
  {
    assert job.read(goal).value.files == Table(job.read(goal).value.files.names, Managed(RequestOn(job, start)));
  }

  lemma EmptyInstall(t: Tree, record: Bytes)
    requires WellFormed(t) && RECORD !in t.dirs
    ensures Run(t, ApplyOps([Change(RECORD, Some(record), 384)])).files == t.files[RECORD := File(record, 384)]
  {
    var c := Change(RECORD, Some(record), 384);
    var ops := AtomicOps(RECORD, File(record, 384));
    assert [c][1..] == [] && Mkdirs(RECORD, 0) == [] && ops == [Put(RECORD, File(record, 384))];
    assert ApplyOps([c]) == ops + [] == ops && ops[1..] == [];
    assert Parent(RECORD) == [];
  }
}
