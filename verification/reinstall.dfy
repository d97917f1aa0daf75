/**
 What planning and committing achieve together: the record describes the disk, installing the same release
 again changes nothing, and files the release does not own are left alone.
 */
module Reinstalls {
  import opened Options
  import opened Trees
  import opened Transactions
  import opened UndoOrder
  import opened Installations
  import opened Configs
  import opened Policies
  import opened Versions
  import opened Plans

  /** The ownership rules protect the installation record and every seed file. */
  ghost predicate RulesSound(r: Rules) {
    r.isProtected(RECORD) && !r.isSeed(RECORD) && forall n :: r.isSeed(n) ==> r.isProtected(n)
  }

  lemma ShippedRulesAreSound(extra: seq<Guard>)
    ensures RulesSound(RulesWith(extra))
  {
    OwnFilesAreProtected(extra, RECORD);
    forall n | PreservedSeed(n) ensures n != [] && Protected(n, extra) {
      OwnFilesAreProtected(extra, n);
    }
  }

  /** A request on a disk where the record can be written, for a release that is not nested into itself. */
  ghost predicate Installable(req: Request) {
    && ValidRequest(req) && RulesSound(req.rules)
    && NoNesting(req.bundle.files.at.Keys + {RECORD})
    && Acceptable(req.tree, RECORD)
  }

  function AllChanges(req: Request, record: Bytes): seq<Change>
    requires ValidRequest(req) && PlanOf(req).Planned?
  {
    WithRecord(PlanOf(req).changes, record)
  }

  /** The tree after the planned changes are committed. */
  function Installed(req: Request, record: Bytes): Tree
    requires ValidRequest(req) && PlanOf(req).Planned?
  {
    Run(req.tree, ApplyOps(AllChanges(req, record)))
  }

  lemma {:induction false} WritesMembers(req: Request, names: seq<Path>, c: Change)
    requires forall n :: n in names ==> n in req.bundle.files.at
    ensures c in Writes(req, names) <==> c.name in names && WriteOf(req, c.name) == Some(c)
    decreases |names|
  {
    if names != [] {
      var last := names[|names| - 1];
      assert names == names[..|names| - 1] + [last];
      WritesMembers(req, names[..|names| - 1], c);
    }
  }

  lemma {:induction false} DeletesMembers(req: Request, names: seq<Path>, c: Change)
    ensures c in Deletes(req, names) <==> c.name in names && Obsolete(req, c.name) && c == Change(c.name, None, 420)
    decreases |names|
  {
    if names != [] {
      var last := names[|names| - 1];
      assert names == names[..|names| - 1] + [last];
      DeletesMembers(req, names[..|names| - 1], c);
    }
  }

  /** The three sources of changes. */
  lemma ChangeMembers(req: Request, record: Bytes, c: Change)
    requires ValidRequest(req) && PlanOf(req).Planned?
    ensures c in AllChanges(req, record) <==>
      || (c.name in req.bundle.files.at && WriteOf(req, c.name) == Some(c))
      || (Obsolete(req, c.name) && c == Change(c.name, None, 420))
      || c == Change(RECORD, Some(record), 384)
  {
    WritesMembers(req, req.bundle.files.names, c);
    DeletesMembers(req, req.previous.files.names, c);
  }

  /** A planned commit is always accepted, completes, and could always be rolled back. */
  lemma PlanIsSafe(req: Request, record: Bytes)
    requires Installable(req) && PlanOf(req).Planned?
    ensures forall n :: n in NamesOf(AllChanges(req, record)) ==> Acceptable(req.tree, n)
    ensures NoNesting(NamesOf(AllChanges(req, record)))
    ensures Undoable(AllChanges(req, record)) && Completes(req.tree, ApplyOps(AllChanges(req, record)))
  {
    PlanTargets(req, record);
    var all := AllChanges(req, record);
    NoNestingIsUndoable(all);
    ApplyReachesOutcome(req.tree, NamesOf(all), req.tree, all);
  }

  lemma PlanTargets(req: Request, record: Bytes)
    requires Installable(req) && PlanOf(req).Planned?
    ensures forall n :: n in NamesOf(AllChanges(req, record)) ==> Acceptable(req.tree, n)
    ensures NoNesting(NamesOf(AllChanges(req, record)))
  {
    var names := NamesOf(AllChanges(req, record));
    forall n | n in names
      ensures Acceptable(req.tree, n)
      ensures n in req.bundle.files.at.Keys + {RECORD} || n in req.tree.files
    {
      var c :| c in AllChanges(req, record) && c.name == n;
      ChangeMembers(req, record, c);
      if n !in req.bundle.files.at && n != RECORD {
        assert n in req.tree.files;
        FilesAreAcceptable(req.tree, n);
      }
    }
    forall a, b | a in names && b in names ensures !Above(a, b) {
      assert |a| < |b| ==> b[..|a|] !in req.tree.files;
      if b in req.tree.files && Above(a, b) {
        AncestorsAreDirs(req.tree, b, |a|);
      }
    }
  }

  lemma {:induction false} FilesAreAcceptable(t: Tree, n: Path)
    requires WellFormed(t) && n in t.files
    ensures Acceptable(t, n)
  {
    forall k | 0 <= k < |n| ensures n[..k] !in t.files {
      AncestorsAreDirs(t, n, k);
    }
  }

  /** The file a change leaves behind. */
  function FileOf(c: Change): Option<File> {
    if c.content.None? then None else Some(File(c.content.value, c.mode))
  }

  function FileAt(files: map<Path, File>, n: Path): Option<File> {
    if n in files then Some(files[n]) else None
  }

  lemma {:induction false} OutcomeAt(files: map<Path, File>, changes: seq<Change>, n: Path, f: Option<File>)
    requires forall c :: c in changes && c.name == n ==> FileOf(c) == f
    ensures FileAt(Outcome(files, changes), n) == if n in NamesOf(changes) then f else FileAt(files, n)
    decreases |changes|
  {
    if changes != [] {
      var c := changes[0];
      var next := if c.content.None? then files - {c.name} else files[c.name := File(c.content.value, c.mode)];
      assert changes == [c] + changes[1..];
      NamesAppend([c], changes[1..]);
      assert NamesOf([c]) == {c.name} by { assert [c][0] == c; }
      OutcomeAt(next, changes[1..], n, f);
    }
  }

  /** File by file, what an install does. */
  function ExpectedFile(req: Request, record: Bytes, n: Path): Option<File> {
    if n == RECORD then Some(File(record, 384))
    else if n in req.bundle.files.at && WriteOf(req, n).Some? then FileOf(WriteOf(req, n).value)
    else if Obsolete(req, n) then None
    else FileAt(req.tree.files, n)
  }

  lemma InstalledFile(req: Request, record: Bytes, n: Path)
    requires Installable(req) && PlanOf(req).Planned?
    ensures FileAt(Installed(req, record).files, n) == ExpectedFile(req, record, n)
  {
    var all := AllChanges(req, record);
    PlanIsSafe(req, record);
    ApplyReachesOutcome(req.tree, NamesOf(all), req.tree, all);
    RecordIsNoOneElses(req);
    forall c | c in all && c.name == n ensures FileOf(c) == ExpectedFile(req, record, n) {
      ChangeMembers(req, record, c);
    }
    OutcomeAt(req.tree.files, all, n, ExpectedFile(req, record, n));
    if n !in NamesOf(all) {
      ChangeMembers(req, record, Change(RECORD, Some(record), 384));
      ChangeMembers(req, record, Change(n, None, 420));
      if n in req.bundle.files.at && WriteOf(req, n).Some? {
        ChangeMembers(req, record, WriteOf(req, n).value);
      }
    }
  }

  lemma RecordIsNoOneElses(req: Request)
    requires Installable(req)
    ensures RECORD in req.bundle.files.at ==> WriteOf(req, RECORD).None? && !Decide(req, RECORD).Manage?
    ensures !Obsolete(req, RECORD)
  {
  }

  /** Every name in the new record has exactly the recorded digest on disk. */
  lemma RecordDescribesDisk(req: Request, record: Bytes)
    requires Installable(req) && PlanOf(req).Planned?
    ensures forall n :: n in PlanOf(req).managed ==>
      && n in Installed(req, record).files
      && req.codec.digest(Installed(req, record).files[n].content) == PlanOf(req).managed[n]
  {
    forall n | n in PlanOf(req).managed
      ensures n in Installed(req, record).files
      ensures req.codec.digest(Installed(req, record).files[n].content) == PlanOf(req).managed[n]
    {
      InstalledContent(req, record, n);
    }
  }

  /** Nothing but runtime data is on disk: every file is protected and none is a seed. */
  ghost predicate OnlyRuntimeData(req: Request) {
    && req.previous.files.at == map[]
    && forall p :: p in req.tree.files ==> req.rules.isProtected(p) && !req.rules.isSeed(p)
  }

  predicate Placed(req: Request, n: Path) {
    req.rules.isSeed(n) || !req.rules.isProtected(n)
  }

  lemma FirstDecision(req: Request, n: Path)
    requires ValidRequest(req) && OnlyRuntimeData(req) && n in req.bundle.files.at
    ensures Decide(req, n).Refuse? <==> Placed(req, n) && !(Resolves(req.tree, n) && n !in req.tree.dirs)
    ensures !Decide(req, n).Refuse? ==>
      WriteOf(req, n) == if Placed(req, n) then Some(Change(n, Some(req.bundle.files.at[n]), req.bundle.modes[n])) else None
  {
  }

  /**
   A first install over nothing but runtime data is refused exactly when a file stands where a directory is needed or
   the reverse; otherwise it puts every file down as shipped.
   */
  lemma FirstInstall(req: Request, record: Bytes)
    requires Installable(req) && OnlyRuntimeData(req)
    requires forall r :: r in REQUIRED ==> !req.rules.isProtected(r)
    ensures PlanOf(req).Planned? <==>
      forall n :: n in req.bundle.files.at && Placed(req, n) ==> Resolves(req.tree, n) && n !in req.tree.dirs
    ensures PlanOf(req).Planned? ==> forall n :: n in req.bundle.files.at && n != RECORD && Placed(req, n) ==>
      FileAt(Installed(req, record).files, n) == Some(File(req.bundle.files.at[n], req.bundle.modes[n]))
  {
    forall n | n in req.bundle.files.at
      ensures Decide(req, n).Refuse? <==> Placed(req, n) && !(Resolves(req.tree, n) && n !in req.tree.dirs)
    {
      FirstDecision(req, n);
    }
    if PlanOf(req).Planned? {
      forall n | n in req.bundle.files.at && n != RECORD && Placed(req, n)
        ensures FileAt(Installed(req, record).files, n) == Some(File(req.bundle.files.at[n], req.bundle.modes[n]))
      {
        FirstDecision(req, n);
        InstalledFile(req, record, n);
      }
    }
  }

  /* ---- Installing the same release again ---- */

  /** The next request for the same release, against the record just written. */
  function Again(req: Request, record: Bytes, names: seq<Path>, overwrite: bool): Request
    requires ValidRequest(req) && PlanOf(req).Planned?
  {
    Request(req.codec, req.rules, Installed(req, record), req.bundle,
            Record(req.bundle.version, Table(names, PlanOf(req).managed)), overwrite)
  }

  lemma StillResolves(req: Request, record: Bytes, n: Path)
    requires Installable(req) && PlanOf(req).Planned?
    requires n in req.bundle.files.at && Resolves(req.tree, n) && n !in req.tree.dirs && n != RECORD
    ensures WellFormed(Installed(req, record))
    ensures Resolves(Installed(req, record), n) && n !in Installed(req, record).dirs
  {
    var all := AllChanges(req, record);
    var names := NamesOf(all);
    PlanIsSafe(req, record);
    ApplyConfined(req.tree, names, all);
    ConfinedRun(req.tree, names, req.tree, ApplyOps(all));
    forall k | 0 <= k < |n| ensures n[..k] !in Installed(req, record).files {
      InstalledFile(req, record, n[..k]);
      assert Above(n[..k], n);
    }
    forall m | m in names ensures !Above(n, m) {
      var c :| c in all && c.name == m;
      ChangeMembers(req, record, c);
      if m in req.tree.files && Above(n, m) {
        AncestorsAreDirs(req.tree, m, |n|);
      }
    }
  }

  /** The migration rewrote the idle default although the release spells it as a float. */
  predicate FloatMigrated(req: Request, n: Path)
    requires n in req.bundle.files.at
  {
    && n == GLOBAL_CONFIG && n in req.tree.files
    && MigrationDue(req.codec, req.previous.version, req.bundle.version)
    && var defaults, local := Parse(req, n, req.bundle.files.at[n]), Parse(req, n, req.tree.files[n].content);
       && defaults.Some? && local.Some?
       && Field(Field(defaults.value, CRON), IDLE) == Float("5400.0")
       && Field(Field(local.value, CRON), IDLE) == Float("86400.0")
  }

  /** A merged file can be merged again: the release's copy parses, and no float was migrated to an integer. */
  predicate MergesAgain(req: Request, n: Path)
    requires n in req.bundle.files.at
  {
    Parse(req, n, req.bundle.files.at[n]).Some? && !FloatMigrated(req, n)
  }

  lemma MergeOfObjects(defaults: Json, local: Json)
    requires defaults.Obj? && local.Obj? && Merge(defaults, local).Some?
    ensures Merge(defaults, local).value.Obj?
    ensures Field(defaults, "schema_version") == Field(local, "schema_version") ==>
      Field(Merge(defaults, local).value, "schema_version") == Field(local, "schema_version")
  {
    var key := "schema_version";
    if key in defaults.fields && key in local.fields {
      MergeSelf(local.fields[key]);
    }
  }

  /** The migrated document merges to itself when the default is an integer, and not at all when it is a float. */
  lemma MigratedMergesAgain(defaults: Json, local: Json)
    requires defaults.Obj? && local.Obj? && Merge(defaults, local).Some? && Merge(defaults, local).value.Obj?
    requires Migrate(Merge(defaults, local).value, defaults, local) != Merge(defaults, local).value
    ensures var m := Migrate(Merge(defaults, local).value, defaults, local);
      Merge(defaults, m) == if Field(Field(defaults, CRON), IDLE) == Int(5400) then Some(m) else None
    ensures Field(Field(defaults, CRON), IDLE) != Int(5400) ==>
      Field(Field(defaults, CRON), IDLE) == Float("5400.0") && Field(Field(local, CRON), IDLE) == Float("86400.0")
  {
    var merged := Merge(defaults, local).value;
    var m := Migrate(merged, defaults, local);
    var d, l := Field(defaults, CRON), Field(local, CRON);
    assert Merge(d, l) == Some(merged.fields[CRON]);
    assert Merge(d.fields[IDLE], l.fields[IDLE]).Some?;
    if d.fields[IDLE] == Int(5400) {
      forall k | k in d.fields && k != IDLE ensures Merge(d.fields[k], m.fields[CRON].fields[k]) == Some(m.fields[CRON].fields[k]) {
        MergeAgainAt(d, l, k);
      }
      MergeIs(d, m.fields[CRON], m.fields[CRON].fields);
      forall k | k in defaults.fields && k != CRON ensures Merge(defaults.fields[k], m.fields[k]) == Some(m.fields[k]) {
        MergeAgainAt(defaults, local, k);
      }
      MergeIs(defaults, m, m.fields);
    } else {
      assert Merge(d.fields[IDLE], m.fields[CRON].fields[IDLE]).None?;
      assert Merge(d, m.fields[CRON]).None?;
    }
  }

  lemma MergeAgainAt(defaults: Json, local: Json, k: string)
    requires defaults.Obj? && local.Obj? && Merge(defaults, local).Some? && k in defaults.fields
    ensures var merged := Merge(defaults, local).value.fields;
      k in merged && Merge(defaults.fields[k], merged[k]) == Some(merged[k])
  {
    if k in local.fields {
      MergeIdempotent(defaults.fields[k], local.fields[k]);
    } else {
      MergeSelf(defaults.fields[k]);
    }
  }

  /** Re-merging a file that already holds the first merge's output. */
  lemma MergedContentAgain(req: Request, again: Request, n: Path)
    requires RoundTrips(req.codec) && n in req.bundle.files.at && n in req.tree.files
    requires again.codec == req.codec && again.bundle == req.bundle && again.previous.version == req.bundle.version
    requires MergedContent(req, n, req.bundle.files.at[n], req.tree.files[n].content).Some?
    ensures var data := req.bundle.files.at[n];
      var content := MergedContent(req, n, data, req.tree.files[n].content).value;
      MergedContent(again, n, data, content) == if FloatMigrated(req, n) then None else Some(content)
  {
    var data, before := req.bundle.files.at[n], req.tree.files[n].content;
    var defaults, local := Parse(req, n, data).value, Parse(req, n, before).value;
    var merged := Merge(defaults, local).value;
    MergeOfObjects(defaults, local);
    MergeIdempotent(defaults, local);
    if req.codec.version(req.bundle.version).Some? {
      NoSelfMigration(req.codec.version(req.bundle.version).value);
    }
    assert !MigrationDue(again.codec, again.previous.version, again.bundle.version);
    var due := n == GLOBAL_CONFIG && n != DEPLOY_YAML && MigrationDue(req.codec, req.previous.version, req.bundle.version);
    var final := if due then Migrate(merged, defaults, local) else merged;
    var content := MergedContent(req, n, data, before).value;
    assert Parse(again, n, content) == Some(final);
    assert Field(final, "schema_version") == Field(local, "schema_version");
    FloatMigratesVisibly(req, n);
    if final != merged {
      MigratedMergesAgain(defaults, local);
    }
  }

  lemma FloatMigratesVisibly(req: Request, n: Path)
    requires n in req.bundle.files.at && n in req.tree.files
    ensures var d, l := Parse(req, n, req.bundle.files.at[n]), Parse(req, n, req.tree.files[n].content);
      FloatMigrated(req, n) && Merge(d.value, l.value).Some? ==>
        && Merge(d.value, l.value).value.Obj?
        && Migrate(Merge(d.value, l.value).value, d.value, l.value) != Merge(d.value, l.value).value
  {
    var d, l := Parse(req, n, req.bundle.files.at[n]), Parse(req, n, req.tree.files[n].content);
    if FloatMigrated(req, n) && Merge(d.value, l.value).Some? {
      var merged := Merge(d.value, l.value).value;
      var dc, lc := d.value.fields[CRON], l.value.fields[CRON];
      assert Merge(dc, lc) == Some(merged.fields[CRON]);
      assert Merge(dc.fields[IDLE], lc.fields[IDLE]) == Some(merged.fields[CRON].fields[IDLE]);
    }
  }

  /** `again` plans the same release after `req` was installed, as far as the name `n` is concerned. */
  ghost predicate FollowsAt(req: Request, again: Request, n: Path) {
    && again.codec == req.codec && again.rules == req.rules && again.bundle == req.bundle
    && again.previous.version == req.bundle.version
    && n in req.bundle.files.at
    && (n in again.previous.files.at <==> Decide(req, n).Manage?)
    && (Decide(req, n).Manage? ==> again.previous.files.at[n] == req.codec.digest(Decide(req, n).content))
    && (req.rules.isSeed(n) || !req.rules.isProtected(n) ==>
          && Resolves(again.tree, n) && n !in again.tree.dirs
          && FileAt(again.tree.files, n) ==
               if WriteOf(req, n).Some? then FileOf(WriteOf(req, n).value) else FileAt(req.tree.files, n))
  }

  lemma AgainFollows(req: Request, record: Bytes, names: seq<Path>, overwrite: bool, n: Path)
    requires Installable(req) && PlanOf(req).Planned? && n in req.bundle.files.at
    ensures FollowsAt(req, Again(req, record, names, overwrite), n)
  {
    RecordIsNoOneElses(req);
    if req.rules.isSeed(n) || !req.rules.isProtected(n) {
      InstalledFile(req, record, n);
      StillResolves(req, record, n);
    }
  }

  /** File by file: the second plan skips what it must, manages the same content, and writes nothing. */
  lemma DecideAgain(req: Request, again: Request, n: Path)
    requires RoundTrips(req.codec) && FollowsAt(req, again, n) && !Decide(req, n).Refuse?
    ensures !Decide(req, n).Manage? ==> Decide(again, n).Skip?
    ensures Decide(req, n).Manage? ==>
      Decide(again, n) == if IsMergeable(req, n) && !MergesAgain(req, n) then Refuse else Decide(req, n)
    ensures Decide(again, n) == Decide(req, n) ==> WriteOf(again, n).None?
  {
    if Decide(req, n).Manage? && IsMergeable(req, n) {
      if n in req.tree.files {
        MergedContentAgain(req, again, n);
      } else {
        FreshMerge(req, again, n);
      }
    }
  }

  /** A mergeable file that was just installed verbatim merges to itself if it parses. */
  lemma FreshMerge(req: Request, again: Request, n: Path)
    requires n in req.bundle.files.at && n !in req.tree.files
    requires again.codec == req.codec && again.bundle == req.bundle && again.previous.version == req.bundle.version
    ensures var data := req.bundle.files.at[n];
      MergedContent(again, n, data, data) == if MergesAgain(req, n) then Some(data) else None
  {
    var data := req.bundle.files.at[n];
    if Parse(req, n, data).Some? {
      MergeSelf(Parse(req, n, data).value);
      if req.codec.version(req.bundle.version).Some? {
        NoSelfMigration(req.codec.version(req.bundle.version).value);
      }
    }
  }

  ghost predicate ManagesLike(req: Request, again: Request, n: Path)
    requires n in req.bundle.files.at && n in again.bundle.files.at
  {
    if Decide(req, n).Manage? then Decide(again, n) == Decide(req, n) else !Decide(again, n).Manage?
  }

  ghost predicate AllMergeAgain(req: Request) {
    forall n :: n in req.bundle.files.at && Decide(req, n).Manage? && IsMergeable(req, n) ==> MergesAgain(req, n)
  }

  lemma AgainIsValid(req: Request, record: Bytes, names: seq<Path>, overwrite: bool)
    requires Installable(req) && PlanOf(req).Planned? && ValidTable(Table(names, PlanOf(req).managed))
    ensures ValidRequest(Again(req, record, names, overwrite))
  {
    var all := AllChanges(req, record);
    PlanIsSafe(req, record);
    ApplyConfined(req.tree, NamesOf(all), all);
    ConfinedRun(req.tree, NamesOf(all), req.tree, ApplyOps(all));
  }

  /** A valid plan in which nothing is refused, written or obsolete is the empty plan. */
  lemma EmptyPlan(req: Request)
    requires ValidRequest(req) && req.previous.files.at.Keys <= req.bundle.files.at.Keys
    requires forall r :: r in REQUIRED ==> !req.rules.isProtected(r)
    requires forall n :: n in req.bundle.files.at ==> !Decide(req, n).Refuse? && WriteOf(req, n).None?
    ensures PlanOf(req) == Planned([], Managed(req))
  {
    NoWrites(req, req.bundle.files.names);
    NoDeletes(req, req.previous.files.names);
  }

  /**
   Installing the same release again plans no change and records the same files, exactly when every merged
   file it manages can be merged again; otherwise the second plan is refused.
   */
  lemma ReplanIsFixpoint(req: Request, record: Bytes, names: seq<Path>, overwrite: bool)
    requires Installable(req) && RoundTrips(req.codec) && PlanOf(req).Planned?
    requires ValidTable(Table(names, PlanOf(req).managed))
    ensures ValidRequest(Again(req, record, names, overwrite))
    ensures PlanOf(Again(req, record, names, overwrite)) ==
            if AllMergeAgain(req) then Planned([], PlanOf(req).managed) else Refused
  {
    var again := Again(req, record, names, overwrite);
    AgainIsValid(req, record, names, overwrite);
    forall n | n in req.bundle.files.at
      ensures Decide(again, n).Refuse? <==> Decide(req, n).Manage? && IsMergeable(req, n) && !MergesAgain(req, n)
      ensures !Decide(again, n).Refuse? ==> WriteOf(again, n).None? && ManagesLike(req, again, n)
    {
      AgainFollows(req, record, names, overwrite, n);
      DecideAgain(req, again, n);
    }
    if AllMergeAgain(req) {
      EmptyPlan(again);
      SameManaged(req, again);
    }
  }

  lemma SameManaged(req: Request, again: Request)
    requires again.codec == req.codec && again.bundle == req.bundle
    requires forall n :: n in req.bundle.files.at ==> ManagesLike(req, again, n)
    ensures Managed(again) == Managed(req)
  {
  }

  lemma {:induction false} NoWrites(req: Request, names: seq<Path>)
    requires forall n :: n in names ==> n in req.bundle.files.at && WriteOf(req, n).None?
    ensures Writes(req, names) == []
    decreases |names|
  {
    if names != [] {
      NoWrites(req, names[..|names| - 1]);
    }
  }

  lemma {:induction false} NoDeletes(req: Request, names: seq<Path>)
    requires forall n :: n in names ==> !Obsolete(req, n)
    ensures Deletes(req, names) == []
    decreases |names|
  {
    if names != [] {
      NoDeletes(req, names[..|names| - 1]);
    }
  }

  /* ---- What an install leaves alone ---- */

  lemma OwnershipFrame(req: Request, record: Bytes, p: Path)
    requires Installable(req) && PlanOf(req).Planned? && p != RECORD
    ensures var before, after := FileAt(req.tree.files, p), FileAt(Installed(req, record).files, p);
      // protected and seed paths: only an absent seed is ever added
      && (req.rules.isProtected(p) && after != before ==> req.rules.isSeed(p) && before.None? && p in req.bundle.files.at)
      // a locally owned module file that was not recorded, manifests aside
      && (req.rules.isLocal(p) && before.Some? && p !in req.previous.files.at && !IsMergeable(req, p) ==> after == before)
      // deletions
      && (before.Some? && after.None? <==> Obsolete(req, p))
      // rewrites
      && (before.Some? && after.Some? && after != before && !IsMergeable(req, p) ==>
            && p in req.bundle.files.at && p in req.previous.files.at
            && (req.overwrite || req.codec.digest(before.value.content) == req.previous.files.at[p]))
      // additions
      && (before.None? && after.Some? ==> p in req.bundle.files.at && after.value.content == req.bundle.files.at[p])
  {
    InstalledFile(req, record, p);
    if p in req.bundle.files.at {
      assert !Decide(req, p).Refuse?;
    }
  }

  /** `Lookup` below a two-key path. */
  lemma LookupUnder(v: Json, path: seq<string>)
    requires |path| >= 2
    ensures Lookup(v, path) ==
            if v.Obj? && path[0] in v.fields && v.fields[path[0]].Obj? && path[1] in v.fields[path[0]].fields
            then Lookup(v.fields[path[0]].fields[path[1]], path[2..]) else None
  {
    assert path[1..][1..] == path[2..];
  }

  /** The migration can change a local leaf only at `cron.session_idle_close_seconds`. */
  lemma MigrationTouchesOneLeaf(defaults: Json, local: Json, merged: Json, path: seq<string>)
    requires merged.Obj? && local.Obj? && Lookup(local, path).Some? && !Lookup(local, path).value.Obj?
    ensures var after := Migrate(merged, defaults, local);
      Lookup(after, path) != Lookup(merged, path) ==>
        && path == [CRON, IDLE] && Lookup(after, path) == Some(Int(5400))
        && IsNumber(Lookup(local, path).value, 86400, "86400.0")
  {
    if |path| >= 2 {
      LookupUnder(local, path);
      LookupUnder(merged, path);
      LookupUnder(Migrate(merged, defaults, local), path);
    } else if |path| == 1 {
      assert path[1..] == [];
    }
  }

  /** What is known about one local leaf after a merge. */
  ghost predicate LeafKept(req: Request, p: Path, path: seq<string>, before: Json, after: Json) {
    var mine := Lookup(before, path);
    mine.Some? && !mine.value.Obj? && Lookup(after, path) != mine ==>
      && p == GLOBAL_CONFIG && path == [CRON, IDLE] && MigrationDue(req.codec, req.previous.version, req.bundle.version)
      && IsNumber(mine.value, 86400, "86400.0") && Lookup(after, path) == Some(Int(5400))
  }

  lemma MergedContentKeeps(req: Request, p: Path, data: Bytes, before: Bytes, path: seq<string>)
    requires RoundTrips(req.codec) && MergedContent(req, p, data, before).Some?
    ensures var local, after := Parse(req, p, before), Parse(req, p, MergedContent(req, p, data, before).value);
      local.Some? && after.Some? && LeafKept(req, p, path, local.value, after.value)
  {
    var defaults, local := Parse(req, p, data).value, Parse(req, p, before).value;
    var merged := Merge(defaults, local).value;
    MergeOfObjects(defaults, local);
    MergeByPath(defaults, local, path);
    if Lookup(local, path).Some? && !Lookup(local, path).value.Obj? {
      MigrationTouchesOneLeaf(defaults, local, merged, path);
    }
  }

  /** A managed file ends up with the content its decision names. */
  lemma ManagedIsExpected(req: Request, record: Bytes, p: Path)
    requires Installable(req) && p in req.bundle.files.at && Decide(req, p).Manage?
    ensures ExpectedFile(req, record, p).Some? && ExpectedFile(req, record, p).value.content == Decide(req, p).content
  {
    RecordIsNoOneElses(req);
  }

  lemma InstalledContent(req: Request, record: Bytes, p: Path)
    requires Installable(req) && PlanOf(req).Planned?
    requires p in req.bundle.files.at && Decide(req, p).Manage?
    ensures p in Installed(req, record).files && Installed(req, record).files[p].content == Decide(req, p).content
  {
    ManagedIsExpected(req, record, p);
    InstalledFile(req, record, p);
  }

  /** A merged file on disk keeps every local leaf, apart from the one legacy default the migration replaces. */
  lemma MergedFilesKeepLocalValues(req: Request, record: Bytes, p: Path, path: seq<string>)
    requires Installable(req) && RoundTrips(req.codec) && PlanOf(req).Planned?
    requires p in req.bundle.files.at && p in req.tree.files && IsMergeable(req, p) && Decide(req, p).Manage?
    ensures p in Installed(req, record).files
    ensures var before, after := Parse(req, p, req.tree.files[p].content), Parse(req, p, Installed(req, record).files[p].content);
      before.Some? && after.Some? && LeafKept(req, p, path, before.value, after.value)
  {
    InstalledContent(req, record, p);
    assert MergedContent(req, p, req.bundle.files.at[p], req.tree.files[p].content) == Some(Decide(req, p).content);
    MergedContentKeeps(req, p, req.bundle.files.at[p], req.tree.files[p].content, path);
  }
}
