/**
 What an install does to each file, and exactly when it is refused, in terms of the two trees, the record and the
 release alone.
 */
module PlanLaws {
  import opened Options
  import opened Trees
  import opened Transactions
  import opened UndoOrder
  import opened Installations
  import opened Configs
  import opened Policies
  import opened Versions
  import opened Plans
  import opened Reinstalls

  const DEPLOYMENT: Path := ["deploy", "deploy.yaml"]
  const SETTINGS: Path := ["config", "global_config.json"]
  const IDLE_PATH: seq<string> := ["cron", "session_idle_close_seconds"]

  /** A file that is managed as shipped: neither default data nor protected nor merged. */
  predicate Plain(req: Request, n: Path) {
    !req.rules.isSeed(n) && !req.rules.isProtected(n) && n != DEPLOYMENT && !req.rules.isMerged(n)
  }

  predicate Merged(req: Request, n: Path) {
    !req.rules.isSeed(n) && !req.rules.isProtected(n) && (n == DEPLOYMENT || req.rules.isMerged(n))
  }

  /**
   A release file that is managed as shipped.  One that is absent is added; one that is recorded is replaced, and then
   nobody had changed it or overwriting was asked for; one that is not recorded stays, and then it is locally owned or
   already equal.
   */
  lemma PlainFile(req: Request, record: Bytes, n: Path)
    requires Installable(req) && PlanOf(req).Planned? && n in req.bundle.files.at && Plain(req, n)
    ensures var before, after := FileAt(req.tree.files, n), FileAt(Installed(req, record).files, n);
      var data, shipped := req.bundle.files.at[n], File(req.bundle.files.at[n], req.bundle.modes[n]);
      && (before.None? ==> after == Some(shipped))
      && (before.Some? && n in req.previous.files.at ==>
            && (req.overwrite || req.codec.digest(before.value.content) == req.previous.files.at[n])
            && after == if before.value.content == data then before else Some(shipped))
      && (before.Some? && n !in req.previous.files.at ==>
            after == before && (req.rules.isLocal(n) || before.value.content == data))
  {
    InstalledFile(req, record, n);
    ExpectedPlain(req, record, n);
  }

  lemma ExpectedPlain(req: Request, record: Bytes, n: Path)
    requires ValidRequest(req) && n in req.bundle.files.at && Plain(req, n) && !Decide(req, n).Refuse? && n != RECORD
    ensures var before, after := FileAt(req.tree.files, n), ExpectedFile(req, record, n);
      var data, shipped := req.bundle.files.at[n], File(req.bundle.files.at[n], req.bundle.modes[n]);
      && (before.None? ==> after == Some(shipped))
      && (before.Some? && n in req.previous.files.at ==>
            && (req.overwrite || req.codec.digest(before.value.content) == req.previous.files.at[n])
            && after == if before.value.content == data then before else Some(shipped))
      && (before.Some? && n !in req.previous.files.at ==>
            after == before && (req.rules.isLocal(n) || before.value.content == data))
  {
  }

  /** Default data is added where it is missing, and never touched again. */
  lemma SeedFile(req: Request, record: Bytes, n: Path)
    requires Installable(req) && PlanOf(req).Planned? && n in req.bundle.files.at && req.rules.isSeed(n)
    ensures var before := FileAt(req.tree.files, n);
      FileAt(Installed(req, record).files, n) ==
        if before.Some? then before else Some(File(req.bundle.files.at[n], req.bundle.modes[n]))
    ensures n !in PlanOf(req).managed
  {
    InstalledFile(req, record, n);
    assert !Decide(req, n).Refuse?;
  }

  /** Everything else: the record is written, unchanged obsolete files go, and the rest stays. */
  lemma OtherFile(req: Request, record: Bytes, n: Path)
    requires Installable(req) && PlanOf(req).Planned?
    requires n !in req.bundle.files.at || (req.rules.isProtected(n) && !req.rules.isSeed(n))
    ensures var before, after := FileAt(req.tree.files, n), FileAt(Installed(req, record).files, n);
      if n == [".kemo-install.json"] then after == Some(File(record, 384))
      else if n !in req.bundle.files.at && n in req.previous.files.at && !req.rules.isProtected(n)
              && before.Some? && req.codec.digest(before.value.content) == req.previous.files.at[n] then after == None
      else after == before
  {
    InstalledFile(req, record, n);
  }

  /** The new record names every release file apart from seeds, protected files and locally owned ones that it left alone. */
  lemma ManagedNames(req: Request, n: Path)
    requires ValidRequest(req) && PlanOf(req).Planned?
    ensures n in PlanOf(req).managed <==>
      && n in req.bundle.files.at && !req.rules.isSeed(n) && !req.rules.isProtected(n)
      && !(Plain(req, n) && n in req.tree.files && n !in req.previous.files.at && req.rules.isLocal(n))
  {
  }

  /* ---- Merged files ---- */

  function Reader(req: Request, n: Path): Bytes -> Option<Json> {
    if n == DEPLOYMENT then req.codec.yaml else req.codec.json
  }

  predicate IsMapping(v: Option<Json>) {
    v.Some? && v.value.Obj?
  }

  function Schema(v: Json): Json {
    if v.Obj? && "schema_version" in v.fields then v.fields["schema_version"] else Null
  }

  /** One of the two is no mapping, they have different schemas, or some path changed its type. */
  ghost predicate Unmergeable(d: Option<Json>, l: Option<Json>) {
    || !IsMapping(d) || !IsMapping(l)
    || Schema(d.value) != Schema(l.value)
    || exists path :: Clash(d.value, l.value, path)
  }

  /**
   The idle default is migrated: from at most 1.3.1 to at least 1.3.2, the release says 5400 and the local file has the
   former default of 86400.
   */
  ghost predicate Migrates(req: Request, n: Path, d: Json, l: Json) {
    var installed, release := req.codec.version(req.previous.version), req.codec.version(req.bundle.version);
    && n == SETTINGS && req.previous.version != ""
    && installed.Some? && !Precedes(Key(1, 3, 1, []), installed.value)
    && release.Some? && !Precedes(release.value, Key(1, 3, 2, []))
    && (Lookup(d, IDLE_PATH) == Some(Int(5400)) || Lookup(d, IDLE_PATH) == Some(Float("5400.0")))
    && (Lookup(l, IDLE_PATH) == Some(Int(86400)) || Lookup(l, IDLE_PATH) == Some(Float("86400.0")))
  }

  lemma IdleIs(v: Json)
    requires v.Obj?
    ensures Lookup(v, IDLE_PATH) ==
            if Field(v, CRON).Obj? && IDLE in Field(v, CRON).fields then Some(Field(Field(v, CRON), IDLE)) else None
  {
    LookupUnder(v, IDLE_PATH);
    assert IDLE_PATH[2..] == [];
  }

  /** The planner migrates in exactly that case. */
  lemma MigratesIff(req: Request, n: Path, d: Json, l: Json)
    requires d.Obj? && l.Obj? && Merge(d, l).Some? && Merge(d, l).value.Obj?
    ensures var merged := Merge(d, l).value;
      var due := n == GLOBAL_CONFIG && n != DEPLOY_YAML && MigrationDue(req.codec, req.previous.version, req.bundle.version);
      && (Migrates(req, n, d, l) ==>
            && due && CRON in merged.fields && merged.fields[CRON].Obj?
            && Migrate(merged, d, l) == Obj(merged.fields[CRON := Obj(merged.fields[CRON].fields[IDLE := Int(5400)])]))
      && (!Migrates(req, n, d, l) && due ==> Migrate(merged, d, l) == merged)
  {
    IdleIs(d);
    IdleIs(l);
    var installed, release := req.codec.version(req.previous.version), req.codec.version(req.bundle.version);
    if installed.Some? {
      LeqIsPrecedence(installed.value, V1_3_1);
    }
    if release.Some? {
      LeqIsPrecedence(V1_3_2, release.value);
    }
    if Field(d, CRON).Obj? && Field(l, CRON).Obj? {
      assert Merge(d.fields[CRON], l.fields[CRON]) == Some(Merge(d, l).value.fields[CRON]);
    }
  }

  /** What the migrated document holds at a path. */
  lemma MigratedAt(merged: Json, path: seq<string>)
    requires merged.Obj? && CRON in merged.fields && merged.fields[CRON].Obj?
    ensures var after := Lookup(Obj(merged.fields[CRON := Obj(merged.fields[CRON].fields[IDLE := Int(5400)])]), path);
      if path == IDLE_PATH then after == Some(Int(5400))
      else if IDLE_PATH < path then after == None
      else if path == [] || path == [CRON] then after.Some? && after.value.Obj?
      else after == Lookup(merged, path)
  {
    var after := Obj(merged.fields[CRON := Obj(merged.fields[CRON].fields[IDLE := Int(5400)])]);
    if |path| >= 2 {
      LookupUnder(after, path);
      LookupUnder(merged, path);
      assert path[..2] == [path[0], path[1]];
      assert path == path[..2] + path[2..];
    } else if |path| == 1 {
      assert path == [path[0]] && path[1..] == [];
    }
  }

  /** A document that holds nothing but a number at a path holds nothing beyond it. */
  lemma {:induction false} NothingBeyond(v: Json, path: seq<string>, k: nat)
    requires k < |path| && Lookup(v, path[..k]).Some? && !Lookup(v, path[..k]).value.Obj?
    ensures Lookup(v, path) == None && BlockedAt(v, path)
    decreases k
  {
    if k > 0 {
      assert path[..k][1..] == path[1..][..k - 1];
      NothingBeyond(v.fields[path[0]], path[1..], k - 1);
    }
  }

  /**
   The reconciled document at a path: local values stay, the migrated one apart, and what is missing comes from the
   release unless a local value stands in the way.
   */
  ghost predicate Reconciled(req: Request, n: Path, d: Json, l: Json, after: Json, path: seq<string>) {
    var mine, theirs, got := Lookup(l, path), Lookup(d, path), Lookup(after, path);
    && (mine.Some? && !mine.value.Obj? ==>
          got == if path == IDLE_PATH && Migrates(req, n, d, l) then Some(Int(5400)) else mine)
    && (mine.Some? && mine.value.Obj? ==> got.Some? && got.value.Obj?)
    && (mine.None? ==> got == if BlockedAt(l, path) then None else theirs)
  }

  /** The document that the planner prints. */
  function FinalOf(req: Request, n: Path, d: Json, l: Json): Json
    requires d.Obj? && l.Obj? && Merge(d, l).Some? && Merge(d, l).value.Obj?
  {
    if n == GLOBAL_CONFIG && n != DEPLOY_YAML && MigrationDue(req.codec, req.previous.version, req.bundle.version)
    then Migrate(Merge(d, l).value, d, l) else Merge(d, l).value
  }

  lemma FinalIsReconciled(req: Request, n: Path, d: Json, l: Json, path: seq<string>)
    requires d.Obj? && l.Obj? && Merge(d, l).Some? && Merge(d, l).value.Obj?
    ensures Reconciled(req, n, d, l, FinalOf(req, n, d, l), path)
  {
    MergeByPath(d, l, path);
    MigratesIff(req, n, d, l);
    if Migrates(req, n, d, l) {
      MigratedAt(Merge(d, l).value, path);
      if IDLE_PATH < path {
        assert path[..2] == IDLE_PATH;
        NothingBeyond(l, path, 2);
      }
      if path == [] || path == [CRON] {
        IdleIs(l);
        assert |path| == 1 ==> path[1..] == [];
      }
    }
  }

  /** Whether and how the planner merges. */
  lemma MergedContentIs(req: Request, n: Path, data: Bytes, before: Bytes)
    ensures var d, l, content := Reader(req, n)(data), Reader(req, n)(before), MergedContent(req, n, data, before);
      && (content.None? <==> Unmergeable(d, l))
      && (content.Some? ==>
            && IsMapping(d) && IsMapping(l) && Merge(d.value, l.value).Some? && Merge(d.value, l.value).value.Obj?
            && var final := FinalOf(req, n, d.value, l.value);
               content.value == if final == l.value then before else req.codec.print_(final))
  {
    var d, l := Reader(req, n)(data), Reader(req, n)(before);
    if IsMapping(d) && IsMapping(l) {
      MergeFailsIffClash(d.value, l.value);
      if Merge(d.value, l.value).Some? {
        MergeOfObjects(d.value, l.value);
      }
    }
  }

  /** What a merged file says after the install. */
  ghost predicate MergedInto(req: Request, n: Path, before: File, after: File)
    requires n in req.bundle.files.at && n in req.bundle.modes
  {
    var d, l, m := Reader(req, n)(req.bundle.files.at[n]), Reader(req, n)(before.content), Reader(req, n)(after.content);
    && IsMapping(d) && IsMapping(l) && IsMapping(m)
    && (forall path :: Reconciled(req, n, d.value, l.value, m.value, path))
    && (m == l ==> after == before)
    && (m != l ==> after == File(req.codec.print_(m.value), req.bundle.modes[n]))
  }

  lemma MergedContentIsMerged(req: Request, n: Path, before: File)
    requires RoundTrips(req.codec) && n in req.bundle.files.at && n in req.bundle.modes
    requires MergedContent(req, n, req.bundle.files.at[n], before.content).Some?
    ensures var content := MergedContent(req, n, req.bundle.files.at[n], before.content).value;
      MergedInto(req, n, before, if content == before.content then before else File(content, req.bundle.modes[n]))
  {
    var data := req.bundle.files.at[n];
    MergedContentIs(req, n, data, before.content);
    var d, l := Reader(req, n)(data).value, Reader(req, n)(before.content).value;
    var final := FinalOf(req, n, d, l);
    MigratesIff(req, n, d, l);
    forall path ensures Reconciled(req, n, d, l, final, path) {
      FinalIsReconciled(req, n, d, l, path);
    }
  }

  lemma ExpectedMerge(req: Request, record: Bytes, n: Path)
    requires ValidRequest(req) && n in req.bundle.files.at && Merged(req, n) && !Decide(req, n).Refuse? && n != RECORD
    ensures var data, mode, before := req.bundle.files.at[n], req.bundle.modes[n], FileAt(req.tree.files, n);
      && (before.None? ==> ExpectedFile(req, record, n) == Some(File(data, mode)))
      && (before.Some? ==>
            && MergedContent(req, n, data, before.value.content).Some?
            && var content := MergedContent(req, n, data, before.value.content).value;
               ExpectedFile(req, record, n) == Some(if content == before.value.content then before.value else File(content, mode)))
  {
  }

  /** A merged file is added as shipped, or reconciled with the local one; without a difference it is left alone. */
  lemma MergedFile(req: Request, record: Bytes, n: Path)
    requires Installable(req) && RoundTrips(req.codec) && PlanOf(req).Planned?
    requires n in req.bundle.files.at && Merged(req, n)
    ensures var before, after := FileAt(req.tree.files, n), FileAt(Installed(req, record).files, n);
      && after.Some?
      && (before.None? ==> after.value == File(req.bundle.files.at[n], req.bundle.modes[n]))
      && (before.Some? ==> MergedInto(req, n, before.value, after.value))
  {
    InstalledFile(req, record, n);
    ExpectedMerge(req, record, n);
    if n in req.tree.files {
      MergedContentIsMerged(req, n, req.tree.files[n]);
    }
  }

  /* ---- When the plan is refused ---- */

  /** A file stands where a directory is needed, or the reverse. */
  predicate Collides(t: Tree, n: Path) {
    n in t.dirs || exists k :: 0 <= k < |n| && n[..k] in t.files
  }

  /** Somebody else's file is in the place of the release's, or somebody changed a managed one. */
  predicate Foreign(req: Request, n: Path)
    requires n in req.bundle.files.at
  {
    && n in req.tree.files
    && var before := req.tree.files[n].content;
       if n in req.previous.files.at then req.codec.digest(before) != req.previous.files.at[n] && !req.overwrite
       else before != req.bundle.files.at[n] && !req.rules.isLocal(n)
  }

  ghost predicate Hindered(req: Request, n: Path)
    requires n in req.bundle.files.at
  {
    || ((req.rules.isSeed(n) || !req.rules.isProtected(n)) && Collides(req.tree, n))
    || (Plain(req, n) && Foreign(req, n))
    || (Merged(req, n) && n in req.tree.files
        && Unmergeable(Reader(req, n)(req.bundle.files.at[n]), Reader(req, n)(req.tree.files[n].content)))
  }

  lemma RefuseIff(req: Request, n: Path)
    requires WellFormed(req.tree) && n in req.bundle.files.at
    ensures Decide(req, n).Refuse? <==> Hindered(req, n)
  {
    if n in req.tree.files {
      MergedContentIs(req, n, req.bundle.files.at[n], req.tree.files[n].content);
      FilesAreAcceptable(req.tree, n);
    }
  }

  /**
   A plan is refused exactly if a required file is declared protected, a release file is hindered, or a recorded file
   that the release has dropped lies beneath a file.
   */
  lemma RefusedIff(req: Request)
    requires ValidRequest(req)
    ensures PlanOf(req).Refused? <==>
      || (exists r :: r in REQUIRED && req.rules.isProtected(r))
      || (exists n :: n in req.bundle.files.at && Hindered(req, n))
      || (exists n, k :: n in req.previous.files.at && n !in req.bundle.files.at && !req.rules.isProtected(n)
                         && 0 <= k < |n| && n[..k] in req.tree.files)
  {
    forall n | n in req.bundle.files.at ensures Decide(req, n).Refuse? <==> Hindered(req, n) {
      RefuseIff(req, n);
    }
  }
}
