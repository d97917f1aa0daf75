/**
 Planning an update: which files of a release are written, which obsolete ones are deleted, and what the new
 installation record says is managed.
 */
module Plans {
  import opened Options
  import opened Trees
  import opened Transactions
  import opened Installations
  import opened Configs
  import opened Policies
  import opened Versions

  /** Hashing, parsing, printing and version parsing are not modelled further. */
  datatype Codec = Codec(digest: Bytes -> Digest, yaml: Bytes -> Option<Json>, json: Bytes -> Option<Json>,
                         print_: Json -> Bytes, version: string -> Option<Key>)

  /** What is printed is read back, by either reader. */
  ghost predicate RoundTrips(c: Codec) {
    forall v: Json :: v.Obj? ==> c.yaml(c.print_(v)) == Some(v) && c.json(c.print_(v)) == Some(v)
  }

  /** A dictionary: its keys in insertion order and its entries. */
  datatype Table<V> = Table(names: seq<Path>, at: map<Path, V>)

  ghost predicate ValidTable<V>(t: Table<V>) {
    && (forall n :: n in t.names <==> n in t.at)
    && (forall n :: n in t.at ==> n != [])
  }

  datatype Bundle = Bundle(version: string, files: Table<Bytes>, modes: map<Path, nat>)

  /** The installation record; nothing installed is an empty version and an empty table. */
  datatype Record = Record(version: string, files: Table<Digest>)

  datatype Request = Request(codec: Codec, rules: Rules, tree: Tree, bundle: Bundle, previous: Record, overwrite: bool)

  ghost predicate ValidRequest(req: Request) {
    && WellFormed(req.tree)
    && ValidTable(req.bundle.files) && ValidTable(req.previous.files)
    && req.bundle.modes.Keys == req.bundle.files.at.Keys
  }

  const DEPLOY_YAML: Path := ["deploy", "deploy.yaml"]
  const GLOBAL_CONFIG: Path := ["config", "global_config.json"]
  const CRON := "cron"
  const IDLE := "session_idle_close_seconds"

  function Field(v: Json, key: string): Json {
    if v.Obj? && key in v.fields then v.fields[key] else Null
  }

  predicate IsNumber(v: Json, n: int, repr: string) {
    v == Int(n) || v == Float(repr)
  }

  /** The installed version predates the new idle default and the release has it. */
  predicate MigrationDue(c: Codec, installed: string, release: string) {
    && installed != "" && c.version(installed).Some? && Leq(c.version(installed).value, V1_3_1)
    && c.version(release).Some? && Leq(V1_3_2, c.version(release).value)
  }

  function Migrate(merged: Json, defaults: Json, local: Json): Json
    requires merged.Obj?
  {
    if Field(defaults, CRON).Obj? && Field(local, CRON).Obj? && Field(merged, CRON).Obj?
       && IsNumber(Field(Field(defaults, CRON), IDLE), 5400, "5400.0")
       && IsNumber(Field(Field(local, CRON), IDLE), 86400, "86400.0")
    then Obj(merged.fields[CRON := Obj(Field(merged, CRON).fields[IDLE := Int(5400)])])
    else merged
  }

  predicate IsMergeable(req: Request, name: Path) {
    name == DEPLOY_YAML || req.rules.isMerged(name)
  }

  function Parse(req: Request, name: Path, data: Bytes): Option<Json> {
    var v := if name == DEPLOY_YAML then req.codec.yaml(data) else req.codec.json(data);
    if v.Some? && v.value.Obj? then v else None
  }

  /** The content of a merged configuration file, or `None` when the merge is refused. */
  function MergedContent(req: Request, name: Path, data: Bytes, before: Bytes): Option<Bytes> {
    var defaults, local := Parse(req, name, data), Parse(req, name, before);
    if defaults.None? || local.None? then None
    else if Field(defaults.value, "schema_version") != Field(local.value, "schema_version") then None
    else
      var merged := Merge(defaults.value, local.value);
      if merged.None? then None
      else
        var final := if name == GLOBAL_CONFIG && name != DEPLOY_YAML && MigrationDue(req.codec, req.previous.version, req.bundle.version)
                     then Migrate(merged.value, defaults.value, local.value) else merged.value;
        Some(if final == local.value then before else req.codec.print_(final))
  }

  /** What the planner decides about one release file. */
  datatype Decision =
    | Skip
    | Seed                    // default data, added only because it is absent
    | Manage(content: Bytes)  // recorded with this content and written if the disk differs
    | Refuse

  function Decide(req: Request, name: Path): Decision
    requires name in req.bundle.files.at
  {
    var data, files := req.bundle.files.at[name], req.tree.files;
    if req.rules.isSeed(name) then
      if !Resolves(req.tree, name) || name in req.tree.dirs then Refuse else if name in files then Skip else Seed
    else if req.rules.isProtected(name) then Skip
    else if !Resolves(req.tree, name) || name in req.tree.dirs then Refuse
    else if name !in files then Manage(data)
    else
      var before := files[name].content;
      if IsMergeable(req, name) then
        var merged := MergedContent(req, name, data, before);
        if merged.None? then Refuse else Manage(merged.value)
      else if name !in req.previous.files.at && req.rules.isLocal(name) then Skip
      else if name !in req.previous.files.at && before != data then Refuse
      else if name in req.previous.files.at && req.codec.digest(before) != req.previous.files.at[name] && !req.overwrite then Refuse
      else Manage(data)
  }

  /** The write a decision leads to, if any. */
  function WriteOf(req: Request, name: Path): Option<Change>
    requires name in req.bundle.files.at
  {
    var mode := if name in req.bundle.modes then req.bundle.modes[name] else 420;
    match Decide(req, name)
    case Seed => Some(Change(name, Some(req.bundle.files.at[name]), mode))
    case Manage(content) =>
      if name in req.tree.files && req.tree.files[name].content == content then None
      else Some(Change(name, Some(content), mode))
    case _ => None
  }

  /** An obsolete managed file goes only if nobody changed it. */
  predicate Obsolete(req: Request, name: Path) {
    && name in req.previous.files.at && name !in req.bundle.files.at && !req.rules.isProtected(name)
    && name in req.tree.files && req.codec.digest(req.tree.files[name].content) == req.previous.files.at[name]
  }

  function Writes(req: Request, names: seq<Path>): seq<Change>
    requires forall n :: n in names ==> n in req.bundle.files.at
  {
    if names == [] then []
    else
      var w := WriteOf(req, names[|names| - 1]);
      Writes(req, names[..|names| - 1]) + (if w.Some? then [w.value] else [])
  }

  function Deletes(req: Request, names: seq<Path>): seq<Change> {
    if names == [] then []
    else
      Deletes(req, names[..|names| - 1])
      + (if Obsolete(req, names[|names| - 1]) then [Change(names[|names| - 1], None, 420)] else [])
  }

  function Managed(req: Request): map<Path, Digest> {
    map n | n in req.bundle.files.at && Decide(req, n).Manage? :: req.codec.digest(Decide(req, n).content)
  }

  datatype Result = Planned(changes: seq<Change>, managed: map<Path, Digest>) | Refused

  predicate Plannable(req: Request) {
    && (forall r :: r in REQUIRED ==> !req.rules.isProtected(r))
    && (forall n :: n in req.bundle.files.at ==> !Decide(req, n).Refuse?)
    && (forall n :: n in req.previous.files.at && n !in req.bundle.files.at && !req.rules.isProtected(n) ==> Resolves(req.tree, n))
  }

  function PlanOf(req: Request): Result
    requires ValidRequest(req)
  {
    if Plannable(req)
    then Planned(Writes(req, req.bundle.files.names) + Deletes(req, req.previous.files.names), Managed(req))
    else Refused
  }

  /** The pass over the release files; `None` when one of them is refused. */
  method PlanRelease(req: Request) returns (r: Option<(seq<Change>, map<Path, Digest>)>)
    requires ValidRequest(req)
    ensures r.None? <==> exists n :: n in req.bundle.files.at && Decide(req, n).Refuse?
    ensures r.Some? ==> r.value == (Writes(req, req.bundle.files.names), Managed(req))
  {
    var changes: seq<Change> := [];
    var managed: map<Path, Digest> := map[];
    var names := req.bundle.files.names;
    var i := 0;
    while i < |names|
      invariant i <= |names| && changes == Writes(req, names[..i])
      invariant forall n :: n in names[..i] ==> !Decide(req, n).Refuse?
      invariant forall n :: n in managed <==> n in names[..i] && Decide(req, n).Manage?
      invariant forall n :: n in managed ==> managed[n] == req.codec.digest(Decide(req, n).content)
    {
      var name := names[i];
      assert names[..i + 1] == names[..i] + [name] && names[..i + 1][..i] == names[..i];
      var d := Decide(req, name);
      if d.Refuse? {
        return None;
      }
      if d.Manage? {
        managed := managed[name := req.codec.digest(d.content)];
      }
      var write := WriteOf(req, name);
      if write.Some? {
        changes := changes + [write.value];
      }
      i := i + 1;
    }
    assert names[..i] == names;
    assert managed == Managed(req);
    return Some((changes, managed));
  }

  /** The pass over the files recorded before. */
  method PlanObsolete(req: Request) returns (r: Option<seq<Change>>)
    requires ValidRequest(req)
    ensures r.None? <==> exists n :: n in req.previous.files.at && n !in req.bundle.files.at
                           && !req.rules.isProtected(n) && !Resolves(req.tree, n)
    ensures r.Some? ==> r.value == Deletes(req, req.previous.files.names)
  {
    var changes: seq<Change> := [];
    var names := req.previous.files.names;
    var i := 0;
    while i < |names|
      invariant i <= |names| && changes == Deletes(req, names[..i])
      invariant forall n :: n in names[..i] && n !in req.bundle.files.at && !req.rules.isProtected(n) ==> Resolves(req.tree, n)
    {
      var name := names[i];
      assert names[..i + 1] == names[..i] + [name] && names[..i + 1][..i] == names[..i];
      if name !in req.bundle.files.at && !req.rules.isProtected(name) {
        if !Resolves(req.tree, name) {
          return None;
        }
        if name in req.tree.files && req.codec.digest(req.tree.files[name].content) == req.previous.files.at[name] {
          changes := changes + [Change(name, None, 420)];
        }
      }
      i := i + 1;
    }
    assert names[..i] == names;
    return Some(changes);
  }

  /** `plan`. */
  method Plan(req: Request) returns (r: Result)
    requires ValidRequest(req)
    ensures r == PlanOf(req)
  {
    if exists required :: required in REQUIRED && req.rules.isProtected(required) {
      return Refused;
    }
    var release := PlanRelease(req);
    if release.None? {
      return Refused;
    }
    var deletes := PlanObsolete(req);
    if deletes.None? {
      return Refused;
    }
    return Planned(release.value.0 + deletes.value, release.value.1);
  }
}
