/** The ownership rules name by name, and that they leave the files free which every release must bring. */
module PolicyLaws {
  import opened Trees
  import opened Policies

  /** The trees that belong to the user, to the runtime or to the tool. */
  ghost predicate InReservedTree(name: Path)
    requires name != []
  {
    || name[0] in {"users", "runtime", "tmp", ".git", ".venv", "venv", ".kemo-deploy", ".backups"}
    || (|name| >= 2 && name[0] == "message" && name[1] == "out")
    || (|name| >= 2 && name[0] == "global_knowledge" && name[1] == "kemo-graph-storage")
  }

  ghost predicate IsReservedFile(name: Path) {
    name in {[".env"], [".kemo-install.json"], [".update.lock"], [".update.maintenance"], ["config", "message_config.json"]}
  }

  /** A configured entry names the path, or with a trailing slash something above it. */
  ghost predicate Preserved(name: Path, extra: seq<Guard>) {
    exists g :: g in extra && (name == g.path || (g.tree && exists k :: 0 <= k < |name| && name[..k] == g.path))
  }

  ghost predicate Occurs(part: string, s: string) {
    exists i :: 0 <= i <= |s| && part <= s[i..]
  }

  ghost predicate HasSuffix(s: string, suffix: string) {
    exists i :: 0 <= i <= |s| && s[i..] == suffix
  }

  /** Environment files apart from the example, databases, locks, process identifiers, byte code and logs. */
  ghost predicate PrivateName(base: string) {
    || (|base| >= 4 && base[..4] == ".env" && base != ".env.example")
    || Occurs(".sqlite3", base)
    || (exists suffix :: suffix in {".db", ".lock", ".pid", ".pyc", ".log"} && HasSuffix(base, suffix))
  }

  /** In the module directories: local configuration, names with an underscore apart from two, and data two levels down. */
  ghost predicate LocalInModule(name: Path)
    requires name != []
  {
    var base := name[|name| - 1];
    && LocalModule(name)
    && (|| base in {"panel.values.json", "status.json", "input_data.md", "config.json", "users.json",
                    "credential_registry.json", "gateway_config.json", "graph_config.json"}
        || (base != "" && base[0] == '_' && base != "__init__.py" && base != "__main__.py")
        || (exists i :: 2 <= i < |name| && name[i] in {"data", "artifacts", "logs"}))
  }

  ghost predicate InGeneratedDirectory(name: Path) {
    exists i :: 0 <= i < |name| && name[i] in {"__pycache__", "node_modules", ".pytest_cache", ".kemo-deploy"}
  }

  lemma {:induction false} ContainsIff(s: string, part: string)
    ensures Contains(s, part) <==> Occurs(part, s)
    decreases |s|
  {
    assert s[0..] == s;
    if s != [] {
      ContainsIff(s[1..], part);
      forall i | 1 <= i <= |s| ensures s[1..][i - 1..] == s[i..] {
      }
      if i :| 0 <= i <= |s[1..]| && part <= s[1..][i..] {
        assert part <= s[i + 1..];
      }
      if i :| 0 <= i <= |s| && part <= s[i..] && i > 0 {
        assert part <= s[1..][i - 1..];
      }
    }
  }

  lemma SuffixIff(s: string, suffix: string)
    ensures EndsWith(s, suffix) <==> HasSuffix(s, suffix)
  {
    if EndsWith(s, suffix) {
      assert s[|s| - |suffix|..] == suffix;
    }
  }

  lemma PrivateIff(base: string)
    ensures PrivateBase(base) <==> PrivateName(base)
  {
    ContainsIff(base, ".sqlite3");
    SuffixIff(base, ".db");
    SuffixIff(base, ".lock");
    SuffixIff(base, ".pid");
    SuffixIff(base, ".pyc");
    SuffixIff(base, ".log");
  }

  lemma CoversIff(g: Guard, name: Path)
    ensures Covers(g, name) <==> name == g.path || (g.tree && exists k :: 0 <= k < |name| && name[..k] == g.path)
  {
    if g.tree && Above(g.path, name) {
      assert name[..|g.path|] == g.path;
    }
  }

  /** The first entry of a two-component path. */
  lemma Pair(name: Path, a: string, b: string)
    ensures name == [a, b] || Above([a, b], name) <==> |name| >= 2 && name[0] == a && name[1] == b
  {
    if |name| >= 2 && name[0] == a && name[1] == b {
      assert name[..2] == [a, b];
    }
  }

  lemma Single(name: Path, a: string)
    ensures name == [a] || Above([a], name) <==> name != [] && name[0] == a
  {
    if name != [] && name[0] == a {
      assert name[..1] == [a];
    }
  }

  lemma ListedIff(name: Path)
    requires name != []
    ensures (exists g :: g in PROTECTED && Covers(g, name)) <==> InReservedTree(name) || IsReservedFile(name)
  {
    forall a ensures name == [a] || Above([a], name) <==> name[0] == a {
      Single(name, a);
    }
    Pair(name, "message", "out");
    Pair(name, "global_knowledge", "kemo-graph-storage");
    if g :| g in PROTECTED && Covers(g, name) {
      var i :| 0 <= i < |PROTECTED| && PROTECTED[i] == g;
    }
    if InReservedTree(name) || IsReservedFile(name) {
      var i := ReservedIndex(name);
      assert Covers(PROTECTED[i], name);
    }
  }

  lemma ReservedIndex(name: Path) returns (i: nat)
    requires name != [] && (InReservedTree(name) || IsReservedFile(name))
    ensures i < |PROTECTED| && Covers(PROTECTED[i], name)
  {
    Single(name, name[0]);
    Pair(name, "message", "out");
    Pair(name, "global_knowledge", "kemo-graph-storage");
    i := if name[0] == "users" then 0 else if name[0] == "runtime" then 1 else if name[0] == "tmp" then 2
         else if name == [".env"] then 3 else if name[0] == ".git" then 4 else if name[0] == ".venv" then 5
         else if name[0] == "venv" then 6 else if name[0] == ".kemo-deploy" then 7
         else if name == [".kemo-install.json"] then 8 else if name == [".update.lock"] then 9
         else if name == [".update.maintenance"] then 10 else if name[0] == ".backups" then 11
         else if name[0] == "message" then 12 else if name[0] == "global_knowledge" then 13 else 14;
  }

  lemma GuardsIff(name: Path, extra: seq<Guard>)
    requires name != []
    ensures (exists g :: g in PROTECTED + extra && Covers(g, name)) <==>
      InReservedTree(name) || IsReservedFile(name) || Preserved(name, extra)
  {
    ListedIff(name);
    forall g | g in extra ensures
      Covers(g, name) <==> name == g.path || (g.tree && exists k :: 0 <= k < |name| && name[..k] == g.path)
    {
      CoversIff(g, name);
    }
    if g :| g in PROTECTED + extra && Covers(g, name) {
      assert g in PROTECTED || g in extra;
    }
    if g :| g in PROTECTED && Covers(g, name) {
      assert g in PROTECTED + extra;
    }
    if g :| g in extra && Covers(g, name) {
      assert g in PROTECTED + extra;
    }
  }

  /** Exactly what is protected: reserved or configured paths, generated directories, private names and local module data. */
  lemma ProtectedIff(name: Path, extra: seq<Guard>)
    requires name != []
    ensures Protected(name, extra) <==>
      || InReservedTree(name) || IsReservedFile(name) || Preserved(name, extra)
      || InGeneratedDirectory(name) || PrivateName(name[|name| - 1]) || LocalInModule(name)
  {
    GuardsIff(name, extra);
    PrivateIff(name[|name| - 1]);
  }

  /** What the planner is told about a name by the shipped rules. */
  lemma ShippedRules(name: Path, extra: seq<Guard>)
    requires name != []
    ensures RulesWith(extra).isProtected(name) <==> Protected(name, extra)
    ensures RulesWith(extra).isSeed(name) <==>
      |name| == 2 && name[0] in {"global_knowledge", "shared_knowledge"} && name[1] == "classify.sqlite3"
    ensures RulesWith(extra).isLocal(name) <==> name[0] in {"global_expand", "global_sense", "shared_expand", "shared_skills"}
    ensures RulesWith(extra).isMerged(name) <==>
      || name == ["config", "global_config.json"]
      || (name[0] in {"global_expand", "global_sense", "shared_expand"} && name[|name| - 1] in {"expand.json", "sense.json"})
      || (|name| > 2 && name[0] == "cron" && name[1] == "task_cron_system" && HasSuffix(name[|name| - 1], ".json"))
  {
    SuffixIff(name[|name| - 1], ".json");
    if |name| >= 2 {
      assert name[..2] == [name[0], name[1]];
    }
    assert |name| == 2 ==> name == [name[0], name[1]];
  }

  /** Nothing about the name of a required file is on a list. */
  lemma RequiredNames(name: Path)
    requires name in REQUIRED
    ensures 1 <= |name| <= 4 && name[0] in {"version.json", "requirements.txt", "start_web.py", "setup.py", "deploy", "web"}
    ensures !InGeneratedDirectory(name)
    ensures name[|name| - 1] in
      {"version.json", "requirements.txt", "start_web.py", "setup.py", "deploy.py", "cli.py", "index.html"}
  {
    var i :| 0 <= i < |REQUIRED| && REQUIRED[i] == name;
  }

  lemma RequiredBase(base: string)
    requires base in {"version.json", "requirements.txt", "start_web.py", "setup.py", "deploy.py", "cli.py", "index.html"}
    ensures base != "" && base[0] != '.' && '3' !in base && base[|base| - 1] in {'n', 't', 'y', 'l'}
  {
  }

  /** Without configured entries no file that a release must bring is protected. */
  lemma RequiredFilesAreFree(name: Path)
    requires name in REQUIRED
    ensures name != [] && !Protected(name, [])
  {
    RequiredNames(name);
    RequiredBase(name[|name| - 1]);
    NotPrivate(name[|name| - 1]);
    ProtectedIff(name, []);
    NotReserved(name);
  }

  lemma NotReserved(name: Path)
    requires name != [] && name[0] in {"version.json", "requirements.txt", "start_web.py", "setup.py", "deploy", "web"}
    ensures !InReservedTree(name) && !IsReservedFile(name) && !LocalInModule(name)
  {
  }

  lemma DatabaseHasThree(base: string)
    requires Occurs(".sqlite3", base)
    ensures '3' in base
  {
    var i :| 0 <= i <= |base| && ".sqlite3" <= base[i..];
    assert base[i + 7] == base[i..][7];
  }

  lemma LastOfSuffix(base: string, suffix: string)
    requires suffix != "" && HasSuffix(base, suffix)
    ensures base != "" && base[|base| - 1] == suffix[|suffix| - 1]
  {
  }

  lemma NotPrivate(base: string)
    requires base != "" && base[0] != '.' && '3' !in base && base[|base| - 1] in {'n', 't', 'y', 'l'}
    ensures !PrivateName(base)
  {
    if Occurs(".sqlite3", base) {
      DatabaseHasThree(base);
    }
    if suffix :| suffix in {".db", ".lock", ".pid", ".pyc", ".log"} && HasSuffix(base, suffix) {
      LastOfSuffix(base, suffix);
    }
  }
}
