/** The ownership contract of the deployment tool: which paths a release may touch. */
module Policies {
  import opened Trees

  /** A protected entry; a `tree` entry (trailing slash) also covers everything below it. */
  datatype Guard = Guard(path: Path, tree: bool)

  const PROTECTED: seq<Guard> := [
    Guard(["users"], true), Guard(["runtime"], true), Guard(["tmp"], true), Guard([".env"], false),
    Guard([".git"], true), Guard([".venv"], true), Guard(["venv"], true), Guard([".kemo-deploy"], true),
    Guard([".kemo-install.json"], false), Guard([".update.lock"], false), Guard([".update.maintenance"], false),
    Guard([".backups"], true), Guard(["message", "out"], true),
    Guard(["global_knowledge", "kemo-graph-storage"], true), Guard(["config", "message_config.json"], false)
  ]

  const LOCAL_NAMES: set<string> := {
    "panel.values.json", "status.json", "input_data.md", "config.json", "users.json",
    "credential_registry.json", "gateway_config.json", "graph_config.json"
  }

  const RELEASE_DATA_FILES: set<Path> := {
    ["global_knowledge", "classify.sqlite3"], ["shared_knowledge", "classify.sqlite3"]
  }

  const REQUIRED: seq<Path> := [
    ["version.json"], ["requirements.txt"], ["start_web.py"], ["setup.py"], ["deploy", "deploy.py"],
    ["deploy", "core", "cli.py"], ["web", "frontend", "dist", "index.html"]
  ]

  predicate StartsWith(s: string, prefix: string) {
    prefix <= s
  }

  predicate EndsWith(s: string, suffix: string) {
    |suffix| <= |s| && s[|s| - |suffix|..] == suffix
  }

  predicate Contains(s: string, part: string) {
    part <= s || (s != [] && Contains(s[1..], part))
  }

  predicate Covers(g: Guard, name: Path) {
    name == g.path || (g.tree && Above(g.path, name))
  }

  predicate PreservedSeed(name: Path) {
    name in RELEASE_DATA_FILES
  }

  /** What the planner asks about a name. */
  datatype Rules = Rules(isProtected: Path -> bool, isSeed: Path -> bool, isMerged: Path -> bool, isLocal: Path -> bool)

  function RulesWith(extra: seq<Guard>): Rules {
    Rules(name => name != [] && Protected(name, extra), PreservedSeed,
          name => name != [] && MergeFile(name), name => name != [] && LocalModule(name))
  }

  /** The basename rules that hold everywhere. */
  predicate PrivateBase(base: string) {
    || (StartsWith(base, ".env") && base != ".env.example")
    || Contains(base, ".sqlite3")
    || EndsWith(base, ".db") || EndsWith(base, ".lock") || EndsWith(base, ".pid")
    || EndsWith(base, ".pyc") || EndsWith(base, ".log")
  }

  /** The extra rules inside the module directories. */
  predicate PrivateInModule(name: Path)
    requires name != []
  {
    var base := name[|name| - 1];
    && name[0] in {"global_expand", "global_sense", "shared_expand", "shared_skills"}
    && (|| base in LOCAL_NAMES
        || (StartsWith(base, "_") && base !in {"__init__.py", "__main__.py"})
        || exists i :: 2 <= i < |name| && name[i] in {"data", "artifacts", "logs"})
  }

  predicate Protected(name: Path, extra: seq<Guard>)
    requires name != []
  {
    || (exists g :: g in PROTECTED + extra && Covers(g, name))
    || (exists i :: 0 <= i < |name| && name[i] in {"__pycache__", "node_modules", ".pytest_cache", ".kemo-deploy"})
    || PrivateBase(name[|name| - 1])
    || PrivateInModule(name)
  }

  predicate MergeFile(name: Path)
    requires name != []
  {
    || name == ["config", "global_config.json"]
    || (&& name[0] in {"global_expand", "global_sense", "shared_expand"}
        && name[|name| - 1] in {"expand.json", "sense.json"})
    || (&& |name| > 2 && name[..2] == ["cron", "task_cron_system"] && EndsWith(name[|name| - 1], ".json"))
  }

  predicate LocalModule(name: Path)
    requires name != []
  {
    name[0] in {"global_expand", "global_sense", "shared_expand", "shared_skills"}
  }

  /** What the tool and the updater keep for themselves: record, transactions, locks, markers, backups. */
  const OWN_FILES: set<Path> := {[".kemo-install.json"], [".update.lock"], [".update.maintenance"]}
  const OWN_TREES: set<string> := {".kemo-deploy", ".backups", ".git", ".venv", "venv", "users", "runtime", "tmp"}

  lemma Listed(extra: seq<Guard>, name: Path, i: nat)
    requires name != [] && i < |PROTECTED| && Covers(PROTECTED[i], name)
    ensures Protected(name, extra)
  {
    assert PROTECTED[i] in PROTECTED + extra;
  }

  lemma ListedTree(extra: seq<Guard>, name: Path, i: nat)
    requires name != [] && i < |PROTECTED| && PROTECTED[i] == Guard([name[0]], true)
    ensures Protected(name, extra)
  {
    assert |name| == 1 ==> name == [name[0]];
    assert |name| > 1 ==> name[..1] == [name[0]];
    Listed(extra, name, i);
  }

  lemma OwnTreesAreProtected(extra: seq<Guard>, name: Path)
    requires name != [] && name[0] in OWN_TREES
    ensures Protected(name, extra)
  {
    var i := if name[0] == "users" then 0 else if name[0] == "runtime" then 1 else if name[0] == "tmp" then 2
             else if name[0] == ".git" then 4 else if name[0] == ".venv" then 5 else if name[0] == "venv" then 6
             else if name[0] == ".kemo-deploy" then 7 else 11;
    ListedTree(extra, name, i);
  }

  /**
   Nothing the tool keeps for itself can be named by a release, whatever a configuration adds, and seeds never
   become managed files.
   */
  lemma OwnFilesAreProtected(extra: seq<Guard>, name: Path)
    requires name != []
    ensures name in OWN_FILES || name[0] in OWN_TREES || PreservedSeed(name) ==> Protected(name, extra)
  {
    if name in OWN_FILES {
      Listed(extra, name, if name == [".kemo-install.json"] then 8 else if name == [".update.lock"] then 9 else 10);
    } else if name[0] in OWN_TREES {
      OwnTreesAreProtected(extra, name);
    } else if PreservedSeed(name) {
      assert Contains("classify.sqlite3", ".sqlite3") by {
        ContainsAt("classify.sqlite3", ".sqlite3", 8);
      }
    }
  }

  lemma {:induction false} ContainsAt(s: string, part: string, i: nat)
    requires i <= |s| && part <= s[i..]
    ensures Contains(s, part)
  {
    if i > 0 {
      assert s[1..][i - 1..] == s[i..];
      ContainsAt(s[1..], part, i - 1);
    }
  }
}
