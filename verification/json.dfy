/**
 Parsed configuration values and the two ways release defaults are merged into a local configuration.
 Objects are compared as mappings, without key order.
 */
module Configs {
  import opened Options

  datatype Json =
    | Null
    | Bool(b: bool)
    | Int(i: int)
    | Float(repr: string)
    | Str(s: string)
    | List(items: seq<Json>)
    | Obj(fields: map<string, Json>)

  /** `type(a) is type(b)`. */
  predicate SameType(a: Json, b: Json) {
    match a
    case Null => b.Null?
    case Bool(_) => b.Bool?
    case Int(_) => b.Int?
    case Float(_) => b.Float?
    case Str(_) => b.Str?
    case List(_) => b.List?
    case Obj(_) => b.Obj?
  }

  /** The deployment tool's merge; `None` is the "type changed" error. */
  function Merge(defaults: Json, local: Json): Option<Json> {
    if defaults.Obj? && local.Obj? then
      if exists k :: k in defaults.fields && k in local.fields && Merge(defaults.fields[k], local.fields[k]).None? then None
      else Some(Obj(map k | k in defaults.fields.Keys + local.fields.Keys ::
        if k !in local.fields then defaults.fields[k]
        else if k !in defaults.fields then local.fields[k]
        else Merge(defaults.fields[k], local.fields[k]).value))
    else if !SameType(defaults, local) && !defaults.Null? && !local.Null? then None
    else Some(local)
  }

  /** The updater's merge, which starts from the remote document and never fails. */
  function MergeRemote(source: Json, target: Json): Json
    decreases target
  {
    if !source.Obj? || !target.Obj? then target
    else Obj(map k | k in source.fields.Keys + target.fields.Keys ::
      if k !in target.fields then source.fields[k]
      else if k !in source.fields then target.fields[k]
      else MergeRemote(source.fields[k], target.fields[k]))
  }

  lemma {:induction false} MergeIs(defaults: Json, local: Json, result: map<string, Json>)
    requires defaults.Obj? && local.Obj? && result.Keys == local.fields.Keys + defaults.fields.Keys
    requires forall k :: k in local.fields && k !in defaults.fields ==> result[k] == local.fields[k]
    requires forall k :: k in defaults.fields && k in local.fields ==> Merge(defaults.fields[k], local.fields[k]) == Some(result[k])
    requires forall k :: k in defaults.fields && k !in local.fields ==> result[k] == defaults.fields[k]
    ensures Merge(defaults, local) == Some(Obj(result))
  {
    var merged := Merge(defaults, local).value.fields;
    assert merged.Keys == result.Keys;
    forall k | k in result ensures merged[k] == result[k] {
    }
    assert merged == result;
  }

  lemma {:induction false} MergeRemoteIs(source: Json, target: Json, result: map<string, Json>)
    requires source.Obj? && target.Obj? && result.Keys == source.fields.Keys + target.fields.Keys
    requires forall k :: k in source.fields && k !in target.fields ==> result[k] == source.fields[k]
    requires forall k :: k in target.fields ==>
      result[k] == if k in source.fields then MergeRemote(source.fields[k], target.fields[k]) else target.fields[k]
    ensures MergeRemote(source, target) == Obj(result)
  {
    assert MergeRemote(source, target).fields == result;
  }

  /** Every default that is not in `rest` has been visited. */
  ghost predicate MergedOver(defaults: Json, local: Json, result: map<string, Json>, rest: set<string>)
    requires defaults.Obj? && local.Obj?
  {
    && rest <= defaults.fields.Keys
    && result.Keys == local.fields.Keys + (defaults.fields.Keys - rest)
    && (forall k :: k in result && (k !in defaults.fields || k in rest) ==> k in local.fields && result[k] == local.fields[k])
    && (forall k :: k in defaults.fields && k !in rest && k in local.fields ==>
          Merge(defaults.fields[k], local.fields[k]) == Some(result[k]))
    && (forall k :: k in defaults.fields && k !in rest && k !in local.fields ==> result[k] == defaults.fields[k])
  }

  lemma MergedOverStep(defaults: Json, local: Json, result: map<string, Json>, rest: set<string>, k: string, v: Json)
    requires defaults.Obj? && local.Obj? && MergedOver(defaults, local, result, rest) && k in rest
    requires k in local.fields ==> Merge(defaults.fields[k], local.fields[k]) == Some(v)
    requires k !in local.fields ==> v == defaults.fields[k]
    ensures MergedOver(defaults, local, result[k := v], rest - {k})
  {
  }

  /** Every local value that is not in `rest` has been visited. */
  ghost predicate RemoteMergedOver(source: Json, target: Json, merged: map<string, Json>, rest: set<string>)
    requires source.Obj? && target.Obj?
  {
    && rest <= target.fields.Keys
    && merged.Keys == source.fields.Keys + (target.fields.Keys - rest)
    && (forall k :: k in merged && (k !in target.fields || k in rest) ==> k in source.fields && merged[k] == source.fields[k])
    && (forall k :: k in target.fields && k !in rest ==>
          merged[k] == if k in source.fields then MergeRemote(source.fields[k], target.fields[k]) else target.fields[k])
  }

  /** `merge_defaults`: copy the local object, then visit every default. */
  method MergeDefaults(defaults: Json, local: Json) returns (r: Option<Json>)
    ensures r == Merge(defaults, local)
    decreases local
  {
    if defaults.Obj? && local.Obj? {
      var result := local.fields;
      var rest := defaults.fields.Keys;
      while rest != {}
        invariant MergedOver(defaults, local, result, rest)
        decreases |rest|
      {
        var k :| k in rest;
        if k in local.fields {
          var sub := MergeDefaults(defaults.fields[k], local.fields[k]);
          if sub.None? {
            return None;
          }
          MergedOverStep(defaults, local, result, rest, k, sub.value);
          result := result[k := sub.value];
        } else {
          MergedOverStep(defaults, local, result, rest, k, defaults.fields[k]);
          result := result[k := defaults.fields[k]];
        }
        rest := rest - {k};
      }
      MergeIs(defaults, local, result);
      return Some(Obj(result));
    }
    if !SameType(defaults, local) && !defaults.Null? && !local.Null? {
      return None;
    }
    return Some(local);
  }

  /** `_merge_remote_defaults`: copy the remote object, then visit every local value. */
  method MergeRemoteDefaults(source: Json, target: Json) returns (r: Json)
    ensures r == MergeRemote(source, target)
    decreases target
  {
    if !source.Obj? || !target.Obj? {
      return target;
    }
    var merged := source.fields;
    var rest := target.fields.Keys;
    while rest != {}
      invariant RemoteMergedOver(source, target, merged, rest)
      decreases |rest|
    {
      var k :| k in rest;
      if k in merged {
        var sub := MergeRemoteDefaults(merged[k], target.fields[k]);
        merged := merged[k := sub];
      } else {
        merged := merged[k := target.fields[k]];
      }
      rest := rest - {k};
    }
    MergeRemoteIs(source, target, merged);
    return Obj(merged);
  }

  /** The value at a path of keys. */
  function Lookup(v: Json, path: seq<string>): Option<Json>
    decreases |path|
  {
    if path == [] then Some(v)
    else if v.Obj? && path[0] in v.fields then Lookup(v.fields[path[0]], path[1..])
    else None
  }

  /** Some proper prefix of the path already holds a value that is not an object. */
  predicate BlockedAt(v: Json, path: seq<string>)
    decreases |path|
  {
    path != [] && (!v.Obj? || (path[0] in v.fields && BlockedAt(v.fields[path[0]], path[1..])))
  }

  /** The merged document path by path: local leaves stay, and exactly the missing default paths appear. */
  lemma {:induction false} MergeByPath(defaults: Json, local: Json, path: seq<string>)
    requires Merge(defaults, local).Some?
    ensures var merged, mine := Lookup(Merge(defaults, local).value, path), Lookup(local, path);
      && (mine.Some? && !mine.value.Obj? ==> merged == mine)
      && (mine.Some? && mine.value.Obj? ==> merged.Some? && merged.value.Obj?)
      && (mine.None? ==> merged == if BlockedAt(local, path) then None else Lookup(defaults, path))
    decreases |path|
  {
    if path != [] && defaults.Obj? && local.Obj? {
      var k := path[0];
      if k in defaults.fields && k in local.fields {
        MergeByPath(defaults.fields[k], local.fields[k], path[1..]);
      }
    }
  }

  /** The updater's merge path by path, whatever clashes: the local value wins, and exactly the missing paths appear. */
  lemma {:induction false} RemoteMergeByPath(source: Json, target: Json, path: seq<string>)
    ensures var merged, mine := Lookup(MergeRemote(source, target), path), Lookup(target, path);
      && (mine.Some? && !mine.value.Obj? ==> merged == mine)
      && (mine.Some? && mine.value.Obj? ==> merged.Some? && merged.value.Obj?)
      && (mine.None? ==> merged == if BlockedAt(target, path) then None else Lookup(source, path))
    decreases |path|
  {
    if path != [] && source.Obj? && target.Obj? {
      var k := path[0];
      if k in source.fields && k in target.fields {
        RemoteMergeByPath(source.fields[k], target.fields[k], path[1..]);
      }
    }
  }

  lemma {:induction false} MergeSelf(v: Json)
    ensures Merge(v, v) == Some(v)
  {
    if v.Obj? {
      forall k | k in v.fields ensures Merge(v.fields[k], v.fields[k]) == Some(v.fields[k]) {
        MergeSelf(v.fields[k]);
      }
      assert Merge(v, v).value.fields == v.fields;
    }
  }

  lemma {:induction false} MergeIdempotent(defaults: Json, local: Json)
    requires Merge(defaults, local).Some?
    ensures Merge(defaults, Merge(defaults, local).value) == Merge(defaults, local)
    decreases local
  {
    if defaults.Obj? && local.Obj? {
      var merged := Merge(defaults, local).value;
      forall k | k in defaults.fields ensures Merge(defaults.fields[k], merged.fields[k]) == Some(merged.fields[k]) {
        if k in local.fields {
          MergeIdempotent(defaults.fields[k], local.fields[k]);
        } else {
          MergeSelf(defaults.fields[k]);
        }
      }
      assert Merge(defaults, merged).value.fields == merged.fields;
    }
  }

  /** Whenever the deployment merge succeeds the two merges produce the same mapping. */
  lemma {:induction false} MergesAgree(defaults: Json, local: Json)
    requires Merge(defaults, local).Some?
    ensures MergeRemote(defaults, local) == Merge(defaults, local).value
    decreases local
  {
    if defaults.Obj? && local.Obj? {
      forall k | k in defaults.fields && k in local.fields
        ensures MergeRemote(defaults.fields[k], local.fields[k]) == Merge(defaults.fields[k], local.fields[k]).value
      {
        MergesAgree(defaults.fields[k], local.fields[k]);
      }
      assert MergeRemote(defaults, local).fields == Merge(defaults, local).value.fields;
    }
  }

  /** One number for each type of value, zero for no value. */
  function TypeNumber(v: Json): nat {
    match v
    case Null => 0
    case Bool(_) => 1
    case Int(_) => 2
    case Float(_) => 3
    case Str(_) => 4
    case List(_) => 5
    case Obj(_) => 6
  }

  /** Two values of different types meet at the path, and neither is null. */
  predicate Clash(defaults: Json, local: Json, path: seq<string>) {
    var d, l := Lookup(defaults, path), Lookup(local, path);
    && d.Some? && l.Some? && TypeNumber(d.value) != TypeNumber(l.value)
    && TypeNumber(d.value) != 0 && TypeNumber(l.value) != 0
  }

  /** The merge fails exactly when some path present on both sides changed its type. */
  lemma {:induction false} MergeFailsIffClash(defaults: Json, local: Json)
    ensures Merge(defaults, local).None? <==> exists path :: Clash(defaults, local, path)
    decreases local
  {
    if defaults.Obj? && local.Obj? {
      forall k | k in defaults.fields && k in local.fields
        ensures Merge(defaults.fields[k], local.fields[k]).None? <==>
                exists path :: Clash(defaults.fields[k], local.fields[k], path)
      {
        MergeFailsIffClash(defaults.fields[k], local.fields[k]);
      }
      if k :| k in defaults.fields && k in local.fields && Merge(defaults.fields[k], local.fields[k]).None? {
        var path :| Clash(defaults.fields[k], local.fields[k], path);
        assert ([k] + path)[1..] == path;
        assert Clash(defaults, local, [k] + path);
      }
      if path :| Clash(defaults, local, path) {
        assert Clash(defaults.fields[path[0]], local.fields[path[0]], path[1..]);
      }
    } else {
      assert Clash(defaults, local, []) <==> Merge(defaults, local).None?;
      forall path | Clash(defaults, local, path) ensures path == [] {
      }
    }
  }
}
