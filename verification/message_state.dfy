/**
 The idempotency table for inbound messages: claims are all-or-nothing, and trimming old rows never drops one
 that is still being processed.
 */
module MessageStates {
  import opened Options
  import opened Collections

  /** A dedupe key, as the code points of the stripped text. */
  type Key = seq<nat>

  datatype Status = Processing | Done | Failed

  datatype Row = Row(status: Status, updated: int)

  type Table = map<Key, Row>

  /** Binary collation. */
  predicate KeyLess(a: Key, b: Key) {
    b != [] && (a == [] || a[0] < b[0] || (a[0] == b[0] && KeyLess(a[1..], b[1..])))
  }

  lemma {:induction false} KeyOrder(a: Key, b: Key, c: Key)
    ensures !KeyLess(a, a)
    ensures KeyLess(a, b) || KeyLess(b, a) || a == b
    ensures KeyLess(a, b) && KeyLess(b, c) ==> KeyLess(a, c)
    decreases |a|
  {
    if a != [] {
      KeyOrder(a[1..], if b == [] then [] else b[1..], if c == [] then [] else c[1..]);
      if b != [] && a[0] == b[0] && a[1..] == b[1..] {
        assert a == [a[0]] + a[1..] && b == [b[0]] + b[1..];
      }
    }
  }

  /** `ORDER BY updated_at, dedupe_key`. */
  predicate Older(t: Table, a: Key, b: Key)
    requires a in t && b in t
  {
    t[a].updated < t[b].updated || (t[a].updated == t[b].updated && KeyLess(a, b))
  }

  function InFlight(t: Table): set<Key> {
    set k | k in t && t[k].status == Processing
  }

  function Settled(t: Table): set<Key> {
    set k | k in t && t[k].status != Processing
  }

  /** Delete the oldest settled rows, as many as the table is over its limit. */
  ghost predicate IsTrim(t: Table, limit: nat, r: Table) {
    var gone := t.Keys - r.Keys;
    && r == t - gone && gone <= Settled(t)
    && |gone| == (if |t| <= limit then 0 else if |t| - limit < |Settled(t)| then |t| - limit else |Settled(t)|)
    && (forall a, b :: a in gone && b in Settled(t) && b !in gone ==> Older(t, a, b))
  }

  /** The settled rows, split so that everything in `gone` is older than everything in `rest`. */
  ghost predicate Oldests(t: Table, gone: set<Key>, rest: set<Key>) {
    && gone <= Settled(t) && rest == Settled(t) - gone
    && forall a, b :: a in gone && b in rest ==> Older(t, a, b)
  }

  lemma OldestsMore(t: Table, gone: set<Key>, rest: set<Key>, k: Key)
    requires Oldests(t, gone, rest) && k in rest && forall b :: b in rest && b != k ==> Older(t, k, b)
    ensures Oldests(t, gone + {k}, rest - {k})
  {
  }

  lemma OldestExists(t: Table, s: set<Key>) returns (m: Key)
    requires s != {} && forall k :: k in s ==> k in t
    ensures m in s && forall k :: k in s && k != m ==> Older(t, m, k)
  {
    forall a, b, c | a in s && b in s && c in s
      ensures a == b || Older(t, a, b) || Older(t, b, a)
      ensures Older(t, a, b) && Older(t, b, c) ==> Older(t, a, c)
    {
      KeyOrder(a, b, c);
    }
    m := FirstExists(s, (a, b) => a in t && b in t && Older(t, a, b));
  }

  method Oldest(t: Table, s: set<Key>) returns (m: Key)
    requires s != {} && forall k :: k in s ==> k in t
    ensures m in s && forall k :: k in s && k != m ==> Older(t, m, k)
  {
    ghost var w := OldestExists(t, s);
    m :| m in s && forall k :: k in s && k != m ==> Older(t, m, k);
  }

  /* ---- Operations ---- */

  /** `Recover` happens at host start, when no worker of the previous host is left. */
  datatype Op = Claim(keys: set<Key>, now: int) | Complete(keys: set<Key>, status: Status, now: int) | Recover(now: int)

  /** The table, and the keys whose claim some worker of this host has not completed yet. */
  datatype World = World(rows: Table, owned: set<Key>)

  function WriteAll(t: Table, keys: set<Key>, row: Row): Table {
    t + (map k | k in keys :: row)
  }

  lemma WriteOne(t: Table, keys: set<Key>, row: Row, k: Key)
    ensures WriteAll(t, keys, row)[k := row] == WriteAll(t, keys + {k}, row)
  {
  }

  /** New keys for a claim, claimed keys for a completion, something in flight for a recovery. */
  predicate Accepted(t: Table, op: Op) {
    match op
    case Claim(keys, _) => keys != {} && forall k :: k in keys ==> k !in t
    case Complete(keys, status, _) => keys != {} && status != Processing && forall k :: k in keys ==> k in t
    case Recover(_) => InFlight(t) != {}
  }

  /** The table before trimming. */
  function Written(t: Table, op: Op): Table {
    match op
    case Claim(keys, now) => WriteAll(t, keys, Row(Processing, now))
    case Complete(keys, status, now) => WriteAll(t, keys, Row(status, now))
    case Recover(now) => map k | k in t :: if t[k].status == Processing then Row(Failed, now) else t[k]
  }

  function OwnedAfter(w: World, op: Op): set<Key> {
    match op
    case Claim(keys, _) => if Accepted(w.rows, op) then w.owned + keys else w.owned
    case Complete(keys, _, _) => if Accepted(w.rows, op) then w.owned - keys else w.owned
    case Recover(_) => {}
  }

  ghost predicate Step(w: World, op: Op, limit: nat, v: World) {
    && v.owned == OwnedAfter(w, op)
    && if Accepted(w.rows, op) then IsTrim(Written(w.rows, op), limit, v.rows) else v.rows == w.rows
  }

  lemma Refused(w: World, op: Op, limit: nat)
    requires !Accepted(w.rows, op) && !op.Recover?
    ensures Step(w, op, limit, w)
  {
  }

  lemma Claimed(w: World, keys: set<Key>, now: int, limit: nat, rows: Table)
    requires Accepted(w.rows, Claim(keys, now)) && IsTrim(WriteAll(w.rows, keys, Row(Processing, now)), limit, rows)
    ensures Step(w, Claim(keys, now), limit, World(rows, w.owned + keys))
  {
  }

  lemma Completed(w: World, keys: set<Key>, status: Status, now: int, limit: nat, rows: Table)
    requires Accepted(w.rows, Complete(keys, status, now)) && IsTrim(WriteAll(w.rows, keys, Row(status, now)), limit, rows)
    ensures Step(w, Complete(keys, status, now), limit, World(rows, w.owned - keys))
  {
  }

  /** The keys an operation is about. */
  function KeysOf(keys: seq<Key>): (r: set<Key>)
    ensures forall k :: k in keys && k != [] <==> k in r
  {
    set k | k in Usable(keys)
  }

  /** The keys that count: stripped texts that are not empty. */
  function Usable(keys: seq<Key>): (r: seq<Key>)
    ensures forall k :: k in r <==> k in keys && k != []
  {
    if keys == [] then []
    else
      assert keys == keys[..|keys| - 1] + [keys[|keys| - 1]];
      Usable(keys[..|keys| - 1]) + (if keys[|keys| - 1] == [] then [] else [keys[|keys| - 1]])
  }

  datatype Answer = Granted | Duplicate | EmptyKeys

  class ProcessedMessageStore {
    const limit: nat
    var rows: Table
    ghost var owned: set<Key>  // claimed by workers of this host and not completed yet

    ghost function View(): World
      reads this
    {
      World(rows, owned)
    }

    constructor (maxEntries: int)
      ensures limit >= 1 && View() == World(map[], {}) && (maxEntries >= 1 ==> limit == maxEntries)
    {
      limit := if maxEntries < 1 then 1 else maxEntries;
      rows, owned := map[], {};
    }

    method Trim()
      modifies this`rows
      ensures IsTrim(old(rows), limit, rows)
    {
      var overflow := |rows| - limit;
      if overflow <= 0 {
        assert rows.Keys - rows.Keys == {} && rows - {} == rows;
        return;
      }
      var gone := SelectOldest(overflow);
      TrimDone(rows, limit, gone, rows - gone);
      rows := rows - gone;
    }

    /** The oldest settled rows, `count` of them if there are as many. */
    method SelectOldest(count: nat) returns (gone: set<Key>)
      ensures Oldests(rows, gone, Settled(rows) - gone)
      ensures |gone| <= count && (|gone| == count || gone == Settled(rows))
    {
      gone := {};
      var rest := Settled(rows);
      while |gone| < count && rest != {}
        invariant |gone| <= count && Oldests(rows, gone, rest)
        decreases |rest|
      {
        var oldest := Oldest(rows, rest);
        OldestsMore(rows, gone, rest, oldest);
        gone, rest := gone + {oldest}, rest - {oldest};
      }
    }

    static lemma TrimDone(t: Table, limit: nat, gone: set<Key>, r: Table)
      requires |t| > limit && Oldests(t, gone, Settled(t) - gone) && r == t - gone && |gone| <= |t| - limit
      requires gone == Settled(t) || |gone| == |t| - limit
      ensures IsTrim(t, limit, r)
    {
      assert t.Keys - r.Keys == gone;
      SubsetSize(gone, Settled(t));
    }

    /** `tuple(dict.fromkeys(...))` of the usable keys. */
    method Normalize(keys: seq<Key>) returns (normalized: seq<Key>)
      ensures forall k :: k in normalized <==> k in KeysOf(keys)
      ensures normalized == [] <==> KeysOf(keys) == {}
    {
      normalized := Dedup(Usable(keys));
      if normalized != [] {
        assert normalized[0] in KeysOf(keys);
      }
    }

    /** Insert or overwrite one row per key. */
    method Write(keys: seq<Key>, row: Row, ghost all: set<Key>)
      requires forall k :: k in keys <==> k in all
      modifies this`rows
      ensures rows == WriteAll(old(rows), all, row)
    {
      ghost var done: set<Key> := {};
      var i := 0;
      assert rows == WriteAll(rows, {}, row);
      while i < |keys|
        invariant i <= |keys| && done <= all && (forall j :: 0 <= j < i ==> keys[j] in done)
        invariant rows == WriteAll(old(rows), done, row)
      {
        WriteOne(old(rows), done, row, keys[i]);
        rows, done := rows[keys[i] := row], done + {keys[i]};
        i := i + 1;
      }
      assert forall k :: k in all ==> k in keys;
      assert done == all;
    }

    method WriteAndTrim(keys: seq<Key>, row: Row, ghost all: set<Key>)
      requires forall k :: k in keys <==> k in all
      modifies this`rows
      ensures IsTrim(WriteAll(old(rows), all, row), limit, rows)
    {
      Write(keys, row, all);
      Trim();
    }

    /** Either every key is new and all are claimed, or nothing changes. */
    method ClaimMany(keys: seq<Key>, now: int) returns (r: Answer)
      modifies this
      ensures Step(old(View()), Claim(KeysOf(keys), now), limit, View())
      ensures r.Granted? <==> Accepted(old(rows), Claim(KeysOf(keys), now))
      ensures r.EmptyKeys? <==> KeysOf(keys) == {}
      ensures r.Granted? <==> (exists k :: k in keys && k != []) && forall k :: k in keys && k != [] ==> k !in old(rows)
    {
      var normalized := Normalize(keys);
      if normalized == [] {
        Refused(View(), Claim(KeysOf(keys), now), limit);
        return EmptyKeys;
      }
      var granted := ClaimNormalized(normalized, now, KeysOf(keys));
      return if granted then Granted else Duplicate;
    }

    /** The transaction of `claim_many`. */
    method ClaimNormalized(normalized: seq<Key>, now: int, ghost all: set<Key>) returns (granted: bool)
      requires (forall k :: k in normalized <==> k in all) && all != {}
      modifies this
      ensures Step(old(View()), Claim(all, now), limit, View())
      ensures granted <==> Accepted(old(rows), Claim(all, now))
    {
      ghost var w := View();
      granted := forall k :: k in normalized ==> k !in rows;
      assert granted <==> Accepted(rows, Claim(all, now));
      if granted {
        WriteAndTrim(normalized, Row(Processing, now), all);
        owned := owned + all;
        Claimed(w, all, now, limit, rows);
      } else {
        Refused(w, Claim(all, now), limit);
      }
    }

    /** `false` is the error for a state that is not terminal, for no keys, and for keys nobody claimed. */
    method CompleteMany(keys: seq<Key>, status: Status, now: int) returns (ok: bool)
      modifies this
      ensures Step(old(View()), Complete(KeysOf(keys), status, now), limit, View())
      ensures ok <==> Accepted(old(rows), Complete(KeysOf(keys), status, now))
      ensures ok <==>
        status != Processing && (exists k :: k in keys && k != []) && forall k :: k in keys && k != [] ==> k in old(rows)
    {
      if status == Processing {
        Refused(View(), Complete(KeysOf(keys), status, now), limit);
        return false;
      }
      var normalized := Normalize(keys);
      if normalized == [] {
        Refused(View(), Complete(KeysOf(keys), status, now), limit);
        return false;
      }
      ok := CompleteNormalized(normalized, status, now, KeysOf(keys));
    }

    /** The transaction of `complete_many`. */
    method CompleteNormalized(normalized: seq<Key>, status: Status, now: int, ghost all: set<Key>) returns (ok: bool)
      requires (forall k :: k in normalized <==> k in all) && all != {} && status != Processing
      modifies this
      ensures Step(old(View()), Complete(all, status, now), limit, View())
      ensures ok <==> Accepted(old(rows), Complete(all, status, now))
    {
      ghost var w := View();
      ok := forall k :: k in normalized ==> k in rows;
      assert ok <==> Accepted(rows, Complete(all, status, now));
      if ok {
        WriteAndTrim(normalized, Row(status, now), all);
        owned := owned - all;
        Completed(w, all, status, now, limit, rows);
      } else {
        Refused(w, Complete(all, status, now), limit);
      }
    }

    /** At host start: everything still in flight is failed, never replayed. */
    method RecoverInterrupted(now: int) returns (recovered: set<Key>)
      modifies this
      ensures Step(old(View()), Recover(now), limit, View())
      ensures recovered == InFlight(old(rows)) && InFlight(rows) == {}
    {
      recovered := InFlight(rows);
      owned := {};
      if recovered != {} {
        ghost var t := Written(rows, Recover(now));
        rows := map k | k in rows :: if rows[k].status == Processing then Row(Failed, now) else rows[k];
        assert InFlight(t) == {};
        Trim();
        TrimKeeps(t, limit, rows);
      }
    }
  }

  /* ---- Whole runs ---- */

  ghost predicate IsRun(ws: seq<World>, ops: seq<Op>, limit: nat) {
    && |ws| == |ops| + 1 && ws[0].owned == {}
    && forall i :: 0 <= i < |ops| ==> Step(ws[i], ops[i], limit, ws[i + 1])
  }

  predicate Grants(w: World, op: Op, k: Key) {
    op.Claim? && Accepted(w.rows, op) && k in op.keys
  }

  /** The trimming of this step removes the row of `k`. */
  predicate Trims(w: World, op: Op, v: World, k: Key) {
    Accepted(w.rows, op) && k in Written(w.rows, op) && k !in v.rows
  }

  lemma TrimKeeps(t: Table, limit: nat, r: Table)
    requires IsTrim(t, limit, r)
    ensures forall k :: k in InFlight(t) ==> k in r && r[k] == t[k]
    ensures r.Keys <= t.Keys && InFlight(r) == InFlight(t)
    ensures |r| <= (if limit < |InFlight(t)| then |InFlight(t)| else limit)
  {
    var gone := t.Keys - r.Keys;
    assert t.Keys == InFlight(t) + Settled(t);
    assert |t| == |t.Keys| == |InFlight(t)| + |Settled(t)|;
    assert r.Keys == t.Keys - gone;
    assert |r| == |r.Keys| == |t| - |gone|;
  }

  lemma WritingKeepsClaims(w: World, op: Op)
    requires Accepted(w.rows, op) && forall k :: k in w.owned ==> k in w.rows && w.rows[k].status == Processing
    ensures OwnedAfter(w, op) <= InFlight(Written(w.rows, op))
  {
    var t := Written(w.rows, op);
    forall k | k in OwnedAfter(w, op) ensures k in t && t[k].status == Processing {
    }
  }

  /** Claims in progress stay processing rows. */
  lemma StepKeepsClaims(w: World, op: Op, limit: nat, v: World)
    requires Step(w, op, limit, v)
    requires forall k :: k in w.owned ==> k in w.rows && w.rows[k].status == Processing
    ensures forall k :: k in v.owned ==> k in v.rows && v.rows[k].status == Processing
  {
    if Accepted(w.rows, op) {
      TrimKeeps(Written(w.rows, op), limit, v.rows);
      WritingKeepsClaims(w, op);
    }
  }

  /** A worker that completes keys it claimed under this host, and has not completed yet, finds every one of them. */
  lemma {:induction false} CompletionFindsItsClaim(ws: seq<World>, ops: seq<Op>, limit: nat, n: nat)
    requires IsRun(ws, ops, limit) && n <= |ops|
    ensures forall k :: k in ws[n].owned ==> k in ws[n].rows && ws[n].rows[k].status == Processing
  {
    if n > 0 {
      CompletionFindsItsClaim(ws, ops, limit, n - 1);
      StepKeepsClaims(ws[n - 1], ops[n - 1], limit, ws[n]);
    }
  }

  /** A row stays until it is trimmed. */
  lemma {:induction false} RowsPersist(ws: seq<World>, ops: seq<Op>, limit: nat, i: nat, n: nat, k: Key)
    requires IsRun(ws, ops, limit) && i < n <= |ops| && Grants(ws[i], ops[i], k)
    requires forall j :: i <= j < n ==> !Trims(ws[j], ops[j], ws[j + 1], k)
    ensures k in ws[n].rows
    decreases n
  {
    assert !Trims(ws[n - 1], ops[n - 1], ws[n - 1 + 1], k);
    assert Step(ws[n - 1], ops[n - 1], limit, ws[n]);
    if n > i + 1 {
      RowsPersist(ws, ops, limit, i, n - 1, k);
    }
  }

  /** No key is granted twice, host restarts included, unless its row was trimmed at some step in between. */
  lemma AtMostOnce(ws: seq<World>, ops: seq<Op>, limit: nat, i: nat, n: nat, k: Key)
    requires IsRun(ws, ops, limit) && i < n < |ops|
    requires Grants(ws[i], ops[i], k) && Grants(ws[n], ops[n], k)
    ensures exists j :: i <= j < n && Trims(ws[j], ops[j], ws[j + 1], k)
  {
    if forall j :: i <= j < n ==> !Trims(ws[j], ops[j], ws[j + 1], k) {
      RowsPersist(ws, ops, limit, i, n, k);
      assert false;
    }
  }

  /** Only rows that are not in flight are ever trimmed, and the table stays within its limit as far as claims in flight allow. */
  lemma TrimmingIsBounded(w: World, op: Op, limit: nat, v: World, k: Key)
    requires Step(w, op, limit, v) && Accepted(w.rows, op)
    ensures Trims(w, op, v, k) ==> Written(w.rows, op)[k].status != Processing
    ensures |v.rows| <= (if limit < |InFlight(v.rows)| then |InFlight(v.rows)| else limit)
  {
    var t := Written(w.rows, op);
    TrimKeeps(t, limit, v.rows);
    assert k in t && t[k].status == Processing ==> k in InFlight(t);
  }

  /* ---- Row by row ---- */

  /** What an accepted step leaves of a row that it does not trim. */
  lemma SurvivingRow(w: World, op: Op, limit: nat, v: World, k: Key)
    requires Step(w, op, limit, v) && Accepted(w.rows, op) && k in v.rows
    ensures match op
      case Claim(keys, now) =>
        if k in keys then k !in w.rows && v.rows[k] == Row(Processing, now) else k in w.rows && v.rows[k] == w.rows[k]
      case Complete(keys, status, now) =>
        k in w.rows && v.rows[k] == (if k in keys then Row(status, now) else w.rows[k])
      case Recover(now) =>
        k in w.rows && v.rows[k] == (if w.rows[k].status == Processing then Row(Failed, now) else w.rows[k])
  {
    assert IsTrim(Written(w.rows, op), limit, v.rows);
  }

  /** What a step that is not accepted leaves: everything. */
  lemma RefusedChangesNothing(w: World, op: Op, limit: nat, v: World)
    requires Step(w, op, limit, v)
    ensures match op
      case Claim(keys, _) => keys == {} || (exists k :: k in keys && k in w.rows) ==> v.rows == w.rows
      case Complete(keys, status, _) =>
        status == Processing || keys == {} || (exists k :: k in keys && k !in w.rows) ==> v.rows == w.rows
      case Recover(_) => (forall k :: k in w.rows ==> w.rows[k].status != Processing) ==> v.rows == w.rows
  {
  }

  /** The key that comes first: by the first code point that differs, or because it ends there. */
  ghost predicate ComesFirst(a: Key, b: Key) {
    exists n :: 0 <= n <= |a| && n < |b| && a[..n] == b[..n] && (n < |a| ==> a[n] < b[n])
  }

  lemma {:induction false} KeyLessIsFirst(a: Key, b: Key)
    requires KeyLess(a, b)
    ensures ComesFirst(a, b)
    decreases |a|
  {
    if a == [] || a[0] < b[0] {
      assert a[..0] == b[..0];
    } else {
      KeyLessIsFirst(a[1..], b[1..]);
      var n :| 0 <= n <= |a[1..]| && n < |b[1..]| && a[1..][..n] == b[1..][..n] && (n < |a[1..]| ==> a[1..][n] < b[1..][n]);
      assert a[..n + 1] == [a[0]] + a[1..][..n] && b[..n + 1] == [b[0]] + b[1..][..n];
    }
  }

  /** A row that is trimmed is settled, and no settled row that stays was updated before it, nor at the same time under an earlier key. */
  lemma OldestGoFirst(w: World, op: Op, limit: nat, v: World, a: Key, b: Key)
    requires Step(w, op, limit, v) && Accepted(w.rows, op) && Trims(w, op, v, a)
    requires b in v.rows && v.rows[b].status != Processing
    ensures var t := Written(w.rows, op);
      && t[a].status != Processing && t[a].updated <= v.rows[b].updated
      && (t[a].updated == v.rows[b].updated ==> ComesFirst(a, b))
  {
    var t := Written(w.rows, op);
    assert IsTrim(t, limit, v.rows);
    assert a in t.Keys - v.rows.Keys && b in Settled(t) && b !in t.Keys - v.rows.Keys;
    assert Older(t, a, b);
    if KeyLess(a, b) {
      KeyLessIsFirst(a, b);
    }
  }

  /** Rows are trimmed only down to the limit: with one trimmed, at least `limit` are left. */
  lemma TrimsNoFurther(w: World, op: Op, limit: nat, v: World, k: Key)
    requires Step(w, op, limit, v) && Accepted(w.rows, op) && Trims(w, op, v, k)
    ensures |v.rows| >= limit
  {
    var t := Written(w.rows, op);
    var gone := t.Keys - v.rows.Keys;
    assert v.rows.Keys == t.Keys - gone && gone <= t.Keys;
    assert |v.rows| == |v.rows.Keys| == |t| - |gone|;
    assert k in gone;
  }
}
