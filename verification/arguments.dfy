/**
 Tool arguments as text: the three-variable nesting scanner, the recursive validator, and what the first
 guarantees about the second.
 */
module Arguments {
  import opened Options

  /* ---- JSON texts (RFC 8259) ---- */

  /** One character of a string literal as it is spelled: itself, or a backslash followed by a character. */
  datatype Unit = Plain(c: char) | Escaped(c: char)

  datatype Member = Member(key: seq<Unit>, value: Json)

  /** A JSON value together with its spelling; `finite` is false for a number too large for a float. */
  datatype Json =
    | Word(token: string)  // true, false, null
    | Num(token: string, finite: bool)
    | Str(units: seq<Unit>)
    | Arr(items: seq<Json>)
    | Obj(members: seq<Member>)

  /** None of the characters that open or close a string or a container. */
  predicate Inert(s: string) {
    forall i :: 0 <= i < |s| ==> s[i] !in {'"', '[', ']', '{', '}'}
  }

  /** Section 7 of RFC 8259: quotes and backslashes appear only escaped. */
  predicate WellSpelled(units: seq<Unit>) {
    forall i :: 0 <= i < |units| && units[i].Plain? ==> units[i].c != '"' && units[i].c != '\\'
  }

  predicate Proper(v: Json) {
    match v
    case Word(t) => Inert(t)
    case Num(t, _) => Inert(t)
    case Str(units) => WellSpelled(units)
    case Arr(items) => forall i :: 0 <= i < |items| ==> Proper(items[i])
    case Obj(members) => forall i :: 0 <= i < |members| ==> WellSpelled(members[i].key) && Proper(members[i].value)
  }

  function Spell(units: seq<Unit>): string {
    if units == [] then ""
    else (if units[0].Plain? then [units[0].c] else ['\\', units[0].c]) + Spell(units[1..])
  }

  function Quote(units: seq<Unit>): string {
    "\"" + Spell(units) + "\""
  }

  /** Any whitespace may stand between two tokens; `ws` says which, position by position. */
  type Layout = seq<nat> -> string

  ghost predicate Blank(ws: Layout) {
    forall path :: Inert(ws(path))
  }

  function Render(v: Json, ws: Layout, path: seq<nat>): string
    decreases v
  {
    match v
    case Word(t) => t
    case Num(t, _) => t
    case Str(units) => Quote(units)
    case Arr(items) => "[" + ws(path) + RenderItems(v, items, ws, path) + "]"
    case Obj(members) => "{" + ws(path) + RenderMembers(v, members, ws, path) + "}"
  }

  function RenderItems(owner: Json, items: seq<Json>, ws: Layout, path: seq<nat>): string
    requires forall i :: 0 <= i < |items| ==> items[i] < owner
    decreases owner, |items|
  {
    if items == [] then ""
    else
      var n := |items| - 1;
      RenderItems(owner, items[..n], ws, path) + (if n > 0 then "," else "")
      + ws(path + [n, 0]) + Render(items[n], ws, path + [n]) + ws(path + [n, 1])
  }

  function RenderMembers(owner: Json, members: seq<Member>, ws: Layout, path: seq<nat>): string
    requires forall i :: 0 <= i < |members| ==> members[i].value < owner
    decreases owner, |members|
  {
    if members == [] then ""
    else
      var n := |members| - 1;
      RenderMembers(owner, members[..n], ws, path) + (if n > 0 then "," else "")
      + ws(path + [n, 0]) + Quote(members[n].key) + ws(path + [n, 1]) + ":"
      + ws(path + [n, 2]) + Render(members[n].value, ws, path + [n]) + ws(path + [n, 3])
  }

  function Max(a: nat, b: nat): nat {
    if a < b then b else a
  }

  /** How many containers are open at the innermost point. */
  function Nesting(v: Json): nat
    decreases v
  {
    match v
    case Arr(items) => 1 + NestingOf(v, items)
    case Obj(members) => 1 + NestingIn(v, members)
    case _ => 0
  }

  function NestingOf(owner: Json, items: seq<Json>): nat
    requires forall i :: 0 <= i < |items| ==> items[i] < owner
    decreases owner, |items|
  {
    if items == [] then 0 else Max(NestingOf(owner, items[..|items| - 1]), Nesting(items[|items| - 1]))
  }

  function NestingIn(owner: Json, members: seq<Member>): nat
    requires forall i :: 0 <= i < |members| ==> members[i].value < owner
    decreases owner, |members|
  {
    if members == [] then 0 else Max(NestingIn(owner, members[..|members| - 1]), Nesting(members[|members| - 1].value))
  }

  /* ---- The scanner ---- */

  /** `over` records the early return. */
  datatype Scan = Scan(depth: nat, inString: bool, escaped: bool, over: bool)

  function Advance(s: Scan, c: char, limit: nat): Scan {
    if s.over then s
    else if s.inString then
      if s.escaped then s.(escaped := false)
      else if c == '\\' then s.(escaped := true)
      else if c == '"' then s.(inString := false)
      else s
    else if c == '"' then s.(inString := true)
    else if c == '[' || c == '{' then s.(depth := s.depth + 1, over := s.depth + 1 > limit)
    else if c == ']' || c == '}' then s.(depth := if s.depth == 0 then 0 else s.depth - 1)
    else s
  }

  function ScanText(s: Scan, text: string, limit: nat): Scan
    decreases |text|
  {
    if text == "" then s else Advance(ScanText(s, text[..|text| - 1], limit), text[|text| - 1], limit)
  }

  function At(depth: nat): Scan {
    Scan(depth, false, false, false)
  }

  /** `_raw_json_nesting_exceeds`. */
  method RawJsonNestingExceeds(raw: string, limit: nat) returns (r: bool)
    ensures r == ScanText(At(0), raw, limit).over
  {
    var depth: nat, inString, escaped := 0, false, false;
    var i := 0;
    while i < |raw|
      invariant i <= |raw|
      invariant ScanText(At(0), raw[..i], limit) == Scan(depth, inString, escaped, false)
    {
      var c := raw[i];
      assert raw[..i + 1][..i] == raw[..i];
      if inString {
        if escaped {
          escaped := false;
        } else if c == '\\' {
          escaped := true;
        } else if c == '"' {
          inString := false;
        }
      } else if c == '"' {
        inString := true;
      } else if c == '[' || c == '{' {
        depth := depth + 1;
        if depth > limit {
          StaysOver(At(0), raw[..i + 1], raw[i + 1..], limit);
          assert raw == raw[..i + 1] + raw[i + 1..];
          return true;
        }
      } else if c == ']' || c == '}' {
        depth := if depth == 0 then 0 else depth - 1;
      }
      i := i + 1;
    }
    assert raw[..i] == raw;
    return false;
  }

  lemma {:induction false} ScanAppend(s: Scan, a: string, b: string, limit: nat)
    ensures ScanText(s, a + b, limit) == ScanText(ScanText(s, a, limit), b, limit)
    decreases |b|
  {
    if b == "" {
      assert a + b == a;
    } else {
      assert (a + b)[..|a + b| - 1] == a + b[..|b| - 1];
      ScanAppend(s, a, b[..|b| - 1], limit);
    }
  }

  lemma {:induction false} StaysOver(s: Scan, a: string, b: string, limit: nat)
    requires ScanText(s, a, limit).over
    ensures ScanText(s, a + b, limit).over
    decreases |b|
  {
    if b == "" {
      assert a + b == a;
    } else {
      assert (a + b)[..|a + b| - 1] == a + b[..|b| - 1];
      StaysOver(s, a, b[..|b| - 1], limit);
    }
  }

  /** Outside strings, inert text changes nothing. */
  lemma {:induction false} ScanInert(s: Scan, text: string, limit: nat)
    requires Inert(text) && !s.inString
    ensures ScanText(s, text, limit) == s
    decreases |text|
  {
    if text != "" {
      assert text == text[..|text| - 1] + [text[|text| - 1]];
      ScanInert(s, text[..|text| - 1], limit);
    }
  }

  lemma {:induction false} ScanSpelled(depth: nat, units: seq<Unit>, limit: nat)
    requires WellSpelled(units)
    ensures ScanText(Scan(depth, true, false, false), Spell(units), limit) == Scan(depth, true, false, false)
    decreases |units|
  {
    if units != [] {
      var s := Scan(depth, true, false, false);
      var first := if units[0].Plain? then [units[0].c] else ['\\', units[0].c];
      assert units == [units[0]] + units[1..];
      ScanSpelled(depth, units[1..], limit);
      ScanAppend(s, first, Spell(units[1..]), limit);
      assert first[..|first| - 1] == if units[0].Plain? then "" else "\\";
      assert "\\"[..0] == "";
    }
  }

  /** A string literal, whatever it contains, leaves the scanner where it was. */
  lemma ScanQuote(depth: nat, units: seq<Unit>, limit: nat)
    requires WellSpelled(units)
    ensures ScanText(At(depth), Quote(units), limit) == At(depth)
  {
    ScanOne(At(depth), '"', limit);
    ScanSpelled(depth, units, limit);
    ScanAppend(At(depth), "\"", Spell(units), limit);
    ScanAppend(At(depth), "\"" + Spell(units), "\"", limit);
    ScanOne(Scan(depth, true, false, false), '"', limit);
  }

  lemma ScanOne(s: Scan, c: char, limit: nat)
    ensures ScanText(s, [c], limit) == Advance(s, c, limit)
  {
    assert [c][..0] == "";
  }

  /** What the scanner does on text of a given nesting: come back, or run over. */
  ghost predicate Scans(depth: nat, text: string, nesting: nat, limit: nat) {
    var r := ScanText(At(depth), text, limit);
    if depth + nesting > limit then r.over else r == At(depth)
  }

  lemma ScansThen(depth: nat, a: string, m: nat, b: string, n: nat, limit: nat)
    requires depth <= limit && Scans(depth, a, m, limit) && Scans(depth, b, n, limit)
    ensures Scans(depth, a + b, Max(m, n), limit)
  {
    ScanAppend(At(depth), a, b, limit);
    if depth + m > limit {
      StaysOver(At(depth), a, b, limit);
    }
  }

  lemma InertScans(depth: nat, text: string, limit: nat)
    requires depth <= limit && Inert(text)
    ensures Scans(depth, text, 0, limit)
  {
    ScanInert(At(depth), text, limit);
  }

  /** A bracketed text nests one deeper than what it encloses. */
  lemma BracketScans(depth: nat, open: char, body: string, close: char, n: nat, limit: nat)
    requires depth <= limit && (open == '[' || open == '{') && (close == ']' || close == '}')
    requires depth < limit ==> Scans(depth + 1, body, n, limit)
    ensures Scans(depth, [open] + body + [close], n + 1, limit)
  {
    ScanOne(At(depth), open, limit);
    ScanAppend(At(depth), [open], body, limit);
    ScanAppend(At(depth), [open] + body, [close], limit);
    if depth == limit {
      StaysOver(At(depth), [open], body, limit);
      StaysOver(At(depth), [open] + body, [close], limit);
    } else if depth + 1 + n > limit {
      StaysOver(At(depth), [open] + body, [close], limit);
    } else {
      ScanOne(At(depth + 1), close, limit);
    }
  }

  lemma ContainerScans(depth: nat, open: string, gap: string, inner: string, close: string, n: nat, limit: nat)
    requires depth <= limit && Inert(gap) && (open == "[" || open == "{") && (close == "]" || close == "}")
    requires depth < limit ==> Scans(depth + 1, inner, n, limit)
    ensures Scans(depth, open + gap + inner + close, n + 1, limit)
  {
    if depth < limit {
      InertScans(depth + 1, gap, limit);
      ScansThen(depth + 1, gap, 0, inner, n, limit);
    }
    BracketScans(depth, open[0], gap + inner, close[0], n, limit);
    assert open + gap + inner + close == [open[0]] + (gap + inner) + [close[0]];
  }

  lemma {:induction false} RenderScans(v: Json, ws: Layout, path: seq<nat>, depth: nat, limit: nat)
    requires Proper(v) && Blank(ws) && depth <= limit
    ensures Scans(depth, Render(v, ws, path), Nesting(v), limit)
    decreases v
  {
    match v
    case Word(t) => InertScans(depth, t, limit);
    case Num(t, _) => InertScans(depth, t, limit);
    case Str(units) => ScanQuote(depth, units, limit);
    case Arr(items) =>
      if depth < limit {
        ItemsScan(v, items, ws, path, depth + 1, limit);
      }
      ContainerScans(depth, "[", ws(path), RenderItems(v, items, ws, path), "]", NestingOf(v, items), limit);
    case Obj(members) =>
      if depth < limit {
        MembersScan(v, members, ws, path, depth + 1, limit);
      }
      ContainerScans(depth, "{", ws(path), RenderMembers(v, members, ws, path), "}", NestingIn(v, members), limit);
  }

  lemma {:induction false} ItemsScan(owner: Json, items: seq<Json>, ws: Layout, path: seq<nat>, depth: nat, limit: nat)
    requires forall i :: 0 <= i < |items| ==> items[i] < owner && Proper(items[i])
    requires Blank(ws) && depth <= limit
    ensures Scans(depth, RenderItems(owner, items, ws, path), NestingOf(owner, items), limit)
    decreases owner, |items|
  {
    if items == [] {
      InertScans(depth, "", limit);
    } else {
      var n := |items| - 1;
      var before, comma := RenderItems(owner, items[..n], ws, path), if n > 0 then "," else "";
      ItemsScan(owner, items[..n], ws, path, depth, limit);
      InertScans(depth, comma, limit);
      InertScans(depth, ws(path + [n, 0]), limit);
      RenderScans(items[n], ws, path + [n], depth, limit);
      InertScans(depth, ws(path + [n, 1]), limit);
      var m, k := NestingOf(owner, items[..n]), Nesting(items[n]);
      ScansThen(depth, before, m, comma, 0, limit);
      ScansThen(depth, before + comma, m, ws(path + [n, 0]), 0, limit);
      ScansThen(depth, before + comma + ws(path + [n, 0]), m, Render(items[n], ws, path + [n]), k, limit);
      ScansThen(depth, before + comma + ws(path + [n, 0]) + Render(items[n], ws, path + [n]), Max(m, k), ws(path + [n, 1]), 0, limit);
    }
  }

  /** Inert text, or a string literal, after a text that scans. */
  lemma InertThen(depth: nat, text: string, nesting: nat, more: string, limit: nat)
    requires depth <= limit && Scans(depth, text, nesting, limit) && Inert(more)
    ensures Scans(depth, text + more, nesting, limit)
  {
    InertScans(depth, more, limit);
    ScansThen(depth, text, nesting, more, 0, limit);
  }

  lemma QuoteThen(depth: nat, text: string, nesting: nat, units: seq<Unit>, limit: nat)
    requires depth <= limit && Scans(depth, text, nesting, limit) && WellSpelled(units)
    ensures Scans(depth, text + Quote(units), nesting, limit)
  {
    ScanQuote(depth, units, limit);
    ScansThen(depth, text, nesting, Quote(units), 0, limit);
  }

  /** The part of a member before its value. */
  lemma KeyScans(depth: nat, t0: string, m: nat, comma: string, a: string, key: seq<Unit>, b: string, c: string, limit: nat)
    requires depth <= limit && Scans(depth, t0, m, limit) && WellSpelled(key)
    requires Inert(comma) && Inert(a) && Inert(b) && Inert(c)
    ensures Scans(depth, t0 + comma + a + Quote(key) + b + ":" + c, m, limit)
  {
    InertThen(depth, t0, m, comma, limit);
    InertThen(depth, t0 + comma, m, a, limit);
    QuoteThen(depth, t0 + comma + a, m, key, limit);
    InertThen(depth, t0 + comma + a + Quote(key), m, b, limit);
    InertThen(depth, t0 + comma + a + Quote(key) + b, m, ":", limit);
    InertThen(depth, t0 + comma + a + Quote(key) + b + ":", m, c, limit);
  }

  lemma {:induction false} MembersScan(owner: Json, members: seq<Member>, ws: Layout, path: seq<nat>, depth: nat, limit: nat)
    requires forall i :: 0 <= i < |members| ==> members[i].value < owner && WellSpelled(members[i].key) && Proper(members[i].value)
    requires Blank(ws) && depth <= limit
    ensures Scans(depth, RenderMembers(owner, members, ws, path), NestingIn(owner, members), limit)
    decreases owner, |members|
  {
    if members == [] {
      InertScans(depth, "", limit);
    } else {
      var n := |members| - 1;
      var m, value := NestingIn(owner, members[..n]), members[n].value;
      var t0 := RenderMembers(owner, members[..n], ws, path);
      var comma := if n > 0 then "," else "";
      MembersScan(owner, members[..n], ws, path, depth, limit);
      KeyScans(depth, t0, m, comma, ws(path + [n, 0]), members[n].key, ws(path + [n, 1]), ws(path + [n, 2]), limit);
      var t := t0 + comma + ws(path + [n, 0]) + Quote(members[n].key) + ws(path + [n, 1]) + ":" + ws(path + [n, 2]);
      RenderScans(value, ws, path + [n], depth, limit);
      ScansThen(depth, t, m, Render(value, ws, path + [n]), Nesting(value), limit);
      InertThen(depth, t + Render(value, ws, path + [n]), Max(m, Nesting(value)), ws(path + [n, 3]), limit);
    }
  }

  /** A whole text: a value with whitespace around it. */
  function Document(v: Json, ws: Layout, lead: string, trail: string): string {
    lead + Render(v, ws, []) + trail
  }

  /** The scanner reports excess exactly when containers nest deeper than the limit. */
  lemma ScannerEqualsStructure(v: Json, ws: Layout, lead: string, trail: string, limit: nat)
    requires Proper(v) && Blank(ws) && Inert(lead) && Inert(trail)
    ensures ScanText(At(0), Document(v, ws, lead, trail), limit).over <==> Nesting(v) > limit
  {
    InertScans(0, lead, limit);
    RenderScans(v, ws, [], 0, limit);
    ScansThen(0, lead, 0, Render(v, ws, []), Nesting(v), limit);
    InertScans(0, trail, limit);
    ScansThen(0, lead + Render(v, ws, []), Nesting(v), trail, 0, limit);
  }

  function Openers(text: string): nat {
    if text == "" then 0
    else Openers(text[..|text| - 1]) + (if text[|text| - 1] in {'[', '{'} then 1 else 0)
  }

  /** In any text at all, well formed or not, excess takes more opening brackets than the limit. */
  lemma {:induction false} ExcessNeedsOpeners(text: string, limit: nat)
    ensures ScanText(At(0), text, limit).over ==> Openers(text) > limit
    ensures ScanText(At(0), text, limit).depth <= Openers(text)
    decreases |text|
  {
    if text != "" {
      ExcessNeedsOpeners(text[..|text| - 1], limit);
    }
  }

  /* ---- The validator ---- */

  const MAX_DEPTH: nat := 64
  const MAX_NODES: nat := 4096

  datatype Verdict = Fine(nodes: nat) | TooDeep | TooMany | NonFinite

  /** `_validate_argument_value` on parsed JSON: the shared node counter runs through the whole value. */
  function Validate(v: Json, depth: nat, nodes: nat): Verdict
    decreases v
  {
    if depth > MAX_DEPTH then TooDeep
    else if nodes + 1 > MAX_NODES then TooMany
    else
      match v
      case Arr(items) => ValidateItems(v, items, depth + 1, nodes + 1)
      case Obj(members) => ValidateMembers(v, members, depth + 1, nodes + 1)
      case Num(_, finite) => if finite then Fine(nodes + 1) else NonFinite
      case _ => Fine(nodes + 1)
  }

  function ValidateItems(owner: Json, items: seq<Json>, depth: nat, nodes: nat): Verdict
    requires forall i :: 0 <= i < |items| ==> items[i] < owner
    decreases owner, |items|
  {
    if items == [] then Fine(nodes)
    else
      var before := ValidateItems(owner, items[..|items| - 1], depth, nodes);
      if before.Fine? then Validate(items[|items| - 1], depth, before.nodes) else before
  }

  function ValidateMembers(owner: Json, members: seq<Member>, depth: nat, nodes: nat): Verdict
    requires forall i :: 0 <= i < |members| ==> members[i].value < owner
    decreases owner, |members|
  {
    if members == [] then Fine(nodes)
    else
      var before := ValidateMembers(owner, members[..|members| - 1], depth, nodes);
      if before.Fine? then Validate(members[|members| - 1].value, depth, before.nodes) else before
  }

  class ArgumentValidator {
    var nodes: nat

    constructor ()
      ensures nodes == 0
    {
      nodes := 0;
    }

    /** The recursion with its mutable counter. */
    method Check(v: Json, depth: nat) returns (r: Verdict)
      modifies this
      ensures r == Validate(v, depth, old(nodes))
      ensures r.Fine? ==> nodes == r.nodes
      decreases v
    {
      if depth > MAX_DEPTH {
        return TooDeep;
      }
      nodes := nodes + 1;
      if nodes > MAX_NODES {
        return TooMany;
      }
      match v {
        case Arr(items) =>
          var i := 0;
          while i < |items|
            invariant i <= |items| && ValidateItems(v, items[..i], depth + 1, old(nodes) + 1) == Fine(nodes)
          {
            assert items[..i + 1][..i] == items[..i];
            r := Check(items[i], depth + 1);
            if !r.Fine? {
              FailsAnyway(v, items, i + 1, depth + 1, old(nodes) + 1);
              return;
            }
            i := i + 1;
          }
          assert items[..i] == items;
          return Fine(nodes);
        case Obj(members) =>
          var i := 0;
          while i < |members|
            invariant i <= |members| && ValidateMembers(v, members[..i], depth + 1, old(nodes) + 1) == Fine(nodes)
          {
            assert members[..i + 1][..i] == members[..i];
            r := Check(members[i].value, depth + 1);
            if !r.Fine? {
              FailsAnyhow(v, members, i + 1, depth + 1, old(nodes) + 1);
              return;
            }
            i := i + 1;
          }
          assert members[..i] == members;
          return Fine(nodes);
        case Num(_, finite) => return if finite then Fine(nodes) else NonFinite;
        case Word(_) => return Fine(nodes);
        case Str(_) => return Fine(nodes);
      }
    }
  }

  lemma {:induction false} FailsAnyway(owner: Json, items: seq<Json>, k: nat, depth: nat, nodes: nat)
    requires k <= |items| && forall i :: 0 <= i < |items| ==> items[i] < owner
    requires !ValidateItems(owner, items[..k], depth, nodes).Fine?
    ensures ValidateItems(owner, items, depth, nodes) == ValidateItems(owner, items[..k], depth, nodes)
    decreases |items|
  {
    if k < |items| {
      assert items[..|items| - 1][..k] == items[..k];
      FailsAnyway(owner, items[..|items| - 1], k, depth, nodes);
    } else {
      assert items[..k] == items;
    }
  }

  lemma {:induction false} FailsAnyhow(owner: Json, members: seq<Member>, k: nat, depth: nat, nodes: nat)
    requires k <= |members| && forall i :: 0 <= i < |members| ==> members[i].value < owner
    requires !ValidateMembers(owner, members[..k], depth, nodes).Fine?
    ensures ValidateMembers(owner, members, depth, nodes) == ValidateMembers(owner, members[..k], depth, nodes)
    decreases |members|
  {
    if k < |members| {
      assert members[..|members| - 1][..k] == members[..k];
      FailsAnyhow(owner, members[..|members| - 1], k, depth, nodes);
    } else {
      assert members[..k] == members;
    }
  }

  /* ---- What the validator accepts ---- */

  /** The depth of the deepest value, the outermost one being at depth 0. */
  function Deepest(v: Json): nat
    decreases v
  {
    match v
    case Arr(items) => DeepestOf(v, items)
    case Obj(members) => DeepestIn(v, members)
    case _ => 0
  }

  function DeepestOf(owner: Json, items: seq<Json>): nat
    requires forall i :: 0 <= i < |items| ==> items[i] < owner
    decreases owner, |items|
  {
    if items == [] then 0 else Max(DeepestOf(owner, items[..|items| - 1]), 1 + Deepest(items[|items| - 1]))
  }

  function DeepestIn(owner: Json, members: seq<Member>): nat
    requires forall i :: 0 <= i < |members| ==> members[i].value < owner
    decreases owner, |members|
  {
    if members == [] then 0 else Max(DeepestIn(owner, members[..|members| - 1]), 1 + Deepest(members[|members| - 1].value))
  }

  /** How many values there are, containers and scalars alike. */
  function Count(v: Json): nat
    decreases v
  {
    match v
    case Arr(items) => 1 + CountOf(v, items)
    case Obj(members) => 1 + CountIn(v, members)
    case _ => 1
  }

  function CountOf(owner: Json, items: seq<Json>): nat
    requires forall i :: 0 <= i < |items| ==> items[i] < owner
    decreases owner, |items|
  {
    if items == [] then 0 else CountOf(owner, items[..|items| - 1]) + Count(items[|items| - 1])
  }

  function CountIn(owner: Json, members: seq<Member>): nat
    requires forall i :: 0 <= i < |members| ==> members[i].value < owner
    decreases owner, |members|
  {
    if members == [] then 0 else CountIn(owner, members[..|members| - 1]) + Count(members[|members| - 1].value)
  }

  predicate AllFinite(v: Json)
    decreases v
  {
    match v
    case Arr(items) => FiniteOf(v, items)
    case Obj(members) => FiniteIn(v, members)
    case Num(_, finite) => finite
    case _ => true
  }

  predicate FiniteOf(owner: Json, items: seq<Json>)
    requires forall i :: 0 <= i < |items| ==> items[i] < owner
    decreases owner, |items|
  {
    items == [] || (FiniteOf(owner, items[..|items| - 1]) && AllFinite(items[|items| - 1]))
  }

  predicate FiniteIn(owner: Json, members: seq<Member>)
    requires forall i :: 0 <= i < |members| ==> members[i].value < owner
    decreases owner, |members|
  {
    members == [] || (FiniteIn(owner, members[..|members| - 1]) && AllFinite(members[|members| - 1].value))
  }

  /** The verdict in terms of the three measures: fine within all limits, and never an error that is not there. */
  predicate Justified(r: Verdict, deepest: nat, count: nat, finite: bool) {
    && (r.Fine? <==> deepest <= 64 && count <= 4096 && finite)
    && (r.Fine? ==> r.nodes == count)
    && (r.TooDeep? ==> deepest > 64) && (r.TooMany? ==> count > 4096) && (r.NonFinite? ==> !finite)
  }

  /** A value is accepted exactly if no value in it is deeper than 64, there are at most 4096 of them, and all numbers are finite. */
  lemma {:induction false} ValidatorIsExact(v: Json, depth: nat, nodes: nat)
    requires nodes <= 4096
    ensures Justified(Validate(v, depth, nodes), depth + Deepest(v), nodes + Count(v), AllFinite(v))
    decreases v
  {
    if depth <= MAX_DEPTH && nodes < MAX_NODES {
      match v
      case Arr(items) => ItemsAreExact(v, items, depth, nodes + 1);
      case Obj(members) => MembersAreExact(v, members, depth, nodes + 1);
      case _ =>
    }
  }

  /** The verdict on one more value. */
  lemma OneMore(before: Verdict, r: Verdict, depth: nat, deepest: nat, next: nat, nodes: nat, count: nat, more: nat,
                finite: bool, nextFinite: bool)
    requires Justified(before, depth + deepest, nodes + count, finite)
    requires if before.Fine? then Justified(r, depth + 1 + next, nodes + count + more, nextFinite) else r == before
    ensures Justified(r, depth + Max(deepest, 1 + next), nodes + (count + more), finite && nextFinite)
  {
  }

  lemma {:induction false} ItemsAreExact(owner: Json, items: seq<Json>, depth: nat, nodes: nat)
    requires forall i :: 0 <= i < |items| ==> items[i] < owner
    requires depth <= 64 && nodes <= 4096
    ensures Justified(ValidateItems(owner, items, depth + 1, nodes), depth + DeepestOf(owner, items),
                      nodes + CountOf(owner, items), FiniteOf(owner, items))
    decreases owner, |items|
  {
    if items != [] {
      var rest, last := items[..|items| - 1], items[|items| - 1];
      var before := ValidateItems(owner, rest, depth + 1, nodes);
      ItemsAreExact(owner, rest, depth, nodes);
      if before.Fine? {
        ValidatorIsExact(last, depth + 1, before.nodes);
      }
      OneMore(before, ValidateItems(owner, items, depth + 1, nodes), depth, DeepestOf(owner, rest), Deepest(last), nodes,
              CountOf(owner, rest), Count(last), FiniteOf(owner, rest), AllFinite(last));
    }
  }

  lemma {:induction false} MembersAreExact(owner: Json, members: seq<Member>, depth: nat, nodes: nat)
    requires forall i :: 0 <= i < |members| ==> members[i].value < owner
    requires depth <= 64 && nodes <= 4096
    ensures Justified(ValidateMembers(owner, members, depth + 1, nodes), depth + DeepestIn(owner, members),
                      nodes + CountIn(owner, members), FiniteIn(owner, members))
    decreases owner, |members|
  {
    if members != [] {
      var rest, last := members[..|members| - 1], members[|members| - 1].value;
      var before := ValidateMembers(owner, rest, depth + 1, nodes);
      MembersAreExact(owner, rest, depth, nodes);
      if before.Fine? {
        ValidatorIsExact(last, depth + 1, before.nodes);
      }
      OneMore(before, ValidateMembers(owner, members, depth + 1, nodes), depth, DeepestIn(owner, rest), Deepest(last), nodes,
              CountIn(owner, rest), Count(last), FiniteIn(owner, rest), AllFinite(last));
    }
  }

  /** The depth error needs more open containers than the limit allows. */
  lemma {:induction false} TooDeepNeedsNesting(v: Json, depth: nat, nodes: nat)
    requires depth + Nesting(v) <= MAX_DEPTH
    ensures Validate(v, depth, nodes) != TooDeep
    decreases v
  {
    match v
    case Arr(items) => ItemsNotTooDeep(v, items, depth + 1, nodes + 1);
    case Obj(members) => MembersNotTooDeep(v, members, depth + 1, nodes + 1);
    case _ =>
  }

  lemma {:induction false} ItemsNotTooDeep(owner: Json, items: seq<Json>, depth: nat, nodes: nat)
    requires forall i :: 0 <= i < |items| ==> items[i] < owner
    requires depth + NestingOf(owner, items) <= MAX_DEPTH
    ensures ValidateItems(owner, items, depth, nodes) != TooDeep
    decreases owner, |items|
  {
    if items != [] {
      var before := ValidateItems(owner, items[..|items| - 1], depth, nodes);
      ItemsNotTooDeep(owner, items[..|items| - 1], depth, nodes);
      if before.Fine? {
        TooDeepNeedsNesting(items[|items| - 1], depth, before.nodes);
      }
    }
  }

  lemma {:induction false} MembersNotTooDeep(owner: Json, members: seq<Member>, depth: nat, nodes: nat)
    requires forall i :: 0 <= i < |members| ==> members[i].value < owner
    requires depth + NestingIn(owner, members) <= MAX_DEPTH
    ensures ValidateMembers(owner, members, depth, nodes) != TooDeep
    decreases owner, |members|
  {
    if members != [] {
      var before := ValidateMembers(owner, members[..|members| - 1], depth, nodes);
      MembersNotTooDeep(owner, members[..|members| - 1], depth, nodes);
      if before.Fine? {
        TooDeepNeedsNesting(members[|members| - 1].value, depth, before.nodes);
      }
    }
  }

  /* ---- The string path of `parse_tool_arguments` ---- */

  /** `Unconvertible` is a plain `ValueError`, as for an integer of too many digits, which no handler expects. */
  datatype Loaded = Value(v: Json) | DuplicateKey | Constant | Malformed | Unconvertible

  /** `Escapes`: an exception reaches the caller instead of a parse error. */
  datatype Parsed = Arguments(v: Json) | Failed(kind: string) | Escapes

  const MAX_RAW: nat := 1048576

  predicate IsSpace(c: char) {
    c in {' ', '\t', '\n', '\r'}
  }

  /** The text has a UTF-8 form within the limit, is not blank and passes the scanner. */
  predicate ReachesParser(raw: string, size: Option<nat>) {
    HasText(raw, size) && !ScanText(At(0), raw, 64).over
  }

  /** At most a mebibyte of text, and something other than JSON's white space in it. */
  predicate HasText(raw: string, size: Option<nat>) {
    size.Some? && size.value <= 1048576 && exists i :: 0 <= i < |raw| && raw[i] !in {' ', '\t', '\n', '\r'}
  }

  lemma BlankIff(raw: string)
    ensures (forall c :: c in raw ==> IsSpace(c)) <==> !exists i :: 0 <= i < |raw| && raw[i] !in {' ', '\t', '\n', '\r'}
  {
    if i :| 0 <= i < |raw| && raw[i] !in {' ', '\t', '\n', '\r'} {
      assert !IsSpace(raw[i]) && raw[i] in raw;
    }
  }

  /**
   `size` is the length in UTF-8, `None` for a text that has no such form because it holds a lone surrogate; `loads` is
   the JSON parser with its hooks.
   */
  method ParseToolArguments(raw: string, size: Option<nat>, loads: string -> Loaded) returns (r: Parsed)
    ensures r.Arguments? <==>
      && ReachesParser(raw, size) && loads(raw).Value? && loads(raw).v.Obj? && Validate(loads(raw).v, 0, 0).Fine?
    ensures r.Arguments? ==> r.v == loads(raw).v
    ensures r == Failed("arguments_too_complex") <==>
      && ReachesParser(raw, size) && loads(raw).Value? && loads(raw).v.Obj?
      && Validate(loads(raw).v, 0, 0) in {TooDeep, TooMany}
    ensures r == Failed("arguments_too_large") <==> size.Some? && size.value > 1048576
    ensures r == Failed("empty_arguments") <==> size.Some? && size.value <= 1048576 && !HasText(raw, size)
    ensures r == Failed("invalid_json") <==>
      HasText(raw, size) && (ScanText(At(0), raw, 64).over || loads(raw).Malformed?)
    ensures r == Failed("duplicate_key") <==> ReachesParser(raw, size) && loads(raw).DuplicateKey?
    ensures r == Failed("non_object") <==> ReachesParser(raw, size) && loads(raw).Value? && !loads(raw).v.Obj?
    ensures r == Failed("non_finite_number") <==>
      ReachesParser(raw, size) && (loads(raw).Constant?
        || (loads(raw).Value? && loads(raw).v.Obj? && Validate(loads(raw).v, 0, 0).NonFinite?))
    ensures r.Escapes? <==> size.None? || (ReachesParser(raw, size) && loads(raw).Unconvertible?)
    // of the two, only the number of nodes remains when the parser returns what the text spells
    ensures r == Failed("arguments_too_complex") && IsDocument(raw, loads(raw).v) ==> Validate(loads(raw).v, 0, 0) == TooMany
  {
    BlankIff(raw);
    if loads(raw).Value? && IsDocument(raw, loads(raw).v) && !ScanText(At(0), raw, MAX_DEPTH).over {
      DepthCheckIsUnreachable(raw, loads(raw).v, 0);
    }
    if size.None? {
      return Escapes;
    }
    if size.value > MAX_RAW {
      return Failed("arguments_too_large");
    }
    if forall c :: c in raw ==> IsSpace(c) {
      return Failed("empty_arguments");
    }
    var excessive := RawJsonNestingExceeds(raw, MAX_DEPTH);
    if excessive {
      return Failed("invalid_json");
    }
    match loads(raw) {
      case DuplicateKey => return Failed("duplicate_key");
      case Constant => return Failed("non_finite_number");
      case Malformed => return Failed("invalid_json");
      case Unconvertible => return Escapes;
      case Value(v) =>
        if !v.Obj? {
          return Failed("non_object");
        }
        var validator := new ArgumentValidator();
        var verdict := validator.Check(v, 0);
        match verdict {
          case TooDeep => return Failed("arguments_too_complex");
          case TooMany => return Failed("arguments_too_complex");
          case NonFinite => return Failed("non_finite_number");
          case Fine(_) => return Arguments(v);
        }
    }
  }

  /** The text spells the value. */
  ghost predicate IsDocument(raw: string, v: Json) {
    exists ws: Layout, lead: string, trail: string ::
      Proper(v) && Blank(ws) && Inert(lead) && Inert(trail) && raw == Document(v, ws, lead, trail)
  }

  /** Text that passed the scanner can never trip the validator's depth check, whatever the node count. */
  lemma DepthCheckIsUnreachable(raw: string, v: Json, nodes: nat)
    requires IsDocument(raw, v) && !ScanText(At(0), raw, MAX_DEPTH).over
    ensures Validate(v, 0, nodes) != TooDeep
  {
    var ws: Layout, lead: string, trail: string :|
      Proper(v) && Blank(ws) && Inert(lead) && Inert(trail) && raw == Document(v, ws, lead, trail);
    ScannerEqualsStructure(v, ws, lead, trail, MAX_DEPTH);
    TooDeepNeedsNesting(v, 0, nodes);
  }

  /** What the validator accepts nests one level deeper than its limit at most: the innermost container may be empty. */
  lemma {:induction false} FineNests(v: Json, depth: nat, nodes: nat)
    requires Validate(v, depth, nodes).Fine?
    ensures depth + Nesting(v) <= MAX_DEPTH + 1
    decreases v
  {
    match v
    case Arr(items) => ItemsFineNest(v, items, depth + 1, nodes + 1);
    case Obj(members) => MembersFineNest(v, members, depth + 1, nodes + 1);
    case _ =>
  }

  lemma {:induction false} ItemsFineNest(owner: Json, items: seq<Json>, depth: nat, nodes: nat)
    requires forall i :: 0 <= i < |items| ==> items[i] < owner
    requires depth <= MAX_DEPTH + 1 && ValidateItems(owner, items, depth, nodes).Fine?
    ensures depth + NestingOf(owner, items) <= MAX_DEPTH + 1
    decreases owner, |items|
  {
    if items != [] {
      var before := ValidateItems(owner, items[..|items| - 1], depth, nodes);
      ItemsFineNest(owner, items[..|items| - 1], depth, nodes);
      FineNests(items[|items| - 1], depth, before.nodes);
    }
  }

  lemma {:induction false} MembersFineNest(owner: Json, members: seq<Member>, depth: nat, nodes: nat)
    requires forall i :: 0 <= i < |members| ==> members[i].value < owner
    requires depth <= MAX_DEPTH + 1 && ValidateMembers(owner, members, depth, nodes).Fine?
    ensures depth + NestingIn(owner, members) <= MAX_DEPTH + 1
    decreases owner, |members|
  {
    if members != [] {
      var before := ValidateMembers(owner, members[..|members| - 1], depth, nodes);
      MembersFineNest(owner, members[..|members| - 1], depth, nodes);
      FineNests(members[|members| - 1].value, depth, before.nodes);
    }
  }

  /** The two depth limits disagree on exactly the accepted values whose containers nest one deeper than the limit. */
  lemma ScannerIsStricterIff(raw: string, v: Json)
    requires IsDocument(raw, v) && Validate(v, 0, 0).Fine?
    ensures ScanText(At(0), raw, MAX_DEPTH).over <==> Nesting(v) == MAX_DEPTH + 1
  {
    var ws: Layout, lead: string, trail: string :|
      Proper(v) && Blank(ws) && Inert(lead) && Inert(trail) && raw == Document(v, ws, lead, trail);
    ScannerEqualsStructure(v, ws, lead, trail, MAX_DEPTH);
    FineNests(v, 0, 0);
  }

  /** Objects nested `n` deep around an empty one. */
  function Nest(n: nat): Json {
    if n == 0 then Obj([]) else Obj([Member([], Nest(n - 1))])
  }

  lemma {:induction false} NestNests(n: nat)
    ensures Nesting(Nest(n)) == n + 1 && Proper(Nest(n)) && Nest(n).Obj?
  {
    var v := Nest(n);
    if n > 0 {
      NestNests(n - 1);
      assert v.members[..0] == [] && NestingIn(v, []) == 0;
    }
  }

  lemma {:induction false} NestIsFine(n: nat, depth: nat, nodes: nat)
    requires depth + n <= MAX_DEPTH && nodes + n + 1 <= MAX_NODES
    ensures Validate(Nest(n), depth, nodes) == Fine(nodes + n + 1)
  {
    var v := Nest(n);
    if n > 0 {
      NestIsFine(n - 1, depth + 1, nodes + 1);
      assert v.members[..0] == [];
      assert ValidateMembers(v, [], depth + 1, nodes + 1) == Fine(nodes + 1);
    }
  }

  /** They do disagree: an object that the validator accepts is refused as text. */
  lemma ScannerRefusesAcceptedObject(raw: string)
    requires IsDocument(raw, Nest(MAX_DEPTH))
    ensures Nest(MAX_DEPTH).Obj? && Validate(Nest(MAX_DEPTH), 0, 0).Fine?
    ensures ScanText(At(0), raw, MAX_DEPTH).over
  {
    NestNests(MAX_DEPTH);
    NestIsFine(MAX_DEPTH, 0, 0);
    ScannerIsStricterIff(raw, Nest(MAX_DEPTH));
  }
}
