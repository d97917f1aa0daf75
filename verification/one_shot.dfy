/** The answer in one JSON document, and why any fragmentation of it streams to the same tool calls and text. */
module OneShots {
  import opened Options
  import opened ChatStreams
  import opened StreamLaws

  /** A complete tool call; `args == None` when the field is absent. */
  datatype Call = Call(id: string, name: string, args: Option<string>)

  datatype Message = Message(text: string, thought: Thought, refusal: string, calls: seq<Call>, finish: string)

  function OneShotCalls<P>(cfg: Config<P>, calls: seq<Call>): seq<Event<P>> {
    if calls == [] then []
    else
      var n := |calls| - 1;
      OneShotCalls(cfg, calls[..n])
      + [ToolCallStart(if calls[n].id != "" then calls[n].id else cfg.fallbackId(n), calls[n].name, cfg.parse(calls[n].args), n)]
  }

  /** Reasoning counts as missing when it is blank. */
  predicate MissingForTools<P>(cfg: Config<P>, m: Message) {
    cfg.deepseek && m.calls != [] && IsBlank(cfg, ReasoningText(cfg, m.thought)) && cfg.requireToolReasoning
  }

  predicate Synthetic<P>(cfg: Config<P>, m: Message) {
    IsBlank(cfg, ReasoningText(cfg, m.thought)) && !MissingForTools(cfg, m)
  }

  function FinalReasoning<P>(cfg: Config<P>, m: Message): string {
    if Synthetic(cfg, m) then cfg.placeholder else ReasoningText(cfg, m.thought)
  }

  /** `_response` followed by `_response_events`; `None` is the empty-message error. */
  function OneShot<P>(cfg: Config<P>, m: Message): Option<seq<Event<P>>> {
    if !cfg.deepseek && m.text == "" && ReasoningText(cfg, m.thought) == "" && m.calls == [] && m.refusal == "" then None
    else
      var reasoning := FinalReasoning(cfg, m);
      Some((if reasoning != "" then [ReasoningDelta(reasoning, Synthetic(cfg, m))] else [])
           + (if m.text != "" then [TextDelta(m.text)] else [])
           + OneShotCalls(cfg, m.calls)
           + [UsageEvent, DoneEvent(m.finish, MissingForTools(cfg, m))])
  }

  /* ---- Reasoning fields ---- */

  datatype Field = Content | Plain | Details

  /** What a thought says in one field; DeepSeek's other fields are not read. */
  function Of<P>(cfg: Config<P>, f: Field, t: Thought): string {
    match f
    case Content => t.content
    case Plain => if cfg.deepseek then "" else t.plain
    case Details => if cfg.deepseek then "" else t.details
  }

  /** No other field is used. */
  predicate Only(f: Field, t: Thought) {
    (f.Content? || t.content == "") && (f.Plain? || t.plain == "") && (f.Details? || t.details == "")
  }

  /** Blank pieces of the field are dropped. */
  predicate Drops<P>(cfg: Config<P>, f: Field) {
    !cfg.deepseek && !f.Details?
  }

  /** `f` is the field that is read, whatever the others hold. */
  predicate Reads<P>(cfg: Config<P>, f: Field, t: Thought) {
    ReasoningText(cfg, t) == if Drops(cfg, f) && IsBlank(cfg, Of(cfg, f, t)) then "" else Of(cfg, f, t)
  }

  /** A field that stands alone is the one that is read, and DeepSeek's reasoning always stands in the first. */
  lemma OnlyFieldIsRead<P>(cfg: Config<P>, f: Field, t: Thought)
    requires Only(f, t) || (cfg.deepseek && f.Content?)
    ensures Reads(cfg, f, t)
  {
  }

  /** The reasoning of all deltas, field by field. */
  function Joined(choices: seq<Choice>): Thought {
    if choices == [] then Thought("", "", "")
    else
      var first, rest := choices[0].thought, Joined(choices[1..]);
      Thought(first.content + rest.content, first.plain + rest.plain, first.details + rest.details)
  }

  /** The same field is read in every delta and in the message. */
  predicate ReadsOne<P>(cfg: Config<P>, f: Field, choices: seq<Choice>, m: Message) {
    Reads(cfg, f, m.thought) && forall i :: 0 <= i < |choices| ==> Reads(cfg, f, choices[i].thought)
  }

  lemma SilentIff<P>(cfg: Config<P>, t: Thought)
    ensures ReasoningText(cfg, t) == "" <==>
      if cfg.deepseek then t.content == "" else IsBlank(cfg, t.content) && IsBlank(cfg, t.plain) && t.details == ""
  {
  }

  /** The stream keeps some reasoning exactly when the joined fields hold some, in any mixture of the fields. */
  lemma {:induction false} NothingKeptIff<P(!new)>(cfg: Config<P>, choices: seq<Choice>)
    ensures ReasoningsIn(cfg, choices) == [] <==> ReasoningText(cfg, Joined(choices)) == ""
    decreases |choices|
  {
    SilentIff(cfg, Joined(choices));
    if choices != [] {
      var first, rest := choices[0].thought, Joined(choices[1..]);
      NothingKeptIff(cfg, choices[1..]);
      SilentIff(cfg, first);
      SilentIff(cfg, rest);
      BlankAppend(cfg, first.content, rest.content);
      BlankAppend(cfg, first.plain, rest.plain);
    }
  }

  /* ---- Fragments ---- */

  /** The usable call fragments of one choice with the index each one goes to. */
  function FragmentsOf(calls: seq<CallDelta>, position: nat): seq<(nat, CallDelta)>
    decreases |calls|
  {
    if calls == [] then []
    else if calls[0].NotACall? then FragmentsOf(calls[1..], position + 1)
    else [(GoesTo(calls[0], position), calls[0])] + FragmentsOf(calls[1..], position + 1)
  }

  function Fragments(choices: seq<Choice>): seq<(nat, CallDelta)> {
    if choices == [] then [] else FragmentsOf(choices[0].calls, 0) + Fragments(choices[1..])
  }

  /** The fragments for one index, in order of arrival. */
  function For(frags: seq<(nat, CallDelta)>, i: nat): seq<CallDelta> {
    if frags == [] then [] else (if frags[0].0 == i then [frags[0].1] else []) + For(frags[1..], i)
  }

  function FirstNonEmpty(words: seq<string>): string {
    if words == [] then "" else if words[0] != "" then words[0] else FirstNonEmpty(words[1..])
  }

  function IdsOf(fs: seq<CallDelta>): seq<string>
    requires forall i :: 0 <= i < |fs| ==> fs[i].CallDelta?
  {
    seq(|fs|, i requires 0 <= i < |fs| => fs[i].id)
  }

  function NamesOf(fs: seq<CallDelta>): seq<string>
    requires forall i :: 0 <= i < |fs| ==> fs[i].CallDelta?
  {
    seq(|fs|, i requires 0 <= i < |fs| => fs[i].function_.name)
  }

  /** The argument text carried by the fragments; `None` when no fragment has any. */
  function ArgsOf(fs: seq<CallDelta>): Option<string>
    requires forall i :: 0 <= i < |fs| ==> fs[i].CallDelta?
  {
    if fs == [] then None
    else
      var rest, own := ArgsOf(fs[1..]), fs[0].function_.args;
      if own.Some? && own.value.Text? then Some(own.value.s + (if rest.Some? then rest.value else ""))
      else rest
  }

  /** A fragment whose arguments, if any, are text. */
  predicate IsTextual(c: CallDelta) {
    c.CallDelta? && (c.function_.args.Some? ==> c.function_.args.value.Null? || c.function_.args.value.Text?)
  }

  /** The fragments spell the call: string arguments only, whole id and name in the first fragment that has them. */
  predicate Spells(fs: seq<CallDelta>, call: Call) {
    && (forall i :: 0 <= i < |fs| ==> fs[i].CallDelta?)
    && (forall i :: 0 <= i < |fs| ==> IsTextual(fs[i]))
    && fs != []
    && FirstNonEmpty(IdsOf(fs)) == call.id && FirstNonEmpty(NamesOf(fs)) == call.name && ArgsOf(fs) == call.args
  }

  /** The last finish reason that is given. */
  function FinishIn(choices: seq<Choice>): string {
    if choices == [] then ""
    else
      var c := choices[|choices| - 1];
      if c.finish != "" then c.finish else FinishIn(choices[..|choices| - 1])
  }

  /**
   The lines carry the message in any fragmentation of its text, its calls and each of its reasoning fields, and in
   any interleaving of them.
   */
  ghost predicate Carries(lines: seq<Line>, m: Message) {
    var choices := Arrived(lines);
    && Join(TextsIn(choices)) == m.text && FinishIn(choices) == m.finish
    && Joined(choices) == m.thought
    && (m.refusal == "" <==> forall i :: 0 <= i < |choices| ==> choices[i].refusal == "")
    && (forall i :: 0 <= i < |choices| ==> choices[i].legacy.None?)
    && (forall j :: 0 <= j < |Fragments(choices)| ==> Fragments(choices)[j].0 < |m.calls|)
    && (forall i :: 0 <= i < |m.calls| ==> Spells(For(Fragments(choices), i), m.calls[i]))
  }

  /* ---- Reassembly ---- */

  function FoldPart(p: Part, fs: seq<CallDelta>): Part
    requires forall i :: 0 <= i < |fs| ==> fs[i].CallDelta?
    decreases |fs|
  {
    if fs == [] then p else FoldPart(AddFragment(p, fs[0]), fs[1..])
  }

  function FoldAll(parts: Parts, frags: seq<(nat, CallDelta)>): Parts
    requires forall j :: 0 <= j < |frags| ==> frags[j].1.CallDelta?
    decreases |frags|
  {
    if frags == [] then parts
    else FoldAll(parts[frags[0].0 := AddFragment(PartAt(parts, frags[0].0, NewPart), frags[0].1)], frags[1..])
  }

  lemma {:induction false} FragmentsAreCalls(calls: seq<CallDelta>, position: nat)
    ensures forall j :: 0 <= j < |FragmentsOf(calls, position)| ==> FragmentsOf(calls, position)[j].1.CallDelta?
    decreases |calls|
  {
    if calls != [] {
      FragmentsAreCalls(calls[1..], position + 1);
    }
  }

  lemma {:induction false} AllFragmentsAreCalls(choices: seq<Choice>)
    ensures forall j :: 0 <= j < |Fragments(choices)| ==> Fragments(choices)[j].1.CallDelta?
  {
    if choices != [] {
      FragmentsAreCalls(choices[0].calls, 0);
      AllFragmentsAreCalls(choices[1..]);
    }
  }

  lemma {:induction false} FoldAllAppend(parts: Parts, a: seq<(nat, CallDelta)>, b: seq<(nat, CallDelta)>)
    requires forall j :: 0 <= j < |a| ==> a[j].1.CallDelta?
    requires forall j :: 0 <= j < |b| ==> b[j].1.CallDelta?
    ensures FoldAll(parts, a + b) == FoldAll(FoldAll(parts, a), b)
    decreases |a|
  {
    if a == [] {
      assert a + b == b;
    } else {
      assert (a + b)[1..] == a[1..] + b;
      FoldAllAppend(parts[a[0].0 := AddFragment(PartAt(parts, a[0].0, NewPart), a[0].1)], a[1..], b);
    }
  }

  lemma {:induction false} AddCallsFolds(parts: Parts, calls: seq<CallDelta>, position: nat)
    ensures forall j :: 0 <= j < |FragmentsOf(calls, position)| ==> FragmentsOf(calls, position)[j].1.CallDelta?
    ensures AddCalls(parts, calls, position) == FoldAll(parts, FragmentsOf(calls, position))
    decreases |calls|
  {
    FragmentsAreCalls(calls, position);
    if calls != [] {
      if calls[0].NotACall? {
        AddCallsFolds(parts, calls[1..], position + 1);
      } else {
        var i := SafeCallIndex(calls[0].index, position);
        AddCallsFolds(parts[i := AddFragment(PartAt(parts, i, NewPart), calls[0])], calls[1..], position + 1);
        assert FragmentsOf(calls, position)[1..] == FragmentsOf(calls[1..], position + 1);
      }
    }
  }

  /** The parts collected by the stream are the fold over its fragments. */
  lemma {:induction false} PartsFold<P(!new)>(cfg: Config<P>, s: Stream<P>, choices: seq<Choice>)
    requires forall i :: 0 <= i < |choices| ==> choices[i].legacy.None?
    ensures forall j :: 0 <= j < |Fragments(choices)| ==> Fragments(choices)[j].1.CallDelta?
    ensures AddChoices(cfg, s, choices).parts == FoldAll(s.parts, Fragments(choices))
    decreases |choices|
  {
    AllFragmentsAreCalls(choices);
    if choices != [] {
      AddCallsFolds(s.parts, choices[0].calls, 0);
      AllFragmentsAreCalls(choices[1..]);
      PartsFold(cfg, AddChoice(cfg, s, choices[0]), choices[1..]);
      FoldAllAppend(s.parts, FragmentsOf(choices[0].calls, 0), Fragments(choices[1..]));
    }
  }

  lemma {:induction false} ForAreCalls(frags: seq<(nat, CallDelta)>, i: nat)
    requires forall j :: 0 <= j < |frags| ==> frags[j].1.CallDelta?
    ensures forall j :: 0 <= j < |For(frags, i)| ==> For(frags, i)[j].CallDelta?
    ensures For(frags, i) != [] <==> exists j :: 0 <= j < |frags| && frags[j].0 == i
    decreases |frags|
  {
    if frags != [] {
      ForAreCalls(frags[1..], i);
      if exists j :: 0 <= j < |frags[1..]| && frags[1..][j].0 == i {
        var j :| 0 <= j < |frags[1..]| && frags[1..][j].0 == i;
        assert frags[j + 1].0 == i;
      }
      if j :| 0 <= j < |frags| && frags[j].0 == i && j > 0 {
        assert frags[1..][j - 1].0 == i;
      }
    }
  }

  /** Interleaving does not matter: each part sees exactly its own fragments. */
  lemma {:induction false} PartsSeparate(parts: Parts, frags: seq<(nat, CallDelta)>, i: nat)
    requires forall j :: 0 <= j < |frags| ==> frags[j].1.CallDelta?
    ensures forall j :: 0 <= j < |For(frags, i)| ==> For(frags, i)[j].CallDelta?
    ensures i in FoldAll(parts, frags) <==> i in parts || For(frags, i) != []
    ensures i in FoldAll(parts, frags) ==> FoldAll(parts, frags)[i] == FoldPart(PartAt(parts, i, NewPart), For(frags, i))
    decreases |frags|
  {
    ForAreCalls(frags, i);
    if frags != [] {
      var next := parts[frags[0].0 := AddFragment(PartAt(parts, frags[0].0, NewPart), frags[0].1)];
      PartsSeparate(next, frags[1..], i);
      if frags[0].0 == i {
        assert For(frags, i)[1..] == For(frags[1..], i);
      } else {
        assert For(frags, i) == For(frags[1..], i);
      }
    }
  }

  lemma AddTextual(p: Part, c: CallDelta)
    requires !p.isObject && (!p.seen ==> p.args == "") && IsTextual(c)
    ensures var r, own := AddFragment(p, c), ArgsOf([c]);
      r == Part(if p.id != "" then p.id else c.id, if p.name != "" then p.name else c.function_.name,
                p.args + (if own.Some? then own.value else ""), p.seen || own.Some?, false)
  {
    assert [c][1..] == [];
  }

  lemma ArgsOfOne(c: CallDelta)
    requires IsTextual(c)
    ensures ArgsOf([c]) == if c.function_.args.Some? && c.function_.args.value.Text? then Some(c.function_.args.value.s) else None
  {
    assert [c][1..] == [];
    if c.function_.args.Some? && c.function_.args.value.Text? {
      assert c.function_.args.value.s + "" == c.function_.args.value.s;
    }
  }

  lemma FirstWords(fs: seq<CallDelta>)
    requires fs != [] && forall i :: 0 <= i < |fs| ==> fs[i].CallDelta?
    ensures FirstNonEmpty(IdsOf(fs)) == if fs[0].id != "" then fs[0].id else FirstNonEmpty(IdsOf(fs[1..]))
    ensures FirstNonEmpty(NamesOf(fs)) == if fs[0].function_.name != "" then fs[0].function_.name else FirstNonEmpty(NamesOf(fs[1..]))
  {
    assert IdsOf(fs)[1..] == IdsOf(fs[1..]);
    assert NamesOf(fs)[1..] == NamesOf(fs[1..]);
  }

  lemma FirstArgs(fs: seq<CallDelta>)
    requires fs != [] && forall i :: 0 <= i < |fs| ==> fs[i].CallDelta?
    requires IsTextual(fs[0])
    ensures var own, rest := ArgsOf([fs[0]]), ArgsOf(fs[1..]);
      ArgsOf(fs) == if own.None? then rest else Some(own.value + (if rest.Some? then rest.value else ""))
  {
    ArgsOfOne(fs[0]);
  }

  lemma AddKeepsText(p: Part, c: CallDelta)
    requires !p.isObject && (!p.seen ==> p.args == "") && IsTextual(c)
    ensures var r := AddFragment(p, c); !r.isObject && (!r.seen ==> r.args == "")
  {
  }

  lemma AddWords(p: Part, c: CallDelta)
    requires c.CallDelta?
    ensures AddFragment(p, c).id == if p.id != "" then p.id else c.id
    ensures AddFragment(p, c).name == if p.name != "" then p.name else c.function_.name
  {
  }

  lemma FoldStep(p: Part, fs: seq<CallDelta>) returns (next: Part)
    requires fs != [] && forall i :: 0 <= i < |fs| ==> fs[i].CallDelta?
    ensures FoldPart(p, fs) == FoldPart(next, fs[1..])
    ensures next.id == if p.id != "" then p.id else fs[0].id
    ensures next.name == if p.name != "" then p.name else fs[0].function_.name
  {
    next := AddFragment(p, fs[0]);
    AddWords(p, fs[0]);
  }

  lemma {:induction false} FoldId(p: Part, fs: seq<CallDelta>)
    requires forall i :: 0 <= i < |fs| ==> fs[i].CallDelta?
    ensures FoldPart(p, fs).id == if p.id != "" then p.id else FirstNonEmpty(IdsOf(fs))
    decreases |fs|
  {
    if fs != [] {
      FirstWords(fs);
      var next := FoldStep(p, fs);
      FoldId(next, fs[1..]);
    }
  }

  lemma {:induction false} FoldName(p: Part, fs: seq<CallDelta>)
    requires forall i :: 0 <= i < |fs| ==> fs[i].CallDelta?
    ensures FoldPart(p, fs).name == if p.name != "" then p.name else FirstNonEmpty(NamesOf(fs))
    decreases |fs|
  {
    if fs != [] {
      FirstWords(fs);
      var next := FoldStep(p, fs);
      FoldName(next, fs[1..]);
    }
  }

  lemma {:induction false} FoldArgs(p: Part, fs: seq<CallDelta>)
    requires !p.isObject && (!p.seen ==> p.args == "")
    requires forall i :: 0 <= i < |fs| ==> fs[i].CallDelta?
    requires forall i :: 0 <= i < |fs| ==> IsTextual(fs[i])
    ensures var r := FoldPart(p, fs);
      && r.args == p.args + (if ArgsOf(fs).Some? then ArgsOf(fs).value else "")
      && (r.seen <==> p.seen || ArgsOf(fs).Some?) && !r.isObject
    decreases |fs|
  {
    if fs != [] {
      AddTextual(p, fs[0]);
      AddKeepsText(p, fs[0]);
      FirstArgs(fs);
      FoldArgs(AddFragment(p, fs[0]), fs[1..]);
    }
  }

  /** Folding string fragments concatenates the arguments and keeps the first id and name. */
  lemma FoldSpells(p: Part, fs: seq<CallDelta>)
    requires !p.isObject && (!p.seen ==> p.args == "")
    requires forall i :: 0 <= i < |fs| ==> fs[i].CallDelta?
    requires forall i :: 0 <= i < |fs| ==> IsTextual(fs[i])
    ensures FoldPart(p, fs) ==
      Part(if p.id != "" then p.id else FirstNonEmpty(IdsOf(fs)),
           if p.name != "" then p.name else FirstNonEmpty(NamesOf(fs)),
           p.args + (if ArgsOf(fs).Some? then ArgsOf(fs).value else ""),
           p.seen || ArgsOf(fs).Some?, false)
  {
    FoldId(p, fs);
    FoldName(p, fs);
    FoldArgs(p, fs);
  }

  /** The part collected for a call that its fragments spell. */
  lemma SpelledPart(fs: seq<CallDelta>, call: Call)
    requires Spells(fs, call)
    ensures FoldPart(NewPart, fs) == WholePart(call)
  {
    FoldSpells(NewPart, fs);
  }

  /** A stream that carries the message has collected exactly the message's calls. */
  lemma CollectedParts<P(!new)>(cfg: Config<P>, lines: seq<Line>, m: Message)
    requires Carries(lines, m)
    ensures var parts := AddChoices(cfg, NewStream<P>(), Arrived(lines)).parts;
      && (forall i: nat :: i in parts <==> i < |m.calls|)
      && forall i: nat :: i < |m.calls| ==> parts[i] == WholePart(m.calls[i])
  {
    var choices := Arrived(lines);
    PartsFold(cfg, NewStream<P>(), choices);
    var frags := Fragments(choices);
    forall i: nat
      ensures i in FoldAll(map[], frags) <==> i < |m.calls|
      ensures i < |m.calls| ==> FoldAll(map[], frags)[i] == WholePart(m.calls[i])
    {
      OnePart(frags, m, i);
    }
  }

  lemma OnePart(frags: seq<(nat, CallDelta)>, m: Message, i: nat)
    requires forall j :: 0 <= j < |frags| ==> frags[j].1.CallDelta?
    requires forall j :: 0 <= j < |frags| ==> frags[j].0 < |m.calls|
    requires i < |m.calls| ==> Spells(For(frags, i), m.calls[i])
    ensures i in FoldAll(map[], frags) <==> i < |m.calls|
    ensures i < |m.calls| ==> FoldAll(map[], frags)[i] == WholePart(m.calls[i])
  {
    PartsSeparate(map[], frags, i);
    ForAreCalls(frags, i);
    if i < |m.calls| {
      SpelledPart(For(frags, i), m.calls[i]);
    }
  }

  /** The tool calls of a stream that carries the message are those of the one-shot answer. */
  lemma SameCalls<P(!new)>(cfg: Config<P>, parts: Parts, calls: seq<Call>)
    requires forall i: nat :: i in parts <==> i < |calls|
    requires forall i: nat :: i < |calls| ==> parts[i] == WholePart(calls[i])
    ensures Bound(parts.Keys) == |calls|
    ensures CallEvents(cfg, parts, |calls|) == OneShotCalls(cfg, calls)
  {
    if calls != [] {
      assert |calls| - 1 in parts.Keys;
    }
    CallsUpTo(cfg, parts, calls, |calls|);
    assert calls[..|calls|] == calls;
  }

  /** The part of a complete call. */
  function WholePart(call: Call): Part {
    Part(call.id, call.name, if call.args.Some? then call.args.value else "", call.args.Some?, false)
  }

  lemma {:induction false} CallsUpTo<P(!new)>(cfg: Config<P>, parts: Parts, calls: seq<Call>, n: nat)
    requires n <= |calls|
    requires forall i: nat :: i < |calls| ==> i in parts && parts[i] == WholePart(calls[i])
    ensures CallEvents(cfg, parts, n) == OneShotCalls(cfg, calls[..n])
  {
    if n > 0 {
      CallsUpTo(cfg, parts, calls, n - 1);
      assert calls[..n][..n - 1] == calls[..n - 1];
      assert calls[n - 1].args == (if parts[n - 1].seen then Some(parts[n - 1].args) else None);
    }
  }

  lemma {:induction false} OneShotCallsShape<P(!new)>(cfg: Config<P>, calls: seq<Call>)
    ensures var e := OneShotCalls(cfg, calls);
      |e| == |calls| && TextsOf(e) == [] && ReasoningsOf(e) == [] && CallsOf(e) == e
  {
    if calls != [] {
      var n := |calls| - 1;
      var e := OneShotCalls(cfg, calls);
      OneShotCallsShape(cfg, calls[..n]);
      assert e[..|e| - 1] == OneShotCalls(cfg, calls[..n]);
    }
  }

  lemma OneShotParts<P(!new)>(cfg: Config<P>, m: Message)
    requires OneShot(cfg, m).Some?
    ensures var e := OneShot(cfg, m).value;
      && TextsOf(e) == (if m.text == "" then [] else [m.text])
      && ReasoningsOf(e) == (if FinalReasoning(cfg, m) == "" then [] else [FinalReasoning(cfg, m)])
      && CallsOf(e) == OneShotCalls(cfg, m.calls)
  {
    var r: seq<Event<P>> := if FinalReasoning(cfg, m) != ""
      then [ReasoningDelta(FinalReasoning(cfg, m), Synthetic(cfg, m))] else [];
    var t: seq<Event<P>> := if m.text != "" then [TextDelta(m.text)] else [];
    if r != [] {
      ProjectOne(r[0]);
    }
    if t != [] {
      ProjectOne(t[0]);
    }
    OneShotCallsShape(cfg, m.calls);
    ProjectTail<P>(m.finish, MissingForTools(cfg, m));
    ProjectFour(r, t, OneShotCalls(cfg, m.calls), [UsageEvent, DoneEvent(m.finish, MissingForTools(cfg, m))]);
  }

  lemma {:induction false} JoinEmpty(parts: seq<string>)
    requires forall i :: 0 <= i < |parts| ==> parts[i] != ""
    ensures Join(parts) == "" <==> parts == []
  {
  }

  lemma {:induction false} ArrivedNonEmpty<P(!new)>(cfg: Config<P>, choices: seq<Choice>)
    ensures forall i :: 0 <= i < |TextsIn(choices)| ==> TextsIn(choices)[i] != ""
    ensures forall i :: 0 <= i < |ReasoningsIn(cfg, choices)| ==> ReasoningsIn(cfg, choices)[i] != ""
  {
    if choices != [] {
      ArrivedNonEmpty(cfg, choices[1..]);
    }
  }

  lemma {:induction false} RefusalsCount<P(!new)>(cfg: Config<P>, s: Stream<P>, choices: seq<Choice>)
    ensures AddChoices(cfg, s, choices).refusals == [] <==>
            s.refusals == [] && forall i :: 0 <= i < |choices| ==> choices[i].refusal == ""
    decreases |choices|
  {
    if choices != [] {
      RefusalsCount(cfg, AddChoice(cfg, s, choices[0]), choices[1..]);
      assert forall i :: 0 < i < |choices| ==> choices[i] == choices[1..][i - 1];
    }
  }

  /** The stream was closed properly: a done mark, or a finish reason before the body ended. */
  ghost predicate ClosedProperly<P(!new)>(cfg: Config<P>, lines: seq<Line>) {
    var (s, stop) := Consume(cfg, NewStream<P>(), lines);
    stop.Marked? || (stop.Closed? && s.finish != "")
  }

  lemma {:induction false} JoinAppend(a: seq<string>, b: seq<string>)
    ensures Join(a + b) == Join(a) + Join(b)
    decreases |b|
  {
    if b == [] {
      assert a + b == a;
    } else {
      assert (a + b)[..|a + b| - 1] == a + b[..|b| - 1];
      JoinAppend(a, b[..|b| - 1]);
    }
  }

  /** No piece of the field that holds anything is blank. */
  predicate NoBlankPieces<P>(cfg: Config<P>, f: Field, choices: seq<Choice>) {
    forall i :: 0 <= i < |choices| ==>
      Of(cfg, f, choices[i].thought) == "" || !IsBlank(cfg, Of(cfg, f, choices[i].thought))
  }

  lemma BlankAppend<P>(cfg: Config<P>, a: string, b: string)
    ensures IsBlank(cfg, a + b) <==> IsBlank(cfg, a) && IsBlank(cfg, b)
  {
    if IsBlank(cfg, a + b) {
      assert forall i :: 0 <= i < |a| ==> a[i] == (a + b)[i];
      assert forall i :: 0 <= i < |b| ==> b[i] == (a + b)[|a| + i];
    }
  }

  /** What is left of the field after the stream has dropped what it drops. */
  lemma {:induction false} KeptReasoning<P(!new)>(cfg: Config<P>, f: Field, choices: seq<Choice>)
    requires forall i :: 0 <= i < |choices| ==> Reads(cfg, f, choices[i].thought)
    ensures var kept, whole := Join(ReasoningsIn(cfg, choices)), Of(cfg, f, Joined(choices));
      && |kept| <= |whole|
      && (kept == whole <==> !Drops(cfg, f) || NoBlankPieces(cfg, f, choices))
      && (kept != whole ==> |kept| < |whole|)
    decreases |choices|
  {
    if choices != [] {
      var piece, text := Of(cfg, f, choices[0].thought), ReasoningText(cfg, choices[0].thought);
      var first := if text == "" then [] else [text];
      KeptReasoning(cfg, f, choices[1..]);
      JoinAppend(first, ReasoningsIn(cfg, choices[1..]));
      JoinOne(text);
      assert Of(cfg, f, Joined(choices)) == piece + Of(cfg, f, Joined(choices[1..]));
      assert Join(ReasoningsIn(cfg, choices)) == text + Join(ReasoningsIn(cfg, choices[1..]));
      NoBlankFirst(cfg, f, choices);
      SamePrefix(text, piece, Join(ReasoningsIn(cfg, choices[1..])), Of(cfg, f, Joined(choices[1..])));
    }
  }

  lemma NoBlankFirst<P>(cfg: Config<P>, f: Field, choices: seq<Choice>)
    requires choices != []
    ensures var piece := Of(cfg, f, choices[0].thought);
      NoBlankPieces(cfg, f, choices) <==> (piece == "" || !IsBlank(cfg, piece)) && NoBlankPieces(cfg, f, choices[1..])
  {
    assert forall i :: 0 < i < |choices| ==> choices[i] == choices[1..][i - 1];
  }

  lemma SamePrefix(a: string, b: string, x: string, y: string)
    requires (a == b || a == "") && |x| <= |y| && (x != y ==> |x| < |y|)
    ensures |a + x| <= |b + y| && (a + x == b + y <==> a == b && x == y) && (a + x != b + y ==> |a + x| < |b + y|)
  {
    if a == b && a + x == b + y {
      assert x == (a + x)[|a|..] == (b + y)[|b|..] == y;
    }
  }

  /** What a stream that carries the message has collected at its end. */
  lemma Collected<P(!new)>(cfg: Config<P>, lines: seq<Line>, m: Message)
    requires Carries(lines, m)
    ensures var s := Consume(cfg, NewStream<P>(), lines).0;
      && (s.texts == [] <==> m.text == "") && (s.reasonings == [] <==> ReasoningText(cfg, m.thought) == "")
      && (s.refusals == [] <==> m.refusal == "")
      && Join(s.texts) == m.text && s.reasonings == ReasoningsIn(cfg, Arrived(lines))
  {
    var choices := Arrived(lines);
    ConsumeArrived(cfg, NewStream<P>(), lines);
    StreamHeld(cfg, lines);
    ArrivedNonEmpty(cfg, choices);
    JoinEmpty(TextsIn(choices));
    NothingKeptIff(cfg, choices);
    RefusalsCount(cfg, NewStream<P>(), choices);
  }

  lemma CollectedCalls<P(!new)>(cfg: Config<P>, lines: seq<Line>, m: Message)
    requires Carries(lines, m)
    ensures var s := Consume(cfg, NewStream<P>(), lines).0;
      (|s.parts| == 0 <==> m.calls == []) && CallEvents(cfg, s.parts, Bound(s.parts.Keys)) == OneShotCalls(cfg, m.calls)
  {
    ConsumeArrived(cfg, NewStream<P>(), lines);
    CollectedParts(cfg, lines, m);
    var parts := Consume(cfg, NewStream<P>(), lines).0.parts;
    SameCalls(cfg, parts, m.calls);
    if m.calls != [] {
      assert 0 in parts;
    } else {
      assert parts.Keys == {};
    }
  }

  lemma FinishedIff<P(!new)>(cfg: Config<P>, lines: seq<Line>)
    requires ClosedProperly(cfg, lines)
    ensures Exchange(cfg, lines).1.Finished? <==> !NothingToReport(cfg, Consume(cfg, NewStream<P>(), lines).0)
  {
    ConsumeArrived(cfg, NewStream<P>(), lines);
  }

  /** A properly closed stream succeeds exactly when the one-shot answer does. */
  lemma SameSuccess<P(!new)>(cfg: Config<P>, lines: seq<Line>, m: Message)
    requires Carries(lines, m) && ClosedProperly(cfg, lines)
    ensures Exchange(cfg, lines).1.Finished? <==> OneShot(cfg, m).Some?
  {
    Collected(cfg, lines, m);
    CollectedCalls(cfg, lines, m);
    FinishedIff(cfg, lines);
  }

  /**
   When both paths give the same reasoning.  Where blank pieces are dropped: if the whole field is blank anyway, or no
   piece of it is.  Elsewhere: unless it is blank, replaced on the one-shot path, and not the placeholder itself.
   */
  predicate ReasoningAgrees<P>(cfg: Config<P>, f: Field, choices: seq<Choice>, m: Message) {
    var whole := Of(cfg, f, m.thought);
    if Drops(cfg, f) then IsBlank(cfg, whole) || NoBlankPieces(cfg, f, choices)
    else whole == "" || !IsBlank(cfg, whole) || MissingForTools(cfg, m) || cfg.placeholder == whole
  }

  /** Only DeepSeek reasoning that is blank but not empty is missing on the one-shot path and present in the stream. */
  predicate FlagAgrees<P>(cfg: Config<P>, m: Message) {
    MissingForTools(cfg, m) ==> ReasoningText(cfg, m.thought) == ""
  }

  lemma SameFlag<P(!new)>(cfg: Config<P>, s: Stream<P>, m: Message)
    requires |s.parts| == 0 <==> m.calls == []
    requires s.reasonings == [] <==> ReasoningText(cfg, m.thought) == ""
    ensures ReasoningMissing(cfg, s) == MissingForTools(cfg, m) <==> FlagAgrees(cfg, m)
    ensures s.reasonings == [] ==> ReasoningMissing(cfg, s) == MissingForTools(cfg, m)
  {
  }

  lemma SameReasoning<P(!new)>(cfg: Config<P>, f: Field, s: Stream<P>, choices: seq<Choice>, m: Message)
    requires Reads(cfg, f, m.thought) && (|s.parts| == 0 <==> m.calls == [])
    requires s.reasonings == [] <==> ReasoningText(cfg, m.thought) == ""
    requires Join(s.reasonings) == Of(cfg, f, m.thought) <==> !Drops(cfg, f) || NoBlankPieces(cfg, f, choices)
    ensures Join(s.reasonings + Invented(cfg, s)) == FinalReasoning(cfg, m) <==> ReasoningAgrees(cfg, f, choices, m)
  {
    SameFlag(cfg, s, m);
    if s.reasonings == [] {
      assert s.reasonings + Invented(cfg, s) == Invented(cfg, s);
      JoinOne(cfg.placeholder);
    } else {
      assert s.reasonings + Invented(cfg, s) == s.reasonings;
    }
  }

  lemma {:induction false} FinishLast<P(!new)>(cfg: Config<P>, s: Stream<P>, choices: seq<Choice>)
    ensures AddChoices(cfg, s, choices).finish == if FinishIn(choices) != "" then FinishIn(choices) else s.finish
    decreases |choices|
  {
    if choices != [] {
      var before, last := choices[..|choices| - 1], [choices[|choices| - 1]];
      assert choices == before + last;
      AddChoicesAppend(cfg, s, before, last);
      FinishLast(cfg, s, before);
      assert last[1..] == [];
      assert AddChoices(cfg, AddChoices(cfg, s, before), last) == AddChoice(cfg, AddChoices(cfg, s, before), last[0]);
    }
  }

  /** What the last event of a finished exchange says. */
  lemma LastEvents<P(!new)>(cfg: Config<P>, lines: seq<Line>, m: Message)
    requires Carries(lines, m) && Exchange(cfg, lines).1.Finished?
    ensures var streamed, s := Exchange(cfg, lines).0, Consume(cfg, NewStream<P>(), lines).0;
      streamed != [] && streamed[|streamed| - 1] == DoneEvent(m.finish, ReasoningMissing(cfg, s))
  {
    var s := Consume(cfg, NewStream<P>(), lines).0;
    FinishedParts(cfg, lines);
    ConsumeArrived(cfg, NewStream<P>(), lines);
    FinishLast(cfg, NewStream<P>(), Arrived(lines));
    ClosingShape(cfg, s);
  }

  lemma LastOfOneShot<P(!new)>(cfg: Config<P>, m: Message)
    requires OneShot(cfg, m).Some?
    ensures var whole := OneShot(cfg, m).value;
      whole != [] && whole[|whole| - 1] == DoneEvent(m.finish, MissingForTools(cfg, m))
  {
  }

  lemma SameCallsAndText<P(!new)>(cfg: Config<P>, lines: seq<Line>, m: Message)
    requires Carries(lines, m) && Exchange(cfg, lines).1.Finished? && OneShot(cfg, m).Some?
    ensures CallsOf(Exchange(cfg, lines).0) == CallsOf(OneShot(cfg, m).value)
    ensures Join(TextsOf(Exchange(cfg, lines).0)) == Join(TextsOf(OneShot(cfg, m).value))
  {
    FinishedParts(cfg, lines);
    Collected(cfg, lines, m);
    CollectedCalls(cfg, lines, m);
    OneShotParts(cfg, m);
    JoinOne(m.text);
  }

  lemma ReasoningAgreesIff<P(!new)>(cfg: Config<P>, f: Field, lines: seq<Line>, m: Message)
    requires Carries(lines, m) && ReadsOne(cfg, f, Arrived(lines), m)
    requires Exchange(cfg, lines).1.Finished? && OneShot(cfg, m).Some?
    ensures SameReasoningTold(Exchange(cfg, lines).0, OneShot(cfg, m).value) <==> ReasoningAgrees(cfg, f, Arrived(lines), m)
  {
    var s := Consume(cfg, NewStream<P>(), lines).0;
    FinishedParts(cfg, lines);
    Collected(cfg, lines, m);
    CollectedCalls(cfg, lines, m);
    KeptReasoning(cfg, f, Arrived(lines));
    OneShotParts(cfg, m);
    JoinOne(FinalReasoning(cfg, m));
    SameReasoning(cfg, f, s, Arrived(lines), m);
  }

  lemma LastAgreesIff<P(!new)>(cfg: Config<P>, lines: seq<Line>, m: Message)
    requires Carries(lines, m) && Exchange(cfg, lines).1.Finished? && OneShot(cfg, m).Some?
    ensures var streamed, whole := Exchange(cfg, lines).0, OneShot(cfg, m).value;
      streamed != [] && whole != [] && (streamed[|streamed| - 1] == whole[|whole| - 1] <==> FlagAgrees(cfg, m))
  {
    var s := Consume(cfg, NewStream<P>(), lines).0;
    Collected(cfg, lines, m);
    CollectedCalls(cfg, lines, m);
    SameFlag(cfg, s, m);
    LastEvents(cfg, lines, m);
    LastOfOneShot(cfg, m);
  }

  /**
   A properly closed stream that carries a message ends like the one-shot answer: both fail, or both succeed with
   the same tool calls in the same order and the same text.  The flag that reasoning is required and missing agrees
   exactly under `FlagAgrees`; the reasoning, where one field of it is read throughout, exactly under `ReasoningAgrees`.
   */
  lemma StreamingRefinesOneShot<P(!new)>(cfg: Config<P>, lines: seq<Line>, m: Message)
    requires Carries(lines, m) && ClosedProperly(cfg, lines)
    ensures Exchange(cfg, lines).1.Finished? <==> OneShot(cfg, m).Some?
    ensures OneShot(cfg, m).Some? ==> SameStory(cfg, Exchange(cfg, lines).0, OneShot(cfg, m).value, m)
    ensures OneShot(cfg, m).Some? ==> forall f :: ReadsOne(cfg, f, Arrived(lines), m) ==>
      (SameReasoningTold(Exchange(cfg, lines).0, OneShot(cfg, m).value) <==> ReasoningAgrees(cfg, f, Arrived(lines), m))
  {
    SameSuccess(cfg, lines, m);
    if OneShot(cfg, m).Some? {
      SameCallsAndText(cfg, lines, m);
      LastAgreesIff(cfg, lines, m);
      forall f | ReadsOne(cfg, f, Arrived(lines), m)
        ensures SameReasoningTold(Exchange(cfg, lines).0, OneShot(cfg, m).value) <==> ReasoningAgrees(cfg, f, Arrived(lines), m)
      {
        ReasoningAgreesIff(cfg, f, lines, m);
      }
    }
  }

  /** Equal tool calls and text, and equal last events exactly when the flag agrees. */
  ghost predicate SameStory<P(!new)>(cfg: Config<P>, streamed: seq<Event<P>>, whole: seq<Event<P>>, m: Message) {
    && CallsOf(streamed) == CallsOf(whole)
    && Join(TextsOf(streamed)) == Join(TextsOf(whole))
    && streamed != [] && whole != []
    && (streamed[|streamed| - 1] == whole[|whole| - 1] <==> FlagAgrees(cfg, m))
  }

  ghost predicate SameReasoningTold<P(!new)>(streamed: seq<Event<P>>, whole: seq<Event<P>>) {
    Join(ReasoningsOf(streamed)) == Join(ReasoningsOf(whole))
  }

  /* ---- A message of nothing but reasoning, in pieces ---- */

  function Pieces(ts: seq<Thought>): seq<Choice> {
    seq(|ts|, i requires 0 <= i < |ts| => Choice("", ts[i], "", "", [], None))
  }

  function Lines(ts: seq<Thought>): seq<Line> {
    [Frame(Pieces(ts)), DoneMark]
  }

  function Reasoned(t: Thought): Message {
    Message("", t, "", [], "")
  }

  lemma {:induction false} PiecesHold(ts: seq<Thought>)
    ensures TextsIn(Pieces(ts)) == [] && Fragments(Pieces(ts)) == []
    decreases |ts|
  {
    if ts != [] {
      assert Pieces(ts)[1..] == Pieces(ts[1..]);
      PiecesHold(ts[1..]);
      assert FragmentsOf(Pieces(ts)[0].calls, 0) == [];
    }
  }

  lemma {:induction false} NoFinish(choices: seq<Choice>)
    requires forall i :: 0 <= i < |choices| ==> choices[i].finish == ""
    ensures FinishIn(choices) == ""
    decreases |choices|
  {
    if choices != [] {
      NoFinish(choices[..|choices| - 1]);
    }
  }

  lemma LinesArrive<P(!new)>(cfg: Config<P>, ts: seq<Thought>)
    ensures Arrived(Lines(ts)) == Pieces(ts) && ClosedProperly(cfg, Lines(ts))
  {
    var lines := Lines(ts);
    assert lines[1..] == [DoneMark];
    assert Arrived(lines) == Pieces(ts) + Arrived([DoneMark]);
    assert Consume(cfg, NewStream<P>(), lines) == Consume(cfg, AddChoices(cfg, NewStream<P>(), Pieces(ts)), [DoneMark]);
  }

  /** Every mixture of fields is carried, and says what the joined fields say. */
  lemma LinesCarry<P(!new)>(cfg: Config<P>, ts: seq<Thought>, whole: Thought)
    requires whole == Joined(Pieces(ts))
    ensures Carries(Lines(ts), Reasoned(whole)) && Arrived(Lines(ts)) == Pieces(ts) && ClosedProperly(cfg, Lines(ts))
  {
    LinesArrive(cfg, ts);
    PiecesHold(ts);
    NoFinish(Pieces(ts));
    assert Join([]) == "";
  }

  /** A blank piece between two others is lost: "a", " " and "b" stream as "ab" where the one-shot answer says "a b". */
  lemma BlankPieceIsLost<P(!new)>(cfg: Config<P>)
    requires !cfg.deepseek && cfg.blank(' ') && !cfg.blank('a')
    ensures var lines, m := Lines([InContent("a"), InContent(" "), InContent("b")]), Reasoned(InContent("a b"));
      && Carries(lines, m) && ClosedProperly(cfg, lines)
      && Exchange(cfg, lines).1.Finished? && OneShot(cfg, m).Some?
      && !SameReasoningTold(Exchange(cfg, lines).0, OneShot(cfg, m).value)
  {
    var ts, m := [InContent("a"), InContent(" "), InContent("b")], Reasoned(InContent("a b"));
    JoinedThree(ts[0], ts[1], ts[2]);
    assert "a" + " " + "b" == "a b";
    LinesCarry(cfg, ts, InContent("a b"));
    OneFieldIsRead(cfg, ts, m);
    PieceIsBlank(cfg, ts, m);
    StreamingRefinesOneShot(cfg, Lines(ts), m);
  }

  /**
   Fields that take turns are all streamed, where the one-shot answer reads the first: "a" in one field and then "b" in
   another stream as "ab" and are answered as "a".
   */
  lemma TurnsAreStreamed<P(!new)>(cfg: Config<P>)
    requires !cfg.deepseek && !cfg.blank('a') && !cfg.blank('b')
    ensures var lines, m := Lines([InContent("a"), Thought("", "b", "")]), Reasoned(Thought("a", "b", ""));
      && Carries(lines, m) && ClosedProperly(cfg, lines)
      && Exchange(cfg, lines).1.Finished? && OneShot(cfg, m).Some?
      && Join(ReasoningsOf(Exchange(cfg, lines).0)) == "ab" && Join(ReasoningsOf(OneShot(cfg, m).value)) == "a"
  {
    var ts, m := [InContent("a"), Thought("", "b", "")], Reasoned(Thought("a", "b", ""));
    JoinedTwo(ts[0], ts[1]);
    assert "a"[0] == 'a' && ReasoningText(cfg, m.thought) == "a";
    LinesCarry(cfg, ts, m.thought);
    StreamingRefinesOneShot(cfg, Lines(ts), m);
    FinishedParts(cfg, Lines(ts));
    Collected(cfg, Lines(ts), m);
    TwoAreRead(cfg, ts);
    OneShotParts(cfg, m);
    JoinOne("a");
    var s := Consume(cfg, NewStream<P>(), Lines(ts)).0;
    assert s.reasonings + Invented(cfg, s) == s.reasonings;
  }

  function InContent(reasoning: string): Thought {
    Thought(reasoning, "", "")
  }

  lemma OneFieldIsRead<P>(cfg: Config<P>, ts: seq<Thought>, m: Message)
    requires Only(Content, m.thought) && forall i :: 0 <= i < |ts| ==> Only(Content, ts[i])
    ensures ReadsOne(cfg, Content, Pieces(ts), m)
  {
    OnlyFieldIsRead(cfg, Content, m.thought);
    forall i | 0 <= i < |ts| ensures Reads(cfg, Content, Pieces(ts)[i].thought) {
      OnlyFieldIsRead(cfg, Content, ts[i]);
    }
  }

  lemma JoinedTwo(a: Thought, b: Thought)
    ensures Joined(Pieces([a, b])) == Thought(a.content + b.content, a.plain + b.plain, a.details + b.details)
  {
    var cs := Pieces([a, b]);
    assert Joined(cs[1..][1..]) == InContent("");
    assert Joined(cs[1..]) == b;
  }

  lemma JoinedThree(a: Thought, b: Thought, c: Thought)
    ensures Joined(Pieces([a, b, c])) ==
      Thought(a.content + b.content + c.content, a.plain + b.plain + c.plain, a.details + b.details + c.details)
  {
    JoinedTwo(b, c);
    assert Pieces([a, b, c])[1..] == Pieces([b, c]);
    assert a.content + (b.content + c.content) == a.content + b.content + c.content;
    assert a.plain + (b.plain + c.plain) == a.plain + b.plain + c.plain;
    assert a.details + (b.details + c.details) == a.details + b.details + c.details;
  }

  lemma TwoAreRead<P(!new)>(cfg: Config<P>, ts: seq<Thought>)
    requires !cfg.deepseek && !cfg.blank('a') && !cfg.blank('b') && ts == [InContent("a"), Thought("", "b", "")]
    ensures ReasoningsIn(cfg, Pieces(ts)) == ["a", "b"] && Join(["a", "b"]) == "ab"
  {
    var cs := Pieces(ts);
    assert ReasoningsIn(cfg, cs[1..][1..]) == [];
    assert "a"[0] == 'a' && ReasoningText(cfg, cs[0].thought) == "a";
    assert "b"[0] == 'b' && ReasoningText(cfg, cs[1].thought) == "b";
    assert ReasoningsIn(cfg, cs[1..]) == ["b"] + [];
    JoinAppend(["a"], ["b"]);
    JoinOne("a");
    JoinOne("b");
    assert ["a"] + ["b"] == ["a", "b"];
  }

  lemma PieceIsBlank<P(!new)>(cfg: Config<P>, ts: seq<Thought>, m: Message)
    requires !cfg.deepseek && |ts| > 1 && ts[1] == InContent(" ") && cfg.blank(' ')
    requires m.thought.content != "" && !cfg.blank(m.thought.content[0])
    ensures !ReasoningAgrees(cfg, Content, Pieces(ts), m) && OneShot(cfg, m).Some?
  {
    assert Of(cfg, Content, Pieces(ts)[1].thought) == " ";
  }

  lemma JoinOne(s: string)
    ensures Join([s]) == s && Join([]) == ""
  {
    assert [s][..0] == [];
    assert "" + s == s;
  }
}
