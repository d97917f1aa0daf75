/** One exchange in closed form: which events come out in which order, what ends it, and which fragments make up a call. */
module ExchangeLaws {
  import opened Options
  import opened Collections
  import opened ChatStreams
  import opened StreamLaws
  import opened OneShots

  /* ---- What is read ---- */

  ghost predicate HasVisible<P>(cfg: Config<P>, s: string) {
    exists i :: 0 <= i < |s| && !cfg.blank(s[i])
  }

  /** DeepSeek's reasoning is its one field; otherwise the first of two fields with a visible character, or the details. */
  lemma ReasoningIsFirstVisible<P>(cfg: Config<P>, t: Thought)
    ensures ReasoningText(cfg, t) ==
      if cfg.deepseek || HasVisible(cfg, t.content) then t.content
      else if HasVisible(cfg, t.plain) then t.plain else t.details
  {
  }

  /* ---- The events in order ---- */

  function Reasonings<P>(rs: seq<string>): (r: seq<Event<P>>)
    ensures |r| == |rs| && forall i :: 0 <= i < |r| ==> r[i] == ReasoningDelta(rs[i], false)
  {
    seq(|rs|, i requires 0 <= i < |rs| => ReasoningDelta(rs[i], false))
  }

  /** The texts that came before the first reasoning. */
  function TextsBefore<P>(cfg: Config<P>, choices: seq<Choice>): seq<string> {
    if choices == [] || ReasoningText(cfg, choices[0].thought) != "" then []
    else (if choices[0].text == "" then [] else [choices[0].text]) + TextsBefore(cfg, choices[1..])
  }

  /** The texts that came with the first reasoning or after it. */
  function TextsAfter<P>(cfg: Config<P>, choices: seq<Choice>): seq<string> {
    if choices == [] then []
    else if ReasoningText(cfg, choices[0].thought) != "" then TextsIn(choices)
    else TextsAfter(cfg, choices[1..])
  }

  lemma {:induction false} BeforeAndAfter<P>(cfg: Config<P>, choices: seq<Choice>)
    ensures TextsIn(choices) == TextsBefore(cfg, choices) + TextsAfter(cfg, choices)
    ensures ReasoningsIn(cfg, choices) == [] ==> TextsBefore(cfg, choices) == TextsIn(choices)
  {
    if choices != [] && ReasoningText(cfg, choices[0].thought) == "" {
      BeforeAndAfter(cfg, choices[1..]);
      Regroup(if choices[0].text == "" then [] else [choices[0].text], TextsBefore(cfg, choices[1..]), TextsAfter(cfg, choices[1..]));
    }
  }

  /** What is sent while the stream is open: the first reasoning, the text held back until then, and all later reasoning. */
  function Live<P>(cfg: Config<P>, choices: seq<Choice>): seq<Event<P>> {
    var rs := ReasoningsIn(cfg, choices);
    if rs == [] then [] else Reasonings(rs[..1]) + TextEvents(TextsBefore(cfg, choices)) + Reasonings(rs[1..])
  }

  /** What is still held back. */
  function HeldBack<P>(cfg: Config<P>, choices: seq<Choice>): seq<string> {
    if ReasoningsIn(cfg, choices) == [] then TextsIn(choices) else TextsAfter(cfg, choices)
  }

  /** The text or the reasoning of one choice, if it has any. */
  function Given(s: string): seq<string> {
    if s == "" then [] else [s]
  }

  lemma InOne<P>(cfg: Config<P>, choices: seq<Choice>)
    requires choices != []
    ensures TextsIn(choices) == Given(choices[0].text) + TextsIn(choices[1..])
    ensures ReasoningsIn(cfg, choices) == Given(ReasoningText(cfg, choices[0].thought)) + ReasoningsIn(cfg, choices[1..])
  {
  }

  lemma ReasoningsJoin<P>(a: seq<string>, b: seq<string>)
    ensures Reasonings<P>(a + b) == Reasonings(a) + Reasonings(b)
  {
  }

  lemma LaterChoice<P(!new)>(cfg: Config<P>, s: Stream<P>, c: Choice)
    requires s.reasonings != []
    ensures var next := AddChoice(cfg, s, c);
      && next.events == s.events + Reasonings(Given(ReasoningText(cfg, c.thought)))
      && next.pending == s.pending + Given(c.text) && next.reasonings != []
  {
  }

  lemma {:induction false} AfterFirst<P(!new)>(cfg: Config<P>, s: Stream<P>, choices: seq<Choice>)
    requires s.reasonings != []
    ensures var r := AddChoices(cfg, s, choices);
      r.events == s.events + Reasonings(ReasoningsIn(cfg, choices)) && r.pending == s.pending + TextsIn(choices)
    decreases |choices|
  {
    if choices != [] {
      var c, rest := choices[0], choices[1..];
      var first := Given(ReasoningText(cfg, c.thought));
      LaterChoice(cfg, s, c);
      AfterFirst(cfg, AddChoice(cfg, s, c), rest);
      InOne(cfg, choices);
      ReasoningsJoin<P>(first, ReasoningsIn(cfg, rest));
      Regroup(s.pending, Given(c.text), TextsIn(rest));
      Regroup(s.events, Reasonings(first), Reasonings(ReasoningsIn(cfg, rest)));
    }
  }

  lemma SilentChoice<P(!new)>(cfg: Config<P>, s: Stream<P>, c: Choice)
    requires ReasoningText(cfg, c.thought) == ""
    ensures var next := AddChoice(cfg, s, c);
      next.events == s.events && next.pending == s.pending + Given(c.text) && next.reasonings == s.reasonings
  {
  }

  /** What is sent and held back, in terms of the texts before the first reasoning and from it on. */
  ghost predicate SentAs<P(!new)>(cfg: Config<P>, r: Stream<P>, choices: seq<Choice>, before: seq<string>, after: seq<string>) {
    var rs := ReasoningsIn(cfg, choices);
    if rs == [] then r.events == [] && r.pending == before
    else r.events == Reasonings(rs[..1]) + TextEvents(before) + Reasonings(rs[1..]) && r.pending == after
  }

  lemma {:induction false} UntilFirst<P(!new)>(cfg: Config<P>, s: Stream<P>, choices: seq<Choice>)
    requires s.reasonings == [] && s.events == []
    ensures SentAs(cfg, AddChoices(cfg, s, choices), choices, s.pending + TextsBefore(cfg, choices), TextsAfter(cfg, choices))
    decreases |choices|
  {
    if choices == [] {
      assert s.pending + [] == s.pending;
    } else if ReasoningText(cfg, choices[0].thought) == "" {
      var c, rest := choices[0], choices[1..];
      SilentChoice(cfg, s, c);
      UntilFirst(cfg, AddChoice(cfg, s, c), rest);
      InOne(cfg, choices);
      assert [] + ReasoningsIn(cfg, rest) == ReasoningsIn(cfg, rest);
      Regroup(s.pending, Given(c.text), TextsBefore(cfg, rest));
    } else {
      FirstThenRest(cfg, s, choices);
    }
  }

  lemma FirstThenRest<P(!new)>(cfg: Config<P>, s: Stream<P>, choices: seq<Choice>)
    requires s.reasonings == [] && s.events == [] && choices != [] && ReasoningText(cfg, choices[0].thought) != ""
    ensures SentAs(cfg, AddChoices(cfg, s, choices), choices, s.pending + TextsBefore(cfg, choices), TextsAfter(cfg, choices))
  {
    var c, rest := choices[0], choices[1..];
    FirstReasoning(cfg, s, c);
    AfterFirst(cfg, AddChoice(cfg, s, c), rest);
    InOne(cfg, choices);
    assert ReasoningsIn(cfg, choices)[1..] == ReasoningsIn(cfg, rest);
    assert ReasoningsIn(cfg, choices)[..1] == [ReasoningText(cfg, c.thought)];
    assert s.pending + [] == s.pending;
  }

  lemma FirstReasoning<P(!new)>(cfg: Config<P>, s: Stream<P>, c: Choice)
    requires s.reasonings == [] && s.events == [] && ReasoningText(cfg, c.thought) != ""
    ensures var next := AddChoice(cfg, s, c);
      && next.events == Reasonings([ReasoningText(cfg, c.thought)]) + TextEvents(s.pending)
      && next.pending == Given(c.text) && next.reasonings != []
  {
    assert [] + [c.text] == [c.text];
  }

  /** At every moment of a stream exactly this has been sent, and exactly this is held back. */
  lemma WhatIsSent<P(!new)>(cfg: Config<P>, choices: seq<Choice>)
    ensures var s := AddChoices(cfg, NewStream<P>(), choices);
      s.events == Live(cfg, choices) && s.pending == HeldBack(cfg, choices)
  {
    UntilFirst(cfg, NewStream<P>(), choices);
    BeforeAndAfter(cfg, choices);
    assert [] + TextsBefore(cfg, choices) == TextsBefore(cfg, choices);
  }

  /* ---- How it ends ---- */

  /** Number `n` is the first line that is neither blank nor a frame. */
  ghost predicate StopsAt(lines: seq<Line>, n: nat) {
    && n <= |lines| && (n < |lines| ==> !lines[n].Blank? && !lines[n].Frame?)
    && forall i :: 0 <= i < n ==> lines[i].Blank? || lines[i].Frame?
  }

  lemma {:induction false} ConsumeStops<P(!new)>(cfg: Config<P>, s: Stream<P>, lines: seq<Line>, n: nat)
    requires StopsAt(lines, n)
    ensures var (t, stop) := Consume(cfg, s, lines);
      if n == |lines| then stop.Closed?
      else match lines[n]
        case DoneMark => stop.Marked?
        case BadJson => stop == Stopped(Failed("malformed"))
        case UpstreamError => stop == Stopped(Failed("upstream"))
        case _ => stop == Stopped(Interrupted(NothingReceived(t)))
    decreases |lines|
  {
    if n > 0 {
      assert forall i :: 0 <= i < n - 1 ==> lines[1..][i] == lines[i + 1];
      assert n < |lines| ==> lines[1..][n - 1] == lines[n];
      assert StopsAt(lines[1..], n - 1);
      ConsumeStops(cfg, if lines[0].Frame? then AddChoices(cfg, s, lines[0].choices) else s, lines[1..], n - 1);
    }
  }

  /** A choice brings a call if it has a usable fragment or a function call of the old kind. */
  predicate BringsCall(c: Choice) {
    c.legacy.Some? || exists j :: 0 <= j < |c.calls| && c.calls[j].CallDelta?
  }

  /** Nothing that counts has arrived: no text, no reasoning and no call. */
  ghost predicate NothingArrived<P>(cfg: Config<P>, choices: seq<Choice>) {
    && TextsIn(choices) == [] && ReasoningsIn(cfg, choices) == []
    && forall i :: 0 <= i < |choices| ==> !BringsCall(choices[i])
  }

  lemma OneBringsCall<P(!new)>(cfg: Config<P>, s: Stream<P>, c: Choice)
    ensures AddChoice(cfg, s, c).parts == map[] <==> s.parts == map[] && !BringsCall(c)
  {
    AddCallsGrow(s.parts, c.calls, 0);
    var calls := AddCalls(s.parts, c.calls, 0);
    if s.parts != map[] {
      var i :| i in s.parts;
      assert i in calls;
    }
    if j :| 0 <= j < |c.calls| && c.calls[j].CallDelta? {
      assert GoesTo(c.calls[j], 0 + j) in calls;
    }
    if calls != map[] {
      var i :| i in calls;
    }
  }

  lemma {:induction false} SomeCallArrived<P(!new)>(cfg: Config<P>, s: Stream<P>, choices: seq<Choice>)
    ensures AddChoices(cfg, s, choices).parts == map[] <==>
      s.parts == map[] && forall i :: 0 <= i < |choices| ==> !BringsCall(choices[i])
    decreases |choices|
  {
    if choices != [] {
      OneBringsCall(cfg, s, choices[0]);
      SomeCallArrived(cfg, AddChoice(cfg, s, choices[0]), choices[1..]);
      assert forall i :: 0 < i < |choices| ==> choices[i] == choices[1..][i - 1];
    }
  }

  /** What a whole stream has collected, in terms of the choices that arrived. */
  lemma CollectedAtEnd<P(!new)>(cfg: Config<P>, lines: seq<Line>)
    ensures var s, choices := Consume(cfg, NewStream<P>(), lines).0, Arrived(lines);
      && s.events == Live(cfg, choices) && s.pending == HeldBack(cfg, choices)
      && s.reasonings == ReasoningsIn(cfg, choices) && s.finish == FinishIn(choices)
      && (|s.parts| == 0 <==> forall i :: 0 <= i < |choices| ==> !BringsCall(choices[i]))
      && (NothingReceived(s) <==> NothingArrived(cfg, choices))
      && (s.refusals == [] <==> forall i :: 0 <= i < |choices| ==> choices[i].refusal == "")
  {
    var s, choices := Consume(cfg, NewStream<P>(), lines).0, Arrived(lines);
    ConsumeArrived(cfg, NewStream<P>(), lines);
    WhatIsSent(cfg, choices);
    StreamHeld(cfg, lines);
    FinishLast(cfg, NewStream<P>(), choices);
    SomeCallArrived(cfg, NewStream<P>(), choices);
    RefusalsCount(cfg, NewStream<P>(), choices);
  }

  /** How an exchange ends, by its first line that is neither blank nor a frame. */
  lemma EndingIs<P(!new)>(cfg: Config<P>, lines: seq<Line>, n: nat)
    requires StopsAt(lines, n)
    ensures var choices, ending := Arrived(lines), Exchange(cfg, lines).1;
      var empty := !cfg.deepseek && NothingArrived(cfg, choices) && forall i :: 0 <= i < |choices| ==> choices[i].refusal == "";
      if n < |lines| && lines[n].BadJson? then ending == Failed("malformed")
      else if n < |lines| && lines[n].UpstreamError? then ending == Failed("upstream")
      else if n < |lines| && lines[n].Cut? then ending == Interrupted(NothingArrived(cfg, choices))
      else if n == |lines| && FinishIn(choices) == "" then ending == Interrupted(NothingArrived(cfg, choices))
      else ending == if empty then Failed("invalid_response") else Finished
  {
    ConsumeStops(cfg, NewStream<P>(), lines, n);
    CollectedAtEnd(cfg, lines);
  }

  /** Reasoning is required for the calls and none has arrived. */
  ghost predicate Missing<P>(cfg: Config<P>, choices: seq<Choice>) {
    && cfg.deepseek && cfg.requireToolReasoning && ReasoningsIn(cfg, choices) == []
    && exists i :: 0 <= i < |choices| && BringsCall(choices[i])
  }

  /**
   Everything an exchange yields.  While it is open: the live events.  After a proper end: an invented reasoning if none
   arrived and none is required, the text held back, the calls, one usage report and the done event.
   */
  lemma EventsAre<P(!new)>(cfg: Config<P>, lines: seq<Line>)
    ensures var (events, ending) := Exchange(cfg, lines);
      var choices := Arrived(lines);
      if ending.Finished? then
        events == Live(cfg, choices)
          + (if ReasoningsIn(cfg, choices) == [] && !Missing(cfg, choices) then [ReasoningDelta(cfg.placeholder, true)] else [])
          + TextEvents(HeldBack(cfg, choices)) + CallsOf(events)
          + [UsageEvent, DoneEvent(FinishIn(choices), Missing(cfg, choices))]
      else events == Live(cfg, choices)
  {
    CollectedAtEnd(cfg, lines);
    if Exchange(cfg, lines).1.Finished? {
      FinishedParts(cfg, lines);
      ClosingIs(cfg, Consume(cfg, NewStream<P>(), lines).0);
    }
  }

  lemma ClosingIs<P(!new)>(cfg: Config<P>, s: Stream<P>)
    ensures s.events + Closing(cfg, s) ==
      s.events
      + (if s.reasonings == [] && !ReasoningMissing(cfg, s) then [ReasoningDelta(cfg.placeholder, true)] else [])
      + TextEvents(s.pending) + CallEvents(cfg, s.parts, Bound(s.parts.Keys))
      + [UsageEvent, DoneEvent(s.finish, ReasoningMissing(cfg, s))]
  {
  }

  /** Everything a one-shot answer amounts to, unless it is empty. */
  lemma OneShotEventsAre<P(!new)>(cfg: Config<P>, m: Message)
    ensures var reasoning := ReasoningText(cfg, m.thought);
      var missing := cfg.deepseek && cfg.requireToolReasoning && |m.calls| > 0 && !HasVisible(cfg, reasoning);
      var invented := !HasVisible(cfg, reasoning) && !missing;
      var told := if invented then cfg.placeholder else reasoning;
      OneShot(cfg, m) ==
        if !cfg.deepseek && reasoning == "" && m.text == "" && m.refusal == "" && |m.calls| == 0 then None
        else Some((if told != "" then [ReasoningDelta(told, invented)] else [])
                  + (if m.text != "" then [TextDelta(m.text)] else [])
                  + OneShotCalls(cfg, m.calls) + [UsageEvent, DoneEvent(m.finish, missing)])
  {
  }

  /** The call events: one for each call in order, with its own identifier or the one made up for its position. */
  lemma {:induction false} OneShotCallsAre<P(!new)>(cfg: Config<P>, calls: seq<Call>)
    ensures var e := OneShotCalls(cfg, calls);
      |e| == |calls| && forall i :: 0 <= i < |e| ==>
        && e[i].ToolCallStart? && e[i].index == i && e[i].name == calls[i].name && e[i].args == cfg.parse(calls[i].args)
        && (if calls[i].id == "" then e[i].id == cfg.fallbackId(i) else e[i].id == calls[i].id)
  {
    if calls != [] {
      OneShotCallsAre(cfg, calls[..|calls| - 1]);
    }
  }

  /* ---- The fragments of a call ---- */

  lemma {:induction false} ForAppend(a: seq<(nat, CallDelta)>, b: seq<(nat, CallDelta)>, i: nat)
    ensures For(a + b, i) == For(a, i) + For(b, i)
    decreases |a|
  {
    if a == [] {
      assert a + b == b;
    } else {
      assert (a + b)[0] == a[0] && (a + b)[1..] == a[1..] + b;
      ForAppend(a[1..], b, i);
      Regroup(if a[0].0 == i then [a[0].1] else [], For(a[1..], i), For(b, i));
    }
  }

  /** No fragment of the choice goes to part `i`, that at position `but` apart. */
  ghost predicate NoneElse(calls: seq<CallDelta>, position: nat, i: nat, but: int) {
    forall j :: 0 <= j < |calls| && j != but && calls[j].CallDelta? ==> GoesTo(calls[j], position + j) != i
  }

  lemma {:induction false} OnlyOneHere(calls: seq<CallDelta>, position: nat, i: nat, but: int)
    requires NoneElse(calls, position, i, but)
    requires 0 <= but < |calls| ==> calls[but].CallDelta? && GoesTo(calls[but], position + but) == i
    ensures For(FragmentsOf(calls, position), i) == if 0 <= but < |calls| then [calls[but]] else []
    decreases |calls|
  {
    if calls != [] {
      assert forall j :: 0 <= j < |calls[1..]| ==> calls[1..][j] == calls[j + 1] && position + 1 + j == position + (j + 1);
      OnlyOneHere(calls[1..], position + 1, i, but - 1);
      if calls[0].CallDelta? {
        assert FragmentsOf(calls, position) == [(GoesTo(calls[0], position), calls[0])] + FragmentsOf(calls[1..], position + 1);
        ForAppend([(GoesTo(calls[0], position), calls[0])], FragmentsOf(calls[1..], position + 1), i);
        assert [(GoesTo(calls[0], position), calls[0])][1..] == [];
      }
    }
  }

  lemma {:induction false} OnlyOneAnywhere(choices: seq<Choice>, c: int, but: nat, i: nat)
    requires forall k :: 0 <= k < |choices| ==> NoneElse(choices[k].calls, 0, i, if k == c then but else -1)
    requires 0 <= c < |choices| ==>
      but < |choices[c].calls| && choices[c].calls[but].CallDelta? && GoesTo(choices[c].calls[but], but) == i
    ensures For(Fragments(choices), i) == if 0 <= c < |choices| then [choices[c].calls[but]] else []
    decreases |choices|
  {
    if choices != [] {
      assert forall k :: 0 <= k < |choices[1..]| ==> choices[1..][k] == choices[k + 1];
      OnlyOneHere(choices[0].calls, 0, i, if 0 == c then but else -1);
      OnlyOneAnywhere(choices[1..], c - 1, but, i);
      ForAppend(FragmentsOf(choices[0].calls, 0), Fragments(choices[1..]), i);
    }
  }

  /**
   Parallel calls stay apart: a fragment whose non-negative index no other fragment of the stream goes to makes up its
   part alone, in whichever delta and at whichever position it came.
   */
  lemma OwnIndexOwnPart<P(!new)>(cfg: Config<P>, choices: seq<Choice>, c: nat, j: nat, i: nat)
    requires forall k :: 0 <= k < |choices| ==> choices[k].legacy.None?
    requires c < |choices| && j < |choices[c].calls| && choices[c].calls[j].CallDelta? && choices[c].calls[j].index == Whole(i)
    requires forall k :: 0 <= k < |choices| ==> NoneElse(choices[k].calls, 0, i, if k == c then j else -1)
    ensures var parts, call := AddChoices(cfg, NewStream<P>(), choices).parts, choices[c].calls[j];
      && i in parts && parts[i].id == call.id && parts[i].name == call.function_.name
      && (call.function_.args.None? ==> !parts[i].seen)
      && (call.function_.args.Some? && call.function_.args.value.Text? ==>
            parts[i].seen && parts[i].args == call.function_.args.value.s)
  {
    var call := choices[c].calls[j];
    PartsFold(cfg, NewStream<P>(), choices);
    OnlyOneAnywhere(choices, c, j, i);
    PartsSeparate(map[], Fragments(choices), i);
    assert [call][1..] == [];
    assert FoldPart(NewPart, [call]) == FoldPart(AddFragment(NewPart, call), []);
  }

  /* ---- Arguments of any kind ---- */

  function MergeAll(p: Part, values: seq<Argument>): Part
    decreases |values|
  {
    if values == [] then p else MergeAll(MergeArguments(p, values[0]), values[1..])
  }

  /** The text that the values contribute if none of them was the first: objects and nulls contribute nothing. */
  function TextOf(values: seq<Argument>): string {
    if values == [] then ""
    else
      (match values[0]
       case Text(t) => t
       case Other(dump) => dump
       case _ => "") + TextOf(values[1..])
  }

  function FirstValue(values: seq<Argument>): Option<Argument> {
    if values == [] then None else if values[0] != Argument.Null then Some(values[0]) else FirstValue(values[1..])
  }

  lemma {:induction false} ObjectStays(p: Part, values: seq<Argument>)
    requires p.seen && p.isObject
    ensures MergeAll(p, values) == p
    decreases |values|
  {
    if values != [] {
      ObjectStays(p, values[1..]);
    }
  }

  lemma {:induction false} TextGrows(p: Part, values: seq<Argument>)
    requires p.seen && !p.isObject
    ensures MergeAll(p, values) == p.(args := p.args + TextOf(values))
    decreases |values|
  {
    if values == [] {
      assert p.args + "" == p.args;
    } else {
      TextGrows(MergeArguments(p, values[0]), values[1..]);
    }
  }

  /**
   Fragments of arguments of any kind: if the first value is an object it is the whole of the arguments; otherwise
   everything but objects is strung together.  Nulls do not count.
   */
  lemma {:induction false} ArgumentsMerge(p: Part, values: seq<Argument>)
    requires !p.seen && !p.isObject && p.args == ""
    ensures var r, first := MergeAll(p, values), FirstValue(values);
      && r.id == p.id && r.name == p.name && (r.seen <==> first.Some?)
      && (first.Some? && first.value.Object? ==> r.args == first.value.dump && r.isObject)
      && (!(first.Some? && first.value.Object?) ==> r.args == TextOf(values) && !r.isObject)
    decreases |values|
  {
    if values != [] {
      var next := MergeArguments(p, values[0]);
      if values[0].Null? {
        ArgumentsMerge(p, values[1..]);
      } else if values[0].Object? {
        ObjectStays(next, values[1..]);
      } else {
        TextGrows(next, values[1..]);
      }
    }
  }

  /** The values among the fragments of one call. */
  function ValuesOf(fs: seq<CallDelta>): seq<Argument>
    requires forall i :: 0 <= i < |fs| ==> fs[i].CallDelta?
  {
    if fs == [] then []
    else ValueOf(fs[0].function_) + ValuesOf(fs[1..])
  }

  lemma {:induction false} SameMerge(p: Part, q: Part, values: seq<Argument>)
    requires p.args == q.args && p.seen == q.seen && p.isObject == q.isObject
    ensures var r, m := MergeAll(p, values), MergeAll(q, values);
      r.args == m.args && r.seen == m.seen && r.isObject == m.isObject
    decreases |values|
  {
    if values != [] {
      SameMerge(MergeArguments(p, values[0]), MergeArguments(q, values[0]), values[1..]);
    }
  }

  function ValueOf(f: FunctionDelta): seq<Argument> {
    if f.args.Some? then [f.args.value] else []
  }

  lemma OneMerges(p: Part, f: FunctionDelta, values: seq<Argument>)
    ensures var r, m := MergeAll(AddFunction(p, f), values), MergeAll(p, ValueOf(f) + values);
      r.args == m.args && r.seen == m.seen && r.isObject == m.isObject
  {
    if f.args.Some? {
      assert (ValueOf(f) + values)[1..] == values;
      SameMerge(AddFunction(p, f), MergeArguments(p, f.args.value), values);
    } else {
      assert ValueOf(f) + values == values;
      SameMerge(AddFunction(p, f), p, values);
    }
  }

  /** The arguments of a part are merged from the values among its fragments, whatever else these say. */
  lemma {:induction false} PartMerges(p: Part, fs: seq<CallDelta>)
    requires forall i :: 0 <= i < |fs| ==> fs[i].CallDelta?
    ensures var r, m := FoldPart(p, fs), MergeAll(p, ValuesOf(fs));
      r.args == m.args && r.seen == m.seen && r.isObject == m.isObject
    decreases |fs|
  {
    if fs != [] {
      var named := if fs[0].id != "" && p.id == "" then p.(id := fs[0].id) else p;
      PartMerges(AddFunction(named, fs[0].function_), fs[1..]);
      OneMerges(named, fs[0].function_, ValuesOf(fs[1..]));
      SameMerge(named, p, ValuesOf(fs));
    }
  }

  /* ---- Function calls of the old kind ---- */

  function FoldLegacy(p: Part, choices: seq<Choice>): Part
    decreases |choices|
  {
    if choices == [] then p
    else FoldLegacy(if choices[0].legacy.Some? then AddFunction(p, choices[0].legacy.value) else p, choices[1..])
  }

  function AddFunctionIf(p: Part, f: Option<FunctionDelta>): Part {
    if f.Some? then AddFunction(p, f.value) else p
  }

  predicate AnyLegacy(choices: seq<Choice>) {
    choices != [] && (choices[0].legacy.Some? || AnyLegacy(choices[1..]))
  }

  lemma {:induction false} LegacyParts<P(!new)>(cfg: Config<P>, s: Stream<P>, choices: seq<Choice>)
    requires forall k :: 0 <= k < |choices| ==> choices[k].calls == []
    ensures AddChoices(cfg, s, choices).parts ==
      if AnyLegacy(choices) then s.parts[0 := FoldLegacy(LegacyPart(s.parts), choices)]
      else s.parts
    decreases |choices|
  {
    if choices != [] {
      var c, rest := choices[0], choices[1..];
      var next := AddChoice(cfg, s, c);
      OneLegacy(cfg, s, c);
      LegacyParts(cfg, next, rest);
      if c.legacy.Some? {
        LegacyOverwrites(s.parts, AddFunctionIf(LegacyPart(s.parts), c.legacy), rest);
      }
    }
  }

  /** The part that a function call of the old kind goes on with. */
  function LegacyPart(parts: Parts): Part {
    PartAt(parts, 0, NewPart.(id := "function-call-0"))
  }

  lemma LegacyOverwrites(parts: Parts, p: Part, rest: seq<Choice>)
    ensures var next := parts[0 := p];
      parts[0 := FoldLegacy(p, rest)] == if AnyLegacy(rest) then next[0 := FoldLegacy(LegacyPart(next), rest)] else next
  {
    if !AnyLegacy(rest) {
      NoLegacyLeft(p, rest);
    }
  }

  lemma OneLegacy<P(!new)>(cfg: Config<P>, s: Stream<P>, c: Choice)
    requires c.calls == []
    ensures AddChoice(cfg, s, c).parts ==
      if c.legacy.None? then s.parts
      else s.parts[0 := AddFunctionIf(LegacyPart(s.parts), c.legacy)]
  {
  }

  lemma {:induction false} NoLegacyLeft(p: Part, choices: seq<Choice>)
    requires !AnyLegacy(choices)
    ensures FoldLegacy(p, choices) == p
    decreases |choices|
  {
    if choices != [] {
      NoLegacyLeft(p, choices[1..]);
    }
  }

  lemma {:induction false} SomeLegacy(choices: seq<Choice>, k: nat)
    requires k < |choices| && choices[k].legacy.Some?
    ensures AnyLegacy(choices)
  {
    if k > 0 {
      SomeLegacy(choices[1..], k - 1);
    }
  }

  /** What the fragments of the old kind add up to: the first name and the merged values. */
  lemma {:induction false} LegacyName(p: Part, choices: seq<Choice>)
    ensures FoldLegacy(p, choices).id == p.id
    ensures FoldLegacy(p, choices).name == FirstNonEmpty([p.name] + LegacyNames(choices))
    decreases |choices|
  {
    if choices == [] {
      assert [p.name][1..] == [];
    } else {
      var f, rest := choices[0].legacy, choices[1..];
      LegacyName(AddFunctionIf(p, f), rest);
      OneName(p, f);
      FirstOfNames(p.name, if f.Some? then [f.value.name] else [], LegacyNames(rest));
    }
  }

  lemma OneName(p: Part, f: Option<FunctionDelta>)
    ensures var r := AddFunctionIf(p, f);
      r.id == p.id && r.name == if p.name == "" && f.Some? then f.value.name else p.name
  {
  }

  lemma {:induction false} LegacyArguments(p: Part, choices: seq<Choice>)
    ensures var r, m := FoldLegacy(p, choices), MergeAll(p, LegacyValues(choices));
      r.args == m.args && r.seen == m.seen && r.isObject == m.isObject
    decreases |choices|
  {
    if choices != [] {
      var f, rest := choices[0].legacy, choices[1..];
      LegacyArguments(AddFunctionIf(p, f), rest);
      if f.Some? {
        OneMerges(p, f.value, LegacyValues(rest));
      } else {
        assert [] + LegacyValues(rest) == LegacyValues(rest);
      }
    }
  }

  lemma FirstOfNames(name: string, own: seq<string>, rest: seq<string>)
    requires |own| <= 1
    ensures FirstNonEmpty([name] + (own + rest)) ==
            FirstNonEmpty([if name == "" && own != [] then own[0] else name] + rest)
  {
    var start := if name == "" && own != [] then own[0] else name;
    assert ([name] + (own + rest))[1..] == own + rest;
    assert ([start] + rest)[1..] == rest;
    if own != [] {
      assert (own + rest)[1..] == rest;
    } else {
      assert own + rest == rest;
    }
  }

  /** Function calls of the old kind make up call number 0, under an identifier of their own if nothing came before. */
  lemma LegacyIsCallZero<P(!new)>(cfg: Config<P>, s: Stream<P>, choices: seq<Choice>)
    requires forall k :: 0 <= k < |choices| ==> choices[k].calls == []
    requires exists k :: 0 <= k < |choices| && choices[k].legacy.Some?
    ensures var parts, start := AddChoices(cfg, s, choices).parts, PartAt(s.parts, 0, Part("function-call-0", "", "", false, false));
      && parts.Keys == s.parts.Keys + {0} && (forall i :: i in s.parts && i != 0 ==> parts[i] == s.parts[i])
      && parts[0].id == start.id
      && parts[0].name == FirstNonEmpty([start.name] + LegacyNames(choices))
      && var m := MergeAll(start, LegacyValues(choices)); parts[0].args == m.args && parts[0].seen == m.seen
  {
    var k :| 0 <= k < |choices| && choices[k].legacy.Some?;
    SomeLegacy(choices, k);
    LegacyParts(cfg, s, choices);
    LegacyName(LegacyPart(s.parts), choices);
    LegacyArguments(LegacyPart(s.parts), choices);
  }

  function LegacyNames(choices: seq<Choice>): seq<string> {
    if choices == [] then []
    else (if choices[0].legacy.Some? then [choices[0].legacy.value.name] else []) + LegacyNames(choices[1..])
  }

  function LegacyValues(choices: seq<Choice>): seq<Argument> {
    if choices == [] then []
    else (if choices[0].legacy.Some? then ValueOf(choices[0].legacy.value) else []) + LegacyValues(choices[1..])
  }
}
