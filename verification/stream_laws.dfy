/** What a streamed exchange preserves, and that it tells the same story as the one-shot answer. */
module StreamLaws {
  import opened Options
  import opened Collections
  import opened ChatStreams

  /* ---- Projections of an event sequence ---- */

  function TextsOf<P>(events: seq<Event<P>>): seq<string> {
    if events == [] then []
    else TextsOf(events[..|events| - 1]) + (if events[|events| - 1].TextDelta? then [events[|events| - 1].content] else [])
  }

  function ReasoningsOf<P>(events: seq<Event<P>>): seq<string> {
    if events == [] then []
    else ReasoningsOf(events[..|events| - 1]) + (if events[|events| - 1].ReasoningDelta? then [events[|events| - 1].content] else [])
  }

  function CallsOf<P>(events: seq<Event<P>>): seq<Event<P>> {
    if events == [] then []
    else CallsOf(events[..|events| - 1]) + (if events[|events| - 1].ToolCallStart? then [events[|events| - 1]] else [])
  }

  function Join(parts: seq<string>): string {
    if parts == [] then "" else Join(parts[..|parts| - 1]) + parts[|parts| - 1]
  }

  lemma {:induction false} ProjectAppend<P>(a: seq<Event<P>>, b: seq<Event<P>>)
    ensures TextsOf(a + b) == TextsOf(a) + TextsOf(b)
    ensures ReasoningsOf(a + b) == ReasoningsOf(a) + ReasoningsOf(b)
    ensures CallsOf(a + b) == CallsOf(a) + CallsOf(b)
    decreases |b|
  {
    if b == [] {
      assert a + b == a;
    } else {
      assert (a + b)[..|a + b| - 1] == a + b[..|b| - 1];
      ProjectAppend(a, b[..|b| - 1]);
    }
  }

  lemma {:induction false} ProjectTexts<P>(texts: seq<string>)
    ensures TextsOf(TextEvents<P>(texts)) == texts
    ensures ReasoningsOf(TextEvents<P>(texts)) == [] && CallsOf(TextEvents<P>(texts)) == []
    decreases |texts|
  {
    if texts != [] {
      var e := TextEvents<P>(texts);
      assert e[..|e| - 1] == TextEvents<P>(texts[..|texts| - 1]);
      ProjectTexts<P>(texts[..|texts| - 1]);
      assert texts == texts[..|texts| - 1] + [texts[|texts| - 1]];
    }
  }

  lemma ProjectOne<P>(e: Event<P>)
    ensures TextsOf([e]) == (if e.TextDelta? then [e.content] else [])
    ensures ReasoningsOf([e]) == (if e.ReasoningDelta? then [e.content] else [])
    ensures CallsOf([e]) == (if e.ToolCallStart? then [e] else [])
  {
    assert [e][..0] == [];
  }

  /** The event of one part, if there is one. */
  function CallEvent<P>(cfg: Config<P>, parts: Parts, i: nat): (r: seq<Event<P>>)
    ensures |r| <= 1 && forall k :: 0 <= k < |r| ==> r[k].ToolCallStart?
  {
    if i !in parts then []
    else
      var p := parts[i];
      [ToolCallStart(if p.id != "" then p.id else cfg.fallbackId(i), p.name, cfg.parse(if p.seen then Some(p.args) else None), i)]
  }

  lemma ProjectCall<P>(r: seq<Event<P>>)
    requires |r| <= 1 && forall k :: 0 <= k < |r| ==> r[k].ToolCallStart?
    ensures TextsOf(r) == [] && ReasoningsOf(r) == [] && CallsOf(r) == r
  {
    if |r| == 1 {
      assert r == [r[0]];
      ProjectOne(r[0]);
    }
  }

  lemma {:induction false} ProjectCalls<P>(cfg: Config<P>, parts: Parts, limit: nat)
    ensures var e := CallEvents(cfg, parts, limit); TextsOf(e) == [] && ReasoningsOf(e) == [] && CallsOf(e) == e
  {
    if limit > 0 {
      ProjectCalls(cfg, parts, limit - 1);
      var before, last := CallEvents(cfg, parts, limit - 1), CallEvent(cfg, parts, limit - 1);
      assert CallEvents(cfg, parts, limit) == before + last;
      ProjectCall(last);
      ProjectAppend(before, last);
    }
  }

  lemma {:induction false} OnlyCalls<P>(cfg: Config<P>, parts: Parts, limit: nat)
    ensures forall i :: 0 <= i < |CallEvents(cfg, parts, limit)| ==> CallEvents(cfg, parts, limit)[i].ToolCallStart?
  {
    if limit > 0 {
      OnlyCalls(cfg, parts, limit - 1);
      assert CallEvents(cfg, parts, limit) == CallEvents(cfg, parts, limit - 1) + CallEvent(cfg, parts, limit - 1);
    }
  }

  /* ---- What arrived ---- */

  /** The choices read before the stream stopped. */
  function Arrived(lines: seq<Line>): seq<Choice>
    decreases |lines|
  {
    if lines == [] then []
    else match lines[0]
      case Blank => Arrived(lines[1..])
      case Frame(choices) => choices + Arrived(lines[1..])
      case _ => []
  }

  lemma {:induction false} AddChoicesAppend<P>(cfg: Config<P>, s: Stream<P>, a: seq<Choice>, b: seq<Choice>)
    ensures AddChoices(cfg, s, a + b) == AddChoices(cfg, AddChoices(cfg, s, a), b)
    decreases |a|
  {
    if a == [] {
      assert a + b == b;
    } else {
      assert (a + b)[1..] == a[1..] + b;
      AddChoicesAppend(cfg, AddChoice(cfg, s, a[0]), a[1..], b);
    }
  }

  lemma {:induction false} ConsumeArrived<P>(cfg: Config<P>, s: Stream<P>, lines: seq<Line>)
    ensures Consume(cfg, s, lines).0 == AddChoices(cfg, s, Arrived(lines))
    ensures Consume(cfg, s, lines).1 == Stopped(Interrupted(true)) ==> NothingReceived(Consume(cfg, s, lines).0)
    ensures Consume(cfg, s, lines).1 == Stopped(Interrupted(false)) ==> !NothingReceived(Consume(cfg, s, lines).0)
    ensures Consume(cfg, s, lines).1.Stopped? ==> !Consume(cfg, s, lines).1.ending.Finished?
    decreases |lines|
  {
    if lines != [] {
      match lines[0]
      case Blank => ConsumeArrived(cfg, s, lines[1..]);
      case Frame(choices) =>
        ConsumeArrived(cfg, AddChoices(cfg, s, choices), lines[1..]);
        AddChoicesAppend(cfg, s, choices, Arrived(lines[1..]));
      case _ =>
    }
  }

  function TextsIn(choices: seq<Choice>): seq<string> {
    if choices == [] then [] else (if choices[0].text == "" then [] else [choices[0].text]) + TextsIn(choices[1..])
  }

  function ReasoningsIn<P>(cfg: Config<P>, choices: seq<Choice>): seq<string> {
    if choices == [] then []
    else
      var reasoning := ReasoningText(cfg, choices[0].thought);
      (if reasoning == "" then [] else [reasoning]) + ReasoningsIn(cfg, choices[1..])
  }

  /* ---- What every choice keeps ---- */

  /** Text is either sent or held back, never lost or repeated, and nothing is sent before the first reasoning. */
  ghost predicate Held<P(!new)>(s: Stream<P>) {
    && TextsOf(s.events) + s.pending == s.texts
    && ReasoningsOf(s.events) == s.reasonings
    && (s.reasonings == [] ==> s.events == [])
    && (s.events != [] ==> s.events[0].ReasoningDelta?)
    && forall i :: 0 <= i < |s.events| ==> s.events[i].TextDelta? || s.events[i].ReasoningDelta?
  }

  lemma ProjectRelease<P(!new)>(e: Event<P>, pending: seq<string>)
    requires e.ReasoningDelta?
    ensures TextsOf([e] + TextEvents(pending)) == pending
    ensures ReasoningsOf([e] + TextEvents(pending)) == [e.content]
  {
    ProjectAppend([e], TextEvents(pending));
    ProjectOne(e);
    ProjectTexts<P>(pending);
  }

  lemma FirstReasoningKeepsHeld<P(!new)>(s: Stream<P>, reasoning: string)
    requires Held(s) && s.reasonings == [] && reasoning != ""
    ensures Held(AddReasoning(s, reasoning))
  {
    var e: Event<P> := ReasoningDelta(reasoning, false);
    var out := [e] + TextEvents(s.pending);
    ProjectRelease(e, s.pending);
    assert forall i :: 0 < i < |out| ==> out[i] == TextDelta(s.pending[i - 1]);
    assert s.events + [e] + TextEvents(s.pending) == out;
  }

  lemma LaterReasoningKeepsHeld<P(!new)>(s: Stream<P>, reasoning: string)
    requires Held(s) && s.reasonings != [] && reasoning != ""
    ensures Held(AddReasoning(s, reasoning))
  {
    var e: Event<P> := ReasoningDelta(reasoning, false);
    ProjectOne(e);
    ProjectAppend(s.events, [e]);
    assert AddReasoning(s, reasoning).events == s.events + [e];
  }

  lemma ReasoningKeepsHeld<P(!new)>(s: Stream<P>, reasoning: string)
    requires Held(s)
    ensures Held(AddReasoning(s, reasoning))
  {
    if reasoning != "" {
      if s.reasonings == [] {
        FirstReasoningKeepsHeld(s, reasoning);
      } else {
        LaterReasoningKeepsHeld(s, reasoning);
      }
    }
  }

  lemma TextKeepsHeld<P(!new)>(s: Stream<P>, text: string)
    requires Held(s)
    ensures Held(AddText(s, text))
  {
    assert TextsOf(s.events) + (s.pending + [text]) == TextsOf(s.events) + s.pending + [text];
  }

  lemma ChoiceKeepsHeld<P(!new)>(cfg: Config<P>, s: Stream<P>, c: Choice)
    requires Held(s)
    ensures Held(AddChoice(cfg, s, c))
  {
    var a := s.(finish := if c.finish != "" then c.finish else s.finish,
                refusals := if c.refusal != "" then s.refusals + [c.refusal] else s.refusals);
    ReasoningKeepsHeld(a, ReasoningText(cfg, c.thought));
    TextKeepsHeld(AddReasoning(a, ReasoningText(cfg, c.thought)), c.text);
  }

  lemma {:induction false} ChoicesKeepHeld<P(!new)>(cfg: Config<P>, s: Stream<P>, choices: seq<Choice>)
    requires Held(s)
    ensures Held(AddChoices(cfg, s, choices))
    decreases |choices|
  {
    if choices != [] {
      ChoiceKeepsHeld(cfg, s, choices[0]);
      ChoicesKeepHeld(cfg, AddChoice(cfg, s, choices[0]), choices[1..]);
    }
  }

  lemma {:induction false} ChoicesAccumulate<P(!new)>(cfg: Config<P>, s: Stream<P>, choices: seq<Choice>)
    ensures AddChoices(cfg, s, choices).texts == s.texts + TextsIn(choices)
    ensures AddChoices(cfg, s, choices).reasonings == s.reasonings + ReasoningsIn(cfg, choices)
    decreases |choices|
  {
    if choices != [] {
      var c, rest := choices[0], choices[1..];
      var next := AddChoice(cfg, s, c);
      ChoiceAccumulates(cfg, s, c);
      ChoicesAccumulate(cfg, next, rest);
      Regroup(s.texts, if c.text == "" then [] else [c.text], TextsIn(rest));
      Regroup(s.reasonings, if ReasoningText(cfg, c.thought) == "" then [] else [ReasoningText(cfg, c.thought)], ReasoningsIn(cfg, rest));
      assert AddChoices(cfg, s, choices) == AddChoices(cfg, next, rest);
    }
  }

  lemma ChoiceAccumulates<P(!new)>(cfg: Config<P>, s: Stream<P>, c: Choice)
    ensures AddChoice(cfg, s, c).texts == s.texts + (if c.text == "" then [] else [c.text])
    ensures AddChoice(cfg, s, c).reasonings == s.reasonings + (if ReasoningText(cfg, c.thought) == "" then [] else [ReasoningText(cfg, c.thought)])
  {
  }

  lemma StreamHeld<P(!new)>(cfg: Config<P>, lines: seq<Line>)
    ensures var s := Consume(cfg, NewStream<P>(), lines).0;
      Held(s) && s.texts == TextsIn(Arrived(lines)) && s.reasonings == ReasoningsIn(cfg, Arrived(lines))
  {
    ConsumeArrived(cfg, NewStream<P>(), lines);
    ChoicesKeepHeld(cfg, NewStream<P>(), Arrived(lines));
    ChoicesAccumulate(cfg, NewStream<P>(), Arrived(lines));
  }

  /** The reasoning event invented at the end when none arrived. */
  function Invented<P>(cfg: Config<P>, s: Stream<P>): seq<string> {
    if s.reasonings == [] && !ReasoningMissing(cfg, s) then [cfg.placeholder] else []
  }

  lemma ProjectTail<P(!new)>(finish: string, required: bool)
    ensures var last: seq<Event<P>> := [UsageEvent, DoneEvent(finish, required)];
      TextsOf(last) == [] && ReasoningsOf(last) == [] && CallsOf(last) == []
  {
    var u: Event<P>, d: Event<P> := UsageEvent, DoneEvent(finish, required);
    ProjectOne(u);
    ProjectOne(d);
    ProjectAppend([u], [d]);
    assert [u] + [d] == [u, d];
  }

  /** Reasoning, then text, then calls, then a tail without any of them. */
  lemma ProjectFour<P(!new)>(a: seq<Event<P>>, b: seq<Event<P>>, c: seq<Event<P>>, d: seq<Event<P>>)
    requires TextsOf(a) == TextsOf(c) == TextsOf(d) == []
    requires ReasoningsOf(b) == ReasoningsOf(c) == ReasoningsOf(d) == []
    requires CallsOf(a) == CallsOf(b) == CallsOf(d) == []
    ensures TextsOf(a + b + c + d) == TextsOf(b)
    ensures ReasoningsOf(a + b + c + d) == ReasoningsOf(a)
    ensures CallsOf(a + b + c + d) == CallsOf(c)
  {
    ProjectAppend(a, b);
    assert TextsOf(a + b) == TextsOf(b) && ReasoningsOf(a + b) == ReasoningsOf(a) && CallsOf(a + b) == [];
    ProjectAppend(a + b, c);
    assert TextsOf(a + b + c) == TextsOf(b) && ReasoningsOf(a + b + c) == ReasoningsOf(a) && CallsOf(a + b + c) == CallsOf(c);
    ProjectAppend(a + b + c, d);
  }

  lemma ProjectInvented<P(!new)>(cfg: Config<P>, s: Stream<P>)
    ensures var first: seq<Event<P>> := if s.reasonings == [] && !ReasoningMissing(cfg, s) then [ReasoningDelta(cfg.placeholder, true)] else [];
      TextsOf(first) == [] && ReasoningsOf(first) == Invented(cfg, s) && CallsOf(first) == []
  {
    ProjectOne<P>(ReasoningDelta(cfg.placeholder, true));
  }

  lemma ClosingParts<P(!new)>(cfg: Config<P>, s: Stream<P>)
    ensures TextsOf(Closing(cfg, s)) == s.pending
    ensures ReasoningsOf(Closing(cfg, s)) == Invented(cfg, s)
    ensures CallsOf(Closing(cfg, s)) == CallEvents(cfg, s.parts, Bound(s.parts.Keys))
  {
    var first: seq<Event<P>> := if s.reasonings == [] && !ReasoningMissing(cfg, s) then [ReasoningDelta(cfg.placeholder, true)] else [];
    var calls := CallEvents(cfg, s.parts, Bound(s.parts.Keys));
    var last: seq<Event<P>> := [UsageEvent, DoneEvent(s.finish, ReasoningMissing(cfg, s))];
    ProjectInvented(cfg, s);
    ProjectTexts<P>(s.pending);
    ProjectCalls(cfg, s.parts, Bound(s.parts.Keys));
    ProjectTail<P>(s.finish, ReasoningMissing(cfg, s));
    ProjectFour(first, TextEvents(s.pending), calls, last);
    assert Closing(cfg, s) == first + TextEvents(s.pending) + calls + last;
  }

  /** The events of a finished exchange, part by part. */
  lemma FinishedParts<P(!new)>(cfg: Config<P>, lines: seq<Line>)
    requires Exchange(cfg, lines).1.Finished?
    ensures var (events, s) := (Exchange(cfg, lines).0, Consume(cfg, NewStream<P>(), lines).0);
      && events == s.events + Closing(cfg, s)
      && TextsOf(events) == s.texts
      && ReasoningsOf(events) == s.reasonings + Invented(cfg, s)
      && CallsOf(events) == CallEvents(cfg, s.parts, Bound(s.parts.Keys))
  {
    var s := Consume(cfg, NewStream<P>(), lines).0;
    StreamHeld(cfg, lines);
    ConsumeArrived(cfg, NewStream<P>(), lines);
    NoCallsInside(s.events);
    ClosingParts(cfg, s);
    ProjectAppend(s.events, Closing(cfg, s));
  }

  lemma {:induction false} NoCallsInside<P(!new)>(events: seq<Event<P>>)
    requires forall i :: 0 <= i < |events| ==> events[i].TextDelta? || events[i].ReasoningDelta?
    ensures CallsOf(events) == []
    decreases |events|
  {
    if events != [] {
      NoCallsInside(events[..|events| - 1]);
    }
  }

  /* ---- Main results about one exchange ---- */

  /** Every piece of text comes out exactly once, in order. */
  lemma TextIsPreserved<P(!new)>(cfg: Config<P>, lines: seq<Line>)
    requires Exchange(cfg, lines).1.Finished?
    ensures TextsOf(Exchange(cfg, lines).0) == TextsIn(Arrived(lines))
  {
    FinishedParts(cfg, lines);
    StreamHeld(cfg, lines);
  }

  /** Retryable means that nothing at all has been yielded; it holds exactly when nothing has been received. */
  lemma RetryIsSafe<P(!new)>(cfg: Config<P>, lines: seq<Line>)
    requires Exchange(cfg, lines).1.Interrupted?
    ensures Exchange(cfg, lines).1.retryable ==> Exchange(cfg, lines).0 == []
    ensures Exchange(cfg, lines).1.retryable <==> NothingReceived(AddChoices(cfg, NewStream<P>(), Arrived(lines)))
  {
    StreamHeld(cfg, lines);
    ConsumeArrived(cfg, NewStream<P>(), lines);
  }

  /** Where things stand in the closing events. */
  lemma ClosingShape<P(!new)>(cfg: Config<P>, s: Stream<P>)
    ensures var c := Closing(cfg, s);
      && |c| >= 2 && c[|c| - 2].UsageEvent? && c[|c| - 1] == DoneEvent(s.finish, ReasoningMissing(cfg, s))
      && (c[0].ReasoningDelta? <==> Invented(cfg, s) != [])
      && forall i :: 0 <= i < |c| - 2 ==> !c[i].UsageEvent? && !c[i].DoneEvent?
  {
    OnlyCalls(cfg, s.parts, Bound(s.parts.Keys));
    var first: seq<Event<P>> := if Invented(cfg, s) != [] then [ReasoningDelta(cfg.placeholder, true)] else [];
    var body := first + TextEvents(s.pending) + CallEvents(cfg, s.parts, Bound(s.parts.Keys));
    assert Closing(cfg, s) == body + [UsageEvent, DoneEvent(s.finish, ReasoningMissing(cfg, s))];
  }

  /** In a finished exchange reasoning precedes all text, unless it is reported as required and missing. */
  lemma ReasoningComesFirst<P(!new)>(cfg: Config<P>, lines: seq<Line>)
    requires Exchange(cfg, lines).1.Finished?
    ensures var events := Exchange(cfg, lines).0;
      && |events| >= 2 && events[|events| - 1].DoneEvent?
      && (events[0].ReasoningDelta? <==> !events[|events| - 1].reasoningRequired)
  {
    StreamHeld(cfg, lines);
    ConsumeArrived(cfg, NewStream<P>(), lines);
    ClosingShape(cfg, Consume(cfg, NewStream<P>(), lines).0);
  }

  /** The stream ends with one usage report followed by one done event, and neither occurs anywhere else. */
  lemma EndsWithUsageThenDone<P(!new)>(cfg: Config<P>, lines: seq<Line>)
    ensures var (events, ending) := Exchange(cfg, lines);
      if ending.Finished? then
        && |events| >= 2 && events[|events| - 2].UsageEvent? && events[|events| - 1].DoneEvent?
        && forall i :: 0 <= i < |events| - 2 ==> !events[i].UsageEvent? && !events[i].DoneEvent?
      else forall i :: 0 <= i < |events| ==> events[i].TextDelta? || events[i].ReasoningDelta?
  {
    StreamHeld(cfg, lines);
    ConsumeArrived(cfg, NewStream<P>(), lines);
    var s := Consume(cfg, NewStream<P>(), lines).0;
    ClosingShape(cfg, s);
    var events := Exchange(cfg, lines).0;
    if Exchange(cfg, lines).1.Finished? {
      assert events == s.events + Closing(cfg, s);
    }
  }
}
