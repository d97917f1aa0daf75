/**
 One streamed chat exchange: text is held back behind reasoning, tool-call fragments are collected by index,
 and the events come out as if the answer had arrived in one piece.
 */
module ChatStreams {
  import opened Options
  import opened Collections

  /* ---- What arrives ---- */

  /** `index`: an integer (possibly spelled as text), or something unusable. */
  datatype RawIndex = Whole(i: int) | Unusable

  datatype Argument = Null | Text(s: string) | Object(dump: string) | Other(dump: string)

  /** `args == None`: the field is absent. */
  datatype FunctionDelta = FunctionDelta(name: string, args: Option<Argument>)

  datatype CallDelta = NotACall | CallDelta(index: RawIndex, id: string, function_: FunctionDelta)

  /** The reasoning fields as they arrive; a missing one is empty, and `details` are the texts of its list put together. */
  datatype Thought = Thought(content: string, plain: string, details: string)

  datatype Choice = Choice(finish: string, thought: Thought, text: string, refusal: string,
                           calls: seq<CallDelta>, legacy: Option<FunctionDelta>)

  /** One line of the response body; `Cut` is a broken connection and the end of the sequence a clean close. */
  datatype Line = Blank | DoneMark | BadJson | UpstreamError | Frame(choices: seq<Choice>) | Cut

  /* ---- What is sent on ---- */

  /** `Parsed` is whatever the argument parser returns; `None` stands for the missing field. */
  datatype Event<Parsed> =
    | ReasoningDelta(content: string, synthetic: bool)
    | TextDelta(content: string)
    | ToolCallStart(id: string, name: string, args: Parsed, index: nat)
    | UsageEvent
    | DoneEvent(finish: string, reasoningRequired: bool)

  datatype Ending = Finished | Interrupted(retryable: bool) | Failed(kind: string)

  /** `blank` are the characters that `strip` removes. */
  datatype Config<Parsed> = Config(deepseek: bool, requireToolReasoning: bool, placeholder: string, blank: char -> bool,
                                    parse: Option<string> -> Parsed, fallbackId: nat -> string)

  predicate IsBlank<P>(cfg: Config<P>, s: string) {
    forall i :: 0 <= i < |s| ==> cfg.blank(s[i])
  }

  /** `chat_reasoning_text`, applied to a delta as well as to a whole message; DeepSeek has one field, taken as it is. */
  function ReasoningText<P>(cfg: Config<P>, t: Thought): string {
    if cfg.deepseek then t.content
    else if !IsBlank(cfg, t.content) then t.content
    else if !IsBlank(cfg, t.plain) then t.plain
    else t.details
  }

  /* ---- Collecting ---- */

  datatype Part = Part(id: string, name: string, args: string, seen: bool, isObject: bool)

  const NewPart := Part("", "", "", false, false)

  /** `_safe_call_index`. */
  function SafeCallIndex(value: RawIndex, fallback: nat): nat {
    if value.Whole? && value.i >= 0 then value.i else fallback
  }

  /** `_merge_tool_arguments`. */
  function MergeArguments(p: Part, value: Argument): Part {
    match value
    case Null => p
    case Object(dump) => if p.seen then p else p.(seen := true, args := dump, isObject := true)
    case Text(s) => if p.isObject then p.(seen := true) else p.(seen := true, args := p.args + s)
    case Other(dump) => if p.isObject then p.(seen := true) else p.(seen := true, args := p.args + dump)
  }

  function AddFunction(p: Part, f: FunctionDelta): Part {
    var named := if f.name != "" && p.name == "" then p.(name := f.name) else p;
    if f.args.None? then named else MergeArguments(named, f.args.value)
  }

  function AddFragment(p: Part, c: CallDelta): Part
    requires c.CallDelta?
  {
    AddFunction(if c.id != "" && p.id == "" then p.(id := c.id) else p, c.function_)
  }

  type Parts = map<nat, Part>

  function PartAt(parts: Parts, i: nat, fresh_: Part): Part {
    if i in parts then parts[i] else fresh_
  }

  /** The fragments of one choice, the first being number `position`. */
  function AddCalls(parts: Parts, calls: seq<CallDelta>, position: nat): Parts
    decreases |calls|
  {
    if calls == [] then parts
    else if calls[0].NotACall? then AddCalls(parts, calls[1..], position + 1)
    else
      var i := SafeCallIndex(calls[0].index, position);
      AddCalls(parts[i := AddFragment(PartAt(parts, i, NewPart), calls[0])], calls[1..], position + 1)
  }

  /** A fragment belongs to the call it names, or else to the one that has its position in the choice. */
  function GoesTo(c: CallDelta, position: nat): nat
    requires c.CallDelta?
  {
    match c.index
    case Whole(i) => if 0 <= i then i else position
    case Unusable => position
  }

  /** The parts there are: those from before, and one for every call that a fragment belongs to. */
  lemma {:induction false} AddCallsGrow(parts: Parts, calls: seq<CallDelta>, position: nat)
    ensures forall i :: i in AddCalls(parts, calls, position) <==>
      i in parts || exists j :: 0 <= j < |calls| && calls[j].CallDelta? && GoesTo(calls[j], position + j) == i
    decreases |calls|
  {
    if calls != [] {
      var c := calls[0];
      var next := if c.NotACall? then parts
        else parts[SafeCallIndex(c.index, position) := AddFragment(PartAt(parts, SafeCallIndex(c.index, position), NewPart), c)];
      AddCallsGrow(next, calls[1..], position + 1);
      forall i ensures i in AddCalls(parts, calls, position) <==>
          i in parts || exists j :: 0 <= j < |calls| && calls[j].CallDelta? && GoesTo(calls[j], position + j) == i
      {
        if j :| 0 <= j < |calls[1..]| && calls[1..][j].CallDelta? && GoesTo(calls[1..][j], position + 1 + j) == i {
          assert calls[j + 1] == calls[1..][j] && GoesTo(calls[j + 1], position + (j + 1)) == i;
        }
        if j :| 0 <= j < |calls| && calls[j].CallDelta? && GoesTo(calls[j], position + j) == i && j > 0 {
          assert calls[1..][j - 1] == calls[j] && GoesTo(calls[1..][j - 1], position + 1 + (j - 1)) == i;
        }
      }
    }
  }

  function AddLegacy(parts: Parts, legacy: Option<FunctionDelta>): Parts {
    if legacy.None? then parts
    else parts[0 := AddFunction(PartAt(parts, 0, NewPart.(id := "function-call-0")), legacy.value)]
  }

  datatype Stream<Parsed> = Stream(texts: seq<string>, reasonings: seq<string>, refusals: seq<string>, parts: Parts,
                                   pending: seq<string>, finish: string, events: seq<Event<Parsed>>)

  function NewStream<Parsed>(): Stream<Parsed> {
    Stream([], [], [], map[], [], "", [])
  }

  function TextEvents<Parsed>(texts: seq<string>): (r: seq<Event<Parsed>>)
    ensures |r| == |texts| && forall i :: 0 <= i < |r| ==> r[i] == TextDelta(texts[i])
  {
    seq(|texts|, i requires 0 <= i < |texts| => TextDelta(texts[i]))
  }

  /** The first reasoning lets the text through that was held back. */
  function AddReasoning<Parsed>(s: Stream<Parsed>, reasoning: string): Stream<Parsed> {
    if reasoning == "" then s
    else if s.reasonings == [] then
      s.(reasonings := [reasoning], pending := [],
         events := s.events + [ReasoningDelta(reasoning, false)] + TextEvents(s.pending))
    else s.(reasonings := s.reasonings + [reasoning], events := s.events + [ReasoningDelta(reasoning, false)])
  }

  function AddText<Parsed>(s: Stream<Parsed>, text: string): Stream<Parsed> {
    if text == "" then s else s.(texts := s.texts + [text], pending := s.pending + [text])
  }

  /** A choice is processed field by field. */
  function AddChoice<Parsed>(cfg: Config<Parsed>, s: Stream<Parsed>, c: Choice): Stream<Parsed> {
    var a := s.(finish := if c.finish != "" then c.finish else s.finish,
                refusals := if c.refusal != "" then s.refusals + [c.refusal] else s.refusals);
    var b := AddText(AddReasoning(a, ReasoningText(cfg, c.thought)), c.text);
    b.(parts := AddLegacy(AddCalls(b.parts, c.calls, 0), c.legacy))
  }

  function AddChoices<Parsed>(cfg: Config<Parsed>, s: Stream<Parsed>, choices: seq<Choice>): Stream<Parsed>
    decreases |choices|
  {
    if choices == [] then s else AddChoices(cfg, AddChoice(cfg, s, choices[0]), choices[1..])
  }

  predicate NothingReceived<Parsed>(s: Stream<Parsed>) {
    s.reasonings == [] && s.texts == [] && |s.parts| == 0
  }

  datatype Stop = Closed | Marked | Stopped(ending: Ending)

  /** Read lines until the done mark, the end of the body, or an error. */
  function Consume<Parsed>(cfg: Config<Parsed>, s: Stream<Parsed>, lines: seq<Line>): (Stream<Parsed>, Stop)
    decreases |lines|
  {
    if lines == [] then (s, Closed)
    else match lines[0]
      case Blank => Consume(cfg, s, lines[1..])
      case DoneMark => (s, Marked)
      case BadJson => (s, Stopped(Failed("malformed")))
      case UpstreamError => (s, Stopped(Failed("upstream")))
      case Cut => (s, Stopped(Interrupted(NothingReceived(s))))
      case Frame(choices) => Consume(cfg, AddChoices(cfg, s, choices), lines[1..])
  }

  /** The tool calls in index order. */
  function CallEvents<Parsed>(cfg: Config<Parsed>, parts: Parts, limit: nat): seq<Event<Parsed>> {
    if limit == 0 then []
    else
      CallEvents(cfg, parts, limit - 1) +
      (if limit - 1 !in parts then []
       else
         var p := parts[limit - 1];
         [ToolCallStart(if p.id != "" then p.id else cfg.fallbackId(limit - 1), p.name,
                        cfg.parse(if p.seen then Some(p.args) else None), limit - 1)])
  }

  /** One more than the largest index. */
  function Bound(keys: set<nat>): (b: nat)
    ensures forall k :: k in keys ==> k < b
    ensures b > 0 ==> b - 1 in keys
  {
    if keys == {} then 0
    else
      LargestExists(keys);
      var m :| m in keys && forall k :: k in keys ==> k <= m;
      m + 1
  }

  lemma LargestExists(keys: set<nat>)
    requires keys != {}
    ensures exists m :: m in keys && forall k :: k in keys ==> k <= m
  {
    var m := FirstExists(keys, (a: nat, b: nat) => b <= a);
  }

  predicate ReasoningMissing<Parsed>(cfg: Config<Parsed>, s: Stream<Parsed>) {
    cfg.deepseek && |s.parts| > 0 && s.reasonings == [] && cfg.requireToolReasoning
  }

  /** What follows the last line of a stream that was not cut short. */
  function Closing<Parsed>(cfg: Config<Parsed>, s: Stream<Parsed>): seq<Event<Parsed>> {
    (if s.reasonings == [] && !ReasoningMissing(cfg, s) then [ReasoningDelta(cfg.placeholder, true)] else [])
    + TextEvents(s.pending)
    + CallEvents(cfg, s.parts, Bound(s.parts.Keys))
    + [UsageEvent, DoneEvent(s.finish, ReasoningMissing(cfg, s))]
  }

  predicate NothingToReport<Parsed>(cfg: Config<Parsed>, s: Stream<Parsed>) {
    !cfg.deepseek && NothingReceived(s) && s.refusals == []
  }

  /** Everything one exchange yields, and how it ends. */
  function Exchange<Parsed>(cfg: Config<Parsed>, lines: seq<Line>): (seq<Event<Parsed>>, Ending) {
    var (s, stop) := Consume(cfg, NewStream<Parsed>(), lines);
    if stop.Stopped? then (s.events, stop.ending)
    else if stop.Closed? && s.finish == "" then (s.events, Interrupted(NothingReceived(s)))
    else if NothingToReport(cfg, s) then (s.events, Failed("invalid_response"))
    else (s.events + Closing(cfg, s), Finished)
  }

  /* ---- The transport itself ---- */

  class OpenAIChatTransport<Parsed> {
    const cfg: Config<Parsed>
    var texts: seq<string>
    var reasonings: seq<string>
    var refusals: seq<string>
    var parts: Parts
    var pending: seq<string>
    var finish: string
    var events: seq<Event<Parsed>>

    ghost function View(): Stream<Parsed>
      reads this
    {
      Stream(texts, reasonings, refusals, parts, pending, finish, events)
    }

    constructor (cfg: Config<Parsed>)
      ensures this.cfg == cfg && View() == NewStream()
    {
      this.cfg := cfg;
      texts, reasonings, refusals, parts, pending, finish, events := [], [], [], map[], [], "", [];
    }

    method ReceiveCalls(calls: seq<CallDelta>)
      modifies this`parts
      ensures parts == AddCalls(old(parts), calls, 0)
      ensures forall i :: i in parts <==>
        i in old(parts) || exists j :: 0 <= j < |calls| && calls[j].CallDelta? && GoesTo(calls[j], j) == i
    {
      AddCallsGrow(parts, calls, 0);
      var position := 0;
      assert calls[0..] == calls;
      while position < |calls|
        invariant position <= |calls|
        invariant AddCalls(old(parts), calls, 0) == AddCalls(parts, calls[position..], position)
      {
        assert calls[position..][1..] == calls[position + 1..];
        var call := calls[position];
        if call.CallDelta? {
          var index := SafeCallIndex(call.index, position);
          var part := if index in parts then parts[index] else NewPart;
          if call.id != "" && part.id == "" {
            part := part.(id := call.id);
          }
          if call.function_.name != "" && part.name == "" {
            part := part.(name := call.function_.name);
          }
          if call.function_.args.Some? {
            part := MergeArguments(part, call.function_.args.value);
          }
          parts := parts[index := part];
        }
        position := position + 1;
      }
    }

    method ReceiveLegacy(f: FunctionDelta)
      modifies this`parts
      ensures parts == AddLegacy(old(parts), Some(f))
    {
      var part := if 0 in parts then parts[0] else NewPart.(id := "function-call-0");
      if f.name != "" && part.name == "" {
        part := part.(name := f.name);
      }
      if f.args.Some? {
        part := MergeArguments(part, f.args.value);
      }
      parts := parts[0 := part];
    }

    method ReceiveReasoning(reasoning: string)
      modifies this
      ensures View() == AddReasoning(old(View()), reasoning)
    {
      if reasoning != "" {
        var first := reasonings == [];
        reasonings := reasonings + [reasoning];
        events := events + [ReasoningDelta(reasoning, false)];
        if first {
          events := events + TextEvents(pending);
          pending := [];
        }
      }
    }

    method ReceiveChoice(c: Choice)
      modifies this
      ensures View() == AddChoice(cfg, old(View()), c)
    {
      if c.finish != "" {
        finish := c.finish;
      }
      if c.refusal != "" {
        refusals := refusals + [c.refusal];
      }
      ReceiveReasoning(ReasoningText(cfg, c.thought));
      if c.text != "" {
        texts := texts + [c.text];
        pending := pending + [c.text];
      }
      ReceiveCalls(c.calls);
      if c.legacy.Some? {
        ReceiveLegacy(c.legacy.value);
      }
    }

    method ReceiveFrame(choices: seq<Choice>)
      modifies this
      ensures View() == AddChoices(cfg, old(View()), choices)
    {
      var i := 0;
      assert choices[0..] == choices;
      while i < |choices|
        invariant i <= |choices| && AddChoices(cfg, old(View()), choices) == AddChoices(cfg, View(), choices[i..])
      {
        assert choices[i..][1..] == choices[i + 1..];
        ReceiveChoice(choices[i]);
        i := i + 1;
      }
    }

    /** The events after the last line. */
    method Conclude()
      modifies this
      ensures events == old(events) + Closing(cfg, old(View()))
    {
      var missing := cfg.deepseek && |parts| > 0 && reasonings == [];
      var required := missing && cfg.requireToolReasoning;
      var out: seq<Event<Parsed>> := [];
      if reasonings == [] && !required {
        out := [ReasoningDelta(cfg.placeholder, true)];
      }
      out := out + TextEvents(pending);
      var calls := EmitCalls();
      out := out + calls;
      out := out + [UsageEvent, DoneEvent(finish, required)];
      events := events + out;
    }

    method EmitCalls() returns (out: seq<Event<Parsed>>)
      ensures out == CallEvents(cfg, parts, Bound(parts.Keys))
    {
      out := [];
      var bound := Bound(parts.Keys);
      var index := 0;
      while index < bound
        invariant index <= bound && out == CallEvents(cfg, parts, index)
      {
        if index in parts {
          var part := parts[index];
          var args := cfg.parse(if part.seen then Some(part.args) else None);
          out := out + [ToolCallStart(if part.id != "" then part.id else cfg.fallbackId(index), part.name, args, index)];
        }
        index := index + 1;
      }
    }

    /** `_chat_stream_once` on a fresh transport: the events yielded and how the generator ended. */
    method ChatStreamOnce(lines: seq<Line>) returns (ending: Ending)
      requires View() == NewStream()
      modifies this
      ensures (events, ending) == Exchange(cfg, lines)
    {
      var doneReceived := false;
      var i := 0;
      assert lines[0..] == lines;
      while i < |lines| && !doneReceived
        invariant i <= |lines|
        invariant doneReceived ==> Consume(cfg, NewStream(), lines) == (View(), Marked)
        invariant !doneReceived ==> Consume(cfg, NewStream(), lines) == Consume(cfg, View(), lines[i..])
      {
        assert lines[i..][1..] == lines[i + 1..];
        match lines[i] {
          case Blank =>
          case DoneMark => doneReceived := true;
          case BadJson => return Failed("malformed");
          case UpstreamError => return Failed("upstream");
          case Cut => return Interrupted(reasonings == [] && texts == [] && |parts| == 0);
          case Frame(choices) => ReceiveFrame(choices);
        }
        i := i + 1;
      }
      if !doneReceived && finish == "" {
        return Interrupted(reasonings == [] && texts == [] && |parts| == 0);
      }
      if !cfg.deepseek && texts == [] && reasonings == [] && |parts| == 0 && refusals == [] {
        return Failed("invalid_response");
      }
      Conclude();
      return Finished;
    }
  }
}
