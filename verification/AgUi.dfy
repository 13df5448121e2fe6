/**
 The AG-UI bridge: a server that translates an agent's events into wire events, and a client that turns wire events back
 into agent events. JSON and the line framing of the stream are taken as lossless and left out.
 */
module AgUi {
  import opened Words

  datatype ToolCall = ToolCall(id: string, name: string, args: string)
  datatype Response = Response(thinking: string, content: string)

  /** Error texts, with the original's fixed wordings kept as constructors. */
  datatype Message = Plain(text: string) | UnknownError | Remote(inner: Message)

  datatype AgentEvent =
    | Token(response: Option<Response>)
    | Step(step: int)
    | ToolStart(call: Option<ToolCall>)
    | ToolResult(call: Option<ToolCall>, result: string)
    | Steer
    | Paused
    | Final(response: Option<Response>)
    | Error(err: Option<Message>)

  /** What an agent's iterator yields: an event, or an error that ends it. */
  datatype Item = Event(ev: AgentEvent) | Failure(message: Message)

  datatype Wire =
    | RunStarted(threadId: string)
    | RunFinished(result: string)
    | RunError(message: Message)
    | TextStart(messageId: string) | TextContent(messageId: string, delta: string) | TextEnd(messageId: string)
    | ReasoningStart | ReasoningContent(delta: string) | ReasoningEnd
    | StepStarted(step: int)
    | ToolCallStart(callId: string, name: string)
    | ToolCallArgs(callId: string, delta: string)
    | ToolCallEnd(callId: string)
    | ToolCallResult(callId: string, content: string) // its message ID is derived from the call ID

  // ---------- Server ----------

  /** `inText` and `inReasoning` of the translation loop, the current message ID, and how many IDs were generated. */
  datatype Server = Server(inText: bool, inReasoning: bool, msgId: string, generated: nat)

  datatype Reaction = Reaction(server: Server, wires: seq<Wire>, done: bool)

  const START: Server := Server(false, false, "", 0)

  /** The reaction to one item; `ids` supplies the generated message IDs. */
  function React(s: Server, item: Item, ids: nat -> string): Reaction {
    match item
    case Failure(message) => Reaction(s, [RunError(message)], true)
    case Event(Token(None)) => Reaction(s, [], false)
    case Event(Token(Some(r))) =>
      if r.thinking != "" then
        Reaction(s.(inReasoning := true),
                 (if s.inReasoning then [] else [ReasoningStart]) + [ReasoningContent(r.thinking)], false)
      else if r.content != "" then
        var msgId := if s.inText then s.msgId else ids(s.generated);
        Reaction(Server(true, false, msgId, if s.inText then s.generated else s.generated + 1),
                 (if s.inReasoning then [ReasoningEnd] else []) +
                 (if s.inText then [] else [TextStart(msgId)]) + [TextContent(msgId, r.content)], false)
      else Reaction(s, [], false)
    case Event(Step(n)) => Reaction(s.(inText := false), CloseText(s) + [StepStarted(n)], false)
    case Event(ToolStart(None)) => Reaction(s, [], false)
    case Event(ToolStart(Some(c))) =>
      Reaction(s, [ToolCallStart(c.id, c.name)] + (if |c.args| > 0 then [ToolCallArgs(c.id, c.args)] else []) +
               [ToolCallEnd(c.id)], false)
    case Event(ToolResult(None, _)) => Reaction(s, [], false)
    case Event(ToolResult(Some(c), result)) => Reaction(s, [ToolCallResult(c.id, result)], false)
    case Event(Steer) => Reaction(s, [], false)
    case Event(Final(response)) =>
      Reaction(s, CloseText(s) + (if s.inReasoning then [ReasoningEnd] else []) +
                  [RunFinished(if response.Some? then response.value.content else "")], true)
    case Event(Paused) => Reaction(s, CloseText(s) + [RunFinished("")], true)
    case Event(Error(err)) => Reaction(s, [RunError(if err.Some? then err.value else UnknownError)], true)
  }

  function CloseText(s: Server): seq<Wire> {
    if s.inText then [TextEnd(s.msgId)] else []
  }

  function Stream(s: Server, items: seq<Item>, ids: nat -> string): seq<Wire>
    decreases |items|
  {
    if items == [] then CloseText(s) + [RunFinished("")] else
      var r := React(s, items[0], ids);
      if r.done then r.wires else r.wires + Stream(r.server, items[1..], ids)
  }

  /** One turn of the translation loop. */
  method Translate(s: Server, item: Item, ids: nat -> string) returns (r: Reaction)
    ensures r == React(s, item, ids)
  {
    var currentMsgID, inText, inReasoning, generated := s.msgId, s.inText, s.inReasoning, s.generated;
    var out, done := [], false;
    match item {
      case Failure(message) =>
        out, done := [RunError(message)], true;
      case Event(Token(response)) =>
        if response.Some? {
          if response.value.thinking != "" {
            if !inReasoning {
              inReasoning := true;
              out := out + [ReasoningStart];
            }
            out := out + [ReasoningContent(response.value.thinking)];
          } else if response.value.content != "" {
            if inReasoning {
              inReasoning := false;
              out := out + [ReasoningEnd];
            }
            if !inText {
              inText, currentMsgID, generated := true, ids(generated), generated + 1;
              out := out + [TextStart(currentMsgID)];
            }
            out := out + [TextContent(currentMsgID, response.value.content)];
          }
        }
      case Event(Step(n)) =>
        if inText {
          inText := false;
          out := out + [TextEnd(currentMsgID)];
        }
        out := out + [StepStarted(n)];
      case Event(ToolStart(call)) =>
        if call.Some? {
          out := out + [ToolCallStart(call.value.id, call.value.name)];
          if |call.value.args| > 0 {
            out := out + [ToolCallArgs(call.value.id, call.value.args)];
          }
          out := out + [ToolCallEnd(call.value.id)];
        }
      case Event(ToolResult(call, result)) =>
        if call.Some? {
          out := out + [ToolCallResult(call.value.id, result)];
        }
      case Event(Steer) =>
      case Event(Final(response)) =>
        if inText {
          out := out + [TextEnd(currentMsgID)];
        }
        if inReasoning {
          out := out + [ReasoningEnd];
        }
        out, done := out + [RunFinished(if response.Some? then response.value.content else "")], true;
      case Event(Paused) =>
        if inText {
          out := out + [TextEnd(currentMsgID)];
        }
        out, done := out + [RunFinished("")], true;
      case Event(Error(err)) =>
        out, done := out + [RunError(if err.Some? then err.value else UnknownError)], true;
    }
    r := Reaction(Server(inText, inReasoning, currentMsgID, generated), out, done);
  }

  method Serve(threadId: string, items: seq<Item>, ids: nat -> string) returns (out: seq<Wire>)
    ensures out == [RunStarted(threadId)] + Stream(START, items, ids)
  {
    out := [RunStarted(threadId)];
    var s := START;
    ghost var all := out + Stream(START, items, ids);
    for i := 0 to |items|
      invariant all == out + Stream(s, items[i..], ids)
    {
      assert items[i..][0] == items[i] && items[i..][1..] == items[i + 1..];
      var r := Translate(s, items[i], ids);
      if r.done {
        out := out + r.wires;
        return;
      }
      Regroup(out, r.wires, Stream(r.server, items[i + 1..], ids));
      out, s := out + r.wires, r.server;
    }
    // The events ran out without a terminal one.
    if s.inText {
      out := out + [TextEnd(s.msgId)];
    }
    out := out + [RunFinished("")];
  }

  lemma Regroup<T>(a: seq<T>, b: seq<T>, c: seq<T>)
    ensures a + (b + c) == a + b + c
  {
  }

  // ---------- Shape of the stream ----------

  /**
   A reader that checks brackets: which text message is open, whether a reasoning message is, whether a terminal event
   has come, and whether a normal finish left reasoning open.
   */
  datatype Reader = Reader(text: Option<string>, reasoning: bool, ended: bool, leftOpen: bool)

  /**
   `None` is a violation: a second start, a stray content or end, a finish inside a text message, anything after the
   end.
   */
  function Advance(b: Option<Reader>, w: Wire): Option<Reader> {
    if b.None? || b.value.ended then None else
      var r := b.value;
      match w
      case RunStarted(_) => None
      case TextStart(id) => if r.text.None? then Some(r.(text := Some(id))) else None
      case TextContent(id, _) => if r.text == Some(id) then b else None
      case TextEnd(id) => if r.text == Some(id) then Some(r.(text := None)) else None
      case ReasoningStart => if !r.reasoning then Some(r.(reasoning := true)) else None
      case ReasoningContent(_) => if r.reasoning then b else None
      case ReasoningEnd => if r.reasoning then Some(r.(reasoning := false)) else None
      case RunFinished(_) => if r.text.None? then Some(r.(ended := true, leftOpen := r.reasoning)) else None
      case RunError(_) => Some(r.(ended := true))
      case _ => b
  }

  function ReadTo(b: Option<Reader>, wires: seq<Wire>, k: nat): Option<Reader>
    requires k <= |wires|
  {
    if k == 0 then b else Advance(ReadTo(b, wires, k - 1), wires[k - 1])
  }

  function Read(b: Option<Reader>, wires: seq<Wire>): Option<Reader> {
    ReadTo(b, wires, |wires|)
  }

  lemma {:induction false} ReadPrefix(b: Option<Reader>, x: seq<Wire>, y: seq<Wire>, k: nat)
    requires k <= |x|
    ensures ReadTo(b, x + y, k) == ReadTo(b, x, k)
  {
    if k > 0 { ReadPrefix(b, x, y, k - 1); }
  }

  lemma {:induction false} ReadConcatTo(b: Option<Reader>, x: seq<Wire>, y: seq<Wire>, k: nat)
    requires k <= |y|
    ensures ReadTo(b, x + y, |x| + k) == ReadTo(Read(b, x), y, k)
  {
    if k == 0 {
      ReadPrefix(b, x, y, |x|);
    } else {
      ReadConcatTo(b, x, y, k - 1);
    }
  }

  lemma ReadConcat(b: Option<Reader>, x: seq<Wire>, y: seq<Wire>)
    ensures Read(b, x + y) == Read(Read(b, x), y)
  {
    ReadConcatTo(b, x, y, |y|);
  }

  /** Reading an optional event and then one more. */
  lemma ReadSnoc(b: Option<Reader>, x: seq<Wire>, w: Wire)
    ensures Read(b, x + [w]) == Advance(Read(b, x), w)
    ensures Read(b, [w]) == Advance(b, w) && Read(b, []) == b
  {
    ReadConcat(b, x, [w]);
    assert ReadTo(b, [w], 1) == Advance(ReadTo(b, [w], 0), w);
    assert ReadTo(Read(b, x), [w], 1) == Advance(ReadTo(Read(b, x), [w], 0), w);
  }

  function Reading(s: Server): Option<Reader> {
    Some(Reader(if s.inText then Some(s.msgId) else None, s.inReasoning, false, false))
  }

  /** The agent's last words before pausing, or before its events run out, were thoughts. */
  predicate StopsThinking(thinking: bool, items: seq<Item>)
    decreases |items|
  {
    if items == [] then thinking else
      match items[0]
      case Failure(_) => false
      case Event(Token(Some(r))) =>
        StopsThinking(if r.thinking != "" then true else if r.content != "" then false else thinking, items[1..])
      case Event(Final(_)) => false
      case Event(Error(_)) => false
      case Event(Paused) => thinking
      case _ => StopsThinking(thinking, items[1..])
  }

  /** Reading two optional parts and then one event. */
  lemma ReadParts(b: Option<Reader>, x: seq<Wire>, y: seq<Wire>, w: Wire)
    requires |x| <= 1 && |y| <= 1
    ensures var b1 := if x == [] then b else Advance(b, x[0]);
            var b2 := if y == [] then b1 else Advance(b1, y[0]);
            Read(b, x + y + [w]) == Advance(b2, w)
  {
    ReadSnoc(b, x + y, w);
    ReadConcat(b, x, y);
    if x != [] { assert x == [x[0]]; ReadSnoc(b, [], x[0]); }
    if y != [] { assert y == [y[0]]; ReadSnoc(Read(b, x), [], y[0]); }
  }

  lemma TokenReads(s: Server, r: Response, ids: nat -> string)
    ensures var a := React(s, Event(Token(Some(r))), ids); Read(Reading(s), a.wires) == Reading(a.server)
  {
    var b := Reading(s);
    if r.thinking != "" {
      var first := if s.inReasoning then [] else [ReasoningStart];
      assert first + [] == first;
      ReadParts(b, first, [], ReasoningContent(r.thinking));
    } else if r.content != "" {
      var id := if s.inText then s.msgId else ids(s.generated);
      ReadParts(b, if s.inReasoning then [ReasoningEnd] else [], if s.inText then [] else [TextStart(id)],
                TextContent(id, r.content));
    }
  }

  lemma FinalReads(s: Server, result: string)
    ensures Read(Reading(s), CloseText(s) + (if s.inReasoning then [ReasoningEnd] else []) + [RunFinished(result)])
         == Some(Reader(None, false, true, false))
  {
    ReadParts(Reading(s), CloseText(s), if s.inReasoning then [ReasoningEnd] else [], RunFinished(result));
  }

  lemma PausedReads(s: Server)
    ensures Read(Reading(s), CloseText(s) + [RunFinished("")]) == Some(Reader(None, s.inReasoning, true, s.inReasoning))
  {
    assert CloseText(s) + [] == CloseText(s);
    ReadParts(Reading(s), CloseText(s), [], RunFinished(""));
  }

  lemma ErrorReads(s: Server, message: Message)
    ensures Read(Reading(s), [RunError(message)]) == Some(Reading(s).value.(ended := true))
  {
    ReadSnoc(Reading(s), [], RunError(message));
  }

  /** The reader has seen the terminal event, and `left` says whether a normal finish left reasoning open. */
  predicate Ends(b: Option<Reader>, left: bool) {
    b.Some? && b.value.ended && b.value.leftOpen == left
  }

  /** A final reaction ends the stream, leaving reasoning open only on a pause. */
  lemma EndReads(s: Server, item: Item, ids: nat -> string)
    requires React(s, item, ids).done
    ensures Ends(Read(Reading(s), React(s, item, ids).wires), item == Event(Paused) && s.inReasoning)
  {
    match item
    case Failure(m) => ErrorReads(s, m);
    case Event(Final(response)) => FinalReads(s, if response.Some? then response.value.content else "");
    case Event(Paused) => PausedReads(s);
    case Event(Error(err)) => ErrorReads(s, if err.Some? then err.value else UnknownError);
  }

  lemma StepReads(s: Server, n: int)
    ensures Read(Reading(s), CloseText(s) + [StepStarted(n)]) == Reading(s.(inText := false))
  {
    assert CloseText(s) + [] == CloseText(s);
    ReadParts(Reading(s), CloseText(s), [], StepStarted(n));
  }

  lemma CallReads(s: Server, c: ToolCall)
    ensures var args := if |c.args| > 0 then [ToolCallArgs(c.id, c.args)] else [];
            Read(Reading(s), [ToolCallStart(c.id, c.name)] + args + [ToolCallEnd(c.id)]) == Reading(s)
  {
    ReadParts(Reading(s), [ToolCallStart(c.id, c.name)],
              if |c.args| > 0 then [ToolCallArgs(c.id, c.args)] else [], ToolCallEnd(c.id));
  }

  /** Any other reaction keeps reader and server in step. */
  lemma ReactionReads(s: Server, item: Item, ids: nat -> string)
    requires !React(s, item, ids).done
    ensures var r := React(s, item, ids); Read(Reading(s), r.wires) == Reading(r.server)
  {
    var ev := item.ev;
    if ev.Token? && ev.response.Some? {
      TokenReads(s, ev.response.value, ids);
    } else if ev.Step? {
      StepReads(s, ev.step);
    } else if ev.ToolStart? && ev.call.Some? {
      CallReads(s, ev.call.value);
    } else if ev.ToolResult? && ev.call.Some? {
      ReadSnoc(Reading(s), [], ToolCallResult(ev.call.value.id, ev.result));
    }
  }

  lemma ThinkingStep(s: Server, items: seq<Item>, ids: nat -> string)
    requires items != []
    ensures var r := React(s, items[0], ids);
            StopsThinking(s.inReasoning, items) ==
              if r.done then items[0] == Event(Paused) && s.inReasoning
              else StopsThinking(r.server.inReasoning, items[1..])
  {
  }

  lemma {:induction false} StreamReads(s: Server, items: seq<Item>, ids: nat -> string)
    ensures Ends(Read(Reading(s), Stream(s, items, ids)), StopsThinking(s.inReasoning, items))
    decreases |items|
  {
    if items == [] {
      PausedReads(s);
    } else {
      var r := React(s, items[0], ids);
      ThinkingStep(s, items, ids);
      if r.done {
        EndReads(s, items[0], ids);
      } else {
        var rest := Stream(r.server, items[1..], ids);
        ReactionReads(s, items[0], ids);
        ReadConcat(Reading(s), r.wires, rest);
        StreamReads(r.server, items[1..], ids);
        assert Stream(s, items, ids) == r.wires + rest;
      }
    }
  }

  /**
   For every finite sequence of agent events: after its one RUN_STARTED the stream brackets its messages properly, every
   text content carries the ID of the message that is open, every text message is closed before RUN_FINISHED, and
   exactly the last event is terminal. Reasoning, unlike text, can be left open at a normal finish: exactly when the
   agent stopped (paused, or ran out of events) while thinking.
   */
  lemma ServerStreamShape(items: seq<Item>, ids: nat -> string)
    ensures Ends(Read(Reading(START), Stream(START, items, ids)), StopsThinking(false, items))
  {
    StreamReads(START, items, ids);
  }

  // ---------- What the stream says ----------

  /** Items after which the run is over, whatever follows. */
  predicate EndsRun(item: Item) {
    item.Failure? || item.ev.Final? || item.ev.Paused? || item.ev.Error?
  }

  /** The step numbers that the agent announced before its run was over, in order. */
  function StepsTaken(items: seq<Item>): seq<int> {
    if items == [] || EndsRun(items[0]) then [] else
      (if items[0].ev.Step? then [items[0].ev.step] else []) + StepsTaken(items[1..])
  }

  function StepsSaid(wires: seq<Wire>): seq<int> {
    if wires == [] then [] else (if wires[0].StepStarted? then [wires[0].step] else []) + StepsSaid(wires[1..])
  }

  /** The IDs under which text messages are started, in order. */
  function Started(wires: seq<Wire>): seq<string> {
    if wires == [] then [] else (if wires[0].TextStart? then [wires[0].messageId] else []) + Started(wires[1..])
  }

  lemma {:induction false} SaidConcat(a: seq<Wire>, b: seq<Wire>)
    ensures StepsSaid(a + b) == StepsSaid(a) + StepsSaid(b) && Started(a + b) == Started(a) + Started(b)
  {
    if a == [] {
      assert a + b == b;
    } else {
      assert (a + b)[1..] == a[1..] + b;
      SaidConcat(a[1..], b);
    }
  }

  /** One event says at most one step, and starts at most one message. */
  lemma {:induction false} SaidOne(w: Wire)
    ensures StepsSaid([w]) == (if w.StepStarted? then [w.step] else []) && StepsSaid([]) == []
    ensures Started([w]) == (if w.TextStart? then [w.messageId] else []) && Started([]) == []
  {
    assert [w][1..] == [];
  }

  lemma {:induction false} CloseSays(s: Server)
    ensures StepsSaid(CloseText(s)) == [] && Started(CloseText(s)) == []
  {
    SaidOne(TextEnd(s.msgId));
  }

  lemma {:induction false} TokenSays(s: Server, r: Response, ids: nat -> string)
    ensures var a := React(s, Event(Token(Some(r))), ids);
            && StepsSaid(a.wires) == []
            && Started(a.wires) == (if a.server.generated > s.generated then [ids(s.generated)] else [])
            && s.generated <= a.server.generated <= s.generated + 1
  {
    if r.thinking != "" {
      SaidOne(ReasoningStart);
      SaidOne(ReasoningContent(r.thinking));
      SaidConcat(if s.inReasoning then [] else [ReasoningStart], [ReasoningContent(r.thinking)]);
    } else if r.content != "" {
      var id := if s.inText then s.msgId else ids(s.generated);
      SaidOne(ReasoningEnd);
      SaidOne(TextStart(id));
      SaidOne(TextContent(id, r.content));
      var x, y := if s.inReasoning then [ReasoningEnd] else [], if s.inText then [] else [TextStart(id)];
      SaidConcat(x, y);
      SaidConcat(x + y, [TextContent(id, r.content)]);
    }
  }

  lemma {:induction false} CallSays(c: ToolCall)
    ensures var args := if |c.args| > 0 then [ToolCallArgs(c.id, c.args)] else [];
            var wires := [ToolCallStart(c.id, c.name)] + args + [ToolCallEnd(c.id)];
            StepsSaid(wires) == [] && Started(wires) == []
  {
    var args := if |c.args| > 0 then [ToolCallArgs(c.id, c.args)] else [];
    SaidOne(ToolCallStart(c.id, c.name));
    SaidOne(ToolCallArgs(c.id, c.args));
    SaidOne(ToolCallEnd(c.id));
    SaidConcat([ToolCallStart(c.id, c.name)], args);
    SaidConcat([ToolCallStart(c.id, c.name)] + args, [ToolCallEnd(c.id)]);
  }

  lemma {:induction false} FinishSays(s: Server, result: string, reasoning: bool)
    ensures var end := if reasoning then [ReasoningEnd] else [];
            StepsSaid(CloseText(s) + end + [RunFinished(result)]) == [] &&
                Started(CloseText(s) + end + [RunFinished(result)]) == []
  {
    var end := if reasoning then [ReasoningEnd] else [];
    CloseSays(s);
    SaidOne(ReasoningEnd);
    SaidOne(RunFinished(result));
    SaidConcat(CloseText(s), end);
    SaidConcat(CloseText(s) + end, [RunFinished(result)]);
  }

  /**
   What one reaction says: the step of a step event, and a start under the next generated ID when it generates one.
   */
  lemma {:induction false} ReactionSays(s: Server, item: Item, ids: nat -> string)
    ensures var a := React(s, item, ids);
            && a.done == EndsRun(item)
            && StepsSaid(a.wires) == (if item.Event? && item.ev.Step? then [item.ev.step] else [])
            && Started(a.wires) == (if a.server.generated > s.generated then [ids(s.generated)] else [])
            && s.generated <= a.server.generated <= s.generated + 1
  {
    match item
    case Failure(m) => SaidOne(RunError(m));
    case Event(Token(Some(r))) => TokenSays(s, r, ids);
    case Event(Step(n)) =>
      CloseSays(s);
      SaidOne(StepStarted(n));
      SaidConcat(CloseText(s), [StepStarted(n)]);
    case Event(ToolStart(Some(c))) => CallSays(c);
    case Event(ToolResult(Some(c), result)) => SaidOne(ToolCallResult(c.id, result));
    case Event(Final(response)) => FinishSays(s, if response.Some? then response.value.content else "", s.inReasoning);
    case Event(Paused) =>
      FinishSays(s, "", false);
      assert CloseText(s) + [] == CloseText(s);
    case Event(Error(err)) => SaidOne(RunError(if err.Some? then err.value else UnknownError));
    case _ =>
  }

  lemma {:induction false} StreamFirst(s: Server, items: seq<Item>, ids: nat -> string, r: Reaction)
    requires items != [] && r == React(s, items[0], ids)
    ensures Stream(s, items, ids) == if r.done then r.wires else r.wires + Stream(r.server, items[1..], ids)
  {
  }

  /** The IDs of this list are the generated ones from the g-th on. */
  ghost predicate FromGenerated(started: seq<string>, ids: nat -> string, g: nat) {
    forall k :: 0 <= k < |started| ==> started[k] == ids(g + k)
  }

  lemma FromGeneratedMore(ids: nat -> string, g: nat, g': nat, rest: seq<string>)
    requires g <= g' <= g + 1 && FromGenerated(rest, ids, g')
    ensures FromGenerated((if g' > g then [ids(g)] else []) + rest, ids, g)
  {
    var all := (if g' > g then [ids(g)] else []) + rest;
    forall k | 0 <= k < |all| ensures all[k] == ids(g + k) {
      assert g' > g && k > 0 ==> all[k] == rest[k - 1];
      assert g' == g ==> all[k] == rest[k];
    }
  }

  /** What a whole stream says, given what its first reaction and the rest say. */
  lemma {:induction false} SaidOnward(r: Reaction, rest: seq<Wire>, steps: seq<int>, items: seq<Item>,
                                      ids: nat -> string,
                                      g: nat)
    requires StepsSaid(r.wires) == steps && StepsSaid(rest) == StepsTaken(items)
    requires Started(r.wires) == (if r.server.generated > g then [ids(g)] else []) && g <= r.server.generated <= g + 1
    requires FromGenerated(Started(rest), ids, r.server.generated)
    ensures StepsSaid(r.wires + rest) == steps + StepsTaken(items)
    ensures FromGenerated(Started(r.wires + rest), ids, g)
  {
    SaidConcat(r.wires, rest);
    FromGeneratedMore(ids, g, r.server.generated, Started(rest));
  }

  /**
   Over every event sequence: the stream announces exactly the agent's steps, under their own numbers and in order; and
   its text messages start under the generated IDs one after the other, so no two share one if the generator repeats
   none.
   */
  lemma {:induction false} StreamSays(s: Server, items: seq<Item>, ids: nat -> string)
    ensures StepsSaid(Stream(s, items, ids)) == StepsTaken(items)
    ensures FromGenerated(Started(Stream(s, items, ids)), ids, s.generated)
    decreases |items|
  {
    if items == [] {
      FinishSays(s, "", false);
      assert CloseText(s) + [] == CloseText(s);
    } else {
      var r := React(s, items[0], ids);
      ReactionSays(s, items[0], ids);
      if r.done {
        StreamFirst(s, items, ids, r);
      } else {
        StreamSays(r.server, items[1..], ids);
        StreamOnward(s, items, ids, r);
      }
    }
  }

  lemma {:induction false} StreamOnward(s: Server, items: seq<Item>, ids: nat -> string, r: Reaction)
    requires items != [] && r == React(s, items[0], ids) && !r.done && !EndsRun(items[0])
    requires StepsSaid(r.wires) == if items[0].ev.Step? then [items[0].ev.step] else []
    requires Started(r.wires) == (if r.server.generated > s.generated then [ids(s.generated)] else [])
    requires s.generated <= r.server.generated <= s.generated + 1
    requires var rest := Stream(r.server, items[1..], ids);
             StepsSaid(rest) == StepsTaken(items[1..]) && FromGenerated(Started(rest), ids, r.server.generated)
    ensures StepsSaid(Stream(s, items, ids)) == StepsTaken(items)
    ensures FromGenerated(Started(Stream(s, items, ids)), ids, s.generated)
  {
    var steps := if items[0].ev.Step? then [items[0].ev.step] else [];
    StreamFirst(s, items, ids, r);
    SaidOnward(r, Stream(r.server, items[1..], ids), steps, items[1..], ids, s.generated);
  }

  // ---------- Client ----------

  /** `toolCalls`, `allContent` and `threadID` of the parsing loop. */
  datatype Client = Client(calls: map<string, ToolCall>, content: string, threadId: string)

  datatype Parsed = Parsed(client: Client, event: Option<AgentEvent>, done: bool)

  function Parse(c: Client, w: Wire): Parsed {
    match w
    case RunStarted(id) => Parsed(if id != "" then c.(threadId := id) else c, None, false)
    case TextContent(_, delta) =>
      Parsed(c.(content := c.content + delta), Some(Token(Some(Response("", delta)))), false)
    case ReasoningContent(delta) => Parsed(c, Some(Token(Some(Response(delta, "")))), false)
    case ToolCallStart(id, name) => Parsed(c.(calls := c.calls[id := ToolCall(id, name, "")]), None, false)
    case ToolCallArgs(id, delta) =>
      if id !in c.calls then Parsed(c, None, false) else
        var call := c.calls[id];
        Parsed(c.(calls := c.calls[id := call.(args := call.args + delta)]), None, false)
    case ToolCallEnd(id) =>
      if id in c.calls then Parsed(c.(calls := c.calls - {id}), Some(ToolStart(Some(c.calls[id]))), false)
      else Parsed(c, None, false)
    case ToolCallResult(id, content) => Parsed(c, Some(ToolResult(Some(ToolCall(id, "", "")), content)), false)
    case RunFinished(result) =>
      Parsed(c, Some(Final(Some(Response("", if result != "" then result else c.content)))), true)
    case RunError(message) => Parsed(c, Some(Error(Some(Remote(message)))), true)
    case StepStarted(_) => Parsed(c, Some(Step(0)), false)
    case _ => Parsed(c, None, false)
  }

  function ParseAll(c: Client, wires: seq<Wire>): seq<AgentEvent>
    decreases |wires|
  {
    if wires == [] then [] else
      var p := Parse(c, wires[0]);
      var now := if p.event.Some? then [p.event.value] else [];
      if p.done then now else now + ParseAll(p.client, wires[1..])
  }

  /** What a consumer gets that may stop after any event. */
  function Until(evs: seq<AgentEvent>, more: seq<AgentEvent> -> bool, k: nat): seq<AgentEvent>
    requires k <= |evs|
    decreases |evs| - k
  {
    if k == |evs| then evs else if more(evs[..k + 1]) then Until(evs, more, k + 1) else evs[..k + 1]
  }

  /** The scan loop. It yields the parsed events, up to the end or until the consumer stops. */
  method ParseStream(c: Client, wires: seq<Wire>, more: seq<AgentEvent> -> bool) returns (got: seq<AgentEvent>)
    ensures got == Until(ParseAll(c, wires), more, 0)
  {
    var client := c;
    got := [];
    ghost var all := ParseAll(c, wires);
    for i := 0 to |wires|
      invariant all == got + ParseAll(client, wires[i..])
      invariant Until(all, more, 0) == Until(all, more, |got|)
    {
      assert wires[i..][0] == wires[i] && wires[i..][1..] == wires[i + 1..];
      var p := Parse(client, wires[i]);
      ghost var later := ParseAll(p.client, wires[i + 1..]);
      if p.event.Some? {
        UntilStep(got, p.event.value, if p.done then [] else later, more);
        Regroup(got, [p.event.value], later);
        got := got + [p.event.value];
        if p.done || !more(got) {
          return got;
        }
      } else {
        assert [] + later == later;
      }
      client := p.client;
    }
  }

  lemma UntilStep(got: seq<AgentEvent>, e: AgentEvent, later: seq<AgentEvent>, more: seq<AgentEvent> -> bool)
    ensures var all := got + ([e] + later);
            Until(all, more, |got|) == if more(got + [e]) then Until(all, more, |got| + 1) else got + [e]
    ensures later == [] ==> Until(got + ([e] + later), more, |got|) == got + [e]
  {
    var all := got + ([e] + later);
    assert all[..|got| + 1] == got + [e];
    if later == [] { assert all == got + [e]; }
  }

  // ---------- Round trip ----------

  /**
   What survives the bridge: thoughts hide the content next to them, empty tokens and missing calls vanish, steps lose
   their number, results keep only the call's ID, a final event without content (or a pause, or no ending at all)
   carries the text sent so far, errors are prefixed, and nothing follows the end.
   */
  function Normalize(items: seq<Item>, text: string): seq<AgentEvent> {
    if items == [] then [Final(Some(Response("", text)))]
    else Seen(items[0], text, Normalize(items[1..], text + Said(items[0])))
  }

  /** The text an item adds to what the client has collected. */
  function Said(item: Item): string {
    match item
    case Event(Token(Some(r))) => if r.thinking != "" then "" else r.content
    case _ => ""
  }

  /** What an item turns into, followed by what came of the later items unless it ends the run. */
  function Seen(item: Item, text: string, later: seq<AgentEvent>): seq<AgentEvent> {
    match item
    case Failure(message) => [Error(Some(Remote(message)))]
    case Event(Token(Some(r))) =>
      if r.thinking != "" then [Token(Some(Response(r.thinking, "")))] + later
      else if r.content != "" then [Token(Some(Response("", r.content)))] + later
      else later
    case Event(Step(_)) => [Step(0)] + later
    case Event(ToolStart(Some(c))) => [ToolStart(Some(c))] + later
    case Event(ToolResult(Some(c), result)) => [ToolResult(Some(ToolCall(c.id, "", "")), result)] + later
    case Event(Final(response)) =>
      var content := if response.Some? then response.value.content else "";
      [Final(Some(Response("", if content != "" then content else text)))]
    case Event(Paused) => [Final(Some(Response("", text)))]
    case Event(Error(err)) => [Error(Some(Remote(if err.Some? then err.value else UnknownError)))]
    case _ => later
  }

  lemma ParseCons(c: Client, w: Wire, rest: seq<Wire>)
    ensures var p := Parse(c, w);
            var now := if p.event.Some? then [p.event.value] else [];
            ParseAll(c, [w] + rest) == if p.done then now else now + ParseAll(p.client, rest)
  {
    assert ([w] + rest)[1..] == rest;
  }

  /** Events the client does not turn into agent events. */
  predicate Silent(w: Wire) {
    w.TextStart? || w.TextEnd? || w.ReasoningStart? || w.ReasoningEnd?
  }

  lemma {:induction false} SkipSilent(c: Client, ws: seq<Wire>, rest: seq<Wire>)
    requires forall i :: 0 <= i < |ws| ==> Silent(ws[i])
    ensures ParseAll(c, ws + rest) == ParseAll(c, rest)
  {
    if ws == [] {
      assert ws + rest == rest;
    } else {
      assert ws + rest == [ws[0]] + (ws[1..] + rest);
      assert Silent(ws[0]);
      ParseCons(c, ws[0], ws[1..] + rest);
      SkipSilent(c, ws[1..], rest);
    }
  }

  /** The end of a tool call yields it and leaves the table of open calls as it was before the start. */
  lemma {:induction false} ParseOpen(c: Client, call: ToolCall, rest: seq<Wire>)
    requires call.id !in c.calls
    ensures ParseAll(c.(calls := c.calls[call.id := call]), [ToolCallEnd(call.id)] + rest) ==
            [ToolStart(Some(call))] + ParseAll(c, rest)
  {
    var c' := c.(calls := c.calls[call.id := call]);
    assert c'.calls - {call.id} == c.calls;
    ParseCons(c', ToolCallEnd(call.id), rest);
  }

  lemma {:induction false} ParseStart(c: Client, call: ToolCall, rest: seq<Wire>)
    ensures ParseAll(c, [ToolCallStart(call.id, call.name)] + rest) ==
            ParseAll(c.(calls := c.calls[call.id := ToolCall(call.id, call.name, "")]), rest)
  {
    ParseCons(c, ToolCallStart(call.id, call.name), rest);
  }

  lemma {:induction false} ParseArgs(c: Client, call: ToolCall, rest: seq<Wire>)
    requires |call.args| > 0
    ensures ParseAll(c.(calls := c.calls[call.id := ToolCall(call.id, call.name, "")]),
                     [ToolCallArgs(call.id, call.args)] + rest) ==
            ParseAll(c.(calls := c.calls[call.id := call]), rest)
  {
    var c1 := c.(calls := c.calls[call.id := ToolCall(call.id, call.name, "")]);
    assert c1.calls[call.id].args + call.args == call.args;
    assert c1.calls[call.id := call] == c.calls[call.id := call];
    ParseCons(c1, ToolCallArgs(call.id, call.args), rest);
  }

  /** A tool call sent in two or three pieces is put together again. */
  lemma {:induction false} ParseToolCall(c: Client, call: ToolCall, rest: seq<Wire>)
    requires call.id !in c.calls
    ensures var ws := [ToolCallStart(call.id, call.name)] +
            (if |call.args| > 0 then [ToolCallArgs(call.id, call.args)] else []) + [ToolCallEnd(call.id)];
            ParseAll(c, ws + rest) == [ToolStart(Some(call))] + ParseAll(c, rest)
  {
    var first, args, last := ToolCallStart(call.id, call.name), ToolCallArgs(call.id, call.args), ToolCallEnd(call.id);
    ParseOpen(c, call, rest);
    if |call.args| > 0 {
      assert [first] + [args] + [last] + rest == [first] + ([args] + ([last] + rest));
      ParseStart(c, call, [args] + ([last] + rest));
      ParseArgs(c, call, [last] + rest);
    } else {
      assert [first] + [] + [last] + rest == [first] + ([last] + rest);
      assert call == ToolCall(call.id, call.name, "");
      ParseStart(c, call, [last] + rest);
    }
  }

  /** The argument pieces of one call. */
  function Pieces(id: string, deltas: seq<string>): seq<Wire> {
    if deltas == [] then [] else [ToolCallArgs(id, deltas[0])] + Pieces(id, deltas[1..])
  }

  function Joined(deltas: seq<string>): string {
    if deltas == [] then "" else deltas[0] + Joined(deltas[1..])
  }

  lemma {:induction false} PiecesJoin(c: Client, id: string, deltas: seq<string>, rest: seq<Wire>)
    requires id in c.calls
    ensures var call := c.calls[id];
            ParseAll(c, Pieces(id, deltas) + rest) ==
            ParseAll(c.(calls := c.calls[id := call.(args := call.args + Joined(deltas))]), rest)
    decreases |deltas|
  {
    var call := c.calls[id];
    if deltas == [] {
      assert call.args + "" == call.args && c.calls[id := call] == c.calls && [] + rest == rest;
    } else {
      var next := call.(args := call.args + deltas[0]);
      var c1 := c.(calls := c.calls[id := next]);
      var more := Pieces(id, deltas[1..]);
      assert [ToolCallArgs(id, deltas[0])] + more + rest == [ToolCallArgs(id, deltas[0])] + (more + rest);
      ParseCons(c, ToolCallArgs(id, deltas[0]), more + rest);
      PiecesJoin(c1, id, deltas[1..], rest);
      assert next.args + Joined(deltas[1..]) == call.args + Joined(deltas);
      assert c1.calls[id := next.(args := next.args + Joined(deltas[1..]))] ==
          c.calls[id := call.(args := call.args + Joined(deltas))];
    }
  }

  /**
   A call whose arguments come in any number of pieces is yielded once, at its end, with the pieces joined in order.
   */
  lemma {:induction false} CallInPieces(c: Client, id: string, name: string, deltas: seq<string>, rest: seq<Wire>)
    requires id !in c.calls
    ensures ParseAll(c, [ToolCallStart(id, name)] + (Pieces(id, deltas) + ([ToolCallEnd(id)] + rest))) ==
            [ToolStart(Some(ToolCall(id, name, Joined(deltas))))] + ParseAll(c, rest)
  {
    var call := ToolCall(id, name, Joined(deltas));
    var empty := ToolCall(id, name, "");
    var c1 := c.(calls := c.calls[id := empty]);
    ParseStart(c, call, Pieces(id, deltas) + ([ToolCallEnd(id)] + rest));
    PiecesJoin(c1, id, deltas, [ToolCallEnd(id)] + rest);
    assert "" + Joined(deltas) == Joined(deltas);
    assert c1.calls[id := call] == c.calls[id := call];
    ParseOpen(c, call, rest);
  }

  /** Events the client skips, then one it reads. */
  lemma ParseAfterSkip(c: Client, skip: seq<Wire>, w: Wire, rest: seq<Wire>)
    requires forall i :: 0 <= i < |skip| ==> Silent(skip[i])
    ensures var p := Parse(c, w);
            var now := if p.event.Some? then [p.event.value] else [];
            ParseAll(c, skip + [w] + rest) == if p.done then now else now + ParseAll(p.client, rest)
  {
    Regroup(skip, [w], rest);
    SkipSilent(c, skip, [w] + rest);
    ParseCons(c, w, rest);
  }

  lemma {:induction false} ParseToken(s: Server, r: Response, ids: nat -> string, c: Client, rest: seq<Wire>)
    ensures var item := Event(Token(Some(r)));
            ParseAll(c, React(s, item, ids).wires + rest) ==
                Seen(item, c.content, ParseAll(c.(content := c.content + Said(item)), rest))
  {
    if r.thinking != "" {
      assert c.content + "" == c.content;
      ParseAfterSkip(c, if s.inReasoning then [] else [ReasoningStart], ReasoningContent(r.thinking), rest);
    } else if r.content != "" {
      var id := if s.inText then s.msgId else ids(s.generated);
      ParseAfterSkip(c, (if s.inReasoning then [ReasoningEnd] else []) + (if s.inText then [] else [TextStart(id)]),
                     TextContent(id, r.content), rest);
    } else {
      assert c.content + "" == c.content;
      assert [] + rest == rest;
    }
  }

  lemma {:induction false} ParseEnd(s: Server, item: Item, ids: nat -> string, c: Client, later: seq<AgentEvent>)
    requires React(s, item, ids).done
    ensures ParseAll(c, React(s, item, ids).wires) == Seen(item, c.content, later)
  {
    var wires := React(s, item, ids).wires;
    assert wires + [] == wires;
    match item
    case Failure(m) => ParseCons(c, RunError(m), []);
    case Event(Final(response)) =>
      ParseAfterSkip(c, CloseText(s) + (if s.inReasoning then [ReasoningEnd] else []),
                     RunFinished(if response.Some? then response.value.content else ""), []);
    case Event(Paused) => ParseAfterSkip(c, CloseText(s), RunFinished(""), []);
    case Event(Error(err)) => ParseCons(c, RunError(if err.Some? then err.value else UnknownError), []);
  }

  /** What the client makes of the wires of one reaction, and of what follows it. */
  lemma {:induction false} ParseReaction(s: Server, item: Item, ids: nat -> string, c: Client, rest: seq<Wire>)
    requires c.calls == map[] && !React(s, item, ids).done
    ensures ParseAll(c, React(s, item, ids).wires + rest) ==
            Seen(item, c.content, ParseAll(c.(content := c.content + Said(item)), rest))
  {
    var ev := item.ev;
    if ev.Token? && ev.response.Some? {
      ParseToken(s, ev.response.value, ids, c, rest);
    } else {
      assert c.content + "" == c.content && [] + rest == rest && c.(content := c.content) == c;
      if ev.Step? {
        ParseAfterSkip(c, CloseText(s), StepStarted(ev.step), rest);
      } else if ev.ToolStart? && ev.call.Some? {
        ParseToolCall(c, ev.call.value, rest);
      } else if ev.ToolResult? && ev.call.Some? {
        ParseCons(c, ToolCallResult(ev.call.value.id, ev.result), rest);
      }
    }
  }

  lemma {:induction false} RoundTripFrom(s: Server, items: seq<Item>, ids: nat -> string, c: Client)
    requires c.calls == map[]
    ensures ParseAll(c, Stream(s, items, ids)) == Normalize(items, c.content)
    decreases |items|
  {
    if items == [] {
      ParseEnd(s, Event(Paused), ids, c, []);
    } else {
      var r := React(s, items[0], ids);
      var rest := Stream(r.server, items[1..], ids);
      var c1 := c.(content := c.content + Said(items[0]));
      if r.done {
        ParseEnd(s, items[0], ids, c, Normalize(items[1..], c1.content));
      } else {
        ParseReaction(s, items[0], ids, c, rest);
        RoundTripFrom(r.server, items[1..], ids, c1);
      }
    }
  }

  /** Round trip over every finite sequence of agent events: client after server is normalization. */
  lemma RoundTrip(threadId: string, items: seq<Item>, ids: nat -> string, oldThread: string)
    ensures ParseAll(Client(map[], "", oldThread), [RunStarted(threadId)] + Stream(START, items, ids)) ==
            Normalize(items, "")
  {
    var c := Client(map[], "", oldThread);
    ParseCons(c, RunStarted(threadId), Stream(START, items, ids));
    RoundTripFrom(START, items, ids, Parse(c, RunStarted(threadId)).client);
  }
}
