/** The canonical chat wire format of omniai/models/base.py. */
module ChatWire {
  import opened Options
  import opened Protocol

  /** An entry of `tool_calls`. Fields that are absent or empty are None; an arguments text either
      decodes or does not. */
  datatype RawCall = RawCall(id: Option<string>, name: Option<string>, arguments: Option<RawArguments>)

  datatype RawArguments = Decodes(value: Json) | Unparsed(text: string)

  /** One chat-completions message; `content` None is JSON null. */
  datatype Wire = Wire(role: Role, content: Option<string>, toolCalls: seq<RawCall>, toolCallId: string)

  function OrEmpty(text: Option<string>): string {
    if text.Some? then text.value else ""
  }

  /** The entry that the wire carries for a call. */
  function RawOf(call: ToolCall): RawCall {
    RawCall(Some(call.id), Some(call.name), Some(Decodes(call.arguments)))
  }

  function RawsOf(calls: seq<ToolCall>): (raws: seq<RawCall>)
    ensures |raws| == |calls|
    ensures forall i :: 0 <= i < |calls| ==> raws[i] == RawOf(calls[i])
  {
    seq(|calls|, i requires 0 <= i < |calls| => RawOf(calls[i]))
  }

  function ToWire(m: OmniMessage): Wire {
    if m.role == Tool then Wire(Tool, Some(m.content), [], OrEmpty(m.toolCallId))
    else if m.role == Assistant && m.toolCalls != [] then
      Wire(Assistant, if m.content == "" then None else Some(m.content), RawsOf(m.toolCalls), "")
    else Wire(m.role, Some(m.content), [], "")
  }

  function ToWires(messages: seq<OmniMessage>): (wires: seq<Wire>)
    ensures |wires| == |messages|
    ensures forall i :: 0 <= i < |messages| ==> wires[i] == ToWire(messages[i])
  {
    seq(|messages|, i requires 0 <= i < |messages| => ToWire(messages[i]))
  }

  method OmniToOpenai(messages: seq<OmniMessage>) returns (out: seq<Wire>)
    ensures out == ToWires(messages)
  {
    out := [];
    var i := 0;
    while i < |messages|
      invariant 0 <= i <= |messages|
      invariant out == ToWires(messages)[..i]
    {
      out := out + [ToWire(messages[i])];
      i := i + 1;
    }
  }

  const EMPTY_OBJECT: Json := "{}"

  function MarkUnparsed(text: string): Json {
    "{\"__unparsed__\": " + text + "}"
  }

  function ParseCall(raw: RawCall): ToolCall {
    ToolCall(
      OrEmpty(raw.id),
      OrEmpty(raw.name),
      match raw.arguments
      case None => EMPTY_OBJECT
      case Some(Decodes(value)) => value
      case Some(Unparsed(text)) => MarkUnparsed(text)
    )
  }

  function ParseCalls(raws: seq<RawCall>): (calls: seq<ToolCall>)
    ensures |calls| == |raws|
    ensures forall i :: 0 <= i < |raws| ==> calls[i] == ParseCall(raws[i])
  {
    seq(|raws|, i requires 0 <= i < |raws| => ParseCall(raws[i]))
  }

  method ParseToolCalls(raws: seq<RawCall>) returns (calls: seq<ToolCall>)
    ensures calls == ParseCalls(raws)
  {
    calls := [];
    var i := 0;
    while i < |raws|
      invariant 0 <= i <= |raws|
      invariant calls == ParseCalls(raws)[..i]
    {
      calls := calls + [ParseCall(raws[i])];
      i := i + 1;
    }
  }

  /** Round trip: every message keeps its role and text on the wire, an assistant turn its tool
      calls, as parsing the wire shows, and a tool message the call it answers; the content is null
      only for a turn that is nothing but tool calls. */
  lemma WireKeepsMessage(m: OmniMessage)
    ensures var w := ToWire(m);
            && w.role == m.role
            && OrEmpty(w.content) == m.content
            && (w.content.None? <==> m.role == Assistant && m.toolCalls != [] && m.content == "")
            && ParseCalls(w.toolCalls) == (if m.role == Assistant then m.toolCalls else [])
            && w.toolCallId == (if m.role == Tool then OrEmpty(m.toolCallId) else "")
  {
  }

  /** What of a message the wire carries: role and text, the calls of an assistant turn, and the call
      that a tool message answers. */
  predicate SameOnWire(m: OmniMessage, n: OmniMessage) {
    && m.role == n.role && m.content == n.content
    && (m.role == Assistant ==> m.toolCalls == n.toolCalls)
    && (m.role == Tool ==> OrEmpty(m.toolCallId) == OrEmpty(n.toolCallId))
  }

  /** Conversion loses nothing of that, and adds nothing: two histories look alike on the wire if and
      only if their messages agree in it, one by one. */
  lemma WiresTellApart(a: seq<OmniMessage>, b: seq<OmniMessage>)
    ensures ToWires(a) == ToWires(b) <==> |a| == |b| && forall i :: 0 <= i < |a| ==> SameOnWire(a[i], b[i])
  {
    if ToWires(a) == ToWires(b) {
      assert |a| == |b|;
      forall i | 0 <= i < |a| ensures SameOnWire(a[i], b[i]) {
        assert ToWire(a[i]) == ToWires(a)[i] == ToWire(b[i]);
        WireKeepsMessage(a[i]);
        WireKeepsMessage(b[i]);
      }
    }
    if |a| == |b| && forall i :: 0 <= i < |a| ==> SameOnWire(a[i], b[i]) {
      forall i | 0 <= i < |a| ensures ToWire(a[i]) == ToWire(b[i]) {
        assert SameOnWire(a[i], b[i]);
      }
    }
  }
  /** Arguments that do not decode are kept apart from any others that do not, and from none. */
  lemma UndecodedArgumentsAreKept(a: RawCall, b: RawCall)
    requires a.arguments.Some? && a.arguments.value.Unparsed?
    requires b.arguments.None? || b.arguments.value.Unparsed?
    ensures ParseCall(a).arguments == ParseCall(b).arguments <==> b.arguments == a.arguments
  {
    var text := a.arguments.value.text;
    if b.arguments.None? {
      assert |MarkUnparsed(text)| > |EMPTY_OBJECT|;
    } else {
      MarkIsInjective(text, b.arguments.value.text);
    }
  }

  lemma MarkIsInjective(a: string, b: string)
    ensures MarkUnparsed(a) == MarkUnparsed(b) ==> a == b
  {
    var mark := "{\"__unparsed__\": ";
    assert MarkUnparsed(a) == mark + a + "}" && MarkUnparsed(b) == mark + b + "}";
    Unwrap(mark, a, "}");
    Unwrap(mark, b, "}");
  }

  lemma Unwrap(before: string, text: string, after: string)
    ensures var all := before + text + after;
            |before| <= |all| - |after| && all[|before|..|all| - |after|] == text
  {
  }
}
