/** _to_anthropic of omniai/models/anthropic.py: the canonical history becomes a system prompt and
    strictly alternating user and assistant turns made of content blocks. */
module Anthropic {
  import opened Options
  import opened Protocol
  import opened ChatWire

  datatype Speaker = UserTurn | AssistantTurn

  datatype Block =
    | Text(text: string)
    | ToolUse(id: string, name: string, input: Json)
    | ToolResult(toolUseId: string, output: string)

  datatype Content = Plain(text: string) | Blocks(blocks: seq<Block>)

  datatype Turn = Turn(role: Speaker, content: Content)

  function AsBlocks(c: Content): seq<Block> {
    match c
    case Plain(text) => [Text(text)]
    case Blocks(blocks) => blocks
  }

  /** json.loads raises on the arguments of no call of this message that are read. */
  predicate Readable(w: Wire) {
    w.role == Assistant ==> forall i :: 0 <= i < |w.toolCalls| ==> Decoded(w.toolCalls[i])
  }

  predicate Decoded(call: RawCall) {
    call.arguments.None? || call.arguments.value.Decodes?
  }

  predicate AllReadable(wires: seq<Wire>) {
    forall i :: 0 <= i < |wires| ==> Readable(wires[i])
  }

  function UseBlock(call: RawCall): Block {
    ToolUse(OrEmpty(call.id), OrEmpty(call.name), ParseCall(call).arguments)
  }

  function UseBlocks(calls: seq<RawCall>): (blocks: seq<Block>)
    ensures |blocks| == |calls|
    ensures forall i :: 0 <= i < |calls| ==> blocks[i] == UseBlock(calls[i])
  {
    seq(|calls|, i requires 0 <= i < |calls| => UseBlock(calls[i]))
  }

  /** A message that is not a system message. */
  function ConvertTurn(w: Wire): Turn
    requires w.role != System
  {
    if w.role == Tool then Turn(UserTurn, Blocks([ToolResult(w.toolCallId, OrEmpty(w.content))]))
    else if w.role == Assistant && w.toolCalls != [] then
      Turn(AssistantTurn,
           Blocks((if OrEmpty(w.content) != "" then [Text(OrEmpty(w.content))] else []) + UseBlocks(w.toolCalls)))
    else Turn(if w.role == Assistant then AssistantTurn else UserTurn, Plain(OrEmpty(w.content)))
  }

  function Convert(wires: seq<Wire>): seq<Turn> {
    if wires == [] then []
    else
      var k := |wires| - 1;
      if wires[k].role == System then Convert(wires[..k]) else Convert(wires[..k]) + [ConvertTurn(wires[k])]
  }

  function SystemParts(wires: seq<Wire>): seq<string> {
    if wires == [] then []
    else
      var k := |wires| - 1;
      if wires[k].role == System then SystemParts(wires[..k]) + [OrEmpty(wires[k].content)] else SystemParts(wires[..k])
  }

  /** "\n\n".join(part for part in parts if part). */
  function JoinParts(parts: seq<string>): string {
    if parts == [] then ""
    else
      var k := |parts| - 1;
      var before := JoinParts(parts[..k]);
      if parts[k] == "" then before
      else if before == "" then parts[k]
      else before + "\n\n" + parts[k]
  }

  /** One turn of the merge loop. */
  function MergeOne(merged: seq<Turn>, t: Turn): seq<Turn> {
    if merged != [] && merged[|merged| - 1].role == t.role then
      var k := |merged| - 1;
      merged[k := Turn(t.role, Blocks(AsBlocks(merged[k].content) + AsBlocks(t.content)))]
    else merged + [t]
  }

  function MergeAll(merged: seq<Turn>, turns: seq<Turn>): seq<Turn> {
    if turns == [] then merged
    else MergeOne(MergeAll(merged, turns[..|turns| - 1]), turns[|turns| - 1])
  }

  /** None is the JSONDecodeError of arguments that do not decode. */
  method ToAnthropic(wires: seq<Wire>) returns (result: Option<(string, seq<Turn>)>)
    ensures result.Some? <==> AllReadable(wires)
    ensures result.Some? ==> result.value == (JoinParts(SystemParts(wires)), MergeAll([], Convert(wires)))
  {
    var parts: seq<string> := [];
    var converted: seq<Turn> := [];
    var i := 0;
    while i < |wires|
      invariant 0 <= i <= |wires|
      invariant AllReadable(wires[..i])
      invariant parts == SystemParts(wires[..i])
      invariant converted == Convert(wires[..i])
    {
      assert wires[..i + 1][..i] == wires[..i];
      var w := wires[i];
      if w.role == System {
        parts := parts + [OrEmpty(w.content)];
      } else if w.role == Tool {
        converted := converted + [Turn(UserTurn, Blocks([ToolResult(w.toolCallId, OrEmpty(w.content))]))];
      } else if w.role == Assistant && w.toolCalls != [] {
        var blocks := ToolTurnBlocks(w);
        if blocks.None? {
          return None;
        }
        converted := converted + [Turn(AssistantTurn, Blocks(blocks.value))];
      } else {
        var role := if w.role == Assistant then AssistantTurn else UserTurn;
        converted := converted + [Turn(role, Plain(OrEmpty(w.content)))];
      }
      i := i + 1;
    }
    assert wires[..i] == wires;

    var merged := MergeTurns(converted);
    return Some((JoinParts(parts), merged));
  }

  /** The loop that merges consecutive turns of the same speaker. */
  method MergeTurns(converted: seq<Turn>) returns (merged: seq<Turn>)
    ensures merged == MergeAll([], converted)
  {
    merged := [];
    var j := 0;
    while j < |converted|
      invariant 0 <= j <= |converted|
      invariant merged == MergeAll([], converted[..j])
    {
      assert converted[..j + 1][..j] == converted[..j];
      var t := converted[j];
      if merged != [] && merged[|merged| - 1].role == t.role {
        var last := |merged| - 1;
        merged := merged[last := Turn(t.role, Blocks(AsBlocks(merged[last].content) + AsBlocks(t.content)))];
      } else {
        merged := merged + [t];
      }
      j := j + 1;
    }
    assert converted[..j] == converted;
  }

  /** The block loop of an assistant turn with tool calls; None is the JSONDecodeError. */
  method ToolTurnBlocks(w: Wire) returns (blocks: Option<seq<Block>>)
    requires w.role == Assistant
    ensures blocks.Some? <==> Readable(w)
    ensures blocks.Some? ==>
              blocks.value
              == (if OrEmpty(w.content) != "" then [Text(OrEmpty(w.content))] else []) + UseBlocks(w.toolCalls)
  {
    var found: seq<Block> := [];
    if OrEmpty(w.content) != "" {
      found := found + [Text(OrEmpty(w.content))];
    }
    ghost var head := found;
    var i := 0;
    assert UseBlocks(w.toolCalls[..0]) == [] && head + [] == head;
    while i < |w.toolCalls|
      invariant 0 <= i <= |w.toolCalls|
      invariant forall j :: 0 <= j < i ==> Decoded(w.toolCalls[j])
      invariant found == head + UseBlocks(w.toolCalls[..i])
    {
      var call := w.toolCalls[i];
      var input := DecodeArguments(call);
      if input.None? {
        return None;
      }
      UseBlocksSnoc(head, w.toolCalls, i);
      found := found + [ToolUse(OrEmpty(call.id), OrEmpty(call.name), input.value)];
      i := i + 1;
    }
    assert w.toolCalls[..i] == w.toolCalls;
    return Some(found);
  }

  /** json.loads of a call's arguments, an empty text standing for no arguments. */
  method DecodeArguments(call: RawCall) returns (input: Option<Json>)
    ensures input == if Decoded(call) then Some(ParseCall(call).arguments) else None
  {
    match call.arguments
    case None => return Some(EMPTY_OBJECT);
    case Some(Decodes(value)) => return Some(value);
    case Some(Unparsed(_)) => return None;
  }

  lemma UseBlocksSnoc(head: seq<Block>, calls: seq<RawCall>, i: nat)
    requires i < |calls|
    ensures head + UseBlocks(calls[..i]) + [UseBlock(calls[i])] == head + UseBlocks(calls[..i + 1])
  {
    assert UseBlocks(calls[..i + 1]) == UseBlocks(calls[..i]) + [UseBlock(calls[i])];
  }

  // ---- merging preserves the conversation ----

  /** The conversation as blocks, each with its speaker. */
  function Flatten(turns: seq<Turn>): seq<(Speaker, Block)> {
    if turns == [] then []
    else Flatten(turns[..|turns| - 1]) + Spoken(turns[|turns| - 1].role, AsBlocks(turns[|turns| - 1].content))
  }

  function Spoken(role: Speaker, blocks: seq<Block>): (r: seq<(Speaker, Block)>)
    ensures |r| == |blocks| && forall i :: 0 <= i < |r| ==> r[i] == (role, blocks[i])
  {
    seq(|blocks|, i requires 0 <= i < |blocks| => (role, blocks[i]))
  }

  ghost predicate Alternates(turns: seq<Turn>) {
    forall i :: 0 <= i < |turns| - 1 ==> turns[i].role != turns[i + 1].role
  }

  lemma FlattenOfSnoc(turns: seq<Turn>, t: Turn)
    ensures Flatten(turns + [t]) == Flatten(turns) + Spoken(t.role, AsBlocks(t.content))
  {
    assert (turns + [t])[..|turns|] == turns;
  }

  lemma SpokenConcat(role: Speaker, a: seq<Block>, b: seq<Block>)
    ensures Spoken(role, a + b) == Spoken(role, a) + Spoken(role, b)
  {
  }

  lemma MergeOneFlattens(merged: seq<Turn>, t: Turn)
    ensures Flatten(MergeOne(merged, t)) == Flatten(merged) + Spoken(t.role, AsBlocks(t.content))
  {
    if merged != [] && merged[|merged| - 1].role == t.role {
      var k := |merged| - 1;
      var a, b := AsBlocks(merged[k].content), AsBlocks(t.content);
      assert MergeOne(merged, t) == merged[..k] + [Turn(t.role, Blocks(a + b))];
      assert merged == merged[..k] + [merged[k]];
      FlattenOfSnoc(merged[..k], Turn(t.role, Blocks(a + b)));
      FlattenOfSnoc(merged[..k], merged[k]);
      SpokenConcat(t.role, a, b);
    } else {
      FlattenOfSnoc(merged, t);
    }
  }

  lemma MergeOneAlternates(merged: seq<Turn>, t: Turn)
    requires Alternates(merged)
    ensures Alternates(MergeOne(merged, t))
  {
  }

  lemma {:induction false} MergeAllKeeps(turns: seq<Turn>)
    ensures Alternates(MergeAll([], turns))
    ensures Flatten(MergeAll([], turns)) == Flatten(turns)
    decreases |turns|
  {
    if turns != [] {
      var before, t := turns[..|turns| - 1], turns[|turns| - 1];
      MergeAllKeeps(before);
      var merged := MergeAll([], before);
      assert MergeAll([], turns) == MergeOne(merged, t);
      MergeOneAlternates(merged, t);
      MergeOneFlattens(merged, t);
    }
  }

  /** Translation preserves meaning: the turns strictly alternate between user and assistant, and
      read as blocks they are exactly the converted messages, in order, by the same speakers. */
  lemma TranslationKeepsConversation(wires: seq<Wire>)
    ensures var merged := MergeAll([], Convert(wires));
            Alternates(merged) && Flatten(merged) == Flatten(Convert(wires))
  {
    MergeAllKeeps(Convert(wires));
  }

  /** Turns that alternate already are left alone, so merging twice is merging once. */
  lemma {:induction false} MergeIsStable(turns: seq<Turn>)
    requires Alternates(turns)
    ensures MergeAll([], turns) == turns
    decreases |turns|
  {
    if turns != [] {
      MergeIsStable(turns[..|turns| - 1]);
    }
  }

  lemma {:induction false} ConvertConcat(a: seq<Wire>, b: seq<Wire>)
    ensures Convert(a + b) == Convert(a) + Convert(b)
    decreases |b|
  {
    if b == [] {
      assert a + b == a;
    } else {
      assert (a + b)[..|a + b| - 1] == a + b[..|b| - 1];
      ConvertConcat(a, b[..|b| - 1]);
    }
  }

  lemma {:induction false} SystemPartsConcat(a: seq<Wire>, b: seq<Wire>)
    ensures SystemParts(a + b) == SystemParts(a) + SystemParts(b)
    decreases |b|
  {
    if b == [] {
      assert a + b == a;
    } else {
      assert (a + b)[..|a + b| - 1] == a + b[..|b| - 1];
      SystemPartsConcat(a, b[..|b| - 1]);
    }
  }

  /** The translation fails if and only if some call of an assistant message has arguments that do not
      decode. */
  lemma TranslatesIff(wires: seq<Wire>)
    ensures AllReadable(wires)
            <==> forall w, call :: w in wires && w.role == Assistant && call in w.toolCalls ==>
                   !(call.arguments.Some? && call.arguments.value.Unparsed?)
  {
    if AllReadable(wires) {
      forall w, call | w in wires && w.role == Assistant && call in w.toolCalls ensures Decoded(call) {
        assert Readable(w);
      }
    } else {
      var i :| 0 <= i < |wires| && !Readable(wires[i]);
      var j :| 0 <= j < |wires[i].toolCalls| && !Decoded(wires[i].toolCalls[j]);
      assert wires[i] in wires && wires[i].toolCalls[j] in wires[i].toolCalls;
    }
  }

  lemma ReadableConcat(a: seq<Wire>, b: seq<Wire>)
    ensures AllReadable(a + b) <==> AllReadable(a) && AllReadable(b)
  {
    if AllReadable(a + b) {
      forall i | 0 <= i < |a| ensures Readable(a[i]) {
        assert (a + b)[i] == a[i];
      }
      forall i | 0 <= i < |b| ensures Readable(b[i]) {
        assert (a + b)[|a| + i] == b[i];
      }
    }
  }

  lemma {:induction false} EachMessageOnce(wires: seq<Wire>)
    ensures |SystemParts(wires)| + |Convert(wires)| == |wires|
    decreases |wires|
  {
    if wires != [] {
      EachMessageOnce(wires[..|wires| - 1]);
    }
  }

  /** Two system prompts one after the other. */
  function Glue(a: string, b: string): string {
    if a == "" then b else if b == "" then a else a + "\n\n" + b
  }

  lemma {:induction false} JoinPartsConcat(a: seq<string>, b: seq<string>)
    ensures JoinParts(a + b) == Glue(JoinParts(a), JoinParts(b))
    decreases |b|
  {
    if b == [] {
      assert a + b == a;
    } else {
      var k := |b| - 1;
      assert (a + b)[..|a| + k] == a + b[..k];
      JoinPartsConcat(a, b[..k]);
      GlueAssociates(JoinParts(a), JoinParts(b[..k]), b[k]);
    }
  }

  lemma GlueAssociates(a: string, b: string, c: string)
    ensures Glue(Glue(a, b), c) == Glue(a, Glue(b, c))
  {
    assert (a + "\n\n" + b) + "\n\n" + c == a + "\n\n" + (b + "\n\n" + c);
  }

  /** A lone system message is the prompt, and the prompt of a history in two parts is that of the
      first, a blank line, and that of the second. */
  lemma SystemPromptComposes(w: Wire, a: seq<Wire>, b: seq<Wire>)
    ensures w.role == System ==> JoinParts(SystemParts([w])) == OrEmpty(w.content)
    ensures JoinParts(SystemParts(a + b)) == Glue(JoinParts(SystemParts(a)), JoinParts(SystemParts(b)))
  {
    SystemPartsConcat(a, b);
    JoinPartsConcat(SystemParts(a), SystemParts(b));
  }

  /** System text moves out in order: translating a history in two parts concatenates both the
      system parts and the turns, every message is either a system part or a turn, and the
      translation fails if and only if that of a part does. */
  lemma SystemTextInOrder(a: seq<Wire>, b: seq<Wire>)
    ensures SystemParts(a + b) == SystemParts(a) + SystemParts(b)
    ensures Convert(a + b) == Convert(a) + Convert(b)
    ensures |SystemParts(a)| + |Convert(a)| == |a|
    ensures AllReadable(a + b) <==> AllReadable(a) && AllReadable(b)
  {
    ReadableConcat(a, b);
    SystemPartsConcat(a, b);
    ConvertConcat(a, b);
    EachMessageOnce(a);
  }

  lemma {:induction false} MergeAllConcat(merged: seq<Turn>, a: seq<Turn>, b: seq<Turn>)
    ensures MergeAll(merged, a + b) == MergeAll(MergeAll(merged, a), b)
    decreases |b|
  {
    if b == [] {
      assert a + b == a;
    } else {
      assert (a + b)[..|a + b| - 1] == a + b[..|b| - 1];
      MergeAllConcat(merged, a, b[..|b| - 1]);
    }
  }
  // ---- what the model reads ----

  function CallsSaid(calls: seq<ToolCall>): (said: seq<(Speaker, Block)>)
    ensures |said| == |calls|
    ensures forall i :: 0 <= i < |calls| ==>
              said[i] == (AssistantTurn, ToolUse(calls[i].id, calls[i].name, calls[i].arguments))
  {
    seq(|calls|, i requires 0 <= i < |calls| =>
          (AssistantTurn, ToolUse(calls[i].id, calls[i].name, calls[i].arguments)))
  }

  /** What a message says, block by block. */
  function Says(m: OmniMessage): seq<(Speaker, Block)> {
    match m.role
    case System => []
    case User => [(UserTurn, Text(m.content))]
    case Tool => [(UserTurn, ToolResult(OrEmpty(m.toolCallId), m.content))]
    case Assistant =>
      if m.toolCalls == [] then [(AssistantTurn, Text(m.content))]
      else
        (if m.content == "" then [] else [(AssistantTurn, Text(m.content))])
        + CallsSaid(m.toolCalls)
  }

  function Conversation(messages: seq<OmniMessage>): seq<(Speaker, Block)> {
    if messages == [] then [] else Conversation(messages[..|messages| - 1]) + Says(messages[|messages| - 1])
  }

  /** Contents of the system messages, in order. */
  function SystemTexts(messages: seq<OmniMessage>): seq<string> {
    if messages == [] then []
    else
      var k := |messages| - 1;
      SystemTexts(messages[..k]) + (if messages[k].role == System then [messages[k].content] else [])
  }

  lemma TurnSays(m: OmniMessage)
    requires m.role != System
    ensures var t := ConvertTurn(ToWire(m)); Spoken(t.role, AsBlocks(t.content)) == Says(m)
  {
    if m.role == Assistant && m.toolCalls != [] {
      UsesSay(m.toolCalls);
      SpokenConcat(AssistantTurn, if m.content != "" then [Text(m.content)] else [], UseBlocks(RawsOf(m.toolCalls)));
    }
  }

  lemma UsesSay(calls: seq<ToolCall>)
    ensures Spoken(AssistantTurn, UseBlocks(RawsOf(calls))) == CallsSaid(calls)
  {
  }

  lemma {:induction false} WiresSay(messages: seq<OmniMessage>)
    ensures Flatten(Convert(ToWires(messages))) == Conversation(messages)
    ensures SystemParts(ToWires(messages)) == SystemTexts(messages)
    decreases |messages|
  {
    if messages != [] {
      var before, m := messages[..|messages| - 1], messages[|messages| - 1];
      WiresSay(before);
      ConvertSnoc(ToWires(before), m);
      ToWiresSnoc(before, m);
      ConversationSnoc(before, m);
      assert before + [m] == messages;
    }
  }

  lemma ConversationSnoc(before: seq<OmniMessage>, m: OmniMessage)
    ensures Conversation(before + [m]) == Conversation(before) + Says(m)
    ensures SystemTexts(before + [m]) == SystemTexts(before) + (if m.role == System then [m.content] else [])
  {
    assert (before + [m])[..|before|] == before;
  }

  lemma ToWiresSnoc(before: seq<OmniMessage>, m: OmniMessage)
    ensures ToWires(before + [m]) == ToWires(before) + [ToWire(m)]
  {
  }

  lemma ConvertSnoc(wires: seq<Wire>, m: OmniMessage)
    ensures Flatten(Convert(wires + [ToWire(m)])) == Flatten(Convert(wires)) + Says(m)
    ensures SystemParts(wires + [ToWire(m)]) == SystemParts(wires) + (if m.role == System then [m.content] else [])
  {
    assert (wires + [ToWire(m)])[..|wires|] == wires;
    if m.role != System {
      TurnSays(m);
      FlattenOfSnoc(Convert(wires), ConvertTurn(ToWire(m)));
    }
  }

  /** From message history to turns: the model reads exactly what the messages say, by the same
      speakers and in the same order: texts, tool results with the id and output of their calls, and
      tool calls with their ids, names and arguments; system texts go to the system prompt. */
  lemma ModelReadsMessages(messages: seq<OmniMessage>)
    ensures Flatten(MergeAll([], Convert(ToWires(messages)))) == Conversation(messages)
    ensures SystemParts(ToWires(messages)) == SystemTexts(messages)
  {
    MergeAllKeeps(Convert(ToWires(messages)));
    WiresSay(messages);
  }

  /** The calls that a reader finds among the blocks. */
  function CallsRead(blocks: seq<(Speaker, Block)>): seq<ToolCall> {
    if blocks == [] then []
    else
      var before, block := CallsRead(blocks[..|blocks| - 1]), blocks[|blocks| - 1].1;
      if block.ToolUse? then before + [ToolCall(block.id, block.name, block.input)] else before
  }

  /** The calls of the assistant messages, in order. */
  function CallsMade(messages: seq<OmniMessage>): seq<ToolCall> {
    if messages == [] then []
    else
      var k := |messages| - 1;
      CallsMade(messages[..k]) + (if messages[k].role == Assistant then messages[k].toolCalls else [])
  }

  lemma {:induction false} CallsReadConcat(a: seq<(Speaker, Block)>, b: seq<(Speaker, Block)>)
    ensures CallsRead(a + b) == CallsRead(a) + CallsRead(b)
    decreases |b|
  {
    if b == [] {
      assert a + b == a;
    } else {
      assert (a + b)[..|a + b| - 1] == a + b[..|b| - 1];
      CallsReadConcat(a, b[..|b| - 1]);
    }
  }

  lemma {:induction false} CallsSaidAreRead(calls: seq<ToolCall>)
    ensures CallsRead(CallsSaid(calls)) == calls
    decreases |calls|
  {
    if calls != [] {
      var before, call := calls[..|calls| - 1], calls[|calls| - 1];
      CallsSaidAreRead(before);
      assert CallsSaid(calls)[..|before|] == CallsSaid(before);
      assert before + [ToolCall(call.id, call.name, call.arguments)] == calls;
    }
  }

  lemma CallsOfMessage(m: OmniMessage)
    ensures CallsRead(Says(m)) == if m.role == Assistant then m.toolCalls else []
  {
    if m.role == Assistant && m.toolCalls != [] {
      var text := if m.content == "" then [] else [(AssistantTurn, Text(m.content))];
      CallsReadConcat(text, CallsSaid(m.toolCalls));
      CallsSaidAreRead(m.toolCalls);
      NoCallsInText(m.content);
    }
  }

  lemma NoCallsInText(content: string)
    ensures CallsRead([]) == [] && CallsRead([(AssistantTurn, Text(content))]) == []
  {
    assert [(AssistantTurn, Text(content))][..0] == [];
  }

  lemma {:induction false} ConversationCalls(messages: seq<OmniMessage>)
    ensures CallsRead(Conversation(messages)) == CallsMade(messages)
    decreases |messages|
  {
    if messages != [] {
      var k := |messages| - 1;
      ConversationCalls(messages[..k]);
      CallsReadConcat(Conversation(messages[..k]), Says(messages[k]));
      CallsOfMessage(messages[k]);
    }
  }

  /** The calls that the model reads back are those it made, with their ids, names and arguments. */
  lemma CallsAreReadBack(messages: seq<OmniMessage>)
    ensures CallsRead(Flatten(MergeAll([], Convert(ToWires(messages))))) == CallsMade(messages)
  {
    ModelReadsMessages(messages);
    ConversationCalls(messages);
  }
}
