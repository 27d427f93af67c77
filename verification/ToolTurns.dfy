/** Every history the agent loop sends to an Anthropic model pairs each tool_use turn with the
    user turn that answers it: omniai/graph/agent.py, omniai/models/base.py and
    omniai/models/anthropic.py together. */
module ToolTurns {
  import opened Numbers
  import opened Options
  import opened Protocol
  import opened ChatWire
  import opened Anthropic
  import Graph
  import opened Agent

  function UseIds(blocks: seq<Block>): seq<string> {
    if blocks == [] then []
    else
      var k := |blocks| - 1;
      if blocks[k].ToolUse? then UseIds(blocks[..k]) + [blocks[k].id] else UseIds(blocks[..k])
  }

  function Uses(t: Turn): seq<string> {
    UseIds(AsBlocks(t.content))
  }

  /** The blocks are one result per id, in order. */
  predicate AreResults(blocks: seq<Block>, ids: seq<string>) {
    && |ids| == |blocks|
    && forall i :: 0 <= i < |ids| ==> blocks[i].ToolResult? && blocks[i].toolUseId == ids[i]
  }

  /** Turn j, if it uses tools, is an assistant turn followed by a user turn that holds exactly
      its results: the same ids in the same order, and nothing more. */
  ghost predicate AnsweredAt(turns: seq<Turn>, j: nat)
    requires j < |turns|
  {
    Uses(turns[j]) != [] ==>
      && turns[j].role == AssistantTurn
      && j + 1 < |turns|
      && turns[j + 1].role == UserTurn
      && AreResults(AsBlocks(turns[j + 1].content), Uses(turns[j]))
  }

  ghost predicate Answered(turns: seq<Turn>) {
    forall j :: 0 <= j < |turns| ==> AnsweredAt(turns, j)
  }

  lemma {:induction false} UseIdsConcat(a: seq<Block>, b: seq<Block>)
    ensures UseIds(a + b) == UseIds(a) + UseIds(b)
    decreases |b|
  {
    if b == [] {
      assert a + b == a;
    } else {
      assert (a + b)[..|a + b| - 1] == a + b[..|b| - 1];
      UseIdsConcat(a, b[..|b| - 1]);
    }
  }

  function CallIds(calls: seq<ToolCall>): (ids: seq<string>)
    ensures |ids| == |calls| && forall i :: 0 <= i < |calls| ==> ids[i] == calls[i].id
  {
    seq(|calls|, i requires 0 <= i < |calls| => calls[i].id)
  }

  lemma {:induction false} UseIdsOfCalls(calls: seq<ToolCall>)
    ensures UseIds(UseBlocks(RawsOf(calls))) == CallIds(calls)
    decreases |calls|
  {
    if calls != [] {
      var k := |calls| - 1;
      UseIdsOfCalls(calls[..k]);
      assert UseBlocks(RawsOf(calls))[..k] == UseBlocks(RawsOf(calls[..k]));
      assert CallIds(calls) == CallIds(calls[..k]) + [calls[k].id];
    }
  }

  // ---- the initial messages ----

  /** No tool calls and no tool results. */
  predicate IsPlain(messages: seq<OmniMessage>) {
    forall i :: 0 <= i < |messages| ==> messages[i].toolCalls == [] && messages[i].role != Tool
  }

  ghost predicate TextOnly(turns: seq<Turn>) {
    forall j :: 0 <= j < |turns| ==> OnlyText(AsBlocks(turns[j].content))
  }

  predicate OnlyText(blocks: seq<Block>) {
    forall b :: b in blocks ==> b.Text?
  }

  lemma {:induction false} PlainConverts(messages: seq<OmniMessage>)
    requires IsPlain(messages)
    ensures TextOnly(Convert(ToWires(messages)))
    decreases |messages|
  {
    if messages != [] {
      var k := |messages| - 1;
      assert ToWires(messages)[..k] == ToWires(messages[..k]);
      PlainConverts(messages[..k]);
    }
  }

  lemma {:induction false} MergedTextIsText(turns: seq<Turn>)
    requires TextOnly(turns)
    ensures TextOnly(MergeAll([], turns))
    decreases |turns|
  {
    if turns != [] {
      var k := |turns| - 1;
      MergedTextIsText(turns[..k]);
      assert OnlyText(AsBlocks(turns[k].content));
      TextJoinsText(MergeAll([], turns[..k]), turns[k]);
    }
  }

  lemma TextJoinsText(merged: seq<Turn>, t: Turn)
    requires TextOnly(merged) && OnlyText(AsBlocks(t.content))
    ensures TextOnly(MergeOne(merged, t))
  {
    if merged != [] {
      assert OnlyText(AsBlocks(merged[|merged| - 1].content));
    }
  }

  lemma {:induction false} TextUsesNothing(blocks: seq<Block>)
    requires OnlyText(blocks)
    ensures UseIds(blocks) == []
  {
    if blocks != [] {
      assert blocks[|blocks| - 1] in blocks;
      TextUsesNothing(blocks[..|blocks| - 1]);
    }
  }

  lemma TextIsAnswered(turns: seq<Turn>)
    requires TextOnly(turns)
    ensures Answered(turns)
  {
    forall j | 0 <= j < |turns| ensures AnsweredAt(turns, j) {
      TextUsesNothing(AsBlocks(turns[j].content));
    }
  }

  // ---- one round ----

  function CallTurn(m: OmniMessage): Turn {
    Turn(AssistantTurn, Blocks((if m.content != "" then [Text(m.content)] else []) + UseBlocks(RawsOf(m.toolCalls))))
  }

  function ResultBlock(m: OmniMessage): Block {
    ToolResult(OrEmpty(m.toolCallId), m.content)
  }

  function ResultBlocks(messages: seq<OmniMessage>): (blocks: seq<Block>)
    ensures |blocks| == |messages| && forall i :: 0 <= i < |messages| ==> blocks[i] == ResultBlock(messages[i])
  {
    seq(|messages|, i requires 0 <= i < |messages| => ResultBlock(messages[i]))
  }

  function ResultTurns(messages: seq<OmniMessage>): (turns: seq<Turn>)
    ensures |turns| == |messages|
    ensures forall i :: 0 <= i < |messages| ==> turns[i] == Turn(UserTurn, Blocks([ResultBlock(messages[i])]))
  {
    seq(|messages|, i requires 0 <= i < |messages| => Turn(UserTurn, Blocks([ResultBlock(messages[i])])))
  }

  lemma {:induction false} ResultsConvert(messages: seq<OmniMessage>)
    requires forall i :: 0 <= i < |messages| ==> messages[i].role == Tool
    ensures Convert(ToWires(messages)) == ResultTurns(messages)
    decreases |messages|
  {
    if messages != [] {
      var k := |messages| - 1;
      assert ToWires(messages)[..k] == ToWires(messages[..k]);
      ResultsConvert(messages[..k]);
      assert ResultTurns(messages) == ResultTurns(messages[..k]) + [ConvertTurn(ToWire(messages[k]))];
    }
  }

  lemma CallConverts(m: OmniMessage)
    requires m.role == Assistant && m.toolCalls != []
    ensures Convert(ToWires([m])) == [CallTurn(m)]
  {
    var wires := ToWires([m]);
    assert wires[..0] == [];
    assert Convert(wires) == [] + [ConvertTurn(ToWire(m))];
  }

  lemma RoundConverts(c: Agent.Config, history: seq<OmniMessage>, round: seq<OmniMessage>)
    requires IsRound(c, history, round)
    ensures Convert(ToWires(round)) == [CallTurn(round[0])] + ResultTurns(round[1..])
  {
    assert ToWires(round) == ToWires([round[0]]) + ToWires(round[1..]);
    ConvertConcat(ToWires([round[0]]), ToWires(round[1..]));
    CallConverts(round[0]);
    ResultsConvert(round[1..]);
  }

  /** Consecutive tool results become one user turn. */
  lemma {:induction false} ResultsMerge(merged: seq<Turn>, messages: seq<OmniMessage>)
    requires merged != [] && merged[|merged| - 1].role == AssistantTurn && messages != []
    ensures MergeAll(merged, ResultTurns(messages)) == merged + [Turn(UserTurn, Blocks(ResultBlocks(messages)))]
    decreases |messages|
  {
    var k := |messages| - 1;
    assert ResultTurns(messages)[..k] == ResultTurns(messages[..k]);
    assert ResultBlocks(messages) == ResultBlocks(messages[..k]) + [ResultBlock(messages[k])];
    if k == 0 {
      assert ResultBlocks(messages) == [ResultBlock(messages[0])];
    } else {
      ResultsMerge(merged, messages[..k]);
    }
  }

  lemma CallTurnUses(m: OmniMessage)
    ensures Uses(CallTurn(m)) == CallIds(m.toolCalls)
  {
    UsesAfterText(if m.content != "" then [Text(m.content)] else [], m.toolCalls);
  }

  lemma UsesAfterText(text: seq<Block>, calls: seq<ToolCall>)
    requires OnlyText(text)
    ensures UseIds(text + UseBlocks(RawsOf(calls))) == CallIds(calls)
  {
    TextUsesNothing(text);
    UseIdsConcat(text, UseBlocks(RawsOf(calls)));
    UseIdsOfCalls(calls);
  }

  /** Whether turn j is answered depends on it and its successor alone. */
  lemma AnsweredFrame(a: seq<Turn>, b: seq<Turn>, j: nat)
    requires j + 1 < |a| && j + 1 < |b| && a[j] == b[j] && a[j + 1] == b[j + 1]
    requires AnsweredAt(a, j)
    ensures AnsweredAt(b, j)
  {
  }

  /** An assistant turn joins the turns so far: it is appended, or merged into a last assistant
      turn, which uses no tools. */
  lemma AssistantMerges(turns: seq<Turn>, t: Turn)
    requires Answered(turns) && t.role == AssistantTurn
    ensures var after := MergeOne(turns, t);
            && after != [] && after[|after| - 1].role == AssistantTurn
            && Uses(after[|after| - 1]) == Uses(t)
            && forall j :: 0 <= j < |after| - 1 ==> AnsweredAt(after, j)
  {
    var after, n := MergeOne(turns, t), |turns|;
    if n > 0 {
      assert AnsweredAt(turns, n - 1);
      if turns[n - 1].role == AssistantTurn {
        UseIdsConcat(AsBlocks(turns[n - 1].content), AsBlocks(t.content));
      }
    }
    forall j | 0 <= j < |after| - 1 ensures AnsweredAt(after, j) {
      assert AnsweredAt(turns, j);
      if j + 2 < |after| {
        AnsweredFrame(turns, after, j);
      }
    }
  }

  /** Appending the results of the last turn's calls answers it. */
  lemma ResultsAnswer(called: seq<Turn>, m: OmniMessage, replies: seq<OmniMessage>)
    requires called != [] && called[|called| - 1].role == AssistantTurn
    requires Uses(called[|called| - 1]) == CallIds(m.toolCalls)
    requires forall j :: 0 <= j < |called| - 1 ==> AnsweredAt(called, j)
    requires |replies| == |m.toolCalls|
    requires forall i :: 0 <= i < |replies| ==> replies[i].toolCallId == Some(m.toolCalls[i].id)
    ensures Answered(called + [Turn(UserTurn, Blocks(ResultBlocks(replies)))])
  {
    var after, n := called + [Turn(UserTurn, Blocks(ResultBlocks(replies)))], |called|;
    ResultsUseNothing(replies);
    forall j | 0 <= j < |after| ensures AnsweredAt(after, j) {
      if j < n - 1 {
        AnsweredFrame(called, after, j);
      }
    }
  }

  lemma TurnsAreAnswered(turns: seq<Turn>, m: OmniMessage, replies: seq<OmniMessage>)
    requires Answered(turns) && m.toolCalls != [] && |replies| == |m.toolCalls|
    requires forall i :: 0 <= i < |replies| ==> replies[i].toolCallId == Some(m.toolCalls[i].id)
    ensures Answered(MergeAll(turns, [CallTurn(m)] + ResultTurns(replies)))
  {
    CallTurnUses(m);
    AssistantMerges(turns, CallTurn(m));
    var called := MergeOne(turns, CallTurn(m));
    MergeSingle(turns, CallTurn(m));
    MergeAllConcat(turns, [CallTurn(m)], ResultTurns(replies));
    ResultsMerge(called, replies);
    ResultsAnswer(called, m, replies);
  }

  lemma RoundIsAnswered(c: Agent.Config, turns: seq<Turn>, history: seq<OmniMessage>, round: seq<OmniMessage>)
    requires Answered(turns) && IsRound(c, history, round)
    ensures Answered(MergeAll(turns, Convert(ToWires(round))))
  {
    RoundConverts(c, history, round);
    TurnsAreAnswered(turns, round[0], round[1..]);
  }

  lemma MergeSingle(turns: seq<Turn>, t: Turn)
    ensures MergeAll(turns, [t]) == MergeOne(turns, t)
  {
    assert [t][..0] == [];
  }

  lemma {:induction false} ResultsUseNothing(messages: seq<OmniMessage>)
    ensures UseIds(ResultBlocks(messages)) == []
    decreases |messages|
  {
    if messages != [] {
      var k := |messages| - 1;
      assert ResultBlocks(messages)[..k] == ResultBlocks(messages[..k]);
      ResultsUseNothing(messages[..k]);
    }
  }

  lemma {:induction false} RoundsAreAnswered(c: Agent.Config, initial: seq<OmniMessage>, rounds: seq<seq<OmniMessage>>)
    requires IsPlain(initial) && AllRounds(c, initial, rounds)
    ensures Answered(MergeAll([], Convert(ToWires(initial + Flat(rounds)))))
    decreases |rounds|
  {
    if rounds == [] {
      PlainIsAnswered(initial);
      assert initial + [] == initial;
    } else {
      var k := |rounds| - 1;
      RoundsInit(c, initial, rounds);
      RoundsAreAnswered(c, initial, rounds[..k]);
      OneMoreRound(c, initial + Flat(rounds[..k]), rounds[k]);
      Append(initial, Flat(rounds[..k]), rounds[k]);
    }
  }

  lemma Append(a: seq<OmniMessage>, b: seq<OmniMessage>, c: seq<OmniMessage>)
    ensures a + (b + c) == a + b + c
  {
  }

  lemma PlainIsAnswered(initial: seq<OmniMessage>)
    requires IsPlain(initial)
    ensures Answered(MergeAll([], Convert(ToWires(initial))))
  {
    PlainConverts(initial);
    MergedTextIsText(Convert(ToWires(initial)));
    TextIsAnswered(MergeAll([], Convert(ToWires(initial))));
  }

  lemma RoundsInit(c: Agent.Config, initial: seq<OmniMessage>, rounds: seq<seq<OmniMessage>>)
    requires AllRounds(c, initial, rounds) && rounds != []
    ensures var k := |rounds| - 1;
            AllRounds(c, initial, rounds[..k]) && IsRound(c, initial + Flat(rounds[..k]), rounds[k])
  {
    var init := rounds[..|rounds| - 1];
    forall i | 0 <= i < |init| ensures IsRound(c, initial + Flat(init[..i]), init[i]) {
      assert init[..i] == rounds[..i];
    }
  }

  lemma OneMoreRound(c: Agent.Config, before: seq<OmniMessage>, round: seq<OmniMessage>)
    requires Answered(MergeAll([], Convert(ToWires(before)))) && IsRound(c, before, round)
    ensures Answered(MergeAll([], Convert(ToWires(before + round))))
  {
    ConvertAppend(before, round);
    MergeAllConcat([], Convert(ToWires(before)), Convert(ToWires(round)));
    RoundIsAnswered(c, MergeAll([], Convert(ToWires(before))), before, round);
  }

  lemma ConvertAppend(a: seq<OmniMessage>, b: seq<OmniMessage>)
    ensures Convert(ToWires(a + b)) == Convert(ToWires(a)) + Convert(ToWires(b))
  {
    assert ToWires(a + b) == ToWires(a) + ToWires(b);
    ConvertConcat(ToWires(a), ToWires(b));
  }

  lemma PromptConverts(c: Agent.Config, messages: seq<OmniMessage>)
    ensures Convert(Prompt(c, messages)) == Convert(ToWires(messages))
  {
    var system := Wire(System, Some(c.systemPrompt), [], "");
    ConvertConcat([system], ToWires(messages));
    assert [system][..0] == [];
    assert Convert([system]) == [];
  }

  lemma PromptIsReadable(c: Agent.Config, messages: seq<OmniMessage>)
    ensures AllReadable(Prompt(c, messages))
  {
    forall m: OmniMessage ensures Readable(ToWire(m)) {
    }
  }

  /** For every history the agent loop sends to the model, from initial messages without tool
      calls or results: after translation the turns alternate, and each turn that uses tools is
      followed by a user turn that holds exactly its results; nothing fails to translate. */
  lemma SentHistoriesAreAnswered(c: Agent.Config, s: Graph.State, path: seq<Graph.Point>)
    requires IsPlain(s.messages)
    requires Graph.IsPath(AgentGraph(c), path) && path[0] == Graph.At(MODEL, s)
    requires path[|path| - 1].node == MODEL
    ensures var turns := MergeAll([], Convert(Prompt(c, path[|path| - 1].state.messages)));
            && AllReadable(Prompt(c, path[|path| - 1].state.messages))
            && Alternates(turns) && Answered(turns)
  {
    var rounds := PathConverses(c, path);
    PromptIsReadable(c, path[|path| - 1].state.messages);
    PromptConverts(c, path[|path| - 1].state.messages);
    RoundsAreAnswered(c, s.messages, rounds);
    MergeAllKeeps(Convert(ToWires(path[|path| - 1].state.messages)));
  }

  // ---- the history a run leaves behind ----

  lemma TextAfterReply(turns: seq<Turn>, reply: Turn, next: Turn)
    requires Answered(turns) && reply.role == AssistantTurn && next.role == UserTurn && OnlyText(AsBlocks(next.content))
    ensures Answered(MergeAll(turns, [reply, next])) <==> Uses(reply) == []
  {
    AssistantMerges(turns, reply);
    var said := MergeOne(turns, reply);
    var all, k := said + [next], |said| - 1;
    assert [reply, next][..1] == [reply];
    MergeSingle(turns, reply);
    assert MergeAll(turns, [reply, next]) == all;
    if Uses(reply) == [] {
      TextAfterText(said, next);
    } else {
      assert all[k] == said[k] && all[k + 1] == next;
      assert AsBlocks(next.content) != [] ==> AsBlocks(next.content)[0] in AsBlocks(next.content);
      assert !AnsweredAt(all, k);
    }
  }

  lemma TextAfterText(turns: seq<Turn>, next: Turn)
    requires turns != [] && Uses(turns[|turns| - 1]) == [] && OnlyText(AsBlocks(next.content))
    requires forall j :: 0 <= j < |turns| - 1 ==> AnsweredAt(turns, j)
    ensures Answered(turns + [next])
  {
    var all := turns + [next];
    TextUsesNothing(AsBlocks(next.content));
    forall j | 0 <= j < |all| ensures AnsweredAt(all, j) {
      if j < |turns| - 1 {
        AnsweredFrame(turns, all, j);
      }
    }
  }

  /** What one message is converted to, when it is no system message. */
  lemma OneConverts(m: OmniMessage)
    requires m.role != System
    ensures Convert(ToWires([m])) == [ConvertTurn(ToWire(m))]
  {
    var wires := ToWires([m]);
    assert wires[..0] == [] && Convert(wires) == [] + [ConvertTurn(ToWire(m))];
  }

  lemma ReplyUses(m: OmniMessage)
    requires m.role == Assistant
    ensures Uses(ConvertTurn(ToWire(m))) == CallIds(m.toolCalls)
  {
    if m.toolCalls != [] {
      CallTurnUses(m);
    } else {
      TextUsesNothing(AsBlocks(ConvertTurn(ToWire(m)).content));
    }
  }

  /** Continuing the conversation of a finished run: with the user's next message, every tool use
      is answered if and only if the run's last reply called no tools, that is, unless the budget
      ended the run. */
  lemma FinalHistoryIsAnsweredIff(c: Agent.Config, s: Graph.State, t: Graph.State, next: OmniMessage)
    requires IsPlain(s.messages) && Invoke(c, s) == Graph.Done(t) && next.role == User
    ensures t.messages != []
    ensures Answered(MergeAll([], Convert(Prompt(c, t.messages + [next])))) <==> Last(t).toolCalls == []
  {
    var path := Graph.ExecHasPath(AgentGraph(c), AtLeast(Limit(c), 0), Graph.At(MODEL, s));
    var rounds := PathConverses(c, path);
    var before := s.messages + Flat(rounds);
    RoundsAreAnswered(c, s.messages, rounds);
    ReplyThenMessage(before, Last(t), next);
    assert t.messages + [next] == before + [Last(t), next];
    PromptConverts(c, t.messages + [next]);
  }

  lemma ReplyThenMessage(before: seq<OmniMessage>, reply: OmniMessage, next: OmniMessage)
    requires Answered(MergeAll([], Convert(ToWires(before)))) && reply.role == Assistant && next.role == User
    ensures Answered(MergeAll([], Convert(ToWires(before + [reply, next])))) <==> reply.toolCalls == []
  {
    var said, asked := ConvertTurn(ToWire(reply)), ConvertTurn(ToWire(next));
    TwoMerge(before, reply, next);
    ReplyUses(reply);
    UserIsText(next);
    TextAfterReply(MergeAll([], Convert(ToWires(before))), said, asked);
  }

  lemma UserIsText(m: OmniMessage)
    requires m.role == User
    ensures var t := ConvertTurn(ToWire(m)); t.role == UserTurn && OnlyText(AsBlocks(t.content))
  {
  }

  lemma TwoMerge(before: seq<OmniMessage>, a: OmniMessage, b: OmniMessage)
    requires a.role != System && b.role != System
    ensures MergeAll([], Convert(ToWires(before + [a, b])))
         == MergeAll(MergeAll([], Convert(ToWires(before))), [ConvertTurn(ToWire(a)), ConvertTurn(ToWire(b))])
  {
    TwoConvert(before, a, b);
    MergeAllConcat([], Convert(ToWires(before)), [ConvertTurn(ToWire(a)), ConvertTurn(ToWire(b))]);
  }

  lemma TwoConvert(before: seq<OmniMessage>, a: OmniMessage, b: OmniMessage)
    requires a.role != System && b.role != System
    ensures Convert(ToWires(before + [a, b]))
         == Convert(ToWires(before)) + [ConvertTurn(ToWire(a)), ConvertTurn(ToWire(b))]
  {
    assert [a, b] == [a] + [b];
    ConvertAppend(before, [a, b]);
    ConvertAppend([a], [b]);
    OneConverts(a);
    OneConverts(b);
  }
  // ---- what the model is sent ----

  const ERROR_MARK := "error: "

  /** The wire answers the call: the tool's text as it is, or an error that names the unknown tool or
      says what was wrong. */
  predicate AnswersCall(c: Agent.Config, call: ToolCall, w: Wire) {
    && w.role == Tool && w.toolCalls == [] && w.toolCallId == call.id && w.content.Some?
    && if call.name !in c.tools then w.content.value == ERROR_MARK + "unknown tool '" + call.name + "'"
       else
         match c.tools[call.name](call.arguments)
         case Answer(text) => w.content.value == text
         case InvalidArguments(reason) => w.content.value == ERROR_MARK + "invalid arguments: " + reason
         case Raised(exception) => w.content.value == ERROR_MARK + exception
  }

  lemma Marks()
    ensures "error: unknown tool '" == ERROR_MARK + "unknown tool '"
    ensures "error: invalid arguments: " == ERROR_MARK + "invalid arguments: "
  {
  }

  lemma ReplyAnswers(c: Agent.Config, call: ToolCall, session: string)
    ensures AnswersCall(c, call, ToWire(ToolReply(c, call, session)))
  {
    Marks();
  }

  /** Message j, if it is an assistant's, is followed by one answer per call, in order. */
  ghost predicate CallsAnswered(c: Agent.Config, messages: seq<OmniMessage>, j: nat)
    requires j < |messages|
  {
    messages[j].role == Assistant ==>
      && j + |messages[j].toolCalls| < |messages|
      && forall k :: 0 <= k < |messages[j].toolCalls| ==>
           AnswersCall(c, messages[j].toolCalls[k], ToWire(messages[j + 1 + k]))
  }

  lemma RoundAnswers(c: Agent.Config, before: seq<OmniMessage>, round: seq<OmniMessage>, j: nat)
    requires IsRound(c, before, round) && |before| <= j < |before + round|
    ensures CallsAnswered(c, before + round, j)
  {
    var messages, calls := before + round, round[0].toolCalls;
    if j == |before| {
      forall k | 0 <= k < |calls| ensures AnswersCall(c, calls[k], ToWire(messages[j + 1 + k])) {
        assert messages[j + 1 + k] == round[1..][k];
        ReplyAnswers(c, calls[k], round[0].sessionId);
      }
    } else {
      assert messages[j] == round[1..][j - |before| - 1];
    }
  }

  lemma CallsAnsweredFrame(c: Agent.Config, before: seq<OmniMessage>, more: seq<OmniMessage>, j: nat)
    requires j < |before| && CallsAnswered(c, before, j)
    ensures CallsAnswered(c, before + more, j)
  {
  }

  lemma {:induction false} RoundsAnswer(c: Agent.Config, initial: seq<OmniMessage>, rounds: seq<seq<OmniMessage>>,
                                        j: nat)
    requires AllRounds(c, initial, rounds) && |initial| <= j < |initial + Flat(rounds)|
    ensures CallsAnswered(c, initial + Flat(rounds), j)
    ensures (initial + Flat(rounds))[j].sessionId == SessionOf(initial)
    decreases |rounds|
  {
    var k := |rounds| - 1;
    var before := initial + Flat(rounds[..k]);
    RoundsInit(c, initial, rounds);
    Append(initial, Flat(rounds[..k]), rounds[k]);
    if j < |before| {
      RoundsAnswer(c, initial, rounds[..k], j);
      CallsAnsweredFrame(c, before, rounds[k], j);
    } else {
      RoundAnswers(c, before, rounds[k], j);
      if k > 0 && |before| > |initial| {
        RoundsAnswer(c, initial, rounds[..k], |before| - 1);
      }
      RoundSession(c, before, rounds[k], j);
    }
  }

  lemma RoundSession(c: Agent.Config, before: seq<OmniMessage>, round: seq<OmniMessage>, j: nat)
    requires IsRound(c, before, round) && |before| <= j < |before + round|
    ensures (before + round)[j].sessionId == SessionOf(before)
  {
    if j > |before| {
      assert (before + round)[j] == round[1..][j - |before| - 1];
    }
  }

  /** The system prompt goes in front if there is one and the history opens with no system message. */
  function SystemWire(c: Agent.Config, messages: seq<OmniMessage>): seq<Wire> {
    if c.systemPrompt == "" || (messages != [] && messages[0].role == System) then []
    else [Wire(System, Some(c.systemPrompt), [], "")]
  }

  lemma PromptIsHistory(c: Agent.Config, messages: seq<OmniMessage>)
    ensures Prompt(c, messages) == SystemWire(c, messages) + ToWires(messages)
  {
    if messages != [] {
      assert ToWires(messages)[0].role == messages[0].role;
    }
    assert [] + ToWires(messages) == ToWires(messages);
  }

  /** What the model is sent at every turn of a run: the initial messages and all since, in order, after
      the system prompt. */
  lemma SentHistoryIsComplete(c: Agent.Config, s: Graph.State, path: seq<Graph.Point>)
    requires Graph.IsPath(AgentGraph(c), path) && path[0] == Graph.At(MODEL, s)
    requires path[|path| - 1].node == MODEL
    ensures var messages := path[|path| - 1].state.messages;
            s.messages <= messages && Prompt(c, messages) == SystemWire(c, messages) + ToWires(messages)
  {
    var rounds := PathRounds(c, s, path);
    PromptIsHistory(c, path[|path| - 1].state.messages);
  }

  /** What the model is sent holds the answer to call k of message j, if there is such a call: k + 1 wires
      after the message. */
  ghost predicate SentAnswer(c: Agent.Config, messages: seq<OmniMessage>, j: nat, k: nat)
    requires j < |messages|
  {
    var sent, n := Prompt(c, messages), |SystemWire(c, messages)|;
    messages[j].role == Assistant && k < |messages[j].toolCalls| ==>
      && j + 1 + k < |messages| && n + |messages| <= |sent|
      && AnswersCall(c, messages[j].toolCalls[k], sent[n + (j + 1 + k)])
  }

  /** Since the run began, every message stays in the run's session, and every assistant turn is followed
      in what the model is sent by one wire per call, in order, which gives the tool's answer as it is
      or reports the error. */
  lemma SentCallsAreAnswered(c: Agent.Config, s: Graph.State, path: seq<Graph.Point>, j: nat, k: nat)
    requires Graph.IsPath(AgentGraph(c), path) && path[0] == Graph.At(MODEL, s)
    requires path[|path| - 1].node == MODEL && |s.messages| <= j < |path[|path| - 1].state.messages|
    ensures var messages := path[|path| - 1].state.messages;
            messages[j].sessionId == SessionOf(s.messages)
    ensures var messages := path[|path| - 1].state.messages;
            SentAnswer(c, messages, j, k)
  {
    var rounds := PathRounds(c, s, path);
    RoundCallIsAnswered(c, s.messages, rounds, j, k);
  }

  lemma PathRounds(c: Agent.Config, s: Graph.State, path: seq<Graph.Point>) returns (rounds: seq<seq<OmniMessage>>)
    requires Graph.IsPath(AgentGraph(c), path) && path[0] == Graph.At(MODEL, s) && path[|path| - 1].node == MODEL
    ensures AllRounds(c, s.messages, rounds)
    ensures path[|path| - 1].state.messages == s.messages + Flat(rounds)
  {
    rounds := PathConverses(c, path);
  }

  lemma RoundCallIsAnswered(c: Agent.Config, initial: seq<OmniMessage>, rounds: seq<seq<OmniMessage>>, j: nat, k: nat)
    requires AllRounds(c, initial, rounds) && |initial| <= j < |initial + Flat(rounds)|
    ensures var messages := initial + Flat(rounds);
            messages[j].sessionId == SessionOf(initial)
    ensures var messages := initial + Flat(rounds);
            SentAnswer(c, messages, j, k)
  {
    RoundsAnswer(c, initial, rounds, j);
    CallIsSent(c, initial + Flat(rounds), j, k);
  }

  lemma CallIsSent(c: Agent.Config, messages: seq<OmniMessage>, j: nat, k: nat)
    requires j < |messages| && CallsAnswered(c, messages, j)
    ensures SentAnswer(c, messages, j, k)
  {
    if messages[j].role == Assistant && k < |messages[j].toolCalls| {
      SentWire(c, messages, j + 1 + k);
    }
  }

  lemma SentWire(c: Agent.Config, messages: seq<OmniMessage>, i: nat)
    requires i < |messages|
    ensures |SystemWire(c, messages)| + |messages| <= |Prompt(c, messages)|
    ensures Prompt(c, messages)[|SystemWire(c, messages)| + i] == ToWire(messages[i])
  {
    PromptIsHistory(c, messages);
    Offset(SystemWire(c, messages), ToWires(messages), i);
  }

  lemma Offset(a: seq<Wire>, b: seq<Wire>, i: nat)
    requires i < |b|
    ensures (a + b)[|a| + i] == b[i]
  {
  }
}
