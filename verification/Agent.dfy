/** create_tool_agent of omniai/graph/agent.py: the model and tools loop as a compiled graph, and
    what its conversations look like after translation to the Anthropic format. The model is an
    oracle on the history it is sent; since every model turn sends a longer history, this covers
    every sequence of replies. */
module Agent {
  import opened Numbers
  import opened Options
  import opened Protocol
  import opened ChatWire
  import opened Graph
  import Anthropic

  datatype ChatResult = ChatResult(content: string, toolCalls: seq<ToolCall>)

  /** None is an exception raised by the provider. */
  type Model = seq<Wire> -> Option<ChatResult>

  datatype ToolOutcome = Answer(text: string) | InvalidArguments(reason: string) | Raised(exception: string)

  datatype Config = Config(model: Model, tools: map<string, Json -> ToolOutcome>, systemPrompt: string, maxSteps: int)

  const MODEL := "model"
  const TOOLS := "tools"
  const STEPS := "steps"

  function Steps(s: State): int {
    if STEPS in s.fields then s.fields[STEPS] else 0
  }

  /** The history sent to the model. */
  function Prompt(c: Config, messages: seq<OmniMessage>): seq<Wire> {
    var wires := ToWires(messages);
    if c.systemPrompt != "" && (wires == [] || wires[0].role != System)
    then [Wire(System, Some(c.systemPrompt), [], "")] + wires
    else wires
  }

  function CallModel(c: Config, s: State): NodeResult {
    match c.model(Prompt(c, s.messages))
    case None => Raises
    case Some(result) =>
      var session := if s.messages == [] then "default" else s.messages[|s.messages| - 1].sessionId;
      var reply := OmniMessage(Assistant, result.content, result.toolCalls, session, None);
      Returns(Update([reply], map[STEPS := Steps(s) + 1]))
  }

  function ToolText(c: Config, call: ToolCall): string {
    if call.name !in c.tools then "error: unknown tool '" + call.name + "'"
    else
      match c.tools[call.name](call.arguments)
      case Answer(text) => text
      case InvalidArguments(reason) => "error: invalid arguments: " + reason
      case Raised(exception) => "error: " + exception
  }

  function ToolReply(c: Config, call: ToolCall, session: string): OmniMessage {
    OmniMessage(Tool, ToolText(c, call), [], session, Some(call.id))
  }

  function ToolReplies(c: Config, calls: seq<ToolCall>, session: string): (r: seq<OmniMessage>)
    ensures |r| == |calls|
    ensures forall i :: 0 <= i < |calls| ==> r[i] == ToolReply(c, calls[i], session)
  {
    seq(|calls|, i requires 0 <= i < |calls| => ToolReply(c, calls[i], session))
  }

  /** `state.messages[-1]` raises on an empty history. */
  function RunTools(c: Config, s: State): NodeResult {
    if s.messages == [] then Raises
    else
      var last := s.messages[|s.messages| - 1];
      Returns(Update(ToolReplies(c, last.toolCalls, last.sessionId), map[]))
  }

  /** The loop of run_tools. */
  method ExecuteTools(c: Config, calls: seq<ToolCall>, session: string) returns (outputs: seq<OmniMessage>)
    ensures outputs == ToolReplies(c, calls, session)
  {
    outputs := [];
    var i := 0;
    while i < |calls|
      invariant 0 <= i <= |calls|
      invariant outputs == ToolReplies(c, calls, session)[..i]
    {
      var call := calls[i];
      var content: string;
      if call.name !in c.tools {
        content := "error: unknown tool '" + call.name + "'";
      } else {
        match c.tools[call.name](call.arguments)
        case Answer(text) => content := text;
        case InvalidArguments(reason) => content := "error: invalid arguments: " + reason;
        case Raised(exception) => content := "error: " + exception;
      }
      outputs := outputs + [OmniMessage(Tool, content, [], session, Some(call.id))];
      i := i + 1;
    }
  }

  function Route(c: Config, s: State): Option<string> {
    if s.messages == [] then None
    else if s.messages[|s.messages| - 1].toolCalls != [] && Steps(s) < c.maxSteps then Some(TOOLS)
    else Some(END)
  }

  function AgentGraph(c: Config): GraphDef {
    GraphDef(
      map[MODEL := (s: State) => CallModel(c, s), TOOLS := (s: State) => RunTools(c, s)],
      map[TOOLS := MODEL],
      map[MODEL := Router((s: State) => Route(c, s), None)],
      Some(MODEL)
    )
  }

  function Limit(c: Config): int {
    2 * c.maxSteps + 2
  }

  function Invoke(c: Config, s: State): Result {
    var g := AgentGraph(c);
    Exec(g, AtLeast(Limit(c), 0), g.entry.value, s)
  }

  /** The agent's graph compiles. */
  lemma AgentCompiles(c: Config)
    ensures Compiles(AgentGraph(c))
  {
    assert forall n :: Referenced(AgentGraph(c), n) ==> n == MODEL;
  }

  // ---- the conversation ----

  /** The session of a history: that of its last message. */
  function SessionOf(history: seq<OmniMessage>): string {
    if history == [] then "default" else history[|history| - 1].sessionId
  }

  /** The model's reply to a history. */
  predicate IsReplyTo(c: Config, history: seq<OmniMessage>, m: OmniMessage) {
    && m.role == Assistant && m.toolCallId == None && m.sessionId == SessionOf(history)
    && c.model(Prompt(c, history)) == Some(ChatResult(m.content, m.toolCalls))
  }

  /** The model's reply to the history so far, with tool calls, then one TOOL message per call, in
      order. */
  ghost predicate IsRound(c: Config, history: seq<OmniMessage>, messages: seq<OmniMessage>) {
    && messages != []
    && IsReplyTo(c, history, messages[0]) && messages[0].toolCalls != []
    && messages[1..] == ToolReplies(c, messages[0].toolCalls, messages[0].sessionId)
  }

  ghost predicate AllRounds(c: Config, initial: seq<OmniMessage>, rounds: seq<seq<OmniMessage>>) {
    forall i :: 0 <= i < |rounds| ==> IsRound(c, initial + Flat(rounds[..i]), rounds[i])
  }

  function Flat(rounds: seq<seq<OmniMessage>>): seq<OmniMessage> {
    if rounds == [] then [] else Flat(rounds[..|rounds| - 1]) + rounds[|rounds| - 1]
  }

  function Last(s: State): OmniMessage
    requires s.messages != []
  {
    s.messages[|s.messages| - 1]
  }

  /** Before a model turn: complete rounds on top of the initial messages. */
  ghost predicate AtModel(c: Config, s0: State, s: State, rounds: seq<seq<OmniMessage>>) {
    && AllRounds(c, s0.messages, rounds)
    && s.messages == s0.messages + Flat(rounds)
    && Steps(s) == Steps(s0) + |rounds|
    && (rounds != [] ==> Steps(s) < c.maxSteps)
  }

  /** After a model turn: one more assistant message. */
  ghost predicate AfterReply(c: Config, s0: State, s: State, rounds: seq<seq<OmniMessage>>) {
    && AllRounds(c, s0.messages, rounds)
    && s.messages != []
    && s.messages == s0.messages + Flat(rounds) + [Last(s)]
    && IsReplyTo(c, s0.messages + Flat(rounds), Last(s))
    && Steps(s) == Steps(s0) + |rounds| + 1
    && (rounds != [] ==> Steps(s) - 1 < c.maxSteps)
  }

  /** What every point of a run looks like. */
  ghost predicate Conversing(c: Config, s0: State, p: Point, k: nat, rounds: seq<seq<OmniMessage>>) {
    || (p.node == MODEL && k == 2 * |rounds| && AtModel(c, s0, p.state, rounds))
    || (p.node == TOOLS && k == 2 * |rounds| + 1 && AfterReply(c, s0, p.state, rounds)
        && Last(p.state).toolCalls != [] && Steps(p.state) < c.maxSteps)
    || (p.node == END && k == 2 * |rounds| + 1 && AfterReply(c, s0, p.state, rounds)
        && (Last(p.state).toolCalls != [] ==> Steps(p.state) >= c.maxSteps))
  }

  lemma ModelStep(c: Config, s0: State, p: Point, q: Point, k: nat, rounds: seq<seq<OmniMessage>>)
    requires Conversing(c, s0, p, k, rounds) && p.node == MODEL && StepsTo(AgentGraph(c), p, q)
    ensures Conversing(c, s0, q, k + 1, rounds)
  {
    assert AgentGraph(c).nodes[MODEL](p.state) == CallModel(c, p.state);
    assert q.state.messages == p.state.messages + CallModel(c, p.state).update.messages;
  }

  lemma ToolsStep(c: Config, s0: State, p: Point, q: Point, k: nat, rounds: seq<seq<OmniMessage>>)
    returns (more: seq<seq<OmniMessage>>)
    requires Conversing(c, s0, p, k, rounds) && p.node == TOOLS && StepsTo(AgentGraph(c), p, q)
    ensures Conversing(c, s0, q, k + 1, more)
  {
    ToolsRun(c, p, q);
    var reply := Last(p.state);
    var round := [reply] + ToolReplies(c, reply.toolCalls, reply.sessionId);
    more := rounds + [round];
    assert round[1..] == ToolReplies(c, reply.toolCalls, reply.sessionId);
    RoundsSnoc(c, s0.messages, rounds, round);
    FlatSnoc(rounds, round);
    Regroup(s0.messages, Flat(rounds), [reply], round[1..]);
    assert round == [reply] + round[1..];
  }

  lemma Regroup(a: seq<OmniMessage>, b: seq<OmniMessage>, c: seq<OmniMessage>, d: seq<OmniMessage>)
    ensures a + b + c + d == a + (b + (c + d))
  {
  }

  lemma ToolsRun(c: Config, p: Point, q: Point)
    requires p.node == TOOLS && p.state.messages != [] && StepsTo(AgentGraph(c), p, q)
    ensures var last := p.state.messages[|p.state.messages| - 1];
            q.state.messages == p.state.messages + ToolReplies(c, last.toolCalls, last.sessionId)
    ensures q.node == MODEL && Steps(q.state) == Steps(p.state)
  {
    assert AgentGraph(c).nodes[TOOLS](p.state) == RunTools(c, p.state);
  }

  lemma RoundsSnoc(c: Config, initial: seq<OmniMessage>, rounds: seq<seq<OmniMessage>>, round: seq<OmniMessage>)
    requires AllRounds(c, initial, rounds) && IsRound(c, initial + Flat(rounds), round)
    ensures AllRounds(c, initial, rounds + [round])
  {
    var more := rounds + [round];
    forall i | 0 <= i < |more| ensures IsRound(c, initial + Flat(more[..i]), more[i]) {
      TakeSnoc(rounds, round, i);
    }
  }

  lemma TakeSnoc(rounds: seq<seq<OmniMessage>>, round: seq<OmniMessage>, i: nat)
    requires i <= |rounds|
    ensures (rounds + [round])[..i] == rounds[..i] && (i == |rounds| ==> rounds[..i] == rounds)
  {
  }

  lemma FlatSnoc(rounds: seq<seq<OmniMessage>>, round: seq<OmniMessage>)
    ensures Flat(rounds + [round]) == Flat(rounds) + round
  {
    assert (rounds + [round])[..|rounds|] == rounds;
  }

  /** Every path of the agent graph from its entry keeps the conversation in shape. */
  lemma {:induction false} PathConverses(c: Config, path: seq<Point>) returns (rounds: seq<seq<OmniMessage>>)
    requires IsPath(AgentGraph(c), path) && path[0].node == MODEL
    ensures Conversing(c, path[0].state, path[|path| - 1], |path| - 1, rounds)
    decreases |path|
  {
    var n := |path| - 1;
    if n == 0 {
      rounds := [];
    } else {
      assert StepsTo(AgentGraph(c), path[n - 1], path[n]);
      rounds := PathConverses(c, path[..n]);
      if path[n - 1].node == MODEL {
        ModelStep(c, path[0].state, path[n - 1], path[n], n - 1, rounds);
      } else {
        rounds := ToolsStep(c, path[0].state, path[n - 1], path[n], n - 1, rounds);
      }
    }
  }

  /** What a finished run has added: complete rounds and one last assistant turn, whose calls stay
      unanswered only when the budget is used up. */
  ghost predicate Finished(c: Config, s: State, t: State) {
    exists rounds, reply ::
      && AllRounds(c, s.messages, rounds)
      && t.messages == s.messages + Flat(rounds) + [reply]
      && IsReplyTo(c, s.messages + Flat(rounds), reply)
      && (reply.toolCalls != [] ==> Steps(t) >= c.maxSteps)
      && Steps(t) == Steps(s) + |rounds| + 1
      && |rounds| + 1 <= Max(1, c.maxSteps - Steps(s))
  }

  lemma DoneIsFinished(c: Config, s: State, t: State, k: nat, rounds: seq<seq<OmniMessage>>)
    requires Conversing(c, s, At(END, t), k, rounds)
    ensures Finished(c, s, t)
  {
    assert t.messages == s.messages + Flat(rounds) + [Last(t)];
  }

  /** No point of an agent run can fail but a model call. */
  lemma OnlyModelFails(c: Config, s: State, p: Point, k: nat, rounds: seq<seq<OmniMessage>>, error: Error)
    requires Conversing(c, s, p, k, rounds) && FailsAt(AgentGraph(c), p, error)
    ensures error == NodeRaised(MODEL)
  {
    assert p.node == TOOLS ==> p.state.messages != [];
  }

  /** With max_steps >= 0 and initial steps >= -1 the agent always ends at END, within its
      iteration limit, unless the provider raises; it takes at most max(1, maxSteps - steps) model
      turns, and every assistant turn with tool calls, except possibly the last, is followed at
      once by one TOOL message per call, in order. */
  lemma AgentEnds(c: Config, s: State)
    requires c.maxSteps >= 0 && Steps(s) >= -1
    ensures match Invoke(c, s)
            case Done(t) => Finished(c, s, t)
            case Failed(error) => error == NodeRaised(MODEL)
  {
    var path := ExecHasPath(AgentGraph(c), AtLeast(Limit(c), 0), At(MODEL, s));
    var rounds := PathConverses(c, path);
    var last := path[|path| - 1];
    match Invoke(c, s) {
      case Done(t) => DoneIsFinished(c, s, t, |path| - 1, rounds);
      case Failed(error) =>
        assert !error.Exceeded?;
        OnlyModelFails(c, s, last, |path| - 1, rounds, error);
    }
  }

  // ---- the budget is exactly enough ----

  function Restless(wires: seq<Wire>): Option<ChatResult> {
    Some(ChatResult("", [ToolCall("1", "again", "{}")]))
  }

  /** A model that never stops calling tools. */
  function RestlessAgent(maxSteps: int): Config {
    Config(Restless, map[], "", maxSteps)
  }

  /** One round of a restless agent that stays within its budget. */
  lemma RestlessRound(maxSteps: int, fuel: nat, s: State) returns (t: State)
    requires Steps(s) + 1 < maxSteps
    ensures Steps(t) == Steps(s) + 1
    ensures Exec(AgentGraph(RestlessAgent(maxSteps)), fuel + 2, MODEL, s)
         == Exec(AgentGraph(RestlessAgent(maxSteps)), fuel, MODEL, t)
  {
    var c := RestlessAgent(maxSteps);
    var g := AgentGraph(c);
    var asked := Merge(s, CallModel(c, s).update);
    assert asked.messages[|asked.messages| - 1] == CallModel(c, s).update.messages[0];
    assert g.nodes[MODEL](s) == CallModel(c, s) && Next(g, MODEL, asked) == Goto(TOOLS);
    assert Exec(g, fuel + 2, MODEL, s) == Exec(g, fuel + 1, TOOLS, asked);
    t := Merge(asked, RunTools(c, asked).update);
    assert g.nodes[TOOLS](asked) == RunTools(c, asked) && Next(g, TOOLS, t) == Goto(MODEL);
  }

  lemma {:induction false} RestlessExceeds(maxSteps: int, turns: nat, s: State)
    requires Steps(s) + turns < maxSteps || turns == 0
    ensures Exec(AgentGraph(RestlessAgent(maxSteps)), 2 * turns, MODEL, s) == Failed(Exceeded(MODEL))
    decreases turns
  {
    if turns > 0 {
      var t := RestlessRound(maxSteps, 2 * (turns - 1), s);
      RestlessExceeds(maxSteps, turns - 1, t);
    }
  }

  predicate HitsLimit(r: Result) {
    r.Failed? && r.error.Exceeded?
  }

  /** Whatever the model, tools and prompt, a run never hits the iteration limit if and only if
      max_steps >= 0 and the initial step count is at least -1. */
  lemma LimitNeverHitIff(maxSteps: int, s: State)
    ensures (forall c: Config :: c.maxSteps == maxSteps ==> !HitsLimit(Invoke(c, s)))
            <==> maxSteps >= 0 && Steps(s) >= -1
  {
    if maxSteps >= 0 && Steps(s) >= -1 {
      forall c: Config | c.maxSteps == maxSteps ensures !HitsLimit(Invoke(c, s)) {
        AgentEnds(c, s);
      }
    } else {
      RestlessExceeds(maxSteps, if maxSteps >= 0 then maxSteps + 1 else 0, s);
      assert HitsLimit(Invoke(RestlessAgent(maxSteps), s));
    }
  }
}
