/** The graph builder and executor of omniai/graph/graph.py, with State.merge of
    omniai/graph/state.py. */
module Graph {
  import opened Numbers
  import opened Options
  import opened Protocol

  const START := "__start__"
  const END := "__end__"

  /** Messages accumulate; every other field is replaced by an update that sets it. */
  datatype State = State(messages: seq<OmniMessage>, fields: map<string, int>)

  datatype Update = Unchanged | Update(messages: seq<OmniMessage>, fields: map<string, int>)

  function Merge(s: State, u: Update): State {
    match u
    case Unchanged => s
    case Update(messages, fields) => State(s.messages + messages, s.fields + fields)
  }

  /** What running a node ends with. */
  datatype NodeResult = Returns(update: Update) | Raises

  /** A routing callable, None being an exception, and its optional path map. */
  datatype Router = Router(choose: State -> Option<string>, pathMap: Option<map<string, string>>)

  datatype GraphDef = GraphDef(
    nodes: map<string, State -> NodeResult>,
    edges: map<string, string>,
    conditional: map<string, Router>,
    entry: Option<string>
  )

  datatype Error =
    | UnknownNode(node: string)
    | NotInPathMap(node: string, key: string)
    | NodeRaised(node: string)
    | RouterRaised(node: string)
    | Exceeded(node: string)

  datatype Result = Done(state: State) | Failed(error: Error)

  datatype Hop = Goto(node: string) | NoRoute(error: Error)

  /** CompiledGraph._next. */
  function Next(g: GraphDef, current: string, s: State): Hop {
    if current in g.conditional then
      var Router(choose, pathMap) := g.conditional[current];
      match choose(s)
      case None => NoRoute(RouterRaised(current))
      case Some(key) =>
        if pathMap.None? then Goto(key)
        else if key in pathMap.value then Goto(pathMap.value[key])
        else NoRoute(NotInPathMap(current, key))
    else if current in g.edges then Goto(g.edges[current])
    else Goto(END)
  }

  /** The run from `current` with `fuel` node executions left. */
  function Exec(g: GraphDef, fuel: nat, current: string, s: State): Result {
    if current == END then Done(s)
    else if fuel == 0 then Failed(Exceeded(current))
    else if current !in g.nodes then Failed(UnknownNode(current))
    else
      match g.nodes[current](s)
      case Raises => Failed(NodeRaised(current))
      case Returns(update) =>
        var t := Merge(s, update);
        match Next(g, current, t)
        case NoRoute(error) => Failed(error)
        case Goto(target) => Exec(g, fuel - 1, target, t)
  }

  // ---- the reference semantics: paths ----

  /** A point of a run: the node about to run and the state it sees. */
  datatype Point = At(node: string, state: State)

  /** One node runs and routing names the next point. */
  predicate StepsTo(g: GraphDef, a: Point, b: Point) {
    && a.node != END
    && a.node in g.nodes
    && g.nodes[a.node](a.state).Returns?
    && b.state == Merge(a.state, g.nodes[a.node](a.state).update)
    && Next(g, a.node, b.state) == Goto(b.node)
  }

  ghost predicate IsPath(g: GraphDef, path: seq<Point>) {
    && path != []
    && forall i :: 0 <= i < |path| - 1 ==> StepsTo(g, path[i], path[i + 1])
  }

  ghost predicate Joins(g: GraphDef, path: seq<Point>, from: Point, to: Point) {
    IsPath(g, path) && path[0] == from && path[|path| - 1] == to
  }

  lemma ConsPath(g: GraphDef, first: Point, path: seq<Point>)
    requires IsPath(g, path) && StepsTo(g, first, path[0])
    ensures IsPath(g, [first] + path)
  {
    var all := [first] + path;
    forall i | 0 <= i < |all| - 1 ensures StepsTo(g, all[i], all[i + 1]) {
      if i > 0 {
        assert all[i] == path[i - 1] && all[i + 1] == path[i];
      }
    }
  }

  lemma TailPath(g: GraphDef, path: seq<Point>)
    requires IsPath(g, path) && |path| > 1
    ensures IsPath(g, path[1..]) && StepsTo(g, path[0], path[1])
  {
    var rest := path[1..];
    forall i | 0 <= i < |rest| - 1 ensures StepsTo(g, rest[i], rest[i + 1]) {
      assert StepsTo(g, path[i + 1], path[i + 2]);
    }
  }

  /** Running or leaving point p fails with the given error. */
  predicate FailsAt(g: GraphDef, p: Point, error: Error) {
    && p.node != END
    && if p.node !in g.nodes then error == UnknownNode(p.node)
       else
         match g.nodes[p.node](p.state)
         case Raises => error == NodeRaised(p.node)
         case Returns(update) => Next(g, p.node, Merge(p.state, update)) == NoRoute(error)
  }

  /** Every run has a path as its witness: to END when it succeeds, of full length when it uses up
      its fuel, and otherwise to the point that fails. */
  lemma {:induction false} ExecHasPath(g: GraphDef, fuel: nat, from: Point) returns (path: seq<Point>)
    ensures IsPath(g, path) && path[0] == from && |path| - 1 <= fuel
    ensures var last := path[|path| - 1];
            match Exec(g, fuel, from.node, from.state)
            case Done(t) => last == At(END, t)
            case Failed(Exceeded(n)) => last.node == n && n != END && |path| - 1 == fuel
            case Failed(error) => FailsAt(g, last, error)
    decreases fuel
  {
    path := [from];
    if from.node != END && fuel > 0 && from.node in g.nodes && g.nodes[from.node](from.state).Returns? {
      var t := Merge(from.state, g.nodes[from.node](from.state).update);
      var hop := Next(g, from.node, t);
      if hop.Goto? {
        var rest := ExecHasPath(g, fuel - 1, At(hop.node, t));
        ConsPath(g, from, rest);
        path := [from] + rest;
      }
    }
  }

  /** Execution follows any given path. */
  lemma {:induction false} ExecFollowsPath(g: GraphDef, fuel: nat, path: seq<Point>)
    requires IsPath(g, path) && |path| - 1 <= fuel
    ensures var last := path[|path| - 1];
            Exec(g, fuel, path[0].node, path[0].state) == Exec(g, fuel - (|path| - 1), last.node, last.state)
    decreases |path|
  {
    if |path| > 1 {
      TailPath(g, path);
      ExecFollowsPath(g, fuel - 1, path[1..]);
    }
  }

  /** The executor succeeds with state t if and only if some path of at most `fuel` node runs
      leads from the start to END with state t. */
  lemma SuccessIffPath(g: GraphDef, fuel: nat, from: Point, t: State)
    ensures Exec(g, fuel, from.node, from.state) == Done(t)
            <==> exists path :: Joins(g, path, from, At(END, t)) && |path| - 1 <= fuel
  {
    if Exec(g, fuel, from.node, from.state) == Done(t) {
      var path := ExecHasPath(g, fuel, from);
      assert Joins(g, path, from, At(END, t));
    }
    if path :| Joins(g, path, from, At(END, t)) && |path| - 1 <= fuel {
      ExecFollowsPath(g, fuel, path);
    }
  }

  /** It reports the iteration limit if and only if some path of exactly `fuel` node runs leads to
      a point that is not END. */
  lemma ExceededIffPath(g: GraphDef, fuel: nat, from: Point, n: string)
    ensures Exec(g, fuel, from.node, from.state) == Failed(Exceeded(n))
            <==> n != END && exists path, s :: Joins(g, path, from, At(n, s)) && |path| - 1 == fuel
  {
    if Exec(g, fuel, from.node, from.state) == Failed(Exceeded(n)) {
      var path := ExecHasPath(g, fuel, from);
      assert Joins(g, path, from, At(n, path[|path| - 1].state));
    }
    if n != END {
      if path, s :| Joins(g, path, from, At(n, s)) && |path| - 1 == fuel {
        ExecFollowsPath(g, fuel, path);
      }
    }
  }

  /** It meets an unknown node n if and only if some path of fewer than `fuel` node runs leads to n,
      which is neither END nor a node. */
  lemma UnknownIffPath(g: GraphDef, fuel: nat, from: Point, n: string)
    ensures Exec(g, fuel, from.node, from.state) == Failed(UnknownNode(n))
            <==> && n != END && n !in g.nodes
                 && exists path, s :: Joins(g, path, from, At(n, s)) && |path| - 1 < fuel
  {
    if Exec(g, fuel, from.node, from.state) == Failed(UnknownNode(n)) {
      var path := UnknownHasPath(g, fuel, from, n);
      assert Joins(g, path, from, At(n, path[|path| - 1].state));
    }
    if n != END && n !in g.nodes {
      if path, s :| Joins(g, path, from, At(n, s)) && |path| - 1 < fuel {
        ExecFollowsPath(g, fuel, path);
      }
    }
  }

  lemma {:induction false} UnknownHasPath(g: GraphDef, fuel: nat, from: Point, n: string) returns (path: seq<Point>)
    requires Exec(g, fuel, from.node, from.state) == Failed(UnknownNode(n))
    ensures IsPath(g, path) && path[0] == from && |path| - 1 < fuel
    ensures n != END && n !in g.nodes && path[|path| - 1].node == n
    decreases fuel
  {
    path := [from];
    if from.node in g.nodes {
      var t := Merge(from.state, g.nodes[from.node](from.state).update);
      var rest := UnknownHasPath(g, fuel - 1, At(Next(g, from.node, t).node, t), n);
      ConsPath(g, from, rest);
      path := [from] + rest;
    }
  }

  /** Every error names the node at which the run stopped. */
  lemma ErrorsNameTheirNode(g: GraphDef, fuel: nat, from: Point, error: Error)
    requires Exec(g, fuel, from.node, from.state) == Failed(error)
    ensures exists path, s :: Joins(g, path, from, At(error.node, s)) && |path| - 1 <= fuel
  {
    var path := ExecHasPath(g, fuel, from);
    var last := path[|path| - 1];
    assert last.node == error.node;
    assert Joins(g, path, from, At(error.node, last.state));
  }

  /** Raising max_iterations changes no outcome other than the limit error. */
  lemma {:induction false} MoreFuelSameResult(g: GraphDef, fuel: nat, more: nat, current: string, s: State)
    requires fuel <= more
    requires var r := Exec(g, fuel, current, s); r.Failed? ==> !r.error.Exceeded?
    ensures Exec(g, more, current, s) == Exec(g, fuel, current, s)
    decreases fuel
  {
    if current != END && fuel > 0 && current in g.nodes && g.nodes[current](s).Returns? {
      var t := Merge(s, g.nodes[current](s).update);
      var hop := Next(g, current, t);
      if hop.Goto? {
        MoreFuelSameResult(g, fuel - 1, more - 1, hop.node, t);
      }
    }
  }

  /** Runs only append messages: those of the start are a prefix of those at every later point. */
  lemma {:induction false} MessagesGrow(g: GraphDef, path: seq<Point>)
    requires IsPath(g, path)
    ensures path[0].state.messages <= path[|path| - 1].state.messages
    decreases |path|
  {
    if |path| > 1 {
      TailPath(g, path);
      MessagesGrow(g, path[1..]);
    }
  }

  lemma InitialMessagesArePrefix(g: GraphDef, fuel: nat, current: string, s: State)
    ensures var r := Exec(g, fuel, current, s); r.Done? ==> s.messages <= r.state.messages
  {
    var path := ExecHasPath(g, fuel, At(current, s));
    MessagesGrow(g, path);
  }

  // ---- the builder ----

  /** Nodes that compile checks: the entry point, static targets and path-map targets. */
  ghost predicate Referenced(g: GraphDef, n: string) {
    || g.entry == Some(n)
    || (exists e :: e in g.edges && g.edges[e] == n)
    || (exists c :: c in g.conditional && g.conditional[c].pathMap.Some?
          && exists k :: k in g.conditional[c].pathMap.value && g.conditional[c].pathMap.value[k] == n)
  }

  ghost predicate Compiles(g: GraphDef) {
    g.entry.Some? && forall n :: Referenced(g, n) ==> n == END || n in g.nodes
  }

  predicate AllMapped(g: GraphDef) {
    forall c :: c in g.conditional ==> g.conditional[c].pathMap.Some?
  }

  /** Compiled, with every route by static edge or path map. */
  ghost predicate Closed(g: GraphDef) {
    Compiles(g) && AllMapped(g)
  }

  /** In a compiled graph routed by static edges and path maps alone, no run meets an unknown
      node. */
  lemma {:induction false} NoUnknownNode(g: GraphDef, fuel: nat, current: string, s: State)
    requires Closed(g) && Referenced(g, current)
    ensures var r := Exec(g, fuel, current, s); r.Failed? ==> !r.error.UnknownNode?
    decreases fuel
  {
    if current != END && fuel > 0 && current in g.nodes && g.nodes[current](s).Returns? {
      var t := Merge(s, g.nodes[current](s).update);
      var hop := Next(g, current, t);
      if hop.Goto? && hop.node != END {
        assert Referenced(g, hop.node);
        NoUnknownNode(g, fuel - 1, hop.node, t);
      }
    }
  }

  /** From the entry point of such a graph, with any iteration limit. */
  lemma MappedGraphIsClosed(g: GraphDef, maxIterations: int, s: State)
    requires Closed(g)
    ensures var r := Exec(g, AtLeast(maxIterations, 0), g.entry.value, s);
            r.Failed? ==> !r.error.UnknownNode?
  {
    NoUnknownNode(g, AtLeast(maxIterations, 0), g.entry.value, s);
  }

  // ---- builder calls after compilation ----

  /** A call of one of the builder's methods. */
  datatype Call =
    | NodeCall(name: string, fn: State -> NodeResult)
    | EntryCall(name: string)
    | EdgeCall(source: string, target: string)
    | RouterCall(source: string, router: Router)

  /** The graph after a call; a refused call changes nothing. */
  function Apply(g: GraphDef, call: Call): GraphDef {
    match call
    case NodeCall(name, fn) =>
      if name == START || name == END || name in g.nodes then g else g.(nodes := g.nodes[name := fn])
    case EntryCall(name) => g.(entry := Some(name))
    case EdgeCall(source, target) =>
      if source == START then g.(entry := Some(target))
      else if source in g.conditional then g
      else g.(edges := g.edges[source := target])
    case RouterCall(source, router) =>
      if source in g.edges then g else g.(conditional := g.conditional[source := router])
  }

  function ApplyAll(g: GraphDef, calls: seq<Call>): GraphDef {
    if |calls| == 0 then g else Apply(ApplyAll(g, calls[..|calls| - 1]), calls[|calls| - 1])
  }

  predicate IsTarget(g: GraphDef, n: string) {
    n == END || n in g.nodes
  }

  /** The call is refused, or whatever it routes to is END or a node already. */
  predicate Declared(g: GraphDef, call: Call) {
    match call
    case NodeCall(_, _) => true
    case EntryCall(name) => IsTarget(g, name)
    case EdgeCall(source, target) => (source != START && source in g.conditional) || IsTarget(g, target)
    case RouterCall(source, router) =>
      || source in g.edges
      || (router.pathMap.Some? && forall k :: k in router.pathMap.value ==> IsTarget(g, router.pathMap.value[k]))
  }

  /** A builder call after compilation keeps the graph closed if and only if it declares its
      targets first. */
  lemma CallKeepsClosedIff(g: GraphDef, call: Call)
    requires Closed(g)
    ensures Closed(Apply(g, call)) <==> Declared(g, call)
  {
    var h := Apply(g, call);
    forall n | Referenced(g, n) ensures IsTarget(g, n) {
    }
    match call
    case NodeCall(_, _) =>
      assert forall n :: Referenced(h, n) <==> Referenced(g, n);
    case EntryCall(name) =>
      assert Referenced(h, name);
      assert forall n :: Referenced(h, n) ==> n == name || Referenced(g, n);
    case EdgeCall(source, target) =>
      if source == START || source !in g.conditional {
        assert source != START ==> source in h.edges && h.edges[source] == target;
        assert Referenced(h, target);
        assert forall n :: Referenced(h, n) ==> n == target || Referenced(g, n);
      }
    case RouterCall(source, router) =>
      if source !in g.edges {
        RouterKeepsClosedIff(g, source, router);
      }
  }

  lemma RouterKeepsClosedIff(g: GraphDef, source: string, router: Router)
    requires Closed(g)
    ensures Closed(g.(conditional := g.conditional[source := router]))
            <==> router.pathMap.Some? && forall k :: k in router.pathMap.value ==> IsTarget(g, router.pathMap.value[k])
  {
    var h := g.(conditional := g.conditional[source := router]);
    assert source in h.conditional && h.conditional[source] == router;
    if router.pathMap.Some? {
      forall k | k in router.pathMap.value ensures Referenced(h, router.pathMap.value[k]) {
      }
      forall n | Referenced(h, n) && !Referenced(g, n)
        ensures exists k :: k in router.pathMap.value && router.pathMap.value[k] == n {
      }
      assert AllMapped(h);
    }
  }

  /** After compilation and any further builder calls that declare their targets first, no run
      meets an unknown node. */
  lemma {:induction false} ClosedAfterCalls(g: GraphDef, calls: seq<Call>)
    requires Closed(g)
    requires forall k :: 0 <= k < |calls| ==> Declared(ApplyAll(g, calls[..k]), calls[k])
    ensures Closed(ApplyAll(g, calls))
    decreases |calls|
  {
    if |calls| > 0 {
      var before := calls[..|calls| - 1];
      forall k | 0 <= k < |before| ensures Declared(ApplyAll(g, before[..k]), before[k]) {
        assert before[..k] == calls[..k];
      }
      ClosedAfterCalls(g, before);
      CallKeepsClosedIff(ApplyAll(g, before), calls[|calls| - 1]);
    }
  }

  /** A compiled graph is not immutable: pointing an edge of its entry node at a name that is no
      node makes every run that leaves the entry node fail, where none met an unknown node
      before. */
  lemma LateEdgeMeetsUnknown(g: GraphDef, target: string, maxIterations: int, s: State)
    requires Closed(g) && g.entry.value in g.nodes && g.entry.value != END && g.entry.value != START
    requires g.entry.value !in g.conditional && g.nodes[g.entry.value](s).Returns?
    requires !IsTarget(g, target) && maxIterations >= 2
    ensures var before := Exec(g, AtLeast(maxIterations, 0), g.entry.value, s);
            before.Failed? ==> !before.error.UnknownNode?
    ensures var after := Apply(g, EdgeCall(g.entry.value, target));
            Exec(after, AtLeast(maxIterations, 0), g.entry.value, s) == Failed(UnknownNode(target))
  {
    MappedGraphIsClosed(g, maxIterations, s);
    var entry, after := g.entry.value, Apply(g, EdgeCall(g.entry.value, target));
    var t := Merge(s, g.nodes[entry](s).update);
    assert Next(after, entry, t) == Goto(target);
    assert Exec(after, AtLeast(maxIterations, 0) - 1, target, t) == Failed(UnknownNode(target));
  }

  function Echo(s: State): NodeResult {
    Returns(Unchanged)
  }

  /** Such a graph exists: one node, compiled, then given an edge to "b". */
  lemma LateEdgeExample(s: State)
    ensures var g := GraphDef(map["a" := Echo], map[], map[], Some("a"));
            && Closed(g)
            && Exec(g, 25, "a", s) == Done(s)
            && Exec(Apply(g, EdgeCall("a", "b")), 25, "a", s) == Failed(UnknownNode("b"))
  {
    var g := GraphDef(map["a" := Echo], map[], map[], Some("a"));
    assert forall n :: Referenced(g, n) ==> n == "a";
    assert "b" !in g.nodes && !IsTarget(g, "b");
    LateEdgeMeetsUnknown(g, "b", 25, s);
    assert Next(g, "a", s) == Goto(END);
  }

  /** An executable graph. It keeps a reference to its builder, and each run reads the builder's
      current fields. */
  class CompiledGraph {
    const graph: Builder
    const maxIterations: int

    constructor (graph: Builder, maxIterations: int)
      ensures this.graph == graph && this.maxIterations == maxIterations
    {
      this.graph := graph;
      this.maxIterations := maxIterations;
    }

    method Ainvoke(initial: State) returns (result: Result)
      requires graph.entry.Some?
      ensures result == Exec(graph.View(), AtLeast(maxIterations, 0), graph.entry.value, initial)
      ensures Closed(graph.View()) && result.Failed? ==> !result.error.UnknownNode?
    {
      var state, current := initial, graph.entry.value;
      var iteration := 0;
      if Closed(graph.View()) {
        MappedGraphIsClosed(graph.View(), maxIterations, initial);
      }
      while iteration < maxIterations
        invariant 0 <= iteration <= AtLeast(maxIterations, 0)
        invariant Exec(graph.View(), AtLeast(maxIterations, 0) - iteration, current, state)
               == Exec(graph.View(), AtLeast(maxIterations, 0), graph.entry.value, initial)
      {
        if current == END {
          return Done(state);
        }
        if current !in graph.nodes {
          return Failed(UnknownNode(current));
        }
        var outcome := graph.nodes[current](state);
        if outcome.Raises? {
          return Failed(NodeRaised(current));
        }
        state := Merge(state, outcome.update);
        var hop := Next(graph.View(), current, state);
        if hop.NoRoute? {
          return Failed(hop.error);
        }
        current := hop.node;
        iteration := iteration + 1;
      }
      if current == END {
        return Done(state);
      }
      return Failed(Exceeded(current));
    }
  }

  class Builder {
    var nodes: map<string, State -> NodeResult>
    var edges: map<string, string>
    var conditional: map<string, Router>
    var entry: Option<string>

    function View(): GraphDef
      reads this
    {
      GraphDef(nodes, edges, conditional, entry)
    }

    /** Reserved names are no nodes, and no source has both kinds of edge. */
    predicate Valid()
      reads this
    {
      START !in nodes && END !in nodes && edges.Keys !! conditional.Keys
    }

    constructor ()
      ensures Valid() && View() == GraphDef(map[], map[], map[], None)
    {
      nodes, edges, conditional, entry := map[], map[], map[], None;
    }

    /** False is the GraphError. */
    method AddNode(name: string, fn: State -> NodeResult) returns (ok: bool)
      requires Valid()
      modifies this
      ensures Valid()
      ensures ok <==> name != START && name != END && name !in old(nodes)
      ensures View() == if ok then old(View()).(nodes := old(nodes)[name := fn]) else old(View())
      ensures View() == Apply(old(View()), NodeCall(name, fn))
    {
      if name == START || name == END || name in nodes {
        return false;
      }
      nodes := nodes[name := fn];
      return true;
    }

    method SetEntryPoint(name: string)
      requires Valid()
      modifies this
      ensures Valid() && View() == old(View()).(entry := Some(name))
      ensures View() == Apply(old(View()), EntryCall(name))
    {
      entry := Some(name);
    }

    method AddEdge(source: string, target: string) returns (ok: bool)
      requires Valid()
      modifies this
      ensures Valid()
      ensures ok <==> source == START || source !in old(conditional)
      ensures View() == if source == START then old(View()).(entry := Some(target))
                        else if ok then old(View()).(edges := old(edges)[source := target])
                        else old(View())
      ensures View() == Apply(old(View()), EdgeCall(source, target))
    {
      if source == START {
        SetEntryPoint(target);
        return true;
      }
      if source in conditional {
        return false;
      }
      edges := edges[source := target];
      return true;
    }

    method AddConditionalEdges(source: string, router: Router) returns (ok: bool)
      requires Valid()
      modifies this
      ensures Valid()
      ensures ok <==> source !in old(edges)
      ensures View() == if ok then old(View()).(conditional := old(conditional)[source := router]) else old(View())
      ensures View() == Apply(old(View()), RouterCall(source, router))
    {
      if source in edges {
        return false;
      }
      conditional := conditional[source := router];
      return true;
    }

    /** None stands for the GraphError. */
    method Compile(maxIterations: int) returns (compiled: Option<CompiledGraph>)
      requires Valid()
      ensures compiled.Some? <==> Compiles(View())
      ensures compiled.Some? ==>
                fresh(compiled.value) && compiled.value.graph == this && compiled.value.maxIterations == maxIterations
    {
      var g := View();
      if entry.None? {
        return None;
      }
      var referenced := {entry.value} + (set e | e in edges :: edges[e])
                        + (set c, k | c in conditional && conditional[c].pathMap.Some?
                                      && k in conditional[c].pathMap.value :: conditional[c].pathMap.value[k]);
      assert forall n :: n in referenced <==> Referenced(g, n);
      var unknown := set n | n in referenced && n != END && n !in nodes;
      if unknown != {} {
        ghost var n :| n in unknown;
        return None;
      }
      forall n | Referenced(g, n) ensures n == END || n in nodes {
        assert n !in unknown;
      }
      var graph := new CompiledGraph(this, maxIterations);
      return Some(graph);
    }
  }
}
