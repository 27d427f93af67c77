/** When no run of a graph can meet an unknown node, read off its names alone: nodes, edges, path maps
    and entry point, whatever the node functions and routers of omniai/graph/graph.py do. */
module Routing {
  import opened Options
  import opened Fresh
  import opened Graph

  /** The same names; what nodes and routers compute may differ. */
  ghost predicate SameShape(g: GraphDef, h: GraphDef) {
    && h.nodes.Keys == g.nodes.Keys && h.edges == g.edges && h.entry == g.entry
    && h.conditional.Keys == g.conditional.Keys
    && forall c :: c in g.conditional ==> h.conditional[c].pathMap == g.conditional[c].pathMap
  }

  /** Routing from a may name b: a value of the path map, any name at a router without one, the
      target of the static edge, or END. */
  ghost predicate Leads(g: GraphDef, a: string, b: string) {
    if a in g.conditional then
      var pathMap := g.conditional[a].pathMap;
      pathMap.None? || exists k :: k in pathMap.value && pathMap.value[k] == b
    else if a in g.edges then b == g.edges[a]
    else b == END
  }

  /** Names that a run from the entry point may visit one after the other. */
  ghost predicate IsNamePath(g: GraphDef, names: seq<string>) {
    && names != [] && g.entry == Some(names[0])
    && forall i :: 0 <= i < |names| - 1 ==>
         names[i] in g.nodes && names[i] != END && Leads(g, names[i], names[i + 1])
  }

  ghost predicate PathsEndKnown(g: GraphDef) {
    forall names :: IsNamePath(g, names) ==> IsTarget(g, names[|names| - 1])
  }

  predicate MeetsUnknown(r: Result) {
    r.Failed? && r.error.UnknownNode?
  }

  /** No run of any graph of this shape, from any state and with any limit, meets an unknown node. */
  ghost predicate NeverUnknown(g: GraphDef)
    requires g.entry.Some?
  {
    forall h: GraphDef, fuel: nat, s: State :: SameShape(g, h) ==> !MeetsUnknown(Exec(h, fuel, g.entry.value, s))
  }

  // ---- runs follow name paths ----

  lemma StepLeads(g: GraphDef, h: GraphDef, a: Point, b: Point)
    requires SameShape(g, h) && StepsTo(h, a, b)
    ensures a.node in g.nodes && a.node != END && Leads(g, a.node, b.node)
  {
    assert a.node in h.nodes.Keys;
    if a.node in g.conditional {
      assert a.node in h.conditional.Keys;
    } else {
      assert a.node !in h.conditional.Keys;
    }
  }

  /** A run that meets an unknown node has gone along a name path to it. */
  lemma RunHasNamePath(g: GraphDef, h: GraphDef, fuel: nat, s: State, n: string) returns (names: seq<string>)
    requires g.entry.Some? && SameShape(g, h) && Exec(h, fuel, g.entry.value, s) == Failed(UnknownNode(n))
    ensures IsNamePath(g, names) && names[|names| - 1] == n && !IsTarget(g, n)
  {
    var path := UnknownHasPath(h, fuel, At(g.entry.value, s), n);
    names := seq(|path|, i requires 0 <= i < |path| => path[i].node);
    forall i | 0 <= i < |names| - 1
      ensures names[i] in g.nodes && names[i] != END && Leads(g, names[i], names[i + 1])
    {
      StepLeads(g, h, path[i], path[i + 1]);
    }
    assert n !in h.nodes.Keys;
  }

  lemma KnownPathsAreSafe(g: GraphDef, h: GraphDef, fuel: nat, s: State)
    requires g.entry.Some? && PathsEndKnown(g) && SameShape(g, h)
    ensures !MeetsUnknown(Exec(h, fuel, g.entry.value, s))
  {
    var r := Exec(h, fuel, g.entry.value, s);
    if MeetsUnknown(r) {
      var names := RunHasNamePath(g, h, fuel, s, r.error.node);
    }
  }

  // ---- name paths are followed by runs ----

  const COUNT := "count"

  function Count(s: State): int {
    if COUNT in s.fields then s.fields[COUNT] else 0
  }

  /** A node that counts the node runs. */
  function Tick(s: State): NodeResult {
    Returns(Update([], map[COUNT := Count(s) + 1]))
  }

  /** A router that answers the n-th key after n node runs. */
  function Follow(keys: seq<string>): State -> Option<string> {
    (s: State) => if 0 <= Count(s) < |keys| then Some(keys[Count(s)]) else None
  }

  /** A graph of the same shape that goes where the keys say. */
  function Puppet(g: GraphDef, keys: seq<string>): GraphDef {
    GraphDef(map n | n in g.nodes :: Tick,
             g.edges,
             map c | c in g.conditional :: Router(Follow(keys), g.conditional[c].pathMap),
             g.entry)
  }

  /** The router at a, if there is one, turns the key into b. */
  predicate Chooses(g: GraphDef, a: string, key: string, b: string) {
    a in g.conditional ==>
      var pathMap := g.conditional[a].pathMap;
      if pathMap.None? then key == b else key in pathMap.value && pathMap.value[key] == b
  }

  lemma {:induction false} KeysAlong(g: GraphDef, names: seq<string>) returns (keys: seq<string>)
    requires IsNamePath(g, names)
    ensures |keys| == |names|
    ensures forall i :: 0 < i < |names| ==> Chooses(g, names[i - 1], keys[i], names[i])
    decreases |names|
  {
    var n := |names| - 1;
    if n == 0 {
      return names;
    }
    var before := names[..n];
    assert IsNamePath(g, before);
    keys := KeysAlong(g, before);
    assert Leads(g, names[n - 1], names[n]);
    var key := names[n];
    if names[n - 1] in g.conditional && g.conditional[names[n - 1]].pathMap.Some? {
      var pathMap := g.conditional[names[n - 1]].pathMap.value;
      key :| key in pathMap && pathMap[key] == names[n];
    }
    keys := keys + [key];
  }

  lemma PuppetStep(g: GraphDef, keys: seq<string>, a: string, b: string, s: State)
    requires Leads(g, a, b)
    requires 0 <= Count(s) + 1 < |keys| && Chooses(g, a, keys[Count(s) + 1], b)
    ensures var t := Merge(s, Tick(s).update);
            Count(t) == Count(s) + 1 && Next(Puppet(g, keys), a, t) == Goto(b)
  {
  }

  /** The puppet runs along a path that ends at an unknown name, and fails there. */
  lemma {:induction false} PuppetFollows(g: GraphDef, names: seq<string>, keys: seq<string>, i: nat, s: State)
    requires IsNamePath(g, names) && |keys| == |names| && i < |names| && Count(s) == i
    requires forall j :: 0 < j < |names| ==> Chooses(g, names[j - 1], keys[j], names[j])
    requires !IsTarget(g, names[|names| - 1])
    ensures Exec(Puppet(g, keys), |names| - i, names[i], s) == Failed(UnknownNode(names[|names| - 1]))
    decreases |names| - i
  {
    if i < |names| - 1 {
      assert names[i] in g.nodes && names[i] != END && Leads(g, names[i], names[i + 1]);
      assert Chooses(g, names[i + 1 - 1], keys[i + 1], names[i + 1]);
      PuppetStep(g, keys, names[i], names[i + 1], s);
      assert Puppet(g, keys).nodes[names[i]](s) == Tick(s);
      PuppetFollows(g, names, keys, i + 1, Merge(s, Tick(s).update));
    }
  }

  /** No run of any graph of this shape meets an unknown node if and only if every name path from the
      entry point ends at END or at a node. */
  lemma RunsKnownIff(g: GraphDef)
    requires g.entry.Some?
    ensures NeverUnknown(g) <==> PathsEndKnown(g)
  {
    if PathsEndKnown(g) {
      forall h: GraphDef, fuel: nat, s: State | SameShape(g, h)
        ensures !MeetsUnknown(Exec(h, fuel, g.entry.value, s))
      {
        KnownPathsAreSafe(g, h, fuel, s);
      }
    } else {
      var names :| IsNamePath(g, names) && !IsTarget(g, names[|names| - 1]);
      var keys := KeysAlong(g, names);
      PuppetFollows(g, names, keys, 0, State([], map[]));
      PuppetHasShape(g, keys);
      assert MeetsUnknown(Exec(Puppet(g, keys), |names|, g.entry.value, State([], map[])));
    }
  }

  lemma PuppetHasShape(g: GraphDef, keys: seq<string>)
    ensures SameShape(g, Puppet(g, keys))
  {
  }

  // ---- builder calls after compilation ----

  /** Some run may leave the node: it is visited, and not as END. */
  ghost predicate Departs(g: GraphDef, source: string) {
    && source in g.nodes && source != END
    && exists names :: IsNamePath(g, names) && names[|names| - 1] == source
  }

  /** The call concerns the entry point, or the routes of a node that some run may leave. */
  ghost predicate Matters(g: GraphDef, call: Call) {
    match call
    case NodeCall(_, _) => true
    case EntryCall(_) => true
    case EdgeCall(source, _) => source == START || Departs(g, source)
    case RouterCall(source, _) => Departs(g, source)
  }

  lemma {:induction false} ClosedPathsEndKnown(g: GraphDef, names: seq<string>)
    requires Closed(g) && IsNamePath(g, names)
    ensures IsTarget(g, names[|names| - 1])
  {
    var n := |names| - 1;
    if n == 0 {
      assert Referenced(g, names[0]);
    } else {
      assert Leads(g, names[n - 1], names[n]);
      assert names[n] == END || Referenced(g, names[n]);
    }
  }

  /** A path to the first visit of its last name. */
  lemma {:induction false} FirstVisit(g: GraphDef, names: seq<string>) returns (first: seq<string>)
    requires IsNamePath(g, names)
    ensures IsNamePath(g, first) && first[|first| - 1] == names[|names| - 1]
    ensures forall i :: 0 <= i < |first| - 1 ==> first[i] != names[|names| - 1]
    decreases |names|
  {
    var last := names[|names| - 1];
    if i :| 0 <= i < |names| - 1 && names[i] == last {
      assert IsNamePath(g, names[..i + 1]);
      first := FirstVisit(g, names[..i + 1]);
    } else {
      first := names;
    }
  }

  /** The graphs differ at most in how they route from `source`. */
  ghost predicate SameButAt(g: GraphDef, h: GraphDef, source: string) {
    && h.nodes == g.nodes && h.entry == g.entry
    && forall a, b :: a != source ==> (Leads(h, a, b) <==> Leads(g, a, b))
  }

  /** New routes from a node that no run leaves open no new path. */
  lemma {:induction false} SamePaths(g: GraphDef, h: GraphDef, source: string, names: seq<string>)
    requires SameButAt(g, h, source) && !Departs(g, source) && IsNamePath(h, names)
    ensures IsNamePath(g, names)
    decreases |names|
  {
    var n := |names| - 1;
    if n > 0 {
      var before := names[..n];
      assert IsNamePath(h, before);
      SamePaths(g, h, source, before);
      assert before[n - 1] == names[n - 1];
      assert names[n - 1] in g.nodes && names[n - 1] != END;
      assert names[n - 1] != source;
      assert Leads(h, names[n - 1], names[n]);
    }
  }

  /** A new route from a node that some run leaves is a new path. */
  lemma NewPath(g: GraphDef, h: GraphDef, source: string, target: string)
    requires SameButAt(g, h, source) && Departs(g, source) && Leads(h, source, target)
    ensures exists names :: IsNamePath(h, names) && names[|names| - 1] == target
  {
    var names :| IsNamePath(g, names) && names[|names| - 1] == source;
    var first := FirstVisit(g, names);
    var all, n := first + [target], |first| - 1;
    forall i | 0 <= i < |all| - 1 ensures all[i] in h.nodes && all[i] != END && Leads(h, all[i], all[i + 1]) {
      if i < n {
        assert Leads(g, first[i], first[i + 1]);
      }
    }
    assert IsNamePath(h, all) && all[|all| - 1] == target;
  }

  /** A call that is not refused and routes to an undeclared name leaves no run in danger if and only
      if it does not matter. */
  lemma UndeclaredIsSafeIff(g: GraphDef, call: Call)
    requires Closed(g) && !Declared(g, call)
    ensures PathsEndKnown(Apply(g, call)) <==> !Matters(g, call)
  {
    var h := Apply(g, call);
    match call
    case NodeCall(_, _) =>
    case EntryCall(name) =>
      assert IsNamePath(h, [name]);
    case EdgeCall(source, target) =>
      if source == START {
        assert IsNamePath(h, [target]);
      } else {
        assert SameButAt(g, h, source) && Leads(h, source, target);
        NewRouteIsSafeIff(g, h, source, target);
      }
    case RouterCall(source, router) =>
      assert SameButAt(g, h, source) && h.conditional[source] == router;
      if router.pathMap.Some? {
        var k :| k in router.pathMap.value && !IsTarget(g, router.pathMap.value[k]);
        NewRouteIsSafeIff(g, h, source, router.pathMap.value[k]);
      } else {
        var unknown := FreshName(g.nodes.Keys + {END});
        NewRouteIsSafeIff(g, h, source, unknown);
      }
  }

  lemma NewRouteIsSafeIff(g: GraphDef, h: GraphDef, source: string, target: string)
    requires Closed(g) && SameButAt(g, h, source) && Leads(h, source, target) && !IsTarget(g, target)
    ensures PathsEndKnown(h) <==> !Departs(g, source)
  {
    if Departs(g, source) {
      NewPath(g, h, source, target);
    } else {
      forall names | IsNamePath(h, names) ensures IsTarget(h, names[|names| - 1]) {
        SamePaths(g, h, source, names);
        ClosedPathsEndKnown(g, names);
      }
    }
  }

  /** A builder call on a closed graph keeps every run, whatever nodes and routers do, from meeting an
      unknown node if and only if it declares its targets first, is refused, or only reroutes a node
      that no run leaves. */
  lemma CallKeepsRunsKnownIff(g: GraphDef, call: Call)
    requires Closed(g)
    ensures Apply(g, call).entry.Some?
    ensures NeverUnknown(Apply(g, call)) <==> Declared(g, call) || !Matters(g, call)
  {
    var h := Apply(g, call);
    RunsKnownIff(h);
    if Declared(g, call) {
      CallKeepsClosedIff(g, call);
      forall names | IsNamePath(h, names) ensures IsTarget(h, names[|names| - 1]) {
        ClosedPathsEndKnown(h, names);
      }
    } else {
      UndeclaredIsSafeIff(g, call);
    }
  }
}
