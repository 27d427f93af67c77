/** The LoRA lifecycle of ModelEngine (omniai/engine/engine.py) over the registry, next to the
    set of adapters the serving backend really holds. Each POST to the backend is an outcome
    chosen by the environment. */
module Engine {
  import opened Numbers
  import opened Options
  import opened LoraRegistry

  /** A POST takes effect and succeeds; fails without effect; or takes effect while its reply is
      lost, so that the caller sees a failure. */
  datatype Post = Ok | Refused | LostReply

  /** `server` is what the backend holds, `file` the registry's persisted copy. */
  datatype Eng = Eng(reg: Registry, server: set<string>, file: Option<Registry>)

  datatype Config = Config(maxLoras: int, persists: bool)

  const FRESH := Eng(EMPTY, {}, None)

  function Save(c: Config, e: Eng, reg: Registry): Eng {
    e.(reg := reg, file := if c.persists then Some(reg) else e.file)
  }

  /** The backend after a POST that adds or removes an adapter. */
  function Posted(server: set<string>, post: Post, effect: set<string>): set<string> {
    if post == Refused then server else effect
  }

  /** unload_lora_adapter; false when it raises. */
  function Unload(c: Config, e: Eng, name: string, post: Post): (Eng, bool) {
    var posted := e.(server := Posted(e.server, post, e.server - {name}));
    if post == Ok then (Save(c, posted, RemoveAdapter(posted.reg, name)), true) else (posted, false)
  }

  /** The eviction that precedes a load; false when it raises. */
  function MakeRoom(c: Config, e: Eng, post: Post): (Eng, bool) {
    match EvictionCandidate(e.reg, c.maxLoras)
    case None => (e, true)
    case Some(victim) => Unload(c, e, victim, post)
  }

  /** load_lora_adapter; false when it raises. */
  function Load(c: Config, e: Eng, record: AdapterRecord, activate: bool, evict: Post, load: Post): (Eng, bool) {
    var (room, ok) := MakeRoom(c, e, evict);
    if !ok then (room, false)
    else
      var posted := room.(server := Posted(room.server, load, room.server + {record.name}));
      if load != Ok then (posted, false)
      else
        var registered := Register(posted.reg, record);
        (Save(c, posted, if activate then Activate(registered, record.name) else registered), true)
  }

  /** activate_lora; false is the KeyError of an adapter that is not loaded. */
  function ActivateLora(c: Config, e: Eng, name: string): (Eng, bool) {
    if name in Names(e.reg.loaded) then (Save(c, e, Activate(e.reg, name)), true) else (e, false)
  }

  /** rollback_lora; false when reactivating the target raises. */
  function Rollback(c: Config, e: Eng): (Eng, bool) {
    match e.reg.previous
    case None => (Save(c, e, Deactivate(e.reg)), true)
    case Some(target) => ActivateLora(c, e, target)
  }

  /** The class with its registry object; the backend is ghost state. */
  class ModelEngine {
    const config: Config
    const lora: LoRARegistry
    ghost var server: set<string>

    ghost function View(): Eng
      reads this, lora
    {
      Eng(lora.View(), server, lora.file)
    }

    ghost predicate Valid() {
      lora.persists == config.persists
    }

    constructor (config: Config, lora: LoRARegistry)
      requires lora.persists == config.persists
      ensures Valid() && this.config == config && this.lora == lora
      ensures View() == Eng(lora.View(), {}, lora.file)
    {
      this.config := config;
      this.lora := lora;
      server := {};
    }

    method UnloadLoraAdapter(name: string, post: Post) returns (ok: bool)
      requires Valid()
      modifies this, lora
      ensures (View(), ok) == Unload(config, old(View()), name, post)
    {
      server := Posted(server, post, server - {name});
      if post != Ok {
        return false;
      }
      lora.Remove(name);
      return true;
    }

    method LoadLoraAdapter(name: string, path: string, activate: bool, now: real, evict: Post, load: Post)
      returns (ok: bool)
      requires Valid()
      modifies this, lora
      ensures (View(), ok) == Load(config, old(View()), AdapterRecord(name, path, now), activate, evict, load)
    {
      var victim := EvictionCandidate(lora.View(), config.maxLoras);
      if victim.Some? {
        ok := UnloadLoraAdapter(victim.value, evict);
        if !ok {
          return;
        }
      }
      server := Posted(server, load, server + {name});
      if load != Ok {
        return false;
      }
      ghost var was := lora.loaded;
      lora.RegisterAdapter(name, path, now);
      if activate {
        PutHasName(was, AdapterRecord(name, path, now));
        ok := lora.ActivateAdapter(name);
      }
      return true;
    }

    method ActivateLoraAdapter(name: string) returns (ok: bool)
      requires Valid()
      modifies this, lora
      ensures (View(), ok) == ActivateLora(config, old(View()), name)
    {
      ok := lora.ActivateAdapter(name);
    }

    method RollbackLora() returns (ok: bool, now: Option<string>)
      requires Valid()
      modifies this, lora
      ensures (View(), ok) == Rollback(config, old(View()))
      ensures now == old(lora.previous)
    {
      now := lora.previous;
      if now.None? {
        lora.DeactivateAdapter();
        return true, None;
      }
      ok := lora.ActivateAdapter(now.value);
    }
  }

  lemma {:induction false} PutHasName(loaded: seq<AdapterRecord>, record: AdapterRecord)
    ensures record.name in Names(Put(loaded, record))
  {
    var after := Put(loaded, record);
    if loaded == [] || loaded[0].name == record.name {
      assert after[0].name == record.name;
    } else {
      PutHasName(loaded[1..], record);
      TailNames(after);
      assert after[1..] == Put(loaded[1..], record);
    }
  }

  // ---- runs of lifecycle operations ----

  datatype Op =
    | LoadOp(record: AdapterRecord, activate: bool, evict: Post, load: Post)
    | ActivateOp(name: string)
    | RollbackOp
    | UnloadOp(name: string, post: Post)

  function Step(c: Config, e: Eng, op: Op): Eng {
    match op
    case LoadOp(record, activate, evict, load) => Load(c, e, record, activate, evict, load).0
    case ActivateOp(name) => ActivateLora(c, e, name).0
    case RollbackOp => Rollback(c, e).0
    case UnloadOp(name, post) => Unload(c, e, name, post).0
  }

  function Run(c: Config, e: Eng, ops: seq<Op>): Eng {
    if ops == [] then e else Step(c, Run(c, e, ops[..|ops| - 1]), ops[|ops| - 1])
  }

  /** A name that is None or loaded. */
  predicate IsLive(r: Registry, name: Option<string>) {
    name.Some? ==> name.value in Names(r.loaded)
  }

  ghost predicate Safe(r: Registry) {
    && Distinct(r.loaded)
    && IsLive(r, r.active)
    && IsLive(r, r.previous)
    && (r.active == r.previous ==> r.active == None)
  }

  ghost predicate Inv(c: Config, e: Eng) {
    && Safe(e.reg)
    && |e.reg.loaded| <= Max(c.maxLoras, 3)
    && (c.persists ==> e.file == Some(e.reg) || (e.file == None && e.reg == EMPTY))
    && (!c.persists ==> e.file == None)
  }

  lemma RemoveKeepsSafe(r: Registry, name: string)
    requires Safe(r)
    ensures Safe(RemoveAdapter(r, name))
    ensures Names(RemoveAdapter(r, name).loaded) == Names(r.loaded) - {name}
    ensures |RemoveAdapter(r, name).loaded| == |r.loaded| - (if name in Names(r.loaded) then 1 else 0)
  {
    WithoutNames(r.loaded, name);
  }

  lemma RegisterKeepsSafe(r: Registry, record: AdapterRecord)
    requires Safe(r)
    ensures var s := Register(r, record);
            Safe(s) && Safe(Activate(s, record.name)) && Names(s.loaded) == Names(r.loaded) + {record.name}
            && |s.loaded| <= |r.loaded| + 1
  {
    PutNames(r.loaded, record);
  }

  /** When every loaded adapter is active or the rollback target, there are at most two. */
  lemma AllProtectedMeansFew(r: Registry)
    requires Distinct(r.loaded)
    requires forall i :: 0 <= i < |r.loaded| ==> Protected(r, r.loaded[i].name)
    ensures |r.loaded| <= 2
  {
    assert |r.loaded| > 2 ==>
        Protected(r, r.loaded[0].name) && Protected(r, r.loaded[1].name) && Protected(r, r.loaded[2].name);
  }

  /** Making room keeps the active adapter and the rollback target, and leaves a slot within
      max(maxLoras, 3). */
  lemma MakeRoomIsSafe(c: Config, e: Eng, post: Post)
    requires Inv(c, e)
    ensures var (room, ok) := MakeRoom(c, e, post);
            && Inv(c, room)
            && room.reg.active == e.reg.active && room.reg.previous == e.reg.previous
            && (ok ==> |room.reg.loaded| + 1 <= Max(c.maxLoras, 3))
            && (!ok ==> room.reg == e.reg)
  {
    match EvictionCandidate(e.reg, c.maxLoras)
    case None =>
      if |e.reg.loaded| >= c.maxLoras {
        AllProtectedMeansFew(e.reg);
      }
    case Some(victim) =>
      RemoveKeepsSafe(e.reg, victim);
  }

  lemma LoadIsSafe(c: Config, e: Eng, record: AdapterRecord, activate: bool, evict: Post, load: Post)
    requires Inv(c, e)
    ensures var (after, ok) := Load(c, e, record, activate, evict, load);
            && Inv(c, after)
            && (!(ok && activate) ==> after.reg.active == e.reg.active && after.reg.previous == e.reg.previous)
            && (ok ==> record.name in Names(after.reg.loaded))
            && (ok && activate ==> after.reg.active == Some(record.name))
  {
    MakeRoomIsSafe(c, e, evict);
    var (room, ok) := MakeRoom(c, e, evict);
    RegisterKeepsSafe(room.reg, record);
  }

  /** What a completed load means: the adapter is loaded with the given path and time, at most the
      eviction candidate is gone, every other adapter keeps its record, and, when it is activated,
      the adapter that was active becomes the rollback target. */
  lemma LoadMeans(c: Config, e: Eng, record: AdapterRecord, activate: bool, evict: Post, name: string)
    requires Inv(c, e) && Load(c, e, record, activate, evict, Ok).1
    ensures var before, after := e.reg, Load(c, e, record, activate, evict, Ok).0.reg;
            var victim := EvictionCandidate(before, c.maxLoras);
            && (name in Names(after.loaded)
                <==> name == record.name || (name in Names(before.loaded) && victim != Some(name)))
            && (name == record.name ==> Lookup(after.loaded, name) == record)
            && (name in Names(after.loaded) && name != record.name ==>
                  Lookup(after.loaded, name) == Lookup(before.loaded, name))
            && (activate ==> after.active == Some(record.name))
            && (activate ==>
                  after.previous == if before.active == Some(record.name) then before.previous else before.active)
            && (!activate ==> after.active == before.active && after.previous == before.previous)
  {
    MakeRoomIsSafe(c, e, evict);
    var room := MakeRoom(c, e, evict).0.reg;
    PutNames(room.loaded, record);
    if EvictionCandidate(e.reg, c.maxLoras).Some? {
      RemoveKeepsSafe(e.reg, EvictionCandidate(e.reg, c.maxLoras).value);
    }
    if name in Names(Put(room.loaded, record)) {
      PutLookup(room.loaded, record, name);
      if name != record.name && EvictionCandidate(e.reg, c.maxLoras).Some? {
        WithoutLookup(e.reg.loaded, EvictionCandidate(e.reg, c.maxLoras).value, name);
      }
    }
  }

  function PathOf(r: Registry, name: string): string {
    if name in Names(r.loaded) then Lookup(r.loaded, name).path else ""
  }

  lemma RemoveKeepsPath(r: Registry, gone: string, name: string)
    requires Safe(r) && name in Names(RemoveAdapter(r, gone).loaded)
    ensures name in Names(r.loaded) && PathOf(RemoveAdapter(r, gone), name) == PathOf(r, name)
  {
    WithoutLookup(r.loaded, gone, name);
  }

  /** What an unload means: when its POST succeeds the adapter is gone and every other one keeps its
      record and, if it is active or the rollback target, its place; otherwise nothing changes. */
  lemma UnloadMeans(c: Config, e: Eng, name: string, post: Post, other: string)
    requires Inv(c, e)
    ensures var before := e.reg;
            var (after, ok) := Unload(c, e, name, post);
            && (ok <==> post == Ok)
            && (!ok ==> after.reg == before)
            && (ok ==> (other in Names(after.reg.loaded) <==> other in Names(before.loaded) && other != name))
            && (other in Names(after.reg.loaded) ==> Lookup(after.reg.loaded, other) == Lookup(before.loaded, other))
            && (ok ==> after.reg.active == if before.active == Some(name) then None else before.active)
            && (ok ==> after.reg.previous == if before.previous == Some(name) then None else before.previous)
  {
    RemoveKeepsSafe(e.reg, name);
    if other in Names(RemoveAdapter(e.reg, name).loaded) {
      WithoutLookup(e.reg.loaded, name, other);
    }
  }

  /** A load changes the path of its own name only, and only when it succeeds. */
  lemma LoadKeepsPath(c: Config, e: Eng, record: AdapterRecord, activate: bool, evict: Post, load: Post, name: string)
    requires Inv(c, e)
    ensures var (after, ok) := Load(c, e, record, activate, evict, load);
            && (ok && name == record.name ==> PathOf(after.reg, name) == record.path)
            && (name in Names(after.reg.loaded) && !(ok && name == record.name) ==>
                  name in Names(e.reg.loaded) && PathOf(after.reg, name) == PathOf(e.reg, name))
  {
    var room := MakeRoom(c, e, evict).0.reg;
    MakeRoomIsSafe(c, e, evict);
    MakeRoomKeepsPath(c, e, evict, name);
    PutNames(room.loaded, record);
    if name in Names(Put(room.loaded, record)) {
      PutLookup(room.loaded, record, name);
    }
  }

  lemma MakeRoomKeepsPath(c: Config, e: Eng, evict: Post, name: string)
    requires Inv(c, e)
    ensures var room := MakeRoom(c, e, evict).0.reg;
            name in Names(room.loaded) ==> name in Names(e.reg.loaded) && PathOf(room, name) == PathOf(e.reg, name)
  {
    match EvictionCandidate(e.reg, c.maxLoras)
    case None =>
    case Some(victim) =>
      if name in Names(RemoveAdapter(e.reg, victim).loaded) {
        RemoveKeepsPath(e.reg, victim, name);
      }
  }

  lemma StepKeepsInv(c: Config, e: Eng, op: Op)
    requires Inv(c, e)
    ensures Inv(c, Step(c, e, op))
  {
    match op
    case LoadOp(record, activate, evict, load) => LoadIsSafe(c, e, record, activate, evict, load);
    case ActivateOp(name) =>
    case RollbackOp =>
    case UnloadOp(name, post) => RemoveKeepsSafe(e.reg, name);
  }

  /** Over every sequence of loads (active or shadow), activations, rollbacks and unloads, each
      POST succeeding, failing or losing its reply: active and previous are None or loaded, they
      differ unless both are None, and at most max(maxLoras, 3) adapters are loaded. */
  lemma {:induction false} LifecycleIsSafe(c: Config, ops: seq<Op>)
    ensures Inv(c, Run(c, FRESH, ops))
    decreases |ops|
  {
    if ops != [] {
      LifecycleIsSafe(c, ops[..|ops| - 1]);
      StepKeepsInv(c, Run(c, FRESH, ops[..|ops| - 1]), ops[|ops| - 1]);
    }
  }

  function LoadOk(name: string): Op {
    LoadOp(AdapterRecord(name, "", 0.0), true, Ok, Ok)
  }

  lemma RunOne(c: Config, e: Eng, ops: seq<Op>, op: Op)
    ensures Run(c, e, ops + [op]) == Step(c, Run(c, e, ops), op)
  {
    assert (ops + [op])[..|ops|] == ops;
  }

  /** The slot cap itself is respected by every run if and only if it is at least 3: three plain
      loads are enough to exceed a smaller one. */
  lemma SlotCapHoldsIff(c: Config)
    ensures (forall ops :: |Run(c, FRESH, ops).reg.loaded| <= c.maxLoras) <==> c.maxLoras >= 3
  {
    if c.maxLoras >= 3 {
      forall ops ensures |Run(c, FRESH, ops).reg.loaded| <= c.maxLoras {
        LifecycleIsSafe(c, ops);
      }
    } else {
      ThreeLoads(c);
      var ops := [LoadOk("a")] + [LoadOk("b")] + [LoadOk("c")];
      assert |Run(c, FRESH, ops).reg.loaded| > c.maxLoras;
    }
  }

  lemma ThreeLoads(c: Config)
    requires c.maxLoras < 3
    ensures |Run(c, FRESH, [LoadOk("a")] + [LoadOk("b")] + [LoadOk("c")]).reg.loaded| == 3
  {
    var a, b, d := AdapterRecord("a", "", 0.0), AdapterRecord("b", "", 0.0), AdapterRecord("c", "", 0.0);
    assert [] + [LoadOk("a")] == [LoadOk("a")];
    RunOne(c, FRESH, [], LoadOk("a"));
    RunOne(c, FRESH, [LoadOk("a")], LoadOk("b"));
    RunOne(c, FRESH, [LoadOk("a")] + [LoadOk("b")], LoadOk("c"));
    var e1 := Step(c, FRESH, LoadOk("a"));
    assert e1.reg == Registry([a], Some("a"), None);
    var e2 := Step(c, e1, LoadOk("b"));
    assert Put([a], b) == [a, b];
    assert e2.reg == Registry([a, b], Some("b"), Some("a"));
    var e3 := Step(c, e2, LoadOk("c"));
    assert [a, b][1..] == [b];
    assert Put([a, b], d) == [a, b, d];
  }

  // ---- rollback ----

  lemma RollbackIsSwap(c: Config, e: Eng)
    requires Inv(c, e)
    ensures var (after, ok) := Rollback(c, e);
            && ok
            && after.reg == e.reg.(active := e.reg.previous, previous := e.reg.active)
            && after.server == e.server
  {
  }

  /** On every reachable state rollback_lora swaps active and previous and touches nothing else,
      so it never raises and rolling back twice is the identity. */
  lemma RollbackSwaps(c: Config, ops: seq<Op>)
    ensures var e := Run(c, FRESH, ops);
            var (after, ok) := Rollback(c, e);
            && ok
            && after.reg == e.reg.(active := e.reg.previous, previous := e.reg.active)
            && after.server == e.server
            && Rollback(c, after).0.reg == e.reg
  {
    LifecycleIsSafe(c, ops);
  }

  // ---- persistence ----

  /** Restarting the process at any point of any run restores the same table, in the same order,
      with the same active adapter and rollback target; without a persist path nothing is written. */
  lemma RestoreIsIdentity(c: Config, ops: seq<Op>)
    ensures c.persists ==> Restore(Run(c, FRESH, ops).file) == Run(c, FRESH, ops).reg
    ensures !c.persists ==> Run(c, FRESH, ops).file == None
  {
    LifecycleIsSafe(c, ops);
    FromListIsIdentity(Run(c, FRESH, ops).reg.loaded);
  }

  // ---- agreement with the backend ----

  ghost predicate Agrees(e: Eng) {
    e.server == Names(e.reg.loaded)
  }

  /** A lost reply that changed what the backend holds. */
  predicate Diverges(c: Config, e: Eng, op: Op) {
    match op
    case LoadOp(record, _, evict, load) =>
      var victim := EvictionCandidate(e.reg, c.maxLoras);
      if victim.Some? && evict != Ok then evict == LostReply
      else load == LostReply && (record.name !in Names(e.reg.loaded) || victim == Some(record.name))
    case UnloadOp(name, post) => post == LostReply && name in Names(e.reg.loaded)
    case _ => false
  }

  /** One operation keeps the registry and the backend in agreement if and only if it did not
      lose the reply of a POST that changed the backend. A POST that failed outright, including
      one inside a load whose eviction succeeded, is harmless. */
  lemma StepAgreesIff(c: Config, e: Eng, op: Op)
    requires Inv(c, e) && Agrees(e)
    ensures Agrees(Step(c, e, op)) <==> !Diverges(c, e, op)
  {
    match op
    case LoadOp(record, activate, evict, load) => LoadAgreesIff(c, e, record, activate, evict, load);
    case ActivateOp(name) =>
    case RollbackOp =>
    case UnloadOp(name, post) => UnloadAgreesIff(c, e, name, post);
  }

  lemma UnloadAgreesIff(c: Config, e: Eng, name: string, post: Post)
    requires Inv(c, e) && Agrees(e)
    ensures Agrees(Unload(c, e, name, post).0) <==> !(post == LostReply && name in Names(e.reg.loaded))
  {
    RemoveKeepsSafe(e.reg, name);
    assert name in e.server ==> e.server - {name} != e.server;
  }

  lemma MakeRoomAgreesIff(c: Config, e: Eng, post: Post)
    requires Inv(c, e) && Agrees(e)
    ensures var victim := EvictionCandidate(e.reg, c.maxLoras);
            var (room, ok) := MakeRoom(c, e, post);
            && (Agrees(room) <==> !(victim.Some? && post == LostReply))
            && (ok <==> victim.None? || post == Ok)
            && (ok ==> Names(room.reg.loaded) == Names(e.reg.loaded) - (if victim.Some? then {victim.value} else {}))
  {
    match EvictionCandidate(e.reg, c.maxLoras)
    case None =>
    case Some(victim) =>
      UnloadAgreesIff(c, e, victim, post);
      RemoveKeepsSafe(e.reg, victim);
  }

  lemma LoadAgreesIff(c: Config, e: Eng, record: AdapterRecord, activate: bool, evict: Post, load: Post)
    requires Inv(c, e) && Agrees(e)
    ensures Agrees(Load(c, e, record, activate, evict, load).0)
            <==> !Diverges(c, e, LoadOp(record, activate, evict, load))
  {
    MakeRoomIsSafe(c, e, evict);
    MakeRoomAgreesIff(c, e, evict);
    var (room, ok) := MakeRoom(c, e, evict);
    if ok {
      PostAgreesIff(c, room, record, load);
    }
  }

  /** The POST of a load, once there is room. */
  lemma PostAgreesIff(c: Config, room: Eng, record: AdapterRecord, load: Post)
    requires Inv(c, room) && Agrees(room)
    ensures var posted := Posted(room.server, load, room.server + {record.name});
            var registered := Register(room.reg, record);
            && (load == Ok ==> posted == Names(registered.loaded) == Names(Activate(registered, record.name).loaded))
            && (load != Ok ==> (posted == Names(room.reg.loaded) <==> load != LostReply || record.name in room.server))
  {
    RegisterKeepsSafe(room.reg, record);
    assert record.name !in room.server ==> record.name in room.server + {record.name};
  }

  predicate NoLostReply(op: Op) {
    && (op.LoadOp? ==> op.evict != LostReply && op.load != LostReply)
    && (op.UnloadOp? ==> op.post != LostReply)
  }

  lemma {:induction false} RunAgrees(c: Config, ops: seq<Op>)
    requires forall i :: 0 <= i < |ops| ==> NoLostReply(ops[i])
    ensures Agrees(Run(c, FRESH, ops))
    decreases |ops|
  {
    if ops != [] {
      var before := ops[..|ops| - 1];
      RunAgrees(c, before);
      LifecycleIsSafe(c, before);
      assert NoLostReply(ops[|ops| - 1]);
      StepAgreesIff(c, Run(c, FRESH, before), ops[|ops| - 1]);
    }
  }

  /** `self.active_lora or self.config.model`: the model name a chat request sends. */
  function ChatModel(r: Registry, base: string): string {
    if r.active.Some? && r.active.value != "" then r.active.value else base
  }

  /** The model that chat names is the base model or one the backend holds. */
  predicate ServesChat(e: Eng, base: string) {
    ChatModel(e.reg, base) == base || ChatModel(e.reg, base) in e.server
  }

  /** Without lost replies, failed POSTs included, the registry's names are the backend's set
      after every operation, and chat names the active adapter, which the backend holds, or the
      base model when none is active. */
  lemma ChatNamesAServedModel(c: Config, ops: seq<Op>, base: string)
    requires forall i :: 0 <= i < |ops| ==> NoLostReply(ops[i])
    ensures var e := Run(c, FRESH, ops);
            && e.server == Names(e.reg.loaded)
            && ServesChat(e, base)
            && (e.reg.active.None? ==> ChatModel(e.reg, base) == base)
            && (e.reg.active.Some? && e.reg.active.value != "" ==> Some(ChatModel(e.reg, base)) == e.reg.active)
  {
    RunAgrees(c, ops);
    LifecycleIsSafe(c, ops);
  }

  // ---- restart of the backend ----

  /** EngineSupervisor._restart once the new backend is ready: it holds nothing, and the active
      adapter is loaded again from its recorded path. None means nothing is re-applied. */
  function RestartBackend(c: Config, e: Eng, now: real, evict: Post, load: Post): (Eng, Option<bool>)
    requires IsLive(e.reg, e.reg.active)
  {
    var empty := e.(server := {});
    if e.reg.active.None? || e.reg.active.value == "" then (empty, None)
    else
      var path := Lookup(e.reg.loaded, e.reg.active.value).path;
      if path == "" then (empty, None)
      else
        var (after, ok) := Load(c, empty, AdapterRecord(e.reg.active.value, path, now), true, evict, load);
        (after, Some(ok))
  }

  /** A restart preserves the active adapter and the rollback target in the registry whatever the
      POSTs do; when the re-apply succeeds the backend serves the active adapter and nothing else,
      so a recorded rollback target is then no longer on the backend. Nothing is re-applied exactly
      when no adapter with a path is active, and the backend is then empty. */
  lemma RestartKeepsSelection(c: Config, e: Eng, now: real, evict: Post, load: Post)
    requires Inv(c, e)
    ensures var (after, ok) := RestartBackend(c, e, now, evict, load);
            && Inv(c, after)
            && after.reg.active == e.reg.active && after.reg.previous == e.reg.previous
            && (ok == Some(true) ==> after.server == {e.reg.active.value})
            && (ok == Some(true) && e.reg.previous.Some? ==> e.reg.previous.value !in after.server)
            && (ok == Some(true) ==> PathOf(after.reg, e.reg.active.value) == PathOf(e.reg, e.reg.active.value))
            && (ok == None ==> after == e.(server := {}))
            && (ok == None <==>
                  e.reg.active.None? || e.reg.active.value == "" || PathOf(e.reg, e.reg.active.value) == "")
  {
    var empty := e.(server := {});
    if e.reg.active.Some? && e.reg.active.value != "" {
      var name := e.reg.active.value;
      var record := AdapterRecord(name, Lookup(e.reg.loaded, name).path, now);
      ReapplyKeepsSelection(c, empty, record, evict, load);
      if record.path != "" && Load(c, empty, record, true, evict, load).1 {
        LoadMeans(c, empty, record, true, evict, name);
      }
    }
  }

  lemma ReapplyKeepsSelection(c: Config, e: Eng, record: AdapterRecord, evict: Post, load: Post)
    requires Inv(c, e) && e.server == {} && e.reg.active == Some(record.name)
    ensures var (after, ok) := Load(c, e, record, true, evict, load);
            && Inv(c, after)
            && after.reg.active == e.reg.active && after.reg.previous == e.reg.previous
            && (ok ==> after.server == {record.name})
  {
    MakeRoomIsSafe(c, e, evict);
    LoadIsSafe(c, e, record, true, evict, load);
    assert MakeRoom(c, e, evict).0.server == {};
  }

  /** The POST that loads the active adapter again is sent and takes effect. */
  predicate Reapplies(c: Config, e: Eng, evict: Post, load: Post) {
    && e.reg.active.Some? && e.reg.active.value != "" && PathOf(e.reg, e.reg.active.value) != ""
    && (EvictionCandidate(e.reg, c.maxLoras).None? || evict == Ok)
    && load != Refused
  }

  /** After a restart the registry agrees with the backend, whatever became of the re-apply, if and
      only if nothing was loaded, or the active adapter is on the backend again and nothing else was
      loaded but the one evicted to make room. */
  lemma RestartAgreesIff(c: Config, e: Eng, now: real, evict: Post, load: Post)
    requires Inv(c, e)
    ensures Agrees(RestartBackend(c, e, now, evict, load).0)
            <==> || Names(e.reg.loaded) == {}
                 || (&& Reapplies(c, e, evict, load)
                     && forall n :: n in Names(e.reg.loaded) ==>
                          n == e.reg.active.value || EvictionCandidate(e.reg, c.maxLoras) == Some(n))
  {
    var after := RestartBackend(c, e, now, evict, load).0;
    RestartLoads(c, e, now, evict, load);
    if Reapplies(c, e, evict, load) {
      assert e.reg.active.value in Names(after.reg.loaded);
    } else {
      assert Names(e.reg.loaded) != {} ==> Names(after.reg.loaded) != {};
    }
  }

  /** What the backend and the registry hold after a restart. */
  lemma RestartLoads(c: Config, e: Eng, now: real, evict: Post, load: Post)
    requires Inv(c, e)
    ensures var after := RestartBackend(c, e, now, evict, load).0;
            && after.server == (if Reapplies(c, e, evict, load) then {e.reg.active.value} else {})
            && Names(after.reg.loaded) <= Names(e.reg.loaded)
            && (e.reg.active.Some? ==> e.reg.active.value in Names(after.reg.loaded))
            && (e.reg.active.None? ==> after.reg == e.reg)
            && (Reapplies(c, e, evict, load) ==>
                  forall n :: n in Names(after.reg.loaded)
                    <==> n in Names(e.reg.loaded) && EvictionCandidate(e.reg, c.maxLoras) != Some(n))
  {
    if e.reg.active.Some? && e.reg.active.value != "" && PathOf(e.reg, e.reg.active.value) != "" {
      var record := AdapterRecord(e.reg.active.value, PathOf(e.reg, e.reg.active.value), now);
      ReapplyLoads(c, e.(server := {}), record, evict, load);
    }
  }

  lemma ReapplyLoads(c: Config, e: Eng, record: AdapterRecord, evict: Post, load: Post)
    requires Inv(c, e) && e.server == {} && e.reg.active == Some(record.name)
    ensures var after := Load(c, e, record, true, evict, load).0;
            var victim := EvictionCandidate(e.reg, c.maxLoras);
            && after.server == (if (victim.None? || evict == Ok) && load != Refused then {record.name} else {})
            && Names(after.reg.loaded)
               == Names(e.reg.loaded) - (if victim.Some? && evict == Ok then {victim.value} else {})
  {
    var room := MakeRoom(c, e, evict).0;
    if EvictionCandidate(e.reg, c.maxLoras).Some? {
      RemoveKeepsSafe(e.reg, EvictionCandidate(e.reg, c.maxLoras).value);
    }
    assert room.server == {} && record.name in Names(room.reg.loaded);
    MakeRoomIsSafe(c, e, evict);
    PutNames(room.reg.loaded, record);
    assert Names(room.reg.loaded) + {record.name} == Names(room.reg.loaded);
  }

  /** Right after a restart chat names a served model if and only if no adapter was active, or the
      POST that loads it again was sent and took effect. */
  lemma RestartServesChatIff(c: Config, e: Eng, now: real, evict: Post, load: Post, base: string)
    requires Inv(c, e)
    ensures ServesChat(RestartBackend(c, e, now, evict, load).0, base)
            <==> ChatModel(e.reg, base) == base || Reapplies(c, e, evict, load)
  {
    RestartKeepsSelection(c, e, now, evict, load);
    RestartLoads(c, e, now, evict, load);
  }

  /** A rollback after a restart, whatever became of the re-apply, makes chat name a served model if
      and only if there is no rollback target, or its name stands for the base model. */
  lemma RollbackAfterRestartServesIff(c: Config, e: Eng, now: real, evict: Post, load: Post, base: string)
    requires Inv(c, e)
    ensures ServesChat(Rollback(c, RestartBackend(c, e, now, evict, load).0).0, base)
            <==> e.reg.previous in {None, Some(""), Some(base)}
  {
    RestartKeepsSelection(c, e, now, evict, load);
    RestartLoads(c, e, now, evict, load);
    RollbackIsSwap(c, RestartBackend(c, e, now, evict, load).0);
  }
}
