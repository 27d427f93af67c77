/** ContinuousLearner of omniai/memory/learning.py as a step system: run_cycle and _shadow_gate
    over the interaction buffer, the LoRA lifecycle and the adapter gate.

    A cycle holds a lock, so cycles do not overlap, but between its steps messages are logged,
    operators use the engine and the gate, and the cycle may be aborted by an exception. Each
    operation of the engine is one step, the two POSTs of a load included. Curators, training and the
    replies of the models are choices of the environment. */
module LearningCycle {
  import opened Fresh
  import opened Numbers
  import opened Options
  import opened TrainingPairs
  import opened InteractionBuffer
  import LoraRegistry
  import Protocol
  import Engine
  import EvalGate

  /** Where run_cycle stands. A shadow-loaded candidate is `Shadowed` while the gate establishes its
      baseline, and `Measured` against the baseline the gate has read while it is scored itself.
      `Ready` is a trained adapter taken into service whose batch is not yet marked as consumed. */
  datatype Phase =
    | Waiting
    | Marked(mark: Option<int>)
    | Fetched(logs: seq<Row>)
    | Trained(logs: seq<Row>, name: string, path: string)
    | Shadowed(logs: seq<Row>, name: string, path: string)
    | Measured(logs: seq<Row>, name: string, path: string, bar: real)
    | Rejected(logs: seq<Row>, name: string)
    | Ready(logs: seq<Row>, name: string)

  /** How the learner is wired: no engine, an engine alone, or an engine with an evaluator. */
  datatype Mode = NoEngine | Ungated | Gated

  /** `suite` is the number of golden cases. A curator, if there is one, builds any number of pairs;
      otherwise they are those of format_training_pairs with the system prompt. */
  datatype Config = Config(
    mode: Mode,
    tolerance: real,
    suite: nat,
    minPairs: int,
    curated: bool,
    system: string,
    engine: Engine.Config
  )

  /** An adapter the gate activated: the weights it scored, their score and the baseline that judged
      them. */
  datatype Promotion = Promotion(name: string, path: string, score: real, bar: real)

  datatype Learner = Learner(
    rows: seq<Row>,
    mark: Option<int>,
    phase: Phase,
    eng: Engine.Eng,
    baseline: Option<real>,
    names: set<string>,          // adapter names generated so far
    promoted: seq<Promotion>,
    batches: seq<seq<Row>>       // batches of the cycles that reported "deployed"
  )

  datatype Event =
    | Log(row: Row)
    | Begin
    | FetchLogs
    | Train(name: string, path: string, built: nat)  // or skip, with too few pairs
    | ShadowLoad(now: real, evict: Engine.Post, load: Engine.Post)
    | DirectLoad(now: real, evict: Engine.Post, load: Engine.Post)
    | ScoreBaseline(passed: nat)
    | ScoreCandidate(passed: nat)
    | UnloadRejected(post: Engine.Post)
    | Commit
    | Abort
    | Rebaseline(passed: nat)
    | Operate(op: Engine.Op)  // an operator uses the engine

  function Start(baseline: Option<real>): Learner {
    Learner([], None, Waiting, Engine.FRESH, baseline, {}, [], [])
  }

  predicate HasLogs(p: Phase) {
    !p.Waiting? && !p.Marked?
  }

  function Newest(logs: seq<Row>): int
    requires logs != []
  {
    if |logs| == 1 then logs[0].created
    else
      var rest := Newest(logs[1..]);
      if logs[0].created > rest then logs[0].created else rest
  }

  /** The verdict on the candidate, by the baseline the gate has read. */
  function Judge(c: Config, s: Learner, score: real): Learner
    requires s.phase.Measured?
  {
    if EvalGate.Accepts(s.phase.bar, c.tolerance, score) then
      var (eng, ok) := Engine.ActivateLora(c.engine, s.eng, s.phase.name);
      if ok then
        s.(eng := eng, promoted := s.promoted + [Promotion(s.phase.name, s.phase.path, score, s.phase.bar)],
           phase := Ready(s.phase.logs, s.phase.name))
      else s.(phase := Waiting)
    else s.(phase := Rejected(s.phase.logs, s.phase.name))
  }

  /** A candidate just loaded in the shadow: the gate reads its baseline or establishes one. */
  function Evaluating(logs: seq<Row>, name: string, path: string, baseline: Option<real>): Phase {
    if baseline.Some? then Measured(logs, name, path, baseline.value) else Shadowed(logs, name, path)
  }

  /** The number of pairs built from a batch. */
  function Built(c: Config, logs: seq<Row>, built: nat): nat {
    if c.curated then built else |AllPairs(logs, c.system)|
  }

  /** The score of a suite of which so many cases passed. */
  function Score(c: Config, passed: nat): real {
    EvalGate.Share(passed, c.suite)
  }

  /** set_watermark and the "deployed" report. */
  function Committed(s: Learner): Learner
    requires s.phase.Ready?
  {
    s.(mark := if s.phase.logs == [] then s.mark else Some(Newest(s.phase.logs)),
       batches := s.batches + [s.phase.logs], phase := Waiting)
  }

  /** One step; an event that cannot happen in `s` changes nothing. */
  function Step(c: Config, s: Learner, e: Event): Learner {
    match e
    case Log(row) => s.(rows := Merge(s.rows, row))
    case Begin => if s.phase.Waiting? then s.(phase := Marked(s.mark)) else s
    case FetchLogs => if s.phase.Marked? then s.(phase := Fetched(Fetch(s.rows, s.phase.mark))) else s
    case Train(name, path, built) =>
      if !s.phase.Fetched? then s
      else if Built(c, s.phase.logs, built) < c.minPairs then s.(phase := Waiting)
      else if name in s.names then s
      else
        s.(names := s.names + {name},
           phase := if c.mode == NoEngine then Ready(s.phase.logs, name) else Trained(s.phase.logs, name, path))
    case ShadowLoad(now, evict, load) =>
      if s.phase.Trained? && c.mode == Gated then
        var record := LoraRegistry.AdapterRecord(s.phase.name, s.phase.path, now);
        var (eng, ok) := Engine.Load(c.engine, s.eng, record, false, evict, load);
        s.(eng := eng,
           phase := if ok then Evaluating(s.phase.logs, s.phase.name, s.phase.path, s.baseline) else Waiting)
      else s
    case DirectLoad(now, evict, load) =>
      if s.phase.Trained? && c.mode == Ungated then
        var record := LoraRegistry.AdapterRecord(s.phase.name, s.phase.path, now);
        var (eng, ok) := Engine.Load(c.engine, s.eng, record, true, evict, load);
        s.(eng := eng, phase := if ok then Ready(s.phase.logs, s.phase.name) else Waiting)
      else s
    case ScoreBaseline(passed) =>
      if s.phase.Shadowed? && passed <= c.suite then
        s.(baseline := Some(Score(c, passed)),
           phase := Measured(s.phase.logs, s.phase.name, s.phase.path, Score(c, passed)))
      else s
    case ScoreCandidate(passed) =>
      if s.phase.Measured? && passed <= c.suite then Judge(c, s, Score(c, passed)) else s
    case UnloadRejected(post) =>
      if s.phase.Rejected? then
        s.(eng := Engine.Unload(c.engine, s.eng, s.phase.name, post).0, phase := Waiting)
      else s
    case Commit => if s.phase.Ready? then Committed(s) else s
    case Abort => s.(phase := Waiting)
    case Rebaseline(passed) => if passed <= c.suite then s.(baseline := Some(Score(c, passed))) else s
    case Operate(op) => s.(eng := Engine.Step(c.engine, s.eng, op))
  }

  function Run(c: Config, s: Learner, events: seq<Event>): Learner {
    if events == [] then s else Step(c, Run(c, s, events[..|events| - 1]), events[|events| - 1])
  }

  lemma {:induction false} RunConcat(c: Config, s: Learner, a: seq<Event>, b: seq<Event>)
    ensures Run(c, s, a + b) == Run(c, Run(c, s, a), b)
    decreases |b|
  {
    if b == [] {
      assert a + b == a;
    } else {
      assert (a + b)[..|a + b| - 1] == a + b[..|b| - 1];
      RunConcat(c, s, a, b[..|b| - 1]);
    }
  }

  /** A run of one event, then the rest. */
  lemma RunFirst(c: Config, s: Learner, events: seq<Event>)
    requires events != []
    ensures Run(c, s, events) == Run(c, Step(c, s, events[0]), events[1..])
  {
    assert events == [events[0]] + events[1..];
    RunConcat(c, s, [events[0]], events[1..]);
    assert [events[0]][..0] == [];
  }

  lemma RunOneMore(c: Config, s: Learner, events: seq<Event>, e: Event)
    ensures Run(c, s, events + [e]) == Step(c, Run(c, s, events), e)
  {
    assert (events + [e])[..|events|] == events;
  }

  // ---- what is consumed ----

  /** How often each row occurs in deployed batches. */
  function Consumed(batches: seq<seq<Row>>): multiset<Row> {
    if batches == [] then multiset{}
    else Consumed(batches[..|batches| - 1]) + multiset(batches[|batches| - 1])
  }

  predicate Pending(s: Learner, r: Row) {
    After(s.mark, r.created)
  }

  /** The newest moment that the cycle under way will mark as consumed, or has marked. */
  function Frontier(s: Learner): Option<int> {
    if HasLogs(s.phase) && s.phase.logs != [] then Some(Newest(s.phase.logs)) else s.mark
  }

  lemma {:induction false} NewestFacts(logs: seq<Row>)
    requires logs != []
    ensures forall r :: r in logs ==> r.created <= Newest(logs)
    ensures exists r :: r in logs && r.created == Newest(logs)
  {
    if |logs| == 1 {
      assert logs[0] in logs;
    } else {
      NewestFacts(logs[1..]);
      assert forall r :: r in logs <==> r == logs[0] || r in logs[1..];
    }
  }

  lemma {:induction false} TableHasNoRepeats(rows: seq<Row>)
    requires IsTable(rows)
    ensures forall r :: multiset(rows)[r] == if r in rows then 1 else 0
  {
    if rows != [] {
      TableHasNoRepeats(rows[1..]);
      assert rows == [rows[0]] + rows[1..];
      forall r | r in rows[1..] ensures r != rows[0] {
        var i :| 0 <= i < |rows[1..]| && rows[1..][i] == r;
        assert InOrder(rows[0], rows[i + 1]);
      }
    }
  }

  /** Holds in every run: the table is ordered, the cycle works on the current watermark, and its
      logs are rows after it, each once. */
  ghost predicate Sound(s: Learner) {
    && IsTable(s.rows)
    && (s.phase.Marked? ==> s.phase.mark == s.mark)
    && (HasLogs(s.phase) ==> IsTable(s.phase.logs) && forall r :: r in s.phase.logs ==> After(s.mark, r.created))
  }

  lemma StepKeepsSound(c: Config, s: Learner, e: Event)
    requires Sound(s)
    ensures Sound(Step(c, s, e))
  {
    match e
    case Log(row) => MergeFacts(s.rows, row);
    case FetchLogs => FetchFacts(s.rows, s.mark);
    case _ =>
  }

  /** The newest timestamp the cycle under way covers, if it has fetched anything. */
  predicate Covers(s: Learner, created: int) {
    HasLogs(s.phase) && s.phase.logs != [] && created <= Newest(s.phase.logs)
  }

  /** A stored row is pending and in no deployed batch, or consumed by exactly one; a pending row
      that the cycle under way will mark as consumed is in its logs. */
  predicate RowConserved(s: Learner, r: Row) {
    && (r in s.rows ==> Consumed(s.batches)[r] == if Pending(s, r) then 0 else 1)
    && (r in s.rows && Pending(s, r) && Covers(s, r.created) ==> r in s.phase.logs)
    && (r in Consumed(s.batches) ==> r in s.rows)
    && (HasLogs(s.phase) && r in s.phase.logs ==> r in s.rows)
  }

  ghost predicate IsStored(s: Learner, created: int) {
    exists r :: r in s.rows && r.created == created
  }

  ghost predicate Conserved(s: Learner) {
    && (forall r: Row :: RowConserved(s, r))
    && (s.mark.Some? ==> IsStored(s, s.mark.value))
  }

  /** The id of the row is new. */
  ghost predicate NewId(s: Learner, row: Row) {
    forall r :: r in s.rows ==> r.id != row.id
  }

  /** A newly logged message keeps the invariant if and only if its timestamp lies after
      everything the cycle under way has fetched and everything consumed so far. */
  lemma LogKeepsConservedIff(c: Config, s: Learner, row: Row)
    requires Sound(s) && Conserved(s) && NewId(s, row)
    ensures Conserved(Step(c, s, Log(row))) <==> After(Frontier(s), row.created)
  {
    MergeFacts(s.rows, row);
    var t := Step(c, s, Log(row));
    assert RowConserved(s, row);
    if HasLogs(s.phase) && s.phase.logs != [] {
      NewestFacts(s.phase.logs);
      var newest :| newest in s.phase.logs && newest.created == Newest(s.phase.logs);
      assert After(s.mark, newest.created);
    }
    assert RowConserved(t, row) <==> After(Frontier(s), row.created);
    forall r | r != row ensures RowConserved(t, r) {
      assert RowConserved(s, r);
    }
    if s.mark.Some? {
      var r :| r in s.rows && r.created == s.mark.value;
      assert r in t.rows;
    }
  }

  /** What a commit does to the count of one row. */
  lemma CommitCounts(batches: seq<seq<Row>>, logs: seq<Row>, r: Row)
    requires IsTable(logs)
    ensures Consumed(batches + [logs])[r] == Consumed(batches)[r] + (if r in logs then 1 else 0)
  {
    assert (batches + [logs])[..|batches|] == batches;
    assert Consumed(batches + [logs]) == Consumed(batches) + multiset(logs);
    TableHasNoRepeats(logs);
  }

  /** A commit marks exactly its batch as consumed. */
  lemma CommitRow(s: Learner, r: Row)
    requires s.phase.Ready? && RowConserved(s, r)
    requires var logs := s.phase.logs;
             && Consumed(s.batches + [logs])[r] == Consumed(s.batches)[r] + (if r in logs then 1 else 0)
             && (logs != [] ==> After(s.mark, Newest(logs)))
             && (r in logs ==> After(s.mark, r.created) && r.created <= Newest(logs))
    ensures RowConserved(Committed(s), r)
  {
  }

  lemma LogsAreNewer(s: Learner)
    requires Sound(s) && HasLogs(s.phase) && s.phase.logs != []
    ensures After(s.mark, Newest(s.phase.logs))
    ensures forall r :: r in s.phase.logs ==> r.created <= Newest(s.phase.logs)
  {
    NewestFacts(s.phase.logs);
  }

  lemma NewestIsStored(s: Learner)
    requires Conserved(s) && HasLogs(s.phase) && s.phase.logs != []
    ensures IsStored(s, Newest(s.phase.logs))
  {
    NewestFacts(s.phase.logs);
    var r :| r in s.phase.logs && r.created == Newest(s.phase.logs);
    assert RowConserved(s, r);
  }

  lemma CommitConserves(c: Config, s: Learner)
    requires Sound(s) && Conserved(s) && s.phase.Ready?
    ensures Conserved(Step(c, s, Commit))
  {
    if s.phase.logs != [] {
      NewestIsStored(s);
      LogsAreNewer(s);
    }
    forall r: Row ensures RowConserved(Committed(s), r) {
      assert RowConserved(s, r);
      CommitCounts(s.batches, s.phase.logs, r);
      CommitRow(s, r);
    }
  }

  /** A step that leaves rows, watermark and batches alone, and keeps or drops the logs at hand. */
  lemma SameLogsConserve(s: Learner, t: Learner)
    requires Conserved(s)
    requires t.rows == s.rows && t.mark == s.mark && t.batches == s.batches
    requires HasLogs(t.phase) ==> HasLogs(s.phase) && t.phase.logs == s.phase.logs
    ensures Conserved(t)
  {
    forall r: Row ensures RowConserved(t, r) {
      assert RowConserved(s, r);
    }
  }

  lemma FetchConserves(c: Config, s: Learner)
    requires Sound(s) && Conserved(s) && s.phase.Marked?
    ensures Conserved(Step(c, s, FetchLogs))
  {
    FetchFacts(s.rows, s.mark);
    forall r: Row ensures RowConserved(Step(c, s, FetchLogs), r) {
      assert RowConserved(s, r);
    }
  }

  lemma StepConserves(c: Config, s: Learner, e: Event)
    requires Sound(s) && Conserved(s)
    requires e.Log? ==> NewId(s, e.row) && After(Frontier(s), e.row.created)
    ensures Conserved(Step(c, s, e))
  {
    if e.Log? {
      LogKeepsConservedIff(c, s, e.row);
    } else if e.FetchLogs? && s.phase.Marked? {
      FetchConserves(c, s);
    } else if e.Commit? && s.phase.Ready? {
      CommitConserves(c, s);
    } else {
      SameLogsConserve(s, Step(c, s, e));
    }
  }

  // ---- when a message is lost ----

  predicate NoLogs(events: seq<Event>) {
    forall i :: 0 <= i < |events| ==> !events[i].Log?
  }

  /** Stored, marked as consumed, and in no deployed batch. */
  predicate IsLost(s: Learner, row: Row) {
    row in s.rows && !Pending(s, row) && Consumed(s.batches)[row] == 0
  }

  /** The row has been in a batch before: in a deployed one, or in that of the cycle under way. */
  predicate FetchedBefore(s: Learner, row: Row) {
    row in Consumed(s.batches) || (HasLogs(s.phase) && row in s.phase.logs)
  }

  /** A perfect score is accepted by the baseline, or by the lowest one that the suite allows, which
      an operator or the gate itself may establish. */
  predicate MayAccept(c: Config, baseline: Option<real>) {
    || EvalGate.Accepts(Score(c, 0), c.tolerance, 1.0)
    || (baseline.Some? && EvalGate.Accepts(baseline.value, c.tolerance, 1.0))
  }

  /** The cycle under way may still deploy what it has fetched: there are enough pairs, and the gate
      can accept a candidate. A candidate that was unloaded while it is judged is no obstacle, as an
      operator may load it again; a rejected one is. */
  predicate CanCommit(c: Config, s: Learner) {
    match s.phase
    case Fetched(logs) =>
      && (c.curated || |AllPairs(logs, c.system)| >= c.minPairs)
      && (c.mode == Gated ==> MayAccept(c, s.baseline))
    case Trained(_, _, _) => c.mode == Ungated || (c.mode == Gated && MayAccept(c, s.baseline))
    case Shadowed(_, _, _) => MayAccept(c, None)
    case Measured(_, _, _, bar) => EvalGate.Accepts(bar, c.tolerance, 1.0)
    case Ready(_, _) => true
    case _ => false
  }

  /** A baseline that accepts no candidate, where another one would. */
  predicate BarTooHigh(c: Config, baseline: Option<real>) {
    baseline.Some? && !EvalGate.Accepts(baseline.value, c.tolerance, 1.0)
  }

  /** Steps left to a commit. */
  function StepsToCommit(c: Config, s: Learner): nat {
    match s.phase
    case Fetched(_) => 8
    case Trained(_, _, _) => if BarTooHigh(c, s.baseline) then 7 else 6
    case Shadowed(_, _, _) => 4
    case Measured(_, name, _, _) => if name in LoraRegistry.Names(s.eng.reg.loaded) then 2 else 3
    case Ready(_, _) => 1
    case _ => 0
  }

  /** The next step on the way to a commit. */
  ghost function Advance(c: Config, s: Learner, name: string): Event {
    match s.phase
    case Fetched(_) => Train(name, "", AtLeast(c.minPairs, 0))
    case Trained(_, _, _) =>
      if c.mode == Ungated then DirectLoad(0.0, Engine.Ok, Engine.Ok)
      else if BarTooHigh(c, s.baseline) then Rebaseline(0)
      else ShadowLoad(0.0, Engine.Ok, Engine.Ok)
    case Shadowed(_, _, _) => ScoreBaseline(0)
    case Measured(_, candidate, _, _) =>
      if candidate in LoraRegistry.Names(s.eng.reg.loaded) then ScoreCandidate(c.suite)
      else Operate(Engine.LoadOp(LoraRegistry.AdapterRecord(candidate, "", 0.0), false, Engine.Ok, Engine.Ok))
    case _ => Commit
  }

  lemma Advances(c: Config, s: Learner, name: string)
    requires CanCommit(c, s) && !s.phase.Ready? && name !in s.names
    ensures var e := Advance(c, s, name);
            var t := Step(c, s, e);
            && !e.Log? && CanCommit(c, t) && t.phase.logs == s.phase.logs
            && t.rows == s.rows && t.mark == s.mark && t.batches == s.batches
            && StepsToCommit(c, t) < StepsToCommit(c, s)
  {
    EvalGate.ShareBounds(c.suite, c.suite);
    if s.phase.Measured? && s.phase.name !in LoraRegistry.Names(s.eng.reg.loaded) {
      ReloadLoads(c, s.eng, LoraRegistry.AdapterRecord(s.phase.name, "", 0.0));
    }
  }

  lemma ReloadLoads(c: Config, e: Engine.Eng, record: LoraRegistry.AdapterRecord)
    ensures record.name
            in LoraRegistry.Names(Engine.Load(c.engine, e, record, false, Engine.Ok, Engine.Ok).0.reg.loaded)
  {
    Engine.PutHasName(Engine.MakeRoom(c.engine, e, Engine.Ok).0.reg.loaded, record);
  }

  /** A cycle that can commit does so in some continuation without further messages. */
  lemma {:induction false} CommitIsReachable(c: Config, s: Learner) returns (more: seq<Event>)
    requires CanCommit(c, s)
    ensures NoLogs(more)
    ensures var t := Run(c, s, more);
            && t.rows == s.rows && t.batches == s.batches + [s.phase.logs]
            && t.mark == if s.phase.logs == [] then s.mark else Some(Newest(s.phase.logs))
    decreases StepsToCommit(c, s)
  {
    if s.phase.Ready? {
      more := [Commit];
      RunFirst(c, s, more);
    } else {
      var name := FreshName(s.names);
      var e := Advance(c, s, name);
      Advances(c, s, name);
      var rest := CommitIsReachable(c, Step(c, s, e));
      more := [e] + rest;
      RunFirst(c, s, more);
      assert more[1..] == rest;
    }
  }

  /** A cycle that cannot commit what it has fetched never will. */
  lemma CanCommitAlready(c: Config, s: Learner, e: Event)
    requires HasLogs(Step(c, s, e).phase) && CanCommit(c, Step(c, s, e)) && !e.FetchLogs?
    ensures HasLogs(s.phase) && CanCommit(c, s) && Step(c, s, e).phase.logs == s.phase.logs
  {
    match e
    case ScoreBaseline(passed) => if passed <= c.suite { EvalGate.ShareBounds(passed, c.suite); }
    case ScoreCandidate(passed) => if passed <= c.suite { EvalGate.ShareBounds(passed, c.suite); }
    case Rebaseline(passed) => if passed <= c.suite { EvalGate.ShareBounds(passed, c.suite); }
    case _ =>
  }

  /** A stored row that cannot be lost: it has been deployed, or it is pending and in the batch of any
      cycle that may still mark it as consumed. */
  ghost predicate Guarded(c: Config, s: Learner, row: Row) {
    && Sound(s) && row in s.rows
    && (|| Consumed(s.batches)[row] > 0
        || (Pending(s, row) && (CanCommit(c, s) && Covers(s, row.created) ==> row in s.phase.logs)))
  }

  lemma CommitGuards(c: Config, s: Learner, row: Row)
    requires Guarded(c, s, row) && s.phase.Ready?
    ensures Guarded(c, Committed(s), row)
  {
    StepKeepsSound(c, s, Commit);
    CommitCounts(s.batches, s.phase.logs, row);
  }

  /** Steps that leave table, watermark and batches alone. */
  lemma OtherStepGuards(c: Config, s: Learner, e: Event, row: Row)
    requires Guarded(c, s, row) && !e.Log? && !e.Commit? && !e.FetchLogs?
    ensures Guarded(c, Step(c, s, e), row)
  {
    var t := Step(c, s, e);
    StepKeepsSound(c, s, e);
    OnlyCommitConsumes(c, s, e);
    if HasLogs(t.phase) && CanCommit(c, t) {
      CanCommitAlready(c, s, e);
    }
  }

  lemma StepGuards(c: Config, s: Learner, e: Event, row: Row)
    requires Guarded(c, s, row) && !e.Log?
    ensures Guarded(c, Step(c, s, e), row)
  {
    match e
    case Commit => if s.phase.Ready? { CommitGuards(c, s, row); }
    case FetchLogs =>
      StepKeepsSound(c, s, e);
      FetchFacts(s.rows, s.mark);
    case _ => OtherStepGuards(c, s, e, row);
  }

  lemma {:induction false} RunGuards(c: Config, s: Learner, more: seq<Event>, row: Row)
    requires Guarded(c, s, row) && NoLogs(more)
    ensures Guarded(c, Run(c, s, more), row)
    decreases |more|
  {
    if more != [] {
      RunGuards(c, s, more[..|more| - 1], row);
      StepGuards(c, Run(c, s, more[..|more| - 1]), more[|more| - 1], row);
    }
  }

  lemma CommitLoses(c: Config, s: Learner, row: Row)
    requires Sound(s) && row in s.rows && !FetchedBefore(s, row)
    requires CanCommit(c, s) && Covers(s, row.created)
    ensures exists more :: NoLogs(more) && IsLost(Run(c, s, more), row)
  {
    var more := CommitIsReachable(c, s);
    CommitCounts(s.batches, s.phase.logs, row);
    assert IsLost(Run(c, s, more), row);
  }

  lemma {:induction false} RunKeepsSound(c: Config, baseline: Option<real>, events: seq<Event>)
    ensures Sound(Run(c, Start(baseline), events))
    decreases |events|
  {
    if events != [] {
      RunKeepsSound(c, baseline, events[..|events| - 1]);
      StepKeepsSound(c, Run(c, Start(baseline), events[..|events| - 1]), events[|events| - 1]);
    }
  }

  /** The ids of everything fetched stay in the table. */
  ghost predicate IdsStay(s: Learner) {
    forall r: Row :: FetchedBefore(s, r) ==> !NewId(s, r)
  }

  lemma StepKeepsIds(c: Config, s: Learner, e: Event)
    requires Sound(s) && IdsStay(s)
    ensures IdsStay(Step(c, s, e))
  {
    var t := Step(c, s, e);
    forall r: Row | FetchedBefore(t, r) ensures !NewId(t, r) {
      if e.Log? {
        MergeFacts(s.rows, e.row);
        assert FetchedBefore(s, r);
        var q :| q in s.rows && q.id == r.id;
        assert q in t.rows || e.row in t.rows;
      } else if e.FetchLogs? && s.phase.Marked? {
        FetchFacts(s.rows, s.mark);
        assert r in t.rows || FetchedBefore(s, r);
      } else {
        if e.Commit? && s.phase.Ready? {
          CommitCounts(s.batches, s.phase.logs, r);
        }
        assert FetchedBefore(s, r);
      }
    }
  }

  lemma {:induction false} RunKeepsIds(c: Config, baseline: Option<real>, events: seq<Event>)
    ensures IdsStay(Run(c, Start(baseline), events))
    decreases |events|
  {
    if events != [] {
      RunKeepsSound(c, baseline, events[..|events| - 1]);
      RunKeepsIds(c, baseline, events[..|events| - 1]);
      StepKeepsIds(c, Run(c, Start(baseline), events[..|events| - 1]), events[|events| - 1]);
    }
  }

  /** When a message can be lost, at any point of any run: some continuation without further messages
      leaves it marked as consumed and in no batch, if and only if it was in no batch before, which
      is certain of a new id, and its timestamp is at or below the watermark, or the cycle under way
      has fetched up to it and may still commit. */
  lemma LogIsLostIff(c: Config, baseline: Option<real>, events: seq<Event>, row: Row)
    ensures var s := Run(c, Start(baseline), events);
            (exists more :: NoLogs(more) && IsLost(Run(c, Step(c, s, Log(row)), more), row))
            <==> && !FetchedBefore(s, row)
                 && (!Pending(s, row) || (CanCommit(c, s) && Covers(s, row.created)))
    ensures var s := Run(c, Start(baseline), events);
            NewId(s, row) ==> !FetchedBefore(s, row)
  {
    var s := Run(c, Start(baseline), events);
    var t := Step(c, s, Log(row));
    RunKeepsSound(c, baseline, events);
    RunKeepsIds(c, baseline, events);
    StepKeepsSound(c, s, Log(row));
    MergeFacts(s.rows, row);
    if FetchedBefore(s, row) || (Pending(s, row) && !(CanCommit(c, s) && Covers(s, row.created))) {
      assert Guarded(c, t, row);
      forall more | NoLogs(more) ensures !IsLost(Run(c, t, more), row) {
        RunGuards(c, t, more, row);
      }
    } else if !Pending(s, row) {
      assert Run(c, t, []) == t && NoLogs([]);
    } else {
      CommitLoses(c, t, row);
    }
  }

  /** The rows after the watermark suffice for a cycle: they yield enough pairs, and the gate can accept
      a candidate. */
  predicate CanDeploy(c: Config, s: Learner) {
    && (c.curated || |AllPairs(Fetch(s.rows, s.mark), c.system)| >= c.minPairs)
    && (c.mode == Gated ==> MayAccept(c, s.baseline))
  }

  ghost predicate Unready(c: Config, s: Learner) {
    && !CanDeploy(c, s)
    && (s.phase.Marked? ==> s.phase.mark == s.mark)
    && (HasLogs(s.phase) ==> !CanCommit(c, s))
  }

  lemma StepKeepsUnready(c: Config, s: Learner, e: Event)
    requires Unready(c, s) && !e.Log?
    ensures Unready(c, Step(c, s, e)) && Step(c, s, e).batches == s.batches
  {
    var t := Step(c, s, e);
    assert t.rows == s.rows && t.mark == s.mark && t.batches == s.batches;
    if MayAccept(c, t.baseline) {
      BaselineIsNoEasier(c, s, e);
    }
    if !e.FetchLogs? && HasLogs(t.phase) && CanCommit(c, t) {
      CanCommitAlready(c, s, e);
    }
  }

  /** No step makes acceptance possible. */
  lemma BaselineIsNoEasier(c: Config, s: Learner, e: Event)
    requires MayAccept(c, Step(c, s, e).baseline)
    ensures MayAccept(c, s.baseline)
  {
    match e
    case ScoreBaseline(passed) => if passed <= c.suite { EvalGate.ShareBounds(passed, c.suite); }
    case Rebaseline(passed) => if passed <= c.suite { EvalGate.ShareBounds(passed, c.suite); }
    case _ =>
  }

  lemma {:induction false} RunKeepsUnready(c: Config, s: Learner, more: seq<Event>)
    requires Unready(c, s) && NoLogs(more)
    ensures Unready(c, Run(c, s, more)) && Run(c, s, more).batches == s.batches
    decreases |more|
  {
    if more != [] {
      RunKeepsUnready(c, s, more[..|more| - 1]);
      StepKeepsUnready(c, Run(c, s, more[..|more| - 1]), more[|more| - 1]);
    }
  }

  /** Between cycles, some continuation without further messages deploys a batch if and only if the
      rows after the watermark yield enough pairs and the gate can accept a candidate. */
  lemma IdleDeploysIff(c: Config, s: Learner)
    requires s.phase.Waiting?
    ensures (exists more :: NoLogs(more) && Run(c, s, more).batches != s.batches) <==> CanDeploy(c, s)
  {
    if CanDeploy(c, s) {
      var start := [Begin, FetchLogs];
      RunFirst(c, s, start);
      RunFirst(c, Step(c, s, Begin), start[1..]);
      var fetched := Run(c, s, start);
      var more := CommitIsReachable(c, fetched);
      RunConcat(c, s, start, more);
      assert NoLogs(start + more) && Run(c, s, start + more).batches != s.batches;
    } else {
      forall more | NoLogs(more) ensures Run(c, s, more).batches == s.batches {
        RunKeepsUnready(c, s, more);
      }
    }
  }

  // ---- whole runs ----

  /** Messages get new ids and strictly increasing timestamps. */
  ghost predicate InSequence(c: Config, s: Learner, events: seq<Event>) {
    forall k :: 0 <= k < |events| && events[k].Log? ==>
      var before := Run(c, s, events[..k]);
      NewId(before, events[k].row) && forall r :: r in before.rows ==> r.created < events[k].row.created
  }

  lemma InSequencePrefix(c: Config, s: Learner, events: seq<Event>)
    requires InSequence(c, s, events) && events != []
    ensures InSequence(c, s, events[..|events| - 1])
  {
    var before := events[..|events| - 1];
    forall i | 0 <= i < |before| && before[i].Log?
      ensures var t := Run(c, s, before[..i]);
              NewId(t, before[i].row) && forall r :: r in t.rows ==> r.created < before[i].row.created
    {
      assert before[..i] == events[..i] && before[i] == events[i];
    }
  }

  lemma {:induction false} RunConserves(c: Config, baseline: Option<real>, events: seq<Event>)
    requires InSequence(c, Start(baseline), events)
    ensures Sound(Run(c, Start(baseline), events)) && Conserved(Run(c, Start(baseline), events))
    decreases |events|
  {
    if events != [] {
      var k := |events| - 1;
      var before, e := events[..k], events[k];
      var s := Run(c, Start(baseline), before);
      InSequencePrefix(c, Start(baseline), events);
      RunConserves(c, baseline, before);
      StepKeepsSound(c, s, e);
      if e.Log? {
        FrontierIsStored(s);
        assert events[..k] == before;
      }
      StepConserves(c, s, e);
    }
  }

  lemma FrontierIsStored(s: Learner)
    requires Conserved(s)
    ensures Frontier(s).Some? ==> IsStored(s, Frontier(s).value)
  {
    if HasLogs(s.phase) && s.phase.logs != [] {
      NewestIsStored(s);
    }
  }

  /** Watermark conservation: with messages logged anywhere inside cycles, in strictly increasing
      timestamps, every stored row is above the watermark and in no deployed batch, or at or
      below it and in exactly one. */
  lemma EveryRowOnce(c: Config, baseline: Option<real>, events: seq<Event>)
    requires InSequence(c, Start(baseline), events)
    ensures var s := Run(c, Start(baseline), events);
            forall r :: r in s.rows ==>
              if After(s.mark, r.created) then Consumed(s.batches)[r] == 0 else Consumed(s.batches)[r] == 1
  {
    RunConserves(c, baseline, events);
    var s := Run(c, Start(baseline), events);
    forall r | r in s.rows ensures Consumed(s.batches)[r] == if After(s.mark, r.created) then 0 else 1 {
      assert RowConserved(s, r);
    }
  }

  lemma {:induction false} JoinedIsConsumed(batches: seq<seq<Row>>)
    ensures multiset(Joined(batches)) == Consumed(batches)
    decreases |batches|
  {
    if batches != [] {
      JoinedIsConsumed(batches[..|batches| - 1]);
    }
  }

  lemma AppendTables(a: seq<Row>, b: seq<Row>)
    requires IsTable(a) && IsTable(b)
    requires forall r, q :: r in a && q in b ==> InOrder(r, q) && r.id != q.id
    ensures IsTable(a + b)
  {
  }

  /** Different rows of a table have different ids. */
  lemma TableIds(rows: seq<Row>, r: Row, q: Row)
    requires IsTable(rows) && r in rows && q in rows && r != q
    ensures r.id != q.id
  {
    var i :| 0 <= i < |rows| && rows[i] == r;
    var j :| 0 <= j < |rows| && rows[j] == q;
  }

  /** Rows that are not pending precede rows that are. */
  lemma ConsumedThenPending(s: Learner, a: seq<Row>, b: seq<Row>)
    requires IsTable(s.rows) && IsTable(a) && IsTable(b)
    requires forall r :: r in a ==> r in s.rows && !Pending(s, r)
    requires forall r :: r in b ==> r in s.rows && Pending(s, r)
    ensures IsTable(a + b)
  {
    forall r, q | r in a && q in b ensures InOrder(r, q) && r.id != q.id {
      TableIds(s.rows, r, q);
    }
    AppendTables(a, b);
  }

  lemma JoinedRows(s: Learner)
    requires Conserved(s)
    ensures forall r :: r in Joined(s.batches) <==> r in s.rows && !Pending(s, r)
  {
    JoinedIsConsumed(s.batches);
    forall r: Row ensures r in Joined(s.batches) <==> r in s.rows && !Pending(s, r) {
      assert RowConserved(s, r);
      assert r in Joined(s.batches) <==> r in multiset(Joined(s.batches));
    }
  }

  lemma {:induction false} BatchesAreOrdered(c: Config, baseline: Option<real>, events: seq<Event>)
    requires InSequence(c, Start(baseline), events)
    ensures IsTable(Joined(Run(c, Start(baseline), events).batches))
    decreases |events|
  {
    if events != [] {
      var before, e := events[..|events| - 1], events[|events| - 1];
      var s := Run(c, Start(baseline), before);
      InSequencePrefix(c, Start(baseline), events);
      BatchesAreOrdered(c, baseline, before);
      RunConserves(c, baseline, before);
      OnlyCommitConsumes(c, s, e);
      if e.Commit? && s.phase.Ready? {
        CommitIsOrdered(s);
      }
    }
  }

  lemma CommitIsOrdered(s: Learner)
    requires Sound(s) && Conserved(s) && s.phase.Ready? && IsTable(Joined(s.batches))
    ensures IsTable(Joined(s.batches + [s.phase.logs]))
  {
    JoinedRows(s);
    forall r | r in s.phase.logs ensures r in s.rows {
      assert RowConserved(s, r);
    }
    ConsumedThenPending(s, Joined(s.batches), s.phase.logs);
    assert (s.batches + [s.phase.logs])[..|s.batches|] == s.batches;
  }

  /** Over a whole run the table is the deployed batches, one after the other, followed by the rows
      still pending: nothing is left out, repeated or moved. */
  lemma BatchesAreThePrefix(c: Config, baseline: Option<real>, events: seq<Event>)
    requires InSequence(c, Start(baseline), events)
    ensures var s := Run(c, Start(baseline), events);
            s.rows == Joined(s.batches) + Fetch(s.rows, s.mark)
  {
    var s := Run(c, Start(baseline), events);
    RunConserves(c, baseline, events);
    BatchesAreOrdered(c, baseline, events);
    JoinedRows(s);
    FetchFacts(s.rows, s.mark);
    var all := Joined(s.batches) + Fetch(s.rows, s.mark);
    ConsumedThenPending(s, Joined(s.batches), Fetch(s.rows, s.mark));
    forall r ensures r in all <==> r in s.rows {
      assert r in all <==> r in Joined(s.batches) || r in Fetch(s.rows, s.mark);
    }
    SameRowsSameTable(s.rows, all);
  }

  /** What training in batches misses, over a whole run: the pairs of a session in the whole table
      are those of its batches and of the pending rows, and at each boundary the pair, if any, of
      the turn that was open there and is answered in the next batch. */
  lemma BatchesMissOnlyStraddling(c: Config, baseline: Option<real>, events: seq<Event>, session: string,
                                  system: string)
    requires InSequence(c, Start(baseline), events)
    ensures var s := Run(c, Start(baseline), events);
            PairsOf(s.rows, session, system)
            == PairsAcross(s.batches + [Fetch(s.rows, s.mark)], session, system)
  {
    var s := Run(c, Start(baseline), events);
    var all := s.batches + [Fetch(s.rows, s.mark)];
    BatchesAreThePrefix(c, baseline, events);
    assert all[..|s.batches|] == s.batches && Joined(all) == s.rows;
    PairsOfJoined(all, session, system);
  }

  /** Only a committed cycle consumes anything, and committing a non-empty batch moves the
      watermark strictly up to the newest row of the batch. */
  lemma OnlyCommitConsumes(c: Config, s: Learner, e: Event)
    requires Sound(s)
    ensures var t := Step(c, s, e);
            && (t.batches != s.batches ==> e.Commit? && s.phase.Ready? && t.batches == s.batches + [s.phase.logs])
            && (t.mark != s.mark ==> e.Commit? && s.phase.Ready? && s.phase.logs != [])
            && (e.Commit? && s.phase.Ready? && s.phase.logs != [] ==>
                  t.mark == Some(Newest(s.phase.logs)) && After(s.mark, t.mark.value))
  {
    if e.Commit? && s.phase.Ready? && s.phase.logs != [] {
      NewestFacts(s.phase.logs);
    }
  }

  /** A row logged at or below the watermark is lost: no later cycle of any run consumes it. */
  lemma {:induction false} LateRowIsLost(c: Config, s: Learner, r: Row, events: seq<Event>)
    requires Sound(s) && !After(s.mark, r.created) && Consumed(s.batches)[r] == 0
    ensures var t := Run(c, s, events);
            Sound(t) && !After(t.mark, r.created) && Consumed(t.batches)[r] == 0
    decreases |events|
  {
    if events != [] {
      var before, e := events[..|events| - 1], events[|events| - 1];
      LateRowIsLost(c, s, r, before);
      var t := Run(c, s, before);
      StepKeepsSound(c, t, e);
      OnlyCommitConsumes(c, t, e);
      if e.Commit? && t.phase.Ready? {
        assert r !in t.phase.logs;
        CommitCounts(t.batches, t.phase.logs, r);
      }
    }
  }

  // ---- what becomes active ----

  ghost predicate IsAmong(promoted: seq<Promotion>, name: string) {
    exists i :: 0 <= i < |promoted| && promoted[i].name == name
  }

  predicate HasCandidate(p: Phase) {
    p.Trained? || p.Shadowed? || p.Measured? || p.Rejected?
  }

  /** The gate promoted this adapter with these weights. */
  ghost predicate IsScored(promoted: seq<Promotion>, name: string, path: string) {
    exists i :: 0 <= i < |promoted| && promoted[i].name == name && promoted[i].path == path
  }

  /** Whatever is active or kept for rollback was promoted by the gate, with the weights that are
      loaded under its name. */
  ghost predicate SelectsScored(reg: LoraRegistry.Registry, promoted: seq<Promotion>) {
    && (reg.active.Some? ==> IsScored(promoted, reg.active.value, Engine.PathOf(reg, reg.active.value)))
    && (reg.previous.Some? ==> IsScored(promoted, reg.previous.value, Engine.PathOf(reg, reg.previous.value)))
  }

  predicate IsCandidate(p: Phase, name: string) {
    (p.Shadowed? || p.Measured?) && p.name == name
  }

  /** The candidate under evaluation, if it is loaded, is loaded with the weights just trained. */
  predicate CandidateIsTrained(p: Phase, reg: LoraRegistry.Registry) {
    (p.Shadowed? || p.Measured?) && p.name in LoraRegistry.Names(reg.loaded) ==>
      Engine.PathOf(reg, p.name) == p.path
  }

  ghost predicate SelectsGated(s: Learner) {
    SelectsScored(s.eng.reg, s.promoted) && CandidateIsTrained(s.phase, s.eng.reg)
  }

  /** Every promotion reached the bar it was judged by, under a name generated before. */
  ghost predicate AllPassed(promoted: seq<Promotion>, names: set<string>, tolerance: real) {
    forall i :: 0 <= i < |promoted| ==>
      && promoted[i].name in names
      && EvalGate.Accepts(promoted[i].bar, tolerance, promoted[i].score)
  }

  ghost predicate CandidateIsNew(p: Phase, promoted: seq<Promotion>, names: set<string>) {
    HasCandidate(p) ==> p.name in names && !IsAmong(promoted, p.name)
  }

  /** Holds in every run, whatever operators do: everything promoted reached its bar, the candidate
      under test is not among it, and there is no promotion without a baseline. */
  ghost predicate GateInv(c: Config, s: Learner) {
    && Engine.Inv(c.engine, s.eng)
    && AllPassed(s.promoted, s.names, c.tolerance)
    && CandidateIsNew(s.phase, s.promoted, s.names)
    && (s.baseline.None? ==> s.promoted == [] && !s.phase.Measured?)
  }

  lemma StepKeepsGateInv(c: Config, s: Learner, e: Event)
    requires c.mode == Gated && GateInv(c, s)
    ensures GateInv(c, Step(c, s, e))
  {
    StepKeepsEngineInv(c, s, e);
    if e.ScoreCandidate? && s.phase.Measured? {
      PromotionsGrow(s.promoted, Promotion(s.phase.name, s.phase.path, Score(c, e.passed), s.phase.bar));
    } else if e.Train? && s.phase.Fetched? && e.name !in s.names {
      NewNameIsNotPromoted(s, c.tolerance, e.name);
      MoreNamesAllPassed(s.promoted, s.names, e.name, c.tolerance);
    }
  }

  lemma StepKeepsEngineInv(c: Config, s: Learner, e: Event)
    requires Engine.Inv(c.engine, s.eng)
    ensures Engine.Inv(c.engine, Step(c, s, e).eng)
  {
    match e
    case ShadowLoad(now, evict, load) =>
      if s.phase.Trained? {
        var record := LoraRegistry.AdapterRecord(s.phase.name, s.phase.path, now);
        Engine.LoadIsSafe(c.engine, s.eng, record, false, evict, load);
      }
    case DirectLoad(now, evict, load) =>
      if s.phase.Trained? {
        var record := LoraRegistry.AdapterRecord(s.phase.name, s.phase.path, now);
        Engine.LoadIsSafe(c.engine, s.eng, record, true, evict, load);
      }
    case ScoreCandidate(_) =>
      if s.phase.Measured? {
        Engine.StepKeepsInv(c.engine, s.eng, Engine.ActivateOp(s.phase.name));
      }
    case UnloadRejected(post) =>
      if s.phase.Rejected? {
        Engine.StepKeepsInv(c.engine, s.eng, Engine.UnloadOp(s.phase.name, post));
      }
    case Operate(op) => Engine.StepKeepsInv(c.engine, s.eng, op);
    case _ =>
  }

  lemma MoreNamesAllPassed(promoted: seq<Promotion>, names: set<string>, name: string, tolerance: real)
    requires AllPassed(promoted, names, tolerance)
    ensures AllPassed(promoted, names + {name}, tolerance)
  {
    forall i | 0 <= i < |promoted| ensures promoted[i].name in names + {name} {
      assert promoted[i].name in names;
    }
  }

  lemma NewNameIsNotPromoted(s: Learner, tolerance: real, name: string)
    requires AllPassed(s.promoted, s.names, tolerance) && name !in s.names
    ensures !IsAmong(s.promoted, name)
  {
  }

  lemma PromotionsGrow(promoted: seq<Promotion>, p: Promotion)
    ensures forall name :: IsAmong(promoted, name) ==> IsAmong(promoted + [p], name)
    ensures IsAmong(promoted + [p], p.name)
    ensures forall name :: IsAmong(promoted + [p], name) ==> IsAmong(promoted, name) || name == p.name
    ensures forall name, path :: IsScored(promoted, name, path) ==> IsScored(promoted + [p], name, path)
    ensures IsScored(promoted + [p], p.name, p.path)
  {
    assert (promoted + [p])[|promoted|] == p;
    forall name, path | IsScored(promoted, name, path) ensures IsScored(promoted + [p], name, path) {
      var i :| 0 <= i < |promoted| && promoted[i].name == name && promoted[i].path == path;
      assert (promoted + [p])[i] == promoted[i];
    }
    forall name | IsAmong(promoted, name) ensures IsAmong(promoted + [p], name) {
      var i :| 0 <= i < |promoted| && promoted[i].name == name;
      assert (promoted + [p])[i].name == name;
    }
  }

  lemma {:induction false} RunKeepsGateInv(c: Config, baseline: Option<real>, events: seq<Event>)
    requires c.mode == Gated
    ensures GateInv(c, Run(c, Start(baseline), events))
    decreases |events|
  {
    if events != [] {
      RunKeepsGateInv(c, baseline, events[..|events| - 1]);
      StepKeepsGateInv(c, Run(c, Start(baseline), events[..|events| - 1]), events[|events| - 1]);
    }
  }

  /** A load succeeds: its own POST does, and so does the one that makes room, if any. */
  predicate LoadSucceeds(c: Config, s: Learner, evict: Engine.Post, load: Engine.Post) {
    && load == Engine.Ok
    && (LoraRegistry.EvictionCandidate(s.eng.reg, c.engine.maxLoras).None? || evict == Engine.Ok)
  }

  /** Operators activate nothing but what the gate promoted, with the weights it scored, and put no
      other weights under a name that is selected or being judged. */
  ghost predicate RespectsGate(c: Config, s: Learner, e: Event) {
    match e
    case Operate(ActivateOp(name)) =>
      name in LoraRegistry.Names(s.eng.reg.loaded) ==> IsScored(s.promoted, name, Engine.PathOf(s.eng.reg, name))
    case Operate(LoadOp(record, activate, evict, load)) =>
      LoadSucceeds(c, s, evict, load) ==>
        && (activate || LoraRegistry.Protected(s.eng.reg, record.name) ==>
              IsScored(s.promoted, record.name, record.path))
        && (IsCandidate(s.phase, record.name) ==> record.path == s.phase.path)
    case _ => true
  }

  /** A load changes the weights of its own name only. */
  lemma LoadKeepsWeights(c: Config, e: Engine.Eng, record: LoraRegistry.AdapterRecord, activate: bool,
                         evict: Engine.Post, load: Engine.Post)
    requires Engine.Inv(c.engine, e)
    ensures var (after, ok) := Engine.Load(c.engine, e, record, activate, evict, load);
            && (ok ==> Engine.PathOf(after.reg, record.name) == record.path)
            && forall name :: name in LoraRegistry.Names(after.reg.loaded) && !(ok && name == record.name) ==>
                 && name in LoraRegistry.Names(e.reg.loaded)
                 && Engine.PathOf(after.reg, name) == Engine.PathOf(e.reg, name)
  {
    var (after, ok) := Engine.Load(c.engine, e, record, activate, evict, load);
    Engine.LoadKeepsPath(c.engine, e, record, activate, evict, load, record.name);
    forall name | name in LoraRegistry.Names(after.reg.loaded) && !(ok && name == record.name)
      ensures name in LoraRegistry.Names(e.reg.loaded) && Engine.PathOf(after.reg, name) == Engine.PathOf(e.reg, name)
    {
      Engine.LoadKeepsPath(c.engine, e, record, activate, evict, load, name);
    }
  }

  /** What a successful load means for the selection. */
  ghost predicate Loads(before: LoraRegistry.Registry, after: LoraRegistry.Registry,
                        record: LoraRegistry.AdapterRecord, activate: bool) {
    && Engine.Safe(before) && Engine.Safe(after)
    && after.active == (if activate then Some(record.name) else before.active)
    && after.previous == (if !activate || before.active == Some(record.name) then before.previous else before.active)
    && record.name in LoraRegistry.Names(after.loaded) && Engine.PathOf(after, record.name) == record.path
    && forall name :: name in LoraRegistry.Names(after.loaded) && name != record.name ==>
         Engine.PathOf(after, name) == Engine.PathOf(before, name)
  }

  lemma LoadedIsScoredIff(before: LoraRegistry.Registry, after: LoraRegistry.Registry,
                          record: LoraRegistry.AdapterRecord, activate: bool, promoted: seq<Promotion>)
    requires Loads(before, after, record, activate) && SelectsScored(before, promoted)
    ensures SelectsScored(after, promoted)
            <==> (activate || LoraRegistry.Protected(before, record.name) ==>
                    IsScored(promoted, record.name, record.path))
  {
  }

  lemma LoadedIsTrainedIff(before: LoraRegistry.Registry, after: LoraRegistry.Registry,
                           record: LoraRegistry.AdapterRecord, activate: bool, p: Phase)
    requires Loads(before, after, record, activate) && CandidateIsTrained(p, before)
    requires forall name :: name in LoraRegistry.Names(after.loaded) && name != record.name ==>
               name in LoraRegistry.Names(before.loaded)
    ensures CandidateIsTrained(p, after) <==> (IsCandidate(p, record.name) ==> record.path == p.path)
  {
  }

  lemma FewerLoadedSelects(before: LoraRegistry.Registry, after: LoraRegistry.Registry, promoted: seq<Promotion>,
                           p: Phase)
    requires SelectsScored(before, promoted) && CandidateIsTrained(p, before) && Engine.Safe(after)
    requires after.active == before.active && after.previous == before.previous
    requires forall name :: name in LoraRegistry.Names(after.loaded) ==>
               && name in LoraRegistry.Names(before.loaded)
               && Engine.PathOf(after, name) == Engine.PathOf(before, name)
    ensures SelectsScored(after, promoted) && CandidateIsTrained(p, after)
  {
  }

  lemma LoadsMeans(c: Config, e: Engine.Eng, record: LoraRegistry.AdapterRecord, activate: bool, evict: Engine.Post)
    requires Engine.Inv(c.engine, e) && Engine.Load(c.engine, e, record, activate, evict, Engine.Ok).1
    ensures var after := Engine.Load(c.engine, e, record, activate, evict, Engine.Ok).0.reg;
            && Loads(e.reg, after, record, activate)
            && forall name :: name in LoraRegistry.Names(after.loaded) && name != record.name ==>
                 name in LoraRegistry.Names(e.reg.loaded)
  {
    Engine.LoadIsSafe(c.engine, e, record, activate, evict, Engine.Ok);
    Engine.LoadMeans(c.engine, e, record, activate, evict, record.name);
    LoadKeepsWeights(c, e, record, activate, evict, Engine.Ok);
  }

  lemma LoadSelectsIff(c: Config, s: Learner, op: Engine.Op)
    requires GateInv(c, s) && SelectsGated(s) && op.LoadOp?
    ensures SelectsGated(Step(c, s, Operate(op))) <==> RespectsGate(c, s, Operate(op))
  {
    LoadSucceedsIff(c, s, op);
    if LoadSucceeds(c, s, op.evict, op.load) {
      var after := Engine.Load(c.engine, s.eng, op.record, op.activate, op.evict, op.load).0;
      LoadsMeans(c, s.eng, op.record, op.activate, op.evict);
      LoadedIsScoredIff(s.eng.reg, after.reg, op.record, op.activate, s.promoted);
      LoadedIsTrainedIff(s.eng.reg, after.reg, op.record, op.activate, s.phase);
    } else {
      FailedLoadSelects(c, s, op);
    }
  }

  lemma FailedLoadSelects(c: Config, s: Learner, op: Engine.Op)
    requires GateInv(c, s) && SelectsGated(s) && op.LoadOp? && !LoadSucceeds(c, s, op.evict, op.load)
    ensures SelectsGated(Step(c, s, Operate(op)))
  {
    LoadSucceedsIff(c, s, op);
    Engine.LoadIsSafe(c.engine, s.eng, op.record, op.activate, op.evict, op.load);
    LoadKeepsWeights(c, s.eng, op.record, op.activate, op.evict, op.load);
    var after := Engine.Load(c.engine, s.eng, op.record, op.activate, op.evict, op.load).0;
    FewerLoadedSelects(s.eng.reg, after.reg, s.promoted, s.phase);
  }

  lemma LoadSucceedsIff(c: Config, s: Learner, op: Engine.Op)
    requires op.LoadOp?
    ensures Engine.Load(c.engine, s.eng, op.record, op.activate, op.evict, op.load).1
            <==> LoadSucceeds(c, s, op.evict, op.load)
  {
  }

  lemma ShadowLoadSelects(c: Config, s: Learner, e: Event)
    requires c.mode == Gated && GateInv(c, s) && SelectsGated(s) && e.ShadowLoad? && s.phase.Trained?
    ensures SelectsGated(Step(c, s, e))
  {
    var record := LoraRegistry.AdapterRecord(s.phase.name, s.phase.path, e.now);
    Engine.LoadIsSafe(c.engine, s.eng, record, false, e.evict, e.load);
    LoadKeepsWeights(c, s.eng, record, false, e.evict, e.load);
    ScoredIsAmong(s.promoted);
  }

  lemma ScoredIsAmong(promoted: seq<Promotion>)
    ensures forall name, path :: IsScored(promoted, name, path) ==> IsAmong(promoted, name)
  {
  }

  lemma RemovalSelects(s: Learner, name: string, reg: LoraRegistry.Registry, p: Phase)
    requires Engine.Safe(s.eng.reg) && SelectsGated(s)
    requires reg == LoraRegistry.RemoveAdapter(s.eng.reg, name) || reg == s.eng.reg
    requires p == s.phase || p == Waiting
    ensures SelectsScored(reg, s.promoted) && CandidateIsTrained(p, reg)
  {
    Engine.RemoveKeepsSafe(s.eng.reg, name);
    forall n | n in LoraRegistry.Names(LoraRegistry.RemoveAdapter(s.eng.reg, name).loaded)
      ensures Engine.PathOf(LoraRegistry.RemoveAdapter(s.eng.reg, name), n) == Engine.PathOf(s.eng.reg, n)
    {
      Engine.RemoveKeepsPath(s.eng.reg, name, n);
    }
  }

  lemma JudgeSelects(c: Config, s: Learner, score: real)
    requires SelectsGated(s) && s.phase.Measured?
    ensures SelectsGated(Judge(c, s, score))
  {
    PromotionsGrow(s.promoted, Promotion(s.phase.name, s.phase.path, score, s.phase.bar));
  }

  /** One step from a selection of the gate's leads to one if and only if it respects the gate. */
  lemma StepSelectsIff(c: Config, s: Learner, e: Event)
    requires c.mode == Gated && GateInv(c, s) && SelectsGated(s)
    ensures SelectsGated(Step(c, s, e)) <==> RespectsGate(c, s, e)
  {
    var t := Step(c, s, e);
    match e
    case ShadowLoad(_, _, _) => if s.phase.Trained? { ShadowLoadSelects(c, s, e); }
    case ScoreCandidate(passed) => if s.phase.Measured? { JudgeSelects(c, s, Score(c, passed)); }
    case UnloadRejected(_) => if s.phase.Rejected? { RemovalSelects(s, s.phase.name, t.eng.reg, t.phase); }
    case Operate(op) =>
      match op {
        case UnloadOp(name, _) => RemovalSelects(s, name, t.eng.reg, t.phase);
        case RollbackOp => Engine.RollbackIsSwap(c.engine, s.eng);
        case LoadOp(_, _, _, _) => LoadSelectsIff(c, s, op);
        case ActivateOp(_) =>
      }
    case _ =>
  }

  /** At every point of the run only scored adapters are selected, and the trained one is judged. */
  ghost predicate AlwaysSelectsScored(c: Config, start: Learner, events: seq<Event>) {
    forall k :: 0 <= k <= |events| ==> SelectsGated(Run(c, start, events[..k]))
  }

  ghost predicate AlwaysRespectsGate(c: Config, start: Learner, events: seq<Event>) {
    forall k :: 0 <= k < |events| ==> RespectsAt(c, start, events, k)
  }

  ghost predicate RespectsAt(c: Config, start: Learner, events: seq<Event>, k: nat)
    requires k < |events|
  {
    RespectsGate(c, Run(c, start, events[..k]), events[k])
  }

  /** Shadow-gate safety, over all runs with any POST outcomes, exceptions, and operator rollbacks,
      unloads, loads, activations and new baselines: throughout the run whatever is active or kept
      for rollback was promoted by the gate with the weights that are loaded, and whatever is judged
      has the weights just trained, if and only if operators respect the gate. */
  lemma {:induction false} GateHoldsIff(c: Config, baseline: Option<real>, events: seq<Event>)
    requires c.mode == Gated
    ensures AlwaysSelectsScored(c, Start(baseline), events) <==> AlwaysRespectsGate(c, Start(baseline), events)
    decreases |events|
  {
    var start := Start(baseline);
    if events == [] {
      assert SelectsGated(start);
    } else {
      var before, e := events[..|events| - 1], events[|events| - 1];
      var s := Run(c, start, before);
      GateHoldsIff(c, baseline, before);
      SelectsSnoc(c, start, events);
      RespectsSnoc(c, start, events);
      RunKeepsGateInv(c, baseline, before);
      if AlwaysSelectsScored(c, start, before) {
        WholePrefix(before);
        StepSelectsIff(c, s, e);
      }
    }
  }

  lemma SelectsSnoc(c: Config, start: Learner, events: seq<Event>)
    requires events != []
    ensures AlwaysSelectsScored(c, start, events)
            <==> && AlwaysSelectsScored(c, start, events[..|events| - 1])
                 && SelectsGated(Run(c, start, events))
  {
    var before := events[..|events| - 1];
    WholePrefix(events);
    if AlwaysSelectsScored(c, start, events) {
      forall k | 0 <= k <= |before| ensures SelectsGated(Run(c, start, before[..k])) {
        InitPrefix(events, k);
      }
    }
    if AlwaysSelectsScored(c, start, before) && SelectsGated(Run(c, start, events)) {
      forall k | 0 <= k <= |events| ensures SelectsGated(Run(c, start, events[..k])) {
        if k < |events| {
          InitPrefix(events, k);
        }
      }
    }
  }

  lemma InitPrefix(events: seq<Event>, k: nat)
    requires k < |events|
    ensures events[..|events| - 1][..k] == events[..k]
  {
  }

  lemma WholePrefix(events: seq<Event>)
    ensures events[..|events|] == events
  {
  }

  lemma RespectsAtInit(c: Config, start: Learner, events: seq<Event>, k: nat)
    requires k < |events| - 1
    ensures RespectsAt(c, start, events[..|events| - 1], k) == RespectsAt(c, start, events, k)
  {
    InitPrefix(events, k);
  }

  lemma RespectsSnoc(c: Config, start: Learner, events: seq<Event>)
    requires events != []
    ensures AlwaysRespectsGate(c, start, events)
            <==> && AlwaysRespectsGate(c, start, events[..|events| - 1])
                 && RespectsAt(c, start, events, |events| - 1)
  {
    var before := events[..|events| - 1];
    if AlwaysRespectsGate(c, start, events) {
      forall k | 0 <= k < |before| ensures RespectsAt(c, start, before, k) {
        RespectsAtInit(c, start, events, k);
      }
    }
    if AlwaysRespectsGate(c, start, before) && RespectsAt(c, start, events, |before|) {
      forall k | 0 <= k < |events| ensures RespectsAt(c, start, events, k) {
        if k < |before| {
          RespectsAtInit(c, start, events, k);
        }
      }
    }
  }

  /** While operators respect the gate, the weights that are active scored at least the bar they were
      judged by, less the tolerance, and a candidate is neither active nor the rollback target while it is
      trained, shadow-loaded, scored or being thrown away. */
  lemma OnlyGatedAdaptersServe(c: Config, baseline: Option<real>, events: seq<Event>)
    requires c.mode == Gated && AlwaysRespectsGate(c, Start(baseline), events)
    ensures var s := Run(c, Start(baseline), events);
            && (s.eng.reg.active.Some? ==>
                  exists i :: 0 <= i < |s.promoted| && s.promoted[i].name == s.eng.reg.active.value
                    && s.promoted[i].path == Engine.PathOf(s.eng.reg, s.eng.reg.active.value)
                    && s.promoted[i].score >= s.promoted[i].bar - c.tolerance)
            && (HasCandidate(s.phase) ==>
                  s.eng.reg.active != Some(s.phase.name) && s.eng.reg.previous != Some(s.phase.name))
  {
    SelectsAtEnd(c, baseline, events);
    ScoredIsAmong(Run(c, Start(baseline), events).promoted);
  }

  lemma SelectsAtEnd(c: Config, baseline: Option<real>, events: seq<Event>)
    requires c.mode == Gated && AlwaysRespectsGate(c, Start(baseline), events)
    ensures var s := Run(c, Start(baseline), events);
            GateInv(c, s) && SelectsGated(s)
  {
    GateHoldsIff(c, baseline, events);
    WholePrefix(events);
    RunKeepsGateInv(c, baseline, events);
  }

  // ---- the baseline ----

  predicate NoRebaseline(events: seq<Event>) {
    forall k :: 0 <= k < |events| ==> !events[k].Rebaseline?
  }

  /** The bars of all promotions and of the candidate are the baseline. */
  ghost predicate OneBar(s: Learner) {
    && (forall i :: 0 <= i < |s.promoted| ==> s.baseline == Some(s.promoted[i].bar))
    && (s.phase.Measured? ==> s.baseline == Some(s.phase.bar))
    && (s.phase.Shadowed? ==> s.baseline.None?)
  }

  lemma StepKeepsOneBar(c: Config, s: Learner, e: Event)
    requires OneBar(s) && !e.Rebaseline?
    ensures OneBar(Step(c, s, e))
    ensures s.baseline.Some? ==> Step(c, s, e).baseline == s.baseline
  {
  }

  /** Until establish_baseline is called from outside, every adapter ever promoted was judged by one
      baseline, the current one. */
  lemma {:induction false} OneBaseline(c: Config, baseline: Option<real>, events: seq<Event>)
    requires NoRebaseline(events)
    ensures OneBar(Run(c, Start(baseline), events))
    decreases |events|
  {
    if events != [] {
      var before := events[..|events| - 1];
      OneBaseline(c, baseline, before);
      StepKeepsOneBar(c, Run(c, Start(baseline), before), events[|events| - 1]);
    }
  }

  lemma StepKeepsBaseline(c: Config, s: Learner, e: Event)
    requires s.baseline.Some? && !s.phase.Shadowed? && !e.Rebaseline?
    ensures Step(c, s, e).baseline == s.baseline && !Step(c, s, e).phase.Shadowed?
  {
  }

  /** A baseline that is set changes in no run without such a call, unless the gate is establishing
      one already. */
  lemma {:induction false} BaselineIsFixed(c: Config, s: Learner, events: seq<Event>)
    requires s.baseline.Some? && !s.phase.Shadowed? && NoRebaseline(events)
    ensures Run(c, s, events).baseline == s.baseline && !Run(c, s, events).phase.Shadowed?
    decreases |events|
  {
    if events != [] {
      var before := events[..|events| - 1];
      BaselineIsFixed(c, s, before);
      StepKeepsBaseline(c, Run(c, s, before), events[|events| - 1]);
    }
  }

  /** The baseline that the gate establishes is the base model's score, whatever the models reply,
      if and only if the suite is empty or chat serves the base model. */
  lemma FirstBaselineIsOfBaseIff(reg: LoraRegistry.Registry, cases: seq<EvalGate.GoldenCase>, base: string)
    ensures var served := (i: nat) => Engine.ChatModel(reg, base);
            (forall models: EvalGate.Models ::
               EvalGate.Accuracy(cases, EvalGate.Heard("", served, models)) == EvalGate.Accuracy(cases, models(base)))
            <==> cases == [] || Engine.ChatModel(reg, base) == base
  {
    var served := (i: nat) => Engine.ChatModel(reg, base);
    EvalGate.BaselineIsOfBaseIff(cases, served, base);
    assert cases != [] ==> (0 <= 0 < |cases| ==> served(0) == base) == (Engine.ChatModel(reg, base) == base);
  }

  /** Chat serves the base model until the first baseline is set, while operators respect the gate. */
  lemma BaseServesUntilBaseline(c: Config, events: seq<Event>, base: string)
    requires c.mode == Gated && AlwaysRespectsGate(c, Start(None), events)
    ensures var s := Run(c, Start(None), events);
            s.baseline.None? ==> Engine.ChatModel(s.eng.reg, base) == base
  {
    SelectsAtEnd(c, None, events);
  }

  /** An adapter that an operator loads before the first baseline is set is served in its place. */
  lemma LoadBeforeBaseline(c: Config, record: LoraRegistry.AdapterRecord, base: string)
    requires record.name != ""
    ensures var s := Run(c, Start(None), [Operate(Engine.LoadOp(record, true, Engine.Ok, Engine.Ok))]);
            s.baseline.None? && Engine.ChatModel(s.eng.reg, base) == record.name
  {
    RunFirst(c, Start(None), [Operate(Engine.LoadOp(record, true, Engine.Ok, Engine.Ok))]);
    Engine.LoadIsSafe(c.engine, Engine.FRESH, record, true, Engine.Ok, Engine.Ok);
  }

  // ---- cycles that are not accepted ----

  /** The candidate is neither active nor the rollback target. */
  predicate CandidateUnselected(s: Learner) {
    HasCandidate(s.phase) ==> !LoraRegistry.Protected(s.eng.reg, s.phase.name)
  }

  predicate LeavesSelection(reg: LoraRegistry.Registry, op: Engine.Op) {
    match op
    case LoadOp(_, activate, _, _) => !activate
    case ActivateOp(name) => name !in LoraRegistry.Names(reg.loaded)
    case RollbackOp => false
    case UnloadOp(name, _) => !LoraRegistry.Protected(reg, name)
  }

  /** The gate accepts nothing, operators leave the selection alone, and no selected name is trained
      again. */
  predicate SelectsNothing(c: Config, s: Learner, e: Event) {
    && (e.Operate? ==> LeavesSelection(s.eng.reg, e.op))
    && (e.Train? ==> !LoraRegistry.Protected(s.eng.reg, e.name))
    && (e.ScoreCandidate? && s.phase.Measured? && e.passed <= c.suite ==>
          !EvalGate.Accepts(s.phase.bar, c.tolerance, Score(c, e.passed)))
  }

  predicate Quiet(c: Config, s: Learner, events: seq<Event>) {
    forall k :: 0 <= k < |events| ==> SelectsNothing(c, Run(c, s, events[..k]), events[k])
  }

  lemma QuietInit(c: Config, s: Learner, events: seq<Event>)
    requires Quiet(c, s, events) && events != []
    ensures Quiet(c, s, events[..|events| - 1])
    ensures SelectsNothing(c, Run(c, s, events[..|events| - 1]), events[|events| - 1])
  {
    var before := events[..|events| - 1];
    forall k | 0 <= k < |before| ensures SelectsNothing(c, Run(c, s, before[..k]), before[k]) {
      InitPrefix(events, k);
    }
  }

  /** A quiet stretch of a run, from a state whose cycle is not accepted. */
  ghost predicate Unaccepted(c: Config, s: Learner) {
    Engine.Inv(c.engine, s.eng) && CandidateUnselected(s) && !s.phase.Ready?
  }

  predicate SameOutcome(s: Learner, t: Learner) {
    && t.eng.reg.active == s.eng.reg.active && t.eng.reg.previous == s.eng.reg.previous
    && t.mark == s.mark && t.batches == s.batches
  }

  lemma {:induction false} QuietRun(c: Config, s: Learner, cycle: seq<Event>)
    requires c.mode == Gated && Unaccepted(c, s) && Quiet(c, s, cycle)
    ensures SameOutcome(s, Run(c, s, cycle)) && Unaccepted(c, Run(c, s, cycle))
    decreases |cycle|
  {
    if cycle != [] {
      var before, e := cycle[..|cycle| - 1], cycle[|cycle| - 1];
      QuietInit(c, s, cycle);
      QuietRun(c, s, before);
      StepKeepsEngineInv(c, Run(c, s, before), e);
      QuietStep(c, Run(c, s, before), e);
    }
  }

  /** A cycle that is not accepted, from its start on and whatever is logged meanwhile, leaves the
      active adapter, the rollback target, the watermark and the deployed batches as they were;
      when the POST that throws the candidate out succeeds, the cycle ends and the candidate is no
      longer loaded. */
  lemma RejectionChangesNothing(c: Config, s: Learner, cycle: seq<Event>)
    requires c.mode == Gated && Engine.Inv(c.engine, s.eng) && CandidateUnselected(s)
    requires !s.phase.Ready? && Quiet(c, s, cycle)
    ensures var t := Run(c, s, cycle);
            && t.eng.reg.active == s.eng.reg.active && t.eng.reg.previous == s.eng.reg.previous
            && t.mark == s.mark && t.batches == s.batches
            && Engine.Inv(c.engine, t.eng) && CandidateUnselected(t) && !t.phase.Ready?
            && (t.phase.Rejected? ==>
                  && Step(c, t, UnloadRejected(Engine.Ok)).phase.Waiting?
                  && t.phase.name !in LoraRegistry.Names(Step(c, t, UnloadRejected(Engine.Ok)).eng.reg.loaded))
  {
    QuietRun(c, s, cycle);
    if Run(c, s, cycle).phase.Rejected? {
      RejectedIsUnloaded(c, Run(c, s, cycle));
    }
  }

  lemma RejectedIsUnloaded(c: Config, s: Learner)
    requires Engine.Inv(c.engine, s.eng) && s.phase.Rejected?
    ensures var t := Step(c, s, UnloadRejected(Engine.Ok));
            t.phase.Waiting? && s.phase.name !in LoraRegistry.Names(t.eng.reg.loaded)
  {
    Engine.RemoveKeepsSafe(s.eng.reg, s.phase.name);
  }

  lemma QuietStep(c: Config, s: Learner, e: Event)
    requires c.mode == Gated && Engine.Inv(c.engine, s.eng) && CandidateUnselected(s)
    requires SelectsNothing(c, s, e) && !s.phase.Ready?
    ensures var t := Step(c, s, e);
            && t.eng.reg.active == s.eng.reg.active && t.eng.reg.previous == s.eng.reg.previous
            && t.mark == s.mark && t.batches == s.batches && !t.phase.Ready? && CandidateUnselected(t)
  {
    if e.ShadowLoad? && s.phase.Trained? {
      var record := LoraRegistry.AdapterRecord(s.phase.name, s.phase.path, e.now);
      Engine.LoadIsSafe(c.engine, s.eng, record, false, e.evict, e.load);
    } else if e.Operate? && e.op.LoadOp? {
      Engine.LoadIsSafe(c.engine, s.eng, e.op.record, false, e.op.evict, e.op.load);
    }
  }

  // ---- whole cycles ----

  /** The cycle's own steps. */
  predicate OfCycle(e: Event) {
    || e.FetchLogs? || e.Train? || e.ShadowLoad? || e.DirectLoad?
    || e.ScoreBaseline? || e.ScoreCandidate? || e.UnloadRejected? || e.Commit?
  }

  /** How far a cycle is from its end. */
  function Distance(p: Phase): nat {
    match p
    case Waiting => 0
    case Marked(_) => 6
    case Fetched(_) => 5
    case Trained(_, _, _) => 4
    case Shadowed(_, _, _) => 3
    case Measured(_, _, _, _) => 2
    case Rejected(_, _) => 1
    case Ready(_, _) => 1
  }

  /** Cycles do not overlap, and every step of one that does anything brings it closer to its end,
      whatever the outcomes. */
  lemma CycleAdvances(c: Config, s: Learner, e: Event)
    ensures s.phase.Waiting? || Step(c, s, e).phase == s.phase || Distance(Step(c, s, e).phase) < Distance(s.phase)
    ensures s.phase.Waiting? ==> Step(c, s, e).phase == if e.Begin? then Marked(s.mark) else Waiting
  {
  }

  /** With an engine, a batch is ready to be deployed only once its adapter is in service. */
  lemma ReadyMeansServed(c: Config, s: Learner, e: Event)
    requires c.mode != NoEngine && Engine.Inv(c.engine, s.eng) && !s.phase.Ready? && Step(c, s, e).phase.Ready?
    ensures var t := Step(c, s, e);
            && HasCandidate(s.phase) && t.phase == Ready(s.phase.logs, s.phase.name)
            && t.eng.reg.active == Some(s.phase.name)
            && s.phase.name in LoraRegistry.Names(t.eng.reg.loaded)
            && (e.DirectLoad? ==> LoadSucceeds(c, s, e.evict, e.load))
  {
    if e.DirectLoad? {
      var record := LoraRegistry.AdapterRecord(s.phase.name, s.phase.path, e.now);
      Engine.LoadIsSafe(c.engine, s.eng, record, true, e.evict, e.load);
    }
  }

  /** Only a wired engine is waited for. */
  predicate IsWired(c: Config, s: Learner) {
    s.phase.Trained? ==> c.mode != NoEngine
  }

  /** No cycle gets stuck: its own steps can bring it to its end from wherever it stands. */
  lemma {:induction false} CycleEnds(c: Config, s: Learner) returns (more: seq<Event>)
    requires IsWired(c, s)
    ensures forall i :: 0 <= i < |more| ==> OfCycle(more[i])
    ensures Run(c, s, more).phase.Waiting?
    decreases Distance(s.phase)
  {
    if s.phase.Waiting? {
      return [];
    }
    var name := FreshName(s.names);
    var e :=
      match s.phase
      case Marked(_) => FetchLogs
      case Fetched(_) => Train(name, "", 0)
      case Trained(_, _, _) =>
        if c.mode == Gated then ShadowLoad(0.0, Engine.Ok, Engine.Ok) else DirectLoad(0.0, Engine.Ok, Engine.Ok)
      case Shadowed(_, _, _) => ScoreBaseline(0)
      case Measured(_, _, _, _) => ScoreCandidate(0)
      case Rejected(_, _) => UnloadRejected(Engine.Ok)
      case _ => Commit;
    CycleAdvances(c, s, e);
    assert Step(c, s, e).phase != s.phase && IsWired(c, Step(c, s, e));
    var rest := CycleEnds(c, Step(c, s, e));
    more := [e] + rest;
    RunFirst(c, s, more);
    assert more[1..] == rest;
  }

  /** What the environment chooses in an undisturbed cycle: the trained adapter, the pairs a curator
      builds, the clock, and the cases passed in a first baseline and by the candidate. */
  datatype Plan = Plan(name: string, path: string, built: nat, now: real, first: nat, passed: nat)

  /** The part of a cycle between the training and the commit. */
  function Service(c: Config, p: Plan): seq<Event> {
    match c.mode
    case NoEngine => []
    case Ungated => [DirectLoad(p.now, Engine.Ok, Engine.Ok)]
    case Gated => [ShadowLoad(p.now, Engine.Ok, Engine.Ok), ScoreBaseline(p.first), ScoreCandidate(p.passed)]
  }

  /** A cycle from its first await to its report, with every POST succeeding. */
  function Cycle(c: Config, p: Plan): seq<Event> {
    [Begin, FetchLogs, Train(p.name, p.path, p.built)] + Service(c, p) + [Commit]
  }

  /** The candidate reaches the baseline, be it the cycle's own first one. */
  predicate IsAccepted(c: Config, s: Learner, p: Plan) {
    && p.first <= c.suite && p.passed <= c.suite
    && EvalGate.Accepts(if s.baseline.Some? then s.baseline.value else Score(c, p.first), c.tolerance,
                        Score(c, p.passed))
  }

  /** The trainer uses a new name that is not active, there are enough pairs, and behind a gate the
      candidate is accepted. */
  predicate Succeeds(c: Config, s: Learner, p: Plan) {
    && p.name !in s.names && s.eng.reg.active != Some(p.name)
    && Built(c, Fetch(s.rows, s.mark), p.built) >= c.minPairs
    && (c.mode == Gated ==> IsAccepted(c, s, p))
  }

  /** Loading the trained adapter: in service at once without a gate, in the shadow behind one. */
  lemma LoadStep(c: Config, s: Learner, now: real)
    requires c.mode != NoEngine && Engine.Inv(c.engine, s.eng) && s.phase.Trained?
    ensures var e := if c.mode == Ungated then DirectLoad(now, Engine.Ok, Engine.Ok)
                     else ShadowLoad(now, Engine.Ok, Engine.Ok);
            var t := Step(c, s, e);
            && t == s.(eng := t.eng,
                       phase := if c.mode == Ungated then Ready(s.phase.logs, s.phase.name)
                                else Evaluating(s.phase.logs, s.phase.name, s.phase.path, s.baseline))
            && s.phase.name in LoraRegistry.Names(t.eng.reg.loaded)
            && (c.mode == Gated ==> t.eng.reg.active == s.eng.reg.active)
            && (c.mode == Ungated && s.eng.reg.active != Some(s.phase.name) ==>
                  t.eng.reg.active == Some(s.phase.name) && t.eng.reg.previous == s.eng.reg.active)
  {
    var record := LoraRegistry.AdapterRecord(s.phase.name, s.phase.path, now);
    assert Engine.Load(c.engine, s.eng, record, c.mode == Ungated, Engine.Ok, Engine.Ok).1;
    Engine.LoadMeans(c.engine, s.eng, record, c.mode == Ungated, Engine.Ok, s.phase.name);
  }

  /** An accepted adapter is taken into service before its batch is committed. */
  lemma ServiceActivates(c: Config, s: Learner, p: Plan)
    requires c.mode != NoEngine && Engine.Inv(c.engine, s.eng) && s.phase.Trained?
    requires s.eng.reg.active != Some(s.phase.name)
    requires c.mode == Gated ==> IsAccepted(c, s, p)
    ensures var t := Run(c, s, Service(c, p));
            && t.phase == Ready(s.phase.logs, s.phase.name)
            && t.rows == s.rows && t.mark == s.mark && t.batches == s.batches
            && t.eng.reg.active == Some(s.phase.name) && t.eng.reg.previous == s.eng.reg.active
  {
    LoadStep(c, s, p.now);
    var events := Service(c, p);
    RunFirst(c, s, events);
    if c.mode == Gated {
      assert events[1..] == [ScoreBaseline(p.first), ScoreCandidate(p.passed)];
      EvaluationActivates(c, Step(c, s, events[0]), p);
    }
  }

  lemma EvaluationActivates(c: Config, s: Learner, p: Plan)
    requires s.phase.Shadowed? || s.phase.Measured?
    requires s.phase == Evaluating(s.phase.logs, s.phase.name, s.phase.path, s.baseline)
    requires s.phase.name in LoraRegistry.Names(s.eng.reg.loaded) && s.eng.reg.active != Some(s.phase.name)
    requires IsAccepted(c, s, p)
    ensures var t := Run(c, s, [ScoreBaseline(p.first), ScoreCandidate(p.passed)]);
            && t.phase == Ready(s.phase.logs, s.phase.name)
            && t.rows == s.rows && t.mark == s.mark && t.batches == s.batches
            && t.eng.reg.active == Some(s.phase.name) && t.eng.reg.previous == s.eng.reg.active
  {
    var measured := Step(c, s, ScoreBaseline(p.first));
    assert measured.phase.Measured?;
    RunFirst(c, s, [ScoreBaseline(p.first), ScoreCandidate(p.passed)]);
    RunFirst(c, measured, [ScoreCandidate(p.passed)]);
  }

  lemma TrainingFetchesPending(c: Config, s: Learner, p: Plan)
    requires s.phase.Waiting? && p.name !in s.names && Built(c, Fetch(s.rows, s.mark), p.built) >= c.minPairs
    ensures var logs := Fetch(s.rows, s.mark);
            Run(c, s, [Begin, FetchLogs, Train(p.name, p.path, p.built)])
            == s.(names := s.names + {p.name},
                  phase := if c.mode == NoEngine then Ready(logs, p.name) else Trained(logs, p.name, p.path))
  {
    var training := [Begin, FetchLogs, Train(p.name, p.path, p.built)];
    RunFirst(c, s, training);
    RunFirst(c, Step(c, s, Begin), training[1..]);
    RunFirst(c, Step(c, Step(c, s, Begin), FetchLogs), training[2..]);
  }

  /** Committing everything fetched after the watermark leaves nothing pending. */
  lemma CommitLeavesNothingPending(c: Config, s: Learner)
    requires IsTable(s.rows) && s.phase.Ready? && s.phase.logs == Fetch(s.rows, s.mark)
    ensures var t := Step(c, s, Commit);
            forall r :: r in t.rows ==> !Pending(t, r)
  {
    FetchFacts(s.rows, s.mark);
    if s.phase.logs != [] {
      NewestFacts(s.phase.logs);
    }
  }

  /** A cycle that succeeds: its batch is exactly the rows after the watermark, nothing stays pending,
      and, when there is an engine, the new adapter serves with the former one as rollback target. */
  lemma DeployedCycle(c: Config, s: Learner, p: Plan)
    requires Sound(s) && Engine.Inv(c.engine, s.eng) && s.phase.Waiting? && Succeeds(c, s, p)
    ensures var t := Run(c, s, Cycle(c, p));
            && t.phase.Waiting? && t.rows == s.rows
            && t.batches == s.batches + [Fetch(s.rows, s.mark)]
            && (forall r :: r in t.rows ==> !Pending(t, r))
            && (c.mode == NoEngine ==> t.eng == s.eng)
            && (c.mode != NoEngine ==>
                  t.eng.reg.active == Some(p.name) && t.eng.reg.previous == s.eng.reg.active)
  {
    var training, service := [Begin, FetchLogs, Train(p.name, p.path, p.built)], Service(c, p);
    TrainingFetchesPending(c, s, p);
    var trained := Run(c, s, training);
    if c.mode != NoEngine {
      ServiceActivates(c, trained, p);
    }
    RunConcat(c, s, training, service);
    RunOneMore(c, s, training + service, Commit);
    CommitLeavesNothingPending(c, Run(c, trained, service));
  }

  /** A message that arrives after a cycle has deployed one no older is lost at once, unless it was in
      a batch before. */
  lemma LateRowAfterCycle(c: Config, s: Learner, p: Plan, row: Row, late: Row)
    requires Sound(s) && Engine.Inv(c.engine, s.eng) && s.phase.Waiting? && Succeeds(c, s, p)
    requires row in s.rows && late.created <= row.created
    requires late !in s.rows && !FetchedBefore(s, late)
    ensures IsLost(Run(c, s, Cycle(c, p) + [Log(late)]), late)
  {
    DeployedCycle(c, s, p);
    RunOneMore(c, s, Cycle(c, p), Log(late));
    var deployed := Run(c, s, Cycle(c, p));
    assert !Pending(deployed, row);
    StepKeepsSoundInCycle(c, s, Cycle(c, p));
    MergeFacts(deployed.rows, late);
    FetchFacts(s.rows, s.mark);
    CommitCounts(s.batches, Fetch(s.rows, s.mark), late);
  }

  lemma {:induction false} StepKeepsSoundInCycle(c: Config, s: Learner, events: seq<Event>)
    requires Sound(s)
    ensures Sound(Run(c, s, events))
    decreases |events|
  {
    if events != [] {
      StepKeepsSoundInCycle(c, s, events[..|events| - 1]);
      StepKeepsSound(c, Run(c, s, events[..|events| - 1]), events[|events| - 1]);
    }
  }

  /** The learner's defaults, without an engine. */
  const DEFAULTS := Config(NoEngine, 0.0, 0, 1, false, "", Engine.Config(8, false))

  const FIRST_CYCLE := Plan("skills", "", 0, 0.0, 0, 0)

  function Question(session: string): Row {
    Row(1, session, Protocol.User, "q", None, 1)
  }

  function Answer(session: string): Row {
    Row(2, session, Protocol.Assistant, "a", None, 2)
  }

  /** With the defaults, one pair suffices and is built by format_training_pairs: a question and its
      answer are deployed by a cycle, and a message with a timestamp no newer that arrives then is
      lost. */
  lemma LateRowIsReachable(session: string, late: Row)
    requires late.id > 2 && late.created <= 2
    ensures var talk := [Log(Question(session)), Log(Answer(session))];
            IsLost(Run(DEFAULTS, Start(None), talk + (Cycle(DEFAULTS, FIRST_CYCLE) + [Log(late)])), late)
  {
    var talk := [Log(Question(session)), Log(Answer(session))];
    var logged := Start(None).(rows := [Question(session), Answer(session)]);
    TwoLogged(DEFAULTS, Question(session), Answer(session));
    RunConcat(DEFAULTS, Start(None), talk, Cycle(DEFAULTS, FIRST_CYCLE) + [Log(late)]);
    TalkIsDeployed(session);
    LateRowAfterCycle(DEFAULTS, logged, FIRST_CYCLE, Answer(session), late);
  }

  lemma TalkIsDeployed(session: string)
    ensures var s := Start(None).(rows := [Question(session), Answer(session)]);
            Sound(s) && Succeeds(DEFAULTS, s, FIRST_CYCLE)
  {
    FetchAll([Question(session), Answer(session)]);
    OnePair(Question(session), Answer(session));
  }

  lemma TwoLogged(c: Config, a: Row, b: Row)
    requires a.id != b.id && InOrder(a, b)
    ensures Run(c, Start(None), [Log(a), Log(b)]) == Start(None).(rows := [a, b])
  {
    MergeTwo(a, b);
    RunFirst(c, Start(None), [Log(a), Log(b)]);
    RunFirst(c, Step(c, Start(None), Log(a)), [Log(b)]);
  }

  lemma {:induction false} FetchAll(rows: seq<Row>)
    ensures Fetch(rows, None) == rows
  {
    if rows != [] {
      FetchAll(rows[1..]);
    }
  }

  lemma MergeTwo(a: Row, b: Row)
    requires a.id != b.id && InOrder(a, b)
    ensures Merge([], a) == [a] && Merge([a], b) == [a, b]
  {
    assert [a][1..] == [];
    assert DeleteId([a], b.id) == [a] + DeleteId([], b.id) == [a];
    assert Insert([a], b) == [a] + Insert([], b) == [a, b];
  }

  lemma OfFirst(row: Row)
    ensures OfSession([row], row.session) == [row] && Sessions([row]) == [row.session]
  {
    assert [row][..|[row]| - 1] == [];
  }

  lemma OnePair(question: Row, answer: Row)
    requires question.session == answer.session
    requires question.role == Protocol.User && answer.role == Protocol.Assistant
    ensures |AllPairs([question, answer], "")| == 1
  {
    var logs := [question, answer];
    OfFirst(question);
    assert logs[..|logs| - 1] == [question];
    assert OfSession(logs, question.session) == [question, answer];
    assert logs[1..] == [answer] && [answer][1..] == [];
    assert Scan(Asked(question.content, []), [answer], "") == Emitted(Asked(question.content, []), answer, "") + [];
    assert |PairsOf(logs, question.session, "")| == 1;
    assert Sessions(logs) == [question.session];
    var sessions := [question.session];
    assert sessions[..|sessions| - 1] == [];
    assert Collect(sessions, logs, "") == [] + PairsOf(logs, question.session, "");
  }
}
