# Verified model of na-ai (omniai)

A Dafny model of the state machines and transformations that carry the guarantees of the
repository, with proofs of properties that hold over whole runs or for every input.

- `Options.dfy`, `Numbers.dfy`, `Fresh.dfy`: optional values, minimum and maximum, unused names.
- `Resilience.dfy`, `CallPath.dfy`: the circuit breaker and `with_retries`, and the engine's call
  path (semaphore around breaker around retries) as a step system with arbitrary interleaving.
- `RateLimiter.dfy`: the token bucket per API key, proved equal to a policy without tokens.
- `LoraRegistry.dfy`, `Engine.dfy`: the adapter registry, its persistence, and the engine's
  load / unload / activate / rollback next to the set of adapters the backend really holds.
- `TrainingPairs.dfy`, `InteractionBuffer.dfy`, `EvalGate.dfy`, `LearningCycle.dfy`: pair
  extraction, the interaction table with its watermark and threshold, the golden-suite gate, and
  the learning cycle as a step system with logging, operators and exceptions between its awaits.
- `Protocol.dfy`, `Graph.dfy`, `Routing.dfy`, `Agent.dfy`, `ChatWire.dfy`, `Anthropic.dfy`,
  `ToolTurns.dfy`: the graph builder and executor, what its names alone say about its runs, the tool
  agent built on it, and the two message translations.
- `ChunkText.dfy`: the text splitter with overlap.
- `Luhn.dfy`: the card-number check, against Annex B of ISO/IEC 7812-1.

Classes and loops of the source are classes and loops here; each method is proved against a
function of the old state, and the lemmas are about those functions. Clocks, HTTP outcomes, model
replies, tool results, scores and adapter names are parameters or choices of the environment.
Floating point numbers (clocks, tokens, delays, scores) are reals.

## What the proofs found

- A half-open breaker recovers if and only if a call is in flight (`HalfOpenRecoversIff`). A
  cancelled probe that was alone in flight therefore leaves it half-open for good, rejecting every
  request (`WedgedForever`, `CancelledProbeWedges`); without cancellation that cannot happen
  (`HalfOpenResolves`).
- `max_loras` bounds the loaded adapters for every run exactly when it is at least 3
  (`SlotCapHoldsIff`); a smaller cap is exceeded by three plain loads, because the active adapter and
  the rollback target are never evicted.
- While the backend runs, the registry and the backend part ways exactly when the reply of a POST that
  changed the backend is lost (`StepAgreesIff`). After a restart of the backend they agree exactly
  when nothing was loaded, or the active adapter is on the backend again and nothing else was loaded
  but the one evicted to make room (`RestartAgreesIff`). A rollback after a restart makes chat name an
  adapter the backend does not hold, exactly when there is a rollback target that does not stand for
  the base model (`RollbackAfterRestartServesIff`).
- `retry_after` is honest exactly when `burst >= 1` (`RetryAfterIsExact`).
- A logged message can be lost, marked as consumed but in no batch, exactly when it was in no batch
  before and its timestamp is at or below the watermark, or the cycle under way has fetched up to it
  and may still commit (`LogIsLostIff`); a batch with too few pairs, a rejected candidate and a bar out
  of reach cannot. A lost message is never consumed later (`LateRowIsLost`), and with the defaults
  one cycle and one late message are enough to see it (`LateRowIsReachable`).
- Whatever is active or kept for rollback is an adapter that the gate promoted, with the weights it
  scored, exactly when operators activate nothing else through `activate_lora` and
  `load_lora_adapter` and load no other weights under a name that is selected or being judged
  (`GateHoldsIff`).
- `establish_baseline` says it scores the base model (omniai/evals/gate.py:111-114), but names no
  model, and `chat` then serves the active adapter (omniai/engine/engine.py:286-288). The baseline is
  the base model's score exactly when chat serves the base model throughout (`BaselineIsOfBaseIff`,
  `FirstBaselineIsOfBaseIff`). That is so for the first baseline while operators respect the gate
  (`BaseServesUntilBaseline`), and not after a plain load (`LoadBeforeBaseline`).
- `chunk_text` accepts negative overlaps and then loses text (`NothingLostIff`). With a negative
  `chunk_size` above the overlap it never ends, unless the text has no paragraph
  (`ChunkingEndsIff`).
- The agent's iteration budget is exactly enough: it is never hit if and only if `max_steps >= 0` and
  the initial step count is at least -1 (`LimitNeverHitIff`). A run ended by `max_steps` leaves tool
  calls unanswered, and its history can be continued exactly when its last reply called no tools
  (`FinalHistoryIsAnsweredIff`).
- `CompiledGraph` is documented as immutable but reads the builder at every run
  (omniai/graph/graph.py:121-129). Whatever its nodes and routers do, no run of a graph meets an unknown
  node exactly when every path of names from its entry point ends at END or a node (`RunsKnownIff`). A
  builder call after compilation keeps that so exactly when it is refused, declares its targets first,
  or only reroutes a node that no run can leave (`CallKeepsRunsKnownIff`); an edge to an undeclared
  node breaks a graph that worked (`LateEdgeMeetsUnknown`, `LateEdgeExample`).

## Model

| member | source | states |
|---|---|---|
| Resilience.CircuitBreaker.EnterCall | omniai/engine/resilience.py:87-103 | the admission half of `call`: new breaker state and admitted or which rejection |
| Resilience.CircuitBreaker.OnFailure | omniai/engine/resilience.py:112-117 | a failure clears the probe flag, counts, and opens the breaker from half-open or at the threshold |
| Resilience.CircuitBreaker.OnSuccess | omniai/engine/resilience.py:119-122 | a success closes the breaker and forgets failures |
| Resilience.WithRetries | omniai/engine/resilience.py:49-67 | attempts stop at the first reply that is not transient or when used up; which outcome is returned or raised, including no attempts at all; one capped, jittered sleep between attempts |
| Resilience.BackoffIsBounded | omniai/engine/resilience.py:64-65 | every sleep is within the cap and n sleeps add up to at most base * (2^n - 1) |
| Resilience.BackoffDoubles | omniai/engine/resilience.py:64-65 | for the same jitter the sleep starts at the base delay, doubles until it reaches the cap, and stays there |
| CallPath.BreakerInvariants | omniai/engine/resilience.py:79-122 | at every await point of every interleaving, with cancellations and late completions: closed iff failures below threshold, half-open iff probing, one admission per half-open episode, probes at least the reset timeout apart, in-flight calls within the semaphore |
| CallPath.AdmissionIff | omniai/engine/resilience.py:87-103 | in every reachable state a request is admitted iff the breaker is closed or has been open for the reset timeout; a refused one sends nothing |
| CallPath.BreakerIsPolicy | omniai/engine/resilience.py:87-122 | read off the events of any run: closed iff fewer calls than the threshold failed since the last success; a request with a slot is admitted iff that is so, or no call was let through since one last ended and the last failure is a reset timeout ago |
| CallPath.HalfOpenResolves | omniai/engine/resilience.py:98-122 | without cancellation a half-open breaker has its probe in flight, which can still fail and reopen it, or succeed and close it |
| CallPath.HalfOpenRecoversIff | omniai/engine/resilience.py:94-122 | in any run, cancellations included, a half-open breaker can leave half-open iff a call is in flight, and close again iff calls are allowed an attempt besides |
| CallPath.WedgedForever | omniai/engine/resilience.py:98-108 | a half-open breaker with no call in flight never admits or sends anything again |
| CallPath.CancelledProbeWedges | omniai/engine/resilience.py:104-108 | cancelling a probe that is alone in flight leads to that state for good |
| CallPath.LoneProbeIsReachable | omniai/engine/resilience.py:94-117 | such a probe is reached by one failure, the timeout and one arrival |
| CallPath.AttemptsPerCall | omniai/engine/engine.py:230-251 | in any interleaving the backend sees at most `retries` attempts per admitted call |
| CallPath.BackendSeesAttempts | omniai/engine/resilience.py:57-67 | the backend sees exactly the attempts that calls send |
| CallPath.OutageLoadBound | omniai/engine/resilience.py:49-122 | when every call fails, T seconds from a fresh breaker bring at most retries * (threshold - 1 + max concurrent + floor(T / reset)) HTTP attempts |
| RateLimiter.TokenBucketRateLimiter.Allow | omniai/gateway/security.py:59-68 | the verdict and the new bucket; other keys untouched; the division by zero of a denial at rate 0 |
| RateLimiter.LimiterIsExact | omniai/gateway/security.py:54-68 | for non-decreasing times and any mix of keys, a request is allowed iff one more request of its key fits burst + rate * length for every window ending now |
| RateLimiter.LimiterBoundsEveryWindow | omniai/gateway/security.py:54-68 | in every window of every run at most burst + rate * length requests of a key pass |
| RateLimiter.LimiterIgnoresDenied | omniai/gateway/security.py:59-68 | deleting any set of denied requests from a run changes no other decision |
| RateLimiter.RetryAfterIsExact | omniai/gateway/security.py:60-68 | after a denial the key is allowed at a later moment iff burst >= 1 and the reported wait has passed, whatever other keys do |
| RateLimiter.RunKeepsSpare | omniai/gateway/security.py:62-68 | a bucket always holds the least spare capacity over all windows ending at its timestamp |
| LoraRegistry.LoRARegistry.constructor | omniai/engine/lora.py:29-35 | a registry opened over a file holds what the file records |
| LoraRegistry.LoRARegistry.RegisterAdapter | omniai/engine/lora.py:37-41 | the record is stored under its name and persisted |
| LoraRegistry.LoRARegistry.ActivateAdapter | omniai/engine/lora.py:43-49 | fails without effect iff the name is not loaded; otherwise selects it, remembers the former one, persists |
| LoraRegistry.LoRARegistry.DeactivateAdapter | omniai/engine/lora.py:51-56 | back to the base model, the former adapter becoming the rollback target |
| LoraRegistry.LoRARegistry.Remove | omniai/engine/lora.py:58-64 | the record and any selection of it are gone, and this is persisted |
| LoraRegistry.LoRARegistry.Persist | omniai/engine/lora.py:79-88 | the file holds the current state when there is a file |
| LoraRegistry.EvictionCandidate | omniai/engine/lora.py:66-75 | none iff slots are free or everything is protected; otherwise an unprotected adapter none of the unprotected is older than |
| LoraRegistry.OldestFrom | omniai/engine/lora.py:72-75 | the first of the oldest unprotected records |
| LoraRegistry.PutLookup | omniai/engine/lora.py:38-39 | storing a record sets its own entry and no other |
| LoraRegistry.WithoutLookup | omniai/engine/lora.py:59 | popping a name changes no other entry |
| LoraRegistry.FromListIsIdentity | omniai/engine/lora.py:83-93 | rebuilding the table from the persisted list gives the same table in the same order |
| Engine.ModelEngine.LoadLoraAdapter | omniai/engine/engine.py:337-355 | registry, backend and result of a load, with its eviction, for every outcome of both POSTs |
| Engine.ModelEngine.UnloadLoraAdapter | omniai/engine/engine.py:361-368 | registry, backend and result of an unload for every outcome of the POST |
| Engine.ModelEngine.ActivateLoraAdapter | omniai/engine/engine.py:357-359 | activation of a loaded adapter, or the KeyError |
| Engine.ModelEngine.RollbackLora | omniai/engine/engine.py:370-382 | registry after a rollback, and the adapter it reports |
| Engine.LifecycleIsSafe | omniai/engine/lora.py:37-75 | over all sequences of load, shadow load, activate, rollback and unload, with failing POSTs: active and previous None or loaded, different unless both None, at most max(max_loras, 3) loaded |
| Engine.MakeRoomIsSafe | omniai/engine/engine.py:345-347 | eviction keeps active and previous and leaves room within max(max_loras, 3) |
| Engine.LoadMeans | omniai/engine/engine.py:345-355 | which adapters are loaded after a load, with which records, and what is selected |
| Engine.UnloadMeans | omniai/engine/engine.py:361-368 | after an unload the adapter is gone and every other keeps its record and its place as active adapter or rollback target; a failed one changes nothing |
| Engine.SlotCapHoldsIff | omniai/engine/lora.py:66-75 | no run exceeds max_loras iff max_loras >= 3 |
| Engine.RollbackSwaps | omniai/engine/engine.py:370-382 | on every reachable state a rollback swaps active and previous, never raises, and twice is the identity |
| Engine.RestoreIsIdentity | omniai/engine/lora.py:79-95 | after any run, restoring the file yields the same table with order, active and previous; without a path nothing is written |
| Engine.StepAgreesIff | omniai/engine/engine.py:337-368 | an operation keeps registry and backend in agreement iff no POST that changed the backend lost its reply |
| Engine.ChatNamesAServedModel | omniai/engine/engine.py:286-290 | without lost replies, failed POSTs included, loaded names equal the backend's set and chat names the active adapter, which the backend holds, or the base model when none is active |
| Engine.RestartKeepsSelection | omniai/engine/resilience.py:191-203 | a backend restart keeps active and previous in the registry; after a successful re-apply the backend serves the active adapter only, from the same path; nothing is re-applied iff no adapter with a path is active |
| Engine.RestartAgreesIff | omniai/engine/resilience.py:191-203 | after a restart, whatever became of the re-apply, registry and backend agree iff nothing was loaded, or the active adapter is on the backend again and nothing else was loaded but the one evicted for it |
| Engine.RestartServesChatIff | omniai/engine/resilience.py:191-203 | after any restart chat names a served model iff none was active or the POST that loads it again took effect |
| Engine.RollbackAfterRestartServesIff | omniai/engine/engine.py:370-382 | a rollback after a restart, whatever became of the re-apply, makes chat name a served model iff there is no rollback target or it stands for the base model |
| TrainingPairs.FormatTrainingPairs | omniai/memory/learning.py:34-70 | the pairs of all sessions, in the order of their first rows |
| TrainingPairs.GroupBySession | omniai/memory/learning.py:45-47 | the sessions in order of first row, each with its own rows |
| TrainingPairs.ScanSession | omniai/memory/learning.py:51-69 | the pairs of one session's rows |
| TrainingPairs.ScanIsCompletedPairs | omniai/memory/learning.py:53-69 | the scan yields one pair per assistant row whose last preceding turn is a user's, with the tool outputs in between, and no other |
| TrainingPairs.CutLosesAtMostOne | omniai/memory/learning.py:51-69 | pairs(a + b) = pairs(a) + x + pairs(b), where x is the one pair of a turn left open by a and answered in b, or empty |
| TrainingPairs.BatchBoundary | omniai/memory/learning.py:45-69 | the same in a log of many sessions, and x is non-empty iff the open turn is answered |
| TrainingPairs.InterleavingIsIrrelevant | omniai/memory/learning.py:45-69 | logs with the same rows per session yield the same pairs however sessions interleave |
| TrainingPairs.PairsOfJoined | omniai/memory/learning.py:45-69 | training many batches one by one misses, in each session, exactly the pairs that straddle a boundary |
| TrainingPairs.InstructionKeepsLines | omniai/memory/learning.py:61 | an instruction reads as the lines of the question and then those of each tool output, in order |
| TrainingPairs.LinesRoundTrip | omniai/memory/learning.py:61 | that reading of a text by lines loses nothing |
| InteractionBuffer.Buffer.Log | omniai/memory/buffer.py:124-153 | the row replaces the one with its id, the counters move, and whether the callback fires |
| InteractionBuffer.Buffer.FetchRows | omniai/memory/buffer.py:169-214 | the rows selected by session, watermark and limit, and the seeded counters |
| InteractionBuffer.Buffer.SetWatermark | omniai/memory/buffer.py:227-240 | the watermark cell holds the new moment |
| InteractionBuffer.Buffer.EnsureReady | omniai/memory/buffer.py:85-93 | the counters are seeded once from the number of rows |
| InteractionBuffer.MergeFacts | omniai/memory/buffer.py:132-134 | logging keeps ids unique and the order, replaces the row of that id and keeps all others |
| InteractionBuffer.FetchFacts | omniai/memory/buffer.py:186-200 | a fetch returns exactly the rows after the given moment, each once, in order |
| InteractionBuffer.QueryFacts | omniai/memory/buffer.py:186-200 | a fetch returns exactly the rows after the moment that belong to the session, each once, oldest first, cut to the first ones by a limit |
| InteractionBuffer.LogsCommute | omniai/memory/buffer.py:132-196 | messages with different ids leave the same table whichever is logged first |
| InteractionBuffer.CallbackCount | omniai/memory/buffer.py:140-149 | n messages fire the callback n / threshold times; every time for a threshold of at most 1; never without one |
| InteractionBuffer.OpenedBufferCounts | omniai/memory/buffer.py:85-149 | a buffer opened over stored rows counts on from those it finds first, and its callback fires for new messages only, n / threshold times for n of them |
| EvalGate.AdapterGate.Score | omniai/evals/gate.py:97-109 | the share of matching replies and the failed prompts in order, of the model asked for or, without a name, of whatever chat serves; an empty suite passes |
| EvalGate.AdapterGate.EstablishBaseline | omniai/evals/gate.py:111-114 | the baseline becomes the score of whatever chat serves, at every call |
| EvalGate.PerfectMeansExpected | omniai/evals/gate.py:26-31 | accuracy is 1 iff every reply calls the expected tool, with the expected arguments wherever a case gives any |
| EvalGate.AdapterGate.Evaluate | omniai/evals/gate.py:116-130 | the baseline is set once, at the first evaluation; acceptance iff accuracy >= baseline - tolerance |
| EvalGate.BaselineIsOfBaseIff | omniai/evals/gate.py:97-114 | the baseline is the base model's score for all replies iff chat serves the base model during every case |
| EvalGate.CandidateIsScored | omniai/evals/gate.py:97-109 | a candidate with a name is scored by its own replies, whatever chat serves meanwhile |
| LearningCycle.FirstBaselineIsOfBaseIff | omniai/engine/engine.py:286-288 | for a given registry this holds iff the suite is empty or chat names the base model |
| LearningCycle.BaseServesUntilBaseline | omniai/evals/gate.py:116-119 | while operators respect the gate, chat serves the base model until the first baseline is set |
| LearningCycle.LoadBeforeBaseline | omniai/engine/engine.py:337-355 | an adapter an operator loads before that is served in its place |
| LearningCycle.EveryRowOnce | omniai/memory/learning.py:282-328 | with logging anywhere inside cycles, in increasing timestamps, every row is above the watermark and in no deployed batch or at or below it and in exactly one |
| LearningCycle.LogIsLostIff | omniai/memory/learning.py:286-317 | at any point of any run, some continuation marks a logged row as consumed without a batch iff the row was in no batch before, as no new id was, and its timestamp is at or below the watermark, or the cycle under way has fetched up to it and may still commit |
| LearningCycle.LateRowIsLost | omniai/memory/learning.py:286-317 | a row at or below the watermark that no batch holds is never consumed in any later run |
| LearningCycle.LateRowAfterCycle | omniai/memory/learning.py:286-317 | a row that arrives after a successful cycle from any state, no newer than a stored one, is lost unless it was in a batch before |
| LearningCycle.LateRowIsReachable | omniai/memory/learning.py:34-70 | with the defaults a question, its answer, one cycle and one late row are such a run |
| LearningCycle.BatchesAreThePrefix | omniai/memory/learning.py:286-317 | over a whole run the table is the deployed batches in order followed by the pending rows |
| LearningCycle.BatchesMissOnlyStraddling | omniai/memory/learning.py:34-70 | over a whole run the pairs of a session are those of its batches and pending rows, and at each boundary the one that straddles it |
| LearningCycle.OnlyCommitConsumes | omniai/memory/learning.py:289-317 | skipped, rejected and aborted cycles consume nothing; a deployed non-empty batch moves the watermark strictly up to its newest row |
| LearningCycle.GateHoldsIff | omniai/memory/learning.py:259-280 | in all runs, with operator loads, activations, rollbacks, unloads and new baselines: only adapters the gate promoted, with the weights it scored, are ever active or kept for rollback, and what is judged is what was trained, iff operators activate nothing else and load no other weights under a selected or judged name |
| LearningCycle.OnlyGatedAdaptersServe | omniai/memory/learning.py:259-317 | while operators respect the gate, the weights that are active scored at least their bar less the tolerance, and a candidate is neither active nor rollback target before acceptance |
| LearningCycle.BaselineIsFixed | omniai/evals/gate.py:116-121 | a baseline that is set, and is not just being established, never changes without another call of establish_baseline |
| LearningCycle.OneBaseline | omniai/evals/gate.py:116-123 | until such a call every adapter ever promoted was judged by one baseline, the current one |
| LearningCycle.RejectionChangesNothing | omniai/memory/learning.py:274-311 | from any state, operators' own adapters in service included, a cycle that is not accepted leaves active, previous, watermark and batches alone while operators leave the selection alone, and its candidate unloaded when the POST succeeds |
| LearningCycle.DeployedCycle | omniai/memory/learning.py:282-328 | an undisturbed cycle with enough pairs that is accepted, the first one included, deploys exactly the rows after the watermark, leaves nothing pending, and puts the new adapter in service with the former one as rollback target |
| LearningCycle.IdleDeploysIff | omniai/memory/learning.py:286-317 | between cycles, a batch can still be deployed without further messages iff the rows after the watermark yield enough pairs and the gate can accept a candidate |
| LearningCycle.ReadyMeansServed | omniai/memory/learning.py:296-314 | with an engine a batch becomes ready to deploy only once its adapter is active, loaded by a POST that succeeded |
| LearningCycle.CycleAdvances | omniai/memory/learning.py:282-328 | cycles do not overlap, and each step of one that does anything brings it closer to its end |
| LearningCycle.CycleEnds | omniai/memory/learning.py:282-328 | no cycle gets stuck: its own steps can end it from wherever it stands |
| Graph.CompiledGraph.Ainvoke | omniai/graph/graph.py:172-208 | the loop equals execution of the builder's current graph with that many node runs left, errors included; no unknown node in a closed graph |
| Graph.SuccessIffPath | omniai/graph/graph.py:146-208 | a run succeeds iff a path of at most max_iterations node runs leads to END |
| Graph.ExceededIffPath | omniai/graph/graph.py:199-208 | the limit error is raised iff a path of exactly max_iterations node runs ends elsewhere |
| Graph.UnknownIffPath | omniai/graph/graph.py:186-195 | a run meets an unknown node iff a path of fewer than max_iterations node runs leads to it |
| Graph.ErrorsNameTheirNode | omniai/graph/graph.py:146-208 | every error names the node at which the run stopped |
| Graph.MoreFuelSameResult | omniai/graph/graph.py:186-208 | raising max_iterations changes no outcome but the limit error |
| Graph.InitialMessagesArePrefix | omniai/graph/state.py:28-48 | the initial messages are a prefix of the final ones |
| Graph.MappedGraphIsClosed | omniai/graph/graph.py:96-118 | a graph that compiles and is routed by edges and path maps meets no unknown node |
| Graph.CallKeepsClosedIff | omniai/graph/graph.py:43-94 | a builder call after compilation keeps the graph compilable with every router mapped iff it is refused or its targets are END or nodes already |
| Graph.ClosedAfterCalls | omniai/graph/graph.py:43-129 | and so does any sequence of such calls |
| Routing.RunsKnownIff | omniai/graph/graph.py:146-195 | whatever nodes and routers do, from any state and with any limit, no run meets an unknown node iff every path of names from the entry point ends at END or a node |
| Routing.CallKeepsRunsKnownIff | omniai/graph/graph.py:43-129 | a builder call on a closed graph keeps that so iff it is refused, declares its targets first, or only reroutes a node that no run can leave |
| Graph.LateEdgeMeetsUnknown | omniai/graph/graph.py:121-129 | an edge from the entry node to an undeclared node makes every run that gets past the entry node fail, where none met an unknown node before |
| Graph.LateEdgeExample | omniai/graph/graph.py:66-129 | such a compiled graph exists |
| Graph.Builder.AddNode | omniai/graph/graph.py:43-60 | refuses reserved and existing names, otherwise adds the node |
| Graph.Builder.SetEntryPoint | omniai/graph/graph.py:62-64 | sets the entry point and nothing else |
| Graph.Builder.AddEdge | omniai/graph/graph.py:66-74 | sets the entry point or a static edge; refuses a source with a conditional edge |
| Graph.Builder.AddConditionalEdges | omniai/graph/graph.py:76-94 | adds a router; refuses a source with a static edge |
| Graph.Builder.Compile | omniai/graph/graph.py:96-118 | succeeds iff there is an entry point and every referenced node exists or is END; the result refers to the builder |
| Agent.AgentEnds | omniai/graph/agent.py:37-89 | the agent ends at END unless the provider raises, in at most max(1, max_steps - steps) model turns; each turn is the model's reply to the history, and every turn with calls but the last is followed by its tool results in order |
| Agent.LimitNeverHitIff | omniai/graph/agent.py:75-89 | the iteration limit is never hit, for any model, iff max_steps >= 0 and initial steps >= -1 |
| Agent.AgentCompiles | omniai/graph/agent.py:81-89 | the agent's graph compiles |
| Agent.PathConverses | omniai/graph/agent.py:37-79 | every point of every run is complete rounds plus at most one waiting assistant turn |
| Agent.ExecuteTools | omniai/graph/agent.py:50-73 | one TOOL message per call, in order, with the call's id and the tool's text or error text |
| ChatWire.OmniToOpenai | omniai/models/base.py:64-106 | one wire message per message, in order |
| ChatWire.ParseToolCalls | omniai/models/base.py:109-134 | one tool call per raw entry, with the defaults for absent fields |
| ChatWire.WiresTellApart | omniai/models/base.py:72-104 | two histories look alike on the wire iff their messages agree in role, text, the calls of assistant turns and the call ids of tool messages |
| ChatWire.UndecodedArgumentsAreKept | omniai/models/base.py:118-124 | arguments that do not decode are told apart from any others that do not, and from none |
| Anthropic.ToAnthropic | omniai/models/anthropic.py:27-92 | system prompt and merged turns of a history; an error iff the arguments of some call do not decode |
| Anthropic.ToolTurnBlocks | omniai/models/anthropic.py:53-69 | text first if any, then one tool_use block per call; an error iff some arguments do not decode |
| Anthropic.TranslatesIff | omniai/models/anthropic.py:57-62 | translation fails iff some call of an assistant message has arguments that do not decode |
| Anthropic.TranslationKeepsConversation | omniai/models/anthropic.py:77-85 | turns strictly alternate between user and assistant, and flattened they are the unmerged conversion |
| Anthropic.ModelReadsMessages | omniai/models/base.py:64-106 | from messages to turns the model reads exactly their texts, tool results and tool calls, by the same speakers, in order; system texts become the system prompt |
| Anthropic.CallsAreReadBack | omniai/models/anthropic.py:53-69 | the tool calls read back from the turns are those of the assistant messages, with ids, names and arguments, in order |
| Anthropic.MergeIsStable | omniai/models/anthropic.py:77-85 | turns that alternate already are left alone |
| Anthropic.SystemTextInOrder | omniai/models/anthropic.py:35-40 | system messages move out in order, every other message is a turn, and translation fails iff that of a part does |
| Anthropic.SystemPromptComposes | omniai/models/anthropic.py:87 | a lone system message is the prompt; the prompt of a history in two parts is theirs with a blank line between, empty ones left out |
| ToolTurns.SentHistoriesAreAnswered | omniai/graph/agent.py:37-73 | every history the agent sends translates without error, and each tool_use turn is followed by a user turn with exactly its results, same ids in the same order |
| ToolTurns.SentHistoryIsComplete | omniai/graph/agent.py:37-48 | at every turn the model is sent the initial messages and all since, in order, after the system prompt if there is one and the history opens with none of its own |
| ToolTurns.SentCallsAreAnswered | omniai/graph/agent.py:50-73 | every call made since the run began is answered in what is sent, in its place, by the tool's answer as it is, or by an error that names the unknown tool or says what was wrong; messages stay in the session |
| ToolTurns.FinalHistoryIsAnsweredIff | omniai/graph/agent.py:75-79 | the history of a finished run and the user's next message translate to answered tool uses iff the last reply called no tools |
| ChunkText.SplitIntoChunks | omniai/rag/store.py:43-60 | whenever the call ends: the chunks of the two loops, or the ValueError for chunk_size <= overlap |
| ChunkText.CutDown | omniai/rag/store.py:55-57 | what the inner loop cuts off and leaves |
| ChunkText.ChunkingEndsIff | omniai/rag/store.py:45-57 | the call ends iff it refuses its arguments, finds no paragraph, or chunk_size is not negative |
| ChunkText.ChunksCoverText | omniai/rag/store.py:43-60 | for 0 <= overlap < size: chunks are non-empty and at most size long; each is a suffix of its predecessor of at most overlap characters followed by a non-empty new part; the new parts are the text without white space, in order |
| ChunkText.ChunksOverlap | omniai/rag/store.py:50-57 | for 0 < overlap < size every chunk but the first starts with the last overlap characters of its predecessor, with or without their leading white space |
| ChunkText.FittingTextIsOneChunk | omniai/rag/store.py:47-60 | paragraphs that fit into one chunk together become that chunk |
| ChunkText.SmallParagraphsStayWhole | omniai/rag/store.py:47-57 | a paragraph with length + overlap + 2 <= size stands unsplit in some chunk |
| ChunkText.NothingLostIff | omniai/rag/store.py:45-57 | no text is lost for any input iff the overlap is not negative |
| ChunkText.ParagraphsKeepText | omniai/rag/store.py:47 | splitting and stripping drops only white space |
| ChunkText.WhiteSpaceIs | omniai/rag/store.py:47 | the characters that strip removes, one by one |
| Luhn.LuhnValid | omniai/guardrails/middleware.py:39-51 | the loop's verdict on a candidate, or the ValueError iff it holds a digit that int refuses, for every reading of characters other than 0 to 9 |
| Luhn.AsciiDigits | omniai/guardrails/middleware.py:41 | the digits 0 to 9 stand for themselves |
| Luhn.AcceptsIffCheckDigit | omniai/guardrails/middleware.py:39-51 | accepted iff 13 to 19 digits whose last one is the Annex B check digit of the others |
| Luhn.SingleDigitErrorDetected | omniai/guardrails/middleware.py:44-51 | changing one digit of an accepted string goes unnoticed iff the new character stands for the same digit |
| Luhn.TranspositionDetectedIff | omniai/guardrails/middleware.py:44-51 | swapping two neighbouring digits goes unnoticed iff they are equal or are 0 and 9 |

## Left out

- Engine.ChatNamesAServedModel: assumes that lifecycle operations do not overlap; two loads awaiting their POSTs at once are not modelled.
- Engine.RestartKeepsSelection: covers the re-apply after a restart only; the supervisor's polling, backoff and `max_restarts` are not modelled.
- RateLimiter.LimiterIsExact: is stated for rates that are not negative; RetryAfterIsExact for positive ones, since a denial at rate 0 raises.
- CallPath.OutageLoadBound: counts from a fresh breaker and needs a positive reset timeout; cancelled calls are excluded, as they bypass the failure count.
- CallPath.HalfOpenResolves: does not claim at most one probe in flight over a whole run, because a call admitted while closed can end an episode whose probe is still running.
- Agent.AgentEnds: tool and provider behaviour is an oracle; schema validation and argument parsing of tools are not modelled.
- Anthropic.ToAnthropic: decoding JSON is an oracle, and takes back what encoding writes.
- TrainingPairs.FormatTrainingPairs: takes the feedback already read from the row's metadata.
- InteractionBuffer.Buffer.Log: SQL sessions, time zones and the race of the first seeding of the counter are not modelled; ids and timestamps are integers.
- InteractionBuffer.Buffer.FetchRows: a negative limit, which databases treat differently, is not modelled.
- LearningCycle.EveryRowOnce: assumes new ids and increasing timestamps; LogIsLostIff and LateRowIsLost say what happens otherwise. What a curator builds, rehearsal mixing and training are choices of the environment, and each engine operation is one step.
- LearningCycle.GateHoldsIff: is about an engine that offers `activate_lora` and an AdapterGate as evaluator.
- Luhn.LuhnValid: which characters other than 0 to 9 are digits, and of what value, is a parameter.
- Graph.CompiledGraph.Ainvoke: nodes are functions of the state that return an update or raise; builder calls while a run is under way are not modelled.
- HTTP, streaming, subprocesses, the gateway, channel adapters, guardrail patterns, settings, telemetry, prompts, skills and tenancy: plumbing around the models above.
- The vector store, embeddings and structured output: they share no state with the parts modelled here.
