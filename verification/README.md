# Project Nexus: the plan pipeline and its run loop, in Dafny

A model of how Project Nexus validates a task plan, schedules it into levels, runs it, and decides
when to stop, with proofs over every plan, every run and every behaviour of the models, the tools and
the sandbox. `dafny verify dfyconfig.toml` checks the whole project.

| file | models |
|---|---|
| `graphs.dfy` | finite dependency graphs: chains, cycles, the layers left by removing satisfied nodes |
| `task_plan.dfy` | the plan entities of `backend/core/state.py` and the graph a plan denotes |
| `planner.dfy` | the three-colour depth-first search and the validator, imperative, over a shared colour map |
| `plan_acceptance.dfy` | what the validator accepts, told from the raw items alone |
| `researcher.dfy` | Kahn's algorithm with its counters, dependents and queue, and the research pass |
| `scheduling.dfy` | what a schedule guarantees, and the agreement of the two graph algorithms |
| `release_order.dfy` | the order of the tasks inside each level, told by places in the plan |
| `context.dfy` | truncation, canonical maps, the executor and verifier prompts |
| `json_text.dfy`, `repr_text.dfy` | readers of JSON objects and of quoted ids, and what they read from the texts built |
| `prompt_laws.dfy` | what the two prompts say, part by part and with the limits in characters |
| `executor.dfy` | one executor pass over shared task records, and its whole effect |
| `pass_record.dfy` | what a pass leaves behind for each task outcome, with the text of every error line |
| `reflector.dfy` | clamping, averaging and rounding of the scores, over exact reals |
| `run_loop.dfy` | the agent loop as a state machine over the real effects of its nodes |
| `step_laws.dfy` | what each step of the loop does to the state, for each choice of the environment |
| `quality_gate.dfy` | the gate of the loop in terms of the scores given to the reflector |
| `frames.dfy` | the event-to-frame translator and the grammar of what it sends |
| `frame_completeness.dfy` | every frame sequence the grammar accepts is sent by some run with a working loop detector |
| `loop_detector.dfy`, `repeated_plans.dfy` | the plan hash and the recorded set, and which repeated plans end a run |
| `sessions.dfy` | the status of one session row under interleaved connections, runs and aborts |
| `witness_runs.dfy` | concrete runs from the initial state that reach the situations the findings speak of |
| `embed_cache.dfy` | two clients sharing one embedding cache, interleaved at every await |
| `invoke.dfy` | the retry loop and the fence stripping around a model call |
| `options.dfy`, `sequences.dfy` | an option type and facts about sequences |

The environment (model replies, tool results, sandbox results, the loop detector, exceptions, Redis)
enters as universally quantified choices: oracle functions, the actions of a run, or event sequences.
An imperative piece of the program is a method proved against a specification function or predicate
(`IsSchedule`, `RunTasks`, `Validated`, `FramesOf`), and the laws are lemmas about that specification.

## Findings

Places where the code does not do what its comments, or its evident purpose, say. The model follows the code.

- The executor copies `execution_output` (`backend/agents/executor.py:31`) and builds each prompt from
  the state it was given (`backend/agents/executor.py:41`), so a prompt never shows what a dependency
  printed in the same pass. `Executor.PromptsCurrentIff` gives the exact condition: the prompts are those
  that the pass's own records would give, for every behaviour of the models and the sandbox, if and only
  if each task has no dependency or its prompt is filled, up to the part the budget keeps
  (`backend/core/context.py:133-134`), before the first dependency's output. `StalePromptReachable` is a
  run from the initial state with a stale prompt; `FirstPassShowsNoOutput` says what text the first
  iteration prepares for each dependency instead.
- The comment at `backend/agents/reflector.py:38` says the overall score is recomputed to prevent
  manipulation. That holds exactly when some dimension is positive (`ClaimIgnoredIff`); otherwise the
  score the model claims is used.
- The two embedding functions share keys but not inputs: one sends the whole text, the other its
  first 8000 characters. A hit is exact for every embedder and interleaving if and only if the text
  has at most 8000 characters (`HitsExactIff`).
- `_truncate` (`backend/core/context.py:49`) exceeds its limit exactly when a text is cut and the suffix
  is longer than the limit (`TruncateBound`, `TruncateIdempotentIff`); `LongKeyOverflows` is such an input.
- The docstring at `backend/agents/base.py:66` says exhausted retries append to `error_log`. The append
  goes to a local copy. A call that runs out of retries leaves its line in the state's log if and only if
  it is the planner's, or a task's in an executor pass that returns (`ExhaustionLoggedIff`): the planner
  node and the executor catch the exception, but an executor pass that a later task aborts, for instance
  because a reply is a JSON array (`backend/agents/executor.py:50`), loses the lines it has collected.
  `VerifierExhaustionUnlogged` and `AbortedPassUnlogged` are runs with an exhausted call and an empty log.
- An aborted executor pass leaves failed marks on the shared task records and no line for them, so the log
  accounts for every mark exactly when no failed task came before the one that aborted the run
  (`LogConservation`).
- The header of `backend/core/loop_detector.py:4-6` says a plan hash that appears twice ends the session.
  Hashing two or more tasks raises (`backend/core/loop_detector.py:28-38`) and the planner node goes on.
  With a working Redis and an empty set, a run is marked loop_detected if and only if it has planned a
  single task twice, tool hints aside (`LoopDetectedIff`); `RepeatUncaught` plans the same two tasks twice.
- An abort (`backend/api/routes/sessions.py:195-217`, `backend/api/ws/run.py:214-218`) stops no run, and the
  run's later status writes are unconditional. An aborted session stays aborted, whatever happens next, if
  and only if every run is over and every open connection has used its start (`AbortIsFinalIff`);
  `AbortOverwritten` ends completed. The gate is per connection: `TwoRunsAtOnce` runs one session twice.

## Model

| member | source | states |
|---|---|---|
| Researcher.CountDependencies | backend/agents/researcher.py:28-34 | each counter is the number of `depends_on` occurrences of its task, repeats included, and each dependents list has one entry per occurrence |
| Researcher.ReleaseDependents | backend/agents/researcher.py:45-48 | processing one node keeps every counter equal to the occurrences whose dependency is not processed yet, and the queue equal to the nodes at zero, in the order in which they reached it |
| Researcher.ProcessLevel | backend/agents/researcher.py:41-48 | one round turns the queue of layer k into the queue of layer k + 1 |
| Researcher.TopologicalSort | backend/agents/researcher.py:22-50 | for every list of tasks, cyclic, with unknown or repeated ids alike, level k lists layer k of the dependency graph, each node once and in the order in which its last dependency was processed (plan order in the first level), and nothing is left to release after the last level |
| Researcher.Run | backend/agents/researcher.py:90-115 | every scheduled task gets its text (or the failure text) in `research_context`; every other entry is unchanged |
| Scheduling.EmitsExactlyTheSound | backend/agents/researcher.py:28-50 | no id is emitted twice, dependencies come first, and the emitted ids are exactly those from which no cycle and no unknown id is reachable |
| Scheduling.DependencyStrictlyEarlier | backend/agents/researcher.py:40-48 | every dependency of a scheduled task is in a strictly earlier level |
| Scheduling.LevelIsLongestChain | backend/agents/researcher.py:37-50 | a task is in level k if and only if its longest dependency chain has k dependencies |
| Scheduling.LevelsAreOptimal | backend/agents/researcher.py:22-27 | no levelling that respects the dependencies puts a task earlier or uses fewer levels |
| Scheduling.AcyclicIffEveryIdEmitted | backend/agents/researcher.py:28-50 | with known dependencies, the plan has no cycle if and only if the sort emits every id |
| Scheduling.ValidPlanLosesNothing | backend/agents/researcher.py:36-50 | the levels of a valid plan hold exactly its tasks, each once, dependencies first |
| Scheduling.ScheduleExists | backend/agents/researcher.py:37-50 | every list of tasks has a schedule |
| Scheduling.ScheduleUnique | backend/agents/researcher.py:36-50 | two schedules of one list of tasks are equal: the levels and the order inside each are a function of the list |
| ReleaseOrder.FirstLevelInPlanOrder | backend/agents/researcher.py:28-37 | the first level lists its tasks in the order in which their ids first appear in the plan |
| ReleaseOrder.LaterLevelOrder | backend/agents/researcher.py:40-48 | each later level orders its tasks by the place, in the level before, of the last dependency each has there, and those with the same one by their place in the plan |
| ReleaseOrder.ReleaseExists | backend/agents/researcher.py:40-48 | every task of a later level has such a place |
| ReleaseOrder.LevelTaskIsLast | backend/agents/researcher.py:36-42 | with a repeated id the task in a level is the last one that carries it |
| Scheduling.ValidatorAgreesWithScheduler | backend/agents/planner.py:74-90 | on unique ids and known dependencies the depth-first search accepts if and only if the level sort keeps every task |
| Planner.CycleChecker.Dfs | backend/agents/planner.py:79-87 | a raise comes with a real cycle through the reported task and with the walk that led there; a return finishes the node after all its dependencies and leaves the in-progress path as it was; the unvisited nodes shrink |
| Planner.CycleChecker.VisitDependencies | backend/agents/planner.py:85-86 | after the loop every dependency of the node is finished, or a cycle is exhibited |
| Planner.CycleChecker.CheckAll | backend/agents/planner.py:89-90 | the search over all keys accepts if and only if the graph is acyclic, with a finish order that lists every key after its dependencies; otherwise it names the first node met again on the walk from the first key that reaches a cycle, always along the first dependency that does |
| Planner.CheckNoCycles | backend/agents/planner.py:74-90 | the verdict is exactly acyclicity; the task named by the error lies on a cycle and is the one the search walk ends at |
| Graphs.SearchWalkUnique | backend/agents/planner.py:79-90 | there is at most one such walk, so the task named is determined by the plan |
| Planner.VerdictIsAboutPlan | backend/agents/planner.py:75 | with unique ids the dict of lists has the same cycles as the plan |
| Planner.BuildNodes | backend/agents/planner.py:35-61 | the nodes are built if and only if every item is complete, well typed and new; else the first faulty item is reported with its fault |
| Planner.CheckReferences | backend/agents/planner.py:64-67 | the loop passes if and only if every dependency names a task, and otherwise reports the first unknown reference: the first task with one, and its first |
| Planner.ValidateTaskDag | backend/agents/planner.py:22-71 | accepts exactly the lists of 1 to 10 well-formed items with unique ids, known dependencies and no cycle, returns their tasks in order with every field kept (of the hints, the tools), and otherwise reports a fault before which every earlier check passes |
| Planner.ConvertAllKeeps | backend/agents/planner.py:46-58 | each task has its item's id, description, dependency list and named model, and exactly the item's hints that name one of the five tools, in order |
| PlanAcceptance.AcceptableIff | backend/agents/planner.py:22-71 | told from the raw items: accepted if and only if there are one to ten, each an object with all fields and one of the three model names, with distinct ids, every dependency the id of an item, and no items depending on each other in a circle |
| PlanAcceptance.FirstMissingIs | backend/agents/planner.py:38-40 | the field reported as missing is the first one the item lacks |
| ReprText.ReprReadsBack | backend/agents/planner.py:44-67 | an id quoted in an error text reads back as the id, with double quotes if and only if it has single quotes only |
| Planner.KnownToolsFilters | backend/agents/planner.py:57 | filtering the tool hints keeps every occurrence of a valid tool and no other hint |
| Planner.KnownToolsInPlace | backend/agents/planner.py:57 | the kept hints stay in their order: the hint at n is kept if valid, at the position given by the valid hints before it |
| Executor.MarkTask | backend/agents/executor.py:83-87 | exactly the first record with the id gets the status, in place |
| Executor.ExecuteTask | backend/agents/executor.py:43-74 | one task's output, log line and mark are those of its outcome |
| Executor.Run | backend/agents/executor.py:29-80 | the pass visits the flattened schedule; records, outputs and log are the fold of the task outcomes, and every prompt is built from the outputs held on entry |
| Executor.RunTasksEffect | backend/agents/executor.py:36-74 | running any duplicate-free list of tasks sets their statuses, replaces exactly the outputs of the successful ones and appends the error lines of the failed ones in that order |
| Executor.PassSettlesPlan | backend/agents/executor.py:36-80 | after a pass over a valid plan every task is done or failed, done plus failed is the plan size, the log grew by the error lines of the failed tasks in schedule order, outputs changed exactly at the done ids |
| PassRecord.PassOutcomes | backend/agents/executor.py:43-74 | told from the outcomes: a task is done if and only if its code ran and succeeded, and its output is then what it printed; any other is failed with its output entry as it was; the log gains one line per failed task, in schedule order, with the exact text of its failure |
| Executor.DependenciesSettleFirst | backend/agents/executor.py:36-41 | when a task's prompt is built, each of its dependencies is already marked done or failed |
| Executor.RecordedBeforePrompt | backend/agents/executor.py:36-66 | when a task's prompt is built, the pass already holds the output of each dependency that succeeded |
| Executor.PromptsCurrentIff | backend/agents/executor.py:31-41 | for every behaviour of the models and the sandbox the prompts are those that the pass's own records would give, if and only if each task has no dependency or has its prompt filled before the first dependency's output |
| Executor.StalePrompt | backend/agents/executor.py:41 | a prompt with room for its first dependency's output differs, under some behaviour of the sandbox, from the prompt the pass's records would give |
| Executor.DependencyTextsCurrentIffFlat | backend/agents/executor.py:31-41 | the texts prepared for the dependencies, before the budget cut, are those of this pass, for every behaviour of the sandbox, if and only if no task has a dependency |
| Executor.StaleDependency | backend/core/context.py:118-121 | for any dependency of any task some sandbox behaviour makes the text prepared for it, before the budget cut, differ from what the pass recorded |
| Context.TruncateBound | backend/core/context.py:45-49 | the result fits the limit if and only if nothing is cut or the suffix fits, and a cut text is then exactly the limit long |
| Context.LongKeyOverflows | backend/core/context.py:49 | a concrete tag and text whose cut form is longer than the entry limit |
| Context.TruncateShape | backend/core/context.py:48-49 | a cut text is a prefix of the text, of the stated length, followed by the suffix, whether or not the suffix fits the limit |
| Context.TruncateIdempotentIff | backend/core/context.py:45-49 | cutting again changes nothing if and only if nothing was cut, the suffix fits, or the limit is zero |
| Context.SortSorts | backend/core/context.py:59 | sorting yields an ordered permutation |
| Context.SortIsCanonical | backend/core/context.py:119 | equal multisets sort to the same list |
| Context.SortedDictCanonical | backend/core/context.py:67 | dicts with equal contents have the same sorted form |
| Context.ToJsonCanonical | backend/core/context.py:52-54 | dicts with equal contents have the same JSON text |
| JsonText.ReadsBack | backend/core/context.py:52-54 | a JSON reader gives back from the text exactly the entries of the dict, each once, with the keys in ascending order |
| JsonText.ToJsonIff | backend/core/context.py:52-54 | two dicts have the same JSON text if and only if they have equal contents |
| Context.MaybeSummariseCanonical | backend/core/context.py:62-67 | the summary depends on the contents of the map only |
| Context.MaybeSummariseIdempotent | backend/core/context.py:57-67 | summarising a summary changes nothing when each key's suffix fits the entry limit |
| PromptLaws.ExecutorPromptSays | backend/core/context.py:104-134 | the executor prompt is the id, description, hints and research entry of the task, the outputs of its dependencies in ascending order, and the request, each cut and the whole cut at the stated numbers of characters |
| PromptLaws.VerifierPromptSays | backend/core/context.py:137-159 | the verifier prompt is the goal, the plan, the research and the outputs, summarised if and only if their JSON exceeds 24000 characters, and the request, cut to 48000 characters |
| PromptLaws.StrLeIff | backend/core/context.py:59 | strings are sorted by their first differing character, a beginning before the whole |
| Context.VerifierContextCanonical | backend/core/context.py:137-159 | the verifier prompt is the same for every insertion order of its two maps |
| Context.ExecutorContextIgnoresOrder | backend/core/context.py:104-134 | the executor prompt is the same for every order of a task's dependency list |
| Context.ExecutorContextScoped | backend/core/context.py:104-134 | the executor prompt reads only the task's own research entry and its own dependencies' outputs |
| Context.ExecutorContextWithinBudget | backend/core/context.py:133-134 | the executor prompt never exceeds its input budget |
| Context.VerifierContextWithinBudget | backend/core/context.py:158-159 | the verifier prompt never exceeds its input budget |
| Reflector.ReflectionRecord.Validate | backend/agents/reflector.py:23-43 | the dict is rewritten in place to its validated form, other keys untouched |
| Reflector.ReflectionRecord.ClampDimensions | backend/agents/reflector.py:34-36 | the loop clamps the five dimensions, defaulting to zero, and nothing else |
| Reflector.RoundIsNearest | backend/agents/reflector.py:40 | rounding gives a nearest value, the even one on a tie |
| Reflector.ClampIsNearest | backend/agents/reflector.py:30-36 | clamping gives the number of [0, 1] that is nearest |
| QualityGates.ScoreIs | backend/agents/reflector.py:30-40 | the score is the nearest multiple of 0.0001 to the mean of the five scores brought into [0, 1], or, with none positive, the claimed score brought into [0, 1] |
| Reflector.ScoresInRange | backend/agents/reflector.py:30-42 | the score and all dimensions end in [0, 1], and pass means the threshold is met |
| Reflector.ValidatedIdempotent | backend/agents/reflector.py:23-43 | validating twice is validating once |
| Reflector.MonotoneInDimensions | backend/agents/reflector.py:38-40 | once some dimension is positive, raising dimensions never lowers the score |
| Reflector.PassIffMean | backend/agents/reflector.py:39-42 | with a positive dimension, pass if and only if the exact mean is at least 0.84995 |
| Reflector.ClaimIgnoredIff | backend/agents/reflector.py:38-40 | the score the model claims is ignored if and only if some dimension is positive |
| RunLoop.RunsTerminate | backend/core/graph.py:126-144 | from every configuration, steps taken plus steps still allowed never exceed the initial bound, so every run is finite |
| RunLoop.StepBound | backend/core/graph.py:163-184 | from the initial state a run has at most 5 * max_iterations + 1 node steps |
| RunLoop.NeverStuck | backend/core/graph.py:170-184 | until END or a crash every configuration has a step that does not raise |
| RunLoop.CanAlwaysFinish | backend/core/graph.py:170-184 | every run that has not crashed can be continued to END |
| RunLoop.QualityGate | backend/core/graph.py:94-144 | at END a disclaimer is set if and only if the final score is below 0.85, and max_iterations_reached only at the last iteration |
| QualityGates.ReflectStepRoutes | backend/core/graph.py:126-144 | after the reflector the run stops if and only if the iteration is the last or the reflection clears the gate: the five scores given, brought into [0, 1], add up to at least 4.24975, or, with no positive score, the claimed score is at least 0.85 |
| QualityGates.EndsClearIff | backend/core/graph.py:94-102 | at END there is no disclaimer if and only if the last reflection of the run cleared the gate |
| RunLoop.HardCapNeverFires | backend/core/graph.py:44-51 | iteration_count equals the planner entries, and the hard-cap branch is never taken |
| StepLaws.AcceptedPlanStep | backend/core/graph.py:52-75 | an accepted reply becomes the plan, field by field and pending; a repeated one also stops the run with its log line |
| StepLaws.FailedPlanStep | backend/core/graph.py:57-60 | a failing planner keeps the plan and leaves one line with the first 500 characters of the exact text of the failure |
| StepLaws.ResearchStep | backend/agents/researcher.py:102-115 | the researcher writes what was found, or what went wrong, for every task of the plan and nothing else |
| StepLaws.ExecuteStep | backend/agents/executor.py:29-80 | the executor records every task as its outcome says, extends the log by the lines of the failed ones, and changes nothing else |
| StepLaws.AbortStep | backend/agents/executor.py:36-87 | an aborted pass leaves the marks of the tasks before the one that raised, and nothing else |
| StepLaws.ClosingSteps | backend/core/graph.py:94-112 | the verifier changes nothing modelled, the reflector only the score, the output node only a missing disclaimer of a score below 0.85 |
| StepLaws.NoLimitIsThree | backend/core/graph.py:132 | a state without max_iterations has exactly the runs of one whose limit is three |
| RunLoop.FirstPassShowsNoOutput | backend/core/context.py:104-134 | in the first iteration the text prepared for every dependency, before the budget cut, is that of no output, and every executor prompt is the one an empty output map gives |
| RunLoop.DataHolds | backend/core/graph.py:38-91 | at every point the plan is valid and all recorded keys come from plans seen so far |
| RunLoop.VerifierSeesWholePlan | backend/core/graph.py:170-184 | when the verifier runs, each task has a research entry, is done or failed, and a done task has the output written in that pass |
| RunLoop.RunExtends | backend/core/graph.py:57-71 | each earlier log is a prefix of each later one, and research and output keys never shrink |
| RunLoop.LogConservation | backend/core/graph.py:57-71 | the log has one line for each planner failure, one for each task marked failed in a pass that returned, and one more after a repeated plan; it counts every failed mark if and only if no aborted pass had a failed task before its end |
| RunLoop.LogIsConcatenation | backend/core/graph.py:57-71 | the log of a run is exactly the planner error lines, each pass's error lines in schedule order and the loop line, in the order of the steps |
| RunLoop.ExhaustionLoggedIff | backend/agents/base.py:109-113 | a call that runs out of retries leaves its line in the state's log if and only if it is the planner's, or a task's in an executor pass that returns; otherwise the log stays as it was and the run crashes |
| WitnessRuns.VerifierExhaustionUnlogged | backend/agents/base.py:66 | a run from the initial state in which the verifier's call is exhausted and the log is empty |
| WitnessRuns.AbortedPassUnlogged | backend/agents/executor.py:43-50 | a run from the initial state in which an executor call is exhausted, a later task raises, the task stays marked failed and the log is empty |
| WitnessRuns.StalePromptReachable | backend/agents/executor.py:31-41 | a run from the initial state to the executor, and a behaviour of the sandbox there, with a prompt other than the one the pass's records would give |
| LoopDetector.SameHashIff | backend/core/loop_detector.py:26-40 | two valid plans have the same hash if and only if both are one task with equal id, description and model |
| RepeatedPlans.RecordedIff | backend/core/loop_detector.py:54-73 | the set holds what it held before and the hash of every plan the run asked about |
| RepeatedPlans.LoopDetectedIff | backend/core/loop_detector.py:4-6 | with a working detector and an empty set a run is marked loop_detected if and only if it has planned a single task twice |
| RepeatedPlans.FirstPlanIsNew | backend/core/graph.py:64-71 | such a run is never marked loop_detected in its first iteration |
| WitnessRuns.RepeatUncaught | backend/core/loop_detector.py:28-38 | a run that plans the same two tasks twice and goes on |
| Frames.RunGraph | backend/api/ws/run.py:77-160 | the frames sent are those of the events in order, with the planner starts so far as iteration, and one closing frame |
| Frames.ForeignEventsIgnored | backend/api/ws/run.py:79-116 | engine events for other names, wherever they fall, change nothing |
| Frames.FramesFollowGrammar | backend/api/ws/run.py:77-160 | for every run that ends or raises, the frames are accepted by the frame automaton |
| FrameCompleteness.AcceptedFramesAreSent | backend/api/ws/run.py:77-160 | conversely every sequence the automaton accepts within the iteration bound is sent by some run with a working detector; only a stop right after the first planner pass needs a set that already holds the plan, as another run of the session may leave it |
| FrameCompleteness.FreshRunsSendExactly | backend/api/ws/run.py:77-160 | runs with a working detector and an empty set send exactly the accepted sequences but for that immediate stop |
| Frames.StartIsAnswered | backend/api/ws/run.py:82-114 | a start is answered by the same agent's completion, preceded by the score (reflector) or the replan (later planner passes), or by the final error |
| Frames.CompletionIsFollowed | backend/core/graph.py:170-184 | after a completion comes done or the start of the next agent in the cycle |
| Frames.IterationIsPlannerStarts | backend/api/ws/run.py:82-108 | the iteration on a start, a score or a replan is the number of planner starts so far |
| Frames.IterationsNeverDecrease | backend/api/ws/run.py:82-108 | the iteration numbers on starts, scores and replans never go down |
| Frames.IterationsWithinBound | backend/core/graph.py:132-144 | no start, score or replan carries an iteration above max_iterations |
| Frames.ReplansAndScores | backend/api/ws/run.py:95-108 | replans number one less than planner completions, and scores equal reflector completions |
| Frames.OneTerminalFrame | backend/api/ws/run.py:119-160 | a frame is done or error if and only if it is the last |
| EmbedCache.RunKeepsInv | backend/core/memory.py:47-69 | under every interleaving, with writes that fail before or after taking effect, every cached and pending vector is the embedding of its text or of the first 8000 characters |
| EmbedCache.ReturnsPlausible | backend/tools/rag_recall.py:40-59 | so is every vector returned |
| EmbedCache.RaisesIff | backend/core/memory.py:47-69 | a call raises if and only if the embedding model fails, or it is the recall tool's and Redis fails |
| EmbedCache.CacheChanges | backend/core/memory.py:64-67 | the cache changes by writes, answered or not, which store the vector of their call under the key of its text, and by expiry, and by nothing else |
| EmbedCache.HitsExactIff | backend/core/memory.py:52-67 | hits for a text are exact for every embedder and interleaving if and only if it has at most 8000 characters |
| EmbedCache.CutTextLeaks | backend/tools/rag_recall.py:53-58 | a run in which the memory client hits the entry the recall tool wrote for a longer text |
| Sessions.PendingIsLeftForGood | backend/api/ws/run.py:52-56 | under every interleaving a status that has left pending is never pending again, and no further connection passes the gate |
| Sessions.OneRunPerConnection | backend/api/ws/run.py:197-212 | each connection starts at most one run, and a run belongs to a connection that has started it |
| Sessions.LastWriterWins | backend/api/ws/run.py:119-143 | the status is that of the last write: running when a run begins, completed or failed when one returns or raises, aborted by an abort or a deletion |
| Sessions.AbortsAreCounted | backend/api/routes/sessions.py:195-217 | every abort request that found the session pending or running writes once, and no other does |
| Sessions.AbortIsFinalIff | backend/api/routes/sessions.py:195-217 | an aborted session stays aborted in every continuation if and only if every run is over and every open connection has used its start |
| Sessions.TwoRunsAtOnce | backend/api/ws/run.py:179-190 | two connections that pass the gate before either run begins both run the session |
| Sessions.AbortOverwritten | backend/api/ws/run.py:132-143 | an abort request that succeeds and a session that ends completed |
| Invoke.InvokeJson | backend/agents/base.py:77-113 | the model is called once more than there were transient failures before the first decisive outcome, at most the limit, never after malformed JSON; the last call decides the outcome, an exhausted call carries the last failure, and there is one back-off between each two calls |
| Invoke.BackoffBounds | backend/agents/base.py:101-107 | with jitters between two bounds the sleep lies between the geometric sum plus that many of each |
| Invoke.TotalSleepBound | backend/agents/base.py:77-113 | in total at most base * (2^(N-1) - 1) + (N-1) * jitter |
| Invoke.StripUndoesFenceIff | backend/agents/base.py:115-123 | stripping a fenced body gives back the body, under any surrounding whitespace, if and only if its only line breaks are newlines |
| Invoke.PlainTextComesBack | backend/agents/base.py:118-123 | a reply that does not begin with a fence comes back as it is, without the whitespace around it |
| Invoke.UnclosedFenceComesBack | backend/agents/base.py:120-122 | an opening fence that nothing closes is dropped alone, and the lines after it come back |
| Invoke.IndentedFenceCloses | backend/agents/base.py:122 | a closing fence may be indented |
| Invoke.LoneFence | backend/agents/base.py:120-122 | a fence line alone leaves nothing |

## Left out

- Executor.ExecuteTask: the model reply and the sandbox result arrive as one outcome per task id; an exception that escapes the pass is the abort action of the run loop.
- Executor.Run: it requires its task records to be distinct objects, as the validator creates them; that the state and the update share those records is modelled inside a pass and for the marks of a pass that raises; elsewhere plans are values.
- Frames.RunGraph: every send and database write succeeds; the contents taken from the output node's event (stored quality, final output) depend on the graph library and are not modelled.
- EmbedCache.HitsExactIff: SHA-256 is an injective key, the embedder is deterministic, and vectors survive JSON unchanged.
- Reflector.PassIffMean: scores are exact reals; binary floating point and NaN are not modelled, and a non-numeric score is a crash.
- Context.ToJsonCanonical: only string-to-string maps are rendered; the plan reaches the verifier prompt as an already rendered text.
- Planner.ValidateTaskDag: `str()` has been applied to the JSON leaves, a null list is the empty list, and Python's recursion limit is not modelled; the quoted ids of an error text show unprintable characters beyond ASCII as they are.
- The loop detector answers the run loop as an oracle (new, seen, error), except that a plan of two or more tasks gets an error; `RepeatedPlans` fixes its answers for a Redis that works, and the expiry of its key and Redis errors are the oracle's other answers. The hash is taken to be injective on what it is computed from.
- Sessions.AbortIsFinalIff: one row with its status only; the goal, the stored results and the checks of the caller's identity are not modelled, and a database write that fails is a connection or a run that ends without it.
- The verification report and the reflection feedback are not fields of the modelled state; no route depends on them.
- The planner and reflector prompts concatenate fields of the state; memory storage and recall send finished outputs to and fetch them from the vector store; inside one task the tools of its hints are called in turn and their texts joined, which is one finding per task here; the verifier fills defaults into its report.
- Authentication, provider toggle, model router, health routes, storage and network clients, checkpoints, the graph library's recursion limit, the front end and the scripts.
