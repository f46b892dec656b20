/** backend/core/graph.py from backend/core/state.py's initial state: the agent loop as a state
    machine whose steps are the node functions, with the models, the tools, the sandbox and the
    loop detector as nondeterministic choices. */
module RunLoop {
  import opened Graphs
  import opened Options
  import opened Sequences
  import opened TaskPlan
  import opened Executor
  import P = Planner
  import R = Researcher
  import F = Reflector
  import opened LoopDetector
  import Context
  import I = Invoke
  import Scheduling

  // ----- The shared state and the node functions -----

  datatype Disclaimer = NoDisclaimer | MaxIterationsReached | LoopDetected

  datatype NexusState = NexusState(
    plan: seq<Entry>,
    research: map<Id, string>,
    output: map<Id, string>,
    quality: real,
    iteration: int,
    maxIterations: int,
    log: seq<string>,
    disclaimer: Disclaimer
  )

  /** initial_state, with the bound as a parameter (it is 3 there). */
  function InitialState(maxIterations: int): NexusState {
    NexusState([], map[], map[], 0.0, 0, maxIterations, [], NoDisclaimer)
  }

  /** state.get("max_iterations") or 3 */
  function Bound(s: NexusState): int {
    if s.maxIterations == 0 then 3 else s.maxIterations
  }

  /** An exception that leaves an agent: one raised by its model call, or any other. */
  datatype Cause = AgentFailed(error: I.AgentError) | OtherException(message: string)

  function CauseText(agent: string, cause: Cause): string {
    match cause
    case AgentFailed(error) => I.ErrorText(agent, error)
    case OtherException(message) => message
  }

  /** What the planner's model call comes back with: an exception, or JSON that the validator judges,
      with the fault it reports if it rejects it. */
  datatype PlannerReply = NoReply(cause: Cause) | Reply(raw: P.RawPlan, fault: P.PlanError)

  ghost predicate Plans(reply: PlannerReply) {
    reply.Reply? && P.Acceptable(reply.raw)
  }

  function Fresh(tasks: seq<Task>): seq<Entry> {
    seq(|tasks|, i requires 0 <= i < |tasks| => Entry(tasks[i], Pending))
  }

  function PlannerError(reply: PlannerReply): string {
    "planner error: " + SliceTo(
      match reply
      case NoReply(cause) => CauseText("planner", cause)
      case Reply(_, fault) => "planner: invalid task DAG \U{2014} " + P.FaultText(fault), 500)
  }

  const LOOP_LINE := "loop detected \U{2014} identical plan repeated"

  /** _planner_node */
  ghost function PlannerNode(s: NexusState, reply: PlannerReply, verdict: LoopVerdict): NexusState {
    var base := s.(iteration := s.iteration + 1);
    if base.iteration > Bound(s) then
      base.(disclaimer := MaxIterationsReached)
    else if !Plans(reply) then
      base.(log := s.log + [PlannerError(reply)])
    else
      var planned := base.(plan := Fresh(P.ConvertAll(reply.raw.items)));
      if verdict.SeenBefore? then
        planned.(log := s.log + [LOOP_LINE], disclaimer := LoopDetected)
      else
        planned
  }

  /** The researcher's update, for the schedule and the tool results of this step. */
  function ResearcherNode(s: NexusState, levels: seq<seq<Task>>, findings: Id -> R.Finding): NexusState {
    s.(research := R.Researched(R.Order(levels), findings, s.research))
  }

  /** The executor's update. */
  function ExecutorNode(s: NexusState, levels: seq<seq<Task>>, oracle: Oracle): NexusState {
    var r := Pass(s, levels, oracle);
    s.(plan := r.plan, output := r.output, log := r.log)
  }

  function Pass(s: NexusState, levels: seq<seq<Task>>, oracle: Oracle): ExecState {
    RunTasks(Flatten(levels), oracle, ExecState(s.plan, s.output, s.log))
  }

  /** What is left of a pass that raises after the first done tasks: the marks on the task records,
      which the state shares. The update with the outputs and the log is never returned. */
  function AbortedPass(s: NexusState, levels: seq<seq<Task>>, oracle: Oracle, done: nat): NexusState
    requires done <= |Flatten(levels)|
  {
    s.(plan := RunTasks(Flatten(levels)[..done], oracle, ExecState(s.plan, s.output, s.log)).plan)
  }

  function ReflectorNode(s: NexusState, raw: F.Reflection): NexusState {
    s.(quality := F.Validated(raw).quality.value)
  }

  /** _output_node */
  function OutputNode(s: NexusState): NexusState {
    if s.disclaimer == NoDisclaimer && s.quality < F.QUALITY_THRESHOLD && s.iteration >= Bound(s)
    then s.(disclaimer := MaxIterationsReached)
    else s
  }

  // ----- The graph -----

  datatype Node = AtPlanner | AtResearcher | AtExecutor | AtVerifier | AtReflector | AtOutput | AtEnd | Crashed

  function RouteAfterPlanner(s: NexusState): Node {
    if s.disclaimer != NoDisclaimer then AtOutput else AtResearcher
  }

  function RouteAfterReflector(s: NexusState): Node {
    if s.quality >= F.QUALITY_THRESHOLD then AtOutput
    else if s.iteration >= Bound(s) then AtOutput
    else AtPlanner
  }

  /** The choices the environment makes in one step. Crash is an exception that leaves the researcher,
      the verifier or the reflector; Abort is one that leaves the executor after the first done tasks of
      the schedule, from the task after them. The planner node absorbs its exceptions, the executor
      those of its model calls (the error line is lost if a later task raises something else), and the
      researcher calls no model. */
  datatype Action =
    | Plan(reply: PlannerReply, verdict: LoopVerdict)
    | Research(rLevels: seq<seq<Task>>, findings: Id -> R.Finding)
    | Execute(xLevels: seq<seq<Task>>, oracle: Oracle)
    | Abort(xLevels: seq<seq<Task>>, oracle: Oracle, done: nat, message: string)
    | Verify
    | Reflect(raw: F.Reflection)
    | Finish
    | Crash(cause: Cause)

  predicate Raises(a: Action) {
    a.Crash? || a.Abort?
  }

  /** What an observer of the run has counted; the nodes never read it. */
  datatype History = History(
    plannerEntries: nat,
    plannerFailures: nat,
    failedMarks: nat,
    seen: set<Id>,
    written: map<Id, string>
  )

  datatype Config = Config(node: Node, state: NexusState, history: History)

  function Initial(maxIterations: int): Config {
    Config(AtPlanner, InitialState(maxIterations), History(0, 0, 0, {}, map[]))
  }

  ghost predicate Enabled(c: Config, a: Action) {
    match c.node
    case AtPlanner =>
      && a.Plan?
      && (a.reply.Reply? && !P.Acceptable(a.reply.raw) ==> P.Explains(a.reply.raw, a.reply.fault))
      && (Plans(a.reply) && |a.reply.raw.items| > 1 ==> a.verdict.DetectorError?)
    case AtResearcher =>
      || (a.Crash? && a.cause.OtherException?)
      || (a.Research? && R.IsSchedule(Tasks(c.state.plan), a.rLevels))
    case AtExecutor =>
      && (a.Execute? || (a.Abort? && a.done < |Flatten(a.xLevels)|))
      && R.IsSchedule(Tasks(c.state.plan), a.xLevels)
    case AtVerifier => a.Crash? || a.Verify?
    case AtReflector => a.Crash? || a.Reflect?
    case AtOutput => a.Finish?
    case AtEnd => false
    case Crashed => false
  }

  ghost function PlanIds(s: NexusState): set<Id> {
    set x | x in IdsOf(Tasks(s.plan))
  }

  ghost function Next(c: Config, a: Action): Config
    requires Enabled(c, a)
  {
    var s, h := c.state, c.history;
    match a
    case Crash(_) => c.(node := Crashed)
    case Plan(reply, verdict) =>
      var s' := PlannerNode(s, reply, verdict);
      var failed := s'.iteration <= Bound(s) && !Plans(reply);
      Config(RouteAfterPlanner(s'), s',
             h.(plannerEntries := h.plannerEntries + 1,
                plannerFailures := h.plannerFailures + if failed then 1 else 0,
                seen := h.seen + PlanIds(s')))
    case Research(levels, findings) => Config(AtExecutor, ResearcherNode(s, levels, findings), h)
    case Execute(levels, oracle) =>
      var s' := ExecutorNode(s, levels, oracle);
      Config(AtVerifier, s',
             h.(failedMarks := h.failedMarks + |WithStatus(s'.plan, Failed)|,
                written := map x | x in WithStatus(s'.plan, Done) :: StdoutOf(oracle(x))))
    case Abort(levels, oracle, done, _) =>
      Config(Crashed, AbortedPass(s, levels, oracle, done),
             h.(failedMarks := h.failedMarks + |FailedIn(Flatten(levels)[..done], oracle)|))
    case Verify => c.(node := AtReflector)
    case Reflect(raw) => var s' := ReflectorNode(s, raw); Config(RouteAfterReflector(s'), s', h)
    case Finish => Config(AtEnd, OutputNode(s), h)
  }

  // ----- Runs -----

  ghost predicate IsRun(c: Config, acts: seq<Action>)
    decreases |acts|, 0
  {
    acts == [] ||
    (IsRun(c, acts[..|acts| - 1]) && Enabled(After(c, acts[..|acts| - 1]), acts[|acts| - 1]))
  }

  ghost function After(c: Config, acts: seq<Action>): Config
    requires IsRun(c, acts)
    decreases |acts|, 1
  {
    if acts == [] then c else Next(After(c, acts[..|acts| - 1]), acts[|acts| - 1])
  }

  // ----- Termination -----

  /** An upper bound on the steps left: five for each iteration that may still start. */
  function StepsLeft(c: Config): nat {
    var left := Bound(c.state) - c.state.iteration;
    var rounds := if left > 0 then 5 * left else 0;
    match c.node
    case AtPlanner => if left > 0 then rounds + 1 else 2
    case AtResearcher => rounds + 5
    case AtExecutor => rounds + 4
    case AtVerifier => rounds + 3
    case AtReflector => rounds + 2
    case AtOutput => 1
    case AtEnd => 0
    case Crashed => 0
  }

  lemma StepsLeftDrops(c: Config, a: Action)
    requires Enabled(c, a)
    ensures StepsLeft(Next(c, a)) < StepsLeft(c)
  {
  }

  /** Every run from every configuration is finite: it has no more steps than the bound. */
  lemma {:induction false} RunsTerminate(c: Config, acts: seq<Action>)
    requires IsRun(c, acts)
    ensures |acts| + StepsLeft(After(c, acts)) <= StepsLeft(c)
  {
    if acts == [] {
    } else {
      var n := |acts| - 1;
      RunsTerminate(c, acts[..n]);
      StepsLeftDrops(After(c, acts[..n]), acts[n]);
    }
  }

  /** A run from the initial state takes at most five steps for each iteration, and one more. */
  lemma {:induction false} StepBound(maxIterations: int, acts: seq<Action>)
    requires IsRun(Initial(maxIterations), acts) && Bound(InitialState(maxIterations)) > 0
    ensures |acts| <= 5 * Bound(InitialState(maxIterations)) + 1
  {
    RunsTerminate(Initial(maxIterations), acts);
  }

  // ----- Progress -----

  /** Unless the run is over, some step other than a crash is possible. */
  lemma NeverStuck(c: Config) returns (a: Action)
    requires c.node != AtEnd && c.node != Crashed
    ensures Enabled(c, a) && !Raises(a)
  {
    var levels := Scheduling.ScheduleExists(Tasks(c.state.plan));
    match c.node
    case AtPlanner => a := Plan(NoReply(OtherException("")), NewPlan);
    case AtResearcher => a := Research(levels, _ => R.Found(""));
    case AtExecutor => a := Execute(levels, _ => NoCode);
    case AtVerifier => a := Verify;
    case AtReflector => a := Reflect(F.Reflection(None, map[], None));
    case AtOutput => a := Finish;
  }

  lemma ExtendRun(c: Config, acts: seq<Action>, a: Action)
    requires IsRun(c, acts) && Enabled(After(c, acts), a)
    ensures IsRun(c, acts + [a]) && After(c, acts + [a]) == Next(After(c, acts), a)
    ensures After(c, acts + [a]).node == Crashed <==> Raises(a)
  {
    assert (acts + [a])[..|acts|] == acts;
  }

  /** Every run that has not crashed can be continued to END. */
  lemma {:induction false} CanAlwaysFinish(c: Config, acts: seq<Action>) returns (all: seq<Action>)
    requires IsRun(c, acts) && After(c, acts).node != Crashed
    ensures acts <= all && IsRun(c, all) && After(c, all).node == AtEnd
    decreases StepsLeft(After(c, acts))
  {
    var here := After(c, acts);
    if here.node == AtEnd {
      all := acts;
    } else {
      var a := NeverStuck(here);
      StepsLeftDrops(here, a);
      ExtendRun(c, acts, a);
      all := CanAlwaysFinish(c, acts + [a]);
    }
  }

  // ----- The control invariant -----

  ghost predicate Running(n: Node) {
    n.AtResearcher? || n.AtExecutor? || n.AtVerifier? || n.AtReflector?
  }

  ghost predicate BelowGate(s: NexusState) {
    s.quality < F.QUALITY_THRESHOLD
  }

  /** The executor has not returned yet. */
  ghost predicate BeforeFirstPass(c: Config) {
    || (c.node.AtPlanner? && c.state.iteration == 0)
    || ((c.node.AtResearcher? || c.node.AtExecutor?) && c.state.iteration == 1)
  }

  /** Counters, quality and disclaimer, at every point of every run. */
  ghost predicate ControlInv(c: Config) {
    var s := c.state;
    && Bound(s) > 0
    && s.iteration == c.history.plannerEntries <= Bound(s)
    && (c.node.AtPlanner? ==> s.iteration < Bound(s) && BelowGate(s) && s.disclaimer == NoDisclaimer)
    && (Running(c.node) ==> s.iteration > 0 && BelowGate(s) && s.disclaimer == NoDisclaimer)
    && (c.node.Crashed? ==> s.disclaimer == NoDisclaimer)
    && (BeforeFirstPass(c) ==> s.output == map[])
    && (c.node.AtOutput? ==>
      if s.disclaimer == NoDisclaimer then !BelowGate(s) || s.iteration == Bound(s)
      else s.disclaimer == LoopDetected && BelowGate(s))
    && (c.node.AtEnd? ==>
      && (s.disclaimer != NoDisclaimer <==> BelowGate(s))
      && (s.disclaimer == MaxIterationsReached ==> s.iteration == Bound(s)))
  }

  lemma ControlStep(c: Config, a: Action)
    requires ControlInv(c) && Enabled(c, a)
    ensures ControlInv(Next(c, a))
  {
  }

  lemma {:induction false} ControlHolds(maxIterations: int, acts: seq<Action>)
    requires IsRun(Initial(maxIterations), acts) && Bound(InitialState(maxIterations)) > 0
    ensures ControlInv(After(Initial(maxIterations), acts))
  {
    if acts == [] {
    } else {
      var n := |acts| - 1;
      ControlHolds(maxIterations, acts[..n]);
      ControlStep(After(Initial(maxIterations), acts[..n]), acts[n]);
    }
  }

  /** The quality gate: a run that reaches END carries a disclaimer exactly when its final score
      is below the threshold, and max_iterations_reached only after the last iteration. */
  lemma {:induction false} QualityGate(maxIterations: int, acts: seq<Action>)
    requires IsRun(Initial(maxIterations), acts) && Bound(InitialState(maxIterations)) > 0
    requires After(Initial(maxIterations), acts).node == AtEnd
    ensures var s := After(Initial(maxIterations), acts).state;
            && (s.disclaimer != NoDisclaimer <==> s.quality < F.QUALITY_THRESHOLD)
            && (s.disclaimer == MaxIterationsReached ==> s.iteration == Bound(s))
  {
    ControlHolds(maxIterations, acts);
  }

  /** iteration_count is the number of planner entries so far, and no planner entry meets the hard cap. */
  lemma {:induction false} HardCapNeverFires(maxIterations: int, acts: seq<Action>)
    requires IsRun(Initial(maxIterations), acts) && Bound(InitialState(maxIterations)) > 0
    ensures var c := After(Initial(maxIterations), acts);
            && c.state.iteration == c.history.plannerEntries
            && (c.node == AtPlanner ==> !(c.state.iteration + 1 > Bound(c.state)))
  {
    ControlHolds(maxIterations, acts);
  }

  /** In the first iteration the text prepared for every dependency, before the prompt is cut to its
      budget, says that there is no output, and every prompt is the one that an empty output map gives,
      whatever the tasks before it in the same pass have printed. */
  lemma {:induction false} FirstPassShowsNoOutput(maxIterations: int, acts: seq<Action>, task: Task,
                                                  research: map<Id, string>)
    requires IsRun(Initial(maxIterations), acts) && Bound(InitialState(maxIterations)) > 0
    requires After(Initial(maxIterations), acts).node == AtExecutor
    requires After(Initial(maxIterations), acts).history.plannerEntries == 1
    ensures var output := After(Initial(maxIterations), acts).state.output;
            && (forall d :: d in task.dependsOn ==> Context.DependencyText(d, output) == "(no output)")
            && Context.ExecutorContext(task, research, output) == Context.ExecutorContext(task, research, map[])
  {
    ControlHolds(maxIterations, acts);
  }

  // ----- The data invariant -----

  /** The plan is schedulable, every recorded key belongs to a plan seen so far, and the verifier
      and the reflector only run with a full record of the current plan. */
  ghost predicate DataInv(c: Config) {
    var s, h := c.state, c.history;
    && ValidPlan(Tasks(s.plan))
    && PlanIds(s) <= h.seen && s.research.Keys <= h.seen && s.output.Keys <= h.seen
    && (c.node.AtExecutor? || c.node.AtVerifier? || c.node.AtReflector? ==> PlanIds(s) <= s.research.Keys)
    && (c.node.AtVerifier? || c.node.AtReflector? ==> PassRecorded(s, h))
  }

  /** Every task is done or failed, and what the latest pass wrote for the done ones is on record. */
  ghost predicate PassRecorded(s: NexusState, h: History) {
    && (forall i :: 0 <= i < |s.plan| ==> s.plan[i].status == Done || s.plan[i].status == Failed)
    && h.written.Keys == WithStatus(s.plan, Done)
    && forall x :: x in h.written ==> x in s.output && s.output[x] == h.written[x]
  }

  lemma EmptyPlanIsValid()
    ensures ValidPlan(Tasks([]))
  {
    forall p
      ensures !IsCycle(PlanGraph(Tasks([])), p)
    {
      assert |p| > 1 ==> p[0] !in PlanGraph(Tasks([]));
    }
  }

  lemma TasksOfFresh(tasks: seq<Task>)
    ensures Tasks(Fresh(tasks)) == tasks
  {
  }

  lemma PlanStepKeepsData(c: Config, a: Action)
    requires DataInv(c) && Enabled(c, a) && a.Plan?
    ensures DataInv(Next(c, a))
  {
    if Plans(a.reply) {
      TasksOfFresh(P.ConvertAll(a.reply.raw.items));
    }
  }

  lemma ResearchStepKeepsData(c: Config, a: Action)
    requires DataInv(c) && Enabled(c, a) && a.Research?
    ensures DataInv(Next(c, a))
  {
    ScheduleCoversPlan(c.state.plan, a.rLevels);
  }

  lemma ScheduleCoversPlan(plan: seq<Entry>, levels: seq<seq<Task>>)
    requires ValidPlan(Tasks(plan)) && R.IsSchedule(Tasks(plan), levels)
    ensures forall x :: x in R.Order(levels) <==> x in IdsOf(Tasks(plan))
  {
    Scheduling.ValidPlanLosesNothing(Tasks(plan), levels);
    SameIds(Flatten(levels), Tasks(plan));
  }

  lemma ExecuteStepKeepsData(c: Config, a: Action)
    requires DataInv(c) && Enabled(c, a) && a.Execute?
    ensures DataInv(Next(c, a))
  {
    var s := ExecState(c.state.plan, c.state.output, c.state.log);
    var r := Pass(c.state, a.xLevels, a.oracle);
    PassSettlesPlan(a.xLevels, a.oracle, s);
    SettledOutputs(Flatten(a.xLevels), a.oracle, s, r);
    SettledIsRecorded(c, a, r);
  }

  lemma SettledIsRecorded(c: Config, a: Action, r: ExecState)
    requires Enabled(c, a) && a.Execute? && r == Pass(c.state, a.xLevels, a.oracle)
    requires PlanSettled(Flatten(a.xLevels), a.oracle, ExecState(c.state.plan, c.state.output, c.state.log), r)
    requires forall x :: x in WithStatus(r.plan, Done) ==> x in r.output && r.output[x] == StdoutOf(a.oracle(x))
    ensures PassRecorded(Next(c, a).state, Next(c, a).history)
  {
    RecordedByPass(Flatten(a.xLevels), a.oracle, ExecState(c.state.plan, c.state.output, c.state.log), r,
                   Next(c, a).state, Next(c, a).history);
  }

  lemma RecordedByPass(order: seq<Task>, oracle: Oracle, before: ExecState, r: ExecState, s: NexusState, h: History)
    requires PlanSettled(order, oracle, before, r) && s.plan == r.plan && s.output == r.output
    requires h.written == map x | x in WithStatus(r.plan, Done) :: StdoutOf(oracle(x))
    requires forall x :: x in WithStatus(r.plan, Done) ==> x in r.output && r.output[x] == StdoutOf(oracle(x))
    ensures PassRecorded(s, h)
  {
  }

  /** The marks of an aborted pass change statuses only. */
  lemma AbortStepKeepsData(c: Config, a: Action)
    requires DataInv(c) && Enabled(c, a) && a.Abort?
    ensures DataInv(Next(c, a))
  {
    AbortedMarks(c.state, a.xLevels, a.oracle, a.done);
  }

  lemma AbortedMarks(s: NexusState, levels: seq<seq<Task>>, oracle: Oracle, done: nat)
    requires ValidPlan(Tasks(s.plan)) && R.IsSchedule(Tasks(s.plan), levels) && done <= |Flatten(levels)|
    ensures Tasks(AbortedPass(s, levels, oracle, done).plan) == Tasks(s.plan)
  {
    Scheduling.ValidPlanLosesNothing(Tasks(s.plan), levels);
    UniquePrefix(Flatten(levels), done);
    RunTasksEffect(Flatten(levels)[..done], oracle, ExecState(s.plan, s.output, s.log));
  }

  lemma {:induction false} DataStep(c: Config, a: Action)
    requires DataInv(c) && Enabled(c, a)
    ensures DataInv(Next(c, a))
  {
    if a.Plan? {
      PlanStepKeepsData(c, a);
    } else if a.Research? {
      ResearchStepKeepsData(c, a);
    } else if a.Execute? {
      ExecuteStepKeepsData(c, a);
    } else if a.Abort? {
      AbortStepKeepsData(c, a);
    }
  }

  lemma {:induction false} DataHolds(maxIterations: int, acts: seq<Action>)
    requires IsRun(Initial(maxIterations), acts)
    ensures DataInv(After(Initial(maxIterations), acts))
  {
    if acts == [] {
      EmptyPlanIsValid();
    } else {
      var n := |acts| - 1;
      DataHolds(maxIterations, acts[..n]);
      DataStep(After(Initial(maxIterations), acts[..n]), acts[n]);
    }
  }

  /** Whenever the verifier runs, every task of the current plan has a research entry, every task is
      done or failed, and every done task has the output written in that pass; all keys come from
      plans seen so far. */
  lemma {:induction false} VerifierSeesWholePlan(maxIterations: int, acts: seq<Action>)
    requires IsRun(Initial(maxIterations), acts)
    ensures var c := After(Initial(maxIterations), acts);
            && c.state.research.Keys <= c.history.seen && c.state.output.Keys <= c.history.seen
            && (c.node == AtVerifier ==> PlanIds(c.state) <= c.state.research.Keys && PassRecorded(c.state, c.history))
  {
    DataHolds(maxIterations, acts);
  }

  // ----- What only grows -----

  /** The log is extended, and no research or output key is dropped. */
  ghost predicate Extends(s: NexusState, t: NexusState) {
    s.log <= t.log && s.research.Keys <= t.research.Keys && s.output.Keys <= t.output.Keys
  }

  lemma StepExtends(c: Config, a: Action)
    requires DataInv(c) && Enabled(c, a)
    ensures Extends(c.state, Next(c, a).state)
  {
    if a.Execute? {
      var s := ExecState(c.state.plan, c.state.output, c.state.log);
      PassSettlesPlan(a.xLevels, a.oracle, s);
      SettledOutputs(Flatten(a.xLevels), a.oracle, s, Pass(c.state, a.xLevels, a.oracle));
    }
  }

  /** Over a whole run each earlier log is a prefix of each later one and the recorded keys never shrink. */
  lemma {:induction false} RunExtends(maxIterations: int, acts: seq<Action>, k: nat)
    requires IsRun(Initial(maxIterations), acts) && k <= |acts|
    ensures IsRun(Initial(maxIterations), acts[..k])
    ensures Extends(After(Initial(maxIterations), acts[..k]).state, After(Initial(maxIterations), acts).state)
    decreases |acts|
  {
    if k == |acts| {
      assert acts[..k] == acts;
    } else {
      RunExtends(maxIterations, acts[..|acts| - 1], k);
      assert acts[..|acts| - 1][..k] == acts[..k];
      LastStepExtends(maxIterations, acts);
    }
  }

  lemma LastStepExtends(maxIterations: int, acts: seq<Action>)
    requires IsRun(Initial(maxIterations), acts) && acts != []
    ensures Extends(After(Initial(maxIterations), acts[..|acts| - 1]).state, After(Initial(maxIterations), acts).state)
  {
    var n := |acts| - 1;
    DataHolds(maxIterations, acts[..n]);
    StepExtends(After(Initial(maxIterations), acts[..n]), acts[n]);
  }

  // ----- The error log is accounted for -----

  /** The lines one step adds to the log. */
  ghost function StepLines(c: Config, a: Action): seq<string> {
    match a
    case Plan(reply, verdict) =>
      if c.state.iteration + 1 > Bound(c.state) then []
      else if !Plans(reply) then [PlannerError(reply)]
      else if verdict.SeenBefore? then [LOOP_LINE]
      else []
    case Execute(levels, oracle) => ErrorLines(Flatten(levels), oracle)
    case _ => []
  }

  lemma StepAppends(c: Config, a: Action)
    requires DataInv(c) && Enabled(c, a)
    ensures Next(c, a).state.log == c.state.log + StepLines(c, a)
  {
    if a.Execute? {
      PassSettlesPlan(a.xLevels, a.oracle, ExecState(c.state.plan, c.state.output, c.state.log));
    }
  }

  /** The lines a run adds, step by step. */
  ghost function RunLines(c: Config, acts: seq<Action>): seq<string>
    requires IsRun(c, acts)
  {
    if acts == [] then
      []
    else
      var n := |acts| - 1;
      RunLines(c, acts[..n]) + StepLines(After(c, acts[..n]), acts[n])
  }

  /** The log of a run is exactly the planner errors, the error lines of each pass in schedule order,
      and the loop line, in the order of the steps. */
  lemma {:induction false} LogIsConcatenation(maxIterations: int, acts: seq<Action>)
    requires IsRun(Initial(maxIterations), acts)
    ensures After(Initial(maxIterations), acts).state.log == RunLines(Initial(maxIterations), acts)
  {
    if acts == [] {
    } else {
      var n := |acts| - 1;
      LogIsConcatenation(maxIterations, acts[..n]);
      DataHolds(maxIterations, acts[..n]);
      StepAppends(After(Initial(maxIterations), acts[..n]), acts[n]);
    }
  }

  // ----- Which exhausted model calls reach the log -----

  datatype Caller = PlannerCall | TaskCall(id: Id) | VerifierCall | ReflectorCall

  /** The tasks whose turn in the executor pass came to its end. */
  function Completed(a: Action): seq<Task>
    requires a.Execute? || a.Abort?
  {
    if a.Abort? && a.done < |Flatten(a.xLevels)| then Flatten(a.xLevels)[..a.done] else Flatten(a.xLevels)
  }

  /** In this step the caller's model call runs out of retries with error e. */
  ghost predicate Exhausts(c: Config, a: Action, who: Caller, e: I.AgentError) {
    && e.Exhausted?
    && match who
       case PlannerCall =>
         c.node.AtPlanner? && c.state.iteration < Bound(c.state) && a.Plan? && a.reply == NoReply(AgentFailed(e))
       case TaskCall(x) =>
         c.node.AtExecutor? && (a.Execute? || a.Abort?) && x in IdsOf(Completed(a)) && a.oracle(x) == AgentFailure(e)
       case VerifierCall => c.node.AtVerifier? && a.Crash? && a.cause == AgentFailed(e)
       case ReflectorCall => c.node.AtReflector? && a.Crash? && a.cause == AgentFailed(e)
  }

  /** The line such a call leaves if it leaves one. */
  function ExhaustionLine(who: Caller, e: I.AgentError): string {
    match who
    case PlannerCall => PlannerError(NoReply(AgentFailed(e)))
    case TaskCall(_) => SliceTo(I.ErrorText("executor", e), 500)
    case VerifierCall => I.ErrorText("verifier", e)
    case ReflectorCall => I.ErrorText("reflector", e)
  }

  /** A model call that runs out of retries leaves its line in the state's log exactly when it is the
      planner's, or a task's in an executor pass that returns. For the verifier and the reflector, and
      for a task of a pass that a later task aborts, the log stays as it was and the run crashes. */
  lemma ExhaustionLoggedIff(c: Config, a: Action, who: Caller, e: I.AgentError)
    requires DataInv(c) && Enabled(c, a) && Exhausts(c, a, who, e)
    ensures Next(c, a).state.log == c.state.log + StepLines(c, a)
    ensures ExhaustionLine(who, e) in StepLines(c, a) <==> who.PlannerCall? || (who.TaskCall? && a.Execute?)
    ensures ExhaustionLine(who, e) !in StepLines(c, a) <==> Next(c, a).node == Crashed
    ensures Next(c, a).node == Crashed ==> Next(c, a).state.log == c.state.log
  {
    StepAppends(c, a);
    if who.TaskCall? && a.Execute? {
      FailedTaskHasLine(Flatten(a.xLevels), a.oracle, who.id);
    }
  }

  /** The tasks that the last step of acts marked failed without a line: those of an aborted pass. */
  ghost function Unlogged(acts: seq<Action>): set<Id> {
    if acts != [] && acts[|acts| - 1].Abort?
    then FailedIn(Completed(acts[|acts| - 1]), acts[|acts| - 1].oracle)
    else {}
  }

  ghost predicate LogInv(c: Config, unlogged: nat) {
    |c.state.log| + unlogged == c.history.plannerFailures + c.history.failedMarks
                                + if c.state.disclaimer == LoopDetected then 1 else 0
  }

  lemma {:induction false} LogStep(c: Config, a: Action)
    requires ControlInv(c) && DataInv(c) && LogInv(c, 0) && Enabled(c, a)
    ensures LogInv(Next(c, a), |Unlogged([a])|)
  {
    if a.Execute? {
      PassSettlesPlan(a.xLevels, a.oracle, ExecState(c.state.plan, c.state.output, c.state.log));
    }
  }

  /** A run goes on only after steps that did not abort. */
  lemma GoesOn(c: Config, acts: seq<Action>)
    requires IsRun(c, acts) && After(c, acts).node != Crashed
    ensures Unlogged(acts) == {}
  {
  }

  /** At every point of every run the log has one line for each planner failure, one for each task
      marked failed in a pass that returned, and one more if the run stopped on a repeated plan. The
      failed tasks of a pass that raised are marked and have none: so the log counts all the marks
      exactly when no failed task came before the one that aborted the run. */
  lemma {:induction false} LogConservation(maxIterations: int, acts: seq<Action>)
    requires IsRun(Initial(maxIterations), acts) && Bound(InitialState(maxIterations)) > 0
    ensures LogInv(After(Initial(maxIterations), acts), |Unlogged(acts)|)
    ensures LogInv(After(Initial(maxIterations), acts), 0) <==> Unlogged(acts) == {}
  {
    if acts == [] {
    } else {
      var n := |acts| - 1;
      LogConservation(maxIterations, acts[..n]);
      GoesOn(Initial(maxIterations), acts[..n]);
      ControlHolds(maxIterations, acts[..n]);
      DataHolds(maxIterations, acts[..n]);
      LogStep(After(Initial(maxIterations), acts[..n]), acts[n]);
    }
  }
}
