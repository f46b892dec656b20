/** The grammar is exact: every frame sequence it accepts is sent by some run with a working loop
    detector. A stop right after the first planner pass needs a plan that the session's set already
    holds, as another run of the same session may have left it; every other sequence is sent by a run
    that starts with an empty set. */
module FrameCompleteness {
  import opened Options
  import opened Sequences
  import opened TaskPlan
  import opened LoopDetector
  import opened RepeatedPlans
  import opened RunLoop
  import opened Frames
  import opened WitnessRuns
  import Scheduling
  import X = Executor
  import F = Reflector
  import P = Planner

  /** The frames sent since the current agent's step began. A planner's step is left open until the
      next frame tells whether its plan was a repeated one. */
  function Pending(p: Phase): seq<Frame> {
    match p
    case Between(Planner, i, _) =>
      [AgentStart(Planner, i)] + (if i > 1 then [Replan(i)] else []) + [AgentComplete(Planner)]
    case Within(a, i) => [AgentStart(a, i)]
    case Announced(a, i, score) => [AgentStart(a, i), if a.Reflector? then QualityScore(score, i) else Replan(i)]
    case _ => []
  }

  function NodeOf(a: Agent): Node {
    match a
    case Planner => AtPlanner
    case Researcher => AtResearcher
    case Executor => AtExecutor
    case Verifier => AtVerifier
    case Reflector => AtReflector
  }

  /** c stands before the step whose frames are pending. */
  ghost predicate Located(p: Phase, c: Config) {
    match p
    case Ready => c.node == AtPlanner && c.state.iteration == 0
    case Between(Planner, i, _) => c.node == AtPlanner && c.state.iteration == i - 1
    case Between(Reflector, i, score) =>
      && c.state.iteration == i && c.state.quality == score
      && c.node == if GateOpen(Bound(c.state), i, score) then AtOutput else AtPlanner
    case Between(a, i, _) => c.node == NodeOf(Follows(a)) && c.state.iteration == i
    case Within(a, i) => c.node == NodeOf(a) && c.state.iteration == if a.Planner? then i - 1 else i
    case Announced(a, i, score) =>
      && (a.Planner? ==> i > 1) && (a.Planner? || a.Reflector?) && (a.Reflector? ==> 0.0 <= score <= 1.0)
      && c.node == NodeOf(a) && c.state.iteration == if a.Planner? then i - 1 else i
    case Closed => false
    case Rejected => false
  }

  /** A plan of one task the first time, no plan in later passes, and the same plan to stop. */
  const NEW_PLAN: Action := Plan(Reply(ONE_TASK, P.NotANonEmptyList), NewPlan)
  const NO_PLAN: Action := Plan(NoReply(OtherException("")), NewPlan)
  const REPEATED_PLAN: Action := Plan(Reply(ONE_TASK, P.NotANonEmptyList), SeenBefore)

  const KEY: PlanKey := [KeyOf(GATHER)]

  /** The run of acts has planned that one task, and the detector gave it the verdicts it took. */
  ghost predicate OnPlan(c: Config, acts: seq<Action>)
    requires IsRun(c, acts)
  {
    && Detected({}, c, acts)
    && Recorded({}, c, acts) == (if After(c, acts).state.iteration == 0 then {} else {KEY})
    && (After(c, acts).state.iteration != 0 ==> X.Tasks(After(c, acts).state.plan) == [GATHER])
  }

  /** acts is a run that has sent frames up to the pending ones. */
  ghost predicate Realises(maxIterations: int, acts: seq<Action>, frames: seq<Frame>, p: Phase) {
    && IsRun(Initial(maxIterations), acts)
    && OnPlan(Initial(maxIterations), acts)
    && Located(p, After(Initial(maxIterations), acts))
    && frames == FramesOf(RunEvents(Initial(maxIterations), acts)) + Pending(p)
  }

  lemma OneTaskHash()
    ensures Plans(NEW_PLAN.reply) && PlanOf(NEW_PLAN) == [GATHER] && PlanHash([GATHER]) == Some(KEY)
  {
    OneTaskIsAcceptable();
    assert [GATHER][1..] == [] && Map(KeyOf, [GATHER]) == KEY;
  }

  /** The steps that stay on the plan. */
  ghost predicate Keeps(c: Config, a: Action) {
    if c.state.iteration == 0 then a == NEW_PLAN else !(a.Plan? && Plans(a.reply))
  }

  lemma PlanTasksKept(c: Config, a: Action)
    requires DataInv(c) && Enabled(c, a) && !(a.Plan? && Plans(a.reply))
    ensures X.Tasks(Next(c, a).state.plan) == X.Tasks(c.state.plan)
  {
    if a.Execute? {
      X.PassSettlesPlan(a.xLevels, a.oracle, X.ExecState(c.state.plan, c.state.output, c.state.log));
    } else if a.Abort? {
      AbortedMarks(c.state, a.xLevels, a.oracle, a.done);
    }
  }

  lemma FirstPlanTaken(c: Config)
    requires c.node == AtPlanner && 0 <= c.state.iteration < Bound(c.state) && Enabled(c, NEW_PLAN)
    ensures Asks(c, NEW_PLAN) && X.Tasks(Next(c, NEW_PLAN).state.plan) == [GATHER]
    ensures Next(c, NEW_PLAN).state.iteration == c.state.iteration + 1
  {
    OneTaskIsAcceptable();
    TasksOfFresh([GATHER]);
  }

  lemma StaysOnPlan(maxIterations: int, acts: seq<Action>, a: Action)
    requires IsRun(Initial(maxIterations), acts) && Bound(InitialState(maxIterations)) > 0
    requires OnPlan(Initial(maxIterations), acts)
    requires Enabled(After(Initial(maxIterations), acts), a) && Keeps(After(Initial(maxIterations), acts), a)
    requires IsRun(Initial(maxIterations), acts + [a])
    ensures OnPlan(Initial(maxIterations), acts + [a])
  {
    var c := After(Initial(maxIterations), acts);
    assert (acts + [a])[..|acts|] == acts;
    ControlHolds(maxIterations, acts);
    DataHolds(maxIterations, acts);
    IterationKept(c, a);
    if c.state.iteration == 0 {
      FirstPlanTaken(c);
      OneTaskHash();
    } else {
      PlanTasksKept(c, a);
    }
  }

  /** What a reader knows of a configuration that a run has reached. */
  ghost predicate Reached(maxIterations: int, c: Config) {
    ControlInv(c) && Bound(c.state) == Bound(InitialState(maxIterations))
  }

  lemma RunReaches(maxIterations: int, acts: seq<Action>)
    requires IsRun(Initial(maxIterations), acts) && Bound(InitialState(maxIterations)) > 0
    ensures var c := After(Initial(maxIterations), acts);
            && Reached(maxIterations, c)
            && (c.node != Crashed ==> PlannerStarts(RunEvents(Initial(maxIterations), acts)) == c.state.iteration)
  {
    ControlHolds(maxIterations, acts);
    RunMatches(maxIterations, acts);
  }

  /** The frames of one step, in iteration i. */
  ghost function StepFrames(c: Config, a: Action): seq<Frame>
    requires Enabled(c, a) && c.state.iteration >= 0
  {
    if c.node.AtOutput? then []
    else
      var i := c.state.iteration + if c.node.AtPlanner? then 1 else 0;
      [AgentStart(AgentAt(c.node), i)]
      + if Raises(a) then [] else FramesFor(Complete(AgentAt(c.node), Next(c, a).state.quality), i)
  }

  lemma StartFrames(events: seq<Event>, agent: Agent)
    ensures var i := PlannerStarts(events) + if agent.Planner? then 1 else 0;
            && PlannerStarts(events + [Start(agent)]) == i
            && FramesOf(events + [Start(agent)]) == FramesOf(events) + [AgentStart(agent, i)]
  {
    FramesSnoc(events, Start(agent));
  }

  lemma CompleteFrames(events: seq<Event>, agent: Agent, quality: real)
    ensures FramesOf(events + [Complete(agent, quality)])
            == FramesOf(events) + FramesFor(Complete(agent, quality), PlannerStarts(events))
  {
    FramesSnoc(events, Complete(agent, quality));
  }

  /** The frames of one visit to an agent. */
  lemma VisitFrames(events: seq<Event>, agent: Agent, quality: real)
    ensures var i := PlannerStarts(events) + if agent.Planner? then 1 else 0;
            FramesOf(events + [Start(agent), Complete(agent, quality)])
            == FramesOf(events) + ([AgentStart(agent, i)] + FramesFor(Complete(agent, quality), i))
  {
    StartFrames(events, agent);
    CompleteFrames(events + [Start(agent)], agent, quality);
    assert events + [Start(agent), Complete(agent, quality)] == events + [Start(agent)] + [Complete(agent, quality)];
  }

  lemma StepFramesSent(events: seq<Event>, c: Config, a: Action)
    requires Enabled(c, a) && PlannerStarts(events) == c.state.iteration
    ensures FramesOf(events + StepEvents(c, a)) == FramesOf(events) + StepFrames(c, a)
  {
    if c.node.AtOutput? {
      FramesSnoc(events, OutputComplete);
    } else if Raises(a) {
      RaisingSent(events, c, a, AgentAt(c.node));
    } else {
      ReturningSent(events, c, a, AgentAt(c.node), Next(c, a).state.quality);
    }
  }

  lemma RaisingSent(events: seq<Event>, c: Config, a: Action, agent: Agent)
    requires Enabled(c, a) && PlannerStarts(events) == c.state.iteration
    requires !c.node.AtOutput? && Raises(a) && agent == AgentAt(c.node)
    ensures FramesOf(events + StepEvents(c, a)) == FramesOf(events) + StepFrames(c, a)
  {
    StartFrames(events, agent);
    assert StepEvents(c, a) == [Start(agent)];
  }

  lemma ReturningSent(events: seq<Event>, c: Config, a: Action, agent: Agent, quality: real)
    requires Enabled(c, a) && PlannerStarts(events) == c.state.iteration
    requires !c.node.AtOutput? && !Raises(a) && agent == AgentAt(c.node) && quality == Next(c, a).state.quality
    ensures FramesOf(events + StepEvents(c, a)) == FramesOf(events) + StepFrames(c, a)
  {
    VisitFrames(events, agent, quality);
    assert StepEvents(c, a) == [Start(agent), Complete(agent, quality)];
  }

  /** One more step sends its frames. */
  lemma TakeStep(maxIterations: int, acts: seq<Action>, a: Action)
    requires IsRun(Initial(maxIterations), acts) && Bound(InitialState(maxIterations)) > 0
    requires Enabled(After(Initial(maxIterations), acts), a)
    ensures IsRun(Initial(maxIterations), acts + [a])
    ensures After(Initial(maxIterations), acts + [a]) == Next(After(Initial(maxIterations), acts), a)
    ensures After(Initial(maxIterations), acts).state.iteration >= 0
    ensures FramesOf(RunEvents(Initial(maxIterations), acts + [a]))
            == FramesOf(RunEvents(Initial(maxIterations), acts)) + StepFrames(After(Initial(maxIterations), acts), a)
  {
    RunReaches(maxIterations, acts);
    ExtendRun(Initial(maxIterations), acts, a);
    assert (acts + [a])[..|acts|] == acts;
    StepFramesSent(RunEvents(Initial(maxIterations), acts), After(Initial(maxIterations), acts), a);
  }

  /** A reflection whose validated score is the given one. */
  function Reflecting(score: real): Action {
    Reflect(F.Reflection(Some(score), map[], None))
  }

  /** a stays on the plan and sends the pending frames of p together with f. */
  ghost predicate Fits(p: Phase, c: Config, f: Frame, a: Action) {
    && Enabled(c, a) && c.state.iteration >= 0 && Keeps(c, a)
    && Located(Advance(Bound(c.state), p, f), Next(c, a))
    && StepFrames(c, a) + Pending(Advance(Bound(c.state), p, f)) == Pending(p) + [f]
  }

  function PlanStep(c: Config): Action {
    if c.state.iteration == 0 then NEW_PLAN else NO_PLAN
  }

  lemma PlanStepWorks(c: Config)
    requires c.node == AtPlanner && ControlInv(c)
    ensures Enabled(c, PlanStep(c)) && Keeps(c, PlanStep(c)) && Next(c, PlanStep(c)).node == AtResearcher
    ensures Next(c, PlanStep(c)).state.iteration == c.state.iteration + 1
  {
    OneTaskIsAcceptable();
  }

  lemma PlanFits(p: Phase, c: Config, f: Frame)
    requires Located(p, c) && ControlInv(c) && Advance(Bound(c.state), p, f).Within?
    requires p.Between? && p.last.Planner?
    ensures Fits(p, c, f, PlanStep(c))
  {
    PlanStepWorks(c);
  }

  lemma ReflectFits(p: Phase, c: Config, f: Frame)
    requires Located(p, c) && ControlInv(c) && Advance(Bound(c.state), p, f).Between?
    requires p.Announced? && p.agent.Reflector?
    ensures Fits(p, c, f, Reflecting(p.score))
  {
    assert F.FinalQuality(Reflecting(p.score).raw) == p.score;
  }

  lemma ResearchGoesOn(c: Config, a: Action)
    requires c.node.AtResearcher? && Enabled(c, a) && a.Research?
    ensures Next(c, a).node == AtExecutor && Next(c, a).state.iteration == c.state.iteration
  {
  }

  lemma ExecuteGoesOn(c: Config, a: Action)
    requires c.node.AtExecutor? && Enabled(c, a) && a.Execute?
    ensures Next(c, a).node == AtVerifier && Next(c, a).state.iteration == c.state.iteration
  {
  }

  lemma VerifyGoesOn(c: Config, a: Action)
    requires c.node.AtVerifier? && Enabled(c, a) && a.Verify?
    ensures Next(c, a).node == AtReflector && Next(c, a).state.iteration == c.state.iteration
  {
  }

  /** Where a researcher, executor or verifier step goes on. */
  function AfterWork(n: Node): Node {
    match n
    case AtResearcher => AtExecutor
    case AtExecutor => AtVerifier
    case _ => AtReflector
  }

  lemma WorkGoesOn(c: Config, a: Action)
    requires c.node.AtResearcher? || c.node.AtExecutor? || c.node.AtVerifier?
    requires Enabled(c, a) && !Raises(a)
    ensures Next(c, a).node == AfterWork(c.node) && Next(c, a).state.iteration == c.state.iteration
  {
    if c.node.AtResearcher? {
      ResearchGoesOn(c, a);
    } else if c.node.AtExecutor? {
      ExecuteGoesOn(c, a);
    } else {
      VerifyGoesOn(c, a);
    }
  }

  lemma NodesInOrder(agent: Agent)
    requires !agent.Planner? && !agent.Reflector?
    ensures AfterWork(NodeOf(agent)) == NodeOf(Follows(agent))
  {
  }

  /** A researcher, executor or verifier step goes on to the next agent in the same iteration. */
  lemma WorkStep(c: Config, a: Action, agent: Agent)
    requires c.node == NodeOf(agent) && !agent.Planner? && !agent.Reflector?
    requires Enabled(c, a) && !Raises(a)
    ensures Next(c, a).node == NodeOf(Follows(agent))
    ensures Next(c, a).state.iteration == c.state.iteration
  {
    WorkGoesOn(c, a);
    NodesInOrder(agent);
  }

  lemma WorkLocated(p: Phase, c: Config, f: Frame, a: Action)
    requires Located(p, c) && ControlInv(c) && Advance(Bound(c.state), p, f).Between?
    requires p.Within? && !p.agent.Planner? && !p.agent.Reflector?
    requires Enabled(c, a) && !Raises(a)
    ensures Located(Advance(Bound(c.state), p, f), Next(c, a))
  {
    WorkStep(c, a, p.agent);
    WorkAdvance(Bound(c.state), p, f);
    WorkArrives(Advance(Bound(c.state), p, f), Next(c, a));
  }

  lemma WorkAdvance(bound: int, p: Phase, f: Frame)
    requires Advance(bound, p, f).Between?
    requires p.Within? && !p.agent.Planner? && !p.agent.Reflector?
    ensures f == AgentComplete(p.agent)
    ensures Advance(bound, p, f).last == p.agent && Advance(bound, p, f).iteration == p.iteration
  {
  }

  lemma WorkArrives(p: Phase, c: Config)
    requires p.Between? && !p.last.Planner? && !p.last.Reflector?
    requires c.node == NodeOf(Follows(p.last)) && c.state.iteration == p.iteration
    ensures Located(p, c)
  {
  }

  lemma WorkFrames(p: Phase, c: Config, f: Frame, a: Action)
    requires Located(p, c) && ControlInv(c) && Advance(Bound(c.state), p, f).Between?
    requires p.Within? && !p.agent.Planner? && !p.agent.Reflector?
    requires Enabled(c, a) && !Raises(a)
    ensures StepFrames(c, a) == Pending(p) + [f] && Pending(Advance(Bound(c.state), p, f)) == []
  {
    WorkAdvance(Bound(c.state), p, f);
  }

  lemma WorkFits(p: Phase, c: Config, f: Frame, a: Action)
    requires Located(p, c) && ControlInv(c) && Advance(Bound(c.state), p, f).Between?
    requires p.Within? && !p.agent.Planner? && !p.agent.Reflector?
    requires Enabled(c, a) && !Raises(a)
    ensures Fits(p, c, f, a)
  {
    WorkLocated(p, c, f, a);
    WorkFrames(p, c, f, a);
  }

  /** The step that turns the pending frames, and the frame that closes them, into sent ones. */
  lemma ChooseStep(p: Phase, c: Config, f: Frame) returns (a: Action)
    requires Located(p, c) && ControlInv(c) && NeedsStep(p, f) && Advance(Bound(c.state), p, f) != Rejected
    ensures Fits(p, c, f, a)
  {
    if p.Between? {
      PlanFits(p, c, f);
      a := PlanStep(c);
    } else if p.Announced? {
      ReflectFits(p, c, f);
      a := Reflecting(p.score);
    } else {
      a := NeverStuck(c);
      WorkFits(p, c, f, a);
    }
  }

  /** f ends the pending step of p: a researcher, executor or verifier completes, the reflector
      completes, or the researcher starts after the planner. */
  predicate NeedsStep(p: Phase, f: Frame) {
    || (p.Between? && p.last.Planner? && f.AgentStart?)
    || (p.Announced? && p.agent.Reflector?)
    || (p.Within? && !p.agent.Planner? && !p.agent.Reflector? && f.AgentComplete?)
  }

  /** Any other accepted frame is added to the pending ones. */
  lemma NoStep(p: Phase, c: Config, f: Frame)
    requires Located(p, c) && ControlInv(c) && !NeedsStep(p, f)
    requires Advance(Bound(c.state), p, f) != Rejected && Advance(Bound(c.state), p, f) != Closed
    ensures Located(Advance(Bound(c.state), p, f), c)
    ensures Pending(Advance(Bound(c.state), p, f)) == Pending(p) + [f]
  {
  }

  /** A realised prefix stays realised when an accepted frame is added. */
  lemma ExtendRealised(maxIterations: int, bound: int, acts: seq<Action>, frames: seq<Frame>, p: Phase, f: Frame)
    returns (longer: seq<Action>)
    requires bound == Bound(InitialState(maxIterations)) > 0 && Realises(maxIterations, acts, frames, p)
    requires Advance(bound, p, f) != Rejected && Advance(bound, p, f) != Closed
    ensures Realises(maxIterations, longer, frames + [f], Advance(bound, p, f))
  {
    RunReaches(maxIterations, acts);
    var c := After(Initial(maxIterations), acts);
    if NeedsStep(p, f) {
      var a := ChooseStep(p, c, f);
      longer := StepRealised(maxIterations, acts, frames, p, f, a);
    } else {
      NoStepRealised(maxIterations, acts, frames, p, f);
      longer := acts;
    }
  }

  lemma NoStepRealised(maxIterations: int, acts: seq<Action>, frames: seq<Frame>, p: Phase, f: Frame)
    requires Bound(InitialState(maxIterations)) > 0 && Realises(maxIterations, acts, frames, p) && !NeedsStep(p, f)
    requires Advance(Bound(InitialState(maxIterations)), p, f) != Rejected
    requires Advance(Bound(InitialState(maxIterations)), p, f) != Closed
    ensures Realises(maxIterations, acts, frames + [f], Advance(Bound(InitialState(maxIterations)), p, f))
  {
    RunReaches(maxIterations, acts);
    NoStep(p, After(Initial(maxIterations), acts), f);
    var sent := FramesOf(RunEvents(Initial(maxIterations), acts));
    assert sent + Pending(p) + [f] == sent + (Pending(p) + [f]);
  }

  lemma StepRealised(maxIterations: int, acts: seq<Action>, frames: seq<Frame>, p: Phase, f: Frame, a: Action)
    returns (longer: seq<Action>)
    requires Bound(InitialState(maxIterations)) > 0 && Realises(maxIterations, acts, frames, p)
    requires Fits(p, After(Initial(maxIterations), acts), f, a)
    ensures Realises(maxIterations, longer, frames + [f], Advance(Bound(InitialState(maxIterations)), p, f))
  {
    RunReaches(maxIterations, acts);
    TakeStep(maxIterations, acts, a);
    StaysOnPlan(maxIterations, acts, a);
    longer := acts + [a];
    var sent := FramesOf(RunEvents(Initial(maxIterations), acts));
    Regroup(sent, Pending(p), [f], StepFrames(After(Initial(maxIterations), acts), a),
            Pending(Advance(Bound(InitialState(maxIterations)), p, f)));
  }

  lemma Regroup(sent: seq<Frame>, pending: seq<Frame>, last: seq<Frame>, step: seq<Frame>, rest: seq<Frame>)
    requires step + rest == pending + last
    ensures sent + pending + last == sent + step + rest
  {
    assert sent + pending + last == sent + (pending + last);
  }

  lemma ExtendWhole(maxIterations: int, bound: int, acts: seq<Action>, frames: seq<Frame>, p: Phase)
    returns (longer: seq<Action>)
    requires bound == Bound(InitialState(maxIterations)) > 0 && frames != []
    requires Realises(maxIterations, acts, frames[..|frames| - 1], p)
    requires Advance(bound, p, frames[|frames| - 1]) != Rejected && Advance(bound, p, frames[|frames| - 1]) != Closed
    ensures Realises(maxIterations, longer, frames, Advance(bound, p, frames[|frames| - 1]))
  {
    SplitLast(frames);
    longer := ExtendRealised(maxIterations, bound, acts, frames[..|frames| - 1], p, frames[|frames| - 1]);
  }

  lemma SplitLast(frames: seq<Frame>)
    requires frames != []
    ensures frames[..|frames| - 1] + [frames[|frames| - 1]] == frames
  {
  }

  lemma NothingSent(maxIterations: int)
    ensures Realises(maxIterations, [], [], Ready)
  {
  }

  /** Every accepted prefix that is not closed is sent by some run. */
  lemma {:induction false} PrefixRealised(maxIterations: int, bound: int, frames: seq<Frame>) returns (acts: seq<Action>)
    requires bound == Bound(InitialState(maxIterations)) > 0
    requires Parse(bound, frames) != Rejected && Parse(bound, frames) != Closed
    ensures Realises(maxIterations, acts, frames, Parse(bound, frames))
  {
    if frames == [] {
      NothingSent(maxIterations);
      acts := [];
    } else {
      var n := |frames| - 1;
      var rest := PrefixRealised(maxIterations, bound, frames[..n]);
      acts := ExtendWhole(maxIterations, bound, rest, frames, Parse(bound, frames[..n]));
    }
  }

  const IMMEDIATE_STOP := [AgentStart(Planner, 1), AgentComplete(Planner), DoneFrame]

  /** What the detector's set must hold at the start. */
  function Needed(frames: seq<Frame>): set<PlanKey> {
    if frames == IMMEDIATE_STOP then {KEY} else {}
  }

  /** The run of acts, with a working detector, ends as ending says and sends frames. */
  ghost predicate Sends(maxIterations: int, before: set<PlanKey>, acts: seq<Action>, ending: Ending, frames: seq<Frame>) {
    && IsRun(Initial(maxIterations), acts) && Detected(before, Initial(maxIterations), acts)
    && After(Initial(maxIterations), acts).node == (if ending.Raised? then Crashed else AtEnd)
    && Sent(RunEvents(Initial(maxIterations), acts), ending) == frames
  }

  /** The run of acts, with a working detector, stands before the output node and has sent frames. */
  ghost predicate Stops(maxIterations: int, before: set<PlanKey>, acts: seq<Action>, frames: seq<Frame>) {
    && IsRun(Initial(maxIterations), acts) && Detected(before, Initial(maxIterations), acts)
    && After(Initial(maxIterations), acts).node == AtOutput
    && FramesOf(RunEvents(Initial(maxIterations), acts)) == frames
  }

  /** A step that raises: the executor in its first task, or any exception of another agent. */
  lemma RaiseFrames(p: Phase, c: Config) returns (a: Action)
    requires Located(p, c) && p.Within? && !p.agent.Planner? && p.iteration > 0
    requires DataInv(c) && X.Tasks(c.state.plan) == [GATHER]
    ensures Enabled(c, a) && Raises(a) && Next(c, a).node == Crashed && StepFrames(c, a) == Pending(p)
  {
    if p.agent.Executor? {
      var levels := Scheduling.ScheduleExists([GATHER]);
      Scheduling.ValidPlanLosesNothing([GATHER], levels);
      assert |multiset(Flatten(levels))| == |multiset([GATHER])|;
      a := Abort(levels, _ => X.NoCode, 0, "");
    } else {
      a := Crash(OtherException(""));
    }
  }

  lemma CrashEnds(maxIterations: int, acts: seq<Action>, frames: seq<Frame>, p: Phase) returns (longer: seq<Action>)
    requires Bound(InitialState(maxIterations)) > 0 && Realises(maxIterations, acts, frames, p)
    requires p.Within? && !p.agent.Planner? && p.iteration > 0
    ensures Sends(maxIterations, {}, longer, Raised, frames + [ErrorFrame])
  {
    DataHolds(maxIterations, acts);
    var a := RaiseFrames(p, After(Initial(maxIterations), acts));
    TakeStep(maxIterations, acts, a);
    SilentStep(Initial(maxIterations), {}, acts, a);
    longer := acts + [a];
  }

  /** A repeated plan sends the planner's frames and stops the loop. */
  lemma RepeatFrames(p: Phase, c: Config)
    requires Located(p, c) && ControlInv(c) && p.Between? && p.last.Planner? && p.iteration > 0
    ensures Enabled(c, REPEATED_PLAN) && Next(c, REPEATED_PLAN).node == AtOutput
    ensures StepFrames(c, REPEATED_PLAN) == Pending(p)
  {
    OneTaskIsAcceptable();
  }

  lemma RepeatDetected(maxIterations: int, before: set<PlanKey>, acts: seq<Action>)
    requires IsRun(Initial(maxIterations), acts) && Detected(before, Initial(maxIterations), acts)
    requires KEY in Recorded(before, Initial(maxIterations), acts)
    requires IsRun(Initial(maxIterations), acts + [REPEATED_PLAN])
    ensures Detected(before, Initial(maxIterations), acts + [REPEATED_PLAN])
  {
    assert (acts + [REPEATED_PLAN])[..|acts|] == acts;
    OneTaskHash();
  }

  lemma RepeatStops(maxIterations: int, acts: seq<Action>, frames: seq<Frame>, p: Phase) returns (longer: seq<Action>)
    requires Bound(InitialState(maxIterations)) > 0 && Realises(maxIterations, acts, frames, p)
    requires p.Between? && p.last.Planner? && p.iteration > 0
    ensures Stops(maxIterations, Needed(frames + [DoneFrame]), longer, frames)
  {
    RunReaches(maxIterations, acts);
    RepeatFrames(p, After(Initial(maxIterations), acts));
    TakeStep(maxIterations, acts, REPEATED_PLAN);
    longer := acts + [REPEATED_PLAN];
    FirstStopIsImmediate(maxIterations, acts, frames, p);
    RepeatDetected(maxIterations, Needed(frames + [DoneFrame]), acts);
  }

  /** The planner's pass is the first exactly when nothing but its frames has been sent. */
  lemma FirstStopIsImmediate(maxIterations: int, acts: seq<Action>, frames: seq<Frame>, p: Phase)
    requires Bound(InitialState(maxIterations)) > 0 && Realises(maxIterations, acts, frames, p)
    requires p.Between? && p.last.Planner? && p.iteration > 0
    ensures Detected(Needed(frames + [DoneFrame]), Initial(maxIterations), acts)
    ensures KEY in Recorded(Needed(frames + [DoneFrame]), Initial(maxIterations), acts)
  {
    IterationStarted(maxIterations, acts);
    if p.iteration == 1 {
      assert acts == [];
      assert frames == Pending(p);
    } else {
      assert (frames + [DoneFrame])[|frames| - 1] == AgentComplete(Planner);
      assert (frames + [DoneFrame])[|frames| - 2] == Replan(p.iteration);
    }
  }

  lemma FinishEnds(maxIterations: int, before: set<PlanKey>, acts: seq<Action>, frames: seq<Frame>)
    returns (longer: seq<Action>)
    requires Bound(InitialState(maxIterations)) > 0 && Stops(maxIterations, before, acts, frames)
    ensures Sends(maxIterations, before, longer, Exhausted, frames + [DoneFrame])
  {
    FinishStep(After(Initial(maxIterations), acts));
    TakeStep(maxIterations, acts, Finish);
    SilentStep(Initial(maxIterations), before, acts, Finish);
    longer := acts + [Finish];
  }

  lemma FinishStep(c: Config)
    requires c.node == AtOutput
    ensures Enabled(c, Finish) && Next(c, Finish).node == AtEnd
    ensures c.state.iteration >= 0 ==> StepFrames(c, Finish) == []
  {
  }

  /** A step that asks the detector nothing leaves its verdicts as they were. */
  lemma SilentStep(c: Config, before: set<PlanKey>, acts: seq<Action>, a: Action)
    requires IsRun(c, acts) && Detected(before, c, acts) && IsRun(c, acts + [a]) && !a.Plan?
    ensures Detected(before, c, acts + [a])
  {
    assert (acts + [a])[..|acts|] == acts;
  }

  lemma GateStops(maxIterations: int, bound: int, acts: seq<Action>, frames: seq<Frame>, p: Phase)
    requires bound == Bound(InitialState(maxIterations)) > 0 && Realises(maxIterations, acts, frames, p)
    requires Advance(bound, p, DoneFrame) == Closed && !p.last.Planner?
    ensures Stops(maxIterations, {}, acts, frames)
  {
    RunReaches(maxIterations, acts);
    AtTheGate(p, After(Initial(maxIterations), acts));
    assert FramesOf(RunEvents(Initial(maxIterations), acts)) + [] == FramesOf(RunEvents(Initial(maxIterations), acts));
  }

  lemma AtTheGate(p: Phase, c: Config)
    requires Located(p, c) && Advance(Bound(c.state), p, DoneFrame) == Closed && !p.last.Planner?
    ensures c.node == AtOutput && Pending(p) == []
  {
  }

  lemma {:induction false} PhasePositive(bound: int, frames: seq<Frame>)
    ensures Parse(bound, frames).Between? ==> Parse(bound, frames).iteration > 0
    ensures Parse(bound, frames).Within? ==> Parse(bound, frames).iteration > 0
    ensures Parse(bound, frames).Announced? ==> Parse(bound, frames).iteration > 0
  {
    if frames == [] {
    } else {
      PhasePositive(bound, frames[..|frames| - 1]);
    }
  }

  lemma ClosingFrame(bound: int, p: Phase, f: Frame)
    requires Advance(bound, p, f) == Closed
    ensures f == ErrorFrame || f == DoneFrame
    ensures f.ErrorFrame? ==> p.Within? && !p.agent.Planner?
    ensures f.DoneFrame? ==> p.Between?
  {
  }

  /** Completeness: every sequence the grammar accepts is what some run with a working detector sends,
      and unless the sequence is the immediate stop the detector's set was empty when it began. */
  lemma {:induction false} AcceptedFramesAreSent(maxIterations: int, bound: int, frames: seq<Frame>)
    returns (acts: seq<Action>, ending: Ending)
    requires bound == Bound(InitialState(maxIterations)) > 0 && Parse(bound, frames) == Closed
    ensures IsRun(Initial(maxIterations), acts) && Detected(Needed(frames), Initial(maxIterations), acts)
    ensures After(Initial(maxIterations), acts).node == if ending.Raised? then Crashed else AtEnd
    ensures Sent(RunEvents(Initial(maxIterations), acts), ending) == frames
  {
    var before, f := frames[..|frames| - 1], frames[|frames| - 1];
    var p := Parse(bound, before);
    assert frames == before + [f];
    PhasePositive(bound, before);
    ClosingFrame(bound, p, f);
    acts := PrefixRealised(maxIterations, bound, before);
    acts, ending := Close(maxIterations, bound, acts, before, p, f);
  }

  lemma Close(maxIterations: int, bound: int, open: seq<Action>, before: seq<Frame>, p: Phase, f: Frame)
    returns (acts: seq<Action>, ending: Ending)
    requires bound == Bound(InitialState(maxIterations)) > 0 && Realises(maxIterations, open, before, p)
    requires Advance(bound, p, f) == Closed && (p.Between? || p.Within? ==> p.iteration > 0)
    requires p.Between? && !p.last.Planner? ==> before + [f] != IMMEDIATE_STOP
    ensures Sends(maxIterations, Needed(before + [f]), acts, ending, before + [f])
  {
    ClosingFrame(bound, p, f);
    if f.ErrorFrame? {
      ending := Raised;
      assert (before + [f])[|before|] == ErrorFrame;
      acts := CrashEnds(maxIterations, open, before, p);
    } else {
      ending := Exhausted;
      acts := CloseStopped(maxIterations, bound, open, before, p);
    }
  }

  lemma CloseStopped(maxIterations: int, bound: int, open: seq<Action>, before: seq<Frame>, p: Phase)
    returns (acts: seq<Action>)
    requires bound == Bound(InitialState(maxIterations)) > 0 && Realises(maxIterations, open, before, p)
    requires Advance(bound, p, DoneFrame) == Closed && p.Between? && p.iteration > 0
    requires !p.last.Planner? ==> before + [DoneFrame] != IMMEDIATE_STOP
    ensures Sends(maxIterations, Needed(before + [DoneFrame]), acts, Exhausted, before + [DoneFrame])
  {
    if p.last.Planner? {
      acts := RepeatStops(maxIterations, open, before, p);
    } else {
      GateStops(maxIterations, bound, open, before, p);
      acts := open;
    }
    acts := FinishEnds(maxIterations, Needed(before + [DoneFrame]), acts, before);
  }

  // ----- The frames of runs that start with an empty set -----

  /** Some run with a working detector and a set that is empty at the start sends frames. */
  ghost predicate FreshlySent(maxIterations: int, frames: seq<Frame>) {
    exists acts, ending :: Sends(maxIterations, {}, acts, ending, frames)
  }

  /** What such runs send is exactly what the grammar accepts, but for the immediate stop. */
  lemma {:induction false} FreshRunsSendExactly(maxIterations: int, bound: int, frames: seq<Frame>)
    requires bound == Bound(InitialState(maxIterations)) > 0
    ensures FreshlySent(maxIterations, frames) <==> Parse(bound, frames) == Closed && frames != IMMEDIATE_STOP
  {
    if acts, ending :| Sends(maxIterations, {}, acts, ending, frames) {
      RunEventsRelevant(maxIterations, acts);
      FramesFollowGrammar(maxIterations, acts, RunEvents(Initial(maxIterations), acts), ending);
      FirstStopNotFresh(maxIterations, acts, ending, frames);
    }
    if Parse(bound, frames) == Closed && frames != IMMEDIATE_STOP {
      var acts, ending := AcceptedFramesAreSent(maxIterations, bound, frames);
      assert Sends(maxIterations, {}, acts, ending, frames);
    }
  }

  lemma {:induction false} RunEventsRelevant(maxIterations: int, acts: seq<Action>)
    requires IsRun(Initial(maxIterations), acts)
    ensures Relevant(RunEvents(Initial(maxIterations), acts)) == RunEvents(Initial(maxIterations), acts)
  {
    if acts == [] {
    } else {
      var n := |acts| - 1;
      RunEventsRelevant(maxIterations, acts[..n]);
      StepEventsRelevant(RunEvents(Initial(maxIterations), acts[..n]), After(Initial(maxIterations), acts[..n]), acts[n]);
    }
  }

  lemma RelevantSnoc(events: seq<Event>, e: Event)
    requires !e.Foreign?
    ensures Relevant(events + [e]) == Relevant(events) + [e]
  {
    assert (events + [e])[..|events|] == events;
  }

  lemma StepEventsRelevant(events: seq<Event>, c: Config, a: Action)
    requires Enabled(c, a) && Relevant(events) == events
    ensures Relevant(events + StepEvents(c, a)) == events + StepEvents(c, a)
  {
    var step := StepEvents(c, a);
    RelevantSnoc(events, step[0]);
    if |step| == 1 {
      assert step == [step[0]];
    } else {
      RelevantSnoc(events + [step[0]], step[1]);
      assert events + step == events + [step[0]] + [step[1]];
    }
  }

  lemma LastApart(a: seq<Frame>, x: Frame, b: seq<Frame>, y: Frame)
    requires a + [x] == b + [y]
    ensures a == b && x == y
  {
    assert (a + [x])[..|a|] == a && (b + [y])[..|b|] == b;
    assert (a + [x])[|a|] == x && (b + [y])[|b|] == y;
  }

  lemma FirstPassParses(bound: int)
    ensures Parse(bound, [AgentStart(Planner, 1), AgentComplete(Planner)]) == Between(Planner, 1, 0.0)
  {
    ParseSnoc(bound, [], AgentStart(Planner, 1));
    ParseSnoc(bound, [AgentStart(Planner, 1)], AgentComplete(Planner));
    assert [] + [AgentStart(Planner, 1)] == [AgentStart(Planner, 1)];
    assert [AgentStart(Planner, 1)] + [AgentComplete(Planner)] == [AgentStart(Planner, 1), AgentComplete(Planner)];
  }

  lemma EndedByLoop(c: Config, starts: nat)
    requires Matches(Between(Planner, 1, 0.0), c, starts) && c.node.AtEnd?
    ensures c.state.disclaimer == LoopDetected && c.state.iteration == 1
  {
  }

  lemma FirstStopNotFresh(maxIterations: int, acts: seq<Action>, ending: Ending, frames: seq<Frame>)
    requires Bound(InitialState(maxIterations)) > 0
    requires Sends(maxIterations, {}, acts, ending, frames)
    ensures frames != IMMEDIATE_STOP
  {
    if frames == IMMEDIATE_STOP {
      var events := RunEvents(Initial(maxIterations), acts);
      var first := [AgentStart(Planner, 1), AgentComplete(Planner)];
      RunMatches(maxIterations, acts);
      assert IMMEDIATE_STOP == first + [DoneFrame];
      LastApart(FramesOf(events), if ending.Raised? then ErrorFrame else DoneFrame, first, DoneFrame);
      FirstPassParses(Bound(InitialState(maxIterations)));
      EndedByLoop(After(Initial(maxIterations), acts), PlannerStarts(events));
      FirstPlanIsNew(maxIterations, acts);
      assert false;
    }
  }
}
