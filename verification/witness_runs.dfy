/** Concrete runs from the shipped initial state that reach the situations the laws speak about. */
module WitnessRuns {
  import opened Graphs
  import opened Options
  import opened Sequences
  import opened TaskPlan
  import opened Executor
  import opened Context
  import opened LoopDetector
  import opened RunLoop
  import opened RepeatedPlans
  import I = Invoke
  import P = Planner
  import F = Reflector
  import R = Researcher
  import Scheduling

  const GATHER := Task("gather", "Collect the figures", [], [], Reasoning)
  const REPORT := Task("report", "Write them up", ["gather"], [], Reasoning)

  /** A reply with two tasks, the second of which depends on the first. */
  const EXAMPLE := P.RawList([
    P.RawObject(Some("gather"), Some("Collect the figures"), Some([]), Some([]), Some("reasoning")),
    P.RawObject(Some("report"), Some("Write them up"), Some(["gather"]), Some([]), Some("reasoning"))
  ])

  /** A reply with the first of them alone. */
  const ONE_TASK := P.RawList([
    P.RawObject(Some("gather"), Some("Collect the figures"), Some([]), Some([]), Some("reasoning"))
  ])

  lemma OneTaskIsAcceptable()
    ensures P.Acceptable(ONE_TASK) && P.ConvertAll(ONE_TASK.items) == [GATHER]
  {
    var tasks, g := [GATHER], PlanGraph([GATHER]);
    assert ONE_TASK.items[..1] == ONE_TASK.items;
    assert P.ConvertAll(ONE_TASK.items) == tasks && IdsOf(tasks) == ["gather"];
    DependenciesOfTask(tasks, 0);
    OrderRulesOutCycles(g, ["gather"]);
  }

  lemma ExampleTasks()
    ensures P.ItemsPass(EXAMPLE.items, 2)
    ensures P.ConvertAll(EXAMPLE.items) == [GATHER, REPORT]
  {
    assert "gather"[0] != "report"[0];
    var items := EXAMPLE.items;
    assert items[..2] == items;
    assert P.ConvertAll(items) == [GATHER, REPORT];
    assert IdsOf([GATHER, REPORT]) == ["gather", "report"];
  }

  lemma ExampleIsValid()
    ensures ValidPlan([GATHER, REPORT])
  {
    var tasks := [GATHER, REPORT];
    var g := PlanGraph(tasks);
    assert "gather"[0] != "report"[0];
    assert IdsOf(tasks) == ["gather", "report"];
    DependenciesOfTask(tasks, 0);
    DependenciesOfTask(tasks, 1);
    var order := ["gather", "report"];
    assert DependenciesFirst(g, order) by {
      assert g["gather"] == {} && g["report"] == {"gather"};
      assert order[..1] == ["gather"];
    }
    OrderRulesOutCycles(g, order);
  }

  lemma ExampleIsAcceptable()
    ensures P.Acceptable(EXAMPLE) && P.ConvertAll(EXAMPLE.items) == [GATHER, REPORT]
  {
    ExampleTasks();
    ExampleIsValid();
  }

  /** The detector cannot hash a plan of two tasks. */
  const PLANS: Action := Plan(Reply(EXAMPLE, P.NotANonEmptyList), DetectorError)

  const NOTHING_FOUND: Id -> R.Finding := (_: Id) => R.Found("")

  /** At a planner entry below the bound the example plan is accepted and nothing else changes. */
  lemma PlanExample(c: Config)
    requires c.node == AtPlanner && c.state.iteration < Bound(c.state) && c.state.disclaimer == NoDisclaimer
    ensures Enabled(c, PLANS) && Next(c, PLANS).node == AtResearcher
    ensures Next(c, PLANS).state == c.state.(iteration := c.state.iteration + 1, plan := Fresh([GATHER, REPORT]))
  {
    ExampleIsAcceptable();
  }

  lemma ResearchExample(c: Config, levels: seq<seq<Task>>)
    requires c.node == AtResearcher && c.state.plan == Fresh([GATHER, REPORT]) && c.state.research == map[]
    requires R.IsSchedule([GATHER, REPORT], levels)
    ensures var a := Research(levels, NOTHING_FOUND);
            Enabled(c, a) && Next(c, a).node == AtExecutor
            && Next(c, a).state == c.state.(research := map["gather" := "", "report" := ""])
  {
    TasksOfFresh([GATHER, REPORT]);
    ExampleIsValid();
    ScheduleCoversPlan(c.state.plan, levels);
    BothResearched(R.Order(levels));
  }

  lemma BothResearched(order: seq<Id>)
    requires forall x :: x in order <==> x in IdsOf([GATHER, REPORT])
    ensures R.Researched(order, NOTHING_FOUND, map[]) == map["gather" := "", "report" := ""]
  {
    assert IdsOf([GATHER, REPORT]) == ["gather", "report"];
  }

  /** A working detector has no answer to a plan of two tasks, and nothing to say in other steps. */
  lemma StaysDetected(c: Config, acts: seq<Action>, a: Action)
    requires IsRun(c, acts) && Detected({}, c, acts) && Enabled(After(c, acts), a) && IsRun(c, acts + [a])
    requires a.Plan? ==> a == PLANS
    ensures Detected({}, c, acts + [a])
  {
    assert (acts + [a])[..|acts|] == acts;
    ExampleIsAcceptable();
  }

  /** The first two steps of a run: the example plan is accepted and researched. */
  lemma ReachExecutor(maxIterations: int) returns (acts: seq<Action>, levels: seq<seq<Task>>)
    requires Bound(InitialState(maxIterations)) > 0
    ensures IsRun(Initial(maxIterations), acts) && R.IsSchedule([GATHER, REPORT], levels)
    ensures |acts| == 2 && acts[0] == PLANS && Detected({}, Initial(maxIterations), acts)
    ensures var c := After(Initial(maxIterations), acts);
            c.node == AtExecutor && c.state.iteration == 1 && Tasks(c.state.plan) == [GATHER, REPORT]
            && c.state.log == [] && c.state.output == map[] && c.state.maxIterations == maxIterations
            && c.state.research == map["gather" := "", "report" := ""]
  {
    var c := Initial(maxIterations);
    levels := Scheduling.ScheduleExists([GATHER, REPORT]);
    var research := Research(levels, NOTHING_FOUND);
    PlanExample(c);
    ExtendRun(c, [], PLANS);
    StaysDetected(c, [], PLANS);
    ResearchExample(After(c, [] + [PLANS]), levels);
    ExtendRun(c, [] + [PLANS], research);
    StaysDetected(c, [] + [PLANS], research);
    TasksOfFresh([GATHER, REPORT]);
    acts := [] + [PLANS] + [research];
  }

  const TIMED_OUT: I.AgentError := I.Exhausted(3, Some("timeout"))

  lemma AddStep(acts: seq<Action>, a: Action) returns (longer: seq<Action>)
    requires IsRun(Initial(3), acts) && Detected({}, Initial(3), acts) && Enabled(After(Initial(3), acts), a)
    requires a.Plan? ==> a == PLANS
    ensures IsRun(Initial(3), longer) && Detected({}, Initial(3), longer) && longer == acts + [a]
    ensures After(Initial(3), longer) == Next(After(Initial(3), acts), a)
  {
    longer := acts + [a];
    ExtendRun(Initial(3), acts, a);
    StaysDetected(Initial(3), acts, a);
  }

  const PRINTS: Oracle := (_: Id) => Ran(true, "42", "")

  lemma ExecuteExample(c: Config, levels: seq<seq<Task>>)
    requires c.node == AtExecutor && DataInv(c) && Tasks(c.state.plan) == [GATHER, REPORT]
    requires R.IsSchedule([GATHER, REPORT], levels)
    ensures Enabled(c, Execute(levels, PRINTS)) && Next(c, Execute(levels, PRINTS)).node == AtVerifier
    ensures Next(c, Execute(levels, PRINTS)).state.log == c.state.log
    ensures Next(c, Execute(levels, PRINTS)).state.iteration == c.state.iteration
    ensures Bound(Next(c, Execute(levels, PRINTS)).state) == Bound(c.state)
  {
    StepAppends(c, Execute(levels, PRINTS));
    AllSucceedLogNothing(Flatten(levels), PRINTS);
  }

  /** The third step: every task succeeds. */
  lemma ReachVerifier() returns (acts: seq<Action>)
    ensures IsRun(Initial(3), acts) && Detected({}, Initial(3), acts) && |acts| == 3 && acts[0] == PLANS
    ensures var c := After(Initial(3), acts);
            c.node == AtVerifier && c.state.log == [] && c.state.iteration == 1 && Bound(c.state) == 3
  {
    var before, levels := ReachExecutor(3);
    DataHolds(3, before);
    ExecuteExample(After(Initial(3), before), levels);
    acts := AddStep(before, Execute(levels, PRINTS));
  }

  /** A run in which the verifier's model call runs out of retries: it crashes, and its log is empty. */
  lemma VerifierExhaustionUnlogged() returns (acts: seq<Action>)
    ensures IsRun(Initial(3), acts) && acts != []
    ensures Exhausts(After(Initial(3), acts[..|acts| - 1]), acts[|acts| - 1], VerifierCall, TIMED_OUT)
    ensures After(Initial(3), acts).node == Crashed && After(Initial(3), acts).state.log == []
  {
    var before := ReachVerifier();
    acts := AddStep(before, Crash(AgentFailed(TIMED_OUT)));
    assert acts[..|acts| - 1] == before;
  }

  /** From the verifier to the planner, with a reflection that gives no score. */
  lemma ReplanAfter(acts: seq<Action>) returns (longer: seq<Action>)
    requires IsRun(Initial(3), acts) && Detected({}, Initial(3), acts)
    requires After(Initial(3), acts).node == AtVerifier
    requires After(Initial(3), acts).state.iteration == 1 && Bound(After(Initial(3), acts).state) == 3
    ensures IsRun(Initial(3), longer) && Detected({}, Initial(3), longer) && |longer| == |acts| + 2 && acts <= longer
    ensures After(Initial(3), longer).node == AtPlanner
  {
    var c := After(Initial(3), acts);
    var verified := AddStep(acts, Verify);
    longer := AddStep(verified, Reflect(F.Reflection(None, map[], None)));
  }

  /** A run that plans the same two tasks twice, with a working detector, and goes on. */
  lemma RepeatUncaught() returns (acts: seq<Action>)
    ensures IsRun(Initial(3), acts) && Detected({}, Initial(3), acts)
    ensures |acts| == 6 && acts[0] == PLANS && acts[5] == PLANS
    ensures After(Initial(3), acts).node == AtResearcher && After(Initial(3), acts).state.disclaimer == NoDisclaimer
  {
    var first := ReachVerifier();
    acts := ReplanAfter(first);
    ControlHolds(3, acts);
    PlanExample(After(Initial(3), acts));
    acts := AddStep(acts, PLANS);
  }

  /** A run in which an executor call runs out of retries and a later task raises: the line of the
      call is lost with the update of the pass, and its mark stays. */
  lemma AbortedPassUnlogged() returns (acts: seq<Action>)
    ensures IsRun(Initial(3), acts) && acts != []
    ensures Exhausts(After(Initial(3), acts[..|acts| - 1]), acts[|acts| - 1], TaskCall("gather"), TIMED_OUT)
    ensures After(Initial(3), acts).node == Crashed && After(Initial(3), acts).state.log == []
    ensures "gather" in Unlogged(acts)
  {
    var before, levels := ReachExecutor(3);
    var n := ReportPosition(levels);
    var abort := Abort(levels, _ => AgentFailure(TIMED_OUT), n, "'list' object has no attribute 'get'");
    ExtendRun(Initial(3), before, abort);
    acts := before + [abort];
    assert acts[..|acts| - 1] == before;
  }

  /** The second task of the example is scheduled after the first. */
  lemma ReportPosition(levels: seq<seq<Task>>) returns (n: nat)
    requires R.IsSchedule([GATHER, REPORT], levels)
    ensures n < |Flatten(levels)| && Flatten(levels)[n] == REPORT && "gather" in IdsOf(Flatten(levels)[..n])
  {
    ExampleIsValid();
    Scheduling.ValidPlanLosesNothing([GATHER, REPORT], levels);
    assert REPORT in multiset(Flatten(levels));
    n :| 0 <= n < |Flatten(levels)| && Flatten(levels)[n] == REPORT;
    DependencyVisited(levels, [GATHER, REPORT], n, "gather");
  }

  lemma {:induction false} AllSucceedLogNothing(order: seq<Task>, oracle: Oracle)
    requires forall x :: Succeeds(oracle(x))
    ensures ErrorLines(order, oracle) == []
  {
    if order == [] {
    } else {
      AllSucceedLogNothing(order[..|order| - 1], oracle);
    }
  }

  lemma HeadLength(task: Task, research: map<Id, string>)
    ensures var h := ExecutorHead(task, research);
            |Join(h, "\n\n")| == |h[0]| + |h[1]| + |h[2]| + |h[3]| + 6
  {
    var h := ExecutorHead(task, research);
    assert h[1..][1..] == h[2..] && h[2..][1..] == h[3..] && h[1..][0] == h[1] && h[2..][0] == h[2] && h[3..] == [h[3]];
    assert |Join(h[3..], "\n\n")| == |h[3]|;
    assert |Join(h[2..], "\n\n")| == |h[2]| + 2 + |h[3]|;
    assert |Join(h[1..], "\n\n")| == |h[1]| + 2 + |h[2]| + 2 + |h[3]|;
  }

  lemma ReportShowsItsDependency(research: map<Id, string>)
    requires "report" in research && research["report"] == ""
    ensures ShowsDependencies(REPORT, research)
  {
    ReportHead(research);
    FirstDependencyListed(REPORT);
    KeptIsLong();
  }

  lemma ReportHead(research: map<Id, string>)
    requires "report" in research && research["report"] == ""
    ensures |Join(ExecutorHead(REPORT, research), "\n\n")| < 200
  {
    HeadLength(REPORT, research);
  }

  lemma KeptIsLong()
    ensures EXECUTOR_KEPT > 300
  {
    DigitsOfThousands(8);
  }

  /** A run that reaches the executor, and a behaviour of the sandbox there, for which a prompt shows
      something other than what the pass has recorded when the prompt is built. */
  lemma StalePromptReachable() returns (acts: seq<Action>, levels: seq<seq<Task>>, oracle: Oracle, n: nat)
    ensures IsRun(Initial(3), acts) && Enabled(After(Initial(3), acts), Execute(levels, oracle))
    ensures var s := After(Initial(3), acts).state;
            var order := Flatten(levels);
            && n < |order|
            && Prompts(order, s.research, s.output)[n]
               != CurrentPrompts(order, s.research, oracle, ExecState(s.plan, s.output, s.log))[n]
  {
    acts, levels := ReachExecutor(3);
    var s := After(Initial(3), acts).state;
    ExampleIsValid();
    n := ReportPosition(levels);
    ReportShowsItsDependency(s.research);
    oracle := StalePrompt(levels, s.research, ExecState(s.plan, s.output, s.log), n);
  }
}
