/** What each step of the loop does to the shared state, told from the choices of the environment. */
module StepLaws {
  import opened Graphs
  import opened Options
  import opened Sequences
  import opened TaskPlan
  import opened LoopDetector
  import opened RunLoop
  import opened PassRecord
  import opened ReprText
  import I = Invoke
  import P = Planner
  import R = Researcher
  import X = Executor
  import Scheduling

  // ----- The planner -----

  /** quoted is a literal that reads as x, and plainly x between single quotes if x is printable ASCII
      without quotes and backslashes. */
  predicate IsQuoted(x: string, quoted: string) {
    && ReadLiteral(quoted) == Some(x)
    && ((forall i :: 0 <= i < |x| ==> ' ' <= x[i] <= '~' && x[i] != '\'' && x[i] != '\"' && x[i] != '\\') ==>
          quoted == "'" + x + "'")
  }

  /** text says what is wrong with the plan. */
  ghost predicate SaysFault(fault: P.PlanError, text: string) {
    match fault
    case NotANonEmptyList => text == "task_plan must be a non-empty list"
    case TooManyTasks(n) => text == "task_plan exceeds max 10 tasks (" + Digits(n) + " given)"
    case ItemNotAnObject(i) => text == "task[" + Digits(i) + "] is not an object"
    case MissingField(i, f) => text == "task[" + Digits(i) + "] missing required field '" + f + "'"
    case DuplicateId(_, x) => exists q :: IsQuoted(x, q) && text == "Duplicate task id: " + q
    case InvalidModel(_, x, m) => exists q :: IsQuoted(m, q) && text == "task " + x + ": invalid assigned_model " + q
    case UnknownDependency(x, d) => exists q :: IsQuoted(d, q) && text == "task " + x + " depends on unknown id " + q
    case Circular(x) => exists q :: IsQuoted(x, q) && text == "Circular dependency detected involving task " + q
  }

  /** text is what the planner's failure raises. */
  ghost predicate SaysFailure(reply: PlannerReply, text: string) {
    match reply
    case NoReply(AgentFailed(MalformedJson(detail))) =>
      text == "planner: malformed JSON response \U{2014} " + detail
              + "\nCheck backend/prompts/{self.name}.md: 'Respond ONLY with valid JSON' must be the final instruction."
    case NoReply(AgentFailed(Exhausted(limit, last))) =>
      text == "planner: all " + Digits(limit) + " retries exhausted \U{2014} " + if last.Some? then last.value else "None"
    case NoReply(OtherException(message)) => text == message
    case Reply(_, fault) =>
      exists why :: SaysFault(fault, why) && text == "planner: invalid task DAG \U{2014} " + why
  }

  /** line reports the planner's failure, with the first five hundred characters of its text. */
  ghost predicate IsPlannerLine(reply: PlannerReply, line: string) {
    exists text, head :: SaysFailure(reply, text) && IsHead(head, text) && line == "planner error: " + head
  }

  lemma TenIsTen()
    ensures Digits(10) == "10"
  {
    assert Digits(1) == "1";
  }

  lemma {:induction false} PlainBody(x: string)
    requires forall i :: 0 <= i < |x| ==> ' ' <= x[i] <= '~' && x[i] != '\'' && x[i] != '\"' && x[i] != '\\'
    ensures P.ReprBody(x, '\'') == x
  {
    if x == "" {
    } else {
      PlainBody(x[1..]);
      assert P.ReprChar(x[0], '\'') == [x[0]];
    }
  }

  lemma ReprQuotes(x: string)
    ensures IsQuoted(x, P.Repr(x))
  {
    ReprReadsBack(x);
    if forall i :: 0 <= i < |x| ==> ' ' <= x[i] <= '~' && x[i] != '\'' && x[i] != '\"' && x[i] != '\\' {
      PlainBody(x);
    }
  }

  lemma FaultSaid(fault: P.PlanError)
    ensures SaysFault(fault, P.FaultText(fault))
  {
    match fault
    case NotANonEmptyList =>
    case TooManyTasks(n) =>
      TenIsTen();
      assert "task_plan exceeds max " + "10" + " tasks (" == "task_plan exceeds max 10 tasks (";
    case ItemNotAnObject(i) =>
    case MissingField(i, f) =>
    case DuplicateId(_, x) => ReprQuotes(x);
    case InvalidModel(_, x, m) => ReprQuotes(m);
    case UnknownDependency(x, d) => ReprQuotes(d);
    case Circular(x) => ReprQuotes(x);
  }

  function FailureText(reply: PlannerReply): string {
    match reply
    case NoReply(cause) => CauseText("planner", cause)
    case Reply(_, fault) => "planner: invalid task DAG \U{2014} " + P.FaultText(fault)
  }

  lemma FailureSaid(reply: PlannerReply)
    ensures SaysFailure(reply, FailureText(reply))
  {
    match reply
    case NoReply(AgentFailed(MalformedJson(detail))) => MalformedSaid(detail);
    case NoReply(AgentFailed(Exhausted(limit, last))) => assert "planner" + ": all " == "planner: all ";
    case NoReply(OtherException(message)) =>
    case Reply(_, fault) => FaultSaid(fault);
  }

  lemma MalformedSaid(detail: string)
    ensures SaysFailure(NoReply(AgentFailed(I.MalformedJson(detail))), I.ErrorText("planner", I.MalformedJson(detail)))
  {
    PlannerPrefix();
  }

  lemma PlannerPrefix()
    ensures "planner" + ": malformed JSON response \U{2014} " == "planner: malformed JSON response \U{2014} "
  {
  }

  lemma PlannerLine(reply: PlannerReply)
    ensures IsPlannerLine(reply, PlannerError(reply))
  {
    FailureSaid(reply);
    HeadOfText(FailureText(reply));
  }

  ghost predicate AllPending(plan: seq<Entry>) {
    forall i :: 0 <= i < |plan| ==> plan[i].status == Pending
  }

  /** The state but for what a planner step may write. */
  function PlannerKeeps(s: NexusState): (map<Id, string>, map<Id, string>, real, int) {
    (s.research, s.output, s.quality, s.maxIterations)
  }

  /** An accepted reply becomes the plan, field by field and pending; a repeated one also stops the run
      and leaves a line. */
  lemma AcceptedPlanStep(c: Config, a: Action)
    requires ControlInv(c) && Enabled(c, a) && a.Plan? && Plans(a.reply)
    ensures var s, t := c.state, Next(c, a).state;
            && t.iteration == s.iteration + 1 && PlannerKeeps(t) == PlannerKeeps(s)
            && P.AreTasksOf(a.reply.raw.items, X.Tasks(t.plan)) && AllPending(t.plan)
            && (a.verdict.SeenBefore? ==>
                  && t.log == s.log + ["loop detected \U{2014} identical plan repeated"]
                  && t.disclaimer == LoopDetected && Next(c, a).node == AtOutput)
            && (!a.verdict.SeenBefore? ==>
                  t.log == s.log && t.disclaimer == s.disclaimer && Next(c, a).node == AtResearcher)
  {
    P.ConvertAllKeeps(a.reply.raw.items);
    TasksOfFresh(P.ConvertAll(a.reply.raw.items));
  }

  /** A failing planner leaves the plan as it was and one line, and the run goes on with the old plan. */
  lemma FailedPlanStep(c: Config, a: Action)
    requires ControlInv(c) && Enabled(c, a) && a.Plan? && !Plans(a.reply)
    ensures var s, t := c.state, Next(c, a).state;
            && t.iteration == s.iteration + 1 && PlannerKeeps(t) == PlannerKeeps(s)
            && t.plan == s.plan && t.disclaimer == s.disclaimer && Next(c, a).node == AtResearcher
            && |t.log| == |s.log| + 1 && s.log <= t.log && IsPlannerLine(a.reply, t.log[|s.log|])
  {
    PlannerLine(a.reply);
  }

  // ----- The other agents -----

  /** The research entry of a task is what its tools found, or says what went wrong. */
  predicate IsEntry(f: R.Finding, entry: string) {
    match f
    case Found(text) => entry == text
    case Raised(message) => entry == "No results found. (" + message + ")"
  }

  /** The researcher writes the entry of every task of the plan and nothing else. */
  lemma ResearchStep(c: Config, a: Action)
    requires DataInv(c) && Enabled(c, a) && a.Research?
    ensures Next(c, a).node == AtExecutor
    ensures Next(c, a).state == c.state.(research := Next(c, a).state.research)
    ensures forall x :: x in PlanIds(c.state) ==>
              x in Next(c, a).state.research && IsEntry(a.findings(x), Next(c, a).state.research[x])
    ensures forall x :: x !in PlanIds(c.state) ==>
              && (x in Next(c, a).state.research <==> x in c.state.research)
              && (x in c.state.research ==> Next(c, a).state.research[x] == c.state.research[x])
  {
    ScheduleCoversPlan(c.state.plan, a.rLevels);
  }

  /** The executor records every task of the plan as its outcome says and extends the log by the lines
      of the failed ones; nothing else changes. */
  lemma ExecuteStep(c: Config, a: Action)
    requires DataInv(c) && Enabled(c, a) && a.Execute?
    ensures Next(c, a).node == AtVerifier
    ensures var s, t, order := c.state, Next(c, a).state, Flatten(a.xLevels);
            && t == s.(plan := t.plan, output := t.output, log := t.log)
            && |t.plan| == |s.plan|
            && (forall i :: 0 <= i < |s.plan| ==>
                  Recorded(s.plan[i], t.plan[i], a.oracle(s.plan[i].task.id), s.output, t.output))
            && s.log <= t.log && |t.log| == |s.log| + FailuresIn(order, a.oracle, |order|)
            && forall n :: 0 <= n < |order| ==> LineLogged(order, a.oracle, s.log, t.log, n)
  {
    PassOutcomes(a.xLevels, a.oracle, X.ExecState(c.state.plan, c.state.output, c.state.log));
  }

  /** The mark an aborted pass leaves on a task: its verdict if its turn came to an end. */
  predicate MarkedIfDone(before: Entry, after: Entry, completed: seq<Task>, o: X.TaskOutcome) {
    && after.task == before.task
    && after.status == if before.task.id !in IdsOf(completed) then before.status else if RanWell(o) then Done else Failed
  }

  /** An aborted pass leaves marks on the tasks before the one that raised, and nothing else. */
  lemma AbortStep(c: Config, a: Action)
    requires DataInv(c) && Enabled(c, a) && a.Abort?
    ensures Next(c, a).node == Crashed
    ensures Next(c, a).state == c.state.(plan := Next(c, a).state.plan)
    ensures |Next(c, a).state.plan| == |c.state.plan|
    ensures forall i :: 0 <= i < |c.state.plan| ==>
              MarkedIfDone(c.state.plan[i], Next(c, a).state.plan[i], Flatten(a.xLevels)[..a.done],
                           a.oracle(c.state.plan[i].task.id))
  {
    AbortMarks(c.state, a.xLevels, a.oracle, a.done);
  }

  lemma AbortMarks(s: NexusState, levels: seq<seq<Task>>, oracle: X.Oracle, done: nat)
    requires ValidPlan(X.Tasks(s.plan)) && R.IsSchedule(X.Tasks(s.plan), levels) && done <= |Flatten(levels)|
    ensures var t := AbortedPass(s, levels, oracle, done);
            && |t.plan| == |s.plan|
            && forall i :: 0 <= i < |s.plan| ==>
                 MarkedIfDone(s.plan[i], t.plan[i], Flatten(levels)[..done], oracle(s.plan[i].task.id))
  {
    AbortedMarks(s, levels, oracle, done);
    var order, start := Flatten(levels)[..done], X.ExecState(s.plan, s.output, s.log);
    X.RunTasksEffect(order, oracle, start) by { PrefixUnique(X.Tasks(s.plan), levels, done); }
    var r := X.RunTasks(order, oracle, start);
    assert |X.Tasks(r.plan)| == |X.Tasks(s.plan)|;
    forall i | 0 <= i < |s.plan|
      ensures MarkedIfDone(s.plan[i], r.plan[i], order, oracle(s.plan[i].task.id))
    {
      assert X.Tasks(r.plan)[i] == X.Tasks(s.plan)[i];
    }
  }

  lemma PrefixUnique(tasks: seq<Task>, levels: seq<seq<Task>>, done: nat)
    requires ValidPlan(tasks) && R.IsSchedule(tasks, levels) && done <= |Flatten(levels)|
    ensures UniqueIds(Flatten(levels)[..done])
  {
    Scheduling.ValidPlanLosesNothing(tasks, levels);
    UniquePrefix(Flatten(levels), done);
  }

  /** The verifier changes nothing that the model keeps, the reflector only the score, and the output
      node only the disclaimer: it sets max_iterations_reached after a last iteration whose score is
      below 0.85. */
  lemma ClosingSteps(c: Config, a: Action)
    requires ControlInv(c) && Enabled(c, a)
    ensures a.Verify? ==> Next(c, a).state == c.state && Next(c, a).node == AtReflector
    ensures a.Reflect? ==> Next(c, a).state == c.state.(quality := Next(c, a).state.quality)
    ensures a.Finish? ==> Next(c, a).node == AtEnd
    ensures a.Finish? ==>
              Next(c, a).state
              == c.state.(disclaimer := if c.state.disclaimer == NoDisclaimer && c.state.quality < 0.85
                                        then MaxIterationsReached else c.state.disclaimer)
    ensures a.Crash? ==> Next(c, a).state == c.state && Next(c, a).node == Crashed
  {
  }

  // ----- The iteration limit -----

  /** c and d differ in the limit only: none in c, three in d. */
  ghost predicate LimitOfThree(c: Config, d: Config) {
    c.state.maxIterations == 0 && d == c.(state := c.state.(maxIterations := 3))
  }

  lemma LimitStep(c: Config, d: Config, a: Action)
    requires LimitOfThree(c, d)
    ensures Enabled(c, a) <==> Enabled(d, a)
    ensures Enabled(c, a) ==> LimitOfThree(Next(c, a), Next(d, a))
  {
    if Enabled(c, a) {
      if a.Execute? {
        LimitExecute(c, d, a);
      } else if a.Abort? {
        LimitAbort(c, d, a);
      } else {
        LimitOther(c, d, a);
      }
    }
  }

  lemma LimitExecute(c: Config, d: Config, a: Action)
    requires LimitOfThree(c, d) && Enabled(c, a) && Enabled(d, a) && a.Execute?
    ensures LimitOfThree(Next(c, a), Next(d, a))
  {
    assert Pass(c.state, a.xLevels, a.oracle) == Pass(d.state, a.xLevels, a.oracle);
  }

  lemma LimitAbort(c: Config, d: Config, a: Action)
    requires LimitOfThree(c, d) && Enabled(c, a) && Enabled(d, a) && a.Abort?
    ensures LimitOfThree(Next(c, a), Next(d, a))
  {
  }

  lemma LimitOther(c: Config, d: Config, a: Action)
    requires LimitOfThree(c, d) && Enabled(c, a) && Enabled(d, a) && !a.Execute? && !a.Abort?
    ensures LimitOfThree(Next(c, a), Next(d, a))
  {
  }

  /** A state without max_iterations runs as one whose limit is three. */
  lemma {:induction false} NoLimitIsThree(acts: seq<Action>)
    ensures IsRun(Initial(0), acts) <==> IsRun(Initial(3), acts)
    ensures IsRun(Initial(0), acts) ==> LimitOfThree(After(Initial(0), acts), After(Initial(3), acts))
  {
    if acts == [] {
    } else {
      var n := |acts| - 1;
      NoLimitIsThree(acts[..n]);
      if IsRun(Initial(0), acts[..n]) {
        LimitStep(After(Initial(0), acts[..n]), After(Initial(3), acts[..n]), acts[n]);
      }
    }
  }
}
