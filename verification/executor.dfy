/** backend/agents/executor.py: one pass over the levels of a plan. */
module Executor {
  import opened Graphs
  import opened Sequences
  import opened TaskPlan
  import opened Researcher
  import opened Scheduling
  import opened Context
  import I = Invoke

  /** What the model and the sandbox do with one task. */
  datatype TaskOutcome =
    | AgentFailure(error: I.AgentError)
    | NoCode
    | Ran(success: bool, stdout: string, stderr: string)

  type Oracle = Id -> TaskOutcome

  datatype ExecState = ExecState(plan: seq<Entry>, output: map<Id, string>, log: seq<string>)

  predicate Succeeds(o: TaskOutcome) {
    o.Ran? && o.success
  }

  function Verdict(o: TaskOutcome): Status {
    if Succeeds(o) then Done else Failed
  }

  function StdoutOf(o: TaskOutcome): string {
    if o.Ran? then o.stdout else ""
  }

  function ErrorLine(id: Id, o: TaskOutcome): string
    requires !Succeeds(o)
  {
    match o
    case AgentFailure(error) => SliceTo(I.ErrorText("executor", error), 500)
    case NoCode => "executor task " + id + ": LLM returned no code"
    case Ran(_, _, stderr) => "executor task " + id + ": " + SliceTo(stderr, 500)
  }

  /** _mark_task: the first entry with the id gets the status. */
  function Mark(plan: seq<Entry>, id: Id, status: Status): seq<Entry> {
    if plan == [] then []
    else if plan[0].task.id == id then [plan[0].(status := status)] + plan[1..]
    else [plan[0]] + Mark(plan[1..], id, status)
  }

  /** The body of the inner loop. */
  function RunTask(id: Id, o: TaskOutcome, s: ExecState): ExecState {
    ExecState(Mark(s.plan, id, Verdict(o)),
              if Succeeds(o) then s.output[id := o.stdout] else s.output,
              if Succeeds(o) then s.log else s.log + [ErrorLine(id, o)])
  }

  /** The tasks of order, one after the other. */
  function RunTasks(order: seq<Task>, oracle: Oracle, s: ExecState): ExecState {
    if order == [] then
      s
    else
      var n := |order| - 1;
      RunTask(order[n].id, oracle(order[n].id), RunTasks(order[..n], oracle, s))
  }

  function Tasks(plan: seq<Entry>): (r: seq<Task>) {
    seq(|plan|, i requires 0 <= i < |plan| => plan[i].task)
  }

  function WithStatus(plan: seq<Entry>, status: Status): set<Id> {
    set i | 0 <= i < |plan| && plan[i].status == status :: plan[i].task.id
  }

  // ----- The pass as the agent runs it, on shared task records -----

  function NodeTasks(nodes: seq<TaskNode>): seq<Task> {
    seq(|nodes|, i requires 0 <= i < |nodes| => nodes[i].task)
  }

  ghost function Snapshot(nodes: seq<TaskNode>): (r: seq<Entry>)
    reads nodes
    ensures |r| == |nodes|
    ensures forall i :: 0 <= i < |r| ==> r[i] == Entry(nodes[i].task, nodes[i].status)
  {
    if nodes == [] then [] else [Entry(nodes[0].task, nodes[0].status)] + Snapshot(nodes[1..])
  }

  lemma {:induction false} MarkFirst(plan: seq<Entry>, i: nat, id: Id, status: Status)
    requires i < |plan| && plan[i].task.id == id
    requires forall j :: 0 <= j < i ==> plan[j].task.id != id
    ensures Mark(plan, id, status) == plan[i := plan[i].(status := status)]
  {
    if i == 0 {
    } else {
      MarkFirst(plan[1..], i - 1, id, status);
    }
  }

  lemma {:induction false} MarkNone(plan: seq<Entry>, id: Id, status: Status)
    requires forall j :: 0 <= j < |plan| ==> plan[j].task.id != id
    ensures Mark(plan, id, status) == plan
  {
    if plan == [] {
    } else {
      MarkNone(plan[1..], id, status);
    }
  }

  method MarkTask(nodes: seq<TaskNode>, id: Id, status: Status)
    requires Distinct(nodes)
    modifies nodes
    ensures Snapshot(nodes) == Mark(old(Snapshot(nodes)), id, status)
  {
    for i := 0 to |nodes|
      invariant forall j :: 0 <= j < i ==> nodes[j].task.id != id
      invariant Snapshot(nodes) == old(Snapshot(nodes))
    {
      if nodes[i].task.id == id {
        MarkFirst(old(Snapshot(nodes)), i, id, status);
        nodes[i].status := status;
        return;
      }
    }
    MarkNone(old(Snapshot(nodes)), id, status);
  }

  /** The inner loop body on shared records: one model call, one sandbox run, one mark. */
  method ExecuteTask(nodes: seq<TaskNode>, task: Task, o: TaskOutcome, outputs: map<Id, string>, errors: seq<string>)
    returns (output: map<Id, string>, log: seq<string>)
    requires Distinct(nodes)
    modifies nodes
    ensures ExecState(Snapshot(nodes), output, log)
            == RunTask(task.id, o, ExecState(old(Snapshot(nodes)), outputs, errors))
  {
    output, log := outputs, errors;
    if o.AgentFailure? {
      log := log + [SliceTo(I.ErrorText("executor", o.error), 500)];
      MarkTask(nodes, task.id, Failed);
      return;
    }
    if o.NoCode? {
      log := log + ["executor task " + task.id + ": LLM returned no code"];
      MarkTask(nodes, task.id, Failed);
      return;
    }
    if o.success {
      output := output[task.id := o.stdout];
      MarkTask(nodes, task.id, Done);
    } else {
      log := log + ["executor task " + task.id + ": " + SliceTo(o.stderr, 500)];
      MarkTask(nodes, task.id, Failed);
    }
  }

  /** The prompts of a pass: each is built from the outputs held by the state on entry. */
  function Prompts(order: seq<Task>, research: map<Id, string>, outputs: map<Id, string>): seq<string> {
    Map(PromptFrom(research, outputs), order)
  }

  function PromptFrom(research: map<Id, string>, outputs: map<Id, string>): Task -> string {
    (t: Task) => ExecutorContext(t, research, outputs)
  }

  lemma RunTasksSnoc(order: seq<Task>, t: Task, oracle: Oracle, s: ExecState)
    ensures RunTasks(order + [t], oracle, s) == RunTask(t.id, oracle(t.id), RunTasks(order, oracle, s))
  {
    assert (order + [t])[..|order|] == order;
  }

  /** The inner loop, over one level. */
  method RunLevel(nodes: seq<TaskNode>, level: seq<Task>, research: map<Id, string>, stateOutputs: map<Id, string>,
                  outputs: map<Id, string>, errors: seq<string>, oracle: Oracle,
                  ghost start: ExecState, ghost order: seq<Task>)
    returns (output: map<Id, string>, log: seq<string>, prompts: seq<string>)
    requires Distinct(nodes)
    requires ExecState(Snapshot(nodes), outputs, errors) == RunTasks(order, oracle, start)
    modifies nodes
    ensures ExecState(Snapshot(nodes), output, log) == RunTasks(order + level, oracle, start)
    ensures prompts == Prompts(level, research, stateOutputs)
  {
    output, log, prompts := outputs, errors, [];
    ghost var prompt := PromptFrom(research, stateOutputs);
    assert order + level[..0] == order;
    for j := 0 to |level|
      invariant ExecState(Snapshot(nodes), output, log) == RunTasks(order + level[..j], oracle, start)
      invariant prompts == Map(prompt, level[..j])
    {
      var task := level[j];
      MapNext(prompt, level, j);
      prompts := prompts + [ExecutorContext(task, research, stateOutputs)];
      output, log := ExecuteTask(nodes, task, oracle(task.id), output, log);
      RunTasksSnoc(order + level[..j], task, oracle, start);
      AppendSlice(order, level, j);
    }
    assert level[..|level|] == level;
  }

  /** ExecutorAgent.run: the task records, outputs and log end as the fold of RunTask over the
      levels, and every prompt reads the outputs of the entry state, never those of this pass. */
  method Run(nodes: seq<TaskNode>, research: map<Id, string>, outputs: map<Id, string>, errors: seq<string>, oracle: Oracle)
    returns (levels: seq<seq<Task>>, output: map<Id, string>, log: seq<string>, prompts: seq<string>)
    requires Distinct(nodes)
    modifies nodes
    ensures IsSchedule(NodeTasks(nodes), levels)
    ensures ExecState(Snapshot(nodes), output, log)
            == RunTasks(Flatten(levels), oracle, ExecState(old(Snapshot(nodes)), outputs, errors))
    ensures prompts == Prompts(Flatten(levels), research, outputs)
  {
    levels := TopologicalSort(NodeTasks(nodes));
    output, log, prompts := outputs, errors, [];
    ghost var start := ExecState(Snapshot(nodes), outputs, errors);
    for k := 0 to |levels|
      invariant ExecState(Snapshot(nodes), output, log) == RunTasks(Flatten(levels[..k]), oracle, start)
      invariant prompts == Prompts(Flatten(levels[..k]), research, outputs)
    {
      FlattenSnoc(levels, k);
      MapConcat(PromptFrom(research, outputs), Flatten(levels[..k]), levels[k]);
      var asked: seq<string>;
      output, log, asked := RunLevel(nodes, levels[k], research, outputs, output, log, oracle, start, Flatten(levels[..k]));
      prompts := prompts + asked;
    }
    assert levels[..|levels|] == levels;
  }

  // ----- What a pass does to a valid plan -----

  lemma {:induction false} MarkEffect(plan: seq<Entry>, id: Id, status: Status)
    requires UniqueIds(Tasks(plan))
    ensures |Mark(plan, id, status)| == |plan|
    ensures forall i :: 0 <= i < |plan| ==>
              Mark(plan, id, status)[i] == if plan[i].task.id == id then plan[i].(status := status) else plan[i]
  {
    if i :| 0 <= i < |plan| && plan[i].task.id == id {
      forall j | 0 <= j < |plan| && j != i
        ensures plan[j].task.id != id
      {
        if plan[j].task.id == id {
          UniqueIndex(Tasks(plan), i, j);
        }
      }
      MarkFirst(plan, i, id, status);
    } else {
      MarkNone(plan, id, status);
    }
  }

  /** The log lines of the failed tasks, in the order they ran. */
  function ErrorLines(order: seq<Task>, oracle: Oracle): seq<string> {
    if order == [] then
      []
    else
      var x := order[|order| - 1].id;
      ErrorLines(order[..|order| - 1], oracle) + if Succeeds(oracle(x)) then [] else [ErrorLine(x, oracle(x))]
  }

  lemma {:induction false} FailedTaskHasLine(order: seq<Task>, oracle: Oracle, x: Id)
    requires x in IdsOf(order) && !Succeeds(oracle(x))
    ensures ErrorLine(x, oracle(x)) in ErrorLines(order, oracle)
  {
    var n := |order| - 1;
    if order[n].id == x {
    } else {
      assert IdsOf(order) == IdsOf(order[..n]) + [order[n].id];
      FailedTaskHasLine(order[..n], oracle, x);
    }
  }

  ghost function FailedIn(order: seq<Task>, oracle: Oracle): set<Id> {
    set x | x in IdsOf(order) && !Succeeds(oracle(x))
  }

  /** The whole effect of running the tasks of order, each at most once. */
  ghost predicate PassEffect(order: seq<Task>, oracle: Oracle, s: ExecState, r: ExecState) {
    MarksEffect(order, oracle, s, r) && OutputsEffect(order, oracle, s, r) && LogEffect(order, oracle, s, r)
  }

  ghost predicate MarksEffect(order: seq<Task>, oracle: Oracle, s: ExecState, r: ExecState) {
    && Tasks(r.plan) == Tasks(s.plan)
    && forall i :: 0 <= i < |r.plan| ==>
      r.plan[i].status == if r.plan[i].task.id in IdsOf(order) then Verdict(oracle(r.plan[i].task.id)) else s.plan[i].status
  }

  ghost predicate OutputsEffect(order: seq<Task>, oracle: Oracle, s: ExecState, r: ExecState) {
    forall x :: OutputAt(IdsOf(order), oracle, s, r, x)
  }

  ghost predicate LogEffect(order: seq<Task>, oracle: Oracle, s: ExecState, r: ExecState) {
    && r.log == s.log + ErrorLines(order, oracle)
    && |ErrorLines(order, oracle)| == |FailedIn(order, oracle)|
  }

  /** The output recorded for x: this pass's stdout if it ran with success, else what was there. */
  ghost predicate OutputAt(ran: seq<Id>, oracle: Oracle, s: ExecState, r: ExecState, x: Id) {
    if x in ran && Succeeds(oracle(x)) then x in r.output && r.output[x] == oracle(x).stdout
    else if x in s.output then x in r.output && r.output[x] == s.output[x]
    else x !in r.output
  }

  lemma {:induction false} RunTasksEffect(order: seq<Task>, oracle: Oracle, s: ExecState)
    requires UniqueIds(order) && UniqueIds(Tasks(s.plan))
    ensures PassEffect(order, oracle, s, RunTasks(order, oracle, s))
  {
    if order == [] {
      assert FailedIn(order, oracle) == {};
    } else {
      var n := |order| - 1;
      var rest, x := order[..n], order[n].id;
      UniquePrefix(order, n);
      IdNotBefore(order, n);
      RunTasksEffect(rest, oracle, s);
      StepMarks(rest, order[n], oracle, s, RunTasks(rest, oracle, s));
      StepOutputs(rest, order[n], oracle, s, RunTasks(rest, oracle, s));
      StepLog(rest, order[n], oracle, s, RunTasks(rest, oracle, s));
      assert order == rest + [order[n]];
    }
  }

  lemma StepMarks(rest: seq<Task>, t: Task, oracle: Oracle, s: ExecState, m: ExecState)
    requires UniqueIds(Tasks(s.plan)) && MarksEffect(rest, oracle, s, m)
    ensures MarksEffect(rest + [t], oracle, s, RunTask(t.id, oracle(t.id), m))
  {
    assert IdsOf(rest + [t]) == IdsOf(rest) + [t.id];
    MarkEffect(m.plan, t.id, Verdict(oracle(t.id)));
  }

  lemma StepOutputs(rest: seq<Task>, t: Task, oracle: Oracle, s: ExecState, m: ExecState)
    requires t.id !in IdsOf(rest) && OutputsEffect(rest, oracle, s, m)
    ensures OutputsEffect(rest + [t], oracle, s, RunTask(t.id, oracle(t.id), m))
  {
    assert IdsOf(rest + [t]) == IdsOf(rest) + [t.id];
    var r := RunTask(t.id, oracle(t.id), m);
    forall x
      ensures OutputAt(IdsOf(rest + [t]), oracle, s, r, x)
    {
      assert OutputAt(IdsOf(rest), oracle, s, m, x);
    }
  }

  lemma StepLog(rest: seq<Task>, t: Task, oracle: Oracle, s: ExecState, m: ExecState)
    requires t.id !in IdsOf(rest) && LogEffect(rest, oracle, s, m)
    ensures LogEffect(rest + [t], oracle, s, RunTask(t.id, oracle(t.id), m))
  {
    FailedSnoc(rest, t, oracle);
    LinesSnoc(rest, t, oracle);
  }

  lemma LinesSnoc(rest: seq<Task>, t: Task, oracle: Oracle)
    ensures ErrorLines(rest + [t], oracle)
            == ErrorLines(rest, oracle) + if Succeeds(oracle(t.id)) then [] else [ErrorLine(t.id, oracle(t.id))]
  {
    assert (rest + [t])[..|rest|] == rest;
  }

  lemma FailedSnoc(rest: seq<Task>, t: Task, oracle: Oracle)
    requires t.id !in IdsOf(rest)
    ensures |FailedIn(rest + [t], oracle)| == |FailedIn(rest, oracle)| + if Succeeds(oracle(t.id)) then 0 else 1
  {
    assert IdsOf(rest + [t]) == IdsOf(rest) + [t.id];
    if Succeeds(oracle(t.id)) {
      assert FailedIn(rest + [t], oracle) == FailedIn(rest, oracle);
    } else {
      assert FailedIn(rest + [t], oracle) == FailedIn(rest, oracle) + {t.id};
    }
  }

  /** No task is pending: each is done or failed as the sandbox decided, done and failed tasks make
      up the plan, the log grew by the lines of the failed tasks in schedule order, and the outputs
      changed exactly at the done ids. */
  ghost predicate PlanSettled(order: seq<Task>, oracle: Oracle, s: ExecState, r: ExecState) {
    && Tasks(r.plan) == Tasks(s.plan)
    && (forall i :: 0 <= i < |r.plan| ==> r.plan[i].status == Verdict(oracle(r.plan[i].task.id)))
    && |WithStatus(r.plan, Done)| + |WithStatus(r.plan, Failed)| == |r.plan|
    && r.log == s.log + ErrorLines(order, oracle) && |ErrorLines(order, oracle)| == |WithStatus(r.plan, Failed)|
    && (forall x :: RecordedAt(oracle, s, r, x))
    && (forall x :: x in WithStatus(r.plan, Done) <==> x in IdsOf(Tasks(s.plan)) && Succeeds(oracle(x)))
  }

  /** The outputs changed at x exactly if x was marked done, and then to this pass's stdout. */
  ghost predicate RecordedAt(oracle: Oracle, s: ExecState, r: ExecState, x: Id) {
    && (x in r.output <==> x in s.output || x in WithStatus(r.plan, Done))
    && (x in r.output ==> r.output[x] == if x in WithStatus(r.plan, Done) then StdoutOf(oracle(x)) else s.output[x])
  }

  /** A pass over a valid plan settles it, for every behaviour of the model and the sandbox. */
  lemma {:induction false} PassSettlesPlan(levels: seq<seq<Task>>, oracle: Oracle, s: ExecState)
    requires ValidPlan(Tasks(s.plan)) && IsSchedule(Tasks(s.plan), levels)
    ensures PlanSettled(Flatten(levels), oracle, s, RunTasks(Flatten(levels), oracle, s))
  {
    var order := Flatten(levels);
    ValidPlanLosesNothing(Tasks(s.plan), levels);
    RunTasksEffect(order, oracle, s);
    SameIds(order, Tasks(s.plan));
    WholePass(order, oracle, s, RunTasks(order, oracle, s));
  }

  /** Read off a settled plan: no output is dropped, new ones belong to tasks of the plan, and the
      done tasks hold what the sandbox printed in this pass. */
  lemma SettledOutputs(order: seq<Task>, oracle: Oracle, s: ExecState, r: ExecState)
    requires PlanSettled(order, oracle, s, r)
    ensures s.output.Keys <= r.output.Keys
    ensures forall x :: x in r.output ==> x in s.output || x in IdsOf(Tasks(s.plan))
    ensures forall x :: x in WithStatus(r.plan, Done) ==> x in r.output && r.output[x] == StdoutOf(oracle(x))
  {
    assert forall x :: x in s.output ==> RecordedAt(oracle, s, r, x);
    assert forall x :: x in r.output ==> RecordedAt(oracle, s, r, x);
    assert forall x :: x in WithStatus(r.plan, Done) ==> RecordedAt(oracle, s, r, x);
  }

  lemma WholePass(order: seq<Task>, oracle: Oracle, s: ExecState, r: ExecState)
    requires PassEffect(order, oracle, s, r) && UniqueIds(Tasks(s.plan))
    requires forall x :: x in IdsOf(order) <==> x in IdsOf(Tasks(s.plan))
    ensures PlanSettled(order, oracle, s, r)
  {
    forall i | 0 <= i < |r.plan|
      ensures r.plan[i].task.id in IdsOf(order)
    {
      assert IdsOf(Tasks(r.plan))[i] == r.plan[i].task.id;
    }
    StatusSets(r.plan, oracle);
    assert FailedIn(order, oracle) == WithStatus(r.plan, Failed);
    forall x
      ensures RecordedAt(oracle, s, r, x)
    {
      assert OutputAt(IdsOf(order), oracle, s, r, x);
    }
  }

  lemma {:induction false} IdSetSize(tasks: seq<Task>)
    requires UniqueIds(tasks)
    ensures |set x | x in IdsOf(tasks)| == |tasks|
  {
    if tasks == [] {
      assert (set x | x in IdsOf(tasks)) == {};
    } else {
      var n := |tasks| - 1;
      var rest := tasks[..n];
      assert IdsOf(tasks) == IdsOf(rest) + [tasks[n].id];
      UniquePrefix(tasks, n);
      IdSetSize(rest);
      IdNotBefore(tasks, n);
      assert (set x | x in IdsOf(tasks)) == (set x | x in IdsOf(rest)) + {tasks[n].id};
    }
  }

  /** When the statuses are the verdicts, the done and the failed ids partition the plan. */
  lemma StatusSets(plan: seq<Entry>, oracle: Oracle)
    requires UniqueIds(Tasks(plan))
    requires forall i :: 0 <= i < |plan| ==> plan[i].status == Verdict(oracle(plan[i].task.id))
    ensures WithStatus(plan, Done) == set x | x in IdsOf(Tasks(plan)) && Succeeds(oracle(x))
    ensures WithStatus(plan, Failed) == set x | x in IdsOf(Tasks(plan)) && !Succeeds(oracle(x))
    ensures |WithStatus(plan, Done)| + |WithStatus(plan, Failed)| == |plan|
  {
    var ids := IdsOf(Tasks(plan));
    forall x | x in ids
      ensures x in WithStatus(plan, Verdict(oracle(x)))
    {
      var i :| 0 <= i < |ids| && ids[i] == x;
      assert plan[i].task.id == x;
    }
    forall status, x | x in WithStatus(plan, status)
      ensures x in ids && status == Verdict(oracle(x))
    {
      var i :| 0 <= i < |plan| && plan[i].status == status && plan[i].task.id == x;
      assert ids[i] == x;
    }
    IdSetSize(Tasks(plan));
    assert WithStatus(plan, Done) + WithStatus(plan, Failed) == set x | x in ids;
  }

  /** When a task's prompt is built, each of its dependencies is already done or failed. */
  lemma DependenciesSettleFirst(levels: seq<seq<Task>>, oracle: Oracle, s: ExecState, n: nat, d: Id)
    requires ValidPlan(Tasks(s.plan)) && IsSchedule(Tasks(s.plan), levels)
    requires n < |Flatten(levels)| && d in Flatten(levels)[n].dependsOn
    ensures d in WithStatus(RunTasks(Flatten(levels)[..n], oracle, s).plan, Verdict(oracle(d)))
  {
    var order := Flatten(levels);
    ValidPlanLosesNothing(Tasks(s.plan), levels);
    DependencyVisited(levels, Tasks(s.plan), n, d);
    UniquePrefix(order, n);
    RunTasksEffect(order[..n], oracle, s);
    var r := RunTasks(order[..n], oracle, s);
    var i :| 0 <= i < |r.plan| && IdsOf(Tasks(r.plan))[i] == d;
    assert r.plan[i].task.id == d;
  }

  lemma DependencyVisited(levels: seq<seq<Task>>, tasks: seq<Task>, n: nat, d: Id)
    requires ValidPlan(tasks) && multiset(Flatten(levels)) == multiset(tasks)
    requires DependenciesFirst(PlanGraph(tasks), Order(levels))
    requires n < |Flatten(levels)| && d in Flatten(levels)[n].dependsOn
    ensures d in IdsOf(Flatten(levels)[..n]) && d in IdsOf(tasks)
  {
    var order := Flatten(levels);
    assert order[n] in multiset(tasks);
    var j :| 0 <= j < |tasks| && tasks[j] == order[n];
    DependenciesOfTask(tasks, j);
    assert IdsOf(order)[n] == order[n].id;
    assert IdsOf(order)[..n] == IdsOf(order[..n]);
  }

  // ----- What the prompts of a pass show -----

  /** The prompts as they would be if each were built from what the pass has recorded so far. */
  ghost function CurrentPrompts(order: seq<Task>, research: map<Id, string>, oracle: Oracle, s: ExecState): seq<string> {
    seq(|order|, n requires 0 <= n < |order| => ExecutorContext(order[n], research, RunTasks(order[..n], oracle, s).output))
  }

  /** A successful dependency is on record before the prompt of its dependent is built. */
  lemma RecordedBeforePrompt(levels: seq<seq<Task>>, oracle: Oracle, s: ExecState, n: nat, d: Id)
    requires ValidPlan(Tasks(s.plan)) && IsSchedule(Tasks(s.plan), levels)
    requires n < |Flatten(levels)| && d in Flatten(levels)[n].dependsOn && Succeeds(oracle(d))
    ensures var m := RunTasks(Flatten(levels)[..n], oracle, s);
            d in m.output && m.output[d] == oracle(d).stdout
  {
    var order := Flatten(levels);
    ValidPlanLosesNothing(Tasks(s.plan), levels);
    DependencyVisited(levels, Tasks(s.plan), n, d);
    UniquePrefix(order, n);
    RunTasksEffect(order[..n], oracle, s);
    assert OutputAt(IdsOf(order[..n]), oracle, s, RunTasks(order[..n], oracle, s), d);
  }

  /** A prompt with room for its dependencies is out of date under some behaviour of the sandbox. */
  lemma StalePrompt(levels: seq<seq<Task>>, research: map<Id, string>, s: ExecState, n: nat) returns (oracle: Oracle)
    requires ValidPlan(Tasks(s.plan)) && IsSchedule(Tasks(s.plan), levels)
    requires n < |Flatten(levels)| && ShowsDependencies(Flatten(levels)[n], research)
    ensures Prompts(Flatten(levels), research, s.output)[n] != CurrentPrompts(Flatten(levels), research, oracle, s)[n]
  {
    var t := Flatten(levels)[n];
    var d := FirstDependency(t);
    FirstDependencyListed(t);
    var stdout := if FirstShown(t, s.output) == 'a' then "b" else "a";
    oracle := (x: Id) => Ran(true, stdout, "");
    RecordedBeforePrompt(levels, oracle, s, n, d);
    FirstDependencyShows(t, research, s.output, RunTasks(Flatten(levels)[..n], oracle, s).output);
  }

  lemma ScheduledTasks(tasks: seq<Task>, levels: seq<seq<Task>>)
    requires ValidPlan(tasks) && IsSchedule(tasks, levels)
    ensures forall t :: t in tasks <==> t in Flatten(levels)
  {
    ValidPlanLosesNothing(tasks, levels);
    assert forall t :: t in tasks <==> t in multiset(Flatten(levels));
  }

  /** Whatever the model and the sandbox do, the prompts of a pass are those that its own records
      would give, if and only if every task has no dependency or has its prompt filled, up to the
      part that the budget keeps, before the first dependency's output. build_executor_context
      reads the state, and the pass writes to a copy. */
  lemma PromptsCurrentIff(levels: seq<seq<Task>>, research: map<Id, string>, s: ExecState)
    requires ValidPlan(Tasks(s.plan)) && IsSchedule(Tasks(s.plan), levels)
    ensures (forall oracle: Oracle ::
               CurrentPrompts(Flatten(levels), research, oracle, s) == Prompts(Flatten(levels), research, s.output))
            <==> forall t :: t in Tasks(s.plan) ==> !ShowsDependencies(t, research)
  {
    var order := Flatten(levels);
    ScheduledTasks(Tasks(s.plan), levels);
    if t :| t in order && ShowsDependencies(t, research) {
      var n :| 0 <= n < |order| && order[n] == t;
      var oracle := StalePrompt(levels, research, s, n);
    } else {
      forall oracle: Oracle
        ensures CurrentPrompts(order, research, oracle, s) == Prompts(order, research, s.output)
      {
        PromptsUnaffected(order, research, oracle, s);
      }
    }
  }

  lemma PromptsUnaffected(order: seq<Task>, research: map<Id, string>, oracle: Oracle, s: ExecState)
    requires forall t :: t in order ==> !ShowsDependencies(t, research)
    ensures CurrentPrompts(order, research, oracle, s) == Prompts(order, research, s.output)
  {
    forall n | 0 <= n < |order|
      ensures CurrentPrompts(order, research, oracle, s)[n] == Prompts(order, research, s.output)[n]
    {
      OutputsDoNotShow(order[n], research, RunTasks(order[..n], oracle, s).output, s.output);
    }
  }

  /** The text prepared for a dependency that this pass completes is what the pass recorded for it. */
  ghost predicate TextsAreCurrent(levels: seq<seq<Task>>, oracle: Oracle, s: ExecState) {
    var r := RunTasks(Flatten(levels), oracle, s);
    forall t, d :: t in Tasks(s.plan) && d in t.dependsOn && d in WithStatus(r.plan, Done) ==>
      DependencyText(d, s.output) == DependencyText(d, r.output)
  }

  /** The texts prepared for the dependencies, before the prompt is cut to its budget, are up to date
      for every behaviour of the sandbox exactly when no task of the plan has a dependency. */
  lemma DependencyTextsCurrentIffFlat(levels: seq<seq<Task>>, s: ExecState)
    requires ValidPlan(Tasks(s.plan)) && IsSchedule(Tasks(s.plan), levels)
    ensures (forall oracle: Oracle :: TextsAreCurrent(levels, oracle, s))
            <==> forall t :: t in Tasks(s.plan) ==> t.dependsOn == []
  {
    if t :| t in Tasks(s.plan) && t.dependsOn != [] {
      var oracle := StaleDependency(levels, s, t, t.dependsOn[0]);
    }
  }

  /** The text prepared for any dependency of any task is out of date under some behaviour of the sandbox. */
  lemma StaleDependency(levels: seq<seq<Task>>, s: ExecState, t: Task, d: Id) returns (oracle: Oracle)
    requires ValidPlan(Tasks(s.plan)) && IsSchedule(Tasks(s.plan), levels)
    requires t in Tasks(s.plan) && d in t.dependsOn
    ensures !TextsAreCurrent(levels, oracle, s)
  {
    var stdout := if DependencyText(d, s.output) == "a" then "b" else "a";
    oracle := (x: Id) => Ran(true, stdout, "");
    PassSettlesPlan(levels, oracle, s);
    KnownDependency(Tasks(s.plan), t, d);
    ShownLate(Flatten(levels), oracle, s, RunTasks(Flatten(levels), oracle, s), d);
  }

  lemma KnownDependency(tasks: seq<Task>, t: Task, d: Id)
    requires KnownDependencies(tasks) && t in tasks && d in t.dependsOn
    ensures d in IdsOf(tasks)
  {
    var i :| 0 <= i < |tasks| && tasks[i] == t;
  }

  lemma ShownLate(order: seq<Task>, oracle: Oracle, s: ExecState, r: ExecState, d: Id)
    requires PlanSettled(order, oracle, s, r) && d in IdsOf(Tasks(s.plan))
    requires Succeeds(oracle(d)) && |oracle(d).stdout| == 1 && DependencyText(d, s.output) != oracle(d).stdout
    ensures d in WithStatus(r.plan, Done) && DependencyText(d, s.output) != DependencyText(d, r.output)
  {
    assert RecordedAt(oracle, s, r, d);
  }
}
