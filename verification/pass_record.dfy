/** What an executor pass leaves behind, task by task, told from the outcomes' own constructors. */
module PassRecord {
  import opened Graphs
  import opened Options
  import opened Sequences
  import opened TaskPlan
  import opened Researcher
  import opened Scheduling
  import opened Executor
  import I = Invoke

  /** The sandbox ran the task's code and reported success. */
  predicate RanWell(o: TaskOutcome) {
    match o
    case AgentFailure(_) => false
    case NoCode => false
    case Ran(success, _, _) => success
  }

  /** head is the first five hundred characters of text. */
  predicate IsHead(head: string, text: string) {
    head <= text && |head| == if |text| < 500 then |text| else 500
  }

  /** line is what the pass logs for a task x that did not succeed. */
  ghost predicate IsErrorLine(x: Id, o: TaskOutcome, line: string) {
    match o
    case AgentFailure(MalformedJson(detail)) =>
      IsHead(line,
             "executor: malformed JSON response \U{2014} " + detail
             + "\nCheck backend/prompts/{self.name}.md: 'Respond ONLY with valid JSON' must be the final instruction.")
    case AgentFailure(Exhausted(limit, last)) =>
      IsHead(line, "executor: all " + Digits(limit) + " retries exhausted \U{2014} " + if last.Some? then last.value else "None")
    case NoCode => line == "executor task " + x + ": LLM returned no code"
    case Ran(success, _, stderr) =>
      !success && exists head :: IsHead(head, stderr) && line == "executor task " + x + ": " + head
  }

  /** What the pass did to the task record and the output of one task. */
  ghost predicate Recorded(before: Entry, after: Entry, o: TaskOutcome, given: map<Id, string>, left: map<Id, string>) {
    var x := before.task.id;
    && after.task == before.task
    && if RanWell(o) then after.status == Done && x in left && left[x] == o.stdout
       else after.status == Failed && (x in left <==> x in given) && (x in given ==> left[x] == given[x])
  }

  /** How many of the first n tasks did not succeed. */
  function FailuresIn(order: seq<Task>, oracle: Oracle, n: nat): nat
    requires n <= |order|
  {
    if n == 0 then 0 else FailuresIn(order, oracle, n - 1) + if RanWell(oracle(order[n - 1].id)) then 0 else 1
  }

  lemma HeadOfText(text: string)
    ensures IsHead(SliceTo(text, 500), text)
  {
  }

  lemma LineIsErrorLine(x: Id, o: TaskOutcome)
    requires !RanWell(o)
    ensures IsErrorLine(x, o, ErrorLine(x, o))
  {
    match o
    case AgentFailure(MalformedJson(detail)) => MalformedLine(x, detail);
    case AgentFailure(Exhausted(limit, last)) => ExhaustedLine(x, limit, last);
    case NoCode =>
    case Ran(_, _, stderr) => HeadOfText(stderr);
  }

  lemma MalformedLine(x: Id, detail: string)
    ensures IsErrorLine(x, AgentFailure(I.MalformedJson(detail)), ErrorLine(x, AgentFailure(I.MalformedJson(detail))))
  {
    HeadOfText(I.ErrorText("executor", I.MalformedJson(detail)));
    ExecutorPrefix();
  }

  lemma ExecutorPrefix()
    ensures "executor" + ": malformed JSON response \U{2014} " == "executor: malformed JSON response \U{2014} "
  {
  }

  lemma ExhaustedLine(x: Id, limit: nat, last: Option<string>)
    ensures IsErrorLine(x, AgentFailure(I.Exhausted(limit, last)), ErrorLine(x, AgentFailure(I.Exhausted(limit, last))))
  {
    HeadOfText(I.ErrorText("executor", I.Exhausted(limit, last)));
    assert "executor" + ": all " == "executor: all ";
  }

  /** The lines of the first n tasks, counted and found. */
  lemma {:induction false} LinesOfPrefix(order: seq<Task>, oracle: Oracle, n: nat)
    requires n <= |order|
    ensures |ErrorLines(order[..n], oracle)| == FailuresIn(order, oracle, n)
  {
    if n == 0 {
    } else {
      LinesOfPrefix(order, oracle, n - 1);
      assert order[..n][..n - 1] == order[..n - 1];
    }
  }

  lemma {:induction false} LineOfTask(order: seq<Task>, oracle: Oracle, n: nat)
    requires n < |order| && !RanWell(oracle(order[n].id))
    ensures FailuresIn(order, oracle, n) < |ErrorLines(order, oracle)|
    ensures ErrorLines(order, oracle)[FailuresIn(order, oracle, n)] == ErrorLine(order[n].id, oracle(order[n].id))
  {
    var last := |order| - 1;
    LinesWithLast(order, oracle);
    if n == last {
      LinesOfPrefix(order, oracle, n);
    } else {
      SameFailures(order, oracle, last, n);
      LineOfTask(order[..last], oracle, n);
    }
  }

  lemma LinesWithLast(order: seq<Task>, oracle: Oracle)
    requires order != []
    ensures var x := order[|order| - 1].id;
            ErrorLines(order, oracle)
            == ErrorLines(order[..|order| - 1], oracle) + if RanWell(oracle(x)) then [] else [ErrorLine(x, oracle(x))]
  {
  }

  lemma {:induction false} SameFailures(order: seq<Task>, oracle: Oracle, m: nat, n: nat)
    requires n <= m <= |order|
    ensures FailuresIn(order[..m], oracle, n) == FailuresIn(order, oracle, n)
  {
    if n == 0 {
    } else {
      SameFailures(order, oracle, m, n - 1);
    }
  }

  lemma RecordedByPass(plan: seq<Entry>, i: nat, oracle: Oracle, s: ExecState, r: ExecState, order: seq<Task>)
    requires PlanSettled(order, oracle, s, r) && s.plan == plan && i < |plan|
    ensures |r.plan| == |plan| && Recorded(plan[i], r.plan[i], oracle(plan[i].task.id), s.output, r.output)
  {
    var x := plan[i].task.id;
    assert Tasks(r.plan)[i] == Tasks(plan)[i] && |Tasks(r.plan)| == |Tasks(plan)|;
    assert r.plan[i].task == plan[i].task;
    assert RecordedAt(oracle, s, r, x);
    assert IdsOf(Tasks(s.plan))[i] == x;
  }

  /** After a pass over a valid plan, whatever the models and the sandbox did, a task is done exactly if
      its code ran and succeeded, and its output is then what it printed; any other task is failed and
      its output entry is as it was; the entries of other ids are as they were. The log has grown by
      one line for each failed task, in schedule order, with the text of its failure. */
  lemma {:induction false} PassOutcomes(levels: seq<seq<Task>>, oracle: Oracle, s: ExecState)
    requires ValidPlan(Tasks(s.plan)) && IsSchedule(Tasks(s.plan), levels)
    ensures var r, order := RunTasks(Flatten(levels), oracle, s), Flatten(levels);
            && |r.plan| == |s.plan|
            && (forall i :: 0 <= i < |s.plan| ==>
                  Recorded(s.plan[i], r.plan[i], oracle(s.plan[i].task.id), s.output, r.output))
            && (forall x :: x !in IdsOf(Tasks(s.plan)) ==>
                  (x in r.output <==> x in s.output) && (x in s.output ==> r.output[x] == s.output[x]))
            && s.log <= r.log && |r.log| == |s.log| + FailuresIn(order, oracle, |order|)
            && forall n :: 0 <= n < |order| ==> LineLogged(order, oracle, s.log, r.log, n)
  {
    var order := Flatten(levels);
    var r := RunTasks(order, oracle, s);
    PassSettlesPlan(levels, oracle, s);
    assert Tasks(r.plan) == Tasks(s.plan);
    assert |Tasks(r.plan)| == |Tasks(s.plan)|;
    forall i | 0 <= i < |s.plan|
      ensures Recorded(s.plan[i], r.plan[i], oracle(s.plan[i].task.id), s.output, r.output)
    {
      RecordedByPass(s.plan, i, oracle, s, r, order);
    }
    forall x | x !in IdsOf(Tasks(s.plan))
      ensures (x in r.output <==> x in s.output) && (x in s.output ==> r.output[x] == s.output[x])
    {
      assert RecordedAt(oracle, s, r, x);
    }
    LogOfPass(order, oracle, s.log, r.log);
  }

  /** If the task at n failed, its line stands after those of the failed tasks before it. */
  ghost predicate LineLogged(order: seq<Task>, oracle: Oracle, before: seq<string>, after: seq<string>, n: int)
    requires 0 <= n < |order|
  {
    !RanWell(oracle(order[n].id)) ==>
      && |before| + FailuresIn(order, oracle, n) < |after|
      && IsErrorLine(order[n].id, oracle(order[n].id), after[|before| + FailuresIn(order, oracle, n)])
  }

  lemma LogOfPass(order: seq<Task>, oracle: Oracle, before: seq<string>, after: seq<string>)
    requires after == before + ErrorLines(order, oracle)
    ensures before <= after && |after| == |before| + FailuresIn(order, oracle, |order|)
    ensures forall n :: 0 <= n < |order| ==> LineLogged(order, oracle, before, after, n)
  {
    assert order[..|order|] == order;
    LinesOfPrefix(order, oracle, |order|);
    forall n | 0 <= n < |order|
      ensures LineLogged(order, oracle, before, after, n)
    {
      if !RanWell(oracle(order[n].id)) {
        LineOfTask(order, oracle, n);
        LineIsErrorLine(order[n].id, oracle(order[n].id));
      }
    }
  }
}
