/** The plan entities of backend/core/state.py and the dependency graph a plan denotes. */
module TaskPlan {
  import opened Graphs
  import opened Sequences

  datatype Model = Reasoning | Code | Extract

  datatype Status = Pending | InProgress | Done | Failed

  /** The fields of a TaskNode that no agent changes after validation. */
  datatype Task = Task(
    id: Id,
    description: string,
    dependsOn: seq<Id>,
    toolHints: seq<string>,
    assignedModel: Model
  )

  /** A TaskNode by value: its fixed fields and its current status. */
  datatype Entry = Entry(task: Task, status: Status)

  /** A TaskNode as the executor sees it: a shared record whose status is overwritten in place. */
  class TaskNode {
    const task: Task
    var status: Status

    constructor (task: Task, status: Status)
      ensures this.task == task && this.status == status
    {
      this.task := task;
      this.status := status;
    }
  }

  function IdsOf(tasks: seq<Task>): (r: seq<Id>) {
    seq(|tasks|, i requires 0 <= i < |tasks| => tasks[i].id)
  }

  predicate UniqueIds(tasks: seq<Task>) {
    Distinct(IdsOf(tasks))
  }

  predicate KnownDependencies(tasks: seq<Task>) {
    forall i, d :: 0 <= i < |tasks| && d in tasks[i].dependsOn ==> d in IdsOf(tasks)
  }

  /** The ids x depends on, over every task that carries the id x. */
  function DependenciesOf(tasks: seq<Task>, x: Id): set<Id> {
    set i, d | 0 <= i < |tasks| && tasks[i].id == x && d in tasks[i].dependsOn :: d
  }

  function PlanGraph(tasks: seq<Task>): Graph {
    map x | x in IdsOf(tasks) :: DependenciesOf(tasks, x)
  }

  /** What a plan must satisfy for the pipeline to schedule all of it. */
  ghost predicate ValidPlan(tasks: seq<Task>) {
    UniqueIds(tasks) && KnownDependencies(tasks) && Acyclic(PlanGraph(tasks))
  }

  /** The Python dict {t["id"]: t for t in tasks}: a later task replaces an earlier one. */
  function ById(tasks: seq<Task>): (r: map<Id, Task>)
    ensures r.Keys == set x | x in IdsOf(tasks)
    ensures forall x :: x in r ==> r[x] in tasks && r[x].id == x
  {
    if tasks == [] then
      map[]
    else
      var n := |tasks| - 1;
      assert tasks == tasks[..n] + [tasks[n]];
      assert IdsOf(tasks) == IdsOf(tasks[..n]) + [tasks[n].id];
      ById(tasks[..n])[tasks[n].id := tasks[n]]
  }

  lemma UniqueIndex(tasks: seq<Task>, i: nat, j: nat)
    requires UniqueIds(tasks) && i < |tasks| && j < |tasks| && tasks[i].id == tasks[j].id
    ensures i == j
  {
    assert IdsOf(tasks)[i] == IdsOf(tasks)[j];
  }

  lemma UniquePrefix(tasks: seq<Task>, n: nat)
    requires UniqueIds(tasks) && n <= |tasks|
    ensures IdsOf(tasks[..n]) == IdsOf(tasks)[..n] && UniqueIds(tasks[..n])
  {
  }

  /** With unique ids, an id does not come back later in the list. */
  lemma IdNotBefore(tasks: seq<Task>, n: nat)
    requires UniqueIds(tasks) && n < |tasks|
    ensures tasks[n].id !in IdsOf(tasks[..n])
  {
    if i :| 0 <= i < n && IdsOf(tasks[..n])[i] == tasks[n].id {
      UniqueIndex(tasks, i, n);
    }
  }

  lemma {:induction false} ByIdFindsTask(tasks: seq<Task>, i: nat)
    requires UniqueIds(tasks) && i < |tasks|
    ensures tasks[i].id in ById(tasks) && ById(tasks)[tasks[i].id] == tasks[i]
  {
    assert IdsOf(tasks)[i] == tasks[i].id;
    var t := ById(tasks)[tasks[i].id];
    var j :| 0 <= j < |tasks| && tasks[j] == t;
    UniqueIndex(tasks, i, j);
  }

  /** With unique ids the graph reads a task's own dependency list. */
  lemma DependenciesOfTask(tasks: seq<Task>, i: nat)
    requires UniqueIds(tasks) && i < |tasks|
    ensures tasks[i].id in PlanGraph(tasks)
    ensures PlanGraph(tasks)[tasks[i].id] == set d | d in tasks[i].dependsOn
  {
    assert IdsOf(tasks)[i] == tasks[i].id;
    forall d | d in DependenciesOf(tasks, tasks[i].id)
      ensures d in tasks[i].dependsOn
    {
      var j :| 0 <= j < |tasks| && tasks[j].id == tasks[i].id && d in tasks[j].dependsOn;
      UniqueIndex(tasks, i, j);
    }
  }

  lemma SameIds(a: seq<Task>, b: seq<Task>)
    requires multiset(a) == multiset(b)
    ensures forall x :: x in IdsOf(a) <==> x in IdsOf(b)
  {
    forall x
      ensures x in IdsOf(a) <==> x in IdsOf(b)
    {
      if i :| 0 <= i < |a| && IdsOf(a)[i] == x {
        assert a[i] in multiset(b);
        var j :| 0 <= j < |b| && b[j] == a[i];
        assert IdsOf(b)[j] == x;
      }
      if i :| 0 <= i < |b| && IdsOf(b)[i] == x {
        assert b[i] in multiset(a);
        var j :| 0 <= j < |a| && a[j] == b[i];
        assert IdsOf(a)[j] == x;
      }
    }
  }

  lemma KnownMeansClosed(tasks: seq<Task>)
    requires KnownDependencies(tasks)
    ensures Closed(PlanGraph(tasks))
  {
  }
}
