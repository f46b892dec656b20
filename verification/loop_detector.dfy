/** backend/core/loop_detector.py: the hash of a plan and the set of hashes of one session. */
module LoopDetector {
  import opened Options
  import opened Graphs
  import opened Sequences
  import opened TaskPlan
  import Context

  /** What the planner node learns about a plan. An error of the detector is absorbed. */
  datatype LoopVerdict = NewPlan | SeenBefore | DetectorError

  /** What the hash keeps of a task. */
  datatype TaskKey = TaskKey(id: Id, description: string, dependsOn: seq<Id>, assignedModel: Model)

  /** The hash of a plan, as the value it is computed from: JSON and SHA-256 are taken to be injective. */
  type PlanKey = seq<TaskKey>

  function KeyOf(t: Task): TaskKey {
    TaskKey(t.id, t.description, Context.Sort(t.dependsOn), t.assignedModel)
  }

  /** _plan_hash: sorted() compares dictionaries as soon as there are two, which raises. */
  function PlanHash(tasks: seq<Task>): Option<PlanKey> {
    if |tasks| > 1 then None else Some(Map(KeyOf, tasks))
  }

  /** check, with a Redis that works: the verdict and the recorded set afterwards. */
  function Check(recorded: set<PlanKey>, tasks: seq<Task>): (LoopVerdict, set<PlanKey>) {
    match PlanHash(tasks)
    case None => (DetectorError, recorded)
    case Some(key) => (if key in recorded then SeenBefore else NewPlan, recorded + {key})
  }

  /** Plans that a valid one-task plan is confused with: the tool hints do not enter the hash. */
  predicate Alike(p: seq<Task>, q: seq<Task>) {
    && |p| == 1 && |q| == 1
    && p[0].id == q[0].id && p[0].description == q[0].description && p[0].assignedModel == q[0].assignedModel
  }

  /** The only valid dependency list of a task alone is the empty one. */
  lemma AloneMeansFree(tasks: seq<Task>)
    requires ValidPlan(tasks) && |tasks| == 1
    ensures tasks[0].dependsOn == []
  {
    if tasks[0].dependsOn != [] {
      var d := tasks[0].dependsOn[0];
      assert d in tasks[0].dependsOn;
      assert d in IdsOf(tasks) && IdsOf(tasks) == [tasks[0].id];
      DependenciesOfTask(tasks, 0);
      assert IsCycle(PlanGraph(tasks), [d, d]);
      assert false;
    }
  }

  /** Two valid plans have the same hash exactly when both are a single task that agree on the id,
      the description and the model. */
  lemma SameHashIff(p: seq<Task>, q: seq<Task>)
    requires ValidPlan(p) && ValidPlan(q) && p != [] && q != []
    ensures PlanHash(p).Some? && PlanHash(p) == PlanHash(q) <==> Alike(p, q)
  {
    if |p| == 1 && |q| == 1 {
      AloneMeansFree(p);
      AloneMeansFree(q);
      assert Map(KeyOf, p) == [KeyOf(p[0])] && Map(KeyOf, q) == [KeyOf(q[0])];
      assert KeyOf(p[0]) == KeyOf(q[0]) <==> Alike(p, q);
    }
  }
}
