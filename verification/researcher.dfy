/** backend/agents/researcher.py: Kahn's algorithm by levels, and the research pass. */
module Researcher {
  import opened Graphs
  import opened Sequences
  import opened TaskPlan

  /** One occurrence of dep in the depends_on list of task. */
  datatype Edge = Edge(task: Id, dep: Id)

  /** Every depends_on occurrence, in the order the counting loops meet them. */
  function Edges(tasks: seq<Task>): seq<Edge> {
    if tasks == [] then [] else Edges(tasks[..|tasks| - 1]) + TaskEdges(tasks[|tasks| - 1])
  }

  function TaskEdges(t: Task): seq<Edge> {
    seq(|t.dependsOn|, i requires 0 <= i < |t.dependsOn| => Edge(t.id, t.dependsOn[i]))
  }

  /** How many dependency occurrences of x lie outside P. */
  ghost function Waiting(es: seq<Edge>, x: Id, P: set<Id>): nat {
    if es == [] then
      0
    else
      var e := es[|es| - 1];
      Waiting(es[..|es| - 1], x, P) + if e.task == x && e.dep !in P then 1 else 0
  }

  /** The tasks that list d, once per occurrence. */
  ghost function DependentsOf(es: seq<Edge>, d: Id): seq<Id> {
    if es == [] then
      []
    else
      var e := es[|es| - 1];
      DependentsOf(es[..|es| - 1], d) + if e.dep == d then [e.task] else []
  }

  ghost function Count(s: seq<Id>, x: Id): nat {
    multiset(s)[x]
  }

  /** The ids of all levels, in the order the executor visits them. */
  function Order(levels: seq<seq<Task>>): seq<Id> {
    IdsOf(Flatten(levels))
  }

  ghost predicate InLevel(levels: seq<seq<Task>>, k: nat, x: Id) {
    k < |levels| && x in IdsOf(levels[k])
  }

  ghost predicate Emitted(levels: seq<seq<Task>>, x: Id) {
    x in Order(levels)
  }

  /** The nodes of g whose dependencies all lie in P. */
  function Satisfied(g: Graph, P: set<Id>): set<Id> {
    set x | x in g && g[x] <= P
  }

  /** s without the ids outside ids. */
  function Filter(s: seq<Id>, ids: set<Id>): seq<Id> {
    if s == [] then
      []
    else
      Filter(s[..|s| - 1], ids) + if s[|s| - 1] in ids then [s[|s| - 1]] else []
  }

  /** The elements of ids, in the order of their last occurrences in s. */
  function Hits(s: seq<Id>, ids: set<Id>): seq<Id> {
    if s == [] then [] else (if s[0] in ids && s[0] !in s[1..] then [s[0]] else []) + Hits(s[1..], ids)
  }

  /** The order in which a level releases the next one: by the node that releases a task, then by
      the task's last place among that node's dependents. */
  ghost function NextLevel(g: Graph, es: seq<Edge>, before: set<Id>, level: seq<Id>): seq<Id> {
    if level == [] then
      []
    else
      var n := |level| - 1;
      NextLevel(g, es, before, level[..n]) + Hits(DependentsOf(es, level[n]), Satisfied(g, before + Elements(level)))
  }

  ghost function LevelIds(g: Graph, es: seq<Edge>, first: seq<Id>, k: nat): seq<Id> {
    if k == 0 then first else NextLevel(g, es, Settled(g, k - 1), LevelIds(g, es, first, k - 1))
  }

  /** The ids without dependencies, in the order of the plan. */
  function Roots(tasks: seq<Task>): seq<Id> {
    Filter(FirstOccurrences(IdsOf(tasks)), Satisfied(PlanGraph(tasks), {}))
  }

  /** levels[k] holds the tasks of layer k, each once and in the order of their release, and no
      layer remains after the last. */
  ghost predicate IsSchedule(tasks: seq<Task>, levels: seq<seq<Task>>) {
    && AreLayers(PlanGraph(tasks), ById(tasks), levels)
    && InOrder(PlanGraph(tasks), Edges(tasks), Roots(tasks), levels)
    && Stable(PlanGraph(tasks), |levels|)
  }

  ghost predicate InOrder(g: Graph, es: seq<Edge>, first: seq<Id>, levels: seq<seq<Task>>) {
    forall k {:trigger levels[k]} :: 0 <= k < |levels| ==> IdsOf(levels[k]) == LevelIds(g, es, first, k)
  }

  ghost predicate AreLayers(g: Graph, byId: map<Id, Task>, levels: seq<seq<Task>>) {
    forall k {:trigger levels[k]} :: 0 <= k < |levels| ==> IsLevel(byId, levels[k], Layer(g, k))
  }

  ghost predicate IsLevel(byId: map<Id, Task>, level: seq<Task>, ids: set<Id>) {
    && level != []
    && IsListing(IdsOf(level), ids)
    && forall t :: t in level ==> t.id in byId && t == byId[t.id]
  }

  /** s lists the elements of ids, each once. */
  ghost predicate IsListing(s: seq<Id>, ids: set<Id>) {
    Distinct(s) && forall x :: x in s <==> x in ids
  }

  lemma {:induction false} WaitingDrops(es: seq<Edge>, x: Id, P: set<Id>, d: Id)
    requires d !in P
    ensures Waiting(es, x, P) == Waiting(es, x, P + {d}) + Count(DependentsOf(es, d), x)
  {
    if es == [] {
    } else {
      WaitingDrops(es[..|es| - 1], x, P, d);
    }
  }

  lemma {:induction false} WaitingZero(es: seq<Edge>, x: Id, P: set<Id>)
    ensures Waiting(es, x, P) == 0 <==> forall e :: e in es && e.task == x ==> e.dep in P
  {
    if es == [] {
    } else {
      var n := |es| - 1;
      WaitingZero(es[..n], x, P);
      assert es == es[..n] + [es[n]];
    }
  }

  lemma {:induction false} DependentsAreEdges(es: seq<Edge>, d: Id)
    ensures forall x :: x in DependentsOf(es, d) ==> Edge(x, d) in es
  {
    if es == [] {
    } else {
      var n := |es| - 1;
      DependentsAreEdges(es[..n], d);
      assert es == es[..n] + [es[n]];
    }
  }

  lemma {:induction false} EdgesAreDependencies(tasks: seq<Task>, e: Edge)
    ensures e in Edges(tasks) <==> exists i :: 0 <= i < |tasks| && tasks[i].id == e.task && e.dep in tasks[i].dependsOn
  {
    if tasks == [] {
    } else {
      var n := |tasks| - 1;
      EdgesAreDependencies(tasks[..n], e);
      var own := TaskEdges(tasks[n]);
      if tasks[n].id == e.task && e.dep in tasks[n].dependsOn {
        var j :| 0 <= j < |tasks[n].dependsOn| && tasks[n].dependsOn[j] == e.dep;
        assert own[j] == e;
      }
      if i :| 0 <= i < n && tasks[i].id == e.task && e.dep in tasks[i].dependsOn {
        assert tasks[..n][i] == tasks[i];
      }
    }
  }

  /** es is a list of the edges of g, with repetitions. */
  ghost predicate Describes(es: seq<Edge>, g: Graph) {
    && (forall e :: e in es ==> e.task in g && e.dep in g[e.task])
    && (forall x, d :: x in g && d in g[x] ==> Edge(x, d) in es)
  }

  lemma EdgesDescribePlan(tasks: seq<Task>)
    ensures Describes(Edges(tasks), PlanGraph(tasks))
  {
    var g := PlanGraph(tasks);
    forall e | e in Edges(tasks)
      ensures e.task in g && e.dep in g[e.task]
    {
      EdgesAreDependencies(tasks, e);
      var i :| 0 <= i < |tasks| && tasks[i].id == e.task && e.dep in tasks[i].dependsOn;
      assert IdsOf(tasks)[i] == e.task;
    }
    forall x, d | x in g && d in g[x]
      ensures Edge(x, d) in Edges(tasks)
    {
      EdgesAreDependencies(tasks, Edge(x, d));
    }
  }

  /** A counter stands at zero exactly when the graph has every dependency in P. */
  lemma ZeroMeansSatisfied(g: Graph, es: seq<Edge>, x: Id, P: set<Id>)
    requires Describes(es, g) && x in g
    ensures Waiting(es, x, P) == 0 <==> g[x] <= P
  {
    WaitingZero(es, x, P);
    if g[x] <= P {
    } else {
      var d :| d in g[x] && d !in P;
      assert Edge(x, d) in es;
    }
  }

  function Get(m: map<Id, seq<Id>>, x: Id): seq<Id> {
    if x in m then m[x] else []
  }

  /** The counter of x is the number of occurrences whose dependency is not processed yet,
      plus the decrements still to come from the node now being processed. */
  ghost predicate CounterAt(es: seq<Edge>, inDegree: map<Id, int>, P: set<Id>, todo: seq<Id>, x: Id) {
    x in inDegree ==> inDegree[x] == Waiting(es, x, P) + Count(todo, x)
  }

  ghost predicate Counters(es: seq<Edge>, inDegree: map<Id, int>, P: set<Id>, todo: seq<Id>) {
    forall x :: CounterAt(es, inDegree, P, todo, x)
  }

  ghost predicate ListAt(es: seq<Edge>, dependents: map<Id, seq<Id>>, d: Id) {
    Get(dependents, d) == DependentsOf(es, d)
  }

  ghost predicate Lists(es: seq<Edge>, dependents: map<Id, seq<Id>>) {
    forall d :: ListAt(es, dependents, d)
  }

  /** inDegree and dependents record the occurrences es. */
  ghost predicate Counted(ids: set<Id>, es: seq<Edge>, inDegree: map<Id, int>, dependents: map<Id, seq<Id>>) {
    inDegree.Keys == ids && Counters(es, inDegree, {}, []) && Lists(es, dependents)
  }

  lemma WaitingSnoc(es: seq<Edge>, e: Edge, x: Id, P: set<Id>)
    ensures Waiting(es + [e], x, P) == Waiting(es, x, P) + if e.task == x && e.dep !in P then 1 else 0
  {
    assert (es + [e])[..|es|] == es;
  }

  lemma DependentsSnoc(es: seq<Edge>, e: Edge, d: Id)
    ensures DependentsOf(es + [e], d) == DependentsOf(es, d) + if e.dep == d then [e.task] else []
  {
    assert (es + [e])[..|es|] == es;
  }

  lemma CountOne(ids: set<Id>, es: seq<Edge>, inDegree: map<Id, int>, dependents: map<Id, seq<Id>>, e: Edge)
    requires Counted(ids, es, inDegree, dependents) && e.task in ids
    ensures Counted(ids, es + [e], inDegree[e.task := inDegree[e.task] + 1],
                    dependents[e.dep := Get(dependents, e.dep) + [e.task]])
  {
    var inDegree' := inDegree[e.task := inDegree[e.task] + 1];
    forall x
      ensures CounterAt(es + [e], inDegree', {}, [], x)
    {
      assert CounterAt(es, inDegree, {}, [], x);
      WaitingSnoc(es, e, x, {});
    }
    var dependents' := dependents[e.dep := Get(dependents, e.dep) + [e.task]];
    forall d
      ensures ListAt(es + [e], dependents', d)
    {
      assert ListAt(es, dependents, d);
      DependentsSnoc(es, e, d);
    }
  }

  /** The inner counting loop: one task's depends_on list, duplicates included. */
  method CountTask(ghost ids: set<Id>, ghost es: seq<Edge>, task: Task, counters: map<Id, int>, lists: map<Id, seq<Id>>)
    returns (inDegree: map<Id, int>, dependents: map<Id, seq<Id>>)
    requires Counted(ids, es, counters, lists) && task.id in ids
    ensures Counted(ids, es + TaskEdges(task), inDegree, dependents)
  {
    inDegree, dependents := counters, lists;
    ghost var seen := es;
    for j := 0 to |task.dependsOn|
      invariant seen == es + TaskEdges(task)[..j]
      invariant Counted(ids, seen, inDegree, dependents)
    {
      ghost var e := TaskEdges(task)[j];
      CountOne(ids, seen, inDegree, dependents, e);
      var dep := task.dependsOn[j];
      inDegree := inDegree[task.id := inDegree[task.id] + 1];
      dependents := dependents[dep := Get(dependents, dep) + [task.id]];
      seen := seen + [e];
    }
    assert TaskEdges(task)[..|task.dependsOn|] == TaskEdges(task);
    assert seen == es + TaskEdges(task);
  }

  /** The outer counting loop of the sort. */
  method CountDependencies(tasks: seq<Task>) returns (inDegree: map<Id, int>, dependents: map<Id, seq<Id>>)
    ensures Counted(PlanGraph(tasks).Keys, Edges(tasks), inDegree, dependents)
  {
    inDegree := map x | x in IdsOf(tasks) :: 0;
    dependents := map[];
    for i := 0 to |tasks|
      invariant Counted(PlanGraph(tasks).Keys, Edges(tasks[..i]), inDegree, dependents)
    {
      assert IdsOf(tasks)[i] == tasks[i].id;
      assert tasks[..i + 1][..i] == tasks[..i];
      inDegree, dependents := CountTask(PlanGraph(tasks).Keys, Edges(tasks[..i]), tasks[i], inDegree, dependents);
    }
    assert tasks[..|tasks|] == tasks;
  }

  /** queue lists the nodes outside settled whose counter has reached zero. */
  ghost predicate Released(queue: seq<Id>, inDegree: map<Id, int>, settled: set<Id>) {
    Distinct(queue) && forall x :: x in queue <==> x in inDegree && x !in settled && inDegree[x] == 0
  }

  lemma DecrementOne(es: seq<Edge>, inDegree: map<Id, int>, P: set<Id>, x: Id, rest: seq<Id>,
                     queue: seq<Id>, settled: set<Id>)
    requires x in inDegree && x !in settled
    requires Counters(es, inDegree, P, [x] + rest) && Released(queue, inDegree, settled)
    ensures inDegree[x] > 0
    ensures Counters(es, inDegree[x := inDegree[x] - 1], P, rest)
    ensures Released(if inDegree[x] == 1 then queue + [x] else queue, inDegree[x := inDegree[x] - 1], settled)
  {
    var inDegree' := inDegree[x := inDegree[x] - 1];
    forall y
      ensures CounterAt(es, inDegree', P, rest, y)
    {
      assert CounterAt(es, inDegree, P, [x] + rest, y);
      assert Count([x] + rest, y) == Count(rest, y) + if x == y then 1 else 0;
    }
    assert CounterAt(es, inDegree, P, [x] + rest, x);
  }

  /** Processing tid turns the occurrences of tid from waiting into decrements to come. */
  lemma BeginRelease(es: seq<Edge>, inDegree: map<Id, int>, P: set<Id>, tid: Id)
    requires tid !in P && Counters(es, inDegree, P, [])
    ensures Counters(es, inDegree, P + {tid}, DependentsOf(es, tid))
  {
    forall x
      ensures CounterAt(es, inDegree, P + {tid}, DependentsOf(es, tid), x)
    {
      assert CounterAt(es, inDegree, P, [], x);
      WaitingDrops(es, x, P, tid);
      assert Count([], x) == 0;
    }
  }

  lemma NoneLeft(es: seq<Edge>, inDegree: map<Id, int>, P: set<Id>, x: Id, rest: seq<Id>)
    requires x in inDegree && Counters(es, inDegree, P, rest)
    ensures inDegree[x] == 0 <==> Waiting(es, x, P) == 0 && x !in rest
  {
    assert CounterAt(es, inDegree, P, rest, x);
    assert x in rest <==> x in multiset(rest);
  }

  lemma HitsStep(s: seq<Id>, j: nat, ids: set<Id>, queue: seq<Id>)
    requires j < |s|
    ensures queue + Hits(s[j..], ids)
            == (if s[j] in ids && s[j] !in s[j + 1..] then queue + [s[j]] else queue) + Hits(s[j + 1..], ids)
  {
    assert s[j..][1..] == s[j + 1..];
  }

  /** The innermost loop: one finished node decrements its dependents and releases those at zero. */
  method ReleaseDependents(ghost es: seq<Edge>, ghost P: set<Id>, ghost settled: set<Id>, ghost tid: Id,
                           ghost done: set<Id>, dependents: seq<Id>, counters: map<Id, int>, ready: seq<Id>)
    returns (inDegree: map<Id, int>, queue: seq<Id>)
    requires dependents == DependentsOf(es, tid) && tid !in P
    requires forall x :: x in dependents ==> x in counters && x !in settled
    requires forall x :: x in dependents ==> (x in done <==> Waiting(es, x, P + {tid}) == 0)
    requires Counters(es, counters, P, []) && Released(ready, counters, settled)
    ensures inDegree.Keys == counters.Keys
    ensures Counters(es, inDegree, P + {tid}, []) && Released(queue, inDegree, settled)
    ensures queue == ready + Hits(dependents, done)
  {
    inDegree, queue := counters, ready;
    BeginRelease(es, inDegree, P, tid);
    for j := 0 to |dependents|
      invariant inDegree.Keys == counters.Keys
      invariant Counters(es, inDegree, P + {tid}, dependents[j..])
      invariant Released(queue, inDegree, settled)
      invariant queue + Hits(dependents[j..], done) == ready + Hits(dependents, done)
    {
      var x := dependents[j];
      assert dependents[j..] == [x] + dependents[j + 1..];
      DecrementOne(es, inDegree, P + {tid}, x, dependents[j + 1..], queue, settled);
      inDegree := inDegree[x := inDegree[x] - 1];
      NoneLeft(es, inDegree, P + {tid}, x, dependents[j + 1..]);
      HitsStep(dependents, j, done, queue);
      if inDegree[x] == 0 {
        queue := queue + [x];
      }
    }
  }

  /** Where the sort stands after k levels: counters and queue agree with the layers of the graph. */
  ghost predicate InStep(g: Graph, es: seq<Edge>, k: nat, inDegree: map<Id, int>, queue: seq<Id>) {
    && inDegree.Keys == g.Keys
    && Counters(es, inDegree, Settled(g, k), [])
    && Released(queue, inDegree, Settled(g, k))
  }

  /** The middle loop: every node of one level releases its dependents. */
  method ProcessLevel(ghost g: Graph, ghost es: seq<Edge>, ghost k: nat, level: seq<Id>,
                      dependents: map<Id, seq<Id>>, counters: map<Id, int>)
    returns (inDegree: map<Id, int>, queue: seq<Id>)
    requires Describes(es, g) && InStep(g, es, k, counters, level) && Lists(es, dependents)
    ensures InStep(g, es, k + 1, inDegree, queue)
    ensures queue == NextLevel(g, es, Settled(g, k), level)
  {
    LevelSettles(g, es, k, level, counters);
    ghost var before, after := Settled(g, k), Settled(g, k + 1);
    forall i | 0 <= i < |level|
      ensures level[i] !in before
      ensures forall x :: x in DependentsOf(es, level[i]) ==> x in g && x !in after
    {
      DependentsUnsettled(g, es, k, level[i]);
    }
    inDegree, queue := ProcessNodes(g, es, before, after, level, dependents, counters);
  }

  method ProcessNodes(ghost g: Graph, ghost es: seq<Edge>, ghost before: set<Id>, ghost after: set<Id>, level: seq<Id>,
                      dependents: map<Id, seq<Id>>, counters: map<Id, int>)
    returns (inDegree: map<Id, int>, queue: seq<Id>)
    requires Distinct(level) && Describes(es, g) && Lists(es, dependents) && counters.Keys == g.Keys
    requires Counters(es, counters, before, []) && Released([], counters, after)
    requires after == before + Elements(level)
    requires forall i :: 0 <= i < |level| ==>
      level[i] !in before && forall x :: x in DependentsOf(es, level[i]) ==> x in g && x !in after
    ensures inDegree.Keys == counters.Keys
    ensures Counters(es, inDegree, after, []) && Released(queue, inDegree, after)
    ensures queue == NextLevel(g, es, before, level)
  {
    inDegree, queue := counters, [];
    ghost var P := before;
    for i := 0 to |level|
      invariant P == before + Elements(level[..i])
      invariant inDegree.Keys == counters.Keys
      invariant Counters(es, inDegree, P, [])
      invariant Released(queue, inDegree, after)
      invariant queue == NextLevel(g, es, before, level[..i])
    {
      var tid := level[i];
      assert ListAt(es, dependents, tid);
      NodeSatisfies(g, es, P + {tid}, tid);
      NextLevelSnoc(g, es, before, level, i);
      inDegree, queue := ReleaseDependents(es, P, after, tid, Satisfied(g, P + {tid}), Get(dependents, tid), inDegree, queue);
      P := P + {tid};
    }
    assert level[..|level|] == level;
  }

  lemma NodeSatisfies(g: Graph, es: seq<Edge>, P: set<Id>, tid: Id)
    requires Describes(es, g)
    ensures forall x :: x in DependentsOf(es, tid) ==> (x in Satisfied(g, P) <==> Waiting(es, x, P) == 0)
  {
    forall x | x in DependentsOf(es, tid)
      ensures x in Satisfied(g, P) <==> Waiting(es, x, P) == 0
    {
      DependentsAreEdges(es, tid);
      assert Edge(x, tid) in es;
      ZeroMeansSatisfied(g, es, x, P);
    }
  }

  lemma NextLevelSnoc(g: Graph, es: seq<Edge>, before: set<Id>, level: seq<Id>, i: nat)
    requires i < |level|
    ensures before + Elements(level[..i + 1]) == before + Elements(level[..i]) + {level[i]}
    ensures NextLevel(g, es, before, level[..i + 1])
            == NextLevel(g, es, before, level[..i])
               + Hits(DependentsOf(es, level[i]), Satisfied(g, before + Elements(level[..i]) + {level[i]}))
  {
    assert level[..i + 1][..i] == level[..i];
    assert level[..i + 1] == level[..i] + [level[i]];
    assert before + Elements(level[..i + 1]) == before + Elements(level[..i]) + {level[i]};
  }

  ghost predicate Keyed(g: Graph, byId: map<Id, Task>) {
    g.Keys == byId.Keys && forall x :: x in byId ==> byId[x].id == x
  }

  ghost function Unsettled(g: Graph, k: nat): set<Id> {
    g.Keys - Settled(g, k)
  }

  lemma AddLevel(g: Graph, byId: map<Id, Task>, levels: seq<seq<Task>>, level: seq<Task>)
    requires AreLayers(g, byId, levels) && IsLevel(byId, level, Layer(g, |levels|))
    ensures AreLayers(g, byId, levels + [level])
  {
    forall k | 0 <= k < |levels + [level]|
      ensures IsLevel(byId, (levels + [level])[k], Layer(g, k))
    {
      if k < |levels| {
        assert (levels + [level])[k] == levels[k];
      }
    }
  }

  /** A non-empty queue is one more layer, and taking it leaves fewer nodes unsettled. */
  lemma NextLayer(g: Graph, es: seq<Edge>, byId: map<Id, Task>, levels: seq<seq<Task>>,
                  queue: seq<Id>, inDegree: map<Id, int>)
    requires Keyed(g, byId) && AreLayers(g, byId, levels) && queue != []
    requires Describes(es, g) && InStep(g, es, |levels|, inDegree, queue)
    ensures forall x :: x in queue ==> x in byId
    ensures AreLayers(g, byId, levels + [TasksOf(byId, queue)])
    ensures |Unsettled(g, |levels| + 1)| < |Unsettled(g, |levels|)|
  {
    LevelSettles(g, es, |levels|, queue, inDegree);
    LayerShrinksRest(g, |levels|, queue[0]);
    AddLevel(g, byId, levels, TasksOf(byId, queue));
  }

  lemma NoLayerLeft(g: Graph, es: seq<Edge>, k: nat, inDegree: map<Id, int>)
    requires Describes(es, g) && InStep(g, es, k, inDegree, [])
    ensures Stable(g, k)
  {
    LevelSettles(g, es, k, [], inDegree);
  }

  /** Where the outer loop stands: the levels so far, and the queue in step with them. */
  ghost predicate Peeled(g: Graph, es: seq<Edge>, byId: map<Id, Task>, levels: seq<seq<Task>>,
                         inDegree: map<Id, int>, queue: seq<Id>) {
    AreLayers(g, byId, levels) && InStep(g, es, |levels|, inDegree, queue)
  }

  ghost predicate Ordered(g: Graph, es: seq<Edge>, first: seq<Id>, levels: seq<seq<Task>>, queue: seq<Id>) {
    InOrder(g, es, first, levels) && queue == LevelIds(g, es, first, |levels|)
  }

  lemma AddOrder(g: Graph, es: seq<Edge>, first: seq<Id>, levels: seq<seq<Task>>, level: seq<Task>)
    requires InOrder(g, es, first, levels) && IdsOf(level) == LevelIds(g, es, first, |levels|)
    ensures InOrder(g, es, first, levels + [level])
  {
    forall k | 0 <= k < |levels + [level]|
      ensures IdsOf((levels + [level])[k]) == LevelIds(g, es, first, k)
    {
      if k < |levels| {
        assert (levels + [level])[k] == levels[k];
      }
    }
  }

  lemma OrderNext(g: Graph, es: seq<Edge>, first: seq<Id>, levels: seq<seq<Task>>, level: seq<Task>, queue: seq<Id>)
    requires Ordered(g, es, first, levels, IdsOf(level))
    requires queue == NextLevel(g, es, Settled(g, |levels|), IdsOf(level))
    ensures Ordered(g, es, first, levels + [level], queue)
  {
    AddOrder(g, es, first, levels, level);
  }

  /** One turn of the outer loop. */
  method PeelLevel(ghost g: Graph, ghost es: seq<Edge>, ghost first: seq<Id>, byId: map<Id, Task>,
                   dependents: map<Id, seq<Id>>, levels: seq<seq<Task>>, counters: map<Id, int>, level: seq<Id>)
    returns (levels': seq<seq<Task>>, inDegree: map<Id, int>, queue: seq<Id>)
    requires Keyed(g, byId) && Describes(es, g) && Lists(es, dependents)
    requires Peeled(g, es, byId, levels, counters, level) && Ordered(g, es, first, levels, level) && level != []
    ensures Peeled(g, es, byId, levels', inDegree, queue) && Ordered(g, es, first, levels', queue)
    ensures |Unsettled(g, |levels'|)| < |Unsettled(g, |levels|)|
  {
    NextLayer(g, es, byId, levels, level, counters);
    levels' := levels + [TasksOf(byId, level)];
    inDegree, queue := ProcessLevel(g, es, |levels|, level, dependents, counters);
    OrderNext(g, es, first, levels, TasksOf(byId, level), queue);
  }

  /** The outer loop: one level per round until no node is released. */
  method PeelLevels(ghost g: Graph, ghost es: seq<Edge>, byId: map<Id, Task>,
                    dependents: map<Id, seq<Id>>, counters: map<Id, int>, first: seq<Id>)
    returns (levels: seq<seq<Task>>)
    requires Keyed(g, byId) && Describes(es, g) && Lists(es, dependents)
    requires InStep(g, es, 0, counters, first)
    ensures AreLayers(g, byId, levels) && InOrder(g, es, first, levels) && Stable(g, |levels|)
  {
    var queue, inDegree := first, counters;
    levels := [];
    while queue != []
      invariant Peeled(g, es, byId, levels, inDegree, queue) && Ordered(g, es, first, levels, queue)
      decreases |Unsettled(g, |levels|)|
    {
      levels, inDegree, queue := PeelLevel(g, es, first, byId, dependents, levels, inDegree, queue);
    }
    NoLayerLeft(g, es, |levels|, inDegree);
  }

  /** The main result about the sort: for every list of tasks, whatever its ids and
      dependencies, the levels returned are the layers of its graph, in the order of release. */
  method TopologicalSort(tasks: seq<Task>) returns (levels: seq<seq<Task>>)
    ensures IsSchedule(tasks, levels)
  {
    var inDegree, dependents := CountDependencies(tasks);
    var byId := ById(tasks);
    var queue := InitialQueue(FirstOccurrences(IdsOf(tasks)), inDegree);
    EdgesDescribePlan(tasks);
    InitialQueueIsRoots(tasks, inDegree);
    levels := PeelLevels(PlanGraph(tasks), Edges(tasks), byId, dependents, inDegree, queue);
  }

  lemma InitialQueueIsRoots(tasks: seq<Task>, inDegree: map<Id, int>)
    requires inDegree.Keys == PlanGraph(tasks).Keys && Counters(Edges(tasks), inDegree, {}, [])
    ensures InitialQueue(FirstOccurrences(IdsOf(tasks)), inDegree) == Roots(tasks)
  {
    var g := PlanGraph(tasks);
    EdgesDescribePlan(tasks);
    forall x | x in inDegree
      ensures inDegree[x] == 0 <==> x in Satisfied(g, {})
    {
      ZeroMeansSatisfied(g, Edges(tasks), x, {});
      NoneLeft(Edges(tasks), inDegree, {}, x, []);
    }
    QueueIsFilter(FirstOccurrences(IdsOf(tasks)), inDegree, Satisfied(g, {}));
  }

  lemma {:induction false} QueueIsFilter(keys: seq<Id>, inDegree: map<Id, int>, ids: set<Id>)
    requires Distinct(keys) && forall x :: x in keys ==> x in inDegree
    requires forall x :: x in inDegree ==> (inDegree[x] == 0 <==> x in ids)
    ensures InitialQueue(keys, inDegree) == Filter(keys, ids)
  {
    if keys == [] {
    } else {
      QueueIsFilter(keys[..|keys| - 1], inDegree, ids);
    }
  }

  function InitialQueue(keys: seq<Id>, inDegree: map<Id, int>): (r: seq<Id>)
    requires forall x :: x in keys ==> x in inDegree
    requires Distinct(keys)
    ensures Distinct(r)
    ensures forall x :: x in r <==> x in keys && inDegree[x] == 0
  {
    if keys == [] then
      []
    else
      var n := |keys| - 1;
      assert keys == keys[..n] + [keys[n]];
      InitialQueue(keys[..n], inDegree) + if inDegree[keys[n]] == 0 then [keys[n]] else []
  }

  function TasksOf(byId: map<Id, Task>, ids: seq<Id>): (r: seq<Task>)
    requires forall x :: x in ids ==> x in byId
    requires forall x :: x in byId ==> byId[x].id == x
    ensures IdsOf(r) == ids
    ensures forall t :: t in r ==> t.id in byId && t == byId[t.id]
  {
    seq(|ids|, i requires 0 <= i < |ids| => byId[ids[i]])
  }

  /** The queue between two levels is the next layer, and nothing beyond it is released yet. */
  lemma LevelSettles(g: Graph, es: seq<Edge>, k: nat, level: seq<Id>, inDegree: map<Id, int>)
    requires Describes(es, g) && InStep(g, es, k, inDegree, level)
    ensures IsListing(level, Layer(g, k))
    ensures Settled(g, k + 1) == Settled(g, k) + Elements(level)
    ensures Released([], inDegree, Settled(g, k + 1))
  {
    SettledGrows(g, k);
    forall x | x in g
      ensures inDegree[x] == 0 <==> x in Settled(g, k + 1)
    {
      ZeroMeansSatisfied(g, es, x, Settled(g, k));
      assert CounterAt(es, inDegree, Settled(g, k), [], x);
      assert Count([], x) == 0;
    }
  }

  lemma DependentsUnsettled(g: Graph, es: seq<Edge>, k: nat, tid: Id)
    requires Describes(es, g) && tid in Layer(g, k)
    ensures forall x :: x in DependentsOf(es, tid) ==> x in g && x !in Settled(g, k + 1)
  {
    DependentsAreEdges(es, tid);
    forall x | x in DependentsOf(es, tid)
      ensures x in g && x !in Settled(g, k + 1)
    {
      assert Edge(x, tid) in es;
      assert tid in g[x];
    }
  }

  lemma LayerShrinksRest(g: Graph, k: nat, x: Id)
    requires x in Layer(g, k)
    ensures |Unsettled(g, k + 1)| < |Unsettled(g, k)|
  {
    SettledGrows(g, k);
    SubsetIsSmaller(Unsettled(g, k + 1), Unsettled(g, k), x);
  }

  /** What _dispatch_task comes back with. */
  datatype Finding = Found(text: string) | Raised(message: string)

  function FindingText(f: Finding): string {
    match f
    case Found(text) => text
    case Raised(message) => "No results found. (" + message + ")"
  }

  /** research_context after one entry per task of order. */
  function Researched(order: seq<Id>, findings: Id -> Finding, context: map<Id, string>): (r: map<Id, string>)
    ensures forall x :: x in r <==> x in context || x in order
    ensures forall x :: x in r ==> r[x] == if x in order then FindingText(findings(x)) else context[x]
  {
    context + map x | x in order :: FindingText(findings(x))
  }

  /** The entries of one level. */
  method ResearchLevel(level: seq<Task>, context: map<Id, string>, findings: Id -> Finding,
                       ghost order: seq<Id>, ghost start: map<Id, string>)
    returns (research: map<Id, string>)
    requires context == Researched(order, findings, start)
    ensures research == Researched(order + IdsOf(level), findings, start)
  {
    research := context;
    assert order + IdsOf(level)[..0] == order;
    for j := 0 to |level|
      invariant research == Researched(order + IdsOf(level)[..j], findings, start)
    {
      var x := level[j].id;
      ResearchedSnoc(order + IdsOf(level)[..j], x, findings, start);
      AppendSlice(order, IdsOf(level), j);
      research := research[x := FindingText(findings(x))];
    }
    assert IdsOf(level)[..|level|] == IdsOf(level);
  }

  lemma OrderSnoc(levels: seq<seq<Task>>, k: nat)
    requires k < |levels|
    ensures Order(levels[..k + 1]) == Order(levels[..k]) + IdsOf(levels[k])
  {
    FlattenSnoc(levels, k);
  }

  /** ResearcherAgent.run: level by level, every scheduled task gets its entry. */
  method Run(tasks: seq<Task>, context: map<Id, string>, findings: Id -> Finding)
    returns (levels: seq<seq<Task>>, research: map<Id, string>)
    ensures IsSchedule(tasks, levels)
    ensures research == Researched(Order(levels), findings, context)
  {
    levels := TopologicalSort(tasks);
    research := context;
    for k := 0 to |levels|
      invariant research == Researched(Order(levels[..k]), findings, context)
    {
      OrderSnoc(levels, k);
      research := ResearchLevel(levels[k], research, findings, Order(levels[..k]), context);
    }
    assert levels[..|levels|] == levels;
  }

  lemma ResearchedSnoc(order: seq<Id>, x: Id, findings: Id -> Finding, context: map<Id, string>)
    ensures Researched(order + [x], findings, context)
            == Researched(order, findings, context)[x := FindingText(findings(x))]
  {
  }
}
