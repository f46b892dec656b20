/** backend/agents/planner.py: the three-colour depth-first search and the plan validator. */
module Planner {
  import opened Graphs
  import opened Options
  import opened Sequences
  import opened TaskPlan

  datatype Colour = Unvisited | Visiting | Finished

  datatype Search = NoCycle | CycleAt(node: Id)

  /** The dict adj: with a repeated id the last task's list wins. */
  function Adjacency(tasks: seq<Task>): map<Id, seq<Id>> {
    map x | x in ById(tasks) :: ById(tasks)[x].dependsOn
  }

  function AdjacencyGraph(adj: map<Id, seq<Id>>): Graph {
    map x | x in adj :: set d | d in adj[x]
  }

  ghost predicate SameEdges(adj: map<Id, seq<Id>>, g: Graph) {
    adj.Keys == g.Keys && forall x :: x in adj ==> EdgesAt(adj[x], g[x])
  }

  ghost predicate EdgesAt(deps: seq<Id>, ids: set<Id>) {
    forall d :: d in deps <==> d in ids
  }

  lemma AdjacencyIsPlanGraph(tasks: seq<Task>)
    requires UniqueIds(tasks)
    ensures AdjacencyGraph(Adjacency(tasks)) == PlanGraph(tasks)
  {
    forall x | x in PlanGraph(tasks)
      ensures x in ById(tasks) && AdjacencyGraph(Adjacency(tasks))[x] == PlanGraph(tasks)[x]
    {
      var i :| 0 <= i < |tasks| && IdsOf(tasks)[i] == x;
      ByIdFindsTask(tasks, i);
      DependenciesOfTask(tasks, i);
    }
  }

  lemma AdjacencyIsClosed(tasks: seq<Task>)
    requires KnownDependencies(tasks)
    ensures Closed(AdjacencyGraph(Adjacency(tasks)))
  {
    forall x, d | x in ById(tasks) && d in ById(tasks)[x].dependsOn
      ensures d in ById(tasks)
    {
      var i :| 0 <= i < |tasks| && tasks[i] == ById(tasks)[x];
    }
  }

  /** _check_no_cycles: the colour dictionary shared by the nested dfs calls. The ghost fields
      record the nodes in progress, outermost first, and the order in which nodes finished. */
  class CycleChecker {
    const adj: map<Id, seq<Id>>
    var state: map<Id, Colour>
    ghost var path: seq<Id>
    ghost var finish: seq<Id>

    ghost const g: Graph

    /** The colours of x agree with the path and the finish order. */
    ghost predicate Coloured(x: Id)
      reads this
    {
      x in adj ==>
        && x in state
        && (state[x] == Visiting <==> x in path)
        && (state[x] == Finished <==> x in finish)
    }

    ghost predicate Valid()
      reads this
    {
      && Closed(g) && SameEdges(adj, g)
      && state.Keys == adj.Keys
      && (forall x :: Coloured(x))
      && (path != [] ==> IsChain(g, path) && path[|path| - 1] in adj)
      && DependenciesFirst(g, finish)
      && SearchPath(adj, finish, path)
    }

    /** The nodes in progress lead on to x, which is one of them. */
    ghost predicate Led(x: Id)
      reads this
    {
      path != [] && x in path && LeadsOn(adj, finish, path[|path| - 1], x)
    }

    ghost function Whites(): set<Id>
      reads this
    {
      set x | x in state && state[x] == Unvisited
    }

    constructor (adj: map<Id, seq<Id>>)
      requires Closed(AdjacencyGraph(adj))
      ensures Valid() && this.adj == adj && g == AdjacencyGraph(adj) && path == [] && finish == []
    {
      this.adj := adj;
      g := AdjacencyGraph(adj);
      state := map x | x in adj :: Unvisited;
      path, finish := [], [];
    }

    /** dfs(node_id). A raise comes with a real cycle through the reported node; a return leaves the
        node finished after all its dependencies and the nodes in progress as they were. */
    method Dfs(nodeId: Id) returns (r: Search, ghost cycle: seq<Id>)
      requires Valid() && nodeId in adj
      requires path != [] ==> LeadsOn(adj, finish, path[|path| - 1], nodeId)
      modifies this
      ensures r.CycleAt? ==> IsCycle(g, cycle) && cycle[0] == r.node
      ensures r.CycleAt? ==> Led(r.node) && old(path) + [nodeId] <= path + [r.node]
      ensures Valid() && Keeps(old(finish), finish)
      ensures r.NoCycle? ==> path == old(path) && Whites() <= old(Whites()) && nodeId in finish
      decreases |Whites()|, 0
    {
      cycle := [];
      assert Coloured(nodeId);
      if state[nodeId] == Visiting {
        ghost var i :| 0 <= i < |path| && path[i] == nodeId;
        ClosesCycle(g, path, i);
        return CycleAt(nodeId), path[i..] + [nodeId];
      }
      if state[nodeId] == Finished {
        return NoCycle, [];
      }
      Enter(nodeId);
      SubsetIsSmaller(Whites(), old(Whites()), nodeId);
      r, cycle := VisitDependencies(nodeId);
      if r.NoCycle? {
        Leave(nodeId, old(path));
      }
    }

    /** The loop of dfs over adj[node_id], run while node_id is in progress. */
    method VisitDependencies(nodeId: Id) returns (r: Search, ghost cycle: seq<Id>)
      requires Valid() && path != [] && path[|path| - 1] == nodeId
      modifies this
      ensures r.CycleAt? ==> IsCycle(g, cycle) && cycle[0] == r.node
      ensures r.CycleAt? ==> Led(r.node) && old(path) <= path
      ensures Valid() && Keeps(old(finish), finish)
      ensures r.NoCycle? ==> path == old(path) && Whites() <= old(Whites()) && Keeps(adj[nodeId], finish)
      decreases |Whites()|, 1
    {
      var deps := adj[nodeId];
      r, cycle := NoCycle, [];
      for j := 0 to |deps|
        invariant Valid() && path == old(path) && Whites() <= old(Whites())
        invariant Keeps(deps[..j], finish) && Keeps(old(finish), finish)
        invariant r.NoCycle?
      {
        assert deps[j] in adj[nodeId] && deps[j] in g[nodeId];
        CardinalityBound(Whites(), old(Whites()));
        assert StandsAfter(adj[nodeId], finish, deps[j], j);
        r, cycle := Dfs(deps[j]);
        if r.CycleAt? {
          PrefixPart(old(path), deps[j], path, r.node);
          return;
        }
        assert deps[..j + 1] == deps[..j] + [deps[j]];
      }
      assert deps[..|deps|] == deps;
    }

    /** state[node_id] = 1 */
    method Enter(nodeId: Id)
      requires Valid() && nodeId in adj && state[nodeId] == Unvisited
      requires path != [] ==> LeadsOn(adj, finish, path[|path| - 1], nodeId)
      modifies this
      ensures Valid() && path == old(path) + [nodeId] && finish == old(finish)
      ensures Whites() == old(Whites()) - {nodeId}
    {
      if path != [] {
        Append(g, path, nodeId);
      }
      assert forall x :: Coloured(x);
      assert Coloured(nodeId);
      PathPush(adj, finish, path, nodeId);
      label Before:
      state := state[nodeId := Visiting];
      path := path + [nodeId];
      forall x
        ensures Coloured(x)
      {
        assert old@Before(Coloured(x));
      }
    }

    /** state[node_id] = 2 */
    method Leave(nodeId: Id, ghost outer: seq<Id>)
      requires Valid() && path == outer + [nodeId] && nodeId in adj && nodeId !in outer
      requires outer != [] ==> IsChain(g, outer) && outer[|outer| - 1] in adj
      requires Keeps(adj[nodeId], finish)
      modifies this
      ensures Valid() && path == outer && finish == old(finish) + [nodeId]
      ensures Whites() == old(Whites())
    {
      assert Coloured(nodeId) && nodeId in path;
      ExtendFinish(g, finish, nodeId);
      PathPop(adj, finish, outer, nodeId);
      label Before:
      state := state[nodeId := Finished];
      path := outer;
      finish := finish + [nodeId];
      forall x
        ensures Coloured(x)
      {
        assert old@Before(Coloured(x));
      }
    }

    /** The outer loop over the keys of adj. */
    method CheckAll(keys: seq<Id>) returns (r: Search)
      requires Valid() && path == [] && forall x :: x in keys <==> x in adj
      modifies this
      ensures r.NoCycle? <==> Acyclic(g)
      ensures r.CycleAt? ==> OnCycle(g, r.node)
      ensures r.CycleAt? ==> EndsSearch(g, keys, adj, r.node)
      ensures r.NoCycle? ==> DependenciesFirst(g, finish) && Keeps(keys, finish)
    {
      for i := 0 to |keys|
        invariant Valid() && path == [] && Keeps(keys[..i], finish)
      {
        assert keys[i] in keys;
        ghost var cycle;
        assert StandsAfter(keys, finish, keys[i], i);
        r, cycle := Dfs(keys[i]);
        if r.CycleAt? {
          PrefixPart([], keys[i], path, r.node);
          assert StandsAfter(keys, finish, keys[i], i);
          Append(g, path, r.node);
          WalkFound(g, keys, adj, finish, path, r.node, i);
          assert (path + [r.node])[|path|] == r.node;
          return;
        }
        assert keys[..i + 1] == keys[..i] + [keys[i]];
      }
      assert keys[..|keys|] == keys;
      OrderRulesOutCycles(g, finish);
      r := NoCycle;
    }
  }

  lemma ExtendFinish(g: Graph, order: seq<Id>, x: Id)
    requires DependenciesFirst(g, order) && x in g && forall d :: d in g[x] ==> d in order
    ensures DependenciesFirst(g, order + [x])
  {
    forall i | 0 <= i < |order + [x]|
      ensures (order + [x])[i] in g && forall d :: d in g[(order + [x])[i]] ==> d in (order + [x])[..i]
    {
      if i < |order| {
        assert (order + [x])[..i] == order[..i];
      } else {
        assert (order + [x])[..i] == order;
      }
    }
  }

  /** The search raises exactly when the graph of the tasks has a cycle, names a task on one,
      and otherwise leaves a finish order that puts every dependency first. */
  method CheckNoCycles(tasks: seq<Task>) returns (r: Search, ghost finish: seq<Id>)
    requires KnownDependencies(tasks)
    ensures r.NoCycle? <==> Acyclic(AdjacencyGraph(Adjacency(tasks)))
    ensures r.CycleAt? ==> OnCycle(AdjacencyGraph(Adjacency(tasks)), r.node)
    ensures r.CycleAt? ==>
              EndsSearch(AdjacencyGraph(Adjacency(tasks)), FirstOccurrences(IdsOf(tasks)), Adjacency(tasks), r.node)
    ensures r.NoCycle? ==>
              && DependenciesFirst(AdjacencyGraph(Adjacency(tasks)), finish)
              && Keeps(IdsOf(tasks), finish)
  {
    AdjacencyIsClosed(tasks);
    var checker := new CycleChecker(Adjacency(tasks));
    r := checker.CheckAll(FirstOccurrences(IdsOf(tasks)));
    finish := checker.finish;
  }

  /** With unique ids, as the validator ensures, the verdict is about the plan's own graph. */
  lemma {:induction false} VerdictIsAboutPlan(tasks: seq<Task>)
    requires UniqueIds(tasks)
    ensures Acyclic(AdjacencyGraph(Adjacency(tasks))) <==> Acyclic(PlanGraph(tasks))
    ensures forall x :: OnCycle(AdjacencyGraph(Adjacency(tasks)), x) <==> OnCycle(PlanGraph(tasks), x)
  {
    AdjacencyIsPlanGraph(tasks);
  }

  /** The planner's JSON, with str() already applied to the leaves; None is an absent key,
      and a null list reads as []. */
  datatype RawPlan = NotAList | RawList(items: seq<RawTask>)

  datatype RawTask =
    | NotAnObject
    | RawObject(id: Option<Id>, description: Option<string>, dependsOn: Option<seq<Id>>,
                toolHints: Option<seq<string>>, assignedModel: Option<string>)

  datatype PlanError =
    | NotANonEmptyList
    | TooManyTasks(count: nat)
    | ItemNotAnObject(index: nat)
    | MissingField(index: nat, field: string)
    | DuplicateId(index: nat, id: Id)
    | InvalidModel(index: nat, id: Id, model: string)
    | UnknownDependency(task: Id, dep: Id)
    | Circular(node: Id)

  datatype Validation = Accepted(tasks: seq<Task>) | Rejected(error: PlanError)

  const MAX_TASKS := 10

  const VALID_TOOLS := {"web_search", "code_exec", "file_write", "api_caller", "rag_recall"}

  function ParseModel(name: string): Option<Model> {
    if name == "reasoning" then Some(Reasoning)
    else if name == "code" then Some(Code)
    else if name == "extract" then Some(Extract)
    else None
  }

  function KnownTools(hints: seq<string>): seq<string> {
    if hints == [] then
      []
    else
      (if hints[0] in VALID_TOOLS then [hints[0]] else []) + KnownTools(hints[1..])
  }

  /** Filtering keeps each hint that names a tool in its place, and drops each other one. */
  lemma {:induction false} KnownToolsInPlace(hints: seq<string>, i: nat)
    requires i < |hints|
    ensures KnownTools(hints)
            == KnownTools(hints[..i]) + (if hints[i] in VALID_TOOLS then [hints[i]] else []) + KnownTools(hints[i + 1..])
  {
    if i == 0 {
    } else {
      KnownToolsInPlace(hints[1..], i - 1);
      assert hints[1..][..i - 1] == hints[..i][1..];
      assert hints[1..][i..] == hints[i + 1..];
    }
  }

  /** Filtering drops exactly the hints that name no tool. */
  lemma {:induction false} KnownToolsFilters(hints: seq<string>, tool: string)
    ensures multiset(KnownTools(hints))[tool] == if tool in VALID_TOOLS then multiset(hints)[tool] else 0
  {
    if hints == [] {
    } else {
      KnownToolsFilters(hints[1..], tool);
      assert hints == [hints[0]] + hints[1..];
    }
  }

  function FirstMissing(raw: RawTask): Option<string>
    requires raw.RawObject?
  {
    if raw.id.None? then Some("id")
    else if raw.description.None? then Some("description")
    else if raw.dependsOn.None? then Some("depends_on")
    else if raw.toolHints.None? then Some("tool_hints")
    else if raw.assignedModel.None? then Some("assigned_model")
    else None
  }

  predicate Complete(raw: RawTask) {
    raw.RawObject? && FirstMissing(raw).None?
  }

  predicate WellFormed(raw: RawTask) {
    Complete(raw) && ParseModel(raw.assignedModel.value).Some?
  }

  function Convert(raw: RawTask): Task
    requires WellFormed(raw)
  {
    Task(raw.id.value, raw.description.value, raw.dependsOn.value,
         KnownTools(raw.toolHints.value), ParseModel(raw.assignedModel.value).value)
  }

  function ConvertAll(items: seq<RawTask>): seq<Task>
    requires forall i :: 0 <= i < |items| ==> WellFormed(items[i])
  {
    seq(|items|, i requires 0 <= i < |items| => Convert(items[i]))
  }

  predicate IsTool(hint: string) {
    || hint == "web_search" || hint == "code_exec" || hint == "file_write" || hint == "api_caller"
    || hint == "rag_recall"
  }

  /** kept lists the hints that name a tool, in their order and with their repetitions. */
  predicate KeepsTools(hints: seq<string>, kept: seq<string>) {
    if hints == [] then kept == []
    else if IsTool(hints[0]) then kept != [] && kept[0] == hints[0] && KeepsTools(hints[1..], kept[1..])
    else KeepsTools(hints[1..], kept)
  }

  predicate ModelNamed(name: string, model: Model) {
    match model
    case Reasoning => name == "reasoning"
    case Code => name == "code"
    case Extract => name == "extract"
  }

  /** item is an object with all five fields, and t keeps each of them; of the hints, the tools. */
  predicate IsTaskOf(item: RawTask, t: Task) {
    && item.RawObject?
    && item.id == Some(t.id) && item.description == Some(t.description) && item.dependsOn == Some(t.dependsOn)
    && item.toolHints.Some? && KeepsTools(item.toolHints.value, t.toolHints)
    && item.assignedModel.Some? && ModelNamed(item.assignedModel.value, t.assignedModel)
  }

  lemma {:induction false} KnownToolsAreTools(hints: seq<string>)
    ensures KeepsTools(hints, KnownTools(hints))
  {
    if hints == [] {
    } else {
      KnownToolsAreTools(hints[1..]);
      if hints[0] in VALID_TOOLS {
        assert KnownTools(hints)[1..] == KnownTools(hints[1..]);
      } else {
        assert KnownTools(hints) == KnownTools(hints[1..]);
      }
    }
  }

  lemma ConvertKeeps(raw: RawTask)
    requires WellFormed(raw)
    ensures IsTaskOf(raw, Convert(raw))
  {
    KnownToolsAreTools(raw.toolHints.value);
  }

  predicate AreTasksOf(items: seq<RawTask>, tasks: seq<Task>) {
    |tasks| == |items| && forall i :: 0 <= i < |items| ==> IsTaskOf(items[i], tasks[i])
  }

  /** The tasks of a list of items keep its fields, item by item. */
  lemma ConvertAllKeeps(items: seq<RawTask>)
    requires forall i :: 0 <= i < |items| ==> WellFormed(items[i])
    ensures AreTasksOf(items, ConvertAll(items))
  {
    forall i | 0 <= i < |items|
      ensures IsTaskOf(items[i], ConvertAll(items)[i])
    {
      ConvertKeeps(items[i]);
    }
  }

  /** An item is well formed exactly when it is an object with all five fields and a model name. */
  lemma WellFormedIff(raw: RawTask)
    ensures WellFormed(raw) <==>
              && raw.RawObject? && raw.id.Some? && raw.description.Some? && raw.dependsOn.Some?
              && raw.toolHints.Some? && raw.assignedModel.Some?
              && (exists model :: ModelNamed(raw.assignedModel.value, model))
  {
    if WellFormed(raw) {
      assert ModelNamed(raw.assignedModel.value, Convert(raw).assignedModel);
    }
  }

  /** Items 0 to n - 1 pass the checks of the first loop. */
  predicate ItemsPass(items: seq<RawTask>, n: nat)
    requires n <= |items|
  {
    && (forall i :: 0 <= i < n ==> WellFormed(items[i]))
    && UniqueIds(ConvertAll(items[..n]))
  }

  /** The plans the validator is meant to accept. */
  ghost predicate Acceptable(raw: RawPlan) {
    && raw.RawList?
    && 0 < |raw.items| <= MAX_TASKS
    && ItemsPass(raw.items, |raw.items|)
    && ValidPlan(ConvertAll(raw.items))
  }

  /** error names a fault that raw has, and every check that runs before it passes. */
  ghost predicate Explains(raw: RawPlan, error: PlanError) {
    match error
    case NotANonEmptyList => raw.NotAList? || raw.items == []
    case TooManyTasks(n) => raw.RawList? && n == |raw.items| > MAX_TASKS
    case ItemNotAnObject(i) => Reached(raw, i) && raw.items[i].NotAnObject?
    case MissingField(i, f) => Reached(raw, i) && raw.items[i].RawObject? && FirstMissing(raw.items[i]) == Some(f)
    case DuplicateId(i, x) =>
      && Reached(raw, i) && Complete(raw.items[i]) && raw.items[i].id == Some(x)
      && x in IdsOf(ConvertAll(raw.items[..i]))
    case InvalidModel(i, x, m) =>
      && Reached(raw, i) && Complete(raw.items[i]) && raw.items[i].id == Some(x)
      && raw.items[i].assignedModel == Some(m) && ParseModel(m).None?
      && x !in IdsOf(ConvertAll(raw.items[..i]))
    case UnknownDependency(x, d) =>
      AllReached(raw) && exists i, j :: FirstUnknown(ConvertAll(raw.items), i, j, x, d)
    case Circular(x) =>
      && AllReached(raw) && KnownDependencies(ConvertAll(raw.items)) && OnCycle(PlanGraph(ConvertAll(raw.items)), x)
      && NamedBySearch(ConvertAll(raw.items), x)
  }

  /** The depth-first search, from the tasks in order and along each dependency list in order, first
      meets a node in progress at x. */
  ghost predicate NamedBySearch(tasks: seq<Task>, x: Id) {
    EndsSearch(PlanGraph(tasks), IdsOf(tasks), Adjacency(tasks), x)
  }

  /** Task i is the first with an unknown dependency, and its dependency j is its first unknown one. */
  ghost predicate FirstUnknown(tasks: seq<Task>, i: nat, j: nat, x: Id, d: Id) {
    && i < |tasks| && j < |tasks[i].dependsOn|
    && tasks[i].id == x && tasks[i].dependsOn[j] == d && d !in IdsOf(tasks)
    && (forall m :: 0 <= m < j ==> tasks[i].dependsOn[m] in IdsOf(tasks))
    && (forall k, e :: 0 <= k < i && e in tasks[k].dependsOn ==> e in IdsOf(tasks))
  }

  ghost predicate Reached(raw: RawPlan, i: nat) {
    raw.RawList? && |raw.items| <= MAX_TASKS && i < |raw.items| && ItemsPass(raw.items, i)
  }

  ghost predicate AllReached(raw: RawPlan) {
    raw.RawList? && |raw.items| <= MAX_TASKS && ItemsPass(raw.items, |raw.items|)
  }

  /** repr(s) */
  function Repr(s: string): string {
    var quote := if '\'' in s && '\"' !in s then '\"' else '\'';
    [quote] + ReprBody(s, quote) + [quote]
  }

  function ReprBody(s: string, quote: char): string {
    if s == "" then "" else ReprChar(s[0], quote) + ReprBody(s[1..], quote)
  }

  function ReprChar(c: char, quote: char): string {
    if c == quote || c == '\\' then ['\\', c]
    else if c == '\n' then "\\n"
    else if c == '\r' then "\\r"
    else if c == '\t' then "\\t"
    else if c < ' ' || c == 127 as char then "\\x" + [HEX[c as int / 16]] + [HEX[c as int % 16]]
    else [c]
  }

  /** The message of the ValueError. */
  function FaultText(e: PlanError): string {
    match e
    case NotANonEmptyList => "task_plan must be a non-empty list"
    case TooManyTasks(n) => "task_plan exceeds max " + Digits(MAX_TASKS) + " tasks (" + Digits(n) + " given)"
    case ItemNotAnObject(i) => "task[" + Digits(i) + "] is not an object"
    case MissingField(i, f) => "task[" + Digits(i) + "] missing required field '" + f + "'"
    case DuplicateId(_, x) => "Duplicate task id: " + Repr(x)
    case InvalidModel(_, x, m) => "task " + x + ": invalid assigned_model " + Repr(m)
    case UnknownDependency(x, d) => "task " + x + " depends on unknown id " + Repr(d)
    case Circular(x) => "Circular dependency detected involving task " + Repr(x)
  }

  /** The check of one item against the ids seen so far. */
  function ItemError(index: nat, raw: RawTask, ids: set<Id>): Option<PlanError> {
    if raw.NotAnObject? then Some(ItemNotAnObject(index))
    else if FirstMissing(raw).Some? then Some(MissingField(index, FirstMissing(raw).value))
    else if raw.id.value in ids then Some(DuplicateId(index, raw.id.value))
    else if ParseModel(raw.assignedModel.value).None? then Some(InvalidModel(index, raw.id.value, raw.assignedModel.value))
    else None
  }

  lemma ItemsPassNext(items: seq<RawTask>, i: nat)
    requires i < |items| && ItemsPass(items, i) && WellFormed(items[i])
    requires items[i].id.value !in IdsOf(ConvertAll(items[..i]))
    ensures ItemsPass(items, i + 1)
    ensures ConvertAll(items[..i + 1]) == ConvertAll(items[..i]) + [Convert(items[i])]
  {
    var before := IdsOf(ConvertAll(items[..i]));
    var after := IdsOf(ConvertAll(items[..i + 1]));
    assert after == before + [items[i].id.value];
    forall j, k | 0 <= j < k < |after|
      ensures after[j] != after[k]
    {
      assert after[j] == before[j] && before[j] in before;
    }
  }

  /** An item that fails its check makes the whole list fail. */
  lemma FailedItemFailsAll(items: seq<RawTask>, i: nat, ids: set<Id>)
    requires i < |items| && ItemsPass(items, i) && ItemError(i, items[i], ids).Some?
    requires forall x :: x in ids <==> x in IdsOf(ConvertAll(items[..i]))
    ensures !ItemsPass(items, |items|)
  {
    assert items[..|items|] == items;
    if forall k :: 0 <= k < |items| ==> WellFormed(items[k]) {
      var all := IdsOf(ConvertAll(items));
      var j :| 0 <= j < i && IdsOf(ConvertAll(items[..i]))[j] == items[i].id.value;
      assert all[j] == all[i];
    }
  }

  /** The first loop: build the nodes, raising at the first bad item. */
  method BuildNodes(items: seq<RawTask>) returns (r: Validation)
    requires |items| <= MAX_TASKS
    ensures r.Accepted? <==> ItemsPass(items, |items|)
    ensures r.Accepted? ==> r.tasks == ConvertAll(items)
    ensures r.Rejected? ==> Explains(RawList(items), r.error)
  {
    var ids: set<Id> := {};
    var nodes: seq<Task> := [];
    for i := 0 to |items|
      invariant ItemsPass(items, i) && nodes == ConvertAll(items[..i])
      invariant forall x :: x in ids <==> x in IdsOf(nodes)
    {
      var error := ItemError(i, items[i], ids);
      if error.Some? {
        FailedItemFailsAll(items, i, ids);
        return Rejected(error.value);
      }
      ItemsPassNext(items, i);
      assert IdsOf(nodes + [Convert(items[i])]) == IdsOf(nodes) + [items[i].id.value];
      ids := ids + {items[i].id.value};
      nodes := nodes + [Convert(items[i])];
    }
    assert items[..|items|] == items;
    r := Accepted(nodes);
  }

  /** The second loop: every dependency must name a task; the first that does not is reported. */
  method CheckReferences(nodes: seq<Task>) returns (r: Option<PlanError>)
    ensures r.None? <==> KnownDependencies(nodes)
    ensures r.Some? ==>
              && r.value.UnknownDependency?
              && exists i, j :: FirstUnknown(nodes, i, j, r.value.task, r.value.dep)
  {
    for i := 0 to |nodes|
      invariant forall k, d :: 0 <= k < i && d in nodes[k].dependsOn ==> d in IdsOf(nodes)
    {
      var deps := nodes[i].dependsOn;
      for j := 0 to |deps|
        invariant forall m :: 0 <= m < j ==> deps[m] in IdsOf(nodes)
      {
        if deps[j] !in IdsOf(nodes) {
          assert FirstUnknown(nodes, i, j, nodes[i].id, deps[j]);
          return Some(UnknownDependency(nodes[i].id, deps[j]));
        }
      }
    }
    r := None;
  }

  /** The validator accepts exactly the acceptable plans, returns their tasks unchanged,
      and otherwise raises the first fault. */
  method ValidateTaskDag(raw: RawPlan) returns (r: Validation)
    ensures r.Accepted? <==> Acceptable(raw)
    ensures r.Accepted? ==> r.tasks == ConvertAll(raw.items) && AreTasksOf(raw.items, r.tasks)
    ensures r.Rejected? ==> Explains(raw, r.error)
  {
    if raw.NotAList? || raw.items == [] {
      return Rejected(NotANonEmptyList);
    }
    if |raw.items| > MAX_TASKS {
      return Rejected(TooManyTasks(|raw.items|));
    }
    r := BuildNodes(raw.items);
    if r.Rejected? {
      return;
    }
    assert raw.items[..|raw.items|] == raw.items;
    ConvertAllKeeps(raw.items);
    var unknown := CheckReferences(r.tasks);
    if unknown.Some? {
      return Rejected(unknown.value);
    }
    VerdictIsAboutPlan(r.tasks);
    AdjacencyIsPlanGraph(r.tasks);
    AllFirst(IdsOf(r.tasks));
    ghost var finish;
    var search: Search;
    search, finish := CheckNoCycles(r.tasks);
    if search.CycleAt? {
      return Rejected(Circular(search.node));
    }
  }
}
