/** What the validator accepts, told from the planner's raw items alone. */
module PlanAcceptance {
  import opened Graphs
  import opened Options
  import opened Sequences
  import opened TaskPlan
  import opened Planner

  /** An object with all five fields and one of the three model names. */
  predicate Sound(item: RawTask) {
    && item.RawObject?
    && item.id.Some? && item.description.Some? && item.dependsOn.Some? && item.toolHints.Some?
    && item.assignedModel.Some?
    && (item.assignedModel.value == "reasoning" || item.assignedModel.value == "code" || item.assignedModel.value == "extract")
  }

  /** The item at i lists the id of the item at j. */
  predicate DependsOn(items: seq<RawTask>, i: int, j: int) {
    && 0 <= i < |items| && 0 <= j < |items| && Sound(items[i]) && Sound(items[j])
    && items[j].id.value in items[i].dependsOn.value
  }

  /** The items at the places p depend on each other in a circle. */
  ghost predicate Circle(items: seq<RawTask>, p: seq<int>) {
    && |p| >= 2 && p[0] == p[|p| - 1]
    && forall i :: 0 <= i < |p| - 1 ==> DependsOn(items, p[i], p[i + 1])
  }

  ghost predicate IdsDiffer(items: seq<RawTask>) {
    forall i, j :: 0 <= i < j < |items| ==> items[i].RawObject? && items[j].RawObject? && items[i].id != items[j].id
  }

  ghost predicate Resolved(items: seq<RawTask>) {
    forall i, d :: 0 <= i < |items| && Sound(items[i]) && d in items[i].dependsOn.value ==> HasId(items, d)
  }

  ghost predicate HasId(items: seq<RawTask>, d: Id) {
    exists j :: 0 <= j < |items| && items[j].RawObject? && items[j].id == Some(d)
  }

  lemma SoundIsWellFormed(item: RawTask)
    ensures Sound(item) <==> WellFormed(item)
  {
    WellFormedIff(item);
    if Sound(item) {
      assert ModelNamed(item.assignedModel.value, if item.assignedModel.value == "reasoning" then Reasoning
                        else if item.assignedModel.value == "code" then Code else Extract);
    }
  }

  lemma ItemsPassIff(items: seq<RawTask>)
    ensures ItemsPass(items, |items|) <==> (forall i :: 0 <= i < |items| ==> Sound(items[i])) && IdsDiffer(items)
  {
    assert items[..|items|] == items;
    forall i | 0 <= i < |items|
      ensures Sound(items[i]) <==> WellFormed(items[i])
    {
      SoundIsWellFormed(items[i]);
    }
    if forall i :: 0 <= i < |items| ==> WellFormed(items[i]) {
      var ids := IdsOf(ConvertAll(items));
      assert forall i :: 0 <= i < |items| ==> Some(ids[i]) == items[i].id;
    }
  }

  lemma KnownIff(items: seq<RawTask>)
    requires forall i :: 0 <= i < |items| ==> Sound(items[i]) && WellFormed(items[i])
    ensures KnownDependencies(ConvertAll(items)) <==> Resolved(items)
  {
    var tasks := ConvertAll(items);
    forall d
      ensures d in IdsOf(tasks) <==> HasId(items, d)
    {
      if HasId(items, d) {
        var j :| 0 <= j < |items| && items[j].RawObject? && items[j].id == Some(d);
        assert IdsOf(tasks)[j] == d;
      }
      if d in IdsOf(tasks) {
        var j :| 0 <= j < |items| && IdsOf(tasks)[j] == d;
        assert items[j].id == Some(d);
      }
    }
    forall i | 0 <= i < |items|
      ensures tasks[i].dependsOn == items[i].dependsOn.value
    {
    }
    if KnownDependencies(tasks) {
      forall i, d | 0 <= i < |items| && Sound(items[i]) && d in items[i].dependsOn.value
        ensures HasId(items, d)
      {
        assert d in tasks[i].dependsOn;
      }
    }
  }

  /** Places in a circle give ids on a cycle. */
  lemma CircleIsCycle(items: seq<RawTask>, p: seq<int>)
    requires (forall i :: 0 <= i < |items| ==> WellFormed(items[i])) && UniqueIds(ConvertAll(items))
    requires Circle(items, p)
    ensures !Acyclic(PlanGraph(ConvertAll(items)))
  {
    var tasks := ConvertAll(items);
    assert forall i :: 0 <= i < |p| - 1 ==> DependsOn(items, p[i], p[i + 1]);
    assert DependsOn(items, p[|p| - 2], p[|p| - 1]);
    forall i | 0 <= i < |p|
      ensures 0 <= p[i] < |tasks|
    {
      assert i < |p| - 1 ==> DependsOn(items, p[i], p[i + 1]);
    }
    var q := seq(|p|, i requires 0 <= i < |p| => tasks[p[i]].id);
    forall i | 0 <= i < |q| - 1
      ensures q[i] in PlanGraph(tasks) && q[i + 1] in PlanGraph(tasks)[q[i]]
    {
      assert DependsOn(items, p[i], p[i + 1]);
      DependenciesOfTask(tasks, p[i]);
    }
    assert IsCycle(PlanGraph(tasks), q);
  }

  /** Ids on a cycle give places in a circle. */
  lemma CycleIsCircle(items: seq<RawTask>, q: seq<Id>) returns (p: seq<int>)
    requires forall i :: 0 <= i < |items| ==> Sound(items[i]) && WellFormed(items[i])
    requires UniqueIds(ConvertAll(items)) && IsCycle(PlanGraph(ConvertAll(items)), q)
    ensures Circle(items, p)
  {
    var tasks := ConvertAll(items);
    var ids, g := IdsOf(tasks), PlanGraph(tasks);
    assert forall i :: 0 <= i < |q| - 1 ==> q[i] in g;
    assert q[0] in g;
    forall i | 0 <= i < |q|
      ensures q[i] in ids
    {
      assert i < |q| - 1 ==> q[i] in g;
    }
    p := seq(|q|, i requires 0 <= i < |q| => IndexOf(ids, q[i]));
    forall i | 0 <= i < |p| - 1
      ensures DependsOn(items, p[i], p[i + 1])
    {
      DependenciesOfTask(tasks, p[i]);
      assert ids[p[i]] == q[i] && ids[p[i + 1]] == q[i + 1];
    }
  }

  lemma AcyclicIff(items: seq<RawTask>)
    requires forall i :: 0 <= i < |items| ==> Sound(items[i]) && WellFormed(items[i])
    requires UniqueIds(ConvertAll(items))
    ensures Acyclic(PlanGraph(ConvertAll(items))) <==> forall p :: !Circle(items, p)
  {
    if p :| Circle(items, p) {
      CircleIsCycle(items, p);
    }
    if q :| IsCycle(PlanGraph(ConvertAll(items)), q) {
      var p := CycleIsCircle(items, q);
    }
  }

  /** The validator accepts exactly the lists of one to ten sound items with distinct ids, in which
      every dependency is the id of an item and no items depend on each other in a circle. */
  lemma AcceptableIff(raw: RawPlan)
    ensures Acceptable(raw) <==>
              && raw.RawList? && 1 <= |raw.items| <= 10
              && (forall i :: 0 <= i < |raw.items| ==> Sound(raw.items[i]))
              && IdsDiffer(raw.items) && Resolved(raw.items)
              && (forall p :: !Circle(raw.items, p))
  {
    if raw.RawList? && 1 <= |raw.items| <= 10 {
      ItemsPassIff(raw.items);
      if ItemsPass(raw.items, |raw.items|) {
        assert raw.items[..|raw.items|] == raw.items;
        SoundItems(raw.items);
        KnownIff(raw.items);
        AcyclicIff(raw.items);
      }
    }
  }

  lemma SoundItems(items: seq<RawTask>)
    requires ItemsPass(items, |items|)
    ensures forall i :: 0 <= i < |items| ==> Sound(items[i]) && WellFormed(items[i])
  {
    forall i | 0 <= i < |items|
      ensures Sound(items[i])
    {
      SoundIsWellFormed(items[i]);
    }
  }

  const FIELDS := ["id", "description", "depends_on", "tool_hints", "assigned_model"]

  predicate Lacks(item: RawTask, n: nat)
    requires item.RawObject?
  {
    match n
    case 0 => item.id.None?
    case 1 => item.description.None?
    case 2 => item.dependsOn.None?
    case 3 => item.toolHints.None?
    case 4 => item.assignedModel.None?
    case _ => false
  }

  /** The field reported as missing is the first one the item lacks. */
  lemma FirstMissingIs(item: RawTask, f: string)
    requires item.RawObject?
    ensures FirstMissing(item) == Some(f) <==>
              exists n: nat :: n < 5 && FIELDS[n] == f && Lacks(item, n) && forall m: nat :: m < n ==> !Lacks(item, m)
  {
    assert forall i, j :: 0 <= i < j < 5 ==> FIELDS[i] != FIELDS[j];
    var n := if item.id.None? then 0 else if item.description.None? then 1 else if item.dependsOn.None? then 2
             else if item.toolHints.None? then 3 else 4;
    assert FirstMissing(item).Some? ==> FirstMissing(item).value == FIELDS[n] && Lacks(item, n);
  }
}
