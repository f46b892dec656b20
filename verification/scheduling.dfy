/** What a schedule guarantees: the laws of the level sort, for every list of tasks. */
module Scheduling {
  import opened Graphs
  import opened Sequences
  import opened TaskPlan
  import opened Researcher
  import Planner

  lemma IdsOfConcat(a: seq<Task>, b: seq<Task>)
    ensures IdsOf(a + b) == IdsOf(a) + IdsOf(b)
  {
  }

  lemma ConcatListing(a: seq<Id>, b: seq<Id>, A: set<Id>, B: set<Id>)
    requires IsListing(a, A) && IsListing(b, B) && A !! B
    ensures IsListing(a + b, A + B)
  {
    var c := a + b;
    forall i, j | 0 <= i < j < |c|
      ensures c[i] != c[j]
    {
      if i < |a| <= j {
        assert a[i] in a && b[j - |a|] in b;
      }
    }
  }

  /** The first k levels list exactly the nodes settled after k rounds, dependencies first. */
  lemma {:induction false} PrefixOrder(g: Graph, byId: map<Id, Task>, levels: seq<seq<Task>>)
    requires AreLayers(g, byId, levels)
    ensures IsListing(Order(levels), Settled(g, |levels|))
    ensures DependenciesFirst(g, Order(levels))
    ensures forall t :: t in Flatten(levels) ==> t.id in byId && t == byId[t.id]
  {
    if levels == [] {
    } else {
      var k := |levels| - 1;
      var rest, level := levels[..k], levels[k];
      assert AreLayers(g, byId, rest) by {
        forall j | 0 <= j < |rest|
          ensures IsLevel(byId, rest[j], Layer(g, j))
        {
          assert rest[j] == levels[j];
        }
      }
      PrefixOrder(g, byId, rest);
      IdsOfConcat(Flatten(rest), level);
      SettledGrows(g, k);
      ConcatListing(Order(rest), IdsOf(level), Settled(g, k), Layer(g, k));
      assert Settled(g, k) + Layer(g, k) == Settled(g, k + 1);
      ExtendOrder(g, Order(rest), IdsOf(level), k);
    }
  }

  lemma ExtendOrder(g: Graph, before: seq<Id>, level: seq<Id>, k: nat)
    requires DependenciesFirst(g, before)
    requires IsListing(before, Settled(g, k)) && IsListing(level, Layer(g, k))
    ensures DependenciesFirst(g, before + level)
  {
    var order := before + level;
    forall i | 0 <= i < |order|
      ensures order[i] in g && forall d :: d in g[order[i]] ==> d in order[..i]
    {
      if i < |before| {
        assert order[..i] == before[..i];
      } else {
        assert order[i] == level[i - |before|] && level[i - |before|] in level;
        assert order[..i] == before + level[..i - |before|];
      }
    }
  }

  /** Each id is emitted at most once, after all of its dependencies; the emitted ids are exactly
      those from which neither a cycle nor an unknown id can be reached. */
  lemma EmitsExactlyTheSound(tasks: seq<Task>, levels: seq<seq<Task>>)
    requires IsSchedule(tasks, levels)
    ensures Distinct(Order(levels)) && DependenciesFirst(PlanGraph(tasks), Order(levels))
    ensures forall x :: Emitted(levels, x) <==> x in IdsOf(tasks) && !Doomed(PlanGraph(tasks), x)
  {
    var g := PlanGraph(tasks);
    PrefixOrder(g, ById(tasks), levels);
    forall x
      ensures Emitted(levels, x) <==> x in IdsOf(tasks) && !Doomed(g, x)
    {
      if x in g {
        SettledIffNotDoomed(g, |levels|, x);
      }
    }
  }

  lemma InLevelIsLayer(tasks: seq<Task>, levels: seq<seq<Task>>, x: Id, k: nat)
    requires IsSchedule(tasks, levels)
    ensures InLevel(levels, k, x) <==> x in Layer(PlanGraph(tasks), k)
  {
    var g := PlanGraph(tasks);
    if k >= |levels| {
      StableForever(g, |levels|, k);
      StableForever(g, |levels|, k + 1);
    } else {
      assert IsLevel(ById(tasks), levels[k], Layer(g, k));
    }
  }

  /** Every dependency of a scheduled task sits in a strictly earlier level. */
  lemma {:induction false} DependencyStrictlyEarlier(tasks: seq<Task>, levels: seq<seq<Task>>, k: nat, x: Id, d: Id)
    returns (j: nat)
    requires IsSchedule(tasks, levels) && InLevel(levels, k, x) && d in DependenciesOf(tasks, x)
    ensures j < k && InLevel(levels, j, d)
  {
    InLevelIsLayer(tasks, levels, x, k);
    j := DependencyInEarlierLayer(PlanGraph(tasks), x, k, d);
    InLevelIsLayer(tasks, levels, d, j);
  }

  /** A task's level index is the number of dependencies on its longest chain. */
  lemma LevelIsLongestChain(tasks: seq<Task>, levels: seq<seq<Task>>, x: Id, k: nat)
    requires IsSchedule(tasks, levels) && KnownDependencies(tasks) && x in IdsOf(tasks)
    ensures InLevel(levels, k, x) <==>
            && (exists p :: ChainFrom(PlanGraph(tasks), x, p) && |p| == k + 1)
            && (forall p :: ChainFrom(PlanGraph(tasks), x, p) ==> |p| <= k + 1)
  {
    KnownMeansClosed(tasks);
    InLevelIsLayer(tasks, levels, x, k);
    LayerIsLongestChain(PlanGraph(tasks), x, k);
  }

  /** No levelling that respects the dependencies places a task earlier, and the last level
      of the schedule is needed by every such levelling. */
  lemma LevelsAreOptimal(tasks: seq<Task>, levels: seq<seq<Task>>, f: map<Id, nat>)
    requires IsSchedule(tasks, levels) && Respects(PlanGraph(tasks), f)
    ensures forall k, x :: InLevel(levels, k, x) ==> x in f && f[x] >= k
    ensures levels != [] ==> exists x :: x in f && f[x] >= |levels| - 1
  {
    var g := PlanGraph(tasks);
    forall k: nat, x | InLevel(levels, k, x)
      ensures x in f && f[x] >= k
    {
      InLevelIsLayer(tasks, levels, x, k);
      LayerIsEarliest(g, f, x, k);
    }
    if levels != [] {
      var k := |levels| - 1;
      assert IsLevel(ById(tasks), levels[k], Layer(g, k));
      var x := IdsOf(levels[k])[0];
      assert InLevel(levels, k, x);
    }
  }

  /** Validator and scheduler agree: a plan with known dependencies has no cycle
      exactly when the sort emits every id. */
  lemma AcyclicIffEveryIdEmitted(tasks: seq<Task>, levels: seq<seq<Task>>)
    requires IsSchedule(tasks, levels) && KnownDependencies(tasks)
    ensures Acyclic(PlanGraph(tasks)) <==> forall x :: x in IdsOf(tasks) ==> Emitted(levels, x)
  {
    var g := PlanGraph(tasks);
    KnownMeansClosed(tasks);
    PrefixOrder(g, ById(tasks), levels);
    AcyclicIffAllSettle(g, |levels|);
    SettledAreNodes(g, |levels|);
  }

  lemma DistinctIdsDistinctTasks(tasks: seq<Task>)
    requires UniqueIds(tasks)
    ensures Distinct(tasks)
  {
    forall i, j | 0 <= i < j < |tasks|
      ensures tasks[i] != tasks[j]
    {
      assert IdsOf(tasks)[i] != IdsOf(tasks)[j];
    }
  }

  /** A valid plan is scheduled whole: its levels hold each of its tasks once and nothing else. */
  lemma {:induction false} ValidPlanLosesNothing(tasks: seq<Task>, levels: seq<seq<Task>>)
    requires IsSchedule(tasks, levels) && ValidPlan(tasks)
    ensures multiset(Flatten(levels)) == multiset(tasks)
    ensures UniqueIds(Flatten(levels)) && DependenciesFirst(PlanGraph(tasks), Order(levels))
  {
    var g := PlanGraph(tasks);
    var order := Flatten(levels);
    PrefixOrder(g, ById(tasks), levels);
    AcyclicIffEveryIdEmitted(tasks, levels);
    forall t
      ensures t in order <==> t in tasks
    {
      if t in order {
        assert t == ById(tasks)[t.id];
      }
      if t in tasks {
        var i :| 0 <= i < |tasks| && tasks[i] == t;
        ByIdFindsTask(tasks, i);
        assert Emitted(levels, t.id);
        var j :| 0 <= j < |order| && IdsOf(order)[j] == t.id;
        assert order[j] in order;
      }
    }
    DistinctIdsDistinctTasks(tasks);
    DistinctIdsDistinctTasks(order);
    SameElementsSameMultiset(order, tasks);
  }

  /** The two graph algorithms agree: on a plan with unique ids and known dependencies, the
      depth-first search finds no cycle exactly when the level sort loses no task. */
  lemma ValidatorAgreesWithScheduler(tasks: seq<Task>, levels: seq<seq<Task>>)
    requires UniqueIds(tasks) && KnownDependencies(tasks) && IsSchedule(tasks, levels)
    ensures Acyclic(Planner.AdjacencyGraph(Planner.Adjacency(tasks)))
            <==> multiset(Flatten(levels)) == multiset(tasks)
  {
    Planner.VerdictIsAboutPlan(tasks);
    if Acyclic(PlanGraph(tasks)) {
      ValidPlanLosesNothing(tasks, levels);
    } else if multiset(Flatten(levels)) == multiset(tasks) {
      SameIds(Flatten(levels), tasks);
      AcyclicIffEveryIdEmitted(tasks, levels);
      assert false;
    }
  }

  // ----- Every list of tasks has exactly one schedule -----

  lemma {:induction false} HitsList(s: seq<Id>, ids: set<Id>)
    ensures IsListing(Hits(s, ids), Elements(s) * ids)
  {
    if s == [] {
    } else {
      HitsList(s[1..], ids);
      assert s == [s[0]] + s[1..];
      if s[0] in ids && s[0] !in s[1..] {
        ConcatListing([s[0]], Hits(s[1..], ids), {s[0]}, Elements(s[1..]) * ids);
      }
    }
  }

  lemma {:induction false} FilterLists(s: seq<Id>, ids: set<Id>)
    requires Distinct(s)
    ensures IsListing(Filter(s, ids), Elements(s) * ids)
  {
    if s == [] {
    } else {
      var n := |s| - 1;
      FilterLists(s[..n], ids);
      assert s == s[..n] + [s[n]];
      if s[n] in ids {
        ConcatListing(Filter(s[..n], ids), [s[n]], Elements(s[..n]) * ids, {s[n]});
      }
    }
  }

  lemma {:induction false} DependentsComplete(es: seq<Edge>, d: Id, x: Id)
    ensures x in DependentsOf(es, d) <==> Edge(x, d) in es
  {
    if es == [] {
    } else {
      var n := |es| - 1;
      DependentsComplete(es[..n], d, x);
      assert es == es[..n] + [es[n]];
    }
  }

  /** The nodes that the nodes of level release: satisfied with them, and depending on one of them. */
  ghost function ReleasedBy(g: Graph, before: set<Id>, level: seq<Id>): set<Id> {
    set x | x in Satisfied(g, before + Elements(level)) && exists d :: d in level && d in g[x]
  }

  lemma {:induction false} NextLevelLists(g: Graph, es: seq<Edge>, before: set<Id>, level: seq<Id>)
    requires Describes(es, g) && Distinct(level) && forall d :: d in level ==> d !in before
    ensures IsListing(NextLevel(g, es, before, level), ReleasedBy(g, before, level))
  {
    if level == [] {
    } else {
      var n := |level| - 1;
      var rest, d := level[..n], level[n];
      assert level == rest + [d];
      assert d !in rest;
      NextLevelLists(g, es, before, rest);
      var ready := Satisfied(g, before + Elements(level));
      var hits := Elements(DependentsOf(es, d)) * ready;
      HitsList(DependentsOf(es, d), ready);
      ReleasedByOneMore(g, es, before, rest, d, hits);
      ConcatListing(NextLevel(g, es, before, rest), Hits(DependentsOf(es, d), ready), ReleasedBy(g, before, rest), hits);
    }
  }

  lemma ReleasedByOneMore(g: Graph, es: seq<Edge>, before: set<Id>, rest: seq<Id>, d: Id, hits: set<Id>)
    requires Describes(es, g) && d !in rest && d !in before
    requires hits == Elements(DependentsOf(es, d)) * Satisfied(g, before + Elements(rest + [d]))
    ensures ReleasedBy(g, before, rest) !! hits
    ensures ReleasedBy(g, before, rest + [d]) == ReleasedBy(g, before, rest) + hits
  {
    var some := before + Elements(rest);
    assert before + Elements(rest + [d]) == some + {d};
    forall x | x in g
      ensures x in DependentsOf(es, d) <==> d in g[x]
    {
      DependentsComplete(es, d, x);
    }
    forall x | x in ReleasedBy(g, before, rest + [d])
      ensures x in ReleasedBy(g, before, rest) + hits
    {
      if d !in g[x] {
        assert g[x] <= some;
      }
    }
  }

  /** The computed order of level k lists layer k. */
  lemma {:induction false} LevelIdsList(tasks: seq<Task>, k: nat)
    ensures IsListing(LevelIds(PlanGraph(tasks), Edges(tasks), Roots(tasks), k), Layer(PlanGraph(tasks), k))
  {
    EdgesDescribePlan(tasks);
    RootsList(tasks);
    LevelIdsListFrom(PlanGraph(tasks), Edges(tasks), Roots(tasks), k);
  }

  lemma {:induction false} LevelIdsListFrom(g: Graph, es: seq<Edge>, first: seq<Id>, k: nat)
    requires Describes(es, g) && IsListing(first, Layer(g, 0))
    ensures IsListing(LevelIds(g, es, first, k), Layer(g, k))
  {
    if k == 0 {
    } else {
      LevelIdsListFrom(g, es, first, k - 1);
      LevelListsNext(g, es, k - 1, LevelIds(g, es, first, k - 1));
    }
  }

  lemma RootsList(tasks: seq<Task>)
    ensures IsListing(Roots(tasks), Layer(PlanGraph(tasks), 0))
  {
    FilterLists(FirstOccurrences(IdsOf(tasks)), Satisfied(PlanGraph(tasks), {}));
  }

  lemma LevelListsNext(g: Graph, es: seq<Edge>, k: nat, level: seq<Id>)
    requires Describes(es, g) && IsListing(level, Layer(g, k))
    ensures IsListing(NextLevel(g, es, Settled(g, k), level), Layer(g, k + 1))
  {
    NextLevelLists(g, es, Settled(g, k), level);
    NextLayerReleased(g, k, level);
  }

  lemma NextLayerReleased(g: Graph, k: nat, level: seq<Id>)
    requires IsListing(level, Layer(g, k))
    ensures ReleasedBy(g, Settled(g, k), level) == Layer(g, k + 1)
  {
    SettledGrows(g, k);
    assert Settled(g, k) + Elements(level) == Settled(g, k + 1);
    forall x | x in Layer(g, k + 1)
      ensures exists d :: d in level && d in g[x]
    {
      var d :| d in g[x] && d !in Settled(g, k);
      assert d in level;
    }
  }

  /** The rounds stop, and no earlier round is empty. */
  lemma FirstStable(g: Graph) returns (n: nat)
    ensures Stable(g, n) && forall k :: 0 <= k < n ==> Layer(g, k) != {}
  {
    n := 0;
    while Layer(g, n) != {}
      invariant forall k :: 0 <= k < n ==> Layer(g, k) != {}
      decreases |Unsettled(g, n)|
    {
      var x :| x in Layer(g, n);
      LayerShrinksRest(g, n, x);
      n := n + 1;
    }
    SettledGrows(g, n);
  }

  lemma {:induction false} LevelsExist(tasks: seq<Task>, g: Graph, byId: map<Id, Task>,
                                       es: seq<Edge>, first: seq<Id>, n: nat)
    returns (levels: seq<seq<Task>>)
    requires g == PlanGraph(tasks) && byId == ById(tasks) && es == Edges(tasks) && first == Roots(tasks)
    requires forall k :: 0 <= k < n ==> Layer(g, k) != {}
    ensures |levels| == n && AreLayers(g, byId, levels) && InOrder(g, es, first, levels)
    decreases n
  {
    if n == 0 {
      levels := [];
    } else {
      var rest := LevelsExist(tasks, g, byId, es, first, n - 1);
      var level := LevelExists(tasks, n - 1);
      AddLevel(g, byId, rest, level);
      AddOrder(g, es, first, rest, level);
      levels := rest + [level];
    }
  }

  lemma LevelExists(tasks: seq<Task>, k: nat) returns (level: seq<Task>)
    requires Layer(PlanGraph(tasks), k) != {}
    ensures IsLevel(ById(tasks), level, Layer(PlanGraph(tasks), k))
    ensures IdsOf(level) == LevelIds(PlanGraph(tasks), Edges(tasks), Roots(tasks), k)
  {
    var ids := LevelIds(PlanGraph(tasks), Edges(tasks), Roots(tasks), k);
    LevelIdsList(tasks, k);
    var x :| x in Layer(PlanGraph(tasks), k);
    assert x in ids;
    level := TasksOf(ById(tasks), ids);
  }

  lemma ScheduleExists(tasks: seq<Task>) returns (levels: seq<seq<Task>>)
    ensures IsSchedule(tasks, levels)
  {
    var n := FirstStable(PlanGraph(tasks));
    levels := LevelsExist(tasks, PlanGraph(tasks), ById(tasks), Edges(tasks), Roots(tasks), n);
  }

  /** The levels, with the order of the tasks in each, are a function of the list of tasks. */
  lemma ScheduleUnique(tasks: seq<Task>, a: seq<seq<Task>>, b: seq<seq<Task>>)
    requires IsSchedule(tasks, a) && IsSchedule(tasks, b)
    ensures a == b
  {
    NoShorterSchedule(tasks, a, b);
    NoShorterSchedule(tasks, b, a);
    forall k | 0 <= k < |a|
      ensures a[k] == b[k]
    {
      SameLevel(ById(tasks), a[k], b[k], Layer(PlanGraph(tasks), k));
    }
  }

  lemma NoShorterSchedule(tasks: seq<Task>, a: seq<seq<Task>>, b: seq<seq<Task>>)
    requires IsSchedule(tasks, a) && IsSchedule(tasks, b)
    ensures |a| <= |b|
  {
    if |b| < |a| {
      LevelNotEmpty(PlanGraph(tasks), ById(tasks), a, |b|);
    }
  }

  lemma LevelNotEmpty(g: Graph, byId: map<Id, Task>, levels: seq<seq<Task>>, k: nat)
    requires AreLayers(g, byId, levels) && k < |levels|
    ensures Layer(g, k) != {}
  {
    assert IsLevel(byId, levels[k], Layer(g, k));
    assert IdsOf(levels[k])[0] in IdsOf(levels[k]);
  }

  lemma SameLevel(byId: map<Id, Task>, a: seq<Task>, b: seq<Task>, ids: set<Id>)
    requires IsLevel(byId, a, ids) && IsLevel(byId, b, ids) && IdsOf(a) == IdsOf(b)
    ensures a == b
  {
    assert |IdsOf(a)| == |a| && |IdsOf(b)| == |b|;
    forall i | 0 <= i < |a|
      ensures a[i] == b[i]
    {
      assert IdsOf(a)[i] == a[i].id && IdsOf(b)[i] == b[i].id;
      assert a[i] in a && b[i] in b;
    }
  }
}
