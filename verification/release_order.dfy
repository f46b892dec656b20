/** The order of the tasks inside each level, told by places in the plan and in the level before. */
module ReleaseOrder {
  import opened Graphs
  import opened Sequences
  import opened TaskPlan
  import opened Researcher
  import opened Scheduling

  /** Both stand in s, x before y. */
  predicate Before(s: seq<Id>, x: Id, y: Id) {
    x in s && y in s && IndexOf(s, x) < IndexOf(s, y)
  }

  lemma BeforeInConcat(a: seq<Id>, b: seq<Id>, x: Id, y: Id)
    requires x in a + b && y in a + b && x != y
    ensures Before(a + b, x, y) <==>
              if x in a && y in a then Before(a, x, y) else if x !in a && y !in a then Before(b, x, y) else x in a
  {
    IndexInConcat(a, b, x);
    IndexInConcat(a, b, y);
  }

  // ----- The first level -----

  lemma {:induction false} FirstOccurrencesOrder(s: seq<Id>, x: Id, y: Id)
    requires x in s && y in s && x != y
    ensures Before(FirstOccurrences(s), x, y) <==> Before(s, x, y)
  {
    var n := |s| - 1;
    var rest, last := s[..n], [s[n]];
    assert s == rest + last;
    BeforeInConcat(rest, last, x, y);
    if x in rest && y in rest {
      FirstOccurrencesOrder(rest, x, y);
    }
    if s[n] !in rest {
      BeforeInConcat(FirstOccurrences(rest), last, x, y);
    }
  }

  lemma {:induction false} FilterOrder(s: seq<Id>, ids: set<Id>, x: Id, y: Id)
    requires Distinct(s) && x in Filter(s, ids) && y in Filter(s, ids) && x != y
    ensures x in s && y in s && (Before(Filter(s, ids), x, y) <==> Before(s, x, y))
  {
    var n := |s| - 1;
    var rest, last := s[..n], [s[n]];
    assert s == rest + last;
    FilterLists(rest, ids);
    FilterLists(s, ids);
    BeforeInConcat(rest, last, x, y);
    if s[n] in ids {
      BeforeInConcat(Filter(rest, ids), last, x, y);
    }
    if x in rest && y in rest {
      assert x in Filter(rest, ids) && y in Filter(rest, ids);
      FilterOrder(rest, ids, x, y);
    }
  }

  /** The first level lists its tasks in the order in which their ids first appear in the plan. */
  lemma FirstLevelInPlanOrder(tasks: seq<Task>, levels: seq<seq<Task>>, x: Id, y: Id)
    requires IsSchedule(tasks, levels) && levels != []
    requires x in IdsOf(levels[0]) && y in IdsOf(levels[0]) && x != y
    ensures x in IdsOf(tasks) && y in IdsOf(tasks)
    ensures IndexOf(IdsOf(levels[0]), x) < IndexOf(IdsOf(levels[0]), y)
            <==> IndexOf(IdsOf(tasks), x) < IndexOf(IdsOf(tasks), y)
  {
    var keys := FirstOccurrences(IdsOf(tasks));
    assert IdsOf(levels[0]) == LevelIds(PlanGraph(tasks), Edges(tasks), Roots(tasks), 0);
    FilterOrder(keys, Satisfied(PlanGraph(tasks), {}), x, y);
    FirstOccurrencesOrder(IdsOf(tasks), x, y);
  }

  // ----- The later levels -----

  /** Some task with the id x lists d. */
  ghost predicate Lists(tasks: seq<Task>, x: Id, d: Id) {
    exists p :: ListsAt(tasks, p, x, d)
  }

  predicate ListsAt(tasks: seq<Task>, p: int, x: Id, d: Id) {
    0 <= p < |tasks| && tasks[p].id == x && d in tasks[p].dependsOn
  }

  /** p is the last task with the id x that lists d. */
  ghost predicate LastToList(tasks: seq<Task>, p: int, x: Id, d: Id) {
    ListsAt(tasks, p, x, d) && forall m :: p < m ==> !ListsAt(tasks, m, x, d)
  }

  /** The last x in s stands after the last y. */
  ghost predicate LastLater(s: seq<Id>, x: Id, y: Id) {
    exists i :: 0 <= i <= |s| && x in s[i..] && y !in s[i..] && y in s
  }

  lemma {:induction false} HitsOrder(s: seq<Id>, ids: set<Id>, x: Id, y: Id)
    requires x in Hits(s, ids) && y in Hits(s, ids) && x != y
    requires LastLater(s, y, x)
    ensures Before(Hits(s, ids), x, y)
  {
    var i :| 0 <= i <= |s| && y in s[i..] && x !in s[i..] && x in s;
    HitsList(s, ids);
    HitsList(s[1..], ids);
    assert s == [s[0]] + s[1..];
    if s[0] == x && x !in s[1..] {
      assert Hits(s, ids)[0] == x;
      IndexIs(Hits(s, ids), x, 0);
    } else {
      assert i > 0;
      assert s[1..][i - 1..] == s[i..];
      assert LastLater(s[1..], y, x);
      HitsOrder(s[1..], ids, x, y);
      if s[0] in ids && s[0] !in s[1..] {
        assert x in s[1..] && y in s[1..];
        BeforeInConcat([s[0]], Hits(s[1..], ids), x, y);
      }
    }
  }

  lemma {:induction false} DependentsConcat(a: seq<Edge>, b: seq<Edge>, d: Id)
    ensures DependentsOf(a + b, d) == DependentsOf(a, d) + DependentsOf(b, d)
  {
    if b == [] {
      assert a + b == a;
    } else {
      var n := |b| - 1;
      DependentsConcat(a, b[..n], d);
      assert (a + b)[..|a + b| - 1] == a + b[..n];
    }
  }

  lemma OwnDependents(t: Task, d: Id, x: Id)
    ensures x in DependentsOf(TaskEdges(t), d) <==> t.id == x && d in t.dependsOn
  {
    DependentsComplete(TaskEdges(t), d, x);
    if t.id == x && d in t.dependsOn {
      var j :| 0 <= j < |t.dependsOn| && t.dependsOn[j] == d;
      assert TaskEdges(t)[j] == Edge(x, d);
    }
  }

  lemma LastLaterInConcat(a: seq<Id>, b: seq<Id>, y: Id, x: Id)
    requires (x in a && y in b && x !in b) || (LastLater(a, y, x) && x !in b)
    ensures LastLater(a + b, y, x)
  {
    if x in a && y in b {
      assert (a + b)[|a|..] == b;
    } else {
      var i :| 0 <= i <= |a| && y in a[i..] && x !in a[i..] && x in a;
      assert (a + b)[i..] == a[i..] + b;
    }
  }

  /** The dependents of d stand in the order of the last tasks that list d for them. */
  lemma {:induction false} DependentsInPlanOrder(tasks: seq<Task>, d: Id, x: Id, y: Id, p: int, q: int)
    requires LastToList(tasks, p, x, d) && LastToList(tasks, q, y, d) && p < q && x != y
    ensures LastLater(DependentsOf(Edges(tasks), d), y, x)
  {
    var n := |tasks| - 1;
    var rest := tasks[..n];
    DependentsConcat(Edges(rest), TaskEdges(tasks[n]), d);
    OwnDependents(tasks[n], d, x);
    OwnDependents(tasks[n], d, y);
    assert !ListsAt(tasks, n, x, d);
    if q == n {
      assert ListsAt(rest, p, x, d);
      DependentsComplete(Edges(rest), d, x);
      EdgesAreDependencies(rest, Edge(x, d));
    } else {
      LastInPrefix(tasks, p, x, d);
      LastInPrefix(tasks, q, y, d);
      DependentsInPlanOrder(rest, d, x, y, p, q);
    }
    LastLaterInConcat(DependentsOf(Edges(rest), d), DependentsOf(TaskEdges(tasks[n]), d), y, x);
  }

  lemma LastInPrefix(tasks: seq<Task>, p: int, x: Id, d: Id)
    requires LastToList(tasks, p, x, d) && p < |tasks| - 1
    ensures LastToList(tasks[..|tasks| - 1], p, x, d)
  {
    var rest := tasks[..|tasks| - 1];
    forall m | p < m
      ensures !ListsAt(rest, m, x, d)
    {
      assert !ListsAt(tasks, m, x, d);
    }
  }

  /** The last node of level that x depends on is at i. */
  ghost predicate ReleasedAt(g: Graph, level: seq<Id>, i: int, x: Id) {
    && x in g && 0 <= i < |level| && level[i] in g[x]
    && forall m :: i < m < |level| ==> level[m] !in g[x]
  }

  lemma InHits(g: Graph, es: seq<Edge>, d: Id, x: Id, ready: set<Id>)
    requires Describes(es, g) && x in g
    ensures x in Hits(DependentsOf(es, d), ready) <==> d in g[x] && x in ready
  {
    HitsList(DependentsOf(es, d), ready);
    DependentsComplete(es, d, x);
  }

  /** A task that depends on d is not released before d. */
  lemma NotReleasedYet(g: Graph, es: seq<Edge>, before: set<Id>, rest: seq<Id>, d: Id, y: Id)
    requires Describes(es, g) && Distinct(rest) && forall c :: c in rest ==> c !in before
    requires y in g && d in g[y] && d !in rest && d !in before
    ensures y !in NextLevel(g, es, before, rest)
  {
    NextLevelLists(g, es, before, rest);
  }

  /** es lists the edges of g, and level lists nodes outside before, each once. */
  ghost predicate Fresh(g: Graph, es: seq<Edge>, before: set<Id>, level: seq<Id>) {
    Describes(es, g) && Distinct(level) && forall d :: d in level ==> d !in before
  }

  lemma FreshPrefix(g: Graph, es: seq<Edge>, before: set<Id>, level: seq<Id>)
    requires level != [] && Fresh(g, es, before, level)
    ensures Fresh(g, es, before, level[..|level| - 1]) && level[|level| - 1] !in level[..|level| - 1]
  {
  }

  /** What the last node of level releases. */
  ghost function LastHits(g: Graph, es: seq<Edge>, before: set<Id>, level: seq<Id>): seq<Id>
    requires level != []
  {
    Hits(DependentsOf(es, level[|level| - 1]), Satisfied(g, before + Elements(level)))
  }

  /** A released task is released by the last node or by those before it, not by both. */
  lemma LastChunk(g: Graph, es: seq<Edge>, before: set<Id>, level: seq<Id>, x: Id)
    requires level != [] && Fresh(g, es, before, level)
    requires x in NextLevel(g, es, before, level) && x in g
    ensures x in LastHits(g, es, before, level) <==> level[|level| - 1] in g[x]
    ensures x in NextLevel(g, es, before, level[..|level| - 1]) <==> level[|level| - 1] !in g[x]
    ensures x in NextLevel(g, es, before, level[..|level| - 1]) + LastHits(g, es, before, level)
  {
    var n := |level| - 1;
    var rest := level[..n];
    InHits(g, es, level[n], x, Satisfied(g, before + Elements(level)));
    NextLevelLists(g, es, before, level);
    FreshPrefix(g, es, before, level);
    if level[n] in g[x] {
      NotReleasedYet(g, es, before, rest, level[n], x);
    }
  }

  lemma LevelParts(g: Graph, es: seq<Edge>, before: set<Id>, level: seq<Id>)
    requires level != []
    ensures NextLevel(g, es, before, level) == NextLevel(g, es, before, level[..|level| - 1]) + LastHits(g, es, before, level)
  {
  }

  /** The order of two released tasks, by whether the last node releases them. */
  lemma PartsOrder(g: Graph, es: seq<Edge>, before: set<Id>, level: seq<Id>, x: Id, y: Id)
    requires level != [] && Fresh(g, es, before, level)
    requires x in NextLevel(g, es, before, level) && y in NextLevel(g, es, before, level) && x != y
    requires x in g && y in g && (level[|level| - 1] in g[x] ==> level[|level| - 1] in g[y])
    ensures Before(NextLevel(g, es, before, level), x, y) <==>
              if level[|level| - 1] !in g[y] then Before(NextLevel(g, es, before, level[..|level| - 1]), x, y)
              else level[|level| - 1] in g[x] ==> Before(LastHits(g, es, before, level), x, y)
    ensures level[|level| - 1] in g[x] ==> x in LastHits(g, es, before, level) && y in LastHits(g, es, before, level)
    ensures level[|level| - 1] !in g[y] ==>
              x in NextLevel(g, es, before, level[..|level| - 1]) && y in NextLevel(g, es, before, level[..|level| - 1])
  {
    LastChunk(g, es, before, level, x);
    LastChunk(g, es, before, level, y);
    LevelParts(g, es, before, level);
    BeforeInConcat(NextLevel(g, es, before, level[..|level| - 1]), LastHits(g, es, before, level), x, y);
  }

  /** A task that the last node does not release has its place among the others. */
  lemma ReleasedEarlier(g: Graph, level: seq<Id>, i: int, x: Id)
    requires ReleasedAt(g, level, i, x) && i < |level| - 1
    ensures ReleasedAt(g, level[..|level| - 1], i, x) && level[|level| - 1] !in g[x]
  {
  }

  /** A task released later comes later. */
  lemma {:induction false} LaterReleaseLater(g: Graph, es: seq<Edge>, before: set<Id>, level: seq<Id>, x: Id, y: Id,
                                             i: int, j: int)
    requires Fresh(g, es, before, level)
    requires x in NextLevel(g, es, before, level) && y in NextLevel(g, es, before, level) && x != y
    requires ReleasedAt(g, level, i, x) && ReleasedAt(g, level, j, y) && i < j
    ensures Before(NextLevel(g, es, before, level), x, y)
  {
    ReleasedEarlier(g, level, i, x);
    PartsOrder(g, es, before, level, x, y);
    if j < |level| - 1 {
      FreshPrefix(g, es, before, level);
      ReleasedEarlier(g, level, j, y);
      LaterReleaseLater(g, es, before, level[..|level| - 1], x, y, i, j);
    }
  }

  /** Tasks released by the same node stand in the order of its dependents. */
  lemma {:induction false} SameReleaseOrder(g: Graph, es: seq<Edge>, before: set<Id>, level: seq<Id>, x: Id, y: Id, i: int)
    requires Fresh(g, es, before, level)
    requires x in NextLevel(g, es, before, level) && y in NextLevel(g, es, before, level) && x != y
    requires ReleasedAt(g, level, i, x) && ReleasedAt(g, level, i, y)
    requires LastLater(DependentsOf(es, level[i]), y, x)
    ensures Before(NextLevel(g, es, before, level), x, y)
  {
    if i < |level| - 1 {
      FreshPrefix(g, es, before, level);
      ReleasedEarlier(g, level, i, x);
      ReleasedEarlier(g, level, i, y);
      PartsOrder(g, es, before, level, x, y);
      SameReleaseOrder(g, es, before, level[..|level| - 1], x, y, i);
    } else {
      PartsOrder(g, es, before, level, x, y);
      HitsOrder(DependentsOf(es, level[i]), Satisfied(g, before + Elements(level)), x, y);
    }
  }

  /** x has its last dependency of the level before at place i, and p is the last task that lists it. */
  ghost predicate HasPlace(tasks: seq<Task>, level: seq<Task>, i: int, p: int, x: Id) {
    && 0 <= i < |level| && LastToList(tasks, p, x, level[i].id)
    && forall m :: i < m < |level| ==> !Lists(tasks, x, level[m].id)
  }

  lemma ReleasedInGraph(tasks: seq<Task>, level: seq<Task>, i: int, p: int, x: Id)
    requires HasPlace(tasks, level, i, p, x)
    ensures ReleasedAt(PlanGraph(tasks), IdsOf(level), i, x)
  {
    assert IdsOf(tasks)[p] == x;
    forall m | i < m < |level|
      ensures level[m].id !in PlanGraph(tasks)[x]
    {
      GraphMeansLists(tasks, x, level[m].id);
    }
  }

  lemma GraphMeansLists(tasks: seq<Task>, x: Id, d: Id)
    ensures x in PlanGraph(tasks) && d in PlanGraph(tasks)[x] ==> Lists(tasks, x, d)
  {
    if x in PlanGraph(tasks) && d in PlanGraph(tasks)[x] {
      var q :| 0 <= q < |tasks| && tasks[q].id == x && d in tasks[q].dependsOn;
      assert ListsAt(tasks, q, x, d);
    }
  }

  lemma NextLevelIs(tasks: seq<Task>, levels: seq<seq<Task>>, k: nat)
    requires IsSchedule(tasks, levels) && k + 1 < |levels|
    ensures IdsOf(levels[k + 1])
            == NextLevel(PlanGraph(tasks), Edges(tasks), Settled(PlanGraph(tasks), k), IdsOf(levels[k]))
    ensures IsListing(IdsOf(levels[k]), Layer(PlanGraph(tasks), k))
  {
    assert IsLevel(ById(tasks), levels[k], Layer(PlanGraph(tasks), k));
  }

  lemma LaterLevelHalf(tasks: seq<Task>, levels: seq<seq<Task>>, k: nat, x: Id, y: Id, i: int, j: int, p: int, q: int)
    requires IsSchedule(tasks, levels) && k + 1 < |levels|
    requires x in IdsOf(levels[k + 1]) && y in IdsOf(levels[k + 1]) && x != y
    requires HasPlace(tasks, levels[k], i, p, x) && HasPlace(tasks, levels[k], j, q, y)
    requires i < j || (i == j && p < q)
    ensures Before(IdsOf(levels[k + 1]), x, y)
  {
    var g, es, level := PlanGraph(tasks), Edges(tasks), IdsOf(levels[k]);
    EdgesDescribePlan(tasks);
    NextLevelIs(tasks, levels, k);
    ReleasedInGraph(tasks, levels[k], i, p, x);
    ReleasedInGraph(tasks, levels[k], j, q, y);
    if i < j {
      LaterReleaseLater(g, es, Settled(g, k), level, x, y, i, j);
    } else {
      DependentsInPlanOrder(tasks, level[i], x, y, p, q);
      SameReleaseOrder(g, es, Settled(g, k), level, x, y, i);
    }
  }

  /** Every later level lists its tasks by the place, in the level before, of the last dependency each
      has there, and tasks with the same one by their place in the plan. */
  lemma LaterLevelOrder(tasks: seq<Task>, levels: seq<seq<Task>>, k: nat, x: Id, y: Id, i: int, j: int, p: int, q: int)
    requires IsSchedule(tasks, levels) && k + 1 < |levels|
    requires x in IdsOf(levels[k + 1]) && y in IdsOf(levels[k + 1]) && x != y
    requires HasPlace(tasks, levels[k], i, p, x) && HasPlace(tasks, levels[k], j, q, y)
    ensures IndexOf(IdsOf(levels[k + 1]), x) < IndexOf(IdsOf(levels[k + 1]), y) <==> i < j || (i == j && p < q)
  {
    if i < j || (i == j && p < q) {
      LaterLevelHalf(tasks, levels, k, x, y, i, j, p, q);
    } else {
      assert i == j ==> p != q;
      LaterLevelHalf(tasks, levels, k, y, x, j, i, q, p);
    }
  }

  /** Every task of a later level has such a place. */
  lemma ReleaseExists(tasks: seq<Task>, levels: seq<seq<Task>>, k: nat, x: Id) returns (i: int, p: int)
    requires IsSchedule(tasks, levels) && k + 1 < |levels| && x in IdsOf(levels[k + 1])
    ensures HasPlace(tasks, levels[k], i, p, x)
  {
    var g, level := PlanGraph(tasks), IdsOf(levels[k]);
    NextLevelIs(tasks, levels, k);
    EdgesDescribePlan(tasks);
    NextLevelLists(g, Edges(tasks), Settled(g, k), level);
    var d :| d in level && d in g[x];
    i := LastReleaser(g, level, x);
    p := LastLister(tasks, x, level[i]);
    forall m | i < m < |level|
      ensures !Lists(tasks, x, levels[k][m].id)
    {
      assert level[m] !in g[x];
    }
  }

  lemma {:induction false} LastReleaser(g: Graph, level: seq<Id>, x: Id) returns (i: int)
    requires x in g && exists d :: d in level && d in g[x]
    ensures ReleasedAt(g, level, i, x)
  {
    var n := |level| - 1;
    if level[n] in g[x] {
      i := n;
    } else {
      assert level == level[..n] + [level[n]];
      i := LastReleaser(g, level[..n], x);
    }
  }

  lemma {:induction false} LastLister(tasks: seq<Task>, x: Id, d: Id) returns (p: int)
    requires x in PlanGraph(tasks) && d in PlanGraph(tasks)[x]
    ensures LastToList(tasks, p, x, d)
  {
    var m :| 0 <= m < |tasks| && tasks[m].id == x && d in tasks[m].dependsOn;
    p := LastListerFrom(tasks, x, d, m);
  }

  lemma {:induction false} LastListerFrom(tasks: seq<Task>, x: Id, d: Id, m: int) returns (p: int)
    requires ListsAt(tasks, m, x, d)
    ensures LastToList(tasks, p, x, d)
    decreases |tasks| - m
  {
    if q :| m < q && ListsAt(tasks, q, x, d) {
      p := LastListerFrom(tasks, x, d, q);
    } else {
      p := m;
    }
  }

  /** With a repeated id the task in a level is the last one that carries it. */
  lemma {:induction false} LastTaskWins(tasks: seq<Task>, x: Id) returns (p: nat)
    requires x in ById(tasks)
    ensures p < |tasks| && tasks[p].id == x && ById(tasks)[x] == tasks[p] && NoneAfter(tasks, x, p)
  {
    var n := |tasks| - 1;
    if tasks[n].id == x {
      p := n;
    } else {
      p := LastTaskWins(tasks[..n], x);
      OnlyBeforeLast(tasks, x, p);
    }
  }

  /** No task after p has the id x. */
  predicate NoneAfter(tasks: seq<Task>, x: Id, p: nat) {
    forall m :: p < m < |tasks| ==> tasks[m].id != x
  }

  lemma OnlyBeforeLast(tasks: seq<Task>, x: Id, p: nat)
    requires p < |tasks| - 1 && tasks[|tasks| - 1].id != x && NoneAfter(tasks[..|tasks| - 1], x, p)
    ensures NoneAfter(tasks, x, p)
  {
    forall m | p < m < |tasks| - 1
      ensures tasks[m].id != x
    {
      assert tasks[..|tasks| - 1][m] == tasks[m];
    }
  }

  lemma LevelTaskIsLast(tasks: seq<Task>, levels: seq<seq<Task>>, k: nat, t: Task) returns (p: nat)
    requires IsSchedule(tasks, levels) && k < |levels| && t in levels[k]
    ensures p < |tasks| && tasks[p] == t && forall m :: p < m < |tasks| ==> tasks[m].id != t.id
  {
    assert IsLevel(ById(tasks), levels[k], Layer(PlanGraph(tasks), k));
    p := LastTaskWins(tasks, t.id);
  }
}
