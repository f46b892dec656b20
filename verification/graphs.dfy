/** Finite dependency graphs: chains, cycles, and the layers that repeated
    removal of satisfied nodes produces. Nothing here knows about tasks. */
module Graphs {
  import opened Sequences

  type Id = string

  /** Each node with the set of ids it depends on. A dependency need not be a node. */
  type Graph = map<Id, set<Id>>

  ghost predicate Closed(g: Graph) {
    forall x :: x in g ==> g[x] <= g.Keys
  }

  /** p[0] depends on p[1], p[1] on p[2], and so on. */
  ghost predicate IsChain(g: Graph, p: seq<Id>) {
    && |p| > 0
    && forall i :: 0 <= i < |p| - 1 ==> p[i] in g && p[i + 1] in g[p[i]]
  }

  ghost predicate ChainFrom(g: Graph, x: Id, p: seq<Id>) {
    IsChain(g, p) && p[0] == x
  }

  ghost predicate IsCycle(g: Graph, p: seq<Id>) {
    IsChain(g, p) && |p| >= 2 && p[0] == p[|p| - 1]
  }

  ghost predicate OnCycle(g: Graph, x: Id) {
    exists p :: IsCycle(g, p) && p[0] == x
  }

  ghost predicate Acyclic(g: Graph) {
    forall p :: !IsCycle(g, p)
  }

  /** Some chain of dependencies from x ends outside the graph or on a cycle. */
  ghost predicate Doomed(g: Graph, x: Id) {
    exists p :: ChainFrom(g, x, p) && Trouble(g, p[|p| - 1])
  }

  ghost predicate Trouble(g: Graph, x: Id) {
    x !in g || OnCycle(g, x)
  }

  /** The nodes whose dependencies all settle within k - 1 rounds. */
  ghost function Settled(g: Graph, k: nat): set<Id> {
    if k == 0 then {} else set x | x in g && g[x] <= Settled(g, k - 1)
  }

  /** The nodes that settle in round k and not before. */
  ghost function Layer(g: Graph, k: nat): set<Id> {
    Settled(g, k + 1) - Settled(g, k)
  }

  ghost predicate Stable(g: Graph, n: nat) {
    Settled(g, n + 1) == Settled(g, n)
  }

  /** order lists each node after all of its dependencies. */
  ghost predicate DependenciesFirst(g: Graph, order: seq<Id>) {
    forall i :: 0 <= i < |order| ==> order[i] in g && forall d :: d in g[order[i]] ==> d in order[..i]
  }

  /** f gives every node a level above the levels of its dependencies. */
  ghost predicate Respects(g: Graph, f: map<Id, nat>) {
    && g.Keys <= f.Keys
    && forall x, d :: x in g && d in g[x] ==> d in f && f[d] < f[x]
  }

  lemma {:induction false} SettledGrows(g: Graph, k: nat)
    ensures Settled(g, k) <= Settled(g, k + 1)
  {
    if k == 0 {
    } else {
      SettledGrows(g, k - 1);
    }
  }

  lemma {:induction false} SettledMonotone(g: Graph, j: nat, k: nat)
    requires j <= k
    ensures Settled(g, j) <= Settled(g, k)
    decreases k - j
  {
    if j == k {
    } else {
      SettledGrows(g, j);
      SettledMonotone(g, j + 1, k);
    }
  }

  lemma {:induction false} StableForever(g: Graph, n: nat, k: nat)
    requires Stable(g, n) && n <= k
    ensures Settled(g, k) == Settled(g, n)
    decreases k
  {
    if n == k {
    } else {
      StableForever(g, n, k - 1);
      assert Settled(g, k) == Settled(g, n + 1);
    }
  }

  /** A settled node lies in exactly one layer. */
  lemma {:induction false} SettledHasLayer(g: Graph, x: Id, n: nat) returns (k: nat)
    requires x in Settled(g, n)
    ensures k < n && x in Layer(g, k)
  {
    if x in Settled(g, n - 1) {
      k := SettledHasLayer(g, x, n - 1);
    } else {
      k := n - 1;
    }
  }

  /** Every dependency of a node in layer k lies in an earlier layer. */
  lemma DependencyInEarlierLayer(g: Graph, x: Id, k: nat, d: Id) returns (j: nat)
    requires x in Layer(g, k) && d in g[x]
    ensures j < k && d in Layer(g, j)
  {
    assert d in Settled(g, k);
    j := SettledHasLayer(g, d, k);
  }

  /** The i-th node of a chain that starts in Settled(k) is in Settled(k - i). */
  lemma {:induction false} ChainDescends(g: Graph, p: seq<Id>, k: nat)
    requires IsChain(g, p) && p[0] in Settled(g, k)
    ensures |p| <= k
    ensures forall i :: 0 <= i < |p| ==> p[i] in Settled(g, k - i)
  {
    if |p| <= 1 {
    } else {
      assert p[1] in g[p[0]];
      var q := p[1..];
      forall i | 0 <= i < |q| - 1
        ensures q[i] in g && q[i + 1] in g[q[i]]
      {
        assert q[i] == p[i + 1] && q[i + 1] == p[i + 2];
      }
      ChainDescends(g, q, k - 1);
      forall i | 0 <= i < |p|
        ensures p[i] in Settled(g, k - i)
      {
        if i > 0 {
          assert p[i] == q[i - 1];
        }
      }
    }
  }

  lemma Prepend(g: Graph, x: Id, p: seq<Id>)
    requires IsChain(g, p) && x in g && p[0] in g[x]
    ensures ChainFrom(g, x, [x] + p)
  {
    var q := [x] + p;
    forall i | 0 <= i < |q| - 1
      ensures q[i] in g && q[i + 1] in g[q[i]]
    {
      if i > 0 {
        assert q[i] == p[i - 1] && q[i + 1] == p[i];
      }
    }
  }

  /** A node of layer k starts a chain of k dependencies. */
  lemma {:induction false} LayerHasChain(g: Graph, x: Id, k: nat) returns (p: seq<Id>)
    requires x in Layer(g, k)
    ensures ChainFrom(g, x, p) && |p| == k + 1
    decreases k
  {
    if k == 0 {
      p := [x];
    } else {
      var d :| d in g[x] && d !in Settled(g, k - 1);
      var q := LayerHasChain(g, d, k - 1);
      Prepend(g, x, q);
      p := [x] + q;
    }
  }

  /** In a closed graph a node whose chains have at most k nodes settles by round k. */
  lemma {:induction false} ShortChainsSettle(g: Graph, x: Id, k: nat)
    requires Closed(g) && x in g
    requires forall p :: ChainFrom(g, x, p) ==> |p| <= k
    ensures x in Settled(g, k)
    decreases k
  {
    assert ChainFrom(g, x, [x]);
    if g[x] == {} {
    } else {
      forall d | d in g[x]
        ensures d in Settled(g, k - 1)
      {
        forall p | ChainFrom(g, d, p)
          ensures |p| <= k - 1
        {
          Prepend(g, x, p);
        }
        ShortChainsSettle(g, d, k - 1);
      }
    }
  }

  /** The layer of a node is the length of its longest dependency chain. */
  lemma LayerIsLongestChain(g: Graph, x: Id, k: nat)
    requires Closed(g) && x in g
    ensures x in Layer(g, k) <==>
            && (exists p :: ChainFrom(g, x, p) && |p| == k + 1)
            && (forall p :: ChainFrom(g, x, p) ==> |p| <= k + 1)
  {
    if x in Layer(g, k) {
      var p := LayerHasChain(g, x, k);
      forall q | ChainFrom(g, x, q)
        ensures |q| <= k + 1
      {
        ChainDescends(g, q, k + 1);
      }
    }
    if p :| ChainFrom(g, x, p) && |p| == k + 1 && forall q :: ChainFrom(g, x, q) ==> |q| <= k + 1 {
      ShortChainsSettle(g, x, k + 1);
      if x in Settled(g, k) {
        ChainDescends(g, p, k);
      }
    }
  }

  /** Any levelling that respects the dependencies puts a node no earlier than its layer. */
  lemma {:induction false} LayerIsEarliest(g: Graph, f: map<Id, nat>, x: Id, k: nat)
    requires Respects(g, f) && x in Layer(g, k)
    ensures f[x] >= k
    decreases k
  {
    if k == 0 {
    } else {
      var d :| d in g[x] && d !in Settled(g, k - 1);
      LayerIsEarliest(g, f, d, k - 1);
    }
  }

  lemma {:induction false} SuffixIsChain(g: Graph, p: seq<Id>, i: nat)
    requires IsChain(g, p) && i < |p|
    ensures IsChain(g, p[i..])
  {
    forall j | 0 <= j < |p[i..]| - 1
      ensures p[i..][j] in g && p[i..][j + 1] in g[p[i..][j]]
    {
      assert p[i..][j] == p[i + j] && p[i..][j + 1] == p[i + j + 1];
    }
  }

  lemma Append(g: Graph, p: seq<Id>, d: Id)
    requires IsChain(g, p) && p[|p| - 1] in g && d in g[p[|p| - 1]]
    ensures IsChain(g, p + [d])
  {
    var q := p + [d];
    forall i | 0 <= i < |q| - 1
      ensures q[i] in g && q[i + 1] in g[q[i]]
    {
      if i < |p| - 1 {
        assert q[i] == p[i] && q[i + 1] == p[i + 1];
      }
    }
  }

  /** A chain that comes back to a node it already visited closes a cycle at that node. */
  lemma ClosesCycle(g: Graph, p: seq<Id>, i: nat)
    requires IsChain(g, p) && i < |p| && p[|p| - 1] in g && p[i] in g[p[|p| - 1]]
    ensures IsCycle(g, p[i..] + [p[i]])
  {
    SuffixIsChain(g, p, i);
    Append(g, p[i..], p[i]);
  }

  lemma {:induction false} DistinctBound(p: seq<Id>, s: set<Id>)
    requires forall i, j :: 0 <= i < j < |p| ==> p[i] != p[j]
    requires forall i :: 0 <= i < |p| ==> p[i] in s
    ensures |p| <= |s|
  {
    if p == [] {
    } else {
      var n := |p| - 1;
      forall i | 0 <= i < n
        ensures p[..n][i] in s - {p[n]}
      {
      }
      DistinctBound(p[..n], s - {p[n]});
    }
  }

  /** Following unsettled dependencies from a stuck node leaves the graph or repeats a node. */
  lemma {:induction false} StuckWalk(g: Graph, n: nat, p: seq<Id>)
    requires Stable(g, n) && IsChain(g, p)
    requires forall i :: 0 <= i < |p| ==> p[i] in g && p[i] !in Settled(g, n)
    requires forall i, j :: 0 <= i < j < |p| ==> p[i] != p[j]
    ensures Doomed(g, p[0])
    decreases |g| - |p|
  {
    DistinctBound(p, g.Keys);
    var last := p[|p| - 1];
    var d :| d in g[last] && d !in Settled(g, n);
    Append(g, p, d);
    if d !in g {
      assert ChainFrom(g, p[0], p + [d]) && Trouble(g, (p + [d])[|p + [d]| - 1]);
    } else if i :| 0 <= i < |p| && p[i] == d {
      ClosesCycle(g, p, i);
      assert (p[i..] + [d])[0] == d;
      assert ChainFrom(g, p[0], p + [d]) && Trouble(g, (p + [d])[|p + [d]| - 1]);
    } else {
      DistinctBound(p + [d], g.Keys);
      StuckWalk(g, n, p + [d]);
    }
  }

  /** Once the rounds are stable, what has settled is exactly what is not doomed. */
  lemma SettledIffNotDoomed(g: Graph, n: nat, x: Id)
    requires Stable(g, n) && x in g
    ensures x in Settled(g, n) <==> !Doomed(g, x)
  {
    if x !in Settled(g, n) {
      StuckWalk(g, n, [x]);
    } else {
      forall p | ChainFrom(g, x, p)
        ensures !Trouble(g, p[|p| - 1])
      {
        SettledChainEnd(g, p, n);
      }
    }
  }

  lemma SettledChainEnd(g: Graph, p: seq<Id>, n: nat)
    requires IsChain(g, p) && p[0] in Settled(g, n)
    ensures !Trouble(g, p[|p| - 1])
  {
    ChainDescends(g, p, n);
    var k := n - (|p| - 1);
    SettledNotOnCycle(g, p[|p| - 1], k);
  }

  lemma {:induction false} SettledNotOnCycle(g: Graph, x: Id, n: nat)
    requires x in Settled(g, n)
    ensures !OnCycle(g, x)
  {
    if p :| IsCycle(g, p) && p[0] == x {
      var k := SettledHasLayer(g, x, n);
      ChainDescends(g, p, k + 1);
      SettledMonotone(g, k + 1 - (|p| - 1), k);
      assert false;
    }
  }

  /** A closed graph has no cycle exactly when every node settles. */
  lemma AcyclicIffAllSettle(g: Graph, n: nat)
    requires Closed(g) && Stable(g, n)
    ensures Acyclic(g) <==> Settled(g, n) == g.Keys
  {
    SettledAreNodes(g, n);
    if Acyclic(g) {
      forall x | x in g
        ensures x in Settled(g, n)
      {
        forall p | ChainFrom(g, x, p)
          ensures !Trouble(g, p[|p| - 1])
        {
          ChainStaysInside(g, p, |p| - 1);
        }
        SettledIffNotDoomed(g, n, x);
      }
    } else {
      var p :| IsCycle(g, p);
      assert OnCycle(g, p[0]);
      if p[0] in Settled(g, n) {
        SettledNotOnCycle(g, p[0], n);
      }
    }
  }

  lemma SettledAreNodes(g: Graph, n: nat)
    ensures Settled(g, n) <= g.Keys
  {
  }

  lemma ChainStaysInside(g: Graph, p: seq<Id>, i: nat)
    requires Closed(g) && IsChain(g, p) && p[0] in g && i < |p|
    ensures p[i] in g
  {
    if i > 0 {
      assert p[i - 1] in g && p[i] in g[p[i - 1]];
    }
  }

  /** A full dependencies-first order rules out cycles. */
  lemma OrderRulesOutCycles(g: Graph, order: seq<Id>)
    requires DependenciesFirst(g, order) && forall x :: x in g ==> x in order
    ensures Acyclic(g)
  {
    forall p | IsCycle(g, p)
      ensures false
    {
      ChainMovesLeft(g, order, p, IndexOf(order, p[0]));
    }
  }

  lemma {:induction false} ChainMovesLeft(g: Graph, order: seq<Id>, p: seq<Id>, i: nat)
    requires DependenciesFirst(g, order) && IsChain(g, p) && i < |order| && order[i] == p[0]
    ensures |p| > 1 ==> p[|p| - 1] in order[..i]
  {
    if |p| <= 1 {
    } else {
      assert p[1] in g[p[0]];
      var j :| 0 <= j < i && order[j] == p[1];
      SuffixIsChain(g, p, 1);
      ChainMovesLeft(g, order, p[1..], j);
      if |p| > 2 {
        assert p[1..][|p| - 2] == p[|p| - 1];
        assert order[..j] <= order[..i];
      }
    }
  }

  // ----- The walk a depth-first search takes into a cycle -----

  ghost predicate ReachesCycle(g: Graph, x: Id) {
    exists p :: ChainFrom(g, x, p) && OnCycle(g, p[|p| - 1])
  }

  /** x is the first of the list that reaches a cycle. */
  ghost predicate FirstToReach(g: Graph, list: seq<Id>, x: Id) {
    exists k :: FirstToReachAt(g, list, x, k)
  }

  ghost predicate FirstToReachAt(g: Graph, list: seq<Id>, x: Id, k: int) {
    && 0 <= k < |list| && list[k] == x && ReachesCycle(g, x)
    && forall m :: 0 <= m < k ==> !ReachesCycle(g, list[m])
  }

  /** From the first key that reaches a cycle, always to the first dependency that does, up to the
      first node met again. */
  ghost predicate IsSearchWalk(g: Graph, keys: seq<Id>, adj: map<Id, seq<Id>>, walk: seq<Id>) {
    && |walk| >= 2 && walk[|walk| - 1] in walk[..|walk| - 1] && Distinct(walk[..|walk| - 1])
    && FirstToReach(g, keys, walk[0])
    && forall i :: 0 <= i < |walk| - 1 ==> StepsOn(g, adj, walk[i], walk[i + 1])
  }

  /** The walk ends at x. */
  ghost predicate EndsSearch(g: Graph, keys: seq<Id>, adj: map<Id, seq<Id>>, x: Id) {
    exists walk :: IsSearchWalk(g, keys, adj, walk) && walk[|walk| - 1] == x
  }

  ghost predicate StepsOn(g: Graph, adj: map<Id, seq<Id>>, x: Id, y: Id) {
    x in adj && FirstToReach(g, adj[x], y)
  }

  lemma FirstToReachUnique(g: Graph, list: seq<Id>, x: Id, y: Id)
    requires FirstToReach(g, list, x) && FirstToReach(g, list, y)
    ensures x == y
  {
    var k :| FirstToReachAt(g, list, x, k);
    var m :| FirstToReachAt(g, list, y, m);
    assert k < m || m < k || k == m;
  }

  lemma StepsAgree(g: Graph, keys: seq<Id>, adj: map<Id, seq<Id>>, a: seq<Id>, b: seq<Id>, n: nat)
    requires IsSearchWalk(g, keys, adj, a) && IsSearchWalk(g, keys, adj, b) && n + 1 < |a| && n + 1 < |b| && a[n] == b[n]
    ensures a[n + 1] == b[n + 1]
  {
    assert StepsOn(g, adj, a[n], a[n + 1]) && StepsOn(g, adj, b[n], b[n + 1]);
    FirstToReachUnique(g, adj[a[n]], a[n + 1], b[n + 1]);
  }

  lemma {:induction false} WalksAgree(g: Graph, keys: seq<Id>, adj: map<Id, seq<Id>>, a: seq<Id>, b: seq<Id>, n: nat)
    requires IsSearchWalk(g, keys, adj, a) && IsSearchWalk(g, keys, adj, b) && n < |a| && n < |b|
    ensures a[n] == b[n]
  {
    if n == 0 {
      FirstToReachUnique(g, keys, a[0], b[0]);
    } else {
      WalksAgree(g, keys, adj, a, b, n - 1);
      StepsAgree(g, keys, adj, a, b, n - 1);
    }
  }

  lemma NotLonger(g: Graph, keys: seq<Id>, adj: map<Id, seq<Id>>, a: seq<Id>, b: seq<Id>)
    requires IsSearchWalk(g, keys, adj, a) && IsSearchWalk(g, keys, adj, b)
    ensures |a| <= |b|
  {
    var n := |b| - 1;
    if n < |a| - 1 {
      var i :| 0 <= i < n && b[..n][i] == b[n];
      WalksAgree(g, keys, adj, a, b, i);
      WalksAgree(g, keys, adj, a, b, n);
      TwiceInWalk(a, i, n);
      assert false;
    }
  }

  lemma TwiceInWalk(a: seq<Id>, i: nat, n: nat)
    requires i < n < |a| - 1 && a[i] == a[n]
    ensures !Distinct(a[..|a| - 1])
  {
    assert a[..|a| - 1][i] == a[..|a| - 1][n];
  }

  /** There is at most one such walk, so the node it ends at is determined. */
  lemma SearchWalkUnique(g: Graph, keys: seq<Id>, adj: map<Id, seq<Id>>, a: seq<Id>, b: seq<Id>)
    requires IsSearchWalk(g, keys, adj, a) && IsSearchWalk(g, keys, adj, b)
    ensures a == b
  {
    NotLonger(g, keys, adj, a, b);
    NotLonger(g, keys, adj, b, a);
    forall n | 0 <= n < |a|
      ensures a[n] == b[n]
    {
      WalksAgree(g, keys, adj, a, b, n);
    }
  }

  lemma {:induction false} ChainStaysListed(g: Graph, order: seq<Id>, p: seq<Id>)
    requires DependenciesFirst(g, order) && IsChain(g, p) && p[0] in order
    ensures p[|p| - 1] in order
  {
    var i := IndexOf(order, p[0]);
    ChainMovesLeft(g, order, p, i);
    if |p| > 1 {
      var j :| 0 <= j < i && order[..i][j] == p[|p| - 1];
    }
  }

  /** A node listed after all its dependencies reaches no cycle. */
  lemma ListedReachesNone(g: Graph, order: seq<Id>, x: Id)
    requires DependenciesFirst(g, order) && x in order
    ensures !ReachesCycle(g, x)
  {
    if p :| ChainFrom(g, x, p) && OnCycle(g, p[|p| - 1]) {
      ChainStaysListed(g, order, p);
      var c :| IsCycle(g, c) && c[0] == p[|p| - 1];
      var i := IndexOf(order, c[0]);
      ChainMovesLeft(g, order, c, i);
      assert false;
    }
  }

  // ----- How the search builds that walk -----

  /** Every id of a is still listed in b. */
  ghost predicate Keeps(a: seq<Id>, b: seq<Id>) {
    forall x :: x in a ==> x in b
  }

  /** y stands in the list of x after nodes of done only. */
  ghost predicate LeadsOn(adj: map<Id, seq<Id>>, done: seq<Id>, x: Id, y: Id) {
    x in adj && exists j :: StandsAfter(adj[x], done, y, j)
  }

  ghost predicate StandsAfter(list: seq<Id>, done: seq<Id>, y: Id, j: int) {
    0 <= j < |list| && list[j] == y && Keeps(list[..j], done)
  }

  /** The nodes in progress, each reached from the one before after nodes of done only. */
  ghost predicate SearchPath(adj: map<Id, seq<Id>>, done: seq<Id>, path: seq<Id>) {
    Distinct(path) && forall i :: 0 <= i < |path| - 1 ==> LeadsOn(adj, done, path[i], path[i + 1])
  }

  lemma PathPush(adj: map<Id, seq<Id>>, done: seq<Id>, path: seq<Id>, y: Id)
    requires SearchPath(adj, done, path) && y !in path
    requires path != [] ==> LeadsOn(adj, done, path[|path| - 1], y)
    ensures SearchPath(adj, done, path + [y])
  {
  }

  lemma PathPop(adj: map<Id, seq<Id>>, done: seq<Id>, outer: seq<Id>, x: Id)
    requires SearchPath(adj, done, outer + [x])
    ensures SearchPath(adj, done + [x], outer)
  {
    var path := outer + [x];
    forall i | 0 <= i < |outer| - 1
      ensures LeadsOn(adj, done + [x], outer[i], outer[i + 1])
    {
      assert LeadsOn(adj, done, path[i], path[i + 1]);
      var j :| StandsAfter(adj[path[i]], done, path[i + 1], j);
      assert StandsAfter(adj[outer[i]], done + [x], outer[i + 1], j);
    }
    forall i, j | 0 <= i < j < |outer|
      ensures outer[i] != outer[j]
    {
      assert path[i] != path[j];
    }
  }

  lemma PrefixPart(a: seq<Id>, x: Id, b: seq<Id>, y: Id)
    requires a + [x] <= b + [y]
    ensures a <= b && (|a| < |b| ==> b[|a|] == x)
  {
    assert a == (a + [x])[..|a|] == (b + [y])[..|a|] == b[..|a|];
    assert (a + [x])[|a|] == (b + [y])[|a|];
  }

  /** What stands after finished nodes only, and reaches a cycle, is the first that does. */
  lemma FirstAfterFinished(g: Graph, done: seq<Id>, list: seq<Id>, y: Id, j: int)
    requires DependenciesFirst(g, done) && StandsAfter(list, done, y, j) && ReachesCycle(g, y)
    ensures FirstToReach(g, list, y)
  {
    forall m | 0 <= m < j
      ensures !ReachesCycle(g, list[m])
    {
      assert list[m] == list[..j][m];
      ListedReachesNone(g, done, list[m]);
    }
    assert FirstToReachAt(g, list, y, j);
  }

  /** When the search meets a node in progress, the nodes in progress and that node are its walk. */
  lemma WalkFound(g: Graph, keys: seq<Id>, adj: map<Id, seq<Id>>, done: seq<Id>, path: seq<Id>, node: Id, k: int)
    requires DependenciesFirst(g, done) && SearchPath(adj, done, path) && path != [] && node in path
    requires IsChain(g, path + [node]) && OnCycle(g, node) && LeadsOn(adj, done, path[|path| - 1], node)
    requires StandsAfter(keys, done, path[0], k)
    ensures IsSearchWalk(g, keys, adj, path + [node])
  {
    var walk := path + [node];
    forall i | 0 <= i < |walk|
      ensures ReachesCycle(g, walk[i])
    {
      SuffixIsChain(g, walk, i);
      assert ChainFrom(g, walk[i], walk[i..]) && walk[i..][|walk[i..]| - 1] == node;
    }
    FirstAfterFinished(g, done, keys, walk[0], k);
    forall i | 0 <= i < |walk| - 1
      ensures StepsOn(g, adj, walk[i], walk[i + 1])
    {
      assert i < |path| - 1 ==> LeadsOn(adj, done, path[i], path[i + 1]);
      var j :| StandsAfter(adj[walk[i]], done, walk[i + 1], j);
      FirstAfterFinished(g, done, adj[walk[i]], walk[i + 1], j);
    }
    assert walk[..|walk| - 1] == path;
  }
}
