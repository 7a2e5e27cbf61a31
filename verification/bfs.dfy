/**
  Distances in an execution graph, and what the queue of a breadth-first walk keeps.
 */
module BreadthFirst {
  import opened Digraph

  ghost predicate WalkOfLength(adj: Adjacency, x: Name, y: Name, n: nat) {
    exists p :: WalkFromTo(adj, p, x, y) && |p| == n + 1
  }

  /** The fewest steps from x to y. */
  ghost predicate Distance(adj: Adjacency, x: Name, y: Name, n: nat) {
    WalkOfLength(adj, x, y, n) && forall m: nat :: WalkOfLength(adj, x, y, m) ==> n <= m
  }

  ghost predicate Distinct(s: seq<Name>) {
    forall i, j :: 0 <= i < j < |s| ==> s[i] != s[j]
  }

  /** A level function is sound when some walk from the start has that many steps. */
  ghost predicate LevelsAreWalks(adj: Adjacency, start: Name, level: map<Name, nat>) {
    forall v :: v in level ==> WalkOfLength(adj, start, v, level[v])
  }

  /** The levels never fall along the list. */
  ghost predicate Rising(s: seq<Name>, level: map<Name, nat>) {
    && (forall i :: 0 <= i < |s| ==> s[i] in level)
    && forall i, j :: 0 <= i < j < |s| ==> level[s[i]] <= level[s[j]]
  }

  /** Every edge out of x was followed: its end is known, at most one level further. */
  ghost predicate Expanded(adj: Adjacency, x: Name, level: map<Name, nat>) {
    x in level && forall y :: Edge(adj, x, y) ==> y in level && level[y] <= level[x] + 1
  }

  /**
    The walk has dequeued `done` and still holds `queue`.  Names are met once, in order of
    level, and the queue spans at most two levels.
   */
  ghost predicate WalkState(adj: Adjacency, start: Name, done: seq<Name>, queue: seq<Name>, level: map<Name, nat>) {
    && Distinct(done + queue)
    && (forall v :: v in level <==> v in done + queue)
    && Rising(done + queue, level)
    && LevelsAreWalks(adj, start, level)
    && start in level && level[start] == 0
    && (forall i :: 0 <= i < |queue| && |done| > 0 ==> level[queue[i]] <= level[done[|done| - 1]] + 1)
  }

  lemma FirstState(adj: Adjacency, start: Name)
    ensures WalkState(adj, start, [], [start], map[start := 0])
  {
    assert WalkFromTo(adj, [start], start, start);
  }

  lemma DequeueState(adj: Adjacency, start: Name, done: seq<Name>, queue: seq<Name>, level: map<Name, nat>)
    requires WalkState(adj, start, done, queue, level) && queue != []
    requires forall i :: 0 <= i < |queue| ==> level[queue[i]] <= level[queue[0]] + 1
    ensures WalkState(adj, start, done + [queue[0]], queue[1..], level)
  {
    assert done + [queue[0]] + queue[1..] == done + queue;
    forall i | 0 <= i < |queue[1..]| ensures level[queue[1..][i]] <= level[queue[0]] + 1 {
      assert queue[1..][i] == queue[i + 1];
    }
  }

  /** The head of the queue is at most one level below the rest of it. */
  lemma QueueSpan(adj: Adjacency, start: Name, done: seq<Name>, queue: seq<Name>, level: map<Name, nat>)
    requires WalkState(adj, start, done, queue, level) && queue != []
    requires done == [] ==> |queue| == 1
    ensures forall i :: 0 <= i < |queue| ==> level[queue[i]] <= level[queue[0]] + 1
  {
    if done != [] {
      assert (done + queue)[|done| - 1] == done[|done| - 1];
      assert (done + queue)[|done|] == queue[0];
    }
  }

  /** No known name is more than one level below the name last dequeued. */
  lemma KnownIsNear(adj: Adjacency, start: Name, done: seq<Name>, queue: seq<Name>, level: map<Name, nat>, x: Name)
    requires WalkState(adj, start, done, queue, level) && done != [] && x in level
    ensures level[x] <= level[done[|done| - 1]] + 1
  {
    var all := done + queue;
    var i :| 0 <= i < |all| && all[i] == x;
    assert all[|done| - 1] == done[|done| - 1];
    if i >= |done| {
      assert all[i] == queue[i - |done|];
    } else if i < |done| - 1 {
      assert level[all[i]] <= level[all[|done| - 1]];
    }
  }

  lemma EnqueueState(adj: Adjacency, start: Name, done: seq<Name>, queue: seq<Name>, level: map<Name, nat>, child: Name)
    requires WalkState(adj, start, done, queue, level) && done != [] && child !in level
    requires Edge(adj, done[|done| - 1], child)
    ensures WalkState(adj, start, done, queue + [child], level[child := level[done[|done| - 1]] + 1])
  {
    var cur := done[|done| - 1];
    var all, level' := done + queue, level[child := level[cur] + 1];
    assert done + (queue + [child]) == all + [child];
    assert all[|done| - 1] == cur;
    forall i | 0 <= i < |all| ensures level[all[i]] <= level[cur] + 1 {
      KnownIsNear(adj, start, done, queue, level, all[i]);
    }
    assert child !in all;
    var p :| WalkFromTo(adj, p, start, cur) && |p| == level[cur] + 1;
    JoinWalks(adj, p, [cur, child], start, cur, child);
  }

  /** When every known name was expanded, every walk leads to a known name, and not below its level. */
  lemma LevelsAreLeast(adj: Adjacency, start: Name, level: map<Name, nat>, y: Name, n: nat)
    requires start in level && level[start] == 0
    requires forall x :: x in level ==> Expanded(adj, x, level)
    requires WalkOfLength(adj, start, y, n)
    ensures y in level && level[y] <= n
  {
    var p :| WalkFromTo(adj, p, start, y) && |p| == n + 1;
    var i := 0;
    while i < n
      invariant 0 <= i <= n && p[i] in level && level[p[i]] <= i
    {
      assert Expanded(adj, p[i], level) && Edge(adj, p[i], p[i + 1]);
      i := i + 1;
    }
  }

  /** At the end the levels are the distances, and the known names the reachable ones. */
  lemma LevelsAreDistances(adj: Adjacency, start: Name, done: seq<Name>, level: map<Name, nat>)
    requires WalkState(adj, start, done, [], level)
    requires forall x :: x in done ==> Expanded(adj, x, level)
    ensures forall v :: v in level ==> Distance(adj, start, v, level[v])
    ensures forall v :: v in level <==> Reaches(adj, start, v)
  {
    assert done + [] == done;
    forall v, m: nat | WalkOfLength(adj, start, v, m) ensures v in level && level[v] <= m {
      LevelsAreLeast(adj, start, level, v, m);
    }
    forall v ensures v in level <==> Reaches(adj, start, v) {
      if Reaches(adj, start, v) {
        var p :| WalkFromTo(adj, p, start, v);
        assert WalkOfLength(adj, start, v, |p| - 1);
      }
    }
  }

  ghost predicate AllExpanded(adj: Adjacency, done: seq<Name>, level: map<Name, nat>) {
    forall x | x in done :: Expanded(adj, x, level)
  }

  /** The walk between two turns: all dequeued names have been expanded. */
  ghost predicate Walking(adj: Adjacency, start: Name, done: seq<Name>, queue: seq<Name>, level: map<Name, nat>) {
    WalkState(adj, start, done, queue, level) && (done == [] ==> |queue| == 1) && AllExpanded(adj, done, level)
  }

  /** Dequeue the next name, which was not dequeued before. */
  lemma NextTurn(adj: Adjacency, start: Name, done: seq<Name>, queue: seq<Name>, level: map<Name, nat>)
    requires Walking(adj, start, done, queue, level) && queue != []
    ensures WalkState(adj, start, done + [queue[0]], queue[1..], level) && AllExpanded(adj, done, level)
    ensures queue[0] !in done && queue[0] in Vertices(adj) + {start}
  {
    hide WalkState, Vertices, Expanded;
    HeadIsNew(adj, start, done, queue, level);
    QueueSpan(adj, start, done, queue, level);
    DequeueState(adj, start, done, queue, level);
  }

  /** The list that leaves out one name. */
  function Without(s: seq<Name>, x: Name): seq<Name> {
    if s == [] then []
    else Without(s[..|s| - 1], x) + (if s[|s| - 1] == x then [] else [s[|s| - 1]])
  }

  lemma WithoutSnoc(s: seq<Name>, y: Name, x: Name)
    ensures Without(s + [y], x) == if y == x then Without(s, x) else Without(s, x) + [y]
  {
    assert (s + [y])[..|s|] == s;
  }

  lemma {:induction false} WithoutHas(s: seq<Name>, x: Name, y: Name)
    ensures y in Without(s, x) <==> y in s && y != x
  {
    if s != [] {
      var k := |s| - 1;
      WithoutHas(s[..k], x, y);
      assert y in s <==> y in s[..k] || y == s[k] by { assert s == s[..k] + [s[k]]; }
    }
  }

  lemma DistinctSnoc(s: seq<Name>, y: Name)
    ensures Distinct(s + [y]) <==> Distinct(s) && y !in s
  {
    var t := s + [y];
    if Distinct(t) {
      forall i, j | 0 <= i < j < |s| ensures s[i] != s[j] { assert t[i] != t[j]; }
      forall i | 0 <= i < |s| ensures s[i] != y { assert t[i] != t[|s|]; }
    }
  }

  lemma {:induction false} WithoutDistinct(s: seq<Name>, x: Name)
    requires Distinct(s)
    ensures Distinct(Without(s, x))
  {
    hide Distinct;
    if s == [] {
      NoneDistinct();
    } else {
      var k := |s| - 1;
      assert s == s[..k] + [s[k]];
      WithoutSnoc(s[..k], s[k], x);
      DistinctSnoc(s[..k], s[k]);
      WithoutDistinct(s[..k], x);
      WithoutHas(s[..k], x, s[k]);
      DistinctSnoc(Without(s[..k], x), s[k]);
    }
  }

  lemma NoneDistinct()
    ensures Distinct([])
  {
  }

  /** A name at a level that no listed name exceeds. */
  ghost predicate LevelAbove(s: seq<Name>, y: Name, level: map<Name, nat>) {
    y in level && forall x | x in s :: x in level && level[x] <= level[y]
  }

  lemma RisingSnoc(s: seq<Name>, y: Name, level: map<Name, nat>)
    ensures Rising(s + [y], level) <==> Rising(s, level) && LevelAbove(s, y, level)
  {
    var t := s + [y];
    if Rising(t, level) {
      forall i | 0 <= i < |s| ensures s[i] in level && level[s[i]] <= level[y] {
        assert t[i] == s[i] && t[|s|] == y;
      }
      forall i, j | 0 <= i < j < |s| ensures level[s[i]] <= level[s[j]] {
        assert t[i] == s[i] && t[j] == s[j];
      }
    }
    if Rising(s, level) && LevelAbove(s, y, level) {
      forall i, j | 0 <= i < j < |t| ensures t[i] in level && t[j] in level && level[t[i]] <= level[t[j]] {
        assert t[i] == s[i];
        if j < |s| {
          assert t[j] == s[j];
        }
      }
      assert t[|s|] == y;
    }
  }

  lemma {:induction false} WithoutRises(s: seq<Name>, x: Name, level: map<Name, nat>)
    requires Rising(s, level)
    ensures Rising(Without(s, x), level)
  {
    hide Rising;
    if s == [] {
      NoneRises(level);
    } else {
      var k := |s| - 1;
      assert s == s[..k] + [s[k]];
      WithoutSnoc(s[..k], s[k], x);
      RisingSnoc(s[..k], s[k], level);
      WithoutRises(s[..k], x, level);
      forall y | y in Without(s[..k], x) ensures y in s[..k] {
        WithoutHas(s[..k], x, y);
      }
      RisingSnoc(Without(s[..k], x), s[k], level);
    }
  }

  lemma NoneRises(level: map<Name, nat>)
    ensures Rising([], level)
  {
  }

  /** The names that can be reached from the start, one left out: each once, in order of distance. */
  ghost predicate ReachedInOrder(adj: Adjacency, start: Name, omit: Name, order: seq<Name>) {
    && Distinct(order)
    && (forall y :: y in order <==> Reaches(adj, start, y) && y != omit)
    && forall i, j, m: nat, n: nat |
         0 <= i < j < |order| && Distance(adj, start, order[i], m) && Distance(adj, start, order[j], n) :: m <= n
  }

  lemma LevelsGiveOrder(adj: Adjacency, start: Name, omit: Name, done: seq<Name>, level: map<Name, nat>)
    requires Walking(adj, start, done, [], level)
    ensures ReachedInOrder(adj, start, omit, Without(done, omit))
  {
    assert done + [] == done;
    LevelsAreDistances(adj, start, done, level);
    hide Distance, Distinct, Rising, LevelsAreWalks, Expanded;
    WithoutDistinct(done, omit);
    WithoutRises(done, omit, level);
    forall y ensures y in Without(done, omit) <==> y in done && y != omit {
      WithoutHas(done, omit, y);
    }
    LevelsOrder(adj, start, Without(done, omit), level);
  }

  /** A list that rises by level is in order of distance, if the levels are the distances. */
  lemma LevelsOrder(adj: Adjacency, start: Name, order: seq<Name>, level: map<Name, nat>)
    requires Rising(order, level) && forall y | y in order :: Distance(adj, start, y, level[y])
    ensures forall i, j, m: nat, n: nat |
              0 <= i < j < |order| && Distance(adj, start, order[i], m) && Distance(adj, start, order[j], n) :: m <= n
  {
    hide Distance;
    forall i, j, m: nat, n: nat |
      0 <= i < j < |order| && Distance(adj, start, order[i], m) && Distance(adj, start, order[j], n)
      ensures m <= n
    {
      DistanceUnique(adj, start, order[i], m, level[order[i]]);
      DistanceUnique(adj, start, order[j], n, level[order[j]]);
    }
  }

  lemma DistanceUnique(adj: Adjacency, x: Name, y: Name, m: nat, n: nat)
    requires Distance(adj, x, y, m) && Distance(adj, x, y, n)
    ensures m == n
  {
  }

  lemma HeadIsKnown(adj: Adjacency, start: Name, done: seq<Name>, queue: seq<Name>, level: map<Name, nat>)
    requires WalkState(adj, start, done, queue, level) && done != []
    ensures done[|done| - 1] in level
  {
    assert (done + queue)[|done| - 1] == done[|done| - 1];
  }

  lemma HeadIsNew(adj: Adjacency, start: Name, done: seq<Name>, queue: seq<Name>, level: map<Name, nat>)
    requires WalkState(adj, start, done, queue, level) && queue != []
    ensures queue[0] !in done && queue[0] in Vertices(adj) + {start}
  {
    var all := done + queue;
    assert all[|done|] == queue[0];
    assert forall i :: 0 <= i < |done| ==> all[i] == done[i];
    var p :| WalkFromTo(adj, p, start, queue[0]) && |p| == level[queue[0]] + 1;
    if |p| > 1 {
      EdgeEndsAreVertices(adj, p[|p| - 2], p[|p| - 1]);
    }
  }
}
