/**
  Reachability in the adjacency lists of an execution graph.

  An execution graph stores its edges in two maps from a stage name to a list of stage
  names.  A name that is missing from such a map has the empty list.  Everything here is
  about one of these maps, read as the successor lists of a finite directed graph.
 */
module Digraph {

  type Name = string
  type Adjacency = map<Name, seq<Name>>

  /** The list stored under a name; a missing key reads as the empty list. */
  function Succ(adj: Adjacency, x: Name): seq<Name> {
    if x in adj then adj[x] else []
  }

  predicate Edge(adj: Adjacency, x: Name, y: Name) {
    y in Succ(adj, x)
  }

  /** Append one entry to the list of a name. */
  function Append(adj: Adjacency, x: Name, y: Name): Adjacency {
    adj[x := Succ(adj, x) + [y]]
  }

  lemma AppendEdges(adj: Adjacency, x: Name, y: Name)
    ensures forall a, b :: Edge(Append(adj, x, y), a, b) <==> Edge(adj, a, b) || (a == x && b == y)
  {
  }

  /** Every name the map mentions: finite, so a search that marks names ends. */
  ghost function Vertices(adj: Adjacency): set<Name> {
    adj.Keys + set x, i | x in adj && 0 <= i < |adj[x]| :: adj[x][i]
  }

  lemma EdgeEndsAreVertices(adj: Adjacency, x: Name, y: Name)
    requires Edge(adj, x, y)
    ensures x in Vertices(adj) && y in Vertices(adj)
  {
    var i :| 0 <= i < |adj[x]| && adj[x][i] == y;
  }

  ghost predicate IsWalk(adj: Adjacency, p: seq<Name>) {
    |p| > 0 && forall i :: 0 <= i < |p| - 1 ==> Edge(adj, p[i], p[i + 1])
  }

  ghost predicate WalkFromTo(adj: Adjacency, p: seq<Name>, x: Name, y: Name) {
    IsWalk(adj, p) && p[0] == x && p[|p| - 1] == y
  }

  /** y can be reached from x in zero or more steps. */
  ghost predicate Reaches(adj: Adjacency, x: Name, y: Name) {
    exists p :: WalkFromTo(adj, p, x, y)
  }

  /** y can be reached from x in one or more steps. */
  ghost predicate Follows(adj: Adjacency, x: Name, y: Name) {
    exists p :: WalkFromTo(adj, p, x, y) && |p| > 1
  }

  ghost predicate Acyclic(adj: Adjacency) {
    forall x :: !Follows(adj, x, x)
  }

  lemma ReachesRefl(adj: Adjacency, x: Name)
    ensures Reaches(adj, x, x)
  {
    assert WalkFromTo(adj, [x], x, x);
  }

  lemma EdgeFollows(adj: Adjacency, x: Name, y: Name)
    requires Edge(adj, x, y)
    ensures Follows(adj, x, y) && Reaches(adj, x, y)
  {
    assert WalkFromTo(adj, [x, y], x, y);
  }

  lemma JoinWalks(adj: Adjacency, p: seq<Name>, q: seq<Name>, x: Name, y: Name, z: Name)
    requires WalkFromTo(adj, p, x, y) && WalkFromTo(adj, q, y, z)
    ensures WalkFromTo(adj, p + q[1..], x, z)
  {
    var r := p + q[1..];
    forall i | 0 <= i < |r| - 1 ensures Edge(adj, r[i], r[i + 1]) {
      if i >= |p| - 1 {
        assert r[i] == q[i - (|p| - 1)] && r[i + 1] == q[i + 1 - (|p| - 1)];
      }
    }
  }

  lemma ReachesTrans(adj: Adjacency, x: Name, y: Name, z: Name)
    requires Reaches(adj, x, y) && Reaches(adj, y, z)
    ensures Reaches(adj, x, z)
    ensures Follows(adj, x, y) || Follows(adj, y, z) ==> Follows(adj, x, z)
  {
    var p :| WalkFromTo(adj, p, x, y) && (Follows(adj, x, y) ==> |p| > 1);
    var q :| WalkFromTo(adj, q, y, z) && (Follows(adj, y, z) ==> |q| > 1);
    JoinWalks(adj, p, q, x, y, z);
  }

  lemma FollowsReaches(adj: Adjacency, x: Name, y: Name)
    requires Follows(adj, x, y)
    ensures Reaches(adj, x, y)
  {
  }

  lemma EmptyIsAcyclic(adj: Adjacency)
    requires forall x, y :: !Edge(adj, x, y)
    ensures Acyclic(adj)
  {
    forall x ensures !Follows(adj, x, x) {
      if Follows(adj, x, x) {
        var s := FollowsSplit(adj, x, x);
      }
    }
  }

  /** A non-empty walk leaves its start by one edge. */
  lemma FollowsSplit(adj: Adjacency, x: Name, y: Name) returns (s: Name)
    requires Follows(adj, x, y)
    ensures Edge(adj, x, s) && Reaches(adj, s, y)
  {
    var p :| WalkFromTo(adj, p, x, y) && |p| > 1;
    s := p[1];
    assert WalkFromTo(adj, p[1..], s, y);
  }

  ghost predicate ClosedUnder(adj: Adjacency, s: set<Name>) {
    forall x, y :: x in s && Edge(adj, x, y) ==> y in s
  }

  /** A closed set holds everything that can be reached from its members. */
  lemma ClosedHoldsReachable(adj: Adjacency, s: set<Name>, x: Name, y: Name)
    requires ClosedUnder(adj, s) && x in s && Reaches(adj, x, y)
    ensures y in s
  {
    var p :| WalkFromTo(adj, p, x, y);
    var i := 0;
    while i < |p| - 1
      invariant 0 <= i < |p| && p[i] in s
    {
      assert Edge(adj, p[i], p[i + 1]);
      i := i + 1;
    }
  }

  lemma WalkMonotone(small: Adjacency, big: Adjacency, x: Name, y: Name)
    requires forall a, b :: Edge(small, a, b) ==> Edge(big, a, b)
    ensures Reaches(small, x, y) ==> Reaches(big, x, y)
    ensures Follows(small, x, y) ==> Follows(big, x, y)
  {
    if Reaches(small, x, y) {
      var p :| WalkFromTo(small, p, x, y) && (Follows(small, x, y) ==> |p| > 1);
      assert WalkFromTo(big, p, x, y);
    }
    if Follows(small, x, y) {
      var p :| WalkFromTo(small, p, x, y) && |p| > 1;
      assert WalkFromTo(big, p, x, y);
    }
  }

  lemma AcyclicMonotone(small: Adjacency, big: Adjacency)
    requires forall a, b :: Edge(small, a, b) ==> Edge(big, a, b)
    requires Acyclic(big)
    ensures Acyclic(small)
  {
    forall x ensures !Follows(small, x, x) {
      WalkMonotone(small, big, x, x);
    }
  }

  /** Some step of a closed walk is not a step of an acyclic graph. */
  lemma ClosedWalkLeaves(adj: Adjacency, p: seq<Name>) returns (i: nat)
    requires Acyclic(adj) && |p| > 1 && p[0] == p[|p| - 1]
    ensures i < |p| - 1 && !Edge(adj, p[i], p[i + 1])
  {
    i := 0;
    while Edge(adj, p[i], p[i + 1])
      invariant i < |p| - 1 && WalkFromTo(adj, p[..i + 1], p[0], p[i])
      decreases |p| - i
    {
      assert WalkFromTo(adj, p[..i + 2], p[0], p[i + 1]);
      assert Follows(adj, p[0], p[i + 1]);
      i := i + 1;
    }
  }

  /** A cycle that appears with a new edge runs through that edge, so through its start. */
  lemma NewCycleUsesNewEdge(old_: Adjacency, x: Name, y: Name, v: Name)
    requires Acyclic(old_)
    requires Follows(Append(old_, x, y), v, v)
    ensures Follows(Append(old_, x, y), x, x)
  {
    var adj := Append(old_, x, y);
    AppendEdges(old_, x, y);
    var p :| WalkFromTo(adj, p, v, v) && |p| > 1;
    var i := ClosedWalkLeaves(old_, p);
    assert Edge(adj, p[i], p[i + 1]);
    assert WalkFromTo(adj, p[i..], x, v);
    assert WalkFromTo(adj, p[..i + 1], v, x);
    JoinWalks(adj, p[i..], p[..i + 1], x, v, x);
  }

  /** Adding an edge to an acyclic graph closes a cycle exactly when its end already reached its start. */
  lemma NewEdgeCycle(old_: Adjacency, x: Name, y: Name)
    requires Acyclic(old_)
    ensures Acyclic(Append(old_, x, y)) <==> !Reaches(old_, y, x)
  {
    var adj := Append(old_, x, y);
    AppendEdges(old_, x, y);
    if Reaches(old_, y, x) {
      WalkMonotone(old_, adj, y, x);
      EdgeFollows(adj, x, y);
      ReachesTrans(adj, x, y, x);
    } else {
      forall v ensures !Follows(adj, v, v) {
        if Follows(adj, v, v) {
          NewCycleUsesNewEdge(old_, x, y, v);
          var p :| WalkFromTo(adj, p, x, x) && |p| > 1;
          ShortcutAfterLastUse(old_, adj, x, y, p);
        }
      }
    }
  }

  /** The part of a closed walk after its last use of a new edge is a walk of the old graph. */
  lemma ShortcutAfterLastUse(old_: Adjacency, adj: Adjacency, x: Name, y: Name, p: seq<Name>)
    requires forall a, b :: Edge(adj, a, b) ==> Edge(old_, a, b) || (a == x && b == y)
    requires Acyclic(old_) && WalkFromTo(adj, p, x, x) && |p| > 1
    ensures Reaches(old_, y, x)
  {
    var j := ClosedWalkLeaves(old_, p);
    var i := |p| - 1;
    while Edge(old_, p[i - 1], p[i])
      invariant j < i < |p| && WalkFromTo(old_, p[i..], p[i], x)
      decreases i
    {
      assert p[i - 1..] == [p[i - 1]] + p[i..];
      i := i - 1;
    }
    assert Edge(adj, p[i - 1], p[i]);
  }

  /** The names that can be reached from x in one or more steps. */
  ghost function Descendants(adj: Adjacency, x: Name): set<Name> {
    set y | y in Vertices(adj) && Follows(adj, x, y)
  }

  /** In an acyclic graph every edge leads to a name with strictly fewer descendants. */
  lemma DescendantsShrink(adj: Adjacency, x: Name, y: Name)
    requires !Follows(adj, y, y) && Edge(adj, x, y)
    ensures Descendants(adj, y) < Descendants(adj, x)
    ensures |Descendants(adj, y)| < |Descendants(adj, x)|
  {
    EdgeFollows(adj, x, y);
    EdgeEndsAreVertices(adj, x, y);
    forall z | z in Descendants(adj, y) ensures z in Descendants(adj, x) {
      FollowsReaches(adj, y, z);
      ReachesTrans(adj, x, y, z);
    }
    assert y in Descendants(adj, x) && y !in Descendants(adj, y);
    SubsetSize(Descendants(adj, y), Descendants(adj, x));
  }

  lemma SubsetSize<T>(a: set<T>, b: set<T>)
    requires a < b
    ensures |a| < |b|
  {
    assert b == a + (b - a);
    assert |b| == |a| + |b - a|;
  }

  lemma SubsetAtMost<T>(a: set<T>, b: set<T>)
    requires a <= b
    ensures |a| <= |b|
  {
    if a != b {
      SubsetSize(a, b);
    }
  }

  lemma DescendantsBound(adj: Adjacency, x: Name)
    ensures |Descendants(adj, x)| <= |Vertices(adj)|
  {
    SubsetAtMost(Descendants(adj, x), Vertices(adj));
  }

  /** Numbers that fall along every edge between numbered names rule out a cycle, if every edge ends at one. */
  lemma RankedIsAcyclic(adj: Adjacency, rank: map<Name, nat>)
    requires forall a, b :: Edge(adj, a, b) ==> b in rank && (a in rank ==> rank[b] < rank[a])
    ensures Acyclic(adj)
  {
    forall x ensures !Follows(adj, x, x) {
      if Follows(adj, x, x) {
        var p :| WalkFromTo(adj, p, x, x) && |p| > 1;
        assert Edge(adj, p[|p| - 2], p[|p| - 1]);
        var i := 0;
        while i < |p| - 1
          invariant 0 <= i < |p| && p[i] in rank && rank[p[i]] + i <= rank[x]
        {
          assert Edge(adj, p[i], p[i + 1]);
          i := i + 1;
        }
      }
    }
  }
}
