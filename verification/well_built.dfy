/**
  The graphs a pipeline definition yields when it is accepted, alone and nested in each other.
 */
module WellBuiltGraphs {
  import opened Digraph
  import opened Stages
  import opened BreadthFirst

  /**
    What a graph built without an error satisfies: stages under their own names, both maps
    listing exactly the dependencies, every dependency present, and no cycle.
   */
  ghost predicate WellBuilt(g: Graph) {
    && ROOT in g.nodes && g.nodes[ROOT] == RootStage(g.name)
    && (forall n | n in g.nodes && n != ROOT :: g.nodes[n].name == n)
    && (forall n | n in g.nodes && n != ROOT :: Succ(g.parent, n) == g.nodes[n].Deps())
    && Succ(g.parent, ROOT) == []
    && (forall n :: Succ(g.parent, n) != [] ==> n in g.nodes)
    && (forall n, d | n in g.nodes && d in g.nodes[n].dependsOn :: d in g.nodes)
    && Inverse(g.parent, g.children)
    && Acyclic(g.children)
  }

  /** Every edge of a built graph joins two of its stages, and is a dependency. */
  lemma WellBuiltEdge(g: Graph, a: Name, b: Name)
    requires WellBuilt(g)
    ensures Edge(g.children, a, b) <==> b in g.nodes && b != ROOT && a in g.nodes[b].Deps()
    ensures Edge(g.children, a, b) ==> a in g.nodes
  {
    InverseEdges(g.parent, g.children, a, b);
  }

  /** Every stage of a built graph hangs off the root node: follow dependencies until there is none. */
  lemma {:induction false} ReachableFromRoot(g: Graph, n: Name)
    requires WellBuilt(g) && n in g.nodes
    ensures Reaches(g.children, ROOT, n)
    decreases |Vertices(g.children)| - |Descendants(g.children, n)|
  {
    if n == ROOT {
      ReachesRefl(g.children, ROOT);
    } else {
      var p := g.nodes[n].Deps()[0];
      WellBuiltEdge(g, p, n);
      DescendantsShrink(g.children, p, n);
      DescendantsBound(g.children, p);
      DescendantsBound(g.children, n);
      ReachableFromRoot(g, p);
      EdgeFollows(g.children, p, n);
      ReachesTrans(g.children, ROOT, p, n);
    }
  }

  /** The breadth-first list of a built graph holds every stage. */
  lemma BreadthFirstIsComplete(g: Graph, order: seq<Name>)
    requires WellBuilt(g) && ReachedInOrder(g.children, ROOT, ROOT, order)
    ensures forall n :: n in order <==> n in g.nodes && n != ROOT
  {
    forall n ensures Reaches(g.children, ROOT, n) <==> n in g.nodes {
      if n in g.nodes {
        ReachableFromRoot(g, n);
      }
      forall x, y | x in g.nodes.Keys && Edge(g.children, x, y) ensures y in g.nodes.Keys {
        WellBuiltEdge(g, x, y);
      }
      if Reaches(g.children, ROOT, n) {
        ClosedHoldsReachable(g.children, g.nodes.Keys, ROOT, n);
      }
    }
  }

  /** A graph whose nested pipelines are all well built too. */
  ghost predicate DeepWellBuilt(g: Graph) {
    && WellBuilt(g)
    && forall n | n in g.nodes && g.nodes[n].body.Nested? :: DeepWellBuilt(g.nodes[n].body.graph)
  }

  /** The nested pipeline found by following a path of stage names; the empty path is the graph itself. */
  function GraphAt(top: Graph, path: seq<Name>): Option<Graph> {
    if path == [] then Some(top)
    else if path[0] in top.nodes && top.nodes[path[0]].body.Nested? then
      GraphAt(top.nodes[path[0]].body.graph, path[1..])
    else None
  }

  /** One step further down a path. */
  function Below(g: Option<Graph>, n: Name): Option<Graph> {
    if g.Some? && n in g.value.nodes && g.value.nodes[n].body.Nested? then Some(g.value.nodes[n].body.graph)
    else None
  }

  lemma {:induction false} GraphAtSnoc(top: Graph, path: seq<Name>, n: Name)
    ensures GraphAt(top, path + [n]) == Below(GraphAt(top, path), n)
  {
    if path == [] {
      assert (path + [n])[1..] == [];
    } else {
      assert (path + [n])[1..] == path[1..] + [n];
      if path[0] in top.nodes && top.nodes[path[0]].body.Nested? {
        GraphAtSnoc(top.nodes[path[0]].body.graph, path[1..], n);
      }
    }
  }

}
