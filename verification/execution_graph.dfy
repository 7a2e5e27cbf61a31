/**
  The execution graph: stages under their names, edges in two adjacency maps that are
  appended to in place, and a depth-first search for cycles after every new edge.
 */
module ExecutionGraphs {
  import opened Digraph
  import opened Stages
  import opened BreadthFirst

  /** The two mark tables of one depth-first search, shared by its recursive calls. */
  class Marks {
    var visited: map<Name, bool>
    var inStack: map<Name, bool>

    constructor ()
      ensures visited == map[] && inStack == map[]
    {
      visited, inStack := map[], map[];
    }
  }

  function Lookup(nodes: map<Name, Stage>, name: Name): Option<Stage> {
    if name in nodes then Some(nodes[name]) else None
  }

  /** What is stored under a name: a stage of the graph, or nothing. */
  ghost predicate IsAt(nodes: map<Name, Stage>, n: Name, s: Option<Stage>) {
    (s.Some? <==> n in nodes) && (s.Some? ==> s.value == nodes[n])
  }

  /** A name that was never written reads as unmarked. */
  predicate Marked(m: map<Name, bool>, x: Name) {
    x in m && m[x]
  }

  ghost function On(m: map<Name, bool>): set<Name> {
    set x | x in m && m[x]
  }

  lemma OnUpdate(m: map<Name, bool>, x: Name)
    ensures On(m[x := true]) == On(m) + {x}
    ensures On(m[x := false]) == On(m) - {x}
  {
  }

  /** Closed under edges and on no cycle: what a search knows of the names it has left. */
  ghost predicate Settled(adj: Adjacency, s: set<Name>) {
    ClosedUnder(adj, s) && forall x | x in s :: !Follows(adj, x, x)
  }

  lemma SettleOne(adj: Adjacency, s: set<Name>, x: Name)
    requires Settled(adj, s)
    requires forall y | Edge(adj, x, y) :: y in s
    ensures Settled(adj, s + {x})
  {
    if Follows(adj, x, x) && x !in s {
      var y := FollowsSplit(adj, x, x);
      ClosedHoldsReachable(adj, s, y, x);
    }
  }

  /** Every name on the search stack leads to the name being searched. */
  ghost predicate StackLeadsTo(adj: Adjacency, stack: set<Name>, x: Name) {
    forall s | s in stack :: Follows(adj, s, x)
  }

  lemma StackStep(adj: Adjacency, stack: set<Name>, x: Name, y: Name)
    requires StackLeadsTo(adj, stack, x) && Edge(adj, x, y)
    ensures StackLeadsTo(adj, stack + {x}, y)
    ensures y in stack + {x} ==> !Acyclic(adj) && Reaches(adj, y, x)
  {
    EdgeFollows(adj, x, y);
    forall s | s in stack ensures Follows(adj, s, y) {
      FollowsReaches(adj, s, x);
      ReachesTrans(adj, s, x, y);
    }
    ReachesRefl(adj, x);
  }

  /** The marks between two steps of a search: the stack is visited, the rest is settled. */
  ghost predicate SearchState(adj: Adjacency, visited: set<Name>, stack: set<Name>) {
    stack <= visited && Settled(adj, visited - stack)
  }

  ghost function Elements(s: seq<Name>): set<Name> {
    set x | x in s
  }

  /** The names that are still to be dequeued. */
  ghost function Undone(adj: Adjacency, start: Name, done: seq<Name>): set<Name> {
    Vertices(adj) + {start} - Elements(done)
  }

  lemma OneUndoneLess(adj: Adjacency, start: Name, done: seq<Name>, x: Name)
    requires x in Vertices(adj) + {start} && x !in done
    ensures Undone(adj, start, done + [x]) < Undone(adj, start, done)
  {
    assert Elements(done + [x]) == Elements(done) + {x};
    assert x in Undone(adj, start, done);
  }

  /** A stage that a listing from a start shows. */
  ghost predicate Shown(nodes: map<Name, Stage>, children: Adjacency, start: Name, n: Name, s: Option<Stage>) {
    n != ROOT && Reaches(children, start, n) && IsAt(nodes, n, s)
  }

  /** A list of stages looked up by their names. */
  ghost predicate Listed(nodes: map<Name, Stage>, stages: seq<Option<Stage>>, order: seq<Name>) {
    |stages| == |order| && forall i | 0 <= i < |stages| :: IsAt(nodes, order[i], stages[i])
  }

  lemma NoneListed(nodes: map<Name, Stage>)
    ensures Listed(nodes, [], [])
  {
  }

  lemma OneMoreListed(nodes: map<Name, Stage>, stages: seq<Option<Stage>>, order: seq<Name>, x: Name)
    requires Listed(nodes, stages, order)
    ensures Listed(nodes, stages + [Lookup(nodes, x)], order + [x])
  {
  }

  lemma FirstTurn(adj: Adjacency, start: Name, visited: map<Name, bool>, level: map<Name, nat>)
    requires visited == map[start := true] && level == map[start := 0]
    ensures Walking(adj, start, [], [start], level) && On(visited) == level.Keys
  {
    FirstState(adj, start);
  }

  /** A list in breadth-first order shows exactly the reachable stages. */
  lemma OrderShows(
    nodes: map<Name, Stage>, children: Adjacency, start: Name, stages: seq<Option<Stage>>, order: seq<Name>)
    requires Listed(nodes, stages, order) && ReachedInOrder(children, start, ROOT, order)
    ensures forall s :: s in stages <==> exists n :: Shown(nodes, children, start, n, s)
  {
    hide Reaches;
    forall s ensures s in stages <==> exists n :: Shown(nodes, children, start, n, s) {
      if n :| Shown(nodes, children, start, n, s) {
        assert n in order;
        var i :| 0 <= i < |order| && order[i] == n;
        assert stages[i] == s;
      }
      if s in stages {
        var i :| 0 <= i < |stages| && stages[i] == s;
        assert order[i] in order;
        assert Shown(nodes, children, start, order[i], s);
      }
    }
  }

  /** A stage has come to hang below all its dependencies, or below the root node if it has none. */
  ghost predicate AddedBelow(
    before: Adjacency, beforeP: Adjacency, after: Adjacency, afterP: Adjacency, stage: Stage)
  {
    var deps := if stage.dependsOn == [] then ["root"] else stage.dependsOn;
    && afterP == beforeP[stage.name := (if stage.name in beforeP then beforeP[stage.name] else []) + deps]
    && forall a, b :: Edge(after, a, b) <==> Edge(before, a, b) || (b == stage.name && a in deps)
  }

  lemma HungIsAdded(before: Adjacency, beforeP: Adjacency, stage: Stage)
    ensures AddedBelow(before, beforeP, Hang(before, stage.Deps(), stage.name),
                       ListUnder(beforeP, stage.Deps(), stage.name), stage)
  {
    forall a, b { HangEdge(before, stage.Deps(), stage.name, a, b); }
  }

  class ExecutionGraph {
    var name: string
    var env: Env
    var errors: seq<Error>
    var nodes: map<Name, Stage>
    var parent: Adjacency
    var children: Adjacency

    ghost predicate Valid()
      reads this
    {
      && ROOT in nodes
      && (forall n | n in nodes && n != ROOT :: nodes[n].name == n)
      && Inverse(parent, children)
    }

    /** The graph as a value. */
    function Snapshot(): Graph
      reads this
    {
      Graph(name, env, nodes, parent, children)
    }

    /** A graph with the root node only. */
    constructor (name: string)
      ensures Valid()
      ensures this.name == name && env == map[] && errors == []
      ensures Snapshot() == EmptyGraph(name)
      ensures nodes.Keys == {"root"} && parent == map[] && children == map[]
      ensures var s := nodes["root"];
              s.name == name && s.dependsOn == [] && s.condition == "" && !s.allowFailure && s.env == map[] &&
              s.body == Nothing
    {
      this.name, env, errors := name, map[], [];
      nodes, parent, children := map[ROOT := RootStage(name)], map[], map[];
    }

    method AddNode(name: Name, stage: Stage)
      modifies this`nodes
      ensures nodes == old(nodes)[name := stage]
    {
      nodes := nodes[name := stage];
    }

    /** Depth-first search from an unvisited node; a node on the stack that is met again closes a cycle. */
    method CycleDfs(node: Name, marks: Marks) returns (r: Outcome)
      requires SearchState(children, On(marks.visited), On(marks.inStack))
      requires StackLeadsTo(children, On(marks.inStack), node)
      requires node !in On(marks.visited)
      modifies marks
      ensures r.Pass? ==>
                && SearchState(children, On(marks.visited), On(marks.inStack))
                && On(marks.inStack) == old(On(marks.inStack))
                && old(On(marks.visited)) + {node} <= On(marks.visited)
      ensures r.Fail? ==>
                && !Acyclic(children)
                && r.error.CycleDetected?
                && Edge(children, r.error.node, r.error.child)
                && Reaches(children, r.error.child, r.error.node)
      decreases Vertices(children) + {node} - On(marks.visited)
    {
      ghost var adj, stack, seen := children, On(marks.inStack), On(marks.visited);
      OnUpdate(marks.visited, node);
      OnUpdate(marks.inStack, node);
      marks.visited := marks.visited[node := true];
      marks.inStack := marks.inStack[node := true];
      assert seen + {node} - (stack + {node}) == seen - stack;
      var list := Succ(children, node);
      var i := 0;
      while i < |list|
        invariant 0 <= i <= |list|
        invariant On(marks.inStack) == stack + {node}
        invariant seen + {node} <= On(marks.visited)
        invariant SearchState(adj, On(marks.visited), stack + {node})
        invariant forall j | 0 <= j < i :: list[j] in On(marks.visited) - (stack + {node})
      {
        var child := list[i];
        StackStep(adj, stack, node, child);
        if !Marked(marks.visited, child) {
          EdgeEndsAreVertices(adj, node, child);
          r := CycleDfs(child, marks);
          if r.Fail? {
            return;
          }
        }
        if Marked(marks.inStack, child) {
          assert child in On(marks.inStack);
          return Fail(CycleDetected(name, child, node));
        }
        i := i + 1;
      }
      SettleOne(adj, On(marks.visited) - (stack + {node}), node);
      assert On(marks.visited) - (stack + {node}) + {node} == On(marks.visited) - stack;
      OnUpdate(marks.inStack, node);
      marks.inStack := marks.inStack[node := false];
      assert On(marks.inStack) == stack;
      r := Pass;
    }

    /** Append the edge to both maps, then search from its start. */
    method AddEdge(from: Name, to: Name) returns (r: Outcome)
      requires Acyclic(children) && Inverse(parent, children)
      modifies this`parent, this`children
      ensures children == Append(old(children), from, to)
      ensures parent == Append(old(parent), to, from)
      ensures children == old(children)[from := (if from in old(children) then old(children)[from] else []) + [to]]
      ensures parent == old(parent)[to := (if to in old(parent) then old(parent)[to] else []) + [from]]
      ensures r.Pass? <==> Acyclic(children)
      ensures r.Pass? <==> !Reaches(old(children), to, from)
      ensures Inverse(parent, children)
    {
      ghost var before := children;
      InverseAppend(parent, children, from, to);
      parent := Append(parent, to, from);
      children := Append(children, from, to);
      var marks := new Marks();
      assert On(marks.visited) == {} && On(marks.inStack) == {};
      r := CycleDfs(from, marks);
      if r.Pass? {
        assert On(marks.inStack) == {};
        assert !Follows(children, from, from);
        forall v ensures !Follows(children, v, v) {
          if Follows(children, v, v) {
            NewCycleUsesNewEdge(before, from, to, v);
          }
        }
      }
      NewEdgeCycle(before, from, to);
    }

    /** Hang a name under a list of others, stopping at the first edge that closes a cycle. */
    method AddEdges(deps: seq<Name>, name: Name) returns (r: Outcome)
      requires Acyclic(children) && Inverse(parent, children)
      modifies this`parent, this`children
      ensures Inverse(parent, children)
      ensures r.Pass? <==> Acyclic(children)
      ensures HungUnder(old(children), old(parent), children, parent, deps, Grown(old(parent), parent, name), name)
      ensures r.Pass? ==> Grown(old(parent), parent, name) == |deps|
      ensures r.Fail? ==> !Acyclic(Hang(old(children), deps, name))
    {
      hide Acyclic, Inverse, Reaches, Append, Hang, ListUnder;
      ghost var before, beforeP := children, parent;
      HangNothing(before, beforeP, deps, name);
      var i := 0;
      while i < |deps|
        invariant 0 <= i <= |deps|
        invariant HungUnder(before, beforeP, children, parent, deps, i, name)
        invariant Grown(beforeP, parent, name) == i
        invariant Acyclic(children) && Inverse(parent, children)
      {
        HangStep(before, beforeP, deps, i, name);
        r := AddEdge(deps[i], name);
        i := i + 1;
        if r.Fail? {
          HangMonotone(before, deps, i, name);
          return;
        }
      }
      r := Pass;
    }

    /**
      Add a stage under its dependencies, or under the root node when it has none.  The stage
      is refused exactly when its edges would close a cycle; the edges up to the offending one
      stay in the graph.
     */
    method AddStage(stage: Stage) returns (r: Outcome)
      requires Valid() && Acyclic(children)
      modifies this`nodes, this`parent, this`children
      ensures Valid()
      ensures nodes == old(nodes)[stage.name := stage]
      ensures r.Pass? <==> Acyclic(children)
      ensures r.Pass? <==> Acyclic(Hang(old(children), stage.Deps(), stage.name))
      ensures var k := Grown(old(parent), parent, stage.name);
              && HungUnder(old(children), old(parent), children, parent, stage.Deps(), k, stage.name)
              && (r.Pass? ==> k == |stage.Deps()|)
      ensures r.Pass? ==> AddedBelow(old(children), old(parent), children, parent, stage)
    {
      hide Acyclic, Inverse, Reaches, Append, Hang, ListUnder, Edge, AddedBelow;
      ghost var before, beforeP := children, parent;
      AddNode(stage.name, stage);
      if |stage.dependsOn| == 0 {
        HangNothing(children, parent, stage.Deps(), stage.name);
        HangStep(children, parent, stage.Deps(), 0, stage.name);
        r := AddEdge(ROOT, stage.name);
        assert stage.Deps()[..1] == stage.Deps() && stage.Deps()[..0] == [];
      } else {
        r := AddEdges(stage.dependsOn, stage.name);
        assert stage.Deps()[..|stage.Deps()|] == stage.Deps();
      }
      if r.Pass? {
        HungAll(before, beforeP, children, parent, stage.Deps(), stage.name);
        HungIsAdded(before, beforeP, stage);
      }
    }

    /** The stages an edge leads from, by name; a dependency that is no stage of the graph has no entry value. */
    method Parents(name: Name) returns (stages: map<Name, Option<Stage>>)
      ensures stages.Keys == set p | p in Succ(parent, name)
      ensures forall p | p in stages :: IsAt(nodes, p, stages[p])
      ensures Valid() ==> forall p | p in stages && stages[p].Some? && p != ROOT :: stages[p].value.name == p
    {
      stages := map[];
      var list := Succ(parent, name);
      for i := 0 to |list|
        invariant stages.Keys == set j | 0 <= j < i :: list[j]
        invariant forall p | p in stages :: stages[p] == Lookup(nodes, p)
      {
        stages := stages[list[i] := Lookup(nodes, list[i])];
      }
    }

    /** One turn of the breadth-first walk: put the unvisited children of the dequeued node in the queue. */
    method EnqueueChildren(
      current: Name, visited: map<Name, bool>, queue: seq<Name>,
      ghost start: Name, ghost before: seq<Name>, ghost level: map<Name, nat>)
      returns (visited': map<Name, bool>, queue': seq<Name>, ghost level': map<Name, nat>)
      requires WalkState(children, start, before + [current], queue, level) && AllExpanded(children, before, level)
      requires On(visited) == level.Keys
      ensures Walking(children, start, before + [current], queue', level')
      ensures On(visited') == level'.Keys
    {
      hide WalkState;
      ghost var done := before + [current];
      HeadIsKnown(children, start, done, queue, level);
      visited', queue', level' := visited, queue, level;
      var list := Succ(children, current);
      var i := 0;
      while i < |list|
        invariant 0 <= i <= |list|
        invariant WalkState(children, start, done, queue', level')
        invariant On(visited') == level'.Keys
        invariant forall x | x in before :: Expanded(children, x, level')
        invariant current in level' && level'[current] == level[current]
        invariant forall j | 0 <= j < i :: list[j] in level' && level'[list[j]] <= level'[current] + 1
      {
        var child := list[i];
        if !Marked(visited', child) {
          EnqueueState(children, start, done, queue', level', child);
          OnUpdate(visited', child);
          queue' := queue' + [child];
          visited' := visited'[child := true];
          level' := level'[child := level'[current] + 1];
        } else {
          assert child in On(visited');
          KnownIsNear(children, start, done, queue', level', child);
        }
        i := i + 1;
      }
    }

    /**
      The stages that can be reached from a node, the root node left out: each once, in
      order of distance.
     */
    method BFSNodesFlattened(nodeName: Name) returns (stages: seq<Option<Stage>>, ghost order: seq<Name>)
      ensures Listed(nodes, stages, order) && ReachedInOrder(children, nodeName, ROOT, order)
      ensures forall s :: s in stages <==> exists n :: Shown(nodes, children, nodeName, n, s)
      ensures Valid() ==> forall i | 0 <= i < |stages| && stages[i].Some? :: stages[i].value.name == order[i]
    {
      hide Walking, ReachedInOrder, Lookup, IsAt, Valid, Undone, Vertices, On, Shown, Reaches;
      hide Listed, WalkState, AllExpanded;
      stages := [];
      var queue := [nodeName];
      var visited: map<Name, bool> := map[];
      visited := visited[nodeName := true];
      ghost var done: seq<Name>, level: map<Name, nat> := [], map[nodeName := 0];
      FirstTurn(children, nodeName, visited, level);
      order := [];
      NoneListed(nodes);
      while |queue| > 0
        invariant Walking(children, nodeName, done, queue, level)
        invariant On(visited) == level.Keys
        invariant order == Without(done, ROOT) && Listed(nodes, stages, order)
        decreases Undone(children, nodeName, done)
      {
        var current := queue[0];
        NextTurn(children, nodeName, done, queue, level);
        queue := queue[1..];
        OneUndoneLess(children, nodeName, done, current);
        WithoutSnoc(done, current, ROOT);
        OneMoreListed(nodes, stages, order, current);
        if current != ROOT {
          stages := stages + [Lookup(nodes, current)];
          order := order + [current];
        }
        visited, queue, level := EnqueueChildren(current, visited, queue, nodeName, done, level);
        done := done + [current];
      }
      LevelsGiveOrder(children, nodeName, ROOT, done, level);
      OrderShows(nodes, children, nodeName, stages, order);
      if Valid() {
        ListedByName(stages, order, nodeName);
      }
    }

    /** A stage in a list is listed under its name. */
    lemma ListedByName(stages: seq<Option<Stage>>, order: seq<Name>, start: Name)
      requires Valid() && Listed(nodes, stages, order) && ReachedInOrder(children, start, ROOT, order)
      ensures forall i | 0 <= i < |stages| && stages[i].Some? :: stages[i].value.name == order[i]
    {
      hide Reaches, Distance, Distinct;
      forall i | 0 <= i < |stages| && stages[i].Some? ensures stages[i].value.name == order[i] {
        assert order[i] in order;
        assert IsAt(nodes, order[i], stages[i]);
      }
    }

    /** The stage under a name. */
    method Node(name: Name) returns (r: Option<Stage>)
      ensures IsAt(nodes, name, r)
      ensures Valid() && r.Some? && name != ROOT ==> r.value.name == name
    {
      if name in nodes {
        return Some(nodes[name]);
      }
      return None;
    }
  }
}
