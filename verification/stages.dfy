/**
  Stages, tasks and execution graphs as values.

  A stage of a pipeline runs either a task or a whole nested pipeline.  A nested pipeline is
  kept inside its stage, so a graph that several stages share appears here once for each use.
 */
module Stages {
  import opened Digraph

  const ROOT: Name := "root"

  type Env = map<string, string>

  datatype Task = Task(name: string, env: Env)

  /** What a stage runs; the root node of a graph runs nothing. */
  datatype Body = Nothing | Leaf(task: Task) | Nested(graph: Graph)

  datatype Stage = Stage(
    name: Name,
    dependsOn: seq<Name>,
    condition: string,
    allowFailure: bool,
    env: Env,
    body: Body)
  {
    /** The stages an added stage is hung under: its dependencies, or the root node. */
    function Deps(): (d: seq<Name>)
      ensures d != []
    {
      if dependsOn == [] then [ROOT] else dependsOn
    }
  }

  datatype Graph = Graph(
    name: string,
    env: Env,
    nodes: map<Name, Stage>,
    parent: Adjacency,
    children: Adjacency)

  /** The node a graph hangs off: stored under the root name, but itself named like the graph. */
  function RootStage(graph: string): Stage {
    Stage(graph, [], "", false, map[], Nothing)
  }

  /** A graph with the root node only. */
  function EmptyGraph(name: string): Graph {
    Graph(name, map[], map[ROOT := RootStage(name)], map[], map[])
  }

  datatype Option<+T> = None | Some(value: T)

  datatype Error =
    | CycleDetected(pipeline: string, child: Name, node: Name)
    | NodeNotFound(name: Name)
    | StageFailed(name: Name)

  datatype Outcome = Pass | Fail(error: Error)

  /** How often a name occurs in a list. */
  function Count(s: seq<Name>, x: Name): nat {
    multiset(s)[x]
  }

  /** The two adjacency maps list the same edges, each as often as the other. */
  ghost predicate Inverse(parent: Adjacency, children: Adjacency) {
    forall x, y :: Count(Succ(children, x), y) == Count(Succ(parent, y), x)
  }

  lemma InverseEdges(parent: Adjacency, children: Adjacency, x: Name, y: Name)
    requires Inverse(parent, children)
    ensures Edge(children, x, y) <==> Edge(parent, y, x)
  {
    assert Count(Succ(children, x), y) == Count(Succ(parent, y), x);
    assert Edge(children, x, y) <==> y in multiset(Succ(children, x));
    assert Edge(parent, y, x) <==> x in multiset(Succ(parent, y));
  }

  lemma InverseAppend(parent: Adjacency, children: Adjacency, x: Name, y: Name)
    requires Inverse(parent, children)
    ensures Inverse(Append(parent, y, x), Append(children, x, y))
  {
    var p, c := Append(parent, y, x), Append(children, x, y);
    forall a, b ensures Count(Succ(c, a), b) == Count(Succ(p, b), a) {
      assert Count(Succ(children, a), b) == Count(Succ(parent, b), a);
      assert Succ(c, a) == if a == x then Succ(children, a) + [y] else Succ(children, a);
      assert Succ(p, b) == if b == y then Succ(parent, b) + [x] else Succ(parent, b);
    }
  }

  /** Hanging one name under each of a list of others, one edge at a time. */
  function Hang(children: Adjacency, deps: seq<Name>, name: Name): Adjacency {
    if deps == [] then children
    else Append(Hang(children, deps[..|deps| - 1], name), deps[|deps| - 1], name)
  }

  /** The other map after hanging: the whole list stands under the one name. */
  function ListUnder(parent: Adjacency, deps: seq<Name>, name: Name): Adjacency {
    if deps == [] then parent else parent[name := Succ(parent, name) + deps]
  }

  /** How much longer the list of a name is than before. */
  function Grown(before: Adjacency, after: Adjacency, name: Name): int {
    |Succ(after, name)| - |Succ(before, name)|
  }

  lemma HangStep(children: Adjacency, parent: Adjacency, deps: seq<Name>, i: nat, name: Name)
    requires i < |deps|
    ensures Hang(children, deps[..i + 1], name) == Append(Hang(children, deps[..i], name), deps[i], name)
    ensures ListUnder(parent, deps[..i + 1], name) == Append(ListUnder(parent, deps[..i], name), name, deps[i])
    ensures Grown(parent, ListUnder(parent, deps[..i + 1], name), name) == i + 1
  {
    assert deps[..i + 1][..i] == deps[..i];
    var done, more := ListUnder(parent, deps[..i], name), ListUnder(parent, deps[..i + 1], name);
    assert Succ(done, name) == Succ(parent, name) + deps[..i];
    assert Succ(parent, name) + deps[..i] + [deps[i]] == Succ(parent, name) + deps[..i + 1];
    assert more == done[name := Succ(parent, name) + deps[..i + 1]];
  }

  /** The two maps after a stage was hung under the first k of its dependencies. */
  ghost predicate HungUnder(
    before: Adjacency, beforeP: Adjacency, after: Adjacency, afterP: Adjacency, deps: seq<Name>, k: int, name: Name)
  {
    0 <= k <= |deps| && after == Hang(before, deps[..k], name) && afterP == ListUnder(beforeP, deps[..k], name)
  }

  lemma HangNothing(children: Adjacency, parent: Adjacency, deps: seq<Name>, name: Name)
    ensures HungUnder(children, parent, children, parent, deps, 0, name) && Grown(parent, parent, name) == 0
  {
  }

  /** What hanging a stage under all its dependencies comes to. */
  lemma HungAll(
    before: Adjacency, beforeP: Adjacency, after: Adjacency, afterP: Adjacency, deps: seq<Name>, name: Name)
    requires HungUnder(before, beforeP, after, afterP, deps, |deps|, name)
    ensures after == Hang(before, deps, name) && afterP == ListUnder(beforeP, deps, name)
  {
    assert deps[..|deps|] == deps;
  }

  lemma {:induction false} HangEdge(children: Adjacency, deps: seq<Name>, name: Name, a: Name, b: Name)
    ensures Edge(Hang(children, deps, name), a, b) <==> Edge(children, a, b) || (b == name && a in deps)
  {
    if deps != [] {
      HangEdge(children, deps[..|deps| - 1], name, a, b);
      AppendEdges(Hang(children, deps[..|deps| - 1], name), deps[|deps| - 1], name);
      assert deps == deps[..|deps| - 1] + [deps[|deps| - 1]];
    }
  }

  lemma HangMonotone(children: Adjacency, deps: seq<Name>, k: nat, name: Name)
    requires k <= |deps|
    ensures Acyclic(Hang(children, deps, name)) ==> Acyclic(Hang(children, deps[..k], name))
  {
    if Acyclic(Hang(children, deps, name)) {
      forall a, b | Edge(Hang(children, deps[..k], name), a, b)
        ensures Edge(Hang(children, deps, name), a, b)
      {
        HangEdge(children, deps[..k], name, a, b);
        HangEdge(children, deps, name, a, b);
      }
      AcyclicMonotone(Hang(children, deps[..k], name), Hang(children, deps, name));
    }
  }
}
