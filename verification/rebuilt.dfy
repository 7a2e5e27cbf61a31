/**
  The tree of graphs that denormalizing rebuilds, described from the pipelines it started
  with: the same stages on every level, everything renamed by path, environments merged.
 */
module RebuiltPipelines {
  import opened Digraph
  import opened Stages
  import opened WellBuiltGraphs
  import opened Paths
  import opened Unfolding

  /** What a stage gets from its own pipeline and stage settings and from the pipeline stages around it. */
  function OutsideEnv(starts: Starts, anc: seq<string>, n: Name, outer: Env): Env {
    StartOf(starts, CascadeName(anc, n)) + outer
  }

  /** The environment a task is left with. */
  function TaskEnv(starts: Starts, g: Graph, anc: seq<string>, n: Name, outer: Env): Env
    requires n in g.nodes && g.nodes[n].body.Leaf?
  {
    OutsideEnv(starts, anc, n, outer) + (g.nodes[n].body.task.env + g.env)
  }

  /** A stage of the result, against the stage it was cloned from. */
  ghost predicate RebuiltStage(starts: Starts, g: Graph, anc: seq<string>, n: Name, outer: Env, s: Stage)
    requires n in g.nodes && n != ROOT
    decreases g, 0
  {
    var o := g.nodes[n];
    && s.name == CascadeName(anc, n) && s.dependsOn == Cascaded(anc, o.dependsOn)
    && s.condition == o.condition && s.allowFailure == o.allowFailure
    && match o.body
       case Nothing => s.body == Nothing && s.env == OutsideEnv(starts, anc, n, outer)
       case Leaf(_) =>
         && s.env == TaskEnv(starts, g, anc, n, outer)
         && s.body == Leaf(Task(s.name, s.env))
       case Nested(_) =>
         && s.env == OutsideEnv(starts, anc, n, outer)
         && s.body.Nested? && Rebuilt(starts, Under(g, n), anc + [n], outer + StartOf(starts, s.name), s.body.graph)
  }

  /** Every stage but the root is one of a set, renamed. */
  ghost predicate OnlyRenamed(anc: seq<string>, nodes: map<Name, Stage>, done: set<Name>) {
    forall k | k in nodes && k != ROOT :: TailExtract(k) in done && k == CascadeName(anc, TailExtract(k))
  }

  /** Every stage but the root is listed under exactly its dependencies, and nothing else is listed. */
  ghost predicate ListsDeps(nodes: map<Name, Stage>, parent: Adjacency) {
    && (forall k | k in nodes && k != ROOT :: Succ(parent, k) == nodes[k].Deps())
    && (forall k :: Succ(parent, k) != [] ==> k in nodes && k != ROOT)
  }

  /** The graph after the stages of a set were added to it. */
  ghost predicate PartlyRebuilt(starts: Starts, g: Graph, anc: seq<string>, outer: Env, out: Graph, done: set<Name>)
    requires done <= g.nodes.Keys && ROOT !in done
    decreases g, 1
  {
    && out.name == Join(anc) && out.env == map[]
    && ROOT in out.nodes && out.nodes[ROOT] == RootStage(out.name)
    && (forall n | n in done ::
          CascadeName(anc, n) in out.nodes && RebuiltStage(starts, g, anc, n, outer, out.nodes[CascadeName(anc, n)]))
    && OnlyRenamed(anc, out.nodes, done) && ListsDeps(out.nodes, out.parent)
    && Inverse(out.parent, out.children) && Acyclic(out.children)
  }

  /** The whole pipeline has been rebuilt. */
  ghost predicate Rebuilt(starts: Starts, g: Graph, anc: seq<string>, outer: Env, out: Graph)
    decreases g, 2
  {
    PartlyRebuilt(starts, g, anc, outer, out, g.nodes.Keys - {ROOT})
  }

  ghost predicate PlainNames(g: Graph) {
    forall n | n in g.nodes :: Plain(n)
  }

  lemma CascadeIsNotPlain(anc: seq<string>, n: Name)
    ensures !Plain(CascadeName(anc, n)) && CascadeName(anc, n) != ROOT
  {
    assert ArrowAt(CascadeName(anc, n), |Join(anc)|);
    assert forall i :: !ArrowAt(ROOT, i);
  }

  lemma CascadeInjective(anc: seq<string>, m: Name, n: Name)
    ensures CascadeName(anc, m) == CascadeName(anc, n) <==> m == n
  {
    var k := |Join(anc)| + 2;
    assert CascadeName(anc, m)[k..] == m && CascadeName(anc, n)[k..] == n;
  }

  /** The renamed dependencies of a stage. */
  function RenamedDeps(g: Graph, anc: seq<string>, n: Name): seq<string>
    requires n in g.nodes
  {
    if g.nodes[n].dependsOn == [] then [ROOT] else Cascaded(anc, g.nodes[n].dependsOn)
  }

  ghost predicate RenamedEdge(g: Graph, anc: seq<string>, a: string, b: string, n: Name) {
    n in g.nodes && n != ROOT && b == CascadeName(anc, n) && a in RenamedDeps(g, anc, n)
  }

  ghost predicate OnlyRenamedEdges(g: Graph, anc: seq<string>, adj: Adjacency) {
    forall a, b | Edge(adj, a, b) :: RenamedEdge(g, anc, a, b, TailExtract(b))
  }

  /** Renaming by path keeps a dependency graph free of cycles, on whatever part of the edges. */
  lemma RenamedIsAcyclic(g: Graph, anc: seq<string>, adj: Adjacency)
    requires WellBuilt(g) && PlainNames(g) && OnlyRenamedEdges(g, anc, adj)
    ensures Acyclic(adj)
  {
    var keys := set m | m in g.nodes :: CascadeName(anc, m);
    var rank := map k | k in keys :: |Descendants(g.children, TailExtract(k))|;
    forall a, b | Edge(adj, a, b) ensures b in rank && (a in rank ==> rank[b] < rank[a]) {
      var n := TailExtract(b);
      assert RenamedEdge(g, anc, a, b, n) && b in keys;
      if a in rank {
        var m :| m in g.nodes && a == CascadeName(anc, m);
        CascadeIsNotPlain(anc, m);
        var i :| 0 <= i < |g.nodes[n].dependsOn| && a == CascadeName(anc, g.nodes[n].dependsOn[i]);
        CascadeInjective(anc, m, g.nodes[n].dependsOn[i]);
        TailOfCascade(anc, m);
        WellBuiltEdge(g, m, n);
        DescendantsShrink(g.children, m, n);
      }
    }
    RankedIsAcyclic(adj, rank);
  }

  /** The edges of a part that was rebuilt are renamed dependencies. */
  lemma PartEdges(starts: Starts, g: Graph, anc: seq<string>, outer: Env, out: Graph, done: set<Name>)
    requires done <= g.nodes.Keys && ROOT !in done && PartlyRebuilt(starts, g, anc, outer, out, done)
    ensures OnlyRenamedEdges(g, anc, out.children)
  {
    forall a, b | Edge(out.children, a, b) ensures RenamedEdge(g, anc, a, b, TailExtract(b)) {
      InverseEdges(out.parent, out.children, a, b);
      assert Succ(out.parent, b) == out.nodes[b].Deps();
      assert RebuiltStage(starts, g, anc, TailExtract(b), outer, out.nodes[b]);
    }
  }

  /** The dependencies of the next stage never close a cycle. */
  lemma NextIsAcyclic(
    starts: Starts, g: Graph, anc: seq<string>, outer: Env, out: Graph, done: set<Name>, n: Name, s: Stage)
    requires WellBuilt(g) && PlainNames(g)
    requires done <= g.nodes.Keys && ROOT !in done && PartlyRebuilt(starts, g, anc, outer, out, done)
    requires n in g.nodes && n != ROOT && RebuiltStage(starts, g, anc, n, outer, s)
    ensures Acyclic(Hang(out.children, s.Deps(), s.name))
  {
    PartEdges(starts, g, anc, outer, out, done);
    var adj := Hang(out.children, s.Deps(), s.name);
    TailOfCascade(anc, n);
    assert s.Deps() == RenamedDeps(g, anc, n);
    forall a, b | Edge(adj, a, b) ensures RenamedEdge(g, anc, a, b, TailExtract(b)) {
      HangEdge(out.children, s.Deps(), s.name, a, b);
    }
    RenamedIsAcyclic(g, anc, adj);
  }

  lemma NothingRebuilt(starts: Starts, g: Graph, anc: seq<string>, outer: Env, out: Graph)
    requires out == EmptyGraph(Join(anc))
    ensures PartlyRebuilt(starts, g, anc, outer, out, {})
  {
    EmptyIsAcyclic(out.children);
  }

  lemma PartIsValid(starts: Starts, g: Graph, anc: seq<string>, outer: Env, out: Graph, done: set<Name>)
    requires done <= g.nodes.Keys && ROOT !in done && PartlyRebuilt(starts, g, anc, outer, out, done)
    ensures ROOT in out.nodes
    ensures forall k | k in out.nodes && k != ROOT :: out.nodes[k].name == k
    ensures Inverse(out.parent, out.children) && Acyclic(out.children)
  {
    forall k | k in out.nodes && k != ROOT ensures out.nodes[k].name == k {
      assert RebuiltStage(starts, g, anc, TailExtract(k), outer, out.nodes[k]);
    }
  }

  lemma PlainName(g: Graph, n: Name)
    requires PlainNames(g) && n in g.nodes
    ensures Plain(n)
  {
  }

  /** One more stage is in the graph. */
  lemma NextIsIn(
    starts: Starts, g: Graph, anc: seq<string>, outer: Env, out: Graph, done: set<Name>, n: Name, s: Stage, out': Graph)
    requires done <= g.nodes.Keys && ROOT !in done && PartlyRebuilt(starts, g, anc, outer, out, done)
    requires n in g.nodes && n != ROOT && n !in done && Plain(n) && RebuiltStage(starts, g, anc, n, outer, s)
    requires out'.name == out.name && out'.env == out.env && out'.nodes == out.nodes[s.name := s]
    requires out'.parent == ListUnder(out.parent, s.Deps(), s.name)
    requires Inverse(out'.parent, out'.children) && Acyclic(out'.children)
    ensures PartlyRebuilt(starts, g, anc, outer, out', done + {n})
  {
    hide RebuiltStage, TailExtract, CascadeName, Acyclic, Inverse, OnlyRenamed, ListsDeps, ListUnder;
    StageIsNamed(starts, g, anc, n, outer, s);
    CascadeIsNotPlain(anc, n);
    forall m | m in done ensures CascadeName(anc, m) != s.name { CascadeInjective(anc, m, n); }
    NextIsRenamed(anc, out.nodes, done, n, s);
    NextIsListed(out.nodes, out.parent, s);
  }

  lemma NextIsRenamed(anc: seq<string>, nodes: map<Name, Stage>, done: set<Name>, n: Name, s: Stage)
    requires OnlyRenamed(anc, nodes, done) && n !in done && Plain(n) && s.name == CascadeName(anc, n) && s.name != ROOT
    ensures OnlyRenamed(anc, nodes[s.name := s], done + {n}) && s.name !in nodes
  {
    hide TailExtract, CascadeName;
    TailOfCascade(anc, n);
  }

  lemma NextIsListed(nodes: map<Name, Stage>, parent: Adjacency, s: Stage)
    requires ListsDeps(nodes, parent) && s.name !in nodes && s.name != ROOT
    ensures ListsDeps(nodes[s.name := s], ListUnder(parent, s.Deps(), s.name))
  {
    var nodes', parent' := nodes[s.name := s], ListUnder(parent, s.Deps(), s.name);
    assert Succ(parent, s.name) == [];
    assert Succ(parent', s.name) == [] + s.Deps() == s.Deps();
    forall k | k != s.name ensures Succ(parent', k) == Succ(parent, k) {}
  }

  lemma StageIsNamed(starts: Starts, g: Graph, anc: seq<string>, n: Name, outer: Env, s: Stage)
    requires n in g.nodes && n != ROOT && RebuiltStage(starts, g, anc, n, outer, s)
    ensures s.name == CascadeName(anc, n)
  {
  }
}
