/**
  The pipeline that denormalizing is meant to produce: the tree of all stages, those of a
  nested pipeline below the stage that runs it, each under the path that leads to it.
 */
module Unfolding {
  import opened Digraph
  import opened Stages
  import opened WellBuiltGraphs
  import opened Paths

  /** A stage that runs a pipeline. */
  predicate RunsPipeline(g: Graph, n: Name) {
    n in g.nodes && n != ROOT && g.nodes[n].body.Nested?
  }

  /** A pipeline whose only stage runs another pipeline; it stands for that other pipeline. */
  ghost predicate PassThrough(g: Graph) {
    |g.nodes| == 2 && exists n :: RunsPipeline(g, n)
  }

  ghost function OnlyStage(g: Graph): (n: Name)
    requires PassThrough(g)
    ensures RunsPipeline(g, n)
  {
    var n :| RunsPipeline(g, n);
    n
  }

  /** The pipeline whose stages are unfolded below a stage that runs g. */
  ghost function Inner(g: Graph): Graph {
    if PassThrough(g) then g.nodes[OnlyStage(g)].body.graph else g
  }

  /** The pipeline unfolded below a stage. */
  ghost function Under(g: Graph, n: Name): Graph
    requires RunsPipeline(g, n)
  {
    Inner(g.nodes[n].body.graph)
  }

  /** A path that leads to a stage. */
  ghost predicate InTree(g: Graph, path: seq<Name>)
    decreases |path|
  {
    && path != []
    && path[0] in g.nodes && path[0] != ROOT
    && (|path| > 1 ==> RunsPipeline(g, path[0]) && InTree(Under(g, path[0]), path[1..]))
  }

  /** The stage that is skipped for a stage that runs a pass-through pipeline. */
  ghost function SkippedStage(g: Graph, n: Name): Stage
    requires RunsPipeline(g, n) && PassThrough(g.nodes[n].body.graph)
  {
    var w := g.nodes[n].body.graph;
    w.nodes[OnlyStage(w)]
  }

  ghost predicate Skips(g: Graph, n: Name) {
    RunsPipeline(g, n) && PassThrough(g.nodes[n].body.graph)
  }

  /** The environment a clone starts with when the skipped stage has a given one. */
  function StartEnv(g: Graph, n: Name, skipped: Env): Env
    requires n in g.nodes
  {
    g.env + g.nodes[n].env + (skipped + g.nodes[n].env)
  }

  /** The environment a clone starts with by its definition: a skipped stage adds its own. */
  ghost function CloneEnv(g: Graph, n: Name): Env
    requires n in g.nodes
  {
    if Skips(g, n) then StartEnv(g, n, SkippedStage(g, n).env) else g.env + g.nodes[n].env
  }

  function Cascaded(anc: seq<string>, names: seq<Name>): seq<string> {
    seq(|names|, i requires 0 <= i < |names| => CascadeName(anc, names[i]))
  }

  /** The clone of a stage: everything that names a stage is prefixed with the path so far. */
  function CloneOf(g: Graph, anc: seq<string>, n: Name, env: Env): Stage
    requires n in g.nodes
  {
    var o, u := g.nodes[n], CascadeName(anc, n);
    Stage(u, Cascaded(anc, o.dependsOn), o.condition, o.allowFailure, env,
          match o.body
          case Nothing => Nothing
          case Leaf(t) => Leaf(Task(CascadeName(anc, t.name), t.env + g.env))
          case Nested(_) => Nested(EmptyGraph(u)))
  }

  /** The clone at the end of a path. */
  ghost function CloneAt(g: Graph, anc: seq<string>, path: seq<Name>, env: Env): Stage
    requires InTree(g, path)
    decreases |path|
  {
    if |path| == 1 then CloneOf(g, anc, path[0], env)
    else CloneAt(Under(g, path[0]), anc + [path[0]], path[1..], env)
  }

  /** Every pipeline in the tree is well built. */
  ghost predicate DeepInner(g: Graph) {
    && WellBuilt(g)
    && forall n | RunsPipeline(g, n) :: WellBuilt(g.nodes[n].body.graph) && DeepInner(Under(g, n))
  }

  /** A pipeline whose nested pipelines are all well built unfolds into well built pipelines. */
  lemma {:induction false} DeepWellBuiltUnfolds(g: Graph)
    requires DeepWellBuilt(g)
    ensures DeepInner(g)
  {
    forall n | RunsPipeline(g, n) ensures WellBuilt(g.nodes[n].body.graph) && DeepInner(Under(g, n)) {
      var p := g.nodes[n].body.graph;
      assert DeepWellBuilt(p);
      if PassThrough(p) {
        assert DeepWellBuilt(p.nodes[OnlyStage(p)].body.graph);
        DeepWellBuiltUnfolds(p.nodes[OnlyStage(p)].body.graph);
      } else {
        DeepWellBuiltUnfolds(p);
      }
    }
  }

  /** Names that can be joined and looked up without confusion, on one level. */
  ghost predicate TidyLevel(g: Graph) {
    && (forall n | n in g.nodes :: Plain(n))
    && (forall m, n | RunsPipeline(g, m) && RunsPipeline(g, n) && m != n && HasStage(Under(g, n)) :: !(m <= n + "-"))
  }

  predicate HasStage(g: Graph) {
    exists n :: n in g.nodes && n != ROOT
  }

  ghost predicate Tidy(g: Graph) {
    && TidyLevel(g)
    && forall n | RunsPipeline(g, n) :: Tidy(Under(g, n))
  }

  lemma InTreePlain(g: Graph, path: seq<Name>)
    requires Tidy(g) && InTree(g, path)
    ensures AllPlain(path)
    decreases |path|
  {
    if |path| > 1 {
      InTreePlain(Under(g, path[0]), path[1..]);
      assert forall i | 0 < i < |path| :: path[i] == path[1..][i - 1];
    }
  }

  // ----- paths to nested pipelines

  /** A path of stages that all run pipelines. */
  ghost predicate PipelinePath(g: Graph, p: seq<Name>)
    decreases |p|
  {
    p == [] || (RunsPipeline(g, p[0]) && PipelinePath(Under(g, p[0]), p[1..]))
  }

  /** The pipeline at the end of such a path. */
  ghost function PipelineAt(g: Graph, p: seq<Name>): Graph
    requires PipelinePath(g, p)
    decreases |p|
  {
    if p == [] then g else PipelineAt(Under(g, p[0]), p[1..])
  }

  lemma {:induction false} PipelineSnoc(g: Graph, p: seq<Name>, n: Name)
    ensures PipelinePath(g, p + [n]) <==> PipelinePath(g, p) && RunsPipeline(PipelineAt(g, p), n)
    ensures PipelinePath(g, p + [n]) ==> PipelineAt(g, p + [n]) == Under(PipelineAt(g, p), n)
    decreases |p|
  {
    if p == [] {
      assert (p + [n])[1..] == [];
    } else {
      assert (p + [n])[1..] == p[1..] + [n];
      if RunsPipeline(g, p[0]) {
        PipelineSnoc(Under(g, p[0]), p[1..], n);
      }
    }
  }

  lemma {:induction false} InTreeSnoc(g: Graph, p: seq<Name>, n: Name)
    ensures InTree(g, p + [n]) <==> PipelinePath(g, p) && n in PipelineAt(g, p).nodes && n != ROOT
    decreases |p|
  {
    if p == [] {
      assert p + [n] == [n];
    } else {
      assert (p + [n])[1..] == p[1..] + [n];
      if RunsPipeline(g, p[0]) {
        InTreeSnoc(Under(g, p[0]), p[1..], n);
      }
    }
  }

  lemma {:induction false} CloneAtSnoc(g: Graph, anc: seq<string>, p: seq<Name>, n: Name, env: Env)
    requires InTree(g, p + [n])
    ensures PipelinePath(g, p) && n in PipelineAt(g, p).nodes
    ensures CloneAt(g, anc, p + [n], env) == CloneOf(PipelineAt(g, p), anc + p, n, env)
    decreases |p|
  {
    if p == [] {
      assert p + [n] == [n] && anc + p == anc;
    } else {
      assert (p + [n])[1..] == p[1..] + [n];
      CloneAtSnoc(Under(g, p[0]), anc + [p[0]], p[1..], n, env);
      assert anc + [p[0]] + p[1..] == anc + p;
    }
  }

  lemma {:induction false} PipelineAtGood(g: Graph, p: seq<Name>)
    requires PipelinePath(g, p)
    ensures DeepInner(g) ==> DeepInner(PipelineAt(g, p))
    ensures Tidy(g) ==> Tidy(PipelineAt(g, p)) && AllPlain(p)
    decreases |p|
  {
    if p != [] {
      PipelineAtGood(Under(g, p[0]), p[1..]);
      assert Tidy(g) ==> forall i | 0 < i < |p| :: p[i] == p[1..][i - 1];
    }
  }

  // ----- the environments clones start with, by path name

  type Starts = map<string, Env>

  function StartOf(starts: Starts, k: string): Env {
    if k in starts then starts[k] else map[]
  }

  /** The environments of the enclosing pipeline stages, the innermost written last. */
  function OuterEnv(starts: Starts, name: string, p: seq<Name>): Env {
    if p == [] then map[]
    else OuterEnv(starts, name, p[..|p| - 1]) + StartOf(starts, Join([name] + p))
  }

  lemma OuterEnvSnoc(starts: Starts, name: string, p: seq<Name>, n: Name)
    ensures OuterEnv(starts, name, p + [n]) ==
            OuterEnv(starts, name, p) + StartOf(starts, CascadeName([name] + p, n))
  {
    assert (p + [n])[..|p|] == p;
    assert [name] + (p + [n]) == [name] + p + [n];
    JoinSnoc([name] + p, n);
  }
}
