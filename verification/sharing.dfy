/**
  Pipelines that several stages run are shared.  Skipping a pass-through pipeline rewrites its
  only stage, and a later use of the same pipeline sees what the earlier ones wrote there.
 */
module SharedPipelines {
  import opened Digraph
  import opened Stages
  import opened Unfolding

  /** The skipped stages of a tree as they are defined, by the name of the pipeline they make up. */
  type Sharing = map<string, Stage>

  ghost predicate KnownUse(g: Graph, n: Name, sh: Sharing)
    requires Skips(g, n)
  {
    var w := g.nodes[n].body.graph;
    w.name in sh && sh[w.name] == SkippedStage(g, n)
  }

  /** Every skipped pipeline of the tree is known by its name, and none of the others has such a name. */
  ghost predicate Described(g: Graph, sh: Sharing) {
    && g.name !in sh
    && forall n | RunsPipeline(g, n) :: (Skips(g, n) ==> KnownUse(g, n, sh)) && Described(Under(g, n), sh)
  }

  /** A tree that skips no pipeline. */
  ghost predicate SkipsNothing(g: Graph) {
    forall n | RunsPipeline(g, n) :: !Skips(g, n) && SkipsNothing(Under(g, n))
  }

  /** A tree without pass-through pipelines needs no description. */
  lemma {:induction false} NothingSkipped(g: Graph)
    requires SkipsNothing(g)
    ensures Described(g, map[])
  {
    forall n | RunsPipeline(g, n) ensures Described(Under(g, n), map[]) {
      NothingSkipped(Under(g, n));
    }
  }

  /** The skipped stage after a use: named and placed like the stage that runs the pipeline. */
  function Rewritten(peek: Stage, user: Stage, clone: Stage): Stage {
    peek.(dependsOn := clone.dependsOn, name := user.name, env := peek.env + user.env)
  }

  /**
    A stage that was rewritten is no longer found under its name in its own pipeline, unless
    the stage that runs the pipeline has the same name.
   */
  lemma RewrittenIsLost(w: Graph, user: Stage, clone: Stage)
    requires PassThrough(w) && ROOT in w.nodes && user.name != ROOT
    ensures Rewritten(w.nodes[OnlyStage(w)], user, clone).name in w.nodes <==> user.name == OnlyStage(w)
  {
    if user.name in w.nodes {
      TwoNodes(w, user.name, OnlyStage(w));
    }
  }

  lemma TwoNodes(g: Graph, m: Name, n: Name)
    requires |g.nodes| == 2 && ROOT in g.nodes && m in g.nodes && n in g.nodes && m != ROOT && n != ROOT
    ensures m == n
  {
    var rest := g.nodes.Keys - {ROOT};
    assert |rest| == 1 && |rest - {m}| == 0;
    assert n in rest && n !in rest - {m};
  }
}
