/**
  What denormalizing preserves: on every level the same stages and the same dependencies,
  renamed by path, and for every task an environment that follows the nesting.
 */
module DenormalTheorems {
  import opened Digraph
  import opened Stages
  import opened WellBuiltGraphs
  import opened Paths
  import opened Lookups
  import opened Unfolding
  import opened SharedPipelines
  import opened CallTrees
  import opened FlattenRuns
  import opened RebuiltPipelines
  import opened PipelineConfig
  import opened PipelineLibraries

  /** A level of the result has exactly the original stages, renamed. */
  lemma SameStages(starts: Starts, g: Graph, anc: seq<string>, outer: Env, out: Graph, k: string)
    requires ROOT in g.nodes && PlainNames(g) && Rebuilt(starts, g, anc, outer, out)
    ensures k in out.nodes && k != ROOT <==> exists n :: n in g.nodes && n != ROOT && k == CascadeName(anc, n)
  {
    if n :| n in g.nodes && n != ROOT && k == CascadeName(anc, n) {
      assert n in g.nodes.Keys - {ROOT};
      CascadeIsNotPlain(anc, n);
    }
    if k in out.nodes && k != ROOT {
      assert TailExtract(k) in g.nodes.Keys - {ROOT};
    }
  }

  /**
    Every one of them is set up as the original: it runs a task or a pipeline as that does, under the
    same condition, may fail if that may, and depends on the same stages in the same order, by their
    path names.
   */
  lemma SameSettings(starts: Starts, g: Graph, anc: seq<string>, outer: Env, out: Graph, n: Name)
    requires Rebuilt(starts, g, anc, outer, out) && n in g.nodes && n != ROOT
    ensures var k, o := CascadeName(anc, n), g.nodes[n];
            && k in out.nodes
            && var s := out.nodes[k];
               && s.name == k && s.condition == o.condition && s.allowFailure == o.allowFailure
               && |s.dependsOn| == |o.dependsOn|
               && (forall i | 0 <= i < |o.dependsOn| :: s.dependsOn[i] == CascadeName(anc, o.dependsOn[i]))
               && (o.body.Leaf? <==> s.body.Leaf? && s.body.task.name == k)
               && (o.body.Nested? <==> s.body.Nested?)
  {
    assert n in g.nodes.Keys - {ROOT};
    assert RebuiltStage(starts, g, anc, n, outer, out.nodes[CascadeName(anc, n)]);
  }

  /** ... and exactly the original dependencies between them. */
  lemma SameDependencies(starts: Starts, g: Graph, anc: seq<string>, outer: Env, out: Graph, d: Name, n: Name)
    requires WellBuilt(g) && Rebuilt(starts, g, anc, outer, out)
    requires d in g.nodes && d != ROOT && n in g.nodes && n != ROOT
    ensures Edge(out.children, CascadeName(anc, d), CascadeName(anc, n)) <==> Edge(g.children, d, n)
    ensures Edge(out.children, ROOT, CascadeName(anc, n)) <==> g.nodes[n].dependsOn == []
  {
    var k := CascadeName(anc, n);
    assert n in g.nodes.Keys - {ROOT};
    assert RebuiltStage(starts, g, anc, n, outer, out.nodes[k]);
    CascadeIsNotPlain(anc, n);
    CascadeIsNotPlain(anc, d);
    assert Succ(out.parent, k) == RenamedDeps(g, anc, n);
    InverseEdges(out.parent, out.children, CascadeName(anc, d), k);
    InverseEdges(out.parent, out.children, ROOT, k);
    WellBuiltEdge(g, d, n);
    InRenamed(anc, g.nodes[n].dependsOn, d);
    NoRootInRenamed(anc, g.nodes[n].dependsOn);
  }

  lemma InRenamed(anc: seq<string>, names: seq<Name>, d: Name)
    ensures CascadeName(anc, d) in Cascaded(anc, names) <==> d in names
  {
    if i :| 0 <= i < |names| && names[i] == d {
      assert Cascaded(anc, names)[i] == CascadeName(anc, d);
    }
    if i :| 0 <= i < |names| && Cascaded(anc, names)[i] == CascadeName(anc, d) {
      CascadeInjective(anc, names[i], d);
    }
  }

  lemma NoRootInRenamed(anc: seq<string>, names: seq<Name>)
    ensures ROOT !in Cascaded(anc, names)
  {
    forall i | 0 <= i < |names| ensures Cascaded(anc, names)[i] != ROOT {
      CascadeIsNotPlain(anc, names[i]);
    }
  }

  ghost predicate NamesRoot(g: Graph) {
    exists n :: n in g.nodes && ROOT in g.nodes[n].dependsOn
  }

  /** A dependency on the root node by name becomes a path name that no stage has. */
  lemma RootIsRenamedAway(starts: Starts, g: Graph, anc: seq<string>, outer: Env, out: Graph, n: Name)
    requires Plain(ROOT) && Rebuilt(starts, g, anc, outer, out)
    requires n in g.nodes && n != ROOT && ROOT in g.nodes[n].dependsOn
    ensures CascadeName(anc, n) in out.nodes && CascadeName(anc, ROOT) in out.nodes[CascadeName(anc, n)].dependsOn
    ensures CascadeName(anc, ROOT) !in out.nodes
  {
    assert n in g.nodes.Keys - {ROOT};
    assert RebuiltStage(starts, g, anc, n, outer, out.nodes[CascadeName(anc, n)]);
    InRenamed(anc, g.nodes[n].dependsOn, ROOT);
    CascadeIsNotPlain(anc, ROOT);
    TailOfCascade(anc, ROOT);
  }

  lemma NoRootNoGap(starts: Starts, g: Graph, anc: seq<string>, outer: Env, out: Graph)
    requires WellBuilt(g) && Rebuilt(starts, g, anc, outer, out) && !NamesRoot(g)
    ensures forall k, d | k in out.nodes && d in out.nodes[k].dependsOn :: d in out.nodes
  {
    hide Acyclic, Inverse, CascadeName, TailExtract;
    forall k, d | k in out.nodes && d in out.nodes[k].dependsOn ensures d in out.nodes {
      if k != ROOT {
        var n := TailExtract(k);
        assert RebuiltStage(starts, g, anc, n, outer, out.nodes[k]);
        var i :| 0 <= i < |g.nodes[n].dependsOn| && d == CascadeName(anc, g.nodes[n].dependsOn[i]);
        assert g.nodes[n].dependsOn[i] in g.nodes.Keys - {ROOT};
      }
    }
  }

  /**
    A level of the result is again a graph a scheduler can run, every dependency being one of
    its stages, exactly when no stage names the root node as a dependency: that name is
    accepted when a pipeline is built, but becomes a path name that no stage has.
   */
  lemma ResultIsWellBuilt(starts: Starts, g: Graph, anc: seq<string>, outer: Env, out: Graph)
    requires WellBuilt(g) && PlainNames(g) && Rebuilt(starts, g, anc, outer, out)
    ensures WellBuilt(out) <==> !NamesRoot(g)
  {
    hide Acyclic, Inverse, CascadeName, TailExtract;
    if NamesRoot(g) {
      var n :| n in g.nodes && ROOT in g.nodes[n].dependsOn;
      RootIsRenamedAway(starts, g, anc, outer, out, n);
    } else {
      NoRootNoGap(starts, g, anc, outer, out);
      PartIsValid(starts, g, anc, outer, out, g.nodes.Keys - {ROOT});
    }
  }

  /** No pipeline of the tree has a stage that names the root node as a dependency. */
  ghost predicate NeverNamesRoot(g: Graph) {
    && !NamesRoot(g)
    && forall n | RunsPipeline(g, n) :: NeverNamesRoot(Under(g, n))
  }

  /** The whole result can be run, on all its levels, under the same condition on all levels of the source. */
  lemma {:induction false} ResultIsDeepWellBuilt(starts: Starts, g: Graph, anc: seq<string>, outer: Env, out: Graph)
    requires DeepInner(g) && Tidy(g) && Rebuilt(starts, g, anc, outer, out)
    ensures DeepWellBuilt(out) <==> NeverNamesRoot(g)
    decreases g
  {
    hide Acyclic, Inverse, CascadeName, TailExtract, NamesRoot;
    ResultIsWellBuilt(starts, g, anc, outer, out);
    forall n | RunsPipeline(g, n)
      ensures CascadeName(anc, n) in out.nodes && out.nodes[CascadeName(anc, n)].body.Nested?
      ensures DeepWellBuilt(out.nodes[CascadeName(anc, n)].body.graph) <==> NeverNamesRoot(Under(g, n))
    {
      assert n in g.nodes.Keys - {ROOT};
      var s := out.nodes[CascadeName(anc, n)];
      assert RebuiltStage(starts, g, anc, n, outer, s);
      ResultIsDeepWellBuilt(starts, Under(g, n), anc + [n], outer + StartOf(starts, s.name), s.body.graph);
    }
    forall k | k in out.nodes && out.nodes[k].body.Nested? && NeverNamesRoot(g)
      ensures DeepWellBuilt(out.nodes[k].body.graph)
    {
      var n := TailExtract(k);
      assert RebuiltStage(starts, g, anc, n, outer, out.nodes[k]);
      assert RunsPipeline(g, n);
    }
  }

  /**
    From the config to the result: the finished graph of an accepted pipeline meets what
    denormalizing asks of its source, and if names can be looked up the whole result can be run
    exactly when no stage of the tree names the root node as a dependency.
   */
  lemma FinishedGraphDenormalizes(
    starts: Starts, lib: Library, name: string, g: Graph, anc: seq<string>, outer: Env, out: Graph)
    requires UnfoldsTo(lib, name, g)
    ensures DeepInner(g)
    ensures Tidy(g) && Rebuilt(starts, g, anc, outer, out) ==> (DeepWellBuilt(out) <==> NeverNamesRoot(g))
  {
    hide UnfoldsTo, DeepWellBuilt, DeepInner, Tidy, Rebuilt, NeverNamesRoot;
    UnfoldingIsDeep(lib, name, g);
    DeepWellBuiltUnfolds(g);
    if Tidy(g) && Rebuilt(starts, g, anc, outer, out) {
      ResultIsDeepWellBuilt(starts, g, anc, outer, out);
    }
  }

  /** Which definitions of one level denormalize to a level that can be run. */
  lemma AcceptedDefinitionsDenormalize(
    starts: Starts, g: Graph, defs: seq<PipelineDefinition>, cfg: Config, anc: seq<string>, outer: Env, out: Graph)
    requires WellBuilt(g) && Built(g, defs, cfg) && PlainNames(g) && Rebuilt(starts, g, anc, outer, out)
    ensures WellBuilt(out) <==> forall i | 0 <= i < |defs| :: ROOT !in defs[i].dependsOn
  {
    hide WellBuilt, Rebuilt, PlainNames;
    ResultIsWellBuilt(starts, g, anc, outer, out);
    forall i | 0 <= i < |defs|
      ensures StageName(defs[i]) in g.nodes && g.nodes[StageName(defs[i])].dependsOn == defs[i].dependsOn
    {
      assert HoldsOne(g.nodes, g.parent, defs[i], cfg);
    }
    if NamesRoot(g) {
      var n :| n in g.nodes && ROOT in g.nodes[n].dependsOn;
      HeldIsDeclared(g, defs, cfg, n);
      var i :| 0 <= i < |defs| && StageName(defs[i]) == n;
      assert ROOT in defs[i].dependsOn;
    }
  }

  const ROOT_DEPENDENCY: seq<PipelineDefinition> :=
    [PipelineDefinition("a", "t", "", [ROOT], "", false, map[])]

  const ONE_TASK: Config := Config(map["t" := Task("t", map[])], map[])

  /** A definition that is accepted: one task that says it depends on the root node. */
  lemma RootDependencyIsAccepted()
    ensures Acceptable(ROOT_DEPENDENCY, ONE_TASK)
  {
    var rank := map["a" := 0 as nat];
    forall a, b | Edge(DependencyGraph(ROOT_DEPENDENCY), a, b) ensures b == "a" && a == ROOT {
      DependencyGraphEdges(ROOT_DEPENDENCY, a, b);
    }
    RankedIsAcyclic(DependencyGraph(ROOT_DEPENDENCY), rank);
  }

  /** What is built from it never denormalizes to a graph that can be run. */
  lemma RootDependencyBreaks(starts: Starts, g: Graph, anc: seq<string>, outer: Env, out: Graph)
    requires WellBuilt(g) && Built(g, ROOT_DEPENDENCY, ONE_TASK) && Rebuilt(starts, g, anc, outer, out)
    ensures !WellBuilt(out)
  {
    forall n | n in g.nodes ensures Plain(n) {
      HeldIsDeclared(g, ROOT_DEPENDENCY, ONE_TASK, n);
      assert n == ROOT || n == "a";
    }
    assert ROOT in ROOT_DEPENDENCY[0].dependsOn;
    AcceptedDefinitionsDenormalize(starts, g, ROOT_DEPENDENCY, ONE_TASK, anc, outer, out);
  }

  const NEIGHBOURS: seq<PipelineDefinition> :=
    [PipelineDefinition("build", "", "p", [], "", false, map[]),
     PipelineDefinition("build-all", "", "p", [], "", false, map[])]

  /** Two names that are accepted beside each other ... */
  lemma NeighboursAreAccepted(inner: Graph)
    ensures Acceptable(NEIGHBOURS, Config(map[], map["p" := inner]))
  {
    assert |"build"| != |"build-all"|;
    forall a, b | Edge(DependencyGraph(NEIGHBOURS), a, b) ensures a == ROOT && (b == "build" || b == "build-all") {
      DependencyGraphEdges(NEIGHBOURS, a, b);
    }
    var rank := map["build" := 0 as nat, "build-all" := 0];
    RankedIsAcyclic(DependencyGraph(NEIGHBOURS), rank);
  }

  /** ... and clash: the stages of the second pipeline are also found below the first. */
  lemma AcceptedNeighboursClash(top: string, x: Name)
    requires Plain(top) && Plain(x)
    ensures var m, n := StageName(NEIGHBOURS[0]), StageName(NEIGHBOURS[1]);
            AtDepth(Join([top] + [] + [m]), 1, Join([top] + [] + [n, x]))
  {
    assert "build-all"[..5] == "build";
    NeighboursClash(top, [], "build", "build-all", x);
  }

  // ----- environments

  /** The path names of the enclosing stages of a path, outermost first. */
  function PathNames(anc: seq<string>, p: seq<Name>): (names: seq<string>)
    ensures |names| == |p|
  {
    if p == [] then [] else PathNames(anc, p[..|p| - 1]) + [CascadeName(anc + p[..|p| - 1], p[|p| - 1])]
  }

  /** Every nested pipeline of the tree is found in the result under its path names, rebuilt. */
  lemma {:induction false} RebuiltAt(starts: Starts, top: Graph, name: string, out: Graph, p: seq<Name>)
    requires Rebuilt(starts, top, [name], map[], out) && PipelinePath(top, p)
    ensures var r := GraphAt(out, PathNames([name], p));
            r.Some? && Rebuilt(starts, PipelineAt(top, p), [name] + p, OuterEnv(starts, name, p), r.value)
    decreases |p|
  {
    hide Rebuilt, RunsPipeline, Under, CascadeName, OuterEnv, StartOf;
    if p == [] {
      assert [name] + p == [name];
      OuterEnvOfNone(starts, name);
    } else {
      var q, n := p[..|p| - 1], p[|p| - 1];
      assert p == q + [n];
      PipelineSnoc(top, q, n);
      RebuiltAt(starts, top, name, out, q);
      OuterEnvSnoc(starts, name, q, n);
      var r, k := GraphAt(out, PathNames([name], q)), CascadeName([name] + q, n);
      GraphAtSnoc(out, PathNames([name], q), k);
      RebuiltBelow(starts, PipelineAt(top, q), [name] + q, OuterEnv(starts, name, q), r.value, n);
      assert [name] + p == [name] + q + [n];
    }
  }

  lemma OuterEnvOfNone(starts: Starts, name: string)
    ensures OuterEnv(starts, name, []) == map[]
  {
  }

  lemma RebuiltBelow(starts: Starts, g: Graph, anc: seq<string>, outer: Env, out: Graph, n: Name)
    requires Rebuilt(starts, g, anc, outer, out) && RunsPipeline(g, n)
    ensures var k := CascadeName(anc, n);
            && k in out.nodes && out.nodes[k].body.Nested?
            && Rebuilt(starts, Under(g, n), anc + [n], outer + StartOf(starts, k), out.nodes[k].body.graph)
  {
    assert n in g.nodes.Keys - {ROOT};
    assert RebuiltStage(starts, g, anc, n, outer, out.nodes[CascadeName(anc, n)]);
  }

  /** What the innermost pipeline stage around that started with a key started with it as. */
  function Innermost(starts: Starts, name: string, p: seq<Name>, x: string): Option<string> {
    if p == [] then None
    else OrElse(Value(StartOf(starts, Join([name] + p)), x), Innermost(starts, name, p[..|p| - 1], x))
  }

  lemma {:induction false} InnermostWins(starts: Starts, name: string, p: seq<Name>, x: string)
    ensures Value(OuterEnv(starts, name, p), x) == Innermost(starts, name, p, x)
  {
    if p != [] {
      InnermostWins(starts, name, p[..|p| - 1], x);
    }
  }

  /**
    Precedence of environment values.  The task of a leaf stage sees, for each key: what the
    pipeline the stage belongs to sets for all its tasks; else what the task sets; else what
    the clone of the innermost enclosing pipeline stage started with that has the key; else what
    the stage itself sets.  Merging the stage's environment over the task's once more, as is
    done before it runs, changes nothing.
   */
  lemma TaskPrecedence(
    starts: Starts, base: Starts, run: seq<Visit>, top: Graph, name: string, out: Graph, p: seq<Name>, n: Name,
    x: string)
    requires Rebuilt(starts, top, [name], map[], out) && PipelinePath(top, p)
    requires DeepInner(top) && StartedIn(base, run, top, name, starts)
    requires var g := PipelineAt(top, p); n in g.nodes && n != ROOT && g.nodes[n].body.Leaf?
    ensures var g, r, k := PipelineAt(top, p), GraphAt(out, PathNames([name], p)), CascadeName([name] + p, n);
            && r.Some? && k in r.value.nodes && r.value.nodes[k].body.Leaf?
            && var s := r.value.nodes[k];
               && Value(s.body.task.env, x) ==
                  OrElse(Value(g.env, x), OrElse(Value(g.nodes[n].body.task.env, x),
                    OrElse(Innermost(starts, name, p, x), Value(g.nodes[n].env, x))))
               && s.body.task.env + s.env == s.body.task.env
  {
    hide PipelineAt, PipelinePath, OuterEnv, Innermost, GraphAt, PathNames, Rebuilt, StartedIn, DeepInner;
    RebuiltAt(starts, top, name, out, p);
    InnermostWins(starts, name, p, x);
    LeafStart(starts, base, run, top, name, p, n);
    RebuiltLeaf(starts, PipelineAt(top, p), [name] + p, OuterEnv(starts, name, p),
                GraphAt(out, PathNames([name], p)).value, n);
  }

  /** A clone that runs no pipeline starts with what its pipeline and its stage set. */
  lemma LeafStart(starts: Starts, base: Starts, run: seq<Visit>, top: Graph, name: string, p: seq<Name>, n: Name)
    requires DeepInner(top) && StartedIn(base, run, top, name, starts) && PipelinePath(top, p)
    requires var g := PipelineAt(top, p); n in g.nodes && n != ROOT && !RunsPipeline(g, n)
    ensures StartOf(starts, CascadeName([name] + p, n)) == PipelineAt(top, p).env + PipelineAt(top, p).nodes[n].env
  {
    hide CascadeName, Join, PipelineAt, PipelinePath, InTree, DeepInner, TopCall, VisitAt;
    InTreeSnoc(top, p, n);
    PathName(name, p, n);
    VisitAtSnoc(top, [name], p, n);
    AllAreVisited(top, name, p + [n]);
    WriteOfRun(TopCall(top, name), iset{VisitAt(top, [name], p + [n])}, run);
    PlainStart(base, run, VisitAt(top, [name], p + [n]));
  }

  lemma PathName(name: string, p: seq<Name>, n: Name)
    ensures Join([name] + (p + [n])) == CascadeName([name] + p, n)
  {
    JoinSnoc([name] + p, n);
    assert [name] + (p + [n]) == [name] + p + [n];
  }

  /** The only stage, besides the root node, of the pipeline that a stage runs, if it runs a pipeline itself. */
  ghost predicate IsSkipped(g: Graph, n: Name, m: Name) {
    && n in g.nodes && n != ROOT && g.nodes[n].body.Nested?
    && var w := g.nodes[n].body.graph;
       |w.nodes| == 2 && m in w.nodes && m != ROOT && w.nodes[m].body.Nested?
  }

  /** Pass-through pipelines are those. */
  lemma SkippedIs(g: Graph, n: Name, m: Name)
    requires DeepInner(g)
    ensures IsSkipped(g, n, m) <==> Skips(g, n) && m == OnlyStage(g.nodes[n].body.graph)
  {
    if IsSkipped(g, n, m) {
      var w := g.nodes[n].body.graph;
      assert RunsPipeline(g, n) && RunsPipeline(w, m) && WellBuilt(w);
      TwoNodes(w, m, OnlyStage(w));
    }
  }

  lemma StartsAsDefined(starts: Starts, base: Starts, run: seq<Visit>, top: Graph, name: string, p: seq<Name>, n: Name)
    requires DeepInner(top) && StartedIn(base, run, top, name, starts) && InTree(top, p + [n])
    requires var v := VisitAt(top, [name], p + [n]);
             Skips(v.g, v.n) ==> NothingShows(base, TopCall(top, name), v)
    ensures PipelinePath(top, p) && n in PipelineAt(top, p).nodes
    ensures StartOf(starts, Join([name] + (p + [n]))) == CloneEnv(PipelineAt(top, p), n)
  {
    hide Join, PipelineAt, PipelinePath, InTree, CloneEnv, DeepInner, TopCall, VisitAt, NothingShows;
    InTreeSnoc(top, p, n);
    VisitAtSnoc(top, [name], p, n);
    AllAreVisited(top, name, p + [n]);
    var v := VisitAt(top, [name], p + [n]);
    if Skips(v.g, v.n) {
      DefinedInRun(base, TopCall(top, name), v, run);
    } else {
      WriteOfRun(TopCall(top, name), iset{v}, run);
      PlainStart(base, run, v);
    }
  }

  /**
    What the clone of an enclosing pipeline stage starts with: what its pipeline and its stage
    set, and for one that skips a pass-through pipeline also what the skipped stage sets, the
    stage's own values again on top; this where no other use of the skipped pipeline shows.
   */
  lemma PipelineStart(
    starts: Starts, base: Starts, run: seq<Visit>, top: Graph, name: string, p: seq<Name>, n: Name, x: string)
    requires DeepInner(top) && StartedIn(base, run, top, name, starts) && InTree(top, p + [n])
    requires var v := VisitAt(top, [name], p + [n]);
             Skips(v.g, v.n) ==> NothingShows(base, TopCall(top, name), v)
    ensures PipelinePath(top, p) && n in PipelineAt(top, p).nodes
    ensures var g, start := PipelineAt(top, p), Value(StartOf(starts, Join([name] + (p + [n]))), x);
            && (forall m | IsSkipped(g, n, m) ::
                  start == OrElse(Value(g.nodes[n].env, x),
                    OrElse(Value(g.nodes[n].body.graph.nodes[m].env, x), Value(g.env, x))))
            && ((forall m :: !IsSkipped(g, n, m)) ==>
                  start == OrElse(Value(g.nodes[n].env, x), Value(g.env, x)))
  {
    StartsAsDefined(starts, base, run, top, name, p, n);
    PipelineAtGood(top, p);
    hide Join, PipelineAt, PipelinePath, InTree, DeepInner, TopCall, VisitAt, NothingShows, StartedIn, IsSkipped,
         Skips, StartOf, CloneEnv;
    DefinedValue(PipelineAt(top, p), n, x);
  }

  lemma DefinedValue(g: Graph, n: Name, x: string)
    requires DeepInner(g) && n in g.nodes
    ensures var start := Value(CloneEnv(g, n), x);
            && (forall m | IsSkipped(g, n, m) ::
                  start == OrElse(Value(g.nodes[n].env, x),
                    OrElse(Value(g.nodes[n].body.graph.nodes[m].env, x), Value(g.env, x))))
            && ((forall m :: !IsSkipped(g, n, m)) ==>
                  start == OrElse(Value(g.nodes[n].env, x), Value(g.env, x)))
  {
    forall m ensures IsSkipped(g, n, m) <==> Skips(g, n) && m == OnlyStage(g.nodes[n].body.graph) {
      SkippedIs(g, n, m);
    }
    hide DeepInner, PassThrough, IsSkipped, Value, OrElse;
    var own := g.nodes[n].env;
    LaterWins(g.env, own, x);
    if Skips(g, n) {
      var skipped := SkippedStage(g, n).env;
      StartWins(g.env, own, skipped, x);
      assert IsSkipped(g, n, OnlyStage(g.nodes[n].body.graph));
    }
  }

  lemma LaterWins(a: Env, b: Env, x: string)
    ensures Value(a + b, x) == OrElse(Value(b, x), Value(a, x))
  {
  }

  lemma StartWins(a: Env, b: Env, c: Env, x: string)
    ensures Value(a + b + (c + b), x) == OrElse(Value(b, x), OrElse(Value(c, x), Value(a, x)))
  {
  }

  lemma RebuiltLeaf(starts: Starts, g: Graph, anc: seq<string>, outer: Env, out: Graph, n: Name)
    requires Rebuilt(starts, g, anc, outer, out) && n in g.nodes && n != ROOT && g.nodes[n].body.Leaf?
    ensures var k, own := CascadeName(anc, n), g.nodes[n].body.task.env + g.env;
            && k in out.nodes && out.nodes[k].body.Leaf?
            && out.nodes[k].body.task.env == out.nodes[k].env == StartOf(starts, k) + outer + own
  {
    assert n in g.nodes.Keys - {ROOT};
    assert RebuiltStage(starts, g, anc, n, outer, out.nodes[CascadeName(anc, n)]);
  }
}
