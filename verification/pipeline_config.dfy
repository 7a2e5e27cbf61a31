/**
  Building the execution graph of a pipeline from its definition, and what a graph that was
  built without an error is known to satisfy.
 */
module PipelineConfig {
  import opened Digraph
  import opened Stages
  import opened ExecutionGraphs
  import opened WellBuiltGraphs
  import opened Paths

  datatype PipelineDefinition = PipelineDefinition(
    name: string, task: string, pipeline: string,
    dependsOn: seq<string>, condition: string, allowFailure: bool, env: Env)

  /** The tasks and pipelines that are configured. */
  datatype Config = Config(tasks: map<string, Task>, pipelines: map<string, Graph>)

  datatype BuildError =
    | NoSuchTask(name: string)
    | NoSuchPipeline(name: string)
    | NoName
    | ForbiddenName(name: string)
    | DuplicateName(name: string)
    | Cyclic(error: Error)
    | MissingDependency(stage: string, dep: string)
    | NoStart

  /** The name a stage ends up with: its own, else that of its pipeline, else that of its task. */
  function StageName(def: PipelineDefinition): string {
    if def.name != "" then def.name else if def.pipeline != "" then def.pipeline else def.task
  }

  /** The name a definition gives its stage. */
  ghost predicate NamedBy(def: PipelineDefinition, n: Name) {
    if def.name != "" then n == def.name else if def.pipeline != "" then n == def.pipeline else n == def.task
  }

  predicate Resolves(def: PipelineDefinition, cfg: Config) {
    if def.task != "" then def.task in cfg.tasks else def.pipeline in cfg.pipelines
  }

  function ToStage(def: PipelineDefinition, cfg: Config): Stage
    requires Resolves(def, cfg)
  {
    var body := if def.task != "" then Leaf(cfg.tasks[def.task]) else Nested(cfg.pipelines[def.pipeline]);
    Stage(StageName(def), def.dependsOn, def.condition, def.allowFailure, def.env, body)
  }

  function DepsOf(def: PipelineDefinition): seq<string> {
    if def.dependsOn == [] then [ROOT] else def.dependsOn
  }

  /** A definition makes b depend on a; one without dependencies hangs off the root node. */
  ghost predicate MakesEdge(def: PipelineDefinition, a: Name, b: Name) {
    NamedBy(def, b) && (a in def.dependsOn || (def.dependsOn == [] && a == ROOT))
  }

  ghost predicate DependsEdge(defs: seq<PipelineDefinition>, a: Name, b: Name) {
    exists i :: 0 <= i < |defs| && MakesEdge(defs[i], a, b)
  }

  lemma MadeEdge(def: PipelineDefinition, a: Name, b: Name)
    ensures MakesEdge(def, a, b) <==> StageName(def) == b && a in DepsOf(def)
  {
  }

  /** The dependencies as successor lists. */
  function DependencyGraph(defs: seq<PipelineDefinition>): Adjacency {
    if defs == [] then map[]
    else
      var d := defs[|defs| - 1];
      Hang(DependencyGraph(defs[..|defs| - 1]), DepsOf(d), StageName(d))
  }

  lemma DependsEdgeStep(defs: seq<PipelineDefinition>, k: nat, a: Name, b: Name)
    requires k < |defs|
    ensures DependsEdge(defs[..k + 1], a, b) <==> DependsEdge(defs[..k], a, b) || MakesEdge(defs[k], a, b)
  {
    hide MakesEdge;
    var done, more := defs[..k], defs[..k + 1];
    if DependsEdge(done, a, b) {
      var i :| 0 <= i < |done| && MakesEdge(done[i], a, b);
      assert more[i] == done[i];
    }
    if DependsEdge(more, a, b) {
      var i :| 0 <= i < |more| && MakesEdge(more[i], a, b);
      assert i < k ==> more[i] == done[i];
    }
    assert more[k] == defs[k];
  }

  lemma {:induction false} DependencyGraphEdges(defs: seq<PipelineDefinition>, a: Name, b: Name)
    ensures Edge(DependencyGraph(defs), a, b) <==> DependsEdge(defs, a, b)
  {
    if defs != [] {
      var k := |defs| - 1;
      DependencyGraphEdges(defs[..k], a, b);
      HangEdge(DependencyGraph(defs[..k]), DepsOf(defs[k]), StageName(defs[k]), a, b);
      DependsEdgeStep(defs, k, a, b);
      MadeEdge(defs[k], a, b);
      assert defs[..k + 1] == defs;
      hide DependsEdge, MakesEdge, Hang, StageName, DepsOf, Edge;
    }
  }

  /** A cycle among the first definitions is a cycle among all of them. */
  lemma PrefixAcyclic(defs: seq<PipelineDefinition>, k: nat)
    requires k <= |defs| && Acyclic(DependencyGraph(defs))
    ensures Acyclic(DependencyGraph(defs[..k]))
  {
    forall a, b | Edge(DependencyGraph(defs[..k]), a, b) ensures Edge(DependencyGraph(defs), a, b) {
      DependencyGraphEdges(defs[..k], a, b);
      var i :| 0 <= i < k && MakesEdge(defs[..k][i], a, b);
      assert MakesEdge(defs[i], a, b);
      DependencyGraphEdges(defs, a, b);
    }
    AcyclicMonotone(DependencyGraph(defs[..k]), DependencyGraph(defs));
  }

  ghost predicate NameFits(defs: seq<PipelineDefinition>, i: int)
    requires 0 <= i < |defs|
  {
    var n := StageName(defs[i]);
    n != "" && n != ARROW && n != ROOT && forall j :: 0 <= j < i ==> StageName(defs[j]) != n
  }

  ghost predicate Declared(defs: seq<PipelineDefinition>, n: Name) {
    n == ROOT || exists i :: 0 <= i < |defs| && StageName(defs[i]) == n
  }

  /** The definitions a pipeline can be built from. */
  ghost predicate Acceptable(defs: seq<PipelineDefinition>, cfg: Config) {
    && (forall i :: 0 <= i < |defs| ==> Resolves(defs[i], cfg) && NameFits(defs, i))
    && (forall i, d :: 0 <= i < |defs| && d in defs[i].dependsOn ==> Declared(defs, d))
    && Acyclic(DependencyGraph(defs))
  }

  /** Stages of which each depends on the one before it, and the first is the last. */
  ghost predicate Circle(defs: seq<PipelineDefinition>, p: seq<Name>) {
    |p| > 1 && p[0] == p[|p| - 1] && forall k | 0 <= k < |p| - 1 :: DependsEdge(defs, p[k], p[k + 1])
  }

  lemma CircleIsCycle(defs: seq<PipelineDefinition>)
    ensures Acyclic(DependencyGraph(defs)) <==> !exists p :: Circle(defs, p)
  {
    var adj := DependencyGraph(defs);
    forall a, b ensures Edge(adj, a, b) <==> DependsEdge(defs, a, b) { DependencyGraphEdges(defs, a, b); }
    hide Edge, DependsEdge, DependencyGraph;
    if !Acyclic(adj) {
      var x :| Follows(adj, x, x);
      var p :| WalkFromTo(adj, p, x, x) && |p| > 1;
      assert Circle(defs, p);
    }
    if p :| Circle(defs, p) {
      assert IsWalk(adj, p) && WalkFromTo(adj, p, p[0], p[0]);
      assert Follows(adj, p[0], p[0]);
    }
  }

  /** A reported error names something that is wrong with the definitions. */
  ghost predicate Real(defs: seq<PipelineDefinition>, cfg: Config, e: BuildError) {
    match e
    case NoSuchTask(n) => n != "" && n !in cfg.tasks && exists i :: 0 <= i < |defs| && defs[i].task == n
    case NoSuchPipeline(n) =>
      n !in cfg.pipelines && exists i :: 0 <= i < |defs| && defs[i].task == "" && defs[i].pipeline == n
    case NoName => exists i :: 0 <= i < |defs| && NamedBy(defs[i], "")
    case ForbiddenName(n) => n == "->" && exists i :: 0 <= i < |defs| && NamedBy(defs[i], n)
    case DuplicateName(n) =>
      exists i :: 0 <= i < |defs| && NamedBy(defs[i], n) &&
        (n == "root" || exists j :: 0 <= j < i && NamedBy(defs[j], n))
    case Cyclic(_) => exists p :: Circle(defs, p)
    case MissingDependency(s, d) =>
      exists i :: 0 <= i < |defs| && NamedBy(defs[i], s) && d in defs[i].dependsOn && d != "root" &&
        forall j | 0 <= j < |defs| :: !NamedBy(defs[j], d)
    case NoStart => false
  }

  ghost predicate AllFit(defs: seq<PipelineDefinition>, cfg: Config) {
    forall i :: 0 <= i < |defs| ==> Resolves(defs[i], cfg) && NameFits(defs, i)
  }

  /** The graph holds the root node and one stage for each definition, listed under its dependencies. */
  ghost predicate Holds(nodes: map<Name, Stage>, parent: Adjacency, defs: seq<PipelineDefinition>, cfg: Config)
    requires AllFit(defs, cfg)
  {
    && (forall n :: n in nodes <==> Declared(defs, n))
    && Succ(parent, ROOT) == []
    && (forall i :: 0 <= i < |defs| ==> HoldsOne(nodes, parent, defs[i], cfg))
    && (forall n :: Succ(parent, n) != [] ==> Declared(defs, n))
  }

  /** The state of the loop that adds the stages. */
  ghost predicate Built(g: Graph, defs: seq<PipelineDefinition>, cfg: Config) {
    && AllFit(defs, cfg) && Holds(g.nodes, g.parent, defs, cfg) && g.children == DependencyGraph(defs)
    && g.nodes[ROOT] == RootStage(g.name)
  }

  lemma RealMeansUnacceptable(defs: seq<PipelineDefinition>, cfg: Config, e: BuildError)
    requires Real(defs, cfg, e)
    ensures !Acceptable(defs, cfg)
  {
    match e
    case NoSuchTask(n) =>
      var i :| 0 <= i < |defs| && defs[i].task == n;
      assert !Resolves(defs[i], cfg);
    case NoSuchPipeline(n) =>
      var i :| 0 <= i < |defs| && defs[i].task == "" && defs[i].pipeline == n;
      assert !Resolves(defs[i], cfg);
    case NoName =>
      var i :| 0 <= i < |defs| && NamedBy(defs[i], "");
      assert !NameFits(defs, i);
    case ForbiddenName(n) =>
      var i :| 0 <= i < |defs| && NamedBy(defs[i], n);
      assert !NameFits(defs, i);
    case DuplicateName(n) =>
      var i :| 0 <= i < |defs| && NamedBy(defs[i], n) && (n == ROOT || exists j :: 0 <= j < i && NamedBy(defs[j], n));
      if n != ROOT {
        var j :| 0 <= j < i && NamedBy(defs[j], n);
        assert StageName(defs[j]) == n;
      }
      assert !NameFits(defs, i);
    case Cyclic(_) => CircleIsCycle(defs);
    case MissingDependency(s, d) =>
      if Declared(defs, d) {
        var j :| 0 <= j < |defs| && StageName(defs[j]) == d;
        assert NamedBy(defs[j], d);
      }
    case NoStart =>
  }

  lemma DeclaredStep(defs: seq<PipelineDefinition>, k: nat, m: Name)
    requires k < |defs|
    ensures Declared(defs[..k + 1], m) <==> Declared(defs[..k], m) || m == StageName(defs[k])
  {
    var done, more := defs[..k], defs[..k + 1];
    if Declared(more, m) && m != ROOT {
      var i :| 0 <= i < |more| && StageName(more[i]) == m;
      assert i < k ==> StageName(done[i]) == m;
    }
    if Declared(done, m) && m != ROOT {
      var i :| 0 <= i < |done| && StageName(done[i]) == m;
      assert StageName(more[i]) == m;
    }
    assert StageName(more[k]) == StageName(defs[k]);
  }

  lemma NameFitsStep(defs: seq<PipelineDefinition>, k: nat, i: nat)
    requires i < k <= |defs|
    ensures NameFits(defs[..k], i) <==> NameFits(defs, i)
  {
    forall j | 0 <= j < i ensures defs[..k][j] == defs[j] {}
  }

  lemma NewNameFits(defs: seq<PipelineDefinition>, k: nat)
    requires k < |defs|
    requires var n := StageName(defs[k]); n != "" && n != ARROW && !Declared(defs[..k], n)
    ensures NameFits(defs, k)
  {
    forall j | 0 <= j < k ensures StageName(defs[j]) != StageName(defs[k]) {
      assert defs[..k][j] == defs[j];
    }
  }

  lemma AllFitStep(defs: seq<PipelineDefinition>, k: nat, cfg: Config)
    requires k < |defs| && AllFit(defs[..k], cfg) && Resolves(defs[k], cfg)
    requires var n := StageName(defs[k]); n != "" && n != ARROW && !Declared(defs[..k], n)
    ensures AllFit(defs[..k + 1], cfg)
  {
    var done, more := defs[..k], defs[..k + 1];
    NewNameFits(defs, k);
    forall i | 0 <= i < |more| ensures Resolves(more[i], cfg) && NameFits(more, i) {
      NameFitsStep(defs, k + 1, i);
      if i < k {
        assert more[i] == done[i];
        NameFitsStep(defs, k, i);
      }
    }
  }

  /** What the graph holds for one definition. */
  ghost predicate HoldsOne(nodes: map<Name, Stage>, parent: Adjacency, def: PipelineDefinition, cfg: Config)
    requires Resolves(def, cfg)
  {
    var n := StageName(def);
    n in nodes && nodes[n] == ToStage(def, cfg) && Succ(parent, n) == DepsOf(def)
  }

  lemma HoldsOneStep(
    nodes: map<Name, Stage>, parent: Adjacency, def: PipelineDefinition, new_: PipelineDefinition, cfg: Config)
    requires Resolves(def, cfg) && Resolves(new_, cfg)
    requires if def == new_ then Succ(parent, StageName(new_)) == []
             else StageName(def) != StageName(new_) && HoldsOne(nodes, parent, def, cfg)
    ensures HoldsOne(nodes[StageName(new_) := ToStage(new_, cfg)],
                     ListUnder(parent, DepsOf(new_), StageName(new_)), def, cfg)
  {
  }

  lemma HoldsEachStep(
    nodes: map<Name, Stage>, parent: Adjacency, defs: seq<PipelineDefinition>, k: nat, cfg: Config, i: nat)
    requires k < |defs| && AllFit(defs[..k], cfg) && Resolves(defs[k], cfg) && i <= k
    requires Holds(nodes, parent, defs[..k], cfg) && StageName(defs[k]) !in nodes
    ensures Resolves(defs[i], cfg)
    ensures HoldsOne(nodes[StageName(defs[k]) := ToStage(defs[k], cfg)],
                     ListUnder(parent, DepsOf(defs[k]), StageName(defs[k])), defs[i], cfg)
  {
    if i < k {
      assert defs[..k][i] == defs[i];
      assert HoldsOne(nodes, parent, defs[..k][i], cfg);
    } else {
      assert Succ(parent, StageName(defs[k])) == [];
    }
    HoldsOneStep(nodes, parent, defs[i], defs[k], cfg);
  }

  lemma HoldsStep(nodes: map<Name, Stage>, parent: Adjacency, defs: seq<PipelineDefinition>, k: nat, cfg: Config)
    requires k < |defs| && AllFit(defs[..k], cfg) && AllFit(defs[..k + 1], cfg) && Resolves(defs[k], cfg)
    requires Holds(nodes, parent, defs[..k], cfg) && StageName(defs[k]) !in nodes
    ensures Holds(nodes[StageName(defs[k]) := ToStage(defs[k], cfg)],
                  ListUnder(parent, DepsOf(defs[k]), StageName(defs[k])), defs[..k + 1], cfg)
  {
    var n, more := StageName(defs[k]), defs[..k + 1];
    var nodes', parent' := nodes[n := ToStage(defs[k], cfg)], ListUnder(parent, DepsOf(defs[k]), n);
    forall i | 0 <= i < |more| ensures Resolves(more[i], cfg) && HoldsOne(nodes', parent', more[i], cfg) {
      HoldsEachStep(nodes, parent, defs, k, cfg, i);
    }
    forall m
      ensures m in nodes' <==> Declared(more, m)
      ensures Succ(parent', m) != [] ==> Declared(more, m)
    {
      DeclaredStep(defs, k, m);
    }
    hide Declared, AllFit, HoldsOne, ToStage, DepsOf, StageName;
  }

  lemma ToStageShape(def: PipelineDefinition, cfg: Config)
    requires Resolves(def, cfg)
    ensures ToStage(def, cfg).name == StageName(def) && ToStage(def, cfg).Deps() == DepsOf(def)
  {
  }

  lemma DependencyGraphSnoc(defs: seq<PipelineDefinition>, k: nat)
    requires k < |defs|
    ensures DependencyGraph(defs[..k + 1]) == Hang(DependencyGraph(defs[..k]), DepsOf(defs[k]), StageName(defs[k]))
  {
    assert defs[..k + 1][..k] == defs[..k];
  }

  lemma BuiltStep(g: Graph, g': Graph, defs: seq<PipelineDefinition>, k: nat, cfg: Config)
    requires k < |defs| && Built(g, defs[..k], cfg) && Resolves(defs[k], cfg)
    requires var n := StageName(defs[k]); n != "" && n != ARROW && n !in g.nodes
    requires g'.name == g.name && g'.nodes == g.nodes[StageName(defs[k]) := ToStage(defs[k], cfg)]
    requires var deps := DepsOf(defs[k]);
             HungUnder(g.children, g.parent, g'.children, g'.parent, deps, |deps|, StageName(defs[k]))
    ensures Built(g', defs[..k + 1], cfg)
  {
    hide Holds, AllFit, Declared, NameFits, ToStage, Resolves, DepsOf, StageName, Hang, ListUnder, DependencyGraph,
         HungUnder;
    BuiltHolds(g, defs[..k], cfg, StageName(defs[k]));
    HungAll(g.children, g.parent, g'.children, g'.parent, DepsOf(defs[k]), StageName(defs[k]));
    DependencyGraphSnoc(defs, k);
    AllFitStep(defs, k, cfg);
    HoldsStep(g.nodes, g.parent, defs, k, cfg);
    BuiltHolds(g, defs[..k], cfg, ROOT);
    RootIsDeclared(defs[..k]);
  }

  lemma RootIsDeclared(defs: seq<PipelineDefinition>)
    ensures Declared(defs, ROOT)
  {
  }

  lemma BuiltHolds(g: Graph, defs: seq<PipelineDefinition>, cfg: Config, n: Name)
    requires Built(g, defs, cfg)
    ensures AllFit(defs, cfg) && Holds(g.nodes, g.parent, defs, cfg)
    ensures n in g.nodes <==> Declared(defs, n)
  {
  }

  /** All stages were added and all dependencies found. */
  lemma BuiltIsWellBuilt(g: Graph, defs: seq<PipelineDefinition>, cfg: Config)
    requires Built(g, defs, cfg) && Inverse(g.parent, g.children) && Acyclic(g.children)
    requires forall n | n in g.nodes :: DepsPresent(g.nodes, n)
    ensures WellBuilt(g) && Acceptable(defs, cfg)
  {
    forall n | n in g.nodes && n != ROOT
      ensures g.nodes[n].name == n && Succ(g.parent, n) == g.nodes[n].Deps()
    {
      var i :| 0 <= i < |defs| && StageName(defs[i]) == n;
      assert g.nodes[n] == ToStage(defs[i], cfg);
    }
    forall i, d | 0 <= i < |defs| && d in defs[i].dependsOn ensures Declared(defs, d) {
      assert Declared(defs, StageName(defs[i]));
    }
  }

  /** What the check that fails at one definition has found. */
  ghost predicate Found(defs: seq<PipelineDefinition>, cfg: Config, k: nat, e: BuildError)
    requires k < |defs|
  {
    var name := StageName(defs[k]);
    match e
    case NoSuchTask(n) => n == defs[k].task && n != "" && n !in cfg.tasks
    case NoSuchPipeline(n) => defs[k].task == "" && n == defs[k].pipeline && n !in cfg.pipelines
    case NoName => name == ""
    case ForbiddenName(n) => n == name == ARROW
    case DuplicateName(n) => n == name && Declared(defs[..k], n)
    case Cyclic(_) => !Acyclic(Hang(DependencyGraph(defs[..k]), DepsOf(defs[k]), name))
    case MissingDependency(s, d) => s == name && d in defs[k].dependsOn && !Declared(defs, d)
    case NoStart => false
  }

  lemma FoundIsReal(defs: seq<PipelineDefinition>, cfg: Config, k: nat, e: BuildError)
    requires k < |defs| && Found(defs, cfg, k, e)
    ensures Real(defs, cfg, e) && !Acceptable(defs, cfg)
  {
    assert NamedBy(defs[k], StageName(defs[k]));
    match e {
      case DuplicateName(n) =>
        if n != ROOT {
          var j :| 0 <= j < k && StageName(defs[..k][j]) == n;
          assert NamedBy(defs[j], n);
        }
      case Cyclic(_) =>
        CycleLasts(defs, k);
        CircleIsCycle(defs);
      case MissingDependency(s, d) =>
        forall j | 0 <= j < |defs| ensures !NamedBy(defs[j], d) {
          assert StageName(defs[j]) != d;
        }
      case _ =>
    }
    assert Real(defs, cfg, e);
    RealMeansUnacceptable(defs, cfg, e);
  }

  /** A cycle that one definition closes is one of the whole list. */
  lemma {:induction false} CycleLasts(defs: seq<PipelineDefinition>, k: nat)
    requires k < |defs|
    requires !Acyclic(Hang(DependencyGraph(defs[..k]), DepsOf(defs[k]), StageName(defs[k])))
    ensures !Acyclic(DependencyGraph(defs))
  {
    DependencyGraphSnoc(defs, k);
    hide DependencyGraph, Hang, Acyclic, DepsOf, StageName;
    if Acyclic(DependencyGraph(defs)) {
      PrefixAcyclic(defs, k + 1);
    }
  }

  lemma MissingIsReal(g: Graph, defs: seq<PipelineDefinition>, cfg: Config, n: Name, dep: Name)
    requires Built(g, defs, cfg) && n in g.nodes && dep in g.nodes[n].dependsOn && dep !in g.nodes
    ensures Real(defs, cfg, MissingDependency(n, dep)) && !Acceptable(defs, cfg)
  {
    var k :| 0 <= k < |defs| && StageName(defs[k]) == n;
    assert g.nodes[n] == ToStage(defs[k], cfg);
    FoundIsReal(defs, cfg, k, MissingDependency(n, dep));
  }

  lemma RootStarts(g: Graph, defs: seq<PipelineDefinition>, cfg: Config)
    requires Built(g, defs, cfg)
    ensures ROOT in g.nodes && g.nodes[ROOT].dependsOn == []
  {
  }

  lemma NothingBuilt(g: Graph, cfg: Config)
    requires g.nodes == map[ROOT := RootStage(g.name)] && g.parent == map[] && g.children == map[]
    ensures Built(g, [], cfg)
  {
  }

  lemma HeldIsDeclared(g: Graph, defs: seq<PipelineDefinition>, cfg: Config, n: Name)
    requires Built(g, defs, cfg) && n in g.nodes
    ensures Declared(defs, n)
  {
  }

  lemma LookupFound(nodes: map<Name, Stage>, n: Name)
    ensures Lookup(nodes, n).Some? <==> n in nodes
  {
  }

  lemma AllPresent(nodes: map<Name, Stage>, n: Name)
    requires n in nodes
    requires forall j | 0 <= j < |nodes[n].dependsOn| :: nodes[n].dependsOn[j] in nodes
    ensures DepsPresent(nodes, n)
  {
  }

  ghost predicate DepsPresent(nodes: map<Name, Stage>, n: Name)
    requires n in nodes
  {
    forall d | d in nodes[n].dependsOn :: d in nodes
  }

  /**
    Walk the nodes in any order and look every dependency up, collecting the nodes that depend
    on nothing.  The root node is always one of these, so there is always a starting point.
   */
  method CheckDependencies(g: ExecutionGraph, ghost defs: seq<PipelineDefinition>, ghost cfg: Config)
    returns (r: Option<BuildError>)
    requires g.Valid() && Acyclic(g.children) && Built(g.Snapshot(), defs, cfg)
    ensures r.None? ==> WellBuilt(g.Snapshot()) && Acceptable(defs, cfg)
    ensures r.Some? ==> Real(defs, cfg, r.value) && !Acceptable(defs, cfg)
  {
    hide Built, WellBuilt, Acceptable, Real, Acyclic, Inverse, Lookup, DepsPresent, DependencyGraph;
    RootStarts(g.Snapshot(), defs, cfg);
    var rootNodes: seq<Name> := [];
    var rest := g.nodes.Keys;
    while rest != {}
      invariant rest <= g.nodes.Keys
      invariant forall n | n in g.nodes && n !in rest :: DepsPresent(g.nodes, n)
      invariant ROOT !in rest ==> |rootNodes| > 0
    {
      var n :| n in rest;
      var node := g.nodes[n];
      if |node.dependsOn| > 0 {
        var i := 0;
        while i < |node.dependsOn|
          invariant 0 <= i <= |node.dependsOn|
          invariant forall j | 0 <= j < i :: node.dependsOn[j] in g.nodes
        {
          var dep := g.Node(node.dependsOn[i]);
          LookupFound(g.nodes, node.dependsOn[i]);
          if dep.None? {
            MissingIsReal(g.Snapshot(), defs, cfg, n, node.dependsOn[i]);
            return Some(MissingDependency(n, node.dependsOn[i]));
          }
          i := i + 1;
        }
      } else {
        rootNodes := rootNodes + [n];
      }
      AllPresent(g.nodes, n);
      rest := rest - {n};
    }
    if |rootNodes| == 0 {
      assert false;
    }
    BuiltIsWellBuilt(g.Snapshot(), defs, cfg);
    return None;
  }

  /** The graph holds a stage for a definition, with all that the definition says of it. */
  ghost predicate Shows(g: Graph, n: Name, def: PipelineDefinition, cfg: Config) {
    && n in g.nodes
    && var s := g.nodes[n];
       && s.name == n && s.condition == def.condition && s.allowFailure == def.allowFailure
       && s.env == def.env && s.dependsOn == def.dependsOn
       && (if def.task != "" then def.task in cfg.tasks && s.body == Leaf(cfg.tasks[def.task])
           else def.pipeline in cfg.pipelines && s.body == Nested(cfg.pipelines[def.pipeline]))
       && (n in g.parent && g.parent[n] == if def.dependsOn == [] then [ROOT] else def.dependsOn)
  }

  /** The graph holds a stage for each definition, and but for the root node no other. */
  ghost predicate ShowsAll(g: Graph, defs: seq<PipelineDefinition>, cfg: Config) {
    && (forall i, n | 0 <= i < |defs| && NamedBy(defs[i], n) :: Shows(g, n, defs[i], cfg))
    && (forall n | n in g.nodes && n != ROOT :: exists i :: 0 <= i < |defs| && NamedBy(defs[i], n))
  }

  lemma BuiltShows(g: Graph, defs: seq<PipelineDefinition>, cfg: Config)
    requires Built(g, defs, cfg)
    ensures ShowsAll(g, defs, cfg)
  {
    forall i, n | 0 <= i < |defs| && NamedBy(defs[i], n) ensures Shows(g, n, defs[i], cfg) {
      assert HoldsOne(g.nodes, g.parent, defs[i], cfg);
    }
    forall n | n in g.nodes && n != ROOT ensures exists i :: 0 <= i < |defs| && NamedBy(defs[i], n) {
      var i :| 0 <= i < |defs| && StageName(defs[i]) == n;
      assert NamedBy(defs[i], n);
    }
  }

  lemma ShownStage(g: Graph, defs: seq<PipelineDefinition>, cfg: Config, i: nat, n: Name)
    requires Built(g, defs, cfg) && i < |defs| && NamedBy(defs[i], n)
    ensures n != ROOT && Shows(g, n, defs[i], cfg)
  {
    BuiltShows(g, defs, cfg);
    BuiltHolds(g, defs, cfg, n);
    hide Built, Holds, Shows;
    assert NameFits(defs, i);
  }

  /** The definitions of a pipeline, said without what the builder computes on the way. */
  ghost predicate Proper(defs: seq<PipelineDefinition>, cfg: Config) {
    && (forall i | 0 <= i < |defs| ::
          if defs[i].task != "" then defs[i].task in cfg.tasks else defs[i].pipeline in cfg.pipelines)
    && (forall i, n | 0 <= i < |defs| && NamedBy(defs[i], n) :: n != "" && n != "->" && n != "root")
    && (forall i, j, n | 0 <= i < j < |defs| && NamedBy(defs[i], n) :: !NamedBy(defs[j], n))
    && (forall i, d | 0 <= i < |defs| && d in defs[i].dependsOn ::
          d == "root" || exists j :: 0 <= j < |defs| && NamedBy(defs[j], d))
  }

  /** Which definitions are accepted: proper ones that do not depend on each other in a circle. */
  lemma AcceptableIsProper(defs: seq<PipelineDefinition>, cfg: Config)
    ensures Acceptable(defs, cfg) <==> Proper(defs, cfg) && !exists p :: Circle(defs, p)
  {
    forall i, n ensures 0 <= i < |defs| ==> (NamedBy(defs[i], n) <==> n == StageName(defs[i])) {}
    CircleIsCycle(defs);
    if Acceptable(defs, cfg) {
      AcceptableFits(defs, cfg);
    }
    if Proper(defs, cfg) && Acyclic(DependencyGraph(defs)) {
      ProperFits(defs, cfg);
    }
  }

  lemma AcceptableFits(defs: seq<PipelineDefinition>, cfg: Config)
    requires Acceptable(defs, cfg)
    ensures Proper(defs, cfg)
  {
    hide DependencyGraph, Acyclic;
    forall i | 0 <= i < |defs|
      ensures if defs[i].task != "" then defs[i].task in cfg.tasks else defs[i].pipeline in cfg.pipelines
    {
      assert Resolves(defs[i], cfg);
    }
    forall i, j, n | 0 <= i < j < |defs| && NamedBy(defs[i], n) ensures !NamedBy(defs[j], n) {
      assert NameFits(defs, j);
    }
    forall i, n | 0 <= i < |defs| && NamedBy(defs[i], n) ensures n != "" && n != "->" && n != "root" {
      assert NameFits(defs, i);
    }
    forall i, d | 0 <= i < |defs| && d in defs[i].dependsOn
      ensures d == "root" || exists j :: 0 <= j < |defs| && NamedBy(defs[j], d)
    {
      assert Declared(defs, d);
      if d != ROOT {
        var j :| 0 <= j < |defs| && StageName(defs[j]) == d;
        assert NamedBy(defs[j], d);
      }
    }
  }

  lemma ProperFits(defs: seq<PipelineDefinition>, cfg: Config)
    requires Proper(defs, cfg) && Acyclic(DependencyGraph(defs))
    ensures Acceptable(defs, cfg)
  {
    hide DependencyGraph, Acyclic;
    forall i | 0 <= i < |defs| ensures Resolves(defs[i], cfg) && NameFits(defs, i) {
      assert NamedBy(defs[i], StageName(defs[i]));
      forall j | 0 <= j < i ensures StageName(defs[j]) != StageName(defs[i]) {
        assert NamedBy(defs[j], StageName(defs[j]));
      }
    }
    forall i, d | 0 <= i < |defs| && d in defs[i].dependsOn ensures Declared(defs, d) {
      if d != ROOT {
        var j :| 0 <= j < |defs| && NamedBy(defs[j], d);
        assert StageName(defs[j]) == d;
      }
    }
  }

  /**
    Add every defined stage to a graph that has only its root node, then look every dependency
    up.  The build succeeds exactly on acceptable definitions, and an error it reports is real.
   */
  method BuildPipeline(g: ExecutionGraph, defs: seq<PipelineDefinition>, cfg: Config) returns (r: Option<BuildError>)
    requires g.Valid() && g.nodes == map[ROOT := RootStage(g.name)] && g.parent == map[] && g.children == map[]
    modifies g
    ensures r.None? <==> Acceptable(defs, cfg)
    ensures r.None? <==> Proper(defs, cfg) && !exists p :: Circle(defs, p)
    ensures r.None? ==> ShowsAll(g.Snapshot(), defs, cfg)
    ensures r.None? ==> WellBuilt(g.Snapshot()) && Built(g.Snapshot(), defs, cfg)
    ensures r.Some? ==> Real(defs, cfg, r.value)
  {
    hide Real, NameFits, Holds, AllFit, Acceptable, WellBuilt, DependencyGraph, Declared, ToStage, HungUnder, Hang,
         Acyclic, AddedBelow;
    EmptyIsAcyclic(g.children);
    hide Edge;
    AcceptableIsProper(defs, cfg);
    hide Proper, DependsEdge, ShowsAll;
    var k := 0;
    assert defs[..0] == [];
    NothingBuilt(g.Snapshot(), cfg);
    while k < |defs|
      invariant 0 <= k <= |defs|
      invariant g.Valid() && Acyclic(g.children) && Built(g.Snapshot(), defs[..k], cfg)
    {
      var def := defs[k];
      var name := StageName(def);
      if def.task != "" {
        if def.task !in cfg.tasks {
          FoundIsReal(defs, cfg, k, NoSuchTask(def.task));
          return Some(NoSuchTask(def.task));
        }
      } else if def.pipeline !in cfg.pipelines {
        FoundIsReal(defs, cfg, k, NoSuchPipeline(def.pipeline));
        return Some(NoSuchPipeline(def.pipeline));
      }
      if name == "" {
        FoundIsReal(defs, cfg, k, NoName);
        return Some(NoName);
      }
      if name == ARROW {
        FoundIsReal(defs, cfg, k, ForbiddenName(name));
        return Some(ForbiddenName(name));
      }
      var known := g.Node(name);
      if known.Some? {
        HeldIsDeclared(g.Snapshot(), defs[..k], cfg, name);
        FoundIsReal(defs, cfg, k, DuplicateName(name));
        return Some(DuplicateName(name));
      }
      ToStageShape(def, cfg);
      ghost var before := g.Snapshot();
      var added := g.AddStage(ToStage(def, cfg));
      if added.Fail? {
        FoundIsReal(defs, cfg, k, Cyclic(added.error));
        return Some(Cyclic(added.error));
      }
      BuiltStep(before, g.Snapshot(), defs, k, cfg);
      k := k + 1;
    }
    assert defs[..k] == defs;
    BuiltShows(g.Snapshot(), defs, cfg);
    r := CheckDependencies(g, defs, cfg);
  }
}
