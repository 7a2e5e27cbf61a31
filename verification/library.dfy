/**
  The pipelines of a config, which run each other by name, and when the tree that a pipeline
  stands for is finite.
 */
module PipelineLibraries {
  import opened Digraph
  import opened Stages
  import opened WellBuiltGraphs
  import opened PipelineConfig

  datatype Library = Library(tasks: map<string, Task>, pipelines: map<string, seq<PipelineDefinition>>)

  predicate RunsByName(def: PipelineDefinition) {
    def.task == ""
  }

  /** The pipelines that some definitions run, in order. */
  function ReferencesOf(defs: seq<PipelineDefinition>): seq<string> {
    if defs == [] then []
    else
      var last := defs[|defs| - 1];
      ReferencesOf(defs[..|defs| - 1]) + if RunsByName(last) then [last.pipeline] else []
  }

  /** Which pipeline runs which. */
  function References(lib: Library): Adjacency {
    map p | p in lib.pipelines :: ReferencesOf(lib.pipelines[p])
  }

  /** The i-th definition runs a pipeline by this name. */
  predicate RunsAt(defs: seq<PipelineDefinition>, i: int, q: string) {
    0 <= i < |defs| && RunsByName(defs[i]) && defs[i].pipeline == q
  }

  lemma {:induction false} InReferencesOf(defs: seq<PipelineDefinition>, q: string)
    ensures q in ReferencesOf(defs) <==> exists i :: RunsAt(defs, i, q)
  {
    if defs != [] {
      var k := |defs| - 1;
      var before := defs[..k];
      InReferencesOf(before, q);
      forall i ensures RunsAt(defs, i, q) <==> RunsAt(before, i, q) || (i == k && RunsAt(defs, k, q)) {
      }
      assert q in ReferencesOf(defs) <==> q in ReferencesOf(before) || RunsAt(defs, k, q);
    }
  }

  /** The config while it is built: a graph without stages is registered for every pipeline first. */
  function Registered(lib: Library): Config {
    Config(lib.tasks, map p | p in lib.pipelines :: EmptyGraph(p))
  }

  /** No pipeline of the config is refused. */
  ghost predicate Accepted(lib: Library) {
    forall p | p in lib.pipelines :: Acceptable(lib.pipelines[p], Registered(lib))
  }

  /** Whether definitions are accepted depends on the names of the pipelines only. */
  lemma SameVerdict(defs: seq<PipelineDefinition>, c: Config, d: Config)
    requires c.tasks == d.tasks && c.pipelines.Keys == d.pipelines.Keys && Acceptable(defs, c)
    ensures Acceptable(defs, d)
  {
    forall i | 0 <= i < |defs| ensures Resolves(defs[i], d) {
      assert Resolves(defs[i], c);
    }
  }

  // ----- what a pipeline stands for

  /** The graph of a pipeline, with the pipelines it runs given. */
  ghost predicate BuiltWith(lib: Library, name: string, g: Graph, cfg: Config) {
    && name in lib.pipelines && g.name == name && g.env == map[]
    && cfg.tasks == lib.tasks && cfg.pipelines.Keys == lib.pipelines.Keys
    && WellBuilt(g) && Built(g, lib.pipelines[name], cfg)
  }

  ghost predicate BuiltSomehow(lib: Library, name: string, g: Graph) {
    exists cfg :: BuiltWith(lib, name, g, cfg)
  }

  /** A stage of the graph that runs a pipeline by name. */
  ghost predicate RunsNamed(lib: Library, name: string, g: Graph, def: PipelineDefinition) {
    && name in lib.pipelines && def in lib.pipelines[name] && RunsByName(def)
    && StageName(def) in g.nodes && g.nodes[StageName(def)].body.Nested?
  }

  /**
    The finished graph of a pipeline: built from its definitions, and each stage that runs a
    pipeline holds that one's.
   */
  ghost predicate UnfoldsTo(lib: Library, name: string, g: Graph)
    decreases g
  {
    && BuiltSomehow(lib, name, g)
    && forall def | RunsNamed(lib, name, g, def) ::
         UnfoldsTo(lib, def.pipeline, g.nodes[StageName(def)].body.graph)
  }

  /** Every definition that runs a pipeline by name has its stage in a built graph. */
  lemma NamedStageIsThere(lib: Library, name: string, g: Graph, cfg: Config, def: PipelineDefinition)
    requires BuiltWith(lib, name, g, cfg) && def in lib.pipelines[name] && RunsByName(def)
    ensures RunsNamed(lib, name, g, def) && def.pipeline in cfg.pipelines
    ensures g.nodes[StageName(def)].body.graph == cfg.pipelines[def.pipeline]
  {
    var defs := lib.pipelines[name];
    var i :| 0 <= i < |defs| && defs[i] == def;
    assert HoldsOne(g.nodes, g.parent, defs[i], cfg);
  }

  /** A stage that holds a graph runs a pipeline by name. */
  lemma NestedIsNamed(lib: Library, name: string, g: Graph, n: Name) returns (def: PipelineDefinition)
    requires BuiltSomehow(lib, name, g) && n in g.nodes && g.nodes[n].body.Nested?
    ensures RunsNamed(lib, name, g, def) && StageName(def) == n
  {
    var cfg :| BuiltWith(lib, name, g, cfg);
    var defs := lib.pipelines[name];
    assert Declared(defs, n);
    var i :| 0 <= i < |defs| && StageName(defs[i]) == n;
    assert HoldsOne(g.nodes, g.parent, defs[i], cfg);
    def := defs[i];
  }

  /** A finished graph is well built on all its levels. */
  lemma {:induction false} UnfoldingIsDeep(lib: Library, name: string, g: Graph)
    requires UnfoldsTo(lib, name, g)
    ensures DeepWellBuilt(g)
    decreases g
  {
    hide Built;
    var cfg :| BuiltWith(lib, name, g, cfg);
    forall n | n in g.nodes && g.nodes[n].body.Nested? ensures DeepWellBuilt(g.nodes[n].body.graph) {
      var def := NestedIsNamed(lib, name, g, n);
      UnfoldingIsDeep(lib, def.pipeline, g.nodes[n].body.graph);
    }
  }

  // ----- when a pipeline stands for a finite tree

  /** A pipeline that runs, directly or through others, one that runs itself. */
  ghost predicate Endless(lib: Library, name: string) {
    exists c :: Reaches(References(lib), name, c) && Follows(References(lib), c, c)
  }

  /** Whatever a pipeline runs is endless only if the pipeline is. */
  lemma EndlessAbove(lib: Library, name: string, q: string)
    requires Edge(References(lib), name, q) && Endless(lib, q)
    ensures Endless(lib, name)
  {
    var c :| Reaches(References(lib), q, c) && Follows(References(lib), c, c);
    EdgeFollows(References(lib), name, q);
    ReachesTrans(References(lib), name, q, c);
  }

  /** An endless pipeline runs an endless one. */
  lemma EndlessBelow(lib: Library, name: string) returns (q: string)
    requires Endless(lib, name)
    ensures Edge(References(lib), name, q) && Endless(lib, q)
  {
    var adj := References(lib);
    var c :| Reaches(adj, name, c) && Follows(adj, c, c);
    if name == c {
      q := FollowsSplit(adj, c, c);
    } else {
      var p :| WalkFromTo(adj, p, name, c);
      assert |p| > 1;
      q := FollowsSplit(adj, name, c);
    }
    assert Reaches(adj, q, c);
  }

  /** So it has no finished graph: every level would have another one below it. */
  lemma {:induction false} EndlessHasNoGraph(lib: Library, name: string, g: Graph)
    requires Endless(lib, name)
    ensures !UnfoldsTo(lib, name, g)
    decreases g
  {
    if UnfoldsTo(lib, name, g) {
      hide Built;
      var q := EndlessBelow(lib, name);
      var cfg :| BuiltWith(lib, name, g, cfg);
      InReferencesOf(lib.pipelines[name], q);
      var i :| RunsAt(lib.pipelines[name], i, q);
      var def := lib.pipelines[name][i];
      NamedStageIsThere(lib, name, g, cfg, def);
      EndlessHasNoGraph(lib, q, g.nodes[StageName(def)].body.graph);
    }
  }

  /** ... and flattening, which follows every chain of stages that run pipelines, meets chains of any length. */
  lemma {:induction false} EndlessHasLongChains(lib: Library, name: string, n: nat) returns (chain: seq<string>)
    requires Endless(lib, name)
    ensures |chain| == n + 1 && chain[0] == name && IsWalk(References(lib), chain)
    decreases n
  {
    if n == 0 {
      chain := [name];
    } else {
      var q := EndlessBelow(lib, name);
      var rest := EndlessHasLongChains(lib, q, n - 1);
      chain := [name] + rest;
    }
  }

  /** All others have one. */
  lemma {:induction false} FiniteHasGraph(lib: Library, name: string) returns (g: Graph)
    requires Accepted(lib) && name in lib.pipelines && !Endless(lib, name)
    ensures UnfoldsTo(lib, name, g)
    decreases |Descendants(References(lib), name)|, 1
  {
    hide Acceptable, Built, WellBuilt;
    var defs := lib.pipelines[name];
    assert Acceptable(defs, Registered(lib));
    var cfg := FiniteBelow(lib, name, |defs|);
    SameVerdict(defs, Registered(lib), cfg);
    g := GraphOf(name, defs, cfg);
    assert BuiltWith(lib, name, g, cfg);
    forall def | RunsNamed(lib, name, g, def)
      ensures UnfoldsTo(lib, def.pipeline, g.nodes[StageName(def)].body.graph)
    {
      NamedStageIsThere(lib, name, g, cfg, def);
      var i :| 0 <= i < |defs| && defs[i] == def;
    }
  }

  /** The graphs of the pipelines that the first definitions of a pipeline run. */
  lemma {:induction false} FiniteBelow(lib: Library, name: string, k: nat) returns (cfg: Config)
    requires Accepted(lib) && name in lib.pipelines && !Endless(lib, name) && k <= |lib.pipelines[name]|
    ensures cfg.tasks == lib.tasks && cfg.pipelines.Keys == lib.pipelines.Keys
    ensures HoldsFirst(lib, name, k, cfg)
    decreases |Descendants(References(lib), name)|, 0, k
  {
    hide UnfoldsTo, Acceptable, Descendants, References;
    var defs := lib.pipelines[name];
    if k == 0 {
      cfg := Registered(lib);
    } else {
      cfg := FiniteBelow(lib, name, k - 1);
      if RunsByName(defs[k - 1]) {
        ReferenceIsFinite(lib, name, defs[k - 1]);
        var q := defs[k - 1].pipeline;
        var h := FiniteHasGraph(lib, q);
        cfg := cfg.(pipelines := cfg.pipelines[q := h]);
      }
    }
  }

  /** The pipelines that the first definitions run are given by their finished graphs. */
  ghost predicate HoldsFirst(lib: Library, name: string, k: nat, cfg: Config)
    requires name in lib.pipelines && k <= |lib.pipelines[name]|
  {
    forall i | 0 <= i < k && RunsByName(lib.pipelines[name][i]) ::
      var q := lib.pipelines[name][i].pipeline;
      q in cfg.pipelines && UnfoldsTo(lib, q, cfg.pipelines[q])
  }

  lemma ReferenceIsFinite(lib: Library, name: string, def: PipelineDefinition)
    requires Accepted(lib) && name in lib.pipelines && !Endless(lib, name)
    requires def in lib.pipelines[name] && RunsByName(def)
    ensures def.pipeline in lib.pipelines && !Endless(lib, def.pipeline)
    ensures |Descendants(References(lib), def.pipeline)| < |Descendants(References(lib), name)|
  {
    var adj, q, defs := References(lib), def.pipeline, lib.pipelines[name];
    var i :| 0 <= i < |defs| && defs[i] == def;
    assert Resolves(defs[i], Registered(lib));
    InReferencesOf(defs, q);
    assert RunsAt(defs, i, q);
    assert Edge(adj, name, q);
    if Endless(lib, q) {
      EndlessAbove(lib, name, q);
    }
    ReachesRefl(adj, q);
    assert !Follows(adj, q, q);
    DescendantsShrink(adj, name, q);
  }

  /** The graph that acceptable definitions are built into. */
  lemma GraphOf(name: string, defs: seq<PipelineDefinition>, cfg: Config) returns (g: Graph)
    requires Acceptable(defs, cfg)
    ensures g.name == name && g.env == map[] && WellBuilt(g) && Built(g, defs, cfg)
  {
    g := EmptyGraph(name);
    NothingBuilt(g, cfg);
    assert defs[..0] == [];
    var k := 0;
    while k < |defs|
      invariant 0 <= k <= |defs|
      invariant g.name == name && g.env == map[] && Built(g, defs[..k], cfg) && Inverse(g.parent, g.children)
    {
      g := NextBuilt(g, defs, k, cfg);
      k := k + 1;
    }
    assert defs[..|defs|] == defs;
    BuiltIsAcceptable(g, defs, cfg);
  }

  lemma NextBuilt(g: Graph, defs: seq<PipelineDefinition>, k: nat, cfg: Config) returns (g': Graph)
    requires Acceptable(defs, cfg) && k < |defs| && Built(g, defs[..k], cfg) && Inverse(g.parent, g.children)
    ensures g'.name == g.name && g'.env == g.env && Built(g', defs[..k + 1], cfg) && Inverse(g'.parent, g'.children)
  {
    var def := defs[k];
    var n, deps := StageName(def), DepsOf(def);
    assert Resolves(def, cfg) && NameFits(defs, k);
    BuiltHolds(g, defs[..k], cfg, n);
    NameIsNew(defs, k);
    var nodes := g.nodes[n := ToStage(def, cfg)];
    g' := Graph(g.name, g.env, nodes, ListUnder(g.parent, deps, n), Hang(g.children, deps, n));
    assert deps[..|deps|] == deps;
    BuiltStep(g, g', defs, k, cfg);
    InverseHang(g.parent, g.children, deps, n);
  }

  lemma NameIsNew(defs: seq<PipelineDefinition>, k: nat)
    requires k < |defs| && NameFits(defs, k)
    ensures !Declared(defs[..k], StageName(defs[k]))
  {
    forall j | 0 <= j < k ensures StageName(defs[..k][j]) != StageName(defs[k]) {
      assert defs[..k][j] == defs[j];
    }
  }

  lemma {:induction false} InverseHang(parent: Adjacency, children: Adjacency, deps: seq<Name>, n: Name)
    requires Inverse(parent, children)
    ensures Inverse(ListUnder(parent, deps, n), Hang(children, deps, n))
  {
    if deps != [] {
      var k := |deps| - 1;
      InverseHang(parent, children, deps[..k], n);
      HangStep(children, parent, deps, k, n);
      assert deps[..k + 1] == deps;
      InverseAppend(ListUnder(parent, deps[..k], n), Hang(children, deps[..k], n), deps[k], n);
    }
  }

  lemma BuiltIsAcceptable(g: Graph, defs: seq<PipelineDefinition>, cfg: Config)
    requires Acceptable(defs, cfg) && Built(g, defs, cfg) && Inverse(g.parent, g.children)
    ensures WellBuilt(g)
  {
    forall n | n in g.nodes ensures DepsPresent(g.nodes, n) {
      HeldDeps(g, defs, cfg, n);
      AllPresent(g.nodes, n);
    }
    BuiltIsWellBuilt(g, defs, cfg);
  }

  lemma HeldDeps(g: Graph, defs: seq<PipelineDefinition>, cfg: Config, n: Name)
    requires Acceptable(defs, cfg) && Built(g, defs, cfg) && n in g.nodes
    ensures forall d | d in g.nodes[n].dependsOn :: d in g.nodes
  {
    BuiltHolds(g, defs, cfg, n);
    if n != ROOT {
      var i :| 0 <= i < |defs| && StageName(defs[i]) == n;
      assert HoldsOne(g.nodes, g.parent, defs[i], cfg);
      forall d | d in defs[i].dependsOn ensures d in g.nodes {
        assert Declared(defs, d);
      }
    }
  }

  /**
    In an accepted config a pipeline stands for a finite tree of graphs, so that flattening it
    ends, exactly when it runs no pipeline that runs itself; and no check refuses the others.
   */
  lemma FiniteExactly(lib: Library, name: string)
    requires Accepted(lib) && name in lib.pipelines
    ensures (exists g :: UnfoldsTo(lib, name, g)) <==> !Endless(lib, name)
  {
    if Endless(lib, name) {
      forall g ensures !UnfoldsTo(lib, name, g) {
        EndlessHasNoGraph(lib, name, g);
      }
    } else {
      var g := FiniteHasGraph(lib, name);
    }
  }

  /** A pipeline whose only stage runs the pipeline itself. */
  const SELF_NESTED: Library :=
    Library(map[], map["a" := [PipelineDefinition("x", "", "a", [], "", false, map[])]])

  lemma SelfNestingIsAccepted()
    ensures Accepted(SELF_NESTED) && Endless(SELF_NESTED, "a")
  {
    var defs := SELF_NESTED.pipelines["a"];
    var rank := map["x" := 0 as nat];
    forall a, b | Edge(DependencyGraph(defs), a, b) ensures a == ROOT && b == "x" {
      DependencyGraphEdges(defs, a, b);
    }
    RankedIsAcyclic(DependencyGraph(defs), rank);
    InReferencesOf(defs, "a");
    assert RunsAt(defs, 0, "a");
    EdgeFollows(References(SELF_NESTED), "a", "a");
    ReachesRefl(References(SELF_NESTED), "a");
  }
}
