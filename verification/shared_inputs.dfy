/**
  Configured pipelines that share a pass-through pipeline: one whose tasks see each other's
  variables, and one in which the order of flattening keeps them apart.
 */
module SharedInputs {
  import opened Digraph
  import opened Stages
  import opened WellBuiltGraphs
  import opened Paths
  import opened Unfolding
  import opened SharedPipelines
  import opened CallTrees
  import opened FlattenRuns
  import opened Lookups
  import opened PipelineConfig
  import opened PipelineLibraries
  import opened RebuiltPipelines
  import opened DenormalTheorems

  function RunTask(name: string): PipelineDefinition {
    PipelineDefinition(name, name, "", [], "", false, map[])
  }

  function RunPipeline(name: string, pipeline: string, dependsOn: seq<string>, env: Env): PipelineDefinition {
    PipelineDefinition(name, "", pipeline, dependsOn, "", false, env)
  }

  /** Some stages that run w, whose one stage runs a pipeline of one task. */
  function Sharers(defs: seq<PipelineDefinition>): Library {
    Library(map["t" := Task("t", map[])],
            map["inner" := [RunTask("t")], "w" := [RunPipeline("s", "inner", [], map[])], "top" := defs])
  }

  const SIDE_BY_SIDE: seq<PipelineDefinition> :=
    [RunPipeline("a", "w", [], map["A" := "1"]), RunPipeline("b", "w", [], map["B" := "2"])]

  const ONE_AFTER_THE_OTHER: seq<PipelineDefinition> :=
    [RunPipeline("b", "w", [], map[]), RunPipeline("a", "w", ["b"], map["A" := "1"])]

  lemma SingleIsAcceptable(def: PipelineDefinition, cfg: Config)
    requires Resolves(def, cfg) && StageName(def) !in {"", ROOT, ARROW} && def.dependsOn == []
    ensures Acceptable([def], cfg)
  {
    RankIsEnough([def], map[StageName(def) := 0]);
  }

  /** Ranks that fall along all dependencies rule out cycles. */
  lemma RankIsEnough(defs: seq<PipelineDefinition>, rank: map<Name, nat>)
    requires forall i, d | 0 <= i < |defs| && d in DepsOf(defs[i]) ::
               var n := StageName(defs[i]); n in rank && (d in rank ==> rank[n] < rank[d])
    ensures Acyclic(DependencyGraph(defs))
  {
    forall a, b | Edge(DependencyGraph(defs), a, b) ensures b in rank && (a in rank ==> rank[b] < rank[a]) {
      DependencyGraphEdges(defs, a, b);
      var i :| 0 <= i < |defs| && MakesEdge(defs[i], a, b);
      MadeEdge(defs[i], a, b);
      hide MakesEdge, NamedBy, StageName, DepsOf, Edge, DependencyGraph;
    }
    RankedIsAcyclic(DependencyGraph(defs), rank);
  }

  lemma SharersAccept(defs: seq<PipelineDefinition>)
    requires Acceptable(defs, Registered(Sharers(defs)))
    ensures Accepted(Sharers(defs))
  {
    var lib := Sharers(defs);
    SingleIsAcceptable(RunTask("t"), Registered(lib));
    SingleIsAcceptable(RunPipeline("s", "inner", [], map[]), Registered(lib));
    hide Acceptable;
    forall p | p in lib.pipelines ensures Acceptable(lib.pipelines[p], Registered(lib)) {
      assert p in {"inner", "w", "top"};
    }
  }

  lemma SideBySideIsAccepted()
    ensures Accepted(Sharers(SIDE_BY_SIDE))
  {
    RankIsEnough(SIDE_BY_SIDE, map["a" := 0, "b" := 0]);
    SharersAccept(SIDE_BY_SIDE);
  }

  lemma OneAfterTheOtherIsAccepted()
    ensures Accepted(Sharers(ONE_AFTER_THE_OTHER))
  {
    RankIsEnough(ONE_AFTER_THE_OTHER, map["a" := 0, "b" := 1]);
    assert StageName(ONE_AFTER_THE_OTHER[0]) == "b";
    SharersAccept(ONE_AFTER_THE_OTHER);
  }

  // ----- the graphs

  /** The stage of one definition in a finished graph, and what it runs. */
  lemma StageOf(lib: Library, name: string, g: Graph, i: nat)
    requires UnfoldsTo(lib, name, g) && i < |lib.pipelines[name]|
    ensures var def := lib.pipelines[name][i];
            && StageName(def) in g.nodes && g.nodes[StageName(def)].env == def.env
            && (RunsByName(def) ==>
                  && g.nodes[StageName(def)].body.Nested?
                  && UnfoldsTo(lib, def.pipeline, g.nodes[StageName(def)].body.graph))
            && (!RunsByName(def) ==>
                  def.task in lib.tasks && g.nodes[StageName(def)].body == Leaf(lib.tasks[def.task]))
  {
    var cfg :| BuiltWith(lib, name, g, cfg);
    var def := lib.pipelines[name][i];
    assert HoldsOne(g.nodes, g.parent, def, cfg);
    if RunsByName(def) {
      NamedStageIsThere(lib, name, g, cfg, def);
    }
  }

  /** Its stages are those that are defined. */
  lemma StagesOf(lib: Library, name: string, g: Graph, names: set<Name>)
    requires UnfoldsTo(lib, name, g)
    requires forall i | 0 <= i < |lib.pipelines[name]| :: StageName(lib.pipelines[name][i]) in names
    ensures WellBuilt(g) && g.name == name && g.env == map[]
    ensures ROOT in g.nodes && forall n | n in g.nodes :: n == ROOT || n in names
    ensures g.children == DependencyGraph(lib.pipelines[name])
  {
    var cfg :| BuiltWith(lib, name, g, cfg);
  }

  /** A graph of one task. */
  ghost predicate OneTask(g: Graph) {
    && g.nodes.Keys == {ROOT, "t"} && g.nodes["t"].body == Leaf(Task("t", map[]))
    && g.name == "inner" && g.env == map[] && WellBuilt(g)
  }

  lemma InnerIs(defs: seq<PipelineDefinition>, g: Graph)
    requires UnfoldsTo(Sharers(defs), "inner", g)
    ensures OneTask(g)
  {
    hide UnfoldsTo, WellBuilt;
    var lib := Sharers(defs);
    assert lib.pipelines["inner"] == [RunTask("t")];
    StageOf(lib, "inner", g, 0);
    StagesOf(lib, "inner", g, {"t"});
  }

  lemma SkippedIs(defs: seq<PipelineDefinition>, w: Graph)
    requires UnfoldsTo(Sharers(defs), "w", w)
    ensures PassThrough(w) && OnlyStage(w) == "s" && w.nodes["s"].env == map[] && w.name == "w"
    ensures UnfoldsTo(Sharers(defs), "inner", Inner(w))
  {
    hide UnfoldsTo, WellBuilt;
    var lib := Sharers(defs);
    assert lib.pipelines["w"] == [RunPipeline("s", "inner", [], map[])];
    StageOf(lib, "w", w, 0);
    StagesOf(lib, "w", w, {"s"});
    assert w.nodes.Keys == {ROOT, "s"};
    assert RunsPipeline(w, "s");
  }

  /** A stage that skips w, and has the task below it. */
  ghost predicate Shares(g: Graph, n: Name) {
    && Skips(g, n) && g.nodes[n].body.graph.name == "w" && SkippedStage(g, n).env == map[] && OneTask(Under(g, n))
  }

  /** Each of the stages is like that. */
  lemma SharerIs(defs: seq<PipelineDefinition>, g: Graph, i: nat)
    requires UnfoldsTo(Sharers(defs), "top", g) && i < |defs| && RunsByName(defs[i]) && defs[i].pipeline == "w"
    requires StageName(defs[i]) != ROOT
    ensures var n := StageName(defs[i]); Shares(g, n) && g.nodes[n].env == defs[i].env
  {
    hide UnfoldsTo;
    var lib, n := Sharers(defs), StageName(defs[i]);
    assert lib.pipelines["top"] == defs;
    StageOf(lib, "top", g, i);
    SkippedIs(defs, g.nodes[n].body.graph);
    InnerIs(defs, Under(g, n));
  }

  lemma OnlyTheTask(g: Graph, anc: seq<string>, v: Visit)
    requires OneTask(g) && IsStageOf(g, anc, v)
    ensures v == Visit(anc, g, "t") && !Skips(v.g, v.n)
  {
    var path :| InTree(g, path) && v == VisitAt(g, anc, path);
  }

  /** Definitions of a and b that both run w. */
  ghost predicate TwoSharers(defs: seq<PipelineDefinition>) {
    && |defs| == 2 && {StageName(defs[0]), StageName(defs[1])} == {"a", "b"}
    && forall i | 0 <= i < 2 :: RunsByName(defs[i]) && defs[i].pipeline == "w"
  }

  /** Two stages that run the same pipeline hold the same graph. */
  lemma SameGraph(lib: Library, name: string, g: Graph, d: PipelineDefinition, e: PipelineDefinition)
    requires UnfoldsTo(lib, name, g) && d in lib.pipelines[name] && e in lib.pipelines[name]
    requires RunsByName(d) && RunsByName(e) && d.pipeline == e.pipeline
    ensures StageName(d) in g.nodes && StageName(e) in g.nodes && g.nodes[StageName(d)].body.Nested?
    ensures g.nodes[StageName(e)].body.Nested? && g.nodes[StageName(d)].body == g.nodes[StageName(e)].body
  {
    var cfg :| BuiltWith(lib, name, g, cfg);
    NamedStageIsThere(lib, name, g, cfg, d);
    NamedStageIsThere(lib, name, g, cfg, e);
  }

  /** Both run the same graph. */
  lemma BothShare(defs: seq<PipelineDefinition>, g: Graph)
    requires UnfoldsTo(Sharers(defs), "top", g) && TwoSharers(defs)
    ensures g.nodes.Keys == {ROOT, "a", "b"} && g.name == "top" && g.env == map[]
    ensures g.nodes["a"].body == g.nodes["b"].body && g.children == DependencyGraph(defs)
    ensures Shares(g, "a") && Shares(g, "b")
  {
    hide UnfoldsTo, WellBuilt, Skips, Shares;
    var lib := Sharers(defs);
    assert lib.pipelines["top"] == defs;
    SharerIs(defs, g, 0);
    SharerIs(defs, g, 1);
    StagesOf(lib, "top", g, {"a", "b"});
    SameGraph(lib, "top", g, defs[0], defs[1]);
  }

  /** The pipelines of the examples can be denormalized. */
  lemma CanBeDenormalized(defs: seq<PipelineDefinition>, g: Graph)
    requires UnfoldsTo(Sharers(defs), "top", g) && TwoSharers(defs)
    ensures DeepInner(g) && PlainTop(g, "top") && exists sh :: Described(g, sh)
  {
    UnfoldingIsDeep(Sharers(defs), "top", g);
    DeepWellBuiltUnfolds(g);
    BothShare(defs, g);
    hide UnfoldsTo, DeepInner, DeepWellBuilt;
    SharersAreDescribed(g);
    SharersArePlain(g);
  }

  lemma SharersAreDescribed(g: Graph)
    requires g.nodes.Keys == {ROOT, "a", "b"} && g.name == "top" && Shares(g, "a") && Shares(g, "b")
    requires g.nodes["a"].body == g.nodes["b"].body
    ensures Described(g, map["w" := SkippedStage(g, "a")])
  {
    var sh := map["w" := SkippedStage(g, "a")];
    forall n | RunsPipeline(g, n) ensures (Skips(g, n) ==> KnownUse(g, n, sh)) && Described(Under(g, n), sh) {
      assert n == "a" || n == "b";
    }
  }

  lemma SharersArePlain(g: Graph)
    requires g.nodes.Keys == {ROOT, "a", "b"} && Shares(g, "a") && Shares(g, "b")
    ensures PlainTop(g, "top")
  {
    TaskIsTidy(Under(g, "a"));
    TaskIsTidy(Under(g, "b"));
    LevelIsTidy(g);
    assert Plain("top");
    hide Shares, Tidy, TidyLevel, Skips, Under, Plain;
    forall n | RunsPipeline(g, n) ensures Tidy(Under(g, n)) {
      assert n == "a" || n == "b";
    }
    TidyAgain(g);
  }

  lemma LevelIsTidy(g: Graph)
    requires g.nodes.Keys == {ROOT, "a", "b"}
    ensures TidyLevel(g)
  {
    assert ("b" + "-")[0] == 'b' && ("a" + "-")[0] == 'a';
    hide HasStage, Under;
  }

  lemma TidyAgain(g: Graph)
    requires TidyLevel(g) && forall n | RunsPipeline(g, n) :: Tidy(Under(g, n))
    ensures Tidy(g)
  {
  }

  lemma TaskIsTidy(g: Graph)
    requires OneTask(g)
    ensures Tidy(g)
  {
    assert Plain("t") && Plain(ROOT);
    assert forall n :: !RunsPipeline(g, n);
  }

  // ----- side by side, the second sees what the first wrote

  /** What one of the two can come to see, when nothing hangs below it. */
  lemma AloneSees(g: Graph, n: Name, writes: iset<Visit>)
    requires DeepInner(g) && Shares(g, n) && ChildSet(g, n) == {}
    requires forall v | v in writes :: Skips(v.g, v.n)
    ensures var c, v := CallOf(g, n, ["top"]), Visit(["top"], g, n);
            && CallTrees.Holds(c, iset{v}) && CanSee(c, writes, iset{v}, None)
            && (v in writes ==> CanEndWith(c, writes, v))
  {
    var c, v := CallOf(g, n, ["top"]), Visit(["top"], g, n);
    forall u | u in writes || u == v ensures !IsStageOf(Under(g, n), ["top", n], u) {
      if IsStageOf(Under(g, n), ["top", n], u) {
        OnlyTheTask(Under(g, n), ["top", n], u);
      }
    }
    assert ["top"] + [n] == ["top", n];
    NotBelow(g, n, ["top"], writes);
    NotBelow(g, n, ["top"], iset{v});
    ChildCallsAre(g, n, ["top"]);
    assert c.own == [v] && c.kids.of.Keys == {};
    assert [v][..0] == [];
  }

  /** The environments and the children of a and b, as far as the definitions give them. */
  ghost predicate LaidOut(g: Graph, a: Env, b: Env, first: set<Name>, afterA: set<Name>, afterB: set<Name>) {
    && g.nodes.Keys == {ROOT, "a", "b"} && Shares(g, "a") && Shares(g, "b") && g.env == map[] && g.name == "top"
    && g.nodes["a"].env == a && g.nodes["b"].env == b
    && ChildSet(g, ROOT) == first && ChildSet(g, "a") == afterA && ChildSet(g, "b") == afterB
  }

  lemma LaidOutAs(defs: seq<PipelineDefinition>, g: Graph, i: nat)
    requires UnfoldsTo(Sharers(defs), "top", g) && TwoSharers(defs) && i < 2 && StageName(defs[i]) == "a"
    ensures g.nodes.Keys == {ROOT, "a", "b"} && g.children == DependencyGraph(defs)
    ensures LaidOut(g, defs[i].env, defs[1 - i].env, ChildSet(g, ROOT), ChildSet(g, "a"), ChildSet(g, "b"))
  {
    hide UnfoldsTo, Shares, Sharers, DependencyGraph;
    assert StageName(defs[1 - i]) == "b";
    SharerIs(defs, g, i);
    SharerIs(defs, g, 1 - i);
    BothShare(defs, g);
  }

  lemma SideBySide(g: Graph)
    requires UnfoldsTo(Sharers(SIDE_BY_SIDE), "top", g)
    ensures LaidOut(g, map["A" := "1"], map["B" := "2"], {"a", "b"}, {}, {})
  {
    hide UnfoldsTo, Shares, DependencyGraph, Sharers;
    LaidOutAs(SIDE_BY_SIDE, g, 0);
    forall x, y ensures y in ChildSet(g, x) <==> x == ROOT && y in {"a", "b"} {
      SideBySideEdges(x, y);
    }
  }

  lemma SideBySideEdges(x: Name, y: Name)
    ensures Edge(DependencyGraph(SIDE_BY_SIDE), x, y) <==> x == ROOT && y in {"a", "b"}
  {
    var defs := SIDE_BY_SIDE;
    DependencyGraphEdges(defs, x, y);
    hide DependencyGraph, Edge;
    if x == ROOT && y in {"a", "b"} {
      var i := if y == "a" then 0 else 1;
      assert StageName(defs[i]) == y && x in DepsOf(defs[i]);
    }
  }

  /** Two calls made one after the other. */
  lemma SecondAfterFirst(c: Call, writes: iset<Visit>, u: Visit, v: Visit)
    requires c.inner.of == map[] && c.kids.of.Keys == {"a", "b"} && u in writes
    requires CanEndWith(c.kids.of["a"], writes, u)
    requires CallTrees.Holds(c.kids.of["b"], iset{v}) && CanSee(c.kids.of["b"], writes, iset{v}, None)
    ensures CanSee(c, writes, iset{v}, Some(u))
  {
    assert SomeHold(c.kids, c.kids.of.Keys, iset{v});
    assert "a" in c.kids.of.Keys - {"b"};
    assert EndsIn(c.kids, c.kids.of.Keys - {"b"}, writes, u);
    assert SeesIn(c.kids, c.kids.of.Keys, "b", writes, iset{v}, Some(u));
  }

  lemma BothSides(g: Graph, base: Starts) returns (run: seq<Visit>, env: Env)
    requires DeepInner(g) && LaidOut(g, map["A" := "1"], map["B" := "2"], {"a", "b"}, {}, {})
    ensures RunOf(TopCall(g, "top"), run) && LastStart(base, run, Visit(["top"], g, "b")) == Some(env)
    ensures Value(env, "A") == Some("1")
  {
    var u, v, writes := Visit(["top"], g, "a"), Visit(["top"], g, "b"), Writes("w", "A");
    assert u in writes && v !in writes && Skips(g, "b") && g.nodes["b"].body.graph.name == "w";
    TopCallIs(g);
    hide OneTask, CallOf, TopCall, CanSee, CanEndWith, DeepInner, CallTrees.Holds, RunOf, LastStart, Under,
         SkippedStage;
    AloneSees(g, "a", writes);
    AloneSees(g, "b", writes);
    SecondAfterFirst(TopCall(g, "top"), writes, u, v);
    run, env := WriteShows(base, TopCall(g, "top"), v, "A", u);
  }

  lemma TopCallIs(g: Graph)
    requires DeepInner(g) && ROOT in g.nodes
    ensures var c := TopCall(g, "top");
            && c.own == [] && c.inner.of == map[] && c.kids.of.Keys == ChildSet(g, ROOT) <= g.nodes.Keys
            && forall n | n in ChildSet(g, ROOT) :: c.kids.of[n] == CallOf(g, n, ["top"])
  {
    ChildCallsAre(g, ROOT, ["top"]);
  }

  /**
    Configured side by side, each with a variable of its own, b can be left with the variable of
    a, which its definition does not give it.
   */
  lemma SecondSeesFirst(g: Graph, base: Starts) returns (run: seq<Visit>, env: Env)
    requires UnfoldsTo(Sharers(SIDE_BY_SIDE), "top", g)
    ensures DeepInner(g) && PlainTop(g, "top") && (exists sh :: Described(g, sh)) && InTree(g, ["b"])
    ensures RunOf(TopCall(g, "top"), run) && LastStart(base, run, VisitAt(g, ["top"], ["b"])) == Some(env)
    ensures Value(env, "A") == Some("1") && Value(CloneEnv(g, "b"), "A") == None
  {
    hide UnfoldsTo, Sharers, PlainTop, Described, DeepInner, CallOf, RunOf, CanSee, CanEndWith, LastStart;
    CanBeDenormalized(SIDE_BY_SIDE, g);
    SideBySide(g);
    run, env := BothSides(g, base);
  }

  /** So does the task below it: whatever that run is rebuilt to, the task of b sees the variable of a. */
  lemma TaskOfSecondSeesFirst(g: Graph, base: Starts, run: seq<Visit>, starts: Starts, out: Graph)
    requires UnfoldsTo(Sharers(SIDE_BY_SIDE), "top", g) && DeepInner(g) && InTree(g, ["b"])
    requires var e := LastStart(base, run, VisitAt(g, ["top"], ["b"])); e.Some? && Value(e.value, "A") == Some("1")
    requires StartedIn(base, run, g, "top", starts) && Rebuilt(starts, g, ["top"], map[], out)
    ensures var r, k := GraphAt(out, PathNames(["top"], ["b"])), CascadeName(["top", "b"], "t");
            && r.Some? && k in r.value.nodes && r.value.nodes[k].body.Leaf?
            && Value(r.value.nodes[k].body.task.env, "A") == Some("1")
  {
    hide UnfoldsTo, Sharers, Rebuilt, LastStart, DeepInner, StartedIn;
    SideBySide(g);
    TaskIs(g);
    InnermostOfB(base, run, g, starts);
    TaskPrecedence(starts, base, run, g, "top", out, ["b"], "t", "A");
  }

  lemma TaskIs(g: Graph)
    requires LaidOut(g, map["A" := "1"], map["B" := "2"], {"a", "b"}, {}, {})
    ensures PipelinePath(g, ["b"]) && PipelineAt(g, ["b"]) == Under(g, "b") && OneTask(Under(g, "b"))
    ensures ["top"] + ["b"] == ["top", "b"]
  {
    assert ["b"][1..] == [];
  }

  lemma InnermostOfB(base: Starts, run: seq<Visit>, g: Graph, starts: Starts)
    requires DeepInner(g) && InTree(g, ["b"]) && StartedIn(base, run, g, "top", starts)
    requires var e := LastStart(base, run, VisitAt(g, ["top"], ["b"])); e.Some? && Value(e.value, "A") == Some("1")
    ensures Innermost(starts, "top", ["b"], "A") == Some("1")
  {
    assert Value(StartOf(starts, Join(["top"] + ["b"])), "A") == Some("1");
  }

  // ----- one after the other, the first never sees the second

  lemma OneAfterTheOther(g: Graph)
    requires UnfoldsTo(Sharers(ONE_AFTER_THE_OTHER), "top", g)
    ensures LaidOut(g, map["A" := "1"], map[], {"b"}, {}, {"a"})
  {
    hide UnfoldsTo, Shares, DependencyGraph, Sharers;
    LaidOutAs(ONE_AFTER_THE_OTHER, g, 1);
    forall x, y ensures y in ChildSet(g, x) <==> (x == ROOT && y == "b") || (x == "b" && y == "a") {
      OneAfterTheOtherEdges(x, y);
    }
  }

  lemma OneAfterTheOtherEdges(x: Name, y: Name)
    ensures Edge(DependencyGraph(ONE_AFTER_THE_OTHER), x, y) <==> (x == ROOT && y == "b") || (x == "b" && y == "a")
  {
    var defs := ONE_AFTER_THE_OTHER;
    DependencyGraphEdges(defs, x, y);
    hide DependencyGraph, Edge;
    if (x == ROOT && y == "b") || (x == "b" && y == "a") {
      var i := if y == "b" then 0 else 1;
      assert StageName(defs[i]) == y && x in DepsOf(defs[i]);
    }
  }

  /** Only a and b run pipelines that are skipped. */
  lemma OnlyTwoSkip(g: Graph, path: seq<Name>)
    requires g.nodes.Keys == {ROOT, "a", "b"} && Shares(g, "a") && Shares(g, "b") && InTree(g, path)
    ensures var v := VisitAt(g, ["top"], path);
            Skips(v.g, v.n) ==> path in {["a"], ["b"]} && v == Visit(["top"], g, path[0])
  {
    if |path| == 1 {
      assert path == [path[0]];
    } else {
      var n, rest := path[0], path[1..];
      assert IsStageOf(Under(g, n), ["top"] + [n], VisitAt(Under(g, n), ["top"] + [n], rest));
      OnlyTheTask(Under(g, n), ["top"] + [n], VisitAt(Under(g, n), ["top"] + [n], rest));
    }
  }

  /** A call alone at the top: nothing comes before it. */
  lemma AloneAtTop(c: Call, k: Name, writes: iset<Visit>, looks: iset<Visit>, o: Option<Visit>)
    requires c.own == [] && c.inner.of == map[] && c.kids.of.Keys == {k} && CanSee(c, writes, looks, o)
    requires forall p :: CanSee(c.kids.of[k], writes, looks, p) ==> p == None
    ensures o == None
  {
    assert !SomeHold(c.inner, c.inner.of.Keys, writes) && !SomeHold(c.inner, c.inner.of.Keys, looks);
    if o.Some? {
      assert SomeSee(c.kids, c.kids.of.Keys, writes, looks, o);
      assert SeesIn(c.kids, c.kids.of.Keys, k, writes, looks, o);
      assert c.kids.of.Keys - {k} == {};
    }
  }

  /** What comes first is visited before all that could write. */
  lemma FirstSeesNothing(g: Graph, writes: iset<Visit>, o: Option<Visit>)
    requires DeepInner(g) && LaidOut(g, map["A" := "1"], map[], {"b"}, {}, {"a"})
    requires CanSee(TopCall(g, "top"), writes, iset{Visit(["top"], g, "b")}, o)
    ensures o == None
  {
    var v := Visit(["top"], g, "b");
    TopCallIs(g);
    forall p | CanSee(CallOf(g, "b", ["top"]), writes, iset{v}, p) ensures p == None {
      FirstHasOwnOnly(g, v, writes, p);
    }
    hide CallOf, CanSee, OneTask, DeepInner;
    AloneAtTop(TopCall(g, "top"), "b", writes, iset{v}, o);
  }

  lemma OwnOnly(c: Call, v: Visit, writes: iset<Visit>, o: Option<Visit>)
    requires c.own == [v] && CanSee(c, writes, iset{v}, o)
    requires !SomeHold(c.kids, c.kids.of.Keys, iset{v}) && !SomeHold(c.inner, c.inner.of.Keys, iset{v})
    ensures o == None
  {
    assert [v][..0] == [];
  }

  lemma FirstHasOwnOnly(g: Graph, v: Visit, writes: iset<Visit>, o: Option<Visit>)
    requires DeepInner(g) && LaidOut(g, map["A" := "1"], map[], {"b"}, {}, {"a"}) && v == Visit(["top"], g, "b")
    requires CanSee(CallOf(g, "b", ["top"]), writes, iset{v}, o)
    ensures o == None
  {
    NotInSecond(g, v);
    NotAfter(g, v);
    NotInside(g, "b", v);
    assert CallOf(g, "b", ["top"]).own == [v];
    hide Shares, DeepInner, CallOf, ChildSet, LaidOut, CanSee, CallTrees.Holds;
    OwnOnly(CallOf(g, "b", ["top"]), v, writes, o);
  }

  lemma NotAfter(g: Graph, v: Visit)
    requires DeepInner(g) && "b" in g.nodes && ChildSet(g, "b") == {"a"} && "a" in g.nodes
    requires !CallTrees.Holds(CallOf(g, "a", ["top"]), iset{v})
    ensures var c := CallOf(g, "b", ["top"]); !SomeHold(c.kids, c.kids.of.Keys, iset{v})
  {
    ChildCallsAre(g, "b", ["top"]);
  }

  lemma NotInside(g: Graph, n: Name, v: Visit)
    requires DeepInner(g) && Shares(g, n) && v.g == g && v.anc == ["top"]
    ensures var c := CallOf(g, n, ["top"]); !SomeHold(c.inner, c.inner.of.Keys, iset{v})
  {
    forall u | u == v ensures !IsStageOf(Under(g, n), ["top"] + [n], u) {
      if IsStageOf(Under(g, n), ["top"] + [n], u) {
        OnlyTheTask(Under(g, n), ["top"] + [n], u);
      }
    }
    NotBelow(g, n, ["top"], iset{v});
  }

  lemma NotInSecond(g: Graph, v: Visit)
    requires DeepInner(g) && Shares(g, "a") && ChildSet(g, "a") == {} && v == Visit(["top"], g, "b")
    ensures !CallTrees.Holds(CallOf(g, "a", ["top"]), iset{v})
  {
    if CallTrees.Holds(CallOf(g, "a", ["top"]), iset{v}) {
      HoldsWhere(g, "a", ["top"], v);
      var k :| k in Under(g, "a").nodes && CallTrees.Holds(CallOf(Under(g, "a"), k, ["top"] + ["a"]), iset{v});
      OnlyStages(Under(g, "a"), k, ["top"] + ["a"], v);
      OnlyTheTask(Under(g, "a"), ["top"] + ["a"], v);
    }
  }

  /**
    Configured one after the other, the clone of the first starts as defined in every run, and so
    does that of the second, though the second writes a variable that the first leaves open.
   */
  lemma FirstIsDefined(g: Graph, base: Starts)
    requires UnfoldsTo(Sharers(ONE_AFTER_THE_OTHER), "top", g) && StartOf(base, "w") == map[]
    ensures DeepInner(g) && InTree(g, ["b"]) && AllDefined(base, g, "top")
    ensures Skips(g, "b") && !UsesAgree(g, "top", Visit(["top"], g, "b"))
  {
    hide UnfoldsTo, Sharers, PlainTop, Described, DeepInner;
    CanBeDenormalized(ONE_AFTER_THE_OTHER, g);
    OneAfterTheOther(g);
    NothingShowsThere(g, base);
    StartsAreDefined(base, g, "top");
    SecondDisagrees(g);
  }

  lemma NothingShowsThere(g: Graph, base: Starts)
    requires DeepInner(g) && LaidOut(g, map["A" := "1"], map[], {"b"}, {}, {"a"}) && StartOf(base, "w") == map[]
    ensures NothingShowsAnywhere(base, g, "top")
  {
    forall path | InTree(g, path)
      ensures var v := VisitAt(g, ["top"], path); Skips(v.g, v.n) ==> NothingShows(base, TopCall(g, "top"), v)
    {
      var v := VisitAt(g, ["top"], path);
      OnlyTwoSkip(g, path);
      if Skips(v.g, v.n) {
        if path == ["a"] {
          SecondAgrees(g);
          AgreeingUsesDoNotShow(base, g, "top", v);
        } else {
          NothingShowsToFirst(g, base);
        }
      }
    }
  }

  lemma NothingShowsToFirst(g: Graph, base: Starts)
    requires DeepInner(g) && LaidOut(g, map["A" := "1"], map[], {"b"}, {}, {"a"}) && StartOf(base, "w") == map[]
    ensures NothingShows(base, TopCall(g, "top"), Visit(["top"], g, "b"))
  {
    var v := Visit(["top"], g, "b");
    forall x, o | CanSee(TopCall(g, "top"), Writes("w", x), iset{v}, o) ensures Hidden(base, v, x, o) {
      FirstSeesNothing(g, Writes("w", x), o);
    }
  }

  lemma SecondAgrees(g: Graph)
    requires LaidOut(g, map["A" := "1"], map[], {"b"}, {}, {"a"})
    ensures UsesAgree(g, "top", Visit(["top"], g, "a"))
  {
    var v := Visit(["top"], g, "a");
    forall path, x | InTree(g, path) && VisitAt(g, ["top"], path) in Writes("w", x)
      ensures UseAgrees(v, VisitAt(g, ["top"], path), x)
    {
      OnlyTwoSkip(g, path);
    }
  }

  lemma SecondDisagrees(g: Graph)
    requires LaidOut(g, map["A" := "1"], map[], {"b"}, {}, {"a"})
    ensures !UsesAgree(g, "top", Visit(["top"], g, "b"))
  {
    var v := Visit(["top"], g, "b");
    assert InTree(g, ["a"]) && VisitAt(g, ["top"], ["a"]) in Writes("w", "A");
    assert !UseAgrees(v, VisitAt(g, ["top"], ["a"]), "A");
  }
}
