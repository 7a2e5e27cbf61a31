/**
  Denormalizing a pipeline: every stage is cloned under its path into one shared table, and
  the tree of graphs is rebuilt from the table by looking path names up.
 */
module Denormalizing {
  import opened Digraph
  import opened Stages
  import opened WellBuiltGraphs
  import opened ExecutionGraphs
  import opened Paths
  import opened Unfolding
  import opened SharedPipelines
  import opened CallTrees
  import opened FlattenRuns
  import opened TableEntries
  import opened Lookups
  import opened RebuiltPipelines
  import opened TableUpdates

  /**
    What is known of the skipped stages that were rewritten: only their name, place and environment
    can have changed.
   */
  ghost predicate Known(shared: map<string, Stage>, sh: Sharing) {
    forall w | w in shared :: w in sh && shared[w].body == sh[w].body && shared[w].name != ROOT
  }

  /** The environment of a skipped stage at a time. */
  function EnvNow(shared: map<string, Stage>, sh: Sharing, w: string): Env
    requires w in sh
  {
    if w in shared then shared[w].env else sh[w].env
  }

  /** The environments of all skipped stages at a time. */
  function EnvsNow(shared: map<string, Stage>, sh: Sharing): Starts {
    map w | w in sh :: EnvNow(shared, sh, w)
  }

  /** A stage as it is now: the only stage of a pipeline that was skipped has been rewritten. */
  function Current(shared: map<string, Stage>, g: Graph, n: Name): Stage
    requires n in g.nodes
  {
    if n != ROOT && g.name in shared then shared[g.name] else g.nodes[n]
  }

  lemma CurrentIsDefined(shared: map<string, Stage>, sh: Sharing, g: Graph, n: Name)
    requires Described(g, sh) && Known(shared, sh) && n in g.nodes
    ensures Current(shared, g, n) == g.nodes[n]
  {
  }

  /** Whether a stage of a nested pipeline runs a pipeline can be told from what it is now. */
  lemma PeekIsSafe(shared: map<string, Stage>, sh: Sharing, g: Graph, n: Name, m: Name)
    requires DeepInner(g) && RunsPipeline(g, n) && Known(shared, sh) && Described(Under(g, n), sh)
    requires Skips(g, n) ==> KnownUse(g, n, sh)
    requires var w := g.nodes[n].body.graph; |w.nodes| == 2 && m in w.nodes
    ensures var w := g.nodes[n].body.graph;
            && ROOT in w.nodes && Current(shared, w, m).body == w.nodes[m].body
            && (Current(shared, w, m).name != ROOT && Current(shared, w, m).body.Nested? <==> RunsPipeline(w, m))
            && (RunsPipeline(w, m) ==> Skips(g, n) && m == OnlyStage(w))
  {
    var w := g.nodes[n].body.graph;
    assert WellBuilt(w);
    if RunsPipeline(w, m) {
      TwoNodes(w, m, OnlyStage(w));
    } else if Skips(g, n) && m != ROOT {
      TwoNodes(w, m, OnlyStage(w));
    }
  }

  /** A use rewrites the skipped stage, and leaves all others as they are. */
  ghost predicate RewrittenBy(
    before: map<string, Stage>, after: map<string, Stage>, sh: Sharing, w: string, user: Stage, clone: Stage)
  {
    && w in sh
    && after == before[w := Rewritten(if w in before then before[w] else sh[w], user, clone)]
  }

  /** What skipping to the pipeline under a stage has done. */
  ghost predicate Skipped(
    g: Graph, n: Name, before: map<string, Stage>, after: map<string, Stage>, sh: Sharing,
    clone: Stage, inner: Graph, clone': Stage)
    requires Skips(g, n)
  {
    var w := g.nodes[n].body.graph.name;
    && inner == Under(g, n) && RewrittenBy(before, after, sh, w, g.nodes[n], clone)
    && clone' == clone.(env := clone.env + (EnvNow(before, sh, w) + g.nodes[n].env))
  }

  lemma SkipIsDone(
    g: Graph, n: Name, before: map<string, Stage>, sh: Sharing, clone: Stage)
    requires Skips(g, n) && KnownUse(g, n, sh) && Known(before, sh)
    ensures var w, o := g.nodes[n].body.graph, g.nodes[n];
            var peek := Rewritten(Current(before, w, OnlyStage(w)), o, clone);
            && peek.body.Nested?
            && Skipped(g, n, before, before[w.name := peek], sh, clone, peek.body.graph,
                       clone.(env := clone.env + peek.env))
  {
  }

  lemma OtherIsRoot(shared: map<string, Stage>, g: Graph, n: Name, m: Name)
    requires DeepInner(g) && Skips(g, n) && m in g.nodes[n].body.graph.nodes && m != OnlyStage(g.nodes[n].body.graph)
    ensures !Current(shared, g.nodes[n].body.graph, m).body.Nested?
  {
    var w := g.nodes[n].body.graph;
    assert WellBuilt(w);
    if m != ROOT {
      TwoNodes(w, m, OnlyStage(w));
    }
  }

  lemma InnerOfPlain(g: Graph, n: Name)
    requires DeepInner(g) && RunsPipeline(g, n)
    ensures g.nodes[n].name != ROOT
    ensures !Skips(g, n) ==> Under(g, n) == g.nodes[n].body.graph
    ensures Skips(g, n) ==> var w := g.nodes[n].body.graph; |w.nodes| == 2 && OnlyStage(w) in w.nodes
  {
  }

  lemma SkippedIs(
    g: Graph, n: Name, before: map<string, Stage>, after: map<string, Stage>, sh: Sharing,
    clone: Stage, inner: Graph, clone': Stage)
    requires Skips(g, n) && Skipped(g, n, before, after, sh, clone, inner, clone')
    ensures inner == Under(g, n) && RewrittenBy(before, after, sh, g.nodes[n].body.graph.name, g.nodes[n], clone)
  {
  }

  lemma StillKnown(
    before: map<string, Stage>, after: map<string, Stage>, sh: Sharing, g: Graph, n: Name, clone: Stage)
    requires Known(before, sh) && Skips(g, n) && KnownUse(g, n, sh) && g.nodes[n].name != ROOT
    requires RewrittenBy(before, after, sh, g.nodes[n].body.graph.name, g.nodes[n], clone)
    ensures Known(after, sh)
  {
  }

  /**
    Flattening a pass-through pipeline after it was skipped looks its only stage up by the name
    it has then, and finds it only if the stage it was skipped for has the same name.
   */
  lemma SkippedIsNotFound(
    before: map<string, Stage>, after: map<string, Stage>, sh: Sharing, w: Graph, user: Stage, clone: Stage)
    requires WellBuilt(w) && PassThrough(w) && user.name != ROOT && RewrittenBy(before, after, sh, w.name, user, clone)
    ensures OnlyStage(w) in ChildSet(w, ROOT)
    ensures Current(after, w, OnlyStage(w)).name in w.nodes <==> user.name == OnlyStage(w)
  {
    var n := OnlyStage(w);
    RewrittenIsLost(w, user, clone);
    var d := w.nodes[n].Deps()[0];
    WellBuiltEdge(w, d, n);
    if d != ROOT {
      TwoNodes(w, d, n);
      EdgeFollows(w.children, n, n);
    }
  }

  /** The skipped stages hold what the run has left in them, and the clones start with what it gave them. */
  ghost predicate Tracked(
    sh: Sharing, base: Starts, trace: seq<Visit>, shared: map<string, Stage>, table: Table)
  {
    && (forall w | w in sh :: EnvNow(shared, sh, w) == Held(base, trace, w))
    && (forall k | k in table :: LastStartUnder(base, trace, k) == Some(table[k].env))
  }

  lemma VisitFollows(
    sh: Sharing, base: Starts, trace: seq<Visit>, was: map<string, Stage>, now: map<string, Stage>, table: Table,
    v: Visit, clone: Stage, first: Stage)
    requires Tracked(sh, base, trace, was, table) && v.n in v.g.nodes && clone.name == KeyOf(v)
    requires if Skips(v.g, v.n)
             then KnownUse(v.g, v.n, sh)
               && RewrittenBy(was, now, sh, v.g.nodes[v.n].body.graph.name, v.g.nodes[v.n], first)
               && clone.env == StartEnv(v.g, v.n, EnvNow(was, sh, v.g.nodes[v.n].body.graph.name))
             else now == was && clone.env == v.g.env + v.g.nodes[v.n].env
    ensures Tracked(sh, base, trace + [v], now, table[clone.name := clone])
  {
    forall w | w in sh ensures EnvNow(now, sh, w) == Held(base, trace + [v], w) {
      HeldOneMore(sh, base, trace, was, now, v, first, w);
    }
    assert clone.env == StartAfter(base, trace, v);
    hide StartAfter, Held;
    forall k | k in table[clone.name := clone]
      ensures LastStartUnder(base, trace + [v], k) == Some(table[clone.name := clone][k].env)
    {
      LastOneMore(base, trace, v, k);
    }
  }

  lemma HeldOneMore(
    sh: Sharing, base: Starts, trace: seq<Visit>, was: map<string, Stage>, now: map<string, Stage>, v: Visit,
    first: Stage, w: string)
    requires w in sh && EnvNow(was, sh, w) == Held(base, trace, w)
    requires if Skips(v.g, v.n)
             then RewrittenBy(was, now, sh, v.g.nodes[v.n].body.graph.name, v.g.nodes[v.n], first)
             else now == was
    ensures EnvNow(now, sh, w) == Held(base, trace + [v], w)
  {
    assert (trace + [v])[..|trace + [v]| - 1] == trace;
  }

  lemma LastOneMore(base: Starts, trace: seq<Visit>, v: Visit, k: string)
    ensures LastStartUnder(base, trace + [v], k) ==
            if KeyOf(v) == k then Some(StartAfter(base, trace, v)) else LastStartUnder(base, trace, k)
  {
    assert (trace + [v])[..|trace + [v]| - 1] == trace;
  }

  class Denormalizer {
    ghost const sharing: Sharing
    var table: Table
    /** The skipped stages that were rewritten so far, by the name of their pipeline. */
    var shared: map<string, Stage>
    /** The visits so far, and what the skipped stages held before them. */
    ghost var trace: seq<Visit>
    ghost var base: Starts

    constructor (ghost sharing: Sharing)
      ensures this.sharing == sharing && table == map[] && shared == map[]
    {
      this.sharing, table, shared, trace, base := sharing, map[], map[], [], EnvsNow(map[], sharing);
    }

    ghost predicate Consistent()
      reads this
    {
      Known(shared, sharing) && Tracked(sharing, base, trace, shared, table)
    }

    /**
      Look into a nested pipeline: when it is a pass-through, skip to the pipeline it runs.  The
      skipped stage, which all users of the pipeline share, is renamed and moved to where its user
      is, and gets the user's environment on top of its own; the clone gets both.
     */
    method GraphClone(o: Stage, clone: Stage, ghost g: Graph, ghost n: Name)
      returns (inner: Graph, clone': Stage)
      requires DeepInner(g) && RunsPipeline(g, n) && o == g.nodes[n] && Known(shared, sharing)
      requires (Skips(g, n) ==> KnownUse(g, n, sharing)) && Described(Under(g, n), sharing)
      modifies this`shared
      ensures inner == Under(g, n) && Known(shared, sharing)
      ensures if Skips(g, n) then Skipped(g, n, old(shared), shared, sharing, clone, inner, clone')
              else shared == old(shared) && clone' == clone
    {
      hide DeepInner, Known, Described, Skipped, Current, Under;
      inner, clone' := o.body.graph, clone;
      var pipeline := o.body.graph;
      InnerOfPlain(g, n);
      ghost var before := shared;
      if |pipeline.nodes| == 2 {
        var rest := pipeline.nodes.Keys;
        while rest != {}
          invariant rest <= pipeline.nodes.Keys
          invariant if Skips(g, n) && OnlyStage(pipeline) !in rest
                    then Skipped(g, n, before, shared, sharing, clone, inner, clone')
                    else inner == pipeline && clone' == clone && shared == before
        {
          var m :| m in rest;
          if Skips(g, n) && OnlyStage(pipeline) !in rest {
            OtherIsRoot(shared, g, n, m);
          } else {
            PeekIsSafe(shared, sharing, g, n, m);
          }
          var peekStage := Current(shared, pipeline, m);
          if peekStage.name != ROOT && peekStage.body.Nested? {
            SkipIsDone(g, n, shared, sharing, clone);
            peekStage := peekStage.(dependsOn := clone.dependsOn, name := o.name, env := peekStage.env + o.env);
            shared := shared[pipeline.name := peekStage];
            clone' := clone'.(env := clone'.env + peekStage.env);
            inner := peekStage.body.graph;
          }
          rest := rest - {m};
        }
      }
      if Skips(g, n) {
        SkippedIs(g, n, before, shared, sharing, clone, inner, clone');
        StillKnown(old(shared), shared, sharing, g, n, clone);
      }
    }

    /** Clone one stage under its path name. */
    method FromStage(o: Stage, g: Graph, anc: seq<string>, n: Name) returns (s: Stage)
      requires n in g.nodes && o == g.nodes[n]
      ensures s == CloneOf(g, anc, n, g.env + o.env)
    {
      var u := CascadeName(anc, n);
      var env: Env := map[];
      env := env + g.env;
      env := env + o.env;
      var body := Nothing;
      if o.body.Leaf? {
        body := Leaf(Task(CascadeName(anc, o.body.task.name), o.body.task.env + g.env));
      }
      if o.body.Nested? {
        var emptyGraph := new ExecutionGraph(u);
        body := Nested(emptyGraph.Snapshot());
      }
      var dependsOn: seq<Name> := [];
      for i := 0 to |o.dependsOn|
        invariant dependsOn == Cascaded(anc, o.dependsOn)[..i]
      {
        dependsOn := dependsOn + [CascadeName(anc, o.dependsOn[i])];
      }
      s := Stage(u, dependsOn, o.condition, o.allowFailure, env, body);
    }

    /**
      Clone the stages that can be reached from a node, and for a stage that runs a pipeline all
      stages of that pipeline below it.  Stages that are reached twice are cloned twice.
     */
    method Flatten(g: Graph, nodeName: Name, anc: seq<string>)
      requires DeepInner(g) && nodeName in g.nodes && anc != []
      requires Described(g, sharing) && Consistent()
      modifies this
      ensures Consistent() && base == old(base) && Ran(old(trace), trace, CallOf(g, nodeName, anc))
      ensures Laid(old(table), table, EntriesFrom(g, anc, {nodeName}))
      decreases g, |Descendants(g.children, nodeName)|, 2
    {
      hide Laid, EntriesFrom, EntryOf, Ran, RanSome, Consistent;
      ghost var before, start := table, trace;
      EntriesOfNode(g, anc, nodeName);
      if nodeName != ROOT {
        FlattenNode(g, nodeName, anc);
      } else {
        NothingOfRoot(table, g, anc);
        NothingRan(trace, g, anc);
      }
      ghost var mid, done := table, trace;
      FlattenChildren(g, nodeName, anc);
      RanParts(start, done, trace, CallOf(g, nodeName, anc));
      LaidTwice(before, mid, table, EntryOf(g, anc, nodeName) + EntriesUnder(g, anc, nodeName),
                EntriesFrom(g, anc, ChildSet(g, nodeName)));
    }

    /** Clone one stage, and what the pipeline it runs holds. */
    method FlattenNode(g: Graph, nodeName: Name, anc: seq<string>)
      requires DeepInner(g) && nodeName in g.nodes && nodeName != ROOT && anc != []
      requires Described(g, sharing) && Consistent()
      modifies this
      ensures Consistent() && base == old(base)
      ensures var c := CallOf(g, nodeName, anc); RanSome(old(trace) + c.own, trace, c.inner, c.inner.of.Keys)
      ensures Laid(old(table), table, EntryOf(g, anc, nodeName) + EntriesUnder(g, anc, nodeName))
      decreases g, |Descendants(g.children, nodeName)|, 1
    {
      hide Laid, EntriesFrom, EntryOf, DeepInner, Described, Known, Tracked, Ran, RanSome, Skipped;
      ghost var before := table;
      CurrentIsDefined(shared, sharing, g, nodeName);
      var o := Current(shared, g, nodeName);
      var clone := FromStage(o, g, anc, nodeName);
      ghost var was, first, v := shared, clone, Visit(anc, g, nodeName);
      if o.body.Nested? {
        UnderIsGood(g, nodeName, sharing);
        var inner;
        inner, clone := GraphClone(o, clone, g, nodeName);
        VisitIsTracked(sharing, base, trace, was, shared, table, v, clone, first, inner);
        trace := trace + [v];
        table := table[clone.name := clone];
        OwnEntryLaid(before, g, anc, nodeName, clone.env);
        ghost var mid := table;
        FlattenPipeline(inner, anc + [nodeName]);
        LaidTwice(before, mid, table, EntryOf(g, anc, nodeName), EntriesUnder(g, anc, nodeName));
      } else {
        VisitFollows(sharing, base, trace, was, shared, table, v, clone, first);
        trace := trace + [v];
        table := table[clone.name := clone];
        OwnEntryLaid(before, g, anc, nodeName, clone.env);
        RanNone(trace, CallOf(g, nodeName, anc).inner);
        assert EntryOf(g, anc, nodeName) + EntriesUnder(g, anc, nodeName) == EntryOf(g, anc, nodeName);
      }
    }

    /** Flatten every node of a nested pipeline, in any order. */
    method FlattenPipeline(g: Graph, anc: seq<string>)
      requires DeepInner(g) && anc != []
      requires Described(g, sharing) && Consistent()
      modifies this
      ensures Consistent() && base == old(base)
      ensures var cs := NodeCalls(g, anc); RanSome(old(trace), trace, cs, cs.of.Keys)
      ensures Laid(old(table), table, EntriesFrom(g, anc, g.nodes.Keys))
      decreases g, |Vertices(g.children)| + 1, 0
    {
      hide Laid, EntriesFrom, Described, DeepInner, Ran, RanSome, Consistent, NodeCalls, CallOf;
      var rest := g.nodes.Keys;
      ghost var before, start, cs := table, trace, NodeCalls(g, anc);
      NodeCallsAre(g, anc);
      EntriesOfNone(g, anc);
      LaidNothing(table);
      RanNone(trace, cs);
      assert g.nodes.Keys - rest == {};
      while rest != {}
        invariant rest <= g.nodes.Keys && Consistent() && base == old(base)
        invariant RanSome(start, trace, cs, g.nodes.Keys - rest)
        invariant Laid(before, table, EntriesFrom(g, anc, g.nodes.Keys - rest))
      {
        var sub :| sub in rest;
        ghost var mid, done := table, trace;
        DescendantsBound(g.children, sub);
        Flatten(g, sub, anc);
        RanOneMore(start, done, trace, cs, g.nodes.Keys - rest, sub);
        EntriesOfUnion(g, anc, g.nodes.Keys - rest, {sub});
        LaidTwice(before, mid, table, EntriesFrom(g, anc, g.nodes.Keys - rest), EntriesFrom(g, anc, {sub}));
        assert g.nodes.Keys - (rest - {sub}) == g.nodes.Keys - rest + {sub};
        rest := rest - {sub};
      }
      assert g.nodes.Keys - rest == g.nodes.Keys;
    }

    /** Flatten every child of a node, in any order, by the name it has now. */
    method FlattenChildren(g: Graph, nodeName: Name, anc: seq<string>)
      requires DeepInner(g) && nodeName in g.nodes && anc != []
      requires Described(g, sharing) && Consistent()
      modifies this
      ensures Consistent() && base == old(base)
      ensures var cs := ChildCalls(g, nodeName, anc); RanSome(old(trace), trace, cs, cs.of.Keys)
      ensures Laid(old(table), table, EntriesFrom(g, anc, ChildSet(g, nodeName)))
      decreases g, |Descendants(g.children, nodeName)|, 0
    {
      hide Laid, EntriesFrom, Described, Known, Tracked, DeepInner, WellBuilt, Ran, RanSome, ChildCalls, CallOf;
      var all := set c | c in Succ(g.children, nodeName);
      var rest := all;
      ghost var before, start, cs := table, trace, ChildCalls(g, nodeName, anc);
      ChildCallsAre(g, nodeName, anc);
      EntriesOfNone(g, anc);
      LaidNothing(table);
      RanNone(trace, cs);
      assert all - rest == {};
      while rest != {}
        invariant rest <= all && Consistent() && base == old(base)
        invariant RanSome(start, trace, cs, all - rest)
        invariant Laid(before, table, EntriesFrom(g, anc, all - rest))
      {
        var child :| child in rest;
        ghost var mid, done := table, trace;
        ChildOfInner(g, nodeName, child);
        CurrentIsDefined(shared, sharing, g, child);
        Flatten(g, Current(shared, g, child).name, anc);
        RanOneMore(start, done, trace, cs, all - rest, child);
        EntriesOfUnion(g, anc, all - rest, {child});
        LaidTwice(before, mid, table, EntriesFrom(g, anc, all - rest), EntriesFrom(g, anc, {child}));
        assert all - (rest - {child}) == all - rest + {child};
        rest := rest - {child};
      }
      assert all - rest == all;
    }

    /**
      Clone two stages that run the same pipeline, one after the other: the second starts with
      what the first sets and it does not.
     */
    method CloneTwice(g: Graph, m: Name, n: Name, anc: seq<string>) returns (first: Stage, second: Stage)
      requires DeepInner(g) && Described(g, sharing) && Known(shared, sharing) && Skips(g, m) && Skips(g, n)
      requires g.nodes[m].body.graph.name == g.nodes[n].body.graph.name
      modifies this`shared
      ensures Known(shared, sharing) && first.name == CascadeName(anc, m) && second.name == CascadeName(anc, n)
      ensures forall x | x in g.nodes[m].env && x !in g.nodes[n].env ::
                x in second.env && second.env[x] == g.nodes[m].env[x]
    {
      UnderIsGood(g, m, sharing);
      UnderIsGood(g, n, sharing);
      hide DeepInner, Known, Described;
      var inner;
      first := FromStage(g.nodes[m], g, anc, m);
      inner, first := GraphClone(g.nodes[m], first, g, m);
      second := FromStage(g.nodes[n], g, anc, n);
      inner, second := GraphClone(g.nodes[n], second, g, n);
    }

    /** The stages whose names begin with a prefix and have a given number of parts more, in any order. */
    method NthLevelChildren(prefix: string, depth: nat) returns (stages: seq<Stage>, ghost keys: seq<string>)
      ensures |stages| == |keys|
      ensures forall i | 0 <= i < |keys| :: keys[i] in table && stages[i] == table[keys[i]]
      ensures forall i, j | 0 <= i < j < |keys| :: keys[i] != keys[j]
      ensures forall k :: k in keys <==> k in table && AtDepth(prefix, depth, k)
      ensures forall s :: s in stages <==> exists k :: Selected(table, prefix, depth, k, s)
    {
      var prefixParts := Split(prefix);
      stages, keys := [], [];
      var rest := table.Keys;
      while rest != {}
        invariant rest <= table.Keys
        invariant |stages| == |keys|
        invariant forall i | 0 <= i < |keys| :: keys[i] in table && stages[i] == table[keys[i]]
        invariant forall i, j | 0 <= i < j < |keys| :: keys[i] != keys[j]
        invariant forall k :: k in keys <==> k in table && k !in rest && AtDepth(prefix, depth, k)
      {
        var key :| key in rest;
        if prefix <= key && key != prefix {
          var keyParts := Split(key);
          PartsOfPrefix(prefix, key);
          if |keyParts[|prefixParts|..]| == depth {
            stages := stages + [table[key]];
            keys := keys + [key];
          }
        }
        rest := rest - {key};
      }
      forall s ensures s in stages <==> exists k :: Selected(table, prefix, depth, k, s) {
        if s in stages {
          var i :| 0 <= i < |stages| && stages[i] == s;
          assert keys[i] in keys;
          assert Selected(table, prefix, depth, keys[i], s);
        }
        if k :| Selected(table, prefix, depth, k, s) {
          var i :| 0 <= i < |keys| && keys[i] == k;
          assert stages[i] == s;
        }
      }
    }

    /** The stages a name lies in, outermost first: collected from the inside and then reversed. */
    method RecurseParents(prefix: string) returns (stages: seq<Stage>)
      ensures stages == Enclosing(table, Split(prefix), |Split(prefix)| - 1)
    {
      var prefixParts := Split(prefix);
      var n := |prefixParts|;
      var found: seq<Stage> := [];
      var i := 1;
      while i < n
        invariant 1 <= i <= n
        invariant Enclosing(table, prefixParts, n - 1) == Enclosing(table, prefixParts, n - i) + Reversed(found)
      {
        var parentKey := Join(prefixParts[0..n - i]);
        assert prefixParts[0..n - i] == prefixParts[..n - i];
        if parentKey in table {
          ReversedSnoc(found, table[parentKey]);
          found := found + [table[parentKey]];
        }
        i := i + 1;
      }
      stages := Reversed(found);
    }

    /** Merge the environments of the stages around a stage over its own. */
    method MergeParents(stage: Stage) returns (s: Stage)
      ensures s == stage.(env := stage.env + Surroundings(table, stage.name))
    {
      hide Enclosing, Split, Merged;
      var parentStages := RecurseParents(stage.name);
      var env := stage.env;
      MergedNone();
      for i := 0 to |parentStages|
        invariant env == stage.env + Merged(parentStages[..i])
      {
        MergedSnoc(parentStages[..i], [parentStages[i]]);
        assert parentStages[..i + 1] == parentStages[..i] + [parentStages[i]];
        MergeAssociates(stage.env, Merged(parentStages[..i]), parentStages[i].env);
        env := env + parentStages[i].env;
      }
      assert parentStages[..|parentStages|] == parentStages;
      s := stage.(env := env);
    }

    /** Merge what a task defines itself over what its stage was given. */
    method MergeTask(stage: Stage) returns (s: Stage)
      ensures s == match stage.body
                   case Leaf(t) => stage.(body := Leaf(Task(stage.name, stage.env + t.env)), env := stage.env + t.env)
                   case _ => stage
    {
      s := stage;
      if s.body.Leaf? {
        if s.body.task.name != s.name {
          s := s.(body := Leaf(s.body.task.(name := s.name)));
        }
        s := s.(body := Leaf(s.body.task.(env := s.env + s.body.task.env)));
        assert stage.env + (stage.env + stage.body.task.env) == stage.env + stage.body.task.env;
        s := s.(env := s.env + s.body.task.env);
      }
    }

    /** Rebuild the pipeline that a stage runs into a new graph. */
    method RebuildNested(stage: Stage, ghost at: Place, ghost n: Name) returns (r: Outcome, s: Stage)
      requires HasStageAt(at, n) && RunsPipeline(Source(at), n) && Ready(table, Down(at, n))
      requires stage == ChildClone(at, n)
      modifies this`table
      ensures r.Pass? && Changed(old(table), table, Down(at, n), false)
      ensures s.body.Nested? && s == stage.(body := s.body)
      ensures var src := Source(at);
              Rebuilt(at.starts, Under(src, n), Names(at) + [n], Around(at) + stage.env, s.body.graph)
      decreases Source(at), 0
    {
      hide Sound, Source, Around, Names, Down, Ready, Changed, Rebuilt, StartOf, Join, CascadeName, Cascaded;
      s := stage;
      Deeper(at, n);
      JoinSnoc(Names(at), n);
      var ng := new ExecutionGraph(s.name);
      r := Rebuild(ng, Down(at, n));
      if r.Fail? {
        return;
      }
      s := s.(body := Nested(ng.Snapshot()));
    }

    /** Turn one clone into a stage of the result, after rebuilding the pipeline it runs. */
    method RebuildStage(stage: Stage, ghost at: Place, ghost n: Name) returns (r: Outcome, s: Stage)
      requires HasStageAt(at, n) && Ready(table, Down(at, n)) && stage == ChildClone(at, n)
      modifies this`table
      ensures r.Pass? && Changed(old(table), table, Down(at, n), true)
      ensures RebuiltStage(at.starts, Source(at), Names(at), n, Around(at), s)
      decreases Source(at), 1
    {
      hide Sound, Source, Around, Names, Down, Ready, Changed, RebuiltStage, Rebuilt, Surroundings, StartOf,
           CascadeName, Cascaded;
      s := stage;
      ghost var before := table;
      if s.body.Nested? {
        r, s := RebuildNested(s, at, n);
        if r.Fail? {
          return;
        }
      }
      ghost var built, mid := s, table;
      SurroundingsAre(before, mid, at, n);
      s := MergeParents(s);
      s := MergeTask(s);
      MergedIsRebuilt(at.starts, Source(at), Names(at), n, Around(at), stage, built, s);
      table := table[s.name := s];
      StageWritten(before, mid, at, n, s);
      r := Pass;
    }

    /** Turn a clone into a stage and add it to the graph; the addition is never refused. */
    method AddRebuilt(g: ExecutionGraph, clone: Stage, ghost at: Place, ghost n: Name, ghost done: set<Name>)
      returns (r: Outcome)
      requires HasStageAt(at, n) && Ready(table, Down(at, n)) && clone == ChildClone(at, n)
      requires n !in done && PartAt(g.Snapshot(), at, done)
      modifies this`table, g
      ensures r.Pass? && Changed(old(table), table, Down(at, n), true)
      ensures PartAt(g.Snapshot(), at, done + {n})
      decreases Source(at), 2
    {
      hide Sound, Source, Around, Names, Down, Ready, Changed, RebuiltStage, PartlyRebuilt, WellBuilt, PlainNames,
           ChildClone, AddedBelow, HungUnder, Hang, ListUnder, Inverse, Acyclic;
      ghost var out := g.Snapshot();
      var stage;
      r, stage := RebuildStage(clone, at, n);
      if r.Fail? {
        return;
      }
      SourceIsGood(at);
      PartIsValid(at.starts, Source(at), Names(at), Around(at), out, done);
      NextIsAcyclic(at.starts, Source(at), Names(at), Around(at), out, done, n, stage);
      r := g.AddStage(stage);
      HungAll(out.children, out.parent, g.children, g.parent, stage.Deps(), stage.name);
      PlainName(Source(at), n);
      NextIsIn(at.starts, Source(at), Names(at), Around(at), out, done, n, stage, g.Snapshot());
    }

    /** Add the stages one level below the graph's name to it, in whatever order the table yields them. */
    method Rebuild(g: ExecutionGraph, ghost at: Place) returns (r: Outcome)
      requires Sound(at) && Ready(table, at)
      requires g.Snapshot() == EmptyGraph(Join(Names(at)))
      modifies this`table, g
      ensures r.Pass? && Changed(old(table), table, at, false)
      ensures Rebuilt(at.starts, Source(at), Names(at), Around(at), g.Snapshot())
      decreases Source(at), 3
    {
      hide Sound, Source, Around, Names, Down, Ready, Changed, PartAt, Rebuilt, HasStageAt, AtDepth, ChildClone, Join;
      ghost var before, done: set<Name> := table, {};
      var stages, keys := NthLevelChildren(g.name, 1);
      ghost var names := LookupFindsChildren(table, at, stages, keys);
      NothingAt(g.Snapshot(), at);
      NothingChanged(table, at);
      for i := 0 to |stages|
        invariant forall n :: n in done <==> n in names[..i]
        invariant PartAt(g.Snapshot(), at, done)
        invariant Changed(before, table, at, false)
        invariant forall j | i <= j < |names| :: Ready(table, Down(at, names[j]))
      {
        ghost var mid, n := table, names[i];
        r := AddRebuilt(g, stages[i], at, n, done);
        if r.Fail? {
          return;
        }
        ChangedOnce(before, mid, table, at, n);
        forall j | i < j < |names| ensures Ready(table, Down(at, names[j])) {
          StillReady(mid, table, at, n, names[j]);
        }
        done := done + {n};
      }
      AllAt(g.Snapshot(), at, done);
      r := Pass;
    }

    /**
      Flatten a pipeline into a new table and rebuild it from there.  The clones start with what
      some run of flattening leaves for them, after whatever the skipped stages held before.
     */
    method Denormalize(top: Graph) returns (out: Option<Graph>, ghost starts: Starts, ghost run: seq<Visit>)
      requires DeepInner(top) && PlainTop(top, top.name) && Described(top, sharing) && Known(shared, sharing)
      modifies this
      ensures Known(shared, sharing)
      ensures out.Some? && Rebuilt(starts, top, [top.name], map[], out.value)
      ensures StartedIn(EnvsNow(old(shared), sharing), run, top, top.name, starts)
    {
      hide Known;
      var dg := new ExecutionGraph(top.name);
      table, trace, base := map[], [], EnvsNow(shared, sharing);
      NothingTracked(sharing, shared);
      Flatten(top, ROOT, [top.name]);
      run := trace;
      TableIsKeyed(table, top, top.name);
      TableIsFresh(table, top, top.name);
      starts := StartsOf(table);
      StartsOfRun(sharing, base, run, shared, table, top, top.name);
      ghost var at := Place(top, top.name, starts, []);
      assert [top.name] + [] == [top.name] == Names(at);
      var r := Rebuild(dg, at);
      if r.Fail? {
        return None, starts, run;
      }
      return Some(dg.Snapshot()), starts, run;
    }
  }

  lemma NothingTracked(sh: Sharing, shared: map<string, Stage>)
    ensures Tracked(sh, EnvsNow(shared, sh), [], shared, map[])
  {
  }

  /** With plain names the clone under the key of a path is the last of its stage. */
  lemma StartsOfRun(
    sh: Sharing, base: Starts, run: seq<Visit>, shared: map<string, Stage>, t: Table, top: Graph, name: string)
    requires DeepInner(top) && PlainTop(top, name) && Keyed(t, top, name)
    requires Tracked(sh, base, run, shared, t) && Ran([], run, TopCall(top, name))
    ensures StartedIn(base, run, top, name, StartsOf(t))
  {
    var r :| RunOf(TopCall(top, name), r) && run == [] + r;
    assert run == r;
    forall path | InTree(top, path)
      ensures LastStart(base, run, VisitAt(top, [name], path)) == Some(StartOf(StartsOf(t), Join([name] + path)))
    {
      var v, k := VisitAt(top, [name], path), Join([name] + path);
      forall u | u in run ensures KeyOf(u) == k <==> u == v {
        OneVisitPerKey(top, name, run, u, path);
      }
      LastUnderKey(base, run, k, v);
      assert k in t;
    }
  }

  lemma {:induction false} LastUnderKey(base: Starts, run: seq<Visit>, k: string, v: Visit)
    requires forall u | u in run :: KeyOf(u) == k <==> u == v
    ensures LastStartUnder(base, run, k) == LastStart(base, run, v)
  {
    if run != [] {
      LastUnderKey(base, run[..|run| - 1], k, v);
    }
  }

  lemma OneVisitPerKey(top: Graph, name: string, run: seq<Visit>, u: Visit, path: seq<Name>)
    requires DeepInner(top) && PlainTop(top, name) && RunOf(TopCall(top, name), run) && u in run && InTree(top, path)
    ensures KeyOf(u) == Join([name] + path) <==> u == VisitAt(top, [name], path)
  {
    assert ROOT in top.nodes;
    hide PlainTop, DeepInner, Join, InTree, VisitAt;
    OwnWrite(run, iset{u});
    WriteOfRun(TopCall(top, name), iset{u}, run);
    OnlyStages(top, ROOT, [name], u);
    var q :| InTree(top, q) && u == VisitAt(top, [name], q);
    KeyOfVisit(top, [name], q);
    KeyOfVisit(top, [name], path);
    if KeyOf(u) == Join([name] + path) {
      SamePath(top, name, q, path);
    }
  }

  lemma {:induction false} KeyOfVisit(g: Graph, anc: seq<string>, path: seq<Name>)
    requires InTree(g, path) && anc != []
    ensures KeyOf(VisitAt(g, anc, path)) == Join(anc + path)
    decreases |path|
  {
    if |path| == 1 {
      assert path == [path[0]];
      JoinSnoc(anc, path[0]);
    } else {
      KeyOfVisit(Under(g, path[0]), anc + [path[0]], path[1..]);
      assert anc + [path[0]] + path[1..] == anc + path;
    }
  }

  lemma UnderIsGood(g: Graph, n: Name, sh: Sharing)
    requires DeepInner(g) && RunsPipeline(g, n) && Described(g, sh)
    ensures DeepInner(Under(g, n)) && Described(Under(g, n), sh) && (Skips(g, n) ==> KnownUse(g, n, sh))
    ensures g.nodes[n].name != ROOT
    ensures g decreases to Under(g, n)
  {
  }

  /** The same for a stage that runs a pipeline, which may have been skipped. */
  lemma VisitIsTracked(
    sh: Sharing, base: Starts, trace: seq<Visit>, was: map<string, Stage>, now: map<string, Stage>, table: Table,
    v: Visit, clone: Stage, first: Stage, inner: Graph)
    requires Tracked(sh, base, trace, was, table) && v.n in v.g.nodes && first.name == KeyOf(v)
    requires first.env == v.g.env + v.g.nodes[v.n].env && (Skips(v.g, v.n) ==> KnownUse(v.g, v.n, sh))
    requires if Skips(v.g, v.n) then Skipped(v.g, v.n, was, now, sh, first, inner, clone)
             else now == was && clone == first
    ensures Tracked(sh, base, trace + [v], now, table[clone.name := clone]) && clone == first.(env := clone.env)
  {
    hide Tracked, KnownUse, Held;
    VisitFollows(sh, base, trace, was, now, table, v, clone, first);
  }

  lemma OwnEntryLaid(t: Table, g: Graph, anc: seq<string>, n: Name, env: Env)
    requires n in g.nodes && n != ROOT
    ensures var clone := CloneOf(g, anc, n, env); Laid(t, t[clone.name := clone], EntryOf(g, anc, n))
  {
    var clone := CloneOf(g, anc, n, env);
    assert IsOwnEntry(g, anc, n, (clone.name, clone));
    LaidOne(t, clone.name, clone, EntryOf(g, anc, n));
  }

  lemma NothingOfRoot(t: Table, g: Graph, anc: seq<string>)
    requires ROOT in g.nodes
    ensures Laid(t, t, EntryOf(g, anc, ROOT) + EntriesUnder(g, anc, ROOT))
  {
    assert EntryOf(g, anc, ROOT) + EntriesUnder(g, anc, ROOT) == iset{};
    LaidNothing(t);
  }

  lemma NothingRan(trace: seq<Visit>, g: Graph, anc: seq<string>)
    requires DeepInner(g) && ROOT in g.nodes
    ensures var c := CallOf(g, ROOT, anc); RanSome(trace + c.own, trace, c.inner, c.inner.of.Keys)
  {
    assert trace + [] == trace;
    RanNone(trace, CallOf(g, ROOT, anc).inner);
  }

  lemma ChildOfInner(g: Graph, n: Name, child: Name)
    requires DeepInner(g) && child in Succ(g.children, n)
    ensures child in g.nodes && child != ROOT && g.nodes[child].name == child
    ensures |Descendants(g.children, child)| < |Descendants(g.children, n)|
  {
    ChildIsSmaller(g, n, child);
  }
}
