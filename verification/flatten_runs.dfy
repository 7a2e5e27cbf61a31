/**
  The runs of flattening a pipeline, as runs of a tree of calls, and what the clones start
  with in them.  Skipped stages are shared, so a clone starts with what the uses before it left.
 */
module FlattenRuns {
  import opened Digraph
  import opened Stages
  import opened WellBuiltGraphs
  import opened Paths
  import opened Unfolding
  import opened CallTrees

  lemma ChildIsSmaller(g: Graph, n: Name, child: Name)
    requires WellBuilt(g) && child in Succ(g.children, n)
    ensures child in g.nodes && child != ROOT && g.nodes[child].name == child
    ensures |Descendants(g.children, child)| < |Descendants(g.children, n)|
  {
    WellBuiltEdge(g, n, child);
    DescendantsShrink(g.children, n, child);
  }

  function ChildSet(g: Graph, n: Name): set<Name> {
    set c | c in Succ(g.children, n)
  }

  /** The calls for all nodes of a pipeline. */
  ghost function NodeCalls(g: Graph, anc: seq<string>): Calls
    requires DeepInner(g)
    decreases g, |Vertices(g.children)| + 1, 0
  {
    Calls(map n | n in g.nodes :: DescendantsBound(g.children, n); CallOf(g, n, anc))
  }

  /** The calls for the children of a node. */
  ghost function ChildCalls(g: Graph, n: Name, anc: seq<string>): Calls
    requires DeepInner(g) && n in g.nodes
    decreases g, |Descendants(g.children, n)|, 0
  {
    Calls(map c | c in ChildSet(g, n) :: ChildIsSmaller(g, n, c); CallOf(g, c, anc))
  }

  /** Flattening from a node: clone it, flatten the pipeline it runs node by node, then its children. */
  ghost function CallOf(g: Graph, n: Name, anc: seq<string>): Call
    requires DeepInner(g) && n in g.nodes
    decreases g, |Descendants(g.children, n)|, 1
  {
    Call(if n == ROOT then [] else [Visit(anc, g, n)],
         if RunsPipeline(g, n) then NodeCalls(Under(g, n), anc + [n]) else Calls(map[]),
         ChildCalls(g, n, anc))
  }

  lemma NodeCallsAre(g: Graph, anc: seq<string>)
    requires DeepInner(g)
    ensures NodeCalls(g, anc).of.Keys == g.nodes.Keys
    ensures forall n | n in g.nodes :: NodeCalls(g, anc).of[n] == CallOf(g, n, anc)
  {
  }

  lemma ChildCallsAre(g: Graph, n: Name, anc: seq<string>)
    requires DeepInner(g) && n in g.nodes
    ensures ChildCalls(g, n, anc).of.Keys == ChildSet(g, n) <= g.nodes.Keys
    ensures forall c | c in ChildSet(g, n) :: ChildCalls(g, n, anc).of[c] == CallOf(g, c, anc)
  {
    forall c | c in ChildSet(g, n) ensures c in g.nodes { ChildIsSmaller(g, n, c); }
  }

  // ----- what clones start with in a run

  /** The visit clones a stage that skips the given pipeline. */
  ghost predicate Uses(v: Visit, w: string) {
    Skips(v.g, v.n) && v.g.nodes[v.n].body.graph.name == w
  }

  /** The environment of a skipped stage after a run: every use has merged that of its stage. */
  ghost function Held(base: Starts, run: seq<Visit>, w: string): Env {
    if run == [] then StartOf(base, w)
    else
      var last, before := run[|run| - 1], Held(base, run[..|run| - 1], w);
      if Uses(last, w) then before + last.g.nodes[last.n].env else before
  }

  /** The environment a clone starts with after the visits before it. */
  ghost function StartAfter(base: Starts, before: seq<Visit>, v: Visit): Env {
    if Skips(v.g, v.n) then StartEnv(v.g, v.n, Held(base, before, v.g.nodes[v.n].body.graph.name))
    else if v.n in v.g.nodes then v.g.env + v.g.nodes[v.n].env
    else map[]
  }

  /** What the last clone of a stage starts with in a run; that clone is the one that stays. */
  ghost function LastStart(base: Starts, run: seq<Visit>, v: Visit): Option<Env> {
    if run == [] then None
    else if run[|run| - 1] == v then Some(StartAfter(base, run[..|run| - 1], v))
    else LastStart(base, run[..|run| - 1], v)
  }

  /** The visits that write a key into a skipped stage. */
  ghost function Writes(w: string, x: string): iset<Visit> {
    iset v: Visit | Uses(v, w) && x in v.g.nodes[v.n].env
  }

  function Value(env: Env, x: string): Option<string> {
    if x in env then Some(env[x]) else None
  }

  function OrElse(a: Option<string>, b: Option<string>): Option<string> {
    if a.Some? then a else b
  }

  lemma SameValues(a: Env, b: Env)
    requires forall x :: Value(a, x) == Value(b, x)
    ensures a == b
  {
    forall x ensures x in a <==> x in b {
      assert Value(a, x) == Value(b, x);
    }
    forall x | x in a ensures a[x] == b[x] {
      assert Value(a, x) == Value(b, x);
    }
  }

  /** What a write leaves under a key; without one it is what was there first. */
  ghost function Written(base: Starts, w: string, x: string, o: Option<Visit>): Option<string> {
    match o
    case None => Value(StartOf(base, w), x)
    case Some(v) => if v.n in v.g.nodes then Value(v.g.nodes[v.n].env, x) else None
  }

  lemma {:induction false} HeldValue(base: Starts, run: seq<Visit>, w: string, x: string)
    ensures Value(Held(base, run, w), x) == Written(base, w, x, LastWrite(run, Writes(w, x)))
  {
    if run != [] {
      HeldValue(base, run[..|run| - 1], w, x);
    }
  }

  /** The last visit of a stage and all that comes before it. */
  lemma {:induction false} LastVisit(base: Starts, run: seq<Visit>, v: Visit) returns (before: seq<Visit>)
    requires LastWrite(run, iset{v}).Some?
    ensures LastStart(base, run, v) == Some(StartAfter(base, before, v))
    ensures forall writes :: SeenLast(run, writes, iset{v}) == After(LastWrite(before, writes))
  {
    before := run[..|run| - 1];
    if run[|run| - 1] != v {
      before := LastVisit(base, before, v);
    }
  }

  // ----- when a clone starts as its definition says

  ghost predicate AlwaysDefined(base: Starts, c: Call, v: Visit)
    requires v.n in v.g.nodes
  {
    forall run | RunOf(c, run) :: LastStart(base, run, v) == Some(CloneEnv(v.g, v.n))
  }

  /** What is left under a key is what the stage would pass on for it without any other use. */
  ghost predicate Hidden(base: Starts, v: Visit, x: string, o: Option<Visit>)
    requires Skips(v.g, v.n)
  {
    var w := v.g.nodes[v.n].body.graph.name;
    OrElse(Written(base, w, x, o), Value(v.g.env, x)) == Value(v.g.env + SkippedStage(v.g, v.n).env, x)
  }

  /**
    Every use that can be the last to write a key before the last clone of a stage leaves what
    the stage would have anyway, for all keys that the stage does not set itself.
   */
  ghost predicate NothingShows(base: Starts, c: Call, v: Visit)
    requires Skips(v.g, v.n)
  {
    forall x, o | x !in v.g.nodes[v.n].env && CanSee(c, Writes(v.g.nodes[v.n].body.graph.name, x), iset{v}, o) ::
      Hidden(base, v, x, o)
  }

  lemma StartValue(base: Starts, before: seq<Visit>, v: Visit, x: string)
    requires Skips(v.g, v.n)
    ensures var own, w := v.g.nodes[v.n].env, v.g.nodes[v.n].body.graph.name;
            Value(StartAfter(base, before, v), x) == Value(CloneEnv(v.g, v.n), x) <==>
            x in own || Hidden(base, v, x, LastWrite(before, Writes(w, x)))
  {
    HeldValue(base, before, v.g.nodes[v.n].body.graph.name, x);
    hide LastWrite, Writes, Written, Held, SkippedStage;
  }

  /**
    The clone of a stage that skips a pipeline starts as its definition says in every run,
    exactly when no use shows that can be the last to write before it.
   */
  lemma StartIsDefined(base: Starts, c: Call, v: Visit)
    requires Skips(v.g, v.n) && Holds(c, iset{v})
    ensures AlwaysDefined(base, c, v) <==> NothingShows(base, c, v)
  {
    if NothingShows(base, c, v) {
      forall run | RunOf(c, run) ensures LastStart(base, run, v) == Some(CloneEnv(v.g, v.n)) {
        DefinedInRun(base, c, v, run);
      }
    }
    if !NothingShows(base, c, v) {
      var run := ShowingRun(base, c, v);
    }
  }

  lemma DefinedInRun(base: Starts, c: Call, v: Visit, run: seq<Visit>)
    requires Skips(v.g, v.n) && Holds(c, iset{v}) && NothingShows(base, c, v) && RunOf(c, run)
    ensures LastStart(base, run, v) == Some(CloneEnv(v.g, v.n))
  {
    WriteOfRun(c, iset{v}, run);
    var before := LastVisit(base, run, v);
    var w := v.g.nodes[v.n].body.graph.name;
    forall x ensures Value(StartAfter(base, before, v), x) == Value(CloneEnv(v.g, v.n), x) {
      StartValue(base, before, v, x);
      if x !in v.g.nodes[v.n].env {
        SeenInRun(c, Writes(w, x), iset{v}, run);
        assert Hidden(base, v, x, LastWrite(before, Writes(w, x)));
      }
    }
    SameValues(StartAfter(base, before, v), CloneEnv(v.g, v.n));
  }

  lemma ShowingRun(base: Starts, c: Call, v: Visit) returns (run: seq<Visit>)
    requires Skips(v.g, v.n) && Holds(c, iset{v}) && !NothingShows(base, c, v)
    ensures RunOf(c, run) && LastStart(base, run, v) != Some(CloneEnv(v.g, v.n))
  {
    var w := v.g.nodes[v.n].body.graph.name;
    var x, o :| x !in v.g.nodes[v.n].env && CanSee(c, Writes(w, x), iset{v}, o) && !Hidden(base, v, x, o);
    run := SeeingRun(c, Writes(w, x), iset{v}, o);
    WriteOfRun(c, iset{v}, run);
    var before := LastVisit(base, run, v);
    assert SeenLast(run, Writes(w, x), iset{v}) == After(LastWrite(before, Writes(w, x)));
    StartValue(base, before, v, x);
  }

  /** A write that can be seen is seen in some run. */
  lemma WriteShows(base: Starts, c: Call, v: Visit, x: string, u: Visit) returns (run: seq<Visit>, env: Env)
    requires Skips(v.g, v.n) && x !in v.g.nodes[v.n].env
    requires CanSee(c, Writes(v.g.nodes[v.n].body.graph.name, x), iset{v}, Some(u))
    ensures RunOf(c, run) && LastStart(base, run, v) == Some(env)
    ensures u.n in u.g.nodes && x in u.g.nodes[u.n].env && Value(env, x) == Some(u.g.nodes[u.n].env[x])
  {
    var w := v.g.nodes[v.n].body.graph.name;
    run := SeeingRun(c, Writes(w, x), iset{v}, Some(u));
    SeenIsVisited(run, Writes(w, x), iset{v}, u);
    SeenIfThere(run, Writes(w, x), iset{v});
    var before := LastVisit(base, run, v);
    assert SeenLast(run, Writes(w, x), iset{v}) == After(LastWrite(before, Writes(w, x)));
    env := StartAfter(base, before, v);
    HeldValue(base, before, w, x);
  }

  lemma {:induction false} PlainStart(base: Starts, run: seq<Visit>, v: Visit)
    requires v.n in v.g.nodes && !Skips(v.g, v.n) && LastWrite(run, iset{v}).Some?
    ensures LastStart(base, run, v) == Some(CloneEnv(v.g, v.n))
  {
    var before := LastVisit(base, run, v);
  }

  // ----- the stages of a tree

  /** The visit of the stage at the end of a path. */
  ghost function VisitAt(g: Graph, anc: seq<string>, path: seq<Name>): (v: Visit)
    requires InTree(g, path)
    ensures v.n in v.g.nodes
    decreases |path|
  {
    if |path| == 1 then Visit(anc, g, path[0]) else VisitAt(Under(g, path[0]), anc + [path[0]], path[1..])
  }

  lemma {:induction false} VisitAtSnoc(g: Graph, anc: seq<string>, p: seq<Name>, n: Name)
    requires InTree(g, p + [n])
    ensures PipelinePath(g, p) && VisitAt(g, anc, p + [n]) == Visit(anc + p, PipelineAt(g, p), n)
    decreases |p|
  {
    if p == [] {
      assert p + [n] == [n] && anc + p == anc;
    } else {
      assert (p + [n])[1..] == p[1..] + [n];
      VisitAtSnoc(Under(g, p[0]), anc + [p[0]], p[1..], n);
      assert anc + [p[0]] + p[1..] == anc + p;
    }
  }

  /** Flattening from a node visits what can be reached from it and all that lies below. */
  lemma {:induction false} VisitIsThere(g: Graph, n: Name, anc: seq<string>, path: seq<Name>)
    requires DeepInner(g) && n in g.nodes && InTree(g, path) && Reaches(g.children, n, path[0])
    ensures Holds(CallOf(g, n, anc), iset{VisitAt(g, anc, path)})
    decreases |path|, |Descendants(g.children, n)|
  {
    var v, c := VisitAt(g, anc, path), CallOf(g, n, anc);
    ChildCallsAre(g, n, anc);
    if n != path[0] {
      assert Follows(g.children, n, path[0]);
      var s := FollowsSplit(g.children, n, path[0]);
      ChildIsSmaller(g, n, s);
      VisitIsThere(g, s, anc, path);
      assert s in c.kids.of.Keys && Holds(c.kids.of[s], iset{v});
    } else if |path| == 1 {
      assert v in c.own;
    } else {
      var u, rest := Under(g, n), path[1..];
      NodeCallsAre(u, anc + [n]);
      ReachesRefl(u.children, rest[0]);
      VisitIsThere(u, rest[0], anc + [n], rest);
      assert rest[0] in c.inner.of.Keys && Holds(c.inner.of[rest[0]], iset{v});
    }
  }

  /** The calls of flattening a whole pipeline. */
  ghost function TopCall(top: Graph, name: string): Call
    requires DeepInner(top)
  {
    CallOf(top, ROOT, [name])
  }

  lemma AllAreVisited(top: Graph, name: string, path: seq<Name>)
    requires DeepInner(top) && InTree(top, path)
    ensures Holds(TopCall(top, name), iset{VisitAt(top, [name], path)})
  {
    ReachableFromRoot(top, path[0]);
    VisitIsThere(top, ROOT, [name], path);
  }

  ghost predicate IsStageOf(g: Graph, anc: seq<string>, v: Visit) {
    exists path :: InTree(g, path) && v == VisitAt(g, anc, path)
  }

  lemma StageBelow(g: Graph, n: Name, anc: seq<string>, v: Visit)
    requires RunsPipeline(g, n) && IsStageOf(Under(g, n), anc + [n], v)
    ensures IsStageOf(g, anc, v)
  {
    var rest :| InTree(Under(g, n), rest) && v == VisitAt(Under(g, n), anc + [n], rest);
    assert ([n] + rest)[1..] == rest;
    assert InTree(g, [n] + rest) && v == VisitAt(g, anc, [n] + rest);
  }

  /** Where the visits of a call are: its own, in the pipeline it runs, and those of its children. */
  lemma HoldsWhere(g: Graph, n: Name, anc: seq<string>, v: Visit)
    requires DeepInner(g) && n in g.nodes && Holds(CallOf(g, n, anc), iset{v})
    ensures (n != ROOT && v == Visit(anc, g, n))
         || (exists k :: k in ChildSet(g, n) && k in g.nodes && Holds(CallOf(g, k, anc), iset{v}))
         || (RunsPipeline(g, n) &&
               exists k :: k in Under(g, n).nodes && Holds(CallOf(Under(g, n), k, anc + [n]), iset{v}))
  {
    var c := CallOf(g, n, anc);
    ChildCallsAre(g, n, anc);
    if SomeHold(c.kids, c.kids.of.Keys, iset{v}) {
      var k :| k in c.kids.of.Keys && Holds(c.kids.of[k], iset{v});
    } else if SomeHold(c.inner, c.inner.of.Keys, iset{v}) {
      var k :| k in c.inner.of.Keys && Holds(c.inner.of[k], iset{v});
      NodeCallsAre(Under(g, n), anc + [n]);
    }
  }

  /** Only stages of the tree are visited. */
  lemma {:induction false} OnlyStages(g: Graph, n: Name, anc: seq<string>, v: Visit)
    requires DeepInner(g) && n in g.nodes && Holds(CallOf(g, n, anc), iset{v})
    ensures IsStageOf(g, anc, v)
    decreases g, |Descendants(g.children, n)|
  {
    HoldsWhere(g, n, anc, v);
    hide CallOf, Holds, IsStageOf;
    if n != ROOT && v == Visit(anc, g, n) {
      OwnIsStage(g, n, anc);
    } else if k :| k in ChildSet(g, n) && k in g.nodes && Holds(CallOf(g, k, anc), iset{v}) {
      ChildIsSmaller(g, n, k);
      OnlyStages(g, k, anc, v);
    } else {
      var k :| k in Under(g, n).nodes && Holds(CallOf(Under(g, n), k, anc + [n]), iset{v});
      DescendantsBound(Under(g, n).children, k);
      OnlyStages(Under(g, n), k, anc + [n], v);
      StageBelow(g, n, anc, v);
    }
  }

  lemma OwnIsStage(g: Graph, n: Name, anc: seq<string>)
    requires n in g.nodes && n != ROOT
    ensures IsStageOf(g, anc, Visit(anc, g, n))
  {
    assert InTree(g, [n]) && Visit(anc, g, n) == VisitAt(g, anc, [n]);
  }

  ghost predicate AllDefined(base: Starts, top: Graph, name: string)
    requires DeepInner(top)
  {
    forall path | InTree(top, path) :: AlwaysDefined(base, TopCall(top, name), VisitAt(top, [name], path))
  }

  ghost predicate NothingShowsAnywhere(base: Starts, top: Graph, name: string)
    requires DeepInner(top)
  {
    forall path | InTree(top, path) ::
      var v := VisitAt(top, [name], path); Skips(v.g, v.n) ==> NothingShows(base, TopCall(top, name), v)
  }

  /** All clones of a tree start as defined in all runs, exactly when no use shows anywhere in it. */
  lemma StartsAreDefined(base: Starts, top: Graph, name: string)
    requires DeepInner(top)
    ensures AllDefined(base, top, name) <==> NothingShowsAnywhere(base, top, name)
  {
    var c := TopCall(top, name);
    forall path | InTree(top, path)
      ensures var v := VisitAt(top, [name], path);
              AlwaysDefined(base, c, v) <==> (Skips(v.g, v.n) ==> NothingShows(base, c, v))
    {
      var v := VisitAt(top, [name], path);
      AllAreVisited(top, name, path);
      if Skips(v.g, v.n) {
        StartIsDefined(base, c, v);
      } else {
        forall run | RunOf(c, run) ensures LastStart(base, run, v) == Some(CloneEnv(v.g, v.n)) {
          WriteOfRun(c, iset{v}, run);
          PlainStart(base, run, v);
        }
      }
    }
    hide TopCall, AlwaysDefined, NothingShows, InTree, VisitAt;
  }

  /** The clones of a tree start, by path name, with what a run gives them. */
  ghost predicate StartedIn(base: Starts, run: seq<Visit>, top: Graph, name: string, starts: Starts)
    requires DeepInner(top)
  {
    && RunOf(TopCall(top, name), run)
    && forall path | InTree(top, path) ::
         LastStart(base, run, VisitAt(top, [name], path)) == Some(StartOf(starts, Join([name] + path)))
  }

  // ----- a condition that does not look at the order

  /**
    No other stage of the tree that runs the same pipeline sets a key in another way that this
    one leaves to its pipelines.
   */
  ghost predicate UsesAgree(top: Graph, name: string, v: Visit)
    requires Skips(v.g, v.n)
  {
    forall path, x | InTree(top, path) && VisitAt(top, [name], path) in Writes(v.g.nodes[v.n].body.graph.name, x) ::
      UseAgrees(v, VisitAt(top, [name], path), x)
  }

  ghost predicate UseAgrees(v: Visit, u: Visit, x: string)
    requires Skips(v.g, v.n) && u.n in u.g.nodes
  {
    x in v.g.nodes[v.n].env || Value(u.g.nodes[u.n].env, x) == Value(v.g.env + SkippedStage(v.g, v.n).env, x)
  }

  lemma {:induction false} LastWriteIs(run: seq<Visit>, writes: iset<Visit>)
    ensures LastWrite(run, writes).Some? ==> var u := LastWrite(run, writes).value; u in run && u in writes
  {
    if run != [] {
      LastWriteIs(run[..|run| - 1], writes);
    }
  }

  lemma {:induction false} SeenIsVisited(run: seq<Visit>, writes: iset<Visit>, looks: iset<Visit>, u: Visit)
    requires SeenLast(run, writes, looks) == After(Some(u))
    ensures u in run && u in writes
  {
    LastWriteIs(run[..|run| - 1], writes);
    if run[|run| - 1] !in looks {
      SeenIsVisited(run[..|run| - 1], writes, looks, u);
    }
  }

  /** Where uses agree nothing shows, in whatever order they come. */
  lemma AgreeingUsesDoNotShow(base: Starts, top: Graph, name: string, v: Visit)
    requires DeepInner(top) && Skips(v.g, v.n) && UsesAgree(top, name, v)
    requires StartOf(base, v.g.nodes[v.n].body.graph.name) == SkippedStage(v.g, v.n).env
    ensures NothingShows(base, TopCall(top, name), v)
  {
    var c, w := TopCall(top, name), v.g.nodes[v.n].body.graph.name;
    forall x, o | x !in v.g.nodes[v.n].env && CanSee(c, Writes(w, x), iset{v}, o) ensures Hidden(base, v, x, o) {
      if o.Some? {
        var run := SeeingRun(c, Writes(w, x), iset{v}, o);
        SeenIsVisited(run, Writes(w, x), iset{v}, o.value);
        OwnWrite(run, iset{o.value});
        WriteOfRun(c, iset{o.value}, run);
        OnlyStages(top, ROOT, [name], o.value);
        assert UseAgrees(v, o.value, x);
      }
    }
  }

  // ----- what a call does not hold

  /** A call that holds one of some visits holds a certain one. */
  lemma HoldsOneOf(c: Call, vs: iset<Visit>) returns (v: Visit)
    requires Holds(c, vs)
    ensures v in vs && Holds(c, iset{v})
  {
    var run := SomeRun(c);
    WriteOfRun(c, vs, run);
    LastWriteIs(run, vs);
    v := LastWrite(run, vs).value;
    OwnWrite(run, iset{v});
    WriteOfRun(c, iset{v}, run);
  }

  /** The pipeline below a stage is not flattened into visits that its tree does not have. */
  lemma NotBelow(g: Graph, n: Name, anc: seq<string>, vs: iset<Visit>)
    requires DeepInner(g) && n in g.nodes
    requires RunsPipeline(g, n) ==> forall v | v in vs :: !IsStageOf(Under(g, n), anc + [n], v)
    ensures var c := CallOf(g, n, anc); !SomeHold(c.inner, c.inner.of.Keys, vs)
  {
    var c := CallOf(g, n, anc);
    if SomeHold(c.inner, c.inner.of.Keys, vs) {
      var k :| k in c.inner.of.Keys && Holds(c.inner.of[k], vs);
      NodeCallsAre(Under(g, n), anc + [n]);
      var v := HoldsOneOf(c.inner.of[k], vs);
      OnlyStages(Under(g, n), k, anc + [n], v);
    }
  }

  lemma {:induction false} BelowIsDeeper(g: Graph, anc: seq<string>, path: seq<Name>)
    requires InTree(g, path)
    ensures |VisitAt(g, anc, path).anc| >= |anc|
    decreases |path|
  {
    if |path| > 1 {
      BelowIsDeeper(Under(g, path[0]), anc + [path[0]], path[1..]);
    }
  }

  // ----- the run so far

  /** A call has been run between two traces. */
  ghost predicate Ran(before: seq<Visit>, after: seq<Visit>, c: Call) {
    exists run :: RunOf(c, run) && after == before + run
  }

  /** Some calls have been run between two traces, in some order. */
  ghost predicate RanSome(before: seq<Visit>, after: seq<Visit>, cs: Calls, names: set<Name>)
    requires names <= cs.of.Keys
  {
    exists run :: RunOfSome(cs, names, run) && after == before + run
  }

  lemma RanNone(trace: seq<Visit>, cs: Calls)
    ensures RanSome(trace, trace, cs, {})
  {
    assert RunOfSome(cs, {}, []) && trace == trace + [];
  }

  lemma RanOneMore(a: seq<Visit>, b: seq<Visit>, c: seq<Visit>, cs: Calls, names: set<Name>, k: Name)
    requires k in cs.of && k !in names && names <= cs.of.Keys
    requires RanSome(a, b, cs, names) && Ran(b, c, cs.of[k])
    ensures RanSome(a, c, cs, names + {k})
  {
    var r :| RunOfSome(cs, names, r) && b == a + r;
    var q :| RunOf(cs.of[k], q) && c == b + q;
    assert names + {k} - {k} == names;
    assert RunEndsWith(cs, names + {k}, r + q, k, r, q);
    assert c == a + (r + q);
  }

  lemma RanParts(a: seq<Visit>, b: seq<Visit>, d: seq<Visit>, c: Call)
    requires RanSome(a + c.own, b, c.inner, c.inner.of.Keys) && RanSome(b, d, c.kids, c.kids.of.Keys)
    ensures Ran(a, d, c)
  {
    var r :| RunOfSome(c.inner, c.inner.of.Keys, r) && b == a + c.own + r;
    var q :| RunOfSome(c.kids, c.kids.of.Keys, q) && d == b + q;
    assert RunInParts(c, c.own + r + q, r, q);
    assert d == a + (c.own + r + q);
  }

  /** The key under which the clone of a visit is put. */
  function KeyOf(v: Visit): string {
    CascadeName(v.anc, v.n)
  }

  /** What the last clone under a key starts with in a run. */
  ghost function LastStartUnder(base: Starts, run: seq<Visit>, k: string): Option<Env> {
    if run == [] then None
    else if KeyOf(run[|run| - 1]) == k then Some(StartAfter(base, run[..|run| - 1], run[|run| - 1]))
    else LastStartUnder(base, run[..|run| - 1], k)
  }
}
