/**
  How the stage table changes while the tree is rebuilt from it: each pipeline's rebuilding
  reads the flattened entries at and below its path and around it, and writes only below it.
 */
module TableUpdates {
  import opened Digraph
  import opened Stages
  import opened WellBuiltGraphs
  import opened Paths
  import opened Unfolding
  import opened TableEntries
  import opened Lookups
  import opened RebuiltPipelines

  /** Two paths of which one leads on from the other. */
  predicate Inline(p: seq<Name>, q: seq<Name>) {
    p <= q || q <= p
  }

  /** The table holds the flattened clones at and below a path, and those of the stages around it. */
  ghost predicate Fresh(t: Table, top: Graph, name: string, starts: Starts, p: seq<Name>) {
    forall q | InTree(top, q) && Inline(p, q) :: Untouched(t, top, name, starts, q)
  }

  /** No entry has changed except below a path, or also at it. */
  ghost predicate ChangedBelow(
    before: Table, after: Table, top: Graph, name: string, starts: Starts, p: seq<Name>, at: bool)
  {
    && after.Keys == before.Keys
    && forall q | InTree(top, q) && !(if at then p <= q else p < q) && Untouched(before, top, name, starts, q) ::
         Untouched(after, top, name, starts, q)
  }

  lemma ChangedTwice(a: Table, b: Table, c: Table, top: Graph, name: string, starts: Starts, p: seq<Name>, n: Name)
    requires ChangedBelow(a, b, top, name, starts, p, false) && ChangedBelow(b, c, top, name, starts, p + [n], true)
    ensures ChangedBelow(a, c, top, name, starts, p, false)
  {
    forall q | InTree(top, q) && !(p < q) && Untouched(a, top, name, starts, q)
      ensures Untouched(c, top, name, starts, q)
    {
      assert Untouched(b, top, name, starts, q);
      assert p + [n] <= q ==> p < q;
    }
  }

  lemma SameStep(p: seq<Name>, m: Name, n: Name, q: seq<Name>)
    ensures Inline(p + [m], q) && p + [n] <= q ==> m == n
  {
    if Inline(p + [m], q) && p + [n] <= q {
      assert q[|p|] == n && (p + [m])[|p|] == m;
    }
  }

  /** Rebuilding one stage leaves its neighbours as they were. */
  lemma StillFresh(
    before: Table, after: Table, top: Graph, name: string, starts: Starts, p: seq<Name>, n: Name, m: Name)
    requires ChangedBelow(before, after, top, name, starts, p + [n], true) && m != n
    requires Fresh(before, top, name, starts, p + [m])
    ensures Fresh(after, top, name, starts, p + [m])
  {
    forall q | InTree(top, q) && Inline(p + [m], q) ensures Untouched(after, top, name, starts, q) {
      assert Untouched(before, top, name, starts, q);
      SameStep(p, m, n, q);
    }
  }

  lemma FreshBelow(t: Table, top: Graph, name: string, starts: Starts, p: seq<Name>, n: Name)
    requires Fresh(t, top, name, starts, p)
    ensures Fresh(t, top, name, starts, p + [n])
  {
    forall q | InTree(top, q) && Inline(p + [n], q) ensures Untouched(t, top, name, starts, q) {
      if q <= p + [n] && !(q <= p) {
        assert q == p + [n];
      }
    }
  }

  /** The stages found around a stage that is about to be rebuilt merge to the environment of its surroundings. */
  lemma SurroundingsMerge(t: Table, top: Graph, name: string, starts: Starts, p: seq<Name>, n: Name)
    requires PlainTop(top, name) && Keyed(t, top, name) && InTree(top, p + [n])
    requires forall i | 0 < i <= |p| && InTree(top, p[..i]) :: Untouched(t, top, name, starts, p[..i])
    ensures PipelinePath(top, p)
    ensures Split(Join([name] + p + [n])) == [name] + p + [n]
    ensures Merged(Enclosing(t, [name] + p + [n], |p| + 1)) == OuterEnv(starts, name, p)
  {
    hide Enclosing, Merged, Keyed, Tidy, Untouched;
    InTreeSnoc(top, p, n);
    KeyParts(top, name, p + [n]);
    assert [name] + (p + [n]) == [name] + p + [n];
    forall i | 0 < i <= |p| ensures InTree(top, p[..i]) {
      PathOfPrefix(top, p, i);
      PipelinePathInTree(top, p[..i]);
    }
    EnclosingEnv(t, top, name, starts, p, n, |p|);
    assert p[..|p|] == p;
  }

  lemma BelowOnly(before: Table, after: Table, top: Graph, name: string, starts: Starts, p: seq<Name>, n: Name)
    requires Fresh(before, top, name, starts, p + [n])
    requires after == before || ChangedBelow(before, after, top, name, starts, p + [n], false)
    ensures forall i | 0 < i <= |p| && InTree(top, p[..i]) :: Untouched(after, top, name, starts, p[..i])
  {
    forall i | 0 < i <= |p| && InTree(top, p[..i]) ensures Untouched(after, top, name, starts, p[..i]) {
      assert p[..i] <= p + [n] && Inline(p + [n], p[..i]);
      assert Untouched(before, top, name, starts, p[..i]);
    }
  }

  /** The name of a clone is its key in the table. */
  lemma StageIsKeyed(t: Table, top: Graph, name: string, p: seq<Name>, n: Name)
    requires PipelinePath(top, p) && n in PipelineAt(top, p).nodes && n != ROOT && Keyed(t, top, name)
    ensures InTree(top, p + [n])
    ensures CascadeName([name] + p, n) == Join([name] + p + [n]) == Join([name] + (p + [n]))
    ensures Join([name] + (p + [n])) in t
  {
    InTreeSnoc(top, p, n);
    JoinSnoc([name] + p, n);
    assert [name] + (p + [n]) == [name] + p + [n];
  }

  lemma SameKeys(before: Table, after: Table, top: Graph, name: string, starts: Starts, p: seq<Name>, at: bool)
    requires Keyed(before, top, name)
    requires after == before || ChangedBelow(before, after, top, name, starts, p, at)
    ensures Keyed(after, top, name)
  {
  }

  lemma UnderIsSmaller(top: Graph, p: seq<Name>, n: Name)
    requires DeepInner(top) && PipelinePath(top, p) && RunsPipeline(PipelineAt(top, p), n)
    ensures PipelinePath(top, p + [n]) && (PipelineAt(top, p) decreases to PipelineAt(top, p + [n]))
  {
    PipelineSnoc(top, p, n);
  }

  lemma WrittenAt(before: Table, mid: Table, top: Graph, name: string, starts: Starts, p: seq<Name>, n: Name, s: Stage)
    requires PlainTop(top, name) && InTree(top, p + [n]) && s.name == Join([name] + (p + [n])) && s.name in before
    requires mid == before || ChangedBelow(before, mid, top, name, starts, p + [n], false)
    ensures ChangedBelow(before, mid[s.name := s], top, name, starts, p + [n], true)
  {
    forall q | InTree(top, q) && !(p + [n] <= q) && Untouched(before, top, name, starts, q)
      ensures Untouched(mid[s.name := s], top, name, starts, q)
    {
      assert Untouched(mid, top, name, starts, q);
      KeyParts(top, name, q);
      KeyParts(top, name, p + [n]);
      assert ([name] + q)[1..] == q && ([name] + (p + [n]))[1..] == p + [n];
    }
  }

  /** A clone whose pipeline was rebuilt and whose environments were merged is as specified. */
  lemma MergedIsRebuilt(
    starts: Starts, g: Graph, anc: seq<string>, n: Name, outer: Env, clone: Stage, built: Stage, s: Stage)
    requires n in g.nodes && n != ROOT
    requires clone == CloneOf(g, anc, n, StartOf(starts, CascadeName(anc, n))) && built == clone.(body := built.body)
    requires if g.nodes[n].body.Nested?
             then built.body.Nested? && Rebuilt(starts, Under(g, n), anc + [n], outer + clone.env, built.body.graph)
             else built.body == clone.body
    requires var env := built.env + outer;
             s == match built.body
                  case Leaf(t) => built.(body := Leaf(Task(built.name, env + t.env)), env := env + t.env)
                  case _ => built.(env := env)
    ensures RebuiltStage(starts, g, anc, n, outer, s)
  {
    hide Rebuilt, StartOf, CascadeName;
  }

  /**
    Flattening from the root node fills the table with exactly the path names of the tree, each
    under its stage's name.
   */
  lemma TableIsKeyed(t: Table, top: Graph, name: string)
    requires WellBuilt(top) && Laid(map[], t, EntriesFrom(top, [name], {ROOT}))
    ensures Keyed(t, top, name)
    ensures forall k | k in t :: t[k].name == k
  {
    hide WellBuilt, CloneAt, Join, InTree;
    forall path | InTree(top, path) ensures Join([name] + path) in t {
      KeyIsThere(t, top, name, path);
    }
    forall k | k in t ensures t[k].name == k && exists path :: InTree(top, path) && k == Join([name] + path) {
      var path := PathOfEntry(t, top, name, k);
      NamedByPath(top, [name], path, t[k].env);
    }
  }

  lemma PathOfEntry(t: Table, top: Graph, name: string, k: string) returns (path: seq<Name>)
    requires Laid(map[], t, EntriesFrom(top, [name], {ROOT})) && k in t
    ensures InTree(top, path) && IsClone(top, [name], path, (k, t[k]))
  {
    hide CloneAt, Join, InTree;
    assert (k, t[k]) in EntriesFrom(top, [name], {ROOT});
    path :| IsEntry(top, [name], {ROOT}, path, (k, t[k]));
  }

  /** Every path of the tree has an entry. */
  lemma KeyIsThere(t: Table, top: Graph, name: string, path: seq<Name>)
    requires WellBuilt(top) && InTree(top, path)
    requires Laid(map[], t, EntriesFrom(top, [name], {ROOT}))
    ensures Join([name] + path) in t
  {
    hide WellBuilt, Join, InTree;
    var env: Env := map[];
    CloneKeepsEnv(top, [name], path, env);
    var e := (Join([name] + path), CloneAt(top, [name], path, env));
    PathStartsInGraph(top, path);
    ReachableFromRoot(top, path[0]);
    assert ROOT in {ROOT};
    assert IsEntry(top, [name], {ROOT}, path, e);
    assert e in EntriesFrom(top, [name], {ROOT});
  }

  lemma PathStartsInGraph(g: Graph, path: seq<Name>)
    requires InTree(g, path)
    ensures path != [] && path[0] in g.nodes
  {
  }

  lemma {:induction false} NamedByPath(g: Graph, anc: seq<string>, path: seq<Name>, env: Env)
    requires InTree(g, path) && anc != []
    ensures CloneAt(g, anc, path, env).name == Join(anc + path)
    decreases |path|
  {
    if |path| == 1 {
      assert path == [path[0]];
      JoinSnoc(anc, path[0]);
    } else {
      NamedByPath(Under(g, path[0]), anc + [path[0]], path[1..], env);
      assert anc + [path[0]] + path[1..] == anc + path;
    }
  }

  /** The environments that the clones in a table start with. */
  function StartsOf(t: Table): Starts {
    map k | k in t :: t[k].env
  }

  /**
    With plain names no two paths share an entry, so every clone is still there, with the
    environment it started with.
   */
  lemma TableIsFresh(t: Table, top: Graph, name: string)
    requires WellBuilt(top) && PlainTop(top, name)
    requires Laid(map[], t, EntriesFrom(top, [name], {ROOT}))
    ensures Fresh(t, top, name, StartsOf(t), [])
  {
    forall q | InTree(top, q) ensures Untouched(t, top, name, StartsOf(t), q) {
      hide WellBuilt, CloneAt, Join, InTree, PlainTop;
      var k := Join([name] + q);
      KeyIsThere(t, top, name, q);
      var path := PathOfEntry(t, top, name, k);
      SamePath(top, name, q, path);
    }
  }

  lemma SamePath(top: Graph, name: string, p: seq<Name>, q: seq<Name>)
    requires PlainTop(top, name) && InTree(top, p) && InTree(top, q) && Join([name] + p) == Join([name] + q)
    ensures p == q
  {
    KeyParts(top, name, p);
    KeyParts(top, name, q);
    assert ([name] + p)[1..] == p && ([name] + q)[1..] == q;
  }

  lemma ChildIsFresh(t: Table, top: Graph, name: string, starts: Starts, p: seq<Name>, n: Name)
    requires PipelinePath(top, p) && Fresh(t, top, name, starts, p) && n in PipelineAt(top, p).nodes && n != ROOT
    ensures Join([name] + p + [n]) in t
    ensures t[Join([name] + p + [n])] ==
            CloneOf(PipelineAt(top, p), [name] + p, n, StartOf(starts, CascadeName([name] + p, n)))
  {
    InTreeSnoc(top, p, n);
    assert [name] + p + [n] == [name] + (p + [n]);
    assert Inline(p, p + [n]);
    assert Untouched(t, top, name, starts, p + [n]);
    JoinSnoc([name] + p, n);
    CloneAtSnoc(top, [name], p, n, starts[Join([name] + (p + [n]))]);
  }

  lemma SameChild(name: string, p: seq<Name>, m: Name, n: Name)
    ensures Join([name] + p + [m]) == Join([name] + p + [n]) <==> m == n
  {
    JoinSnoc([name] + p, m);
    JoinSnoc([name] + p, n);
    CascadeInjective([name] + p, m, n);
  }

  // ----- places in the tree

  /** A pipeline of the tree, by the path that leads to it from the top. */
  datatype Place = Place(top: Graph, name: string, starts: Starts, path: seq<Name>)

  ghost predicate Sound(at: Place) {
    DeepInner(at.top) && PlainTop(at.top, at.name) && PipelinePath(at.top, at.path)
  }

  ghost function Source(at: Place): Graph
    requires Sound(at)
  {
    PipelineAt(at.top, at.path)
  }

  function Around(at: Place): Env
  {
    OuterEnv(at.starts, at.name, at.path)
  }

  function Names(at: Place): (names: seq<string>)
    ensures names != []
  {
    [at.name] + at.path
  }

  function Down(at: Place, n: Name): Place {
    at.(path := at.path + [n])
  }

  /** A stage of the pipeline at a place. */
  ghost predicate HasStageAt(at: Place, n: Name) {
    Sound(at) && n in Source(at).nodes && n != ROOT
  }

  /** The table can be used to rebuild the pipeline at a place. */
  ghost predicate Ready(t: Table, at: Place) {
    Keyed(t, at.top, at.name) && Fresh(t, at.top, at.name, at.starts, at.path)
  }

  /** Only entries below a place have changed, or also the one at it. */
  ghost predicate Changed(before: Table, after: Table, at: Place, here: bool) {
    ChangedBelow(before, after, at.top, at.name, at.starts, at.path, here)
  }

  /** The merged environments of the stages around a name. */
  function Surroundings(t: Table, k: string): Env {
    Merged(Enclosing(t, Split(k), |Split(k)| - 1))
  }

  lemma Deeper(at: Place, n: Name)
    requires HasStageAt(at, n) && RunsPipeline(Source(at), n)
    ensures Sound(Down(at, n)) && Source(Down(at, n)) == Under(Source(at), n)
    ensures Around(Down(at, n)) == Around(at) + StartOf(at.starts, CascadeName(Names(at), n))
    ensures Names(Down(at, n)) == Names(at) + [n] && Down(at, n).starts == at.starts
    ensures Source(at) decreases to Source(Down(at, n))
  {
    hide InTree, Tidy, PlainTop, StartOf, DeepInner;
    PipelineSnoc(at.top, at.path, n);
    OuterEnvSnoc(at.starts, at.name, at.path, n);
    UnderIsSmaller(at.top, at.path, n);
  }

  lemma SourceIsGood(at: Place)
    requires Sound(at)
    ensures WellBuilt(Source(at)) && PlainNames(Source(at))
  {
    PipelineAtGood(at.top, at.path);
  }

  lemma NothingChanged(t: Table, at: Place)
    ensures Changed(t, t, at, false)
    ensures Ready(t, at) ==> forall n :: Ready(t, Down(at, n))
  {
    if Ready(t, at) {
      forall n ensures Ready(t, Down(at, n)) { FreshBelow(t, at.top, at.name, at.starts, at.path, n); }
    }
  }

  lemma ChangedOnce(a: Table, b: Table, c: Table, at: Place, n: Name)
    requires Changed(a, b, at, false) && Changed(b, c, Down(at, n), true)
    ensures Changed(a, c, at, false)
  {
    ChangedTwice(a, b, c, at.top, at.name, at.starts, at.path, n);
  }

  /** Rebuilding one stage leaves the table ready for its neighbours. */
  lemma StillReady(before: Table, after: Table, at: Place, n: Name, m: Name)
    requires Changed(before, after, Down(at, n), true) && m != n && Ready(before, Down(at, m))
    ensures Ready(after, Down(at, m))
  {
    StillFresh(before, after, at.top, at.name, at.starts, at.path, n, m);
    SameKeys(before, after, at.top, at.name, at.starts, at.path + [n], true);
  }

  /**
    The surroundings of a stage are as they were flattened when its turn comes, also after what it
    runs was rebuilt.
   */
  lemma SurroundingsAre(before: Table, mid: Table, at: Place, n: Name)
    requires HasStageAt(at, n) && Ready(before, Down(at, n))
    requires mid == before || Changed(before, mid, Down(at, n), false)
    ensures Surroundings(mid, CascadeName(Names(at), n)) == Around(at)
  {
    hide Enclosing, Merged, Keyed, Tidy, Untouched, Fresh, ChangedBelow, DeepInner, Split, Join, PlainTop, InTree;
    StageIsKeyed(before, at.top, at.name, at.path, n);
    BelowOnly(before, mid, at.top, at.name, at.starts, at.path, n);
    SameKeys(before, mid, at.top, at.name, at.starts, at.path + [n], false);
    SurroundingsMerge(mid, at.top, at.name, at.starts, at.path, n);
  }

  lemma StageWritten(before: Table, mid: Table, at: Place, n: Name, s: Stage)
    requires HasStageAt(at, n) && Ready(before, Down(at, n)) && s.name == CascadeName(Names(at), n)
    requires mid == before || Changed(before, mid, Down(at, n), false)
    ensures Changed(before, mid[s.name := s], Down(at, n), true)
  {
    hide InTree, Fresh, Keyed, DeepInner, PlainTop, Join, CascadeName, ChangedBelow;
    StageIsKeyed(before, at.top, at.name, at.path, n);
    WrittenAt(before, mid, at.top, at.name, at.starts, at.path, n, s);
  }

  /** The graph holds the rebuilt stages of a set. */
  ghost predicate PartAt(out: Graph, at: Place, done: set<Name>) {
    && Sound(at) && done <= Source(at).nodes.Keys && ROOT !in done
    && PartlyRebuilt(at.starts, Source(at), Names(at), Around(at), out, done)
  }

  lemma NothingAt(out: Graph, at: Place)
    requires Sound(at) && out == EmptyGraph(Join(Names(at)))
    ensures PartAt(out, at, {})
  {
    NothingRebuilt(at.starts, Source(at), Names(at), Around(at), out);
  }

  lemma AllAt(out: Graph, at: Place, done: set<Name>)
    requires PartAt(out, at, done) && forall n :: n in done <==> HasStageAt(at, n)
    ensures Rebuilt(at.starts, Source(at), Names(at), Around(at), out)
  {
    assert done == Source(at).nodes.Keys - {ROOT};
  }

  /** The clone of a stage of the pipeline at a place. */
  ghost function ChildClone(at: Place, n: Name): Stage
    requires HasStageAt(at, n)
  {
    CloneOf(Source(at), Names(at), n, StartOf(at.starts, CascadeName(Names(at), n)))
  }

  /** What a lookup below a place yields: the clones of all its stages, each once. */
  ghost predicate AllChildren(at: Place, stages: seq<Stage>, names: seq<Name>)
    requires Sound(at)
  {
    && |stages| == |names|
    && (forall i | 0 <= i < |names| :: HasStageAt(at, names[i]) && stages[i] == ChildClone(at, names[i]))
    && (forall i, j | 0 <= i < j < |names| :: names[i] != names[j])
    && (forall n :: n in names <==> HasStageAt(at, n))
  }

  lemma LookupFindsChildren(
    t: Table, at: Place, stages: seq<Stage>, keys: seq<string>) returns (names: seq<Name>)
    requires Sound(at) && Ready(t, at)
    requires |stages| == |keys|
    requires forall i | 0 <= i < |keys| :: keys[i] in t && stages[i] == t[keys[i]]
    requires forall i, j | 0 <= i < j < |keys| :: keys[i] != keys[j]
    requires forall k :: k in keys <==> k in t && AtDepth(Join(Names(at)), 1, k)
    ensures AllChildren(at, stages, names)
  {
    hide AtDepth, Keyed, PlainTop, Fresh, InTree, PipelinePath, PipelineAt, CloneOf, DeepInner, StartOf;
    var top, name, starts, p := at.top, at.name, at.starts, at.path;
    names := [];
    for i := 0 to |keys|
      invariant |names| == i
      invariant forall j | 0 <= j < i :: IsChild(top, name, p, keys[j], names[j])
    {
      LookupIsExact(t, top, name, p, keys[i]);
      assert keys[i] in keys;
      var n :| IsChild(top, name, p, keys[i], n);
      names := names + [n];
    }
    forall i | 0 <= i < |names|
      ensures HasStageAt(at, names[i]) && stages[i] == ChildClone(at, names[i])
    {
      assert IsChild(top, name, p, keys[i], names[i]);
      ChildIsFresh(t, top, name, starts, p, names[i]);
    }
    forall i, j | 0 <= i < j < |names| ensures names[i] != names[j] {
      assert IsChild(top, name, p, keys[i], names[i]) && IsChild(top, name, p, keys[j], names[j]);
    }
    forall n ensures n in names <==> HasStageAt(at, n) {
      if HasStageAt(at, n) {
        var k := Join([name] + p + [n]);
        assert IsChild(top, name, p, k, n);
        LookupIsExact(t, top, name, p, k);
        var i :| 0 <= i < |keys| && keys[i] == k;
        assert IsChild(top, name, p, keys[i], names[i]);
        SameChild(name, p, n, names[i]);
      }
      if n in names {
        var i :| 0 <= i < |names| && names[i] == n;
        assert IsChild(top, name, p, keys[i], names[i]);
      }
    }
  }
}
