/**
  Looking stages up in the table by path name: the stages one level below a name, and the
  stages around it.
 */
module Lookups {
  import opened Digraph
  import opened Stages
  import opened Paths
  import opened Unfolding
  import opened TableEntries

  /** The names below a prefix at a given depth: a raw string prefix, and a difference in the number of parts. */
  ghost predicate AtDepth(prefix: string, depth: nat, key: string) {
    prefix <= key && key != prefix && |Split(key)| - |Split(prefix)| == depth
  }

  /** A table entry that a lookup selects. */
  ghost predicate Selected(t: Table, prefix: string, depth: nat, k: string, s: Stage) {
    k in t && AtDepth(prefix, depth, k) && t[k] == s
  }

  /** The table holds the path names of a tree and nothing else. */
  ghost predicate Keyed(t: Table, top: Graph, name: string) {
    && (forall path | InTree(top, path) :: Join([name] + path) in t)
    && (forall k | k in t :: exists path :: InTree(top, path) && k == Join([name] + path))
  }

  ghost predicate PlainTop(top: Graph, name: string) {
    Plain(name) && Tidy(top)
  }

  lemma KeyParts(top: Graph, name: string, path: seq<Name>)
    requires PlainTop(top, name) && (InTree(top, path) || PipelinePath(top, path))
    ensures AllPlain([name] + path) && Split(Join([name] + path)) == [name] + path
  {
    if InTree(top, path) {
      InTreePlain(top, path);
    } else {
      PipelineAtGood(top, path);
    }
    SplitJoin([name] + path);
  }

  /** A name that is a child of the pipeline at p. */
  ghost predicate IsChild(top: Graph, name: string, p: seq<Name>, k: string, n: Name)
    requires PipelinePath(top, p)
  {
    n in PipelineAt(top, p).nodes && n != ROOT && k == Join([name] + p + [n])
  }

  /** In a tidy tree the prefix lookup finds the stages of the pipeline it is asked for, and no other. */
  lemma LookupIsExact(t: Table, top: Graph, name: string, p: seq<Name>, k: string)
    requires PlainTop(top, name) && Keyed(t, top, name) && PipelinePath(top, p)
    ensures k in t && AtDepth(Join([name] + p), 1, k) <==> exists n :: IsChild(top, name, p, k, n)
  {
    hide AtDepth;
    if k in t && AtDepth(Join([name] + p), 1, k) {
      var q :| InTree(top, q) && k == Join([name] + q);
      var n := FoundIsChild(top, name, p, q);
      assert IsChild(top, name, p, k, n);
    }
    if n :| IsChild(top, name, p, k, n) {
      InTreeSnoc(top, p, n);
      assert [name] + (p + [n]) == [name] + p + [n];
      ChildIsFound(top, name, p, n);
    }
  }

  lemma FoundIsChild(top: Graph, name: string, p: seq<Name>, q: seq<Name>) returns (n: Name)
    requires PlainTop(top, name) && PipelinePath(top, p) && InTree(top, q)
    requires AtDepth(Join([name] + p), 1, Join([name] + q))
    ensures IsChild(top, name, p, Join([name] + q), n)
  {
    hide Join, Split, InTree, PipelinePath, PipelineAt, Tidy;
    KeyParts(top, name, p);
    KeyParts(top, name, q);
    n := q[|q| - 1];
    RawPrefix([name] + p, [name] + q);
    SameParent(top, name, p, q);
    assert q == p + [n];
    InTreeSnoc(top, p, n);
    assert [name] + p + [n] == [name] + q;
  }

  lemma ChildIsFound(top: Graph, name: string, p: seq<Name>, n: Name)
    requires PlainTop(top, name) && PipelinePath(top, p) && InTree(top, p + [n])
    ensures AtDepth(Join([name] + p), 1, Join([name] + p + [n]))
  {
    hide Join, Split, InTree, PipelinePath, Tidy;
    KeyParts(top, name, p);
    KeyParts(top, name, p + [n]);
    var parts := [name] + p;
    assert [name] + (p + [n]) == parts + [n];
    RawPrefix(parts, parts + [n]);
    assert (parts + [n])[..|parts| - 1] == parts[..|parts| - 1];
    assert parts[|parts| - 1] <= parts[|parts| - 1] + "-";
  }

  /** Two names one level apart whose last parts do not clash have the same parent. */
  lemma SameParent(top: Graph, name: string, p: seq<Name>, q: seq<Name>)
    requires PlainTop(top, name) && PipelinePath(top, p) && InTree(top, q) && |q| == |p| + 1
    requires ([name] + p)[..|p|] == ([name] + q)[..|p|] && ([name] + p)[|p|] <= ([name] + q)[|p|] + "-"
    ensures q[..|p|] == p
  {
    hide InTree, PipelinePath, Tidy, Plain;
    if p != [] {
      var k := |p| - 1;
      SameHead(name, p, q);
      SiblingsAgree(top, p[..k], p[k], q[k], q[k + 1]);
    }
  }

  lemma SameHead(name: string, p: seq<Name>, q: seq<Name>)
    requires p != [] && |q| == |p| + 1 && ([name] + p)[..|p|] == ([name] + q)[..|p|]
    ensures var k := |p| - 1; p[..k] == q[..k] && p == p[..k] + [p[k]] && q == p[..k] + [q[k]] + [q[k + 1]]
    ensures var k := |p| - 1; q[..|p|] == p[..k] + [q[k]]
    ensures var k := |p| - 1; ([name] + p)[|p|] == p[k] && ([name] + q)[|p|] == q[k]
  {
    assert ([name] + p)[..|p|][1..] == p[..|p| - 1];
    assert ([name] + q)[..|p|][1..] == q[..|p| - 1];
  }

  lemma SiblingsAgree(top: Graph, r: seq<Name>, m: Name, m': Name, n: Name)
    requires Tidy(top) && PipelinePath(top, r + [m]) && InTree(top, r + [m'] + [n]) && m <= m' + "-"
    ensures m == m'
  {
    hide InTree, PipelinePath, PipelineAt, Tidy, DeepInner, CloneAt;
    InTreeSnoc(top, r + [m'], n);
    PipelineSnoc(top, r, m);
    PipelineSnoc(top, r, m');
    PipelineAtGood(top, r);
    TidyHere(PipelineAt(top, r));
    assert HasStage(Under(PipelineAt(top, r), m'));
  }

  lemma TidyHere(g: Graph)
    requires Tidy(g)
    ensures TidyLevel(g)
  {
  }

  /**
    What goes wrong otherwise: a lookup for the pipeline run by m also finds the stages of its
    neighbour n, and does so exactly when m begins n, or is n with a dash.
   */
  lemma NeighboursClash(name: string, r: seq<Name>, m: Name, n: Name, x: Name)
    requires AllPlain([name] + r) && Plain(m) && Plain(n) && Plain(x)
    ensures AtDepth(Join([name] + r + [m]), 1, Join([name] + r + [n, x])) <==> m <= n + "-"
  {
    var P, Q := [name] + r + [m], [name] + r + [n, x];
    SplitJoin(P);
    SplitJoin(Q);
    RawPrefix(P, Q);
    assert P[..|P| - 1] == [name] + r == Q[..|P| - 1];
    assert Join(P) == Join(Q) ==> |P| == |Q|;
  }

  /** Every name in the tree is plain. */
  ghost predicate PlainTree(g: Graph) {
    && (forall n | n in g.nodes :: Plain(n))
    && forall n | RunsPipeline(g, n) :: PlainTree(Under(g, n))
  }

  /** All lookups for pipelines of the tree find their stages and no other. */
  ghost predicate LookupsAreExact(t: Table, top: Graph, name: string) {
    forall p, k | PipelinePath(top, p) ::
      k in t && AtDepth(Join([name] + p), 1, k) <==> exists n :: IsChild(top, name, p, k, n)
  }

  /** Two stages of one pipeline of which the first also finds what the second runs. */
  ghost predicate ClashAt(top: Graph, r: seq<Name>, m: Name, n: Name, x: Name) {
    && PipelinePath(top, r)
    && var g := PipelineAt(top, r);
       && RunsPipeline(g, m) && RunsPipeline(g, n) && m != n && m <= n + "-"
       && x in Under(g, n).nodes && x != ROOT
  }

  /** A tree with plain names that is not tidy has such a pair. */
  lemma {:induction false} FindClash(g: Graph) returns (r: seq<Name>, m: Name, n: Name, x: Name)
    requires PlainTree(g) && !Tidy(g)
    ensures ClashAt(g, r, m, n, x)
  {
    if TidyLevel(g) {
      var k :| RunsPipeline(g, k) && !Tidy(Under(g, k));
      r, m, n, x := FindClash(Under(g, k));
      assert ([k] + r)[1..] == r;
      r := [k] + r;
    } else {
      m, n :| RunsPipeline(g, m) && RunsPipeline(g, n) && m != n && HasStage(Under(g, n)) && m <= n + "-";
      x :| x in Under(g, n).nodes && x != ROOT;
      r := [];
    }
  }

  lemma {:induction false} PlainAt(g: Graph, p: seq<Name>)
    requires PlainTree(g) && PipelinePath(g, p)
    ensures PlainTree(PipelineAt(g, p)) && AllPlain(p)
    decreases |p|
  {
    if p != [] {
      PlainAt(Under(g, p[0]), p[1..]);
      assert forall i | 0 < i < |p| :: p[i] == p[1..][i - 1];
    }
  }

  /** Such a pair spoils the lookup for the first of the two. */
  lemma ClashSpoils(t: Table, top: Graph, name: string, r: seq<Name>, m: Name, n: Name, x: Name)
    requires Plain(name) && PlainTree(top) && Keyed(t, top, name) && ClashAt(top, r, m, n, x)
    ensures !LookupsAreExact(t, top, name)
  {
    hide PlainTree, InTree, PipelinePath, PipelineAt, AtDepth, Join, Plain;
    PlainAt(top, r);
    PipelineSnoc(top, r, m);
    PipelineSnoc(top, r, n);
    InTreeSnoc(top, r + [n], x);
    var q := r + [n] + [x];
    PlainAt(top, r + [m]);
    PlainAt(top, r + [n]);
    NamesArePlain(PipelineAt(top, r + [n]), x);
    var k := Join([name] + q);
    assert [name] + r + [n, x] == [name] + q && [name] + r + [m] == [name] + (r + [m]);
    assert AllPlain([name] + r) && Plain(m) && Plain(n) by { PlainEnds(name, r, m); PlainEnds(name, r, n); }
    NeighboursClash(name, r, m, n, x);
    assert k in t && AtDepth(Join([name] + (r + [m])), 1, k);
    forall c ensures !IsChild(top, name, r + [m], k, c) {
      if IsChild(top, name, r + [m], k, c) {
        PlainAt(top, r + [m]);
        NamesArePlain(PipelineAt(top, r + [m]), c);
        NotTheSame(name, r, m, c, n, x);
      }
    }
  }

  lemma NamesArePlain(g: Graph, n: Name)
    requires PlainTree(g) && n in g.nodes
    ensures Plain(n)
  {
  }

  lemma PlainEnds(name: string, r: seq<Name>, m: Name)
    requires Plain(name) && AllPlain(r + [m])
    ensures AllPlain([name] + r) && Plain(m)
  {
    hide Plain;
    assert (r + [m])[|r|] == m;
    assert forall i | 0 <= i < |r| :: r[i] == (r + [m])[i];
  }

  lemma NotTheSame(name: string, r: seq<Name>, m: Name, c: Name, n: Name, x: Name)
    requires AllPlain([name] + r) && Plain(m) && Plain(c) && Plain(n) && Plain(x) && m != n
    ensures Join([name] + (r + [m]) + [c]) != Join([name] + (r + [n] + [x]))
  {
    hide Plain, Join;
    var p, q := [name] + (r + [m]) + [c], [name] + (r + [n] + [x]);
    assert p[|r| + 1] == m && q[|r| + 1] == n;
    assert p == [name] + r + [m, c] && q == [name] + r + [n, x];
    assert AllPlain(p) && AllPlain(q);
    if Join(p) == Join(q) {
      JoinInjective(p, q);
    }
  }

  /** With plain names, all lookups are exact if and only if no two neighbours clash anywhere in the tree. */
  lemma LookupsNeedTidiness(t: Table, top: Graph, name: string)
    requires Plain(name) && PlainTree(top) && Keyed(t, top, name)
    ensures LookupsAreExact(t, top, name) <==> Tidy(top)
  {
    hide LookupsAreExact, PlainTree, Tidy, Keyed, Plain;
    if Tidy(top) {
      TidyIsExact(t, top, name);
    } else {
      var r, m, n, x := FindClash(top);
      ClashSpoils(t, top, name, r, m, n, x);
    }
  }

  lemma TidyIsExact(t: Table, top: Graph, name: string)
    requires PlainTop(top, name) && Keyed(t, top, name)
    ensures LookupsAreExact(t, top, name)
  {
    hide Keyed, PlainTop;
    forall p, k | PipelinePath(top, p)
      ensures k in t && AtDepth(Join([name] + p), 1, k) <==> exists n :: IsChild(top, name, p, k, n)
    {
      LookupIsExact(t, top, name, p, k);
    }
  }

  // ----- the stages around a name

  /** The table entries of the first few parts of a name, shortest first. */
  function Enclosing(t: Table, parts: seq<string>, j: nat): seq<Stage>
    requires j <= |parts|
  {
    if j == 0 then []
    else
      var k := Join(parts[..j]);
      Enclosing(t, parts, j - 1) + if k in t then [t[k]] else []
  }

  function Reversed(s: seq<Stage>): seq<Stage> {
    if s == [] then [] else Reversed(s[1..]) + [s[0]]
  }

  lemma {:induction false} ReversedSnoc(s: seq<Stage>, x: Stage)
    ensures Reversed(s + [x]) == [x] + Reversed(s)
  {
    if s != [] {
      assert (s + [x])[1..] == s[1..] + [x];
      ReversedSnoc(s[1..], x);
    } else {
      assert s + [x] == [x];
    }
  }

  /** The environments of some stages merged in order. */
  function Merged(s: seq<Stage>): Env {
    if s == [] then map[] else Merged(s[..|s| - 1]) + s[|s| - 1].env
  }

  lemma MergedSnoc(s: seq<Stage>, more: seq<Stage>)
    requires |more| <= 1
    ensures Merged(s + more) == if more == [] then Merged(s) else Merged(s) + more[0].env
  {
    if more == [] {
      assert s + more == s;
    } else {
      assert (s + more)[..|s|] == s;
    }
  }

  lemma MergedNone()
    ensures forall s: seq<Stage> | s == [] :: Merged(s) == map[]
  {
  }

  lemma MergeAssociates(a: Env, b: Env, c: Env)
    ensures (a + b) + c == a + (b + c)
  {
  }

  /** The table still holds the clone that was flattened into it, with the environment it started with. */
  ghost predicate Untouched(t: Table, top: Graph, name: string, starts: Starts, path: seq<Name>)
    requires InTree(top, path)
  {
    var k := Join([name] + path);
    k in t && k in starts && t[k] == CloneAt(top, [name], path, starts[k])
  }

  lemma UntouchedEnv(t: Table, top: Graph, name: string, starts: Starts, path: seq<Name>)
    requires InTree(top, path) && Untouched(t, top, name, starts, path)
    ensures Join([name] + path) in t && t[Join([name] + path)].env == StartOf(starts, Join([name] + path))
  {
    CloneKeepsEnv(top, [name], path, starts[Join([name] + path)]);
  }

  lemma {:induction false} CloneKeepsEnv(g: Graph, anc: seq<string>, path: seq<Name>, env: Env)
    requires InTree(g, path)
    ensures CloneAt(g, anc, path, env).env == env
    decreases |path|
  {
    if |path| > 1 {
      CloneKeepsEnv(Under(g, path[0]), anc + [path[0]], path[1..], env);
    }
  }

  /**
    The first entries around a name are those of the pipelines it lies in, so their environments
    merge as they nest.
   */
  lemma {:induction false} EnclosingEnv(
    t: Table, top: Graph, name: string, starts: Starts, p: seq<Name>, n: Name, j: nat)
    requires PlainTop(top, name) && Keyed(t, top, name) && j <= |p|
    requires forall i | 0 < i <= |p| :: InTree(top, p[..i]) && Untouched(t, top, name, starts, p[..i])
    ensures Merged(Enclosing(t, [name] + p + [n], j + 1)) == OuterEnv(starts, name, p[..j])
    decreases j
  {
    hide PlainTop, Keyed, InTree, Untouched, CloneAt, Join, Merged, OuterEnv;
    var parts := [name] + p + [n];
    assert parts[..j + 1] == [name] + p[..j];
    if j == 0 {
      NoShortKey(t, top, name);
      FirstPart(t, parts);
      MergedNone();
      OuterOfNone(starts, name);
    } else {
      EnclosingEnv(t, top, name, starts, p, n, j - 1);
      UntouchedEnv(t, top, name, starts, p[..j]);
      MergedSnoc(Enclosing(t, parts, j), [t[Join(parts[..j + 1])]]);
      OuterOfMore(starts, name, p, j);
    }
  }

  lemma FirstPart(t: Table, parts: seq<string>)
    requires parts != [] && Join([parts[0]]) !in t
    ensures Enclosing(t, parts, 1) == []
  {
    assert parts[..1] == [parts[0]];
  }

  lemma OuterOfNone(starts: Starts, name: string)
    ensures forall p: seq<Name> | p == [] :: OuterEnv(starts, name, p) == map[]
  {
  }

  lemma OuterOfMore(starts: Starts, name: string, p: seq<Name>, j: nat)
    requires 0 < j <= |p|
    ensures OuterEnv(starts, name, p[..j]) ==
            OuterEnv(starts, name, p[..j - 1]) + StartOf(starts, Join([name] + p[..j]))
  {
    assert p[..j][..j - 1] == p[..j - 1];
  }

  lemma {:induction false} PathOfPrefix(top: Graph, p: seq<Name>, j: nat)
    requires PipelinePath(top, p) && j <= |p|
    ensures PipelinePath(top, p[..j])
    decreases |p|
  {
    if j > 0 {
      PathOfPrefix(Under(top, p[0]), p[1..], j - 1);
      assert p[..j][1..] == p[1..][..j - 1];
    }
  }

  lemma NoShortKey(t: Table, top: Graph, name: string)
    requires PlainTop(top, name) && Keyed(t, top, name)
    ensures Join([name]) !in t
  {
    if Join([name]) in t {
      var path :| InTree(top, path) && Join([name]) == Join([name] + path);
      KeyParts(top, name, path);
      SplitJoin([name]);
    }
  }

  /** A path to a nested pipeline is a path to the stage that runs it. */
  lemma {:induction false} PipelinePathInTree(top: Graph, p: seq<Name>)
    requires PipelinePath(top, p) && p != []
    ensures InTree(top, p)
    decreases |p|
  {
    if |p| > 1 {
      PipelinePathInTree(Under(top, p[0]), p[1..]);
    }
  }
}
