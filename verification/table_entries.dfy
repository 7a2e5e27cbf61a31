/**
  What flattening writes into the stage table, as a set of entries, and how the entries of a
  node are made up of those of the node itself, of its pipeline and of its children.
 */
module TableEntries {
  import opened Digraph
  import opened Stages
  import opened Paths
  import opened Unfolding
  import opened FlattenRuns

  type Table = map<string, Stage>
  type Entries = iset<(string, Stage)>

  ghost predicate ReachedFrom(g: Graph, starts: set<Name>, x: Name) {
    exists s :: s in starts && Reaches(g.children, s, x)
  }

  /** The clone at the end of a path, whatever environment it starts with. */
  ghost predicate IsClone(g: Graph, anc: seq<string>, path: seq<Name>, e: (string, Stage))
    requires InTree(g, path)
  {
    e == (Join(anc + path), CloneAt(g, anc, path, e.1.env))
  }

  ghost predicate IsEntry(
    g: Graph, anc: seq<string>, starts: set<Name>, path: seq<Name>, e: (string, Stage))
  {
    InTree(g, path) && ReachedFrom(g, starts, path[0]) && IsClone(g, anc, path, e)
  }

  ghost predicate HasEntry(g: Graph, anc: seq<string>, starts: set<Name>, e: (string, Stage)) {
    exists path :: IsEntry(g, anc, starts, path, e)
  }

  /** The stages on all paths that begin with a stage reached from the given ones. */
  ghost function EntriesFrom(g: Graph, anc: seq<string>, starts: set<Name>): Entries {
    iset e: (string, Stage) | HasEntry(g, anc, starts, e)
  }

  /** The new table is the old one with all the entries written over it. */
  ghost predicate Laid(old_: Table, new_: Table, entries: Entries) {
    && (forall k | k in new_ :: (k, new_[k]) in entries || (k in old_ && new_[k] == old_[k]))
    && (forall k | k in old_ :: k in new_)
    && (forall e | e in entries :: e.0 in new_ && (e.0, new_[e.0]) in entries)
  }

  lemma LaidNothing(t: Table)
    ensures Laid(t, t, iset{})
  {
  }

  lemma LaidOne(t: Table, k: string, v: Stage, entries: Entries)
    requires (k, v) in entries && forall e | e in entries :: e.0 == k
    ensures Laid(t, t[k := v], entries)
  {
  }

  lemma LaidTwice(a: Table, b: Table, c: Table, p: Entries, q: Entries)
    requires Laid(a, b, p) && Laid(b, c, q)
    ensures Laid(a, c, p + q)
  {
    forall e | e in p + q ensures e.0 in c && (e.0, c[e.0]) in p + q {
      if e in p {
        assert e.0 in b && (e.0, b[e.0]) in p;
      }
    }
  }

  lemma EntriesOfNone(g: Graph, anc: seq<string>)
    ensures EntriesFrom(g, anc, {}) == iset{}
  {
  }

  lemma EntriesOfUnion(g: Graph, anc: seq<string>, a: set<Name>, b: set<Name>)
    ensures EntriesFrom(g, anc, a + b) == EntriesFrom(g, anc, a) + EntriesFrom(g, anc, b)
  {
    forall x ensures ReachedFrom(g, a + b, x) <==> ReachedFrom(g, a, x) || ReachedFrom(g, b, x) {
      if s :| s in a && Reaches(g.children, s, x) { assert s in a + b; }
      if s :| s in b && Reaches(g.children, s, x) { assert s in a + b; }
    }
    forall e: (string, Stage)
      ensures e in EntriesFrom(g, anc, a + b) <==>
                e in EntriesFrom(g, anc, a) || e in EntriesFrom(g, anc, b)
    {
      if e in EntriesFrom(g, anc, a + b) {
        var path :| IsEntry(g, anc, a + b, path, e);
        assert IsEntry(g, anc, a, path, e) || IsEntry(g, anc, b, path, e);
      }
      if path :| IsEntry(g, anc, a, path, e) { assert IsEntry(g, anc, a + b, path, e); }
      if path :| IsEntry(g, anc, b, path, e) { assert IsEntry(g, anc, a + b, path, e); }
    }
  }

  lemma ReachedFromNode(g: Graph, n: Name, x: Name)
    ensures ReachedFrom(g, {n}, x) <==> n == x || ReachedFrom(g, ChildSet(g, n), x)
  {
    if ReachedFrom(g, {n}, x) && n != x {
      var p :| WalkFromTo(g.children, p, n, x);
      assert |p| > 1;
      var s := FollowsSplit(g.children, n, x);
      assert s in ChildSet(g, n);
    }
    if s :| s in ChildSet(g, n) && Reaches(g.children, s, x) {
      EdgeFollows(g.children, n, s);
      ReachesTrans(g.children, n, s, x);
      assert n in {n};
    }
    ReachesRefl(g.children, n);
  }

  /** The entries below the stage that runs a pipeline. */
  ghost function EntriesUnder(g: Graph, anc: seq<string>, n: Name): Entries {
    if RunsPipeline(g, n) then EntriesFrom(Under(g, n), anc + [n], Under(g, n).nodes.Keys) else iset{}
  }

  ghost predicate IsOwnEntry(g: Graph, anc: seq<string>, n: Name, e: (string, Stage))
    requires n in g.nodes
  {
    e == (CascadeName(anc, n), CloneOf(g, anc, n, e.1.env))
  }

  ghost function EntryOf(g: Graph, anc: seq<string>, n: Name): Entries
    requires n in g.nodes
  {
    if n == ROOT then iset{} else iset e: (string, Stage) | IsOwnEntry(g, anc, n, e)
  }

  lemma AllReached(g: Graph, x: Name)
    requires x in g.nodes
    ensures ReachedFrom(g, g.nodes.Keys, x)
  {
    ReachesRefl(g.children, x);
  }

  /** One step down a path. */
  lemma EntryBelow(g: Graph, anc: seq<string>, n: Name, rest: seq<Name>, e: (string, Stage))
    requires RunsPipeline(g, n)
    ensures IsEntry(Under(g, n), anc + [n], Under(g, n).nodes.Keys, rest, e) <==>
            InTree(g, [n] + rest) && rest != [] && IsClone(g, anc, [n] + rest, e)
  {
    var path := [n] + rest;
    assert path[1..] == rest;
    assert anc + [n] + rest == anc + path;
    if InTree(Under(g, n), rest) {
      AllReached(Under(g, n), rest[0]);
    }
  }

  lemma EntryHere(g: Graph, anc: seq<string>, n: Name)
    requires anc != [] && n in g.nodes && n != ROOT
    ensures InTree(g, [n]) && forall e :: IsClone(g, anc, [n], e) <==> IsOwnEntry(g, anc, n, e)
  {
    JoinSnoc(anc, n);
  }

  /** The entries of a node: its own, those of the pipeline it runs, and those of its children. */
  lemma EntriesOfNode(g: Graph, anc: seq<string>, n: Name)
    requires anc != [] && n in g.nodes
    ensures EntriesFrom(g, anc, {n}) ==
            EntryOf(g, anc, n) + EntriesUnder(g, anc, n) + EntriesFrom(g, anc, ChildSet(g, n))
  {
    var whole := EntriesFrom(g, anc, {n});
    var parts := EntryOf(g, anc, n) + EntriesUnder(g, anc, n) + EntriesFrom(g, anc, ChildSet(g, n));
    forall e: (string, Stage) | e in whole ensures e in parts {
      var path :| IsEntry(g, anc, {n}, path, e);
      EntryInParts(g, anc, n, path, e);
    }
    forall e: (string, Stage) | e in parts ensures e in whole {
      PartInEntries(g, anc, n, e);
    }
  }

  lemma EntryInParts(g: Graph, anc: seq<string>, n: Name, path: seq<Name>, e: (string, Stage))
    requires anc != [] && n in g.nodes && IsEntry(g, anc, {n}, path, e)
    ensures e in EntryOf(g, anc, n) + EntriesUnder(g, anc, n) + EntriesFrom(g, anc, ChildSet(g, n))
  {
    ReachedFromNode(g, n, path[0]);
    if ReachedFrom(g, ChildSet(g, n), path[0]) {
      assert IsEntry(g, anc, ChildSet(g, n), path, e);
    } else if |path| == 1 {
      assert path == [n];
      EntryHere(g, anc, n);
    } else {
      assert path == [n] + path[1..];
      EntryBelow(g, anc, n, path[1..], e);
    }
  }

  lemma PartInEntries(g: Graph, anc: seq<string>, n: Name, e: (string, Stage))
    requires anc != [] && n in g.nodes
    requires e in EntryOf(g, anc, n) + EntriesUnder(g, anc, n) + EntriesFrom(g, anc, ChildSet(g, n))
    ensures e in EntriesFrom(g, anc, {n})
  {
    ReachedFromNode(g, n, n);
    if e in EntryOf(g, anc, n) {
      EntryHere(g, anc, n);
      assert IsEntry(g, anc, {n}, [n], e);
    } else if e in EntriesUnder(g, anc, n) {
      var rest :| IsEntry(Under(g, n), anc + [n], Under(g, n).nodes.Keys, rest, e);
      EntryBelow(g, anc, n, rest, e);
      assert IsEntry(g, anc, {n}, [n] + rest, e);
    } else {
      var path :| IsEntry(g, anc, ChildSet(g, n), path, e);
      ReachedFromNode(g, n, path[0]);
      assert IsEntry(g, anc, {n}, path, e);
    }
  }
}
