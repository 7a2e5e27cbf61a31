/**
  Loading a config with all its imports: every source is loaded once, and what it defines is
  merged into the config that imports it, down to the first name that is defined twice.
 */
module ImportLoader {
  import opened Digraph
  import opened ImportGraph

  datatype Result = Done | Failed(error: LoadError)

  /** The tables of a config, extended in place by merging. */
  class ConfigTables {
    var tasks: map<string, Content>
    var pipelines: map<string, Content>
    var contexts: map<string, Content>

    constructor (t: Tables)
      ensures Contents() == t
    {
      tasks, pipelines, contexts := t.tasks, t.pipelines, t.contexts;
    }

    function Contents(): Tables
      reads this
    {
      Tables(tasks, pipelines, contexts)
    }
  }

  datatype MergeResult = Merged | Clash(name: string)

  /** Add the entries of one kind one by one, up to the first name that is taken. */
  method MergeKind(base: map<string, Content>, imported: map<string, Content>)
    returns (r: MergeResult, merged: map<string, Content>)
    ensures r.Merged? ==> base.Keys !! imported.Keys && merged == base + imported
    ensures r.Clash? ==> r.name in base && r.name in imported
  {
    merged := base;
    var rest := imported.Keys;
    while rest != {}
      invariant rest <= imported.Keys && base.Keys !! (imported.Keys - rest)
      invariant merged.Keys == base.Keys + (imported.Keys - rest)
      invariant forall n | n in merged :: merged[n] == if n in base then base[n] else imported[n]
    {
      var name :| name in rest;
      if name in merged {
        return Clash(name), merged;
      }
      merged := merged[name := imported[name]];
      rest := rest - {name};
    }
    r := Merged;
  }

  /** Merge an imported config: tasks, then pipelines, then contexts. */
  method MergeExistingWithImported(base: ConfigTables, imported: ConfigTables) returns (r: Result)
    requires base != imported
    modifies base
    ensures r.Done? ==> MergedInto(old(base.Contents()), imported.Contents(), base.Contents())
    ensures r.Failed? ==>
              && r.error.KeyClash?
              && r.error.name in Of(old(base.Contents()), r.error.kind)
              && r.error.name in Of(imported.Contents(), r.error.kind)
  {
    var m, merged := MergeKind(base.tasks, imported.tasks);
    if m.Clash? {
      return Failed(KeyClash(TaskKind, m.name));
    }
    base.tasks := merged;
    m, merged := MergeKind(base.pipelines, imported.pipelines);
    if m.Clash? {
      return Failed(KeyClash(PipelineKind, m.name));
    }
    base.pipelines := merged;
    m, merged := MergeKind(base.contexts, imported.contexts);
    if m.Clash? {
      return Failed(KeyClash(ContextKind, m.name));
    }
    base.contexts := merged;
    r := Done;
  }

  /** The sources visited since then: all were fetched, lead only to visited ones, and are led to from one source. */
  ghost predicate Progress(w: World, from: Source, before: set<Source>, after: set<Source>) {
    && before <= after
    && forall s | s in after - before ::
         && s in w.sources && Reaches(Imports(w), from, s)
         && forall x | Edge(Imports(w), s, x) :: x in after
  }

  lemma ProgressTwice(w: World, from: Source, a: set<Source>, b: set<Source>, c: set<Source>)
    requires Progress(w, from, a, b) && Progress(w, from, b, c)
    ensures Progress(w, from, a, c) && c - a == (b - a) + (c - b)
  {
    hide Reaches;
  }

  lemma ProgressAbove(w: World, from: Source, s: Source, before: set<Source>, after: set<Source>)
    requires Edge(Imports(w), from, s) && Progress(w, s, before, after)
    ensures Progress(w, from, before, after)
  {
    EdgeFollows(Imports(w), from, s);
    forall x | x in after - before ensures Reaches(Imports(w), from, x) {
      ReachesTrans(Imports(w), from, s, x);
    }
  }

  lemma ProgressFrom(w: World, file: Source, before: set<Source>, after: set<Source>)
    requires file !in before && file in w.sources && Progress(w, file, before + {file}, after)
    requires forall x | Edge(Imports(w), file, x) :: x in after
    ensures Progress(w, file, before, after) && after - before == {file} + (after - (before + {file})) && file in after
  {
    ReachesRefl(Imports(w), file);
  }

  lemma NoProgress(w: World, file: Source, seen: set<Source>)
    ensures Progress(w, file, seen, seen) && seen - seen == {} && LeadsToAll(w, file, {})
  {
  }

  /** All of a set of sources are led to from one. */
  ghost predicate LeadsToAll(w: World, from: Source, sources: set<Source>) {
    forall s | s in sources :: Reaches(Imports(w), from, s)
  }

  lemma ClashExplains(w: World, from: Source, p: set<Source>, q: set<Source>, t: Tables, u: Tables, e: LoadError)
    requires p !! q && IsUnion(w, p, t) && IsUnion(w, q, u) && LeadsToAll(w, from, p) && LeadsToAll(w, from, q)
    requires e.KeyClash? && e.name in Of(t, e.kind) && e.name in Of(u, e.kind)
    ensures Explains(w, from, e)
  {
    var a, b := OverlapIsClash(w, p, q, t, u, e.kind, e.name);
    assert ClashBelow(w, from, a, b, e.kind, e.name);
  }

  /** All that the first few imports bring in was visited. */
  ghost predicate BroughtIn(w: World, targets: seq<Target>, k: int, seen: set<Source>)
    requires 0 <= k <= |targets|
  {
    forall i, x | 0 <= i < k && Brings(w, targets[i], x) :: x in seen
  }

  lemma AllBroughtIn(w: World, s: Source, seen: set<Source>)
    requires s in w.sources && BroughtIn(w, w.sources[s].imports, |w.sources[s].imports|, seen)
    ensures forall x | Edge(Imports(w), s, x) :: x in seen
  {
    forall x | Edge(Imports(w), s, x) ensures x in seen {
      ImportEdges(w, s, x);
      var t :| t in w.sources[s].imports && Brings(w, t, x);
      var i :| 0 <= i < |w.sources[s].imports| && w.sources[s].imports[i] == t;
    }
  }

  lemma BroughtIsEdge(w: World, s: Source, i: nat, x: Source)
    requires s in w.sources && i < |w.sources[s].imports| && Brings(w, w.sources[s].imports[i], x)
    ensures Edge(Imports(w), s, x)
  {
    ImportEdges(w, s, x);
  }

  /** How many sources are left to visit. */
  ghost function Left(w: World, seen: set<Source>): nat {
    |w.sources.Keys - seen|
  }

  lemma FewerLeft(w: World, before: set<Source>, after: set<Source>)
    requires before <= after
    ensures Left(w, after) <= Left(w, before)
  {
    SubsetAtMost(w.sources.Keys - after, w.sources.Keys - before);
  }

  lemma OneFewerLeft(w: World, seen: set<Source>, x: Source)
    requires x in w.sources && x !in seen
    ensures Left(w, seen + {x}) < Left(w, seen)
  {
    assert w.sources.Keys - (seen + {x}) < w.sources.Keys - seen;
    SubsetSize(w.sources.Keys - (seen + {x}), w.sources.Keys - seen);
  }

  class Loader {
    const world: World
    var imports: map<Source, bool>

    constructor (world: World)
      ensures this.world == world && Seen() == {}
    {
      this.world, imports := world, map[];
    }

    ghost function Seen(): set<Source>
      reads this
    {
      set x | x in imports && imports[x]
    }

    /** Everything visited so far could be fetched. */
    ghost predicate Valid()
      reads this
    {
      Consistent(world) && Seen() <= world.sources.Keys
    }

    predicate Visited(x: Source)
      reads this
    {
      x in imports && imports[x]
    }

    /** Fetch a source that was not visited before, with all its imports. */
    method Load(file: Source) returns (r: Result, config: ConfigTables)
      requires Valid() && file !in Seen()
      modifies this
      ensures fresh(config)
      ensures r.Done? ==>
                && Valid() && file in Seen() && Progress(world, file, old(Seen()), Seen())
                && IsUnion(world, Seen() - old(Seen()), config.Contents())
      ensures r.Failed? ==> Explains(world, file, r.error)
      decreases Left(world, Seen()), 0
    {
      hide IsUnion, Consistent, Explains, Imports, Progress, Reaches, Left;
      ghost var before := Seen();
      imports := imports[file := true];
      assert Seen() == before + {file};
      if file !in world.sources {
        config := new ConfigTables(Tables(map[], map[], map[]));
        FetchFails(world, file);
        return Failed(FetchFailed(file)), config;
      }
      OneFewerLeft(world, before, file);
      config := new ConfigTables(world.sources[file].tables);
      UnionOfOne(world, file);
      r := ParseImports(file, config);
      if r.Done? {
        ProgressFrom(world, file, before, Seen());
      }
    }

    /** Load a source that another one imports, and merge what it and its imports define. */
    method LoadAndMerge(ghost from: Source, base: ConfigTables, file: Source, ghost held: set<Source>)
      returns (r: Result)
      requires Valid() && file !in Seen() && Edge(Imports(world), from, file)
      requires held <= Seen() && LeadsToAll(world, from, held) && IsUnion(world, held, base.Contents())
      modifies this, base
      ensures r.Done? ==>
                && Valid() && file in Seen() && Progress(world, from, old(Seen()), Seen())
                && IsUnion(world, held + (Seen() - old(Seen())), base.Contents())
      ensures r.Failed? ==> Explains(world, from, r.error)
      decreases Left(world, Seen()), 1
    {
      hide IsUnion, Consistent, MergedInto, Explains, Imports, Reaches;
      ghost var before, t := Seen(), base.Contents();
      EdgeFollows(Imports(world), from, file);
      var imported;
      r, imported := Load(file);
      if r.Failed? {
        ExplainsAbove(world, from, file, r.error);
        return;
      }
      ghost var u, new_ := imported.Contents(), Seen() - before;
      ProgressAbove(world, from, file, before, Seen());
      r := MergeExistingWithImported(base, imported);
      if r.Failed? {
        ClashExplains(world, from, held, new_, t, u, r.error);
        return;
      }
      UnionMerges(world, held, new_, t, u, base.Contents());
    }

    /** The same, unless the source was visited before; own is what the config holds besides newly visited sources. */
    method LoadOnce(
      ghost from: Source, base: ConfigTables, file: Source, ghost own: set<Source>, ghost before: set<Source>)
      returns (r: Result)
      requires Valid() && Edge(Imports(world), from, file) && Progress(world, from, before, Seen())
      requires own <= before && LeadsToAll(world, from, own) && IsUnion(world, own + (Seen() - before), base.Contents())
      modifies this, base
      ensures r.Done? ==>
                && Valid() && file in Seen() && Progress(world, from, before, Seen()) && old(Seen()) <= Seen()
                && IsUnion(world, own + (Seen() - before), base.Contents())
      ensures r.Failed? ==> Explains(world, from, r.error)
      decreases Left(world, Seen()), 2
    {
      hide IsUnion, Explains, Imports, Consistent;
      if Visited(file) {
        return Done;
      }
      ghost var mid := Seen();
      r := LoadAndMerge(from, base, file, own + (mid - before));
      if r.Done? {
        ProgressTwice(world, from, before, mid, Seen());
        assert own + (Seen() - before) == own + (mid - before) + (Seen() - mid);
      }
    }

    /** Load every config file of a directory that was not visited yet. */
    method LoadDir(dir: Source, ghost from: Source) returns (r: Result, config: ConfigTables)
      requires Valid() && dir in world.dirs && forall x | x in world.dirs[dir] :: Edge(Imports(world), from, x)
      modifies this
      ensures fresh(config)
      ensures r.Done? ==>
                && Valid() && Progress(world, from, old(Seen()), Seen())
                && (forall x | x in world.dirs[dir] :: x in Seen())
                && IsUnion(world, Seen() - old(Seen()), config.Contents())
      ensures r.Failed? ==> Explains(world, from, r.error)
      decreases Left(world, Seen()), 3
    {
      hide IsUnion, Explains, Imports, Reaches, Progress, Consistent, Edge, LeadsToAll, Left;
      ghost var before := Seen();
      NoProgress(world, from, before);
      config := new ConfigTables(Tables(map[], map[], map[]));
      UnionOfNone(world);
      var files := world.dirs[dir];
      assert {} + (Seen() - before) == {};
      r := Done;
      for i := 0 to |files|
        invariant r.Done? && Valid() && fresh(config) && before <= Seen()
        invariant Progress(world, from, before, Seen())
        invariant forall j | 0 <= j < i :: files[j] in Seen()
        invariant IsUnion(world, {} + (Seen() - before), config.Contents())
      {
        FewerLeft(world, before, Seen());
        r := LoadOnce(from, config, files[i], {}, before);
        if r.Failed? {
          return;
        }
      }
      assert {} + (Seen() - before) == Seen() - before;
    }

    /** Load and merge the imports of a config one after the other. */
    method ParseImports(file: Source, base: ConfigTables) returns (r: Result)
      requires Valid() && file in Seen() && IsUnion(world, {file}, base.Contents())
      modifies this, base
      ensures r.Done? ==>
                && Valid() && Progress(world, file, old(Seen()), Seen())
                && (forall x | Edge(Imports(world), file, x) :: x in Seen())
                && IsUnion(world, {file} + (Seen() - old(Seen())), base.Contents())
      ensures r.Failed? ==> Explains(world, file, r.error)
      decreases Left(world, Seen()), 5
    {
      hide IsUnion, Explains, Reaches, Left, Brings, Imports;
      ghost var before := Seen();
      var targets := world.sources[file].imports;
      assert {file} + (Seen() - before) == {file};
      r := Done;
      for i := 0 to |targets|
        invariant r.Done? && Valid()
        invariant Progress(world, file, before, Seen())
        invariant BroughtIn(world, targets, i, Seen())
        invariant IsUnion(world, {file} + (Seen() - before), base.Contents())
      {
        FewerLeft(world, before, Seen());
        r := ParseImport(file, base, i, before);
        if r.Failed? {
          return;
        }
      }
      AllBroughtIn(world, file, Seen());
    }

    /** Load and merge one import: a remote source, the files of a directory, or a file. */
    method ParseImport(file: Source, base: ConfigTables, i: nat, ghost before: set<Source>) returns (r: Result)
      requires Valid() && file in before && file in world.sources && i < |world.sources[file].imports|
      requires Progress(world, file, before, Seen()) && IsUnion(world, {file} + (Seen() - before), base.Contents())
      modifies this, base
      ensures r.Done? ==>
                && Valid() && Progress(world, file, before, Seen()) && old(Seen()) <= Seen()
                && (forall x | Brings(world, world.sources[file].imports[i], x) :: x in Seen())
                && IsUnion(world, {file} + (Seen() - before), base.Contents())
      ensures r.Failed? ==> Explains(world, file, r.error)
      decreases Left(world, Seen()), 4
    {
      hide IsUnion, Explains, Imports, ExpandAll;
      ghost var held, mid := {file} + (Seen() - before), Seen();
      ReachesRefl(Imports(world), file);
      var target := world.sources[file].imports[i];
      forall x | Brings(world, target, x) ensures Edge(Imports(world), file, x) {
        BroughtIsEdge(world, file, i, x);
      }
      r := Done;
      match target
      case Remote(source) =>
        r := LoadOnce(file, base, source, {file}, before);
      case Local(path) =>
        if Visited(path) {
          return;
        }
        if path !in world.dirs && path !in world.sources && path !in world.broken {
          ImportFails(world, file, path);
          return Failed(StatFailed(path));
        }
        if path in world.dirs {
          var imported;
          r, imported := LoadDir(path, file);
          if r.Failed? {
            return;
          }
          ghost var t, u, new_ := base.Contents(), imported.Contents(), Seen() - mid;
          r := MergeExistingWithImported(base, imported);
          if r.Failed? {
            ClashExplains(world, file, held, new_, t, u, r.error);
            return;
          }
          UnionMerges(world, held, new_, t, u, base.Contents());
          ProgressTwice(world, file, before, mid, Seen());
          assert {file} + (Seen() - before) == held + (Seen() - mid);
        } else {
          r := LoadOnce(file, base, path, {file}, before);
        }
    }

    /** Load a source and everything it leads to, from the start. */
    method LoadAll(file: Source) returns (r: Result, config: ConfigTables)
      requires Consistent(world)
      modifies this
      ensures r.Done? <==> Loadable(world, file)
      ensures r.Failed? ==> Explains(world, file, r.error)
      ensures r.Done? ==> IsUnion(world, Seen(), config.Contents())
      ensures r.Done? ==> forall s :: s in Seen() <==> Reaches(Imports(world), file, s)
      ensures r.Done? ==> file in Seen() && Seen() <= world.sources.Keys
      ensures r.Done? ==> forall s, t | s in Seen() && t in world.sources[s].imports ::
                  match t
                  case Remote(x) => x in Seen()
                  case Local(p) => if p in world.dirs then forall x | x in world.dirs[p] :: x in Seen() else p in Seen()
      ensures r.Done? ==> forall x | x in Seen() && x != file ::
                  exists s, t :: s in Seen() && t in world.sources[s].imports && Brings(world, t, x)
    {
      hide Reaches, Edge, Imports, Brings, IsUnion, Progress;
      imports := map[];
      assert Seen() == {};
      r, config := Load(file);
      if r.Failed? {
        ExplainedIsNotLoadable(world, file, r.error);
      } else {
        assert Seen() - {} == Seen();
        AllReached(world, file, Seen(), config.Contents());
        ClosedByFields(world, file, Seen());
        LedTo(world, file, Seen());
      }
    }
  }

  lemma FetchFails(w: World, file: Source)
    requires file !in w.sources
    ensures Explains(w, file, FetchFailed(file))
  {
    ReachesRefl(Imports(w), file);
  }

  lemma ImportFails(w: World, file: Source, path: Source)
    requires Edge(Imports(w), file, path) && path !in w.sources
    ensures Explains(w, file, StatFailed(path))
  {
    EdgeFollows(Imports(w), file, path);
  }

  /** Closed under imports and all led to: exactly the sources that can be reached. */
  lemma AllReached(w: World, file: Source, seen: set<Source>, t: Tables)
    requires file in seen && Progress(w, file, {}, seen) && IsUnion(w, seen, t)
    ensures Loadable(w, file) && forall s :: s in seen <==> Reaches(Imports(w), file, s)
  {
    assert seen - {} == seen;
    assert ClosedUnder(Imports(w), seen);
    forall s | Reaches(Imports(w), file, s) ensures s in seen {
      ClosedHoldsReachable(Imports(w), seen, file, s);
    }
    forall a, b, kind, name ensures !ClashBelow(w, file, a, b, kind, name) {
      assert a in seen && b in seen ==> !ClashOf(w, a, b, kind, name);
    }
  }

  /** All that the visited sources import was visited, said of the imports themselves. */
  lemma ClosedByFields(w: World, file: Source, seen: set<Source>)
    requires seen <= w.sources.Keys && Progress(w, file, {}, seen)
    ensures forall s, t | s in seen && t in w.sources[s].imports ::
              match t
              case Remote(x) => x in seen
              case Local(p) => if p in w.dirs then forall x | x in w.dirs[p] :: x in seen else p in seen
  {
    hide Reaches;
    forall s, t, x | s in seen && t in w.sources[s].imports && Brings(w, t, x) ensures x in seen {
      assert s in seen - {};
      ImportEdges(w, s, x);
    }
  }

  lemma LastStop(adj: Adjacency, from: Source, x: Source) returns (s: Source)
    requires Reaches(adj, from, x) && x != from
    ensures Reaches(adj, from, s) && Edge(adj, s, x)
  {
    var p :| WalkFromTo(adj, p, from, x);
    s := p[|p| - 2];
    assert WalkFromTo(adj, p[..|p| - 1], from, s);
  }

  /** Every visited source but the first is brought in by an import of a visited one. */
  lemma LedTo(w: World, file: Source, seen: set<Source>)
    requires seen <= w.sources.Keys && forall s :: s in seen <==> Reaches(Imports(w), file, s)
    ensures forall x | x in seen && x != file ::
              exists s, t :: s in seen && t in w.sources[s].imports && Brings(w, t, x)
  {
    forall x | x in seen && x != file ensures exists s, t :: s in seen && t in w.sources[s].imports && Brings(w, t, x) {
      var s := LastStop(Imports(w), file, x);
      hide Reaches, Edge, Brings, Imports;
      ImportEdges(w, s, x);
      var t :| t in w.sources[s].imports && Brings(w, t, x);
    }
  }
}
