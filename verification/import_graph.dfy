/**
  Config sources and their imports, and what it means for a config to be the union of some
  of them.
 */
module ImportGraph {
  import opened Digraph

  type Source = string
  type Content = string

  datatype Kind = TaskKind | PipelineKind | ContextKind

  /** What a config defines: tasks, pipelines and contexts by name. */
  datatype Tables = Tables(tasks: map<string, Content>, pipelines: map<string, Content>, contexts: map<string, Content>)

  function Of(t: Tables, kind: Kind): map<string, Content> {
    match kind
    case TaskKind => t.tasks
    case PipelineKind => t.pipelines
    case ContextKind => t.contexts
  }

  /** An import: a URL or repository to fetch, or a path that may be a file or a directory. */
  datatype Target = Remote(source: Source) | Local(path: Source)

  datatype Definition = Definition(imports: seq<Target>, tables: Tables)

  /**
    Everything that can be fetched, the directories with the config files in them, and what exists
    but cannot be read.
   */
  datatype World = World(sources: map<Source, Definition>, dirs: map<Source, seq<Source>>, broken: set<Source>)

  ghost predicate Consistent(w: World) {
    w.sources.Keys !! w.dirs.Keys && w.sources.Keys !! w.broken && w.dirs.Keys !! w.broken
  }

  /** An import brings a source in: the one it names, or any config file of the directory it names. */
  ghost predicate Brings(w: World, target: Target, x: Source) {
    || (target.Remote? && x == target.source)
    || (target.Local? && target.path in w.dirs && x in w.dirs[target.path])
    || (target.Local? && target.path !in w.dirs && x == target.path)
  }

  /** The sources one import leads to, as a list. */
  function Expand(w: World, target: Target): seq<Source> {
    match target
    case Remote(s) => [s]
    case Local(p) => if p in w.dirs then w.dirs[p] else [p]
  }

  function ExpandAll(w: World, targets: seq<Target>): seq<Source> {
    if targets == [] then [] else ExpandAll(w, targets[..|targets| - 1]) + Expand(w, targets[|targets| - 1])
  }

  /** The import relation as successor lists. */
  function Imports(w: World): Adjacency {
    map s | s in w.sources :: ExpandAll(w, w.sources[s].imports)
  }

  lemma {:induction false} InExpandAll(w: World, targets: seq<Target>, x: Source)
    ensures x in ExpandAll(w, targets) <==> exists t :: t in targets && x in Expand(w, t)
  {
    if targets != [] {
      var k := |targets| - 1;
      InExpandAll(w, targets[..k], x);
      assert targets == targets[..k] + [targets[k]];
    }
  }

  lemma ExpandBrings(w: World, target: Target, x: Source)
    ensures x in Expand(w, target) <==> Brings(w, target, x)
  {
  }

  /** The import relation: a source that can be fetched leads to whatever one of its imports brings in. */
  lemma ImportEdges(w: World, s: Source, x: Source)
    ensures Edge(Imports(w), s, x) <==>
              s in w.sources && exists t :: t in w.sources[s].imports && Brings(w, t, x)
  {
    if s in w.sources {
      InExpandAll(w, w.sources[s].imports, x);
      forall t ensures x in Expand(w, t) <==> Brings(w, t, x) { ExpandBrings(w, t, x); }
    }
  }

  ghost predicate Defines(w: World, s: Source, kind: Kind, name: string) {
    s in w.sources && name in Of(w.sources[s].tables, kind)
  }

  ghost predicate SomeDefines(w: World, sources: set<Source>, kind: Kind, name: string) {
    exists s :: s in sources && Defines(w, s, kind, name)
  }

  /** Two sources define the same name of a kind. */
  ghost predicate ClashOf(w: World, a: Source, b: Source, kind: Kind, name: string) {
    a != b && Defines(w, a, kind, name) && Defines(w, b, kind, name)
  }

  /** The tables hold exactly what the sources define, and no two sources define the same. */
  ghost predicate IsUnion(w: World, sources: set<Source>, t: Tables) {
    && (forall kind, name :: name in Of(t, kind) <==> SomeDefines(w, sources, kind, name))
    && (forall s, kind, name | s in sources && Defines(w, s, kind, name) ::
          name in Of(t, kind) && Of(t, kind)[name] == Of(w.sources[s].tables, kind)[name])
    && (forall a, b, kind, name | a in sources && b in sources :: !ClashOf(w, a, b, kind, name))
  }

  /** The tables after a merge. */
  ghost predicate MergedInto(t: Tables, u: Tables, v: Tables) {
    forall kind :: Of(t, kind).Keys !! Of(u, kind).Keys && Of(v, kind) == Of(t, kind) + Of(u, kind)
  }

  lemma UnionOfOne(w: World, s: Source)
    requires s in w.sources
    ensures IsUnion(w, {s}, w.sources[s].tables)
  {
    forall kind, name ensures name in Of(w.sources[s].tables, kind) <==> SomeDefines(w, {s}, kind, name) {
      if name in Of(w.sources[s].tables, kind) {
        assert s in {s} && Defines(w, s, kind, name);
      }
    }
  }

  lemma UnionOfNone(w: World)
    ensures IsUnion(w, {}, Tables(map[], map[], map[]))
  {
  }

  lemma SomeDefinesEither(w: World, p: set<Source>, q: set<Source>, kind: Kind, name: string)
    ensures SomeDefines(w, p + q, kind, name) <==> SomeDefines(w, p, kind, name) || SomeDefines(w, q, kind, name)
  {
    if SomeDefines(w, p, kind, name) {
      var s :| s in p && Defines(w, s, kind, name);
      assert s in p + q;
    }
    if SomeDefines(w, q, kind, name) {
      var s :| s in q && Defines(w, s, kind, name);
      assert s in p + q;
    }
  }

  /** Merging two unions without an overlap gives the union over both sets of sources. */
  lemma UnionMerges(w: World, p: set<Source>, q: set<Source>, t: Tables, u: Tables, v: Tables)
    requires IsUnion(w, p, t) && IsUnion(w, q, u) && MergedInto(t, u, v)
    ensures IsUnion(w, p + q, v)
  {
    hide Of, Defines;
    forall kind, name ensures name in Of(v, kind) <==> SomeDefines(w, p + q, kind, name) {
      SomeDefinesEither(w, p, q, kind, name);
    }
    forall s, kind, name | s in p + q && Defines(w, s, kind, name)
      ensures name in Of(v, kind) && s in w.sources && name in Of(w.sources[s].tables, kind) &&
              Of(v, kind)[name] == Of(w.sources[s].tables, kind)[name]
    {
      DefinesHolds(w, s, kind, name);
      if s in p {
        assert name in Of(t, kind);
        assert name !in Of(u, kind);
      } else {
        assert name in Of(u, kind);
      }
    }
    forall a, b, kind, name | a in p + q && b in p + q ensures !ClashOf(w, a, b, kind, name) {
      assert Of(t, kind).Keys !! Of(u, kind).Keys;
    }
  }

  lemma DefinesHolds(w: World, s: Source, kind: Kind, name: string)
    requires Defines(w, s, kind, name)
    ensures s in w.sources && name in Of(w.sources[s].tables, kind)
  {
  }

  /** A name in two unions over disjoint sets of sources comes from two sources. */
  lemma OverlapIsClash(w: World, p: set<Source>, q: set<Source>, t: Tables, u: Tables, kind: Kind, name: string)
    returns (a: Source, b: Source)
    requires p !! q && IsUnion(w, p, t) && IsUnion(w, q, u) && name in Of(t, kind) && name in Of(u, kind)
    ensures a in p && b in q && ClashOf(w, a, b, kind, name)
  {
    a :| a in p && Defines(w, a, kind, name);
    b :| b in q && Defines(w, b, kind, name);
  }

  datatype LoadError =
    | StatFailed(path: Source)
    | FetchFailed(source: Source)
    | KeyClash(kind: Kind, name: string)

  ghost predicate ClashBelow(w: World, top: Source, a: Source, b: Source, kind: Kind, name: string) {
    Reaches(Imports(w), top, a) && Reaches(Imports(w), top, b) && ClashOf(w, a, b, kind, name)
  }

  /** What an error says is the case among the sources that a source leads to. */
  ghost predicate Explains(w: World, top: Source, e: LoadError) {
    match e
    case StatFailed(p) => Reaches(Imports(w), top, p) && p !in w.sources
    case FetchFailed(s) => Reaches(Imports(w), top, s) && s !in w.sources
    case KeyClash(kind, name) => exists a, b :: ClashBelow(w, top, a, b, kind, name)
  }

  lemma ExplainsAbove(w: World, top: Source, s: Source, e: LoadError)
    requires Reaches(Imports(w), top, s) && Explains(w, s, e)
    ensures Explains(w, top, e)
  {
    match e
    case StatFailed(p) => ReachesTrans(Imports(w), top, s, p);
    case FetchFailed(x) => ReachesTrans(Imports(w), top, s, x);
    case KeyClash(kind, name) =>
      var a, b :| ClashBelow(w, s, a, b, kind, name);
      ReachesTrans(Imports(w), top, s, a);
      ReachesTrans(Imports(w), top, s, b);
      assert ClashBelow(w, top, a, b, kind, name);
  }

  /** Everything a source leads to can be fetched, and defines each name of a kind once. */
  ghost predicate Loadable(w: World, top: Source) {
    && (forall s | Reaches(Imports(w), top, s) :: s in w.sources)
    && (forall a, b, kind, name :: !ClashBelow(w, top, a, b, kind, name))
  }

  lemma ExplainedIsNotLoadable(w: World, top: Source, e: LoadError)
    requires Explains(w, top, e)
    ensures !Loadable(w, top)
  {
  }

  /** The same config sources, with the imports of each listed in another order or repeated. */
  ghost predicate Reordered(w: World, w': World) {
    && w'.sources.Keys == w.sources.Keys && w'.dirs == w.dirs
    && forall s | s in w.sources ::
         && w'.sources[s].tables == w.sources[s].tables
         && forall t :: t in w.sources[s].imports <==> t in w'.sources[s].imports
  }

  lemma ReorderedEdges(w: World, w': World, a: Source, b: Source)
    requires Reordered(w, w')
    ensures Edge(Imports(w), a, b) <==> Edge(Imports(w'), a, b)
  {
    ImportEdges(w, a, b);
    ImportEdges(w', a, b);
    forall t ensures Brings(w, t, b) <==> Brings(w', t, b) {}
  }

  /** Whether a config can be loaded does not depend on the order of imports. */
  lemma OrderDoesNotMatter(w: World, w': World, top: Source)
    requires Reordered(w, w')
    ensures Loadable(w, top) <==> Loadable(w', top)
  {
    hide Expand, Imports, Reaches, Of, Edge;
    forall a, b ensures Edge(Imports(w), a, b) <==> Edge(Imports(w'), a, b) {
      ReorderedEdges(w, w', a, b);
    }
    forall s ensures Reaches(Imports(w), top, s) <==> Reaches(Imports(w'), top, s) {
      WalkMonotone(Imports(w), Imports(w'), top, s);
      WalkMonotone(Imports(w'), Imports(w), top, s);
    }
    forall a, b, kind, name ensures ClashBelow(w, top, a, b, kind, name) <==> ClashBelow(w', top, a, b, kind, name) {
    }
  }
}
