/**
  Choosing the source files to copy out of a repository tree: a bounded selection that
  rejects the whole tree for one bad entry, whatever the order of the entries.
 */
module TreeValidation {

  const MAX_TREE_ENTRIES := 384
  const MAX_GO_FILES := 160
  const MAX_FILE_BYTES := 131072
  const MAX_TOTAL_BYTES := 1048576

  datatype Size = NoSize | Bytes(count: int)

  /** A tree entry; whether its path is safe to use and its identity well formed is recorded as flags. */
  datatype Entry = Entry(
    path: string, safePath: bool, mode: string, kind: string, sha: string, fullSha: bool, size: Size)

  datatype Tree = Tree(truncated: bool, entries: seq<Entry>)

  predicate IsDirectory(e: Entry) {
    e.kind == "tree" && e.mode == "040000"
  }

  predicate HasSuffix(s: string, suffix: string) {
    |s| >= |suffix| && s[|s| - |suffix|..] == suffix
  }

  /** The files that are copied: plain, not executable, and named as Go source. */
  predicate Eligible(e: Entry) {
    e.kind == "blob" && e.mode == "100644" && HasSuffix(e.path, ".go")
  }

  /** A Go source file that is not executable. */
  ghost predicate IsSource(e: Entry) {
    e.kind == "blob" && e.mode == "100644" && exists stem :: e.path == stem + ".go"
  }

  lemma HasSuffixIs(s: string, suffix: string)
    ensures HasSuffix(s, suffix) <==> exists stem :: s == stem + suffix
  {
    if HasSuffix(s, suffix) {
      assert s == s[..|s| - |suffix|] + suffix;
    }
  }

  lemma EligibleIs(e: Entry)
    ensures Eligible(e) <==> IsSource(e)
  {
    HasSuffixIs(e.path, ".go");
  }

  predicate SizeFits(e: Entry) {
    e.size.Bytes? && 0 <= e.size.count <= MAX_FILE_BYTES
  }

  /** An entry that does not spoil the tree. */
  predicate Harmless(e: Entry) {
    && e.safePath && e.fullSha
    && (IsDirectory(e) || (e.kind == "blob" && (e.mode == "100644" || e.mode == "100755")))
    && (Eligible(e) ==> SizeFits(e))
  }

  function Selection(entries: seq<Entry>): seq<Entry> {
    if entries == [] then []
    else
      var last := entries[|entries| - 1];
      Selection(entries[..|entries| - 1]) + if Eligible(last) then [last] else []
  }

  function Total(files: seq<Entry>): int {
    if files == [] then 0
    else
      var last := files[|files| - 1];
      Total(files[..|files| - 1]) + if last.size.Bytes? then last.size.count else 0
  }

  ghost predicate DistinctPaths(entries: seq<Entry>) {
    forall i, j | 0 <= i < j < |entries| :: entries[i].path != entries[j].path
  }

  /** The trees that source is taken from. */
  ghost predicate Acceptable(tree: Tree) {
    && !tree.truncated && 1 <= |tree.entries| <= MAX_TREE_ENTRIES
    && (forall e | e in tree.entries :: Harmless(e))
    && DistinctPaths(tree.entries)
    && 1 <= |Selection(tree.entries)| <= MAX_GO_FILES
    && Total(Selection(tree.entries)) <= MAX_TOTAL_BYTES
  }

  // ----- the order of paths

  predicate Less(a: string, b: string) {
    b != "" && (a == "" || a[0] < b[0] || (a[0] == b[0] && Less(a[1..], b[1..])))
  }

  lemma {:induction false} LessIsTotal(a: string, b: string)
    ensures a != b <==> Less(a, b) || Less(b, a)
    ensures !(Less(a, b) && Less(b, a))
  {
    if a != "" && b != "" && a[0] == b[0] {
      LessIsTotal(a[1..], b[1..]);
      assert a == [a[0]] + a[1..] && b == [b[0]] + b[1..];
    }
  }

  lemma {:induction false} LessIsTransitive(a: string, b: string, c: string)
    requires Less(a, b) && Less(b, c)
    ensures Less(a, c)
  {
    if a != "" && a[0] == b[0] && b[0] == c[0] {
      LessIsTransitive(a[1..], b[1..], c[1..]);
    }
  }

  /** Where two paths differ first, the one that ends there or has the smaller character comes first. */
  ghost predicate BeforeAt(a: string, b: string, k: int) {
    && 0 <= k <= |a| && k < |b| && a[..k] == b[..k]
    && (k == |a| || a[k] < b[k])
  }

  ghost predicate Before(a: string, b: string) {
    exists k :: BeforeAt(a, b, k)
  }

  lemma SameHead(a: string, b: string, k: nat)
    requires 0 < k && BeforeAt(a, b, k)
    ensures a[0] == b[0]
  {
    assert a[..k][0] == a[0] && b[..k][0] == b[0];
  }

  lemma {:induction false} LessIs(a: string, b: string)
    ensures Less(a, b) <==> Before(a, b)
  {
    if a == "" || b == "" || a[0] != b[0] {
      if k :| BeforeAt(a, b, k) {
        if k > 0 {
          SameHead(a, b, k);
        }
      }
      if Less(a, b) {
        assert a[..0] == b[..0];
        assert BeforeAt(a, b, 0);
      }
    } else {
      LessIs(a[1..], b[1..]);
      if k :| BeforeAt(a, b, k) {
        assert a[1..][..k - 1] == a[..k][1..] == b[..k][1..] == b[1..][..k - 1];
        assert BeforeAt(a[1..], b[1..], k - 1);
      }
      if k :| BeforeAt(a[1..], b[1..], k) {
        assert a[..k + 1] == [a[0]] + a[1..][..k] && b[..k + 1] == [b[0]] + b[1..][..k];
        assert BeforeAt(a, b, k + 1);
      }
    }
  }

  ghost predicate Ascending(files: seq<Entry>) {
    forall i, j | 0 <= i < j < |files| :: Less(files[i].path, files[j].path)
  }

  /** The same of a whole list. */
  ghost predicate InPathOrder(files: seq<Entry>) {
    forall i, j | 0 <= i < j < |files| :: Before(files[i].path, files[j].path)
  }

  lemma AscendingIs(files: seq<Entry>)
    ensures Ascending(files) <==> InPathOrder(files)
  {
    forall i, j | 0 <= i < j < |files|
      ensures Less(files[i].path, files[j].path) <==> Before(files[i].path, files[j].path)
    {
      LessIs(files[i].path, files[j].path);
    }
    hide Less, Before;
  }

  function Insert(e: Entry, files: seq<Entry>): seq<Entry> {
    if files == [] || Less(e.path, files[0].path) then [e] + files
    else [files[0]] + Insert(e, files[1..])
  }

  function Sort(files: seq<Entry>): seq<Entry> {
    if files == [] then [] else Insert(files[0], Sort(files[1..]))
  }

  lemma {:induction false} InsertKeeps(e: Entry, files: seq<Entry>)
    requires Ascending(files) && forall f | f in files :: f.path != e.path
    ensures Ascending(Insert(e, files)) && multiset(Insert(e, files)) == multiset(files) + multiset{e}
  {
    hide Less;
    if files == [] {
    } else if Less(e.path, files[0].path) {
      forall i | 0 < i < |files| ensures Less(e.path, files[i].path) {
        LessIsTransitive(e.path, files[0].path, files[i].path);
      }
      assert multiset([e] + files) == multiset{e} + multiset(files);
    } else {
      LessIsTotal(e.path, files[0].path);
      InsertKeeps(e, files[1..]);
      assert files == [files[0]] + files[1..];
      AfterHead(files[0], e, files[1..], Insert(e, files[1..]));
    }
  }

  lemma AfterHead(head: Entry, e: Entry, files: seq<Entry>, rest: seq<Entry>)
    requires multiset(rest) == multiset(files) + multiset{e} && Ascending(rest)
    requires Less(head.path, e.path) && forall f | f in files :: Less(head.path, f.path)
    ensures Ascending([head] + rest)
  {
    hide Less;
    forall i | 0 <= i < |rest| ensures Less(head.path, rest[i].path) {
      assert rest[i] in multiset(rest);
      assert rest[i] == e || rest[i] in multiset(files);
    }
  }

  /** Sorting puts files with different paths into ascending order, and keeps all of them. */
  lemma {:induction false} SortSorts(files: seq<Entry>)
    requires DistinctPaths(files)
    ensures Ascending(Sort(files)) && multiset(Sort(files)) == multiset(files)
  {
    if files != [] {
      var rest := files[1..];
      assert files == [files[0]] + rest;
      SortSorts(rest);
      forall f | f in Sort(rest) ensures f.path != files[0].path {
        assert f in multiset(Sort(rest));
        assert f in multiset(rest);
        var i :| 0 <= i < |rest| && rest[i] == f;
        assert files[i + 1] == f;
      }
      InsertKeeps(files[0], Sort(rest));
    }
  }

  /** Two ascending lists of the same files are the same list. */
  lemma {:induction false} AscendingIsUnique(a: seq<Entry>, b: seq<Entry>)
    requires Ascending(a) && Ascending(b) && multiset(a) == multiset(b)
    ensures a == b
  {
    SameLength(a, b);
    if a != [] {
      SameFirst(a, b);
      assert a == [a[0]] + a[1..] && b == [b[0]] + b[1..];
      assert multiset(a[1..]) == multiset(a) - multiset{a[0]};
      assert multiset(b[1..]) == multiset(b) - multiset{b[0]};
      AscendingIsUnique(a[1..], b[1..]);
    }
  }

  lemma SameFirst(a: seq<Entry>, b: seq<Entry>)
    requires Ascending(a) && Ascending(b) && multiset(a) == multiset(b) && a != [] && b != []
    ensures a[0] == b[0]
  {
    assert a[0] in multiset(b) && b[0] in multiset(a);
    var i :| 0 <= i < |b| && b[i] == a[0];
    var j :| 0 <= j < |a| && a[j] == b[0];
    LessIsTotal(a[0].path, b[0].path);
  }

  lemma SameLength<T>(a: seq<T>, b: seq<T>)
    requires multiset(a) == multiset(b)
    ensures |a| == |b|
  {
    assert |multiset(a)| == |multiset(b)|;
  }

  // ----- the selection, against the entries it is taken from

  lemma {:induction false} SelectionHas(entries: seq<Entry>, e: Entry)
    ensures multiset(Selection(entries))[e] == if Eligible(e) then multiset(entries)[e] else 0
  {
    if entries != [] {
      var k := |entries| - 1;
      SelectionHas(entries[..k], e);
      assert entries == entries[..k] + [entries[k]];
    }
  }

  lemma {:induction false} TotalSplits(a: seq<Entry>, b: seq<Entry>)
    ensures Total(a + b) == Total(a) + Total(b)
  {
    if b == [] {
      assert a + b == a;
    } else {
      assert (a + b)[..|a + b| - 1] == a + b[..|b| - 1];
      TotalSplits(a, b[..|b| - 1]);
    }
  }

  lemma {:induction false} SelectionSplits(a: seq<Entry>, b: seq<Entry>)
    ensures Selection(a + b) == Selection(a) + Selection(b)
  {
    if b == [] {
      assert a + b == a;
    } else {
      assert (a + b)[..|a + b| - 1] == a + b[..|b| - 1];
      SelectionSplits(a, b[..|b| - 1]);
    }
  }

  lemma {:induction false} TotalIsPositive(files: seq<Entry>)
    requires forall f | f in files :: SizeFits(f)
    ensures 0 <= Total(files) <= |files| * MAX_FILE_BYTES
  {
    if files != [] {
      var last := files[|files| - 1];
      assert last in files && SizeFits(last);
      TotalIsPositive(files[..|files| - 1]);
    }
  }

  lemma EligibleAreFitting(entries: seq<Entry>)
    requires forall e | e in entries :: Harmless(e)
    ensures forall f | f in Selection(entries) :: f in entries && SizeFits(f)
  {
    forall f | f in Selection(entries) ensures f in entries && SizeFits(f) {
      SelectionHas(entries, f);
      assert f in multiset(Selection(entries)) && f in multiset(entries);
    }
  }

  /** Within an acceptable tree the first entries stay within the bounds. */
  lemma PrefixFits(tree: Tree, k: nat)
    requires Acceptable(tree) && k <= |tree.entries|
    ensures |Selection(tree.entries[..k])| <= MAX_GO_FILES && Total(Selection(tree.entries[..k])) <= MAX_TOTAL_BYTES
  {
    var a, b := tree.entries[..k], tree.entries[k..];
    assert tree.entries == a + b;
    SelectionSplits(a, b);
    TotalSplits(Selection(a), Selection(b));
    EligibleAreFitting(b);
    TotalIsPositive(Selection(b));
  }

  /** A list of exactly the source files among some entries, in any order. */
  ghost predicate AllSources(entries: seq<Entry>, files: seq<Entry>) {
    forall e :: multiset(files)[e] == if IsSource(e) then multiset(entries)[e] else 0
  }

  lemma SelectionIsAll(entries: seq<Entry>, files: seq<Entry>)
    ensures AllSources(entries, files) <==> multiset(files) == multiset(Selection(entries))
  {
    hide IsSource;
    forall e ensures multiset(Selection(entries))[e] == if IsSource(e) then multiset(entries)[e] else 0 {
      SelectionHas(entries, e);
      EligibleIs(e);
    }
    if AllSources(entries, files) {
      assert forall e :: multiset(files)[e] == multiset(Selection(entries))[e];
    }
  }

  /** Nothing about an entry is out of order. */
  ghost predicate InOrder(e: Entry) {
    && e.safePath && e.fullSha
    && ((e.kind == "tree" && e.mode == "040000")
        || (e.kind == "blob" && (e.mode == "100644" || e.mode == "100755")))
  }

  /** A tree with these source files stays within the limits. */
  ghost predicate Fits(tree: Tree, files: seq<Entry>) {
    && !tree.truncated && 1 <= |tree.entries| <= 384
    && (forall e | e in tree.entries :: InOrder(e)) && DistinctPaths(tree.entries)
    && (forall e | e in files :: e.size.Bytes? && 0 <= e.size.count <= 128 * 1024)
    && 1 <= |files| <= 160 && Total(files) <= 1024 * 1024
  }

  /** The trees that are accepted are those within the limits. */
  lemma AcceptableIs(tree: Tree, files: seq<Entry>)
    requires AllSources(tree.entries, files)
    ensures Acceptable(tree) <==> Fits(tree, files)
  {
    SelectionIsAll(tree.entries, files);
    SameLength(files, Selection(tree.entries));
    TotalOfPermuted(files, Selection(tree.entries));
    forall e ensures e in files <==> e in tree.entries && IsSource(e) {
      assert multiset(files)[e] == if IsSource(e) then multiset(tree.entries)[e] else 0;
      assert e in files <==> e in multiset(files);
      assert e in tree.entries <==> e in multiset(tree.entries);
    }
    forall e ensures Harmless(e) <==> InOrder(e) && (IsSource(e) ==> SizeFits(e)) { EligibleIs(e); }
    hide AllSources, IsSource, Harmless, InOrder, Total, Selection, DistinctPaths;
  }

  datatype Validation = Valid(selected: seq<Entry>, total: int) | Invalid

  /** Whether an entry is selected; Invalid paths, identities, types and modes reject the tree. */
  datatype Class = Chosen | Passed | Rejected

  /** Judge one entry against the paths seen so far, and mark its path. */
  method ClassifyTreeEntry(e: Entry, seen: set<string>) returns (c: Class, seen': set<string>)
    ensures seen' == seen || seen' == seen + {e.path}
    ensures c.Rejected? <==> !Harmless(e.(size := Bytes(0))) || e.path in seen
    ensures !c.Rejected? ==> seen' == seen + {e.path} && (c.Chosen? <==> Eligible(e))
  {
    seen' := seen;
    if !e.safePath {
      return Rejected, seen';
    }
    if e.path in seen {
      return Rejected, seen';
    }
    seen' := seen + {e.path};
    if !e.fullSha {
      return Rejected, seen';
    }
    if e.kind == "tree" && e.mode == "040000" {
      return Passed, seen';
    }
    if e.kind != "blob" || (e.mode != "100644" && e.mode != "100755") {
      return Rejected, seen';
    }
    c := if e.mode == "100644" && HasSuffix(e.path, ".go") then Chosen else Passed;
  }

  /** The state of the walk over the entries. */
  ghost predicate Walked(done: seq<Entry>, seen: set<string>, selected: seq<Entry>, total: int) {
    && (forall e | e in done :: Harmless(e)) && DistinctPaths(done)
    && seen == (set e | e in done :: e.path)
    && selected == Selection(done) && total == Total(selected)
    && |selected| <= MAX_GO_FILES && total <= MAX_TOTAL_BYTES
  }

  /** What the accepted entries come to with one more. */
  function Extended(selected: seq<Entry>, e: Entry): seq<Entry> {
    if Eligible(e) then selected + [e] else selected
  }

  predicate WithinBounds(selected: seq<Entry>) {
    |selected| <= MAX_GO_FILES && Total(selected) <= MAX_TOTAL_BYTES
  }

  lemma WalkStep(tree: Tree, k: nat, seen: set<string>, selected: seq<Entry>, total: int)
    requires k < |tree.entries| && Walked(tree.entries[..k], seen, selected, total)
    requires Harmless(tree.entries[k]) && tree.entries[k].path !in seen
    requires WithinBounds(Extended(selected, tree.entries[k]))
    ensures var e, more := tree.entries[k], Extended(selected, tree.entries[k]);
            Walked(tree.entries[..k + 1], seen + {e.path}, more, Total(more))
  {
    hide Harmless, Total;
    var e, done := tree.entries[k], tree.entries[..k];
    assert tree.entries[..k + 1] == done + [e];
    assert (done + [e])[..k] == done;
    forall i | 0 <= i < k ensures done[i].path != e.path {
      assert done[i] in done;
    }
  }

  lemma WalkStops(tree: Tree, k: nat, seen: set<string>, selected: seq<Entry>, total: int)
    requires k < |tree.entries| && Walked(tree.entries[..k], seen, selected, total)
    requires var e := tree.entries[k]; !Harmless(e) || e.path in seen || !WithinBounds(Extended(selected, e))
    ensures !Acceptable(tree)
  {
    hide Harmless, Total, Selection;
    var e, done := tree.entries[k], tree.entries[..k];
    SelectionStep(tree.entries, k);
    if e.path in seen {
      var i :| 0 <= i < k && done[i].path == e.path;
      assert tree.entries[i].path == e.path;
    }
    if Acceptable(tree) {
      PrefixFits(tree, k + 1);
    }
  }

  lemma SelectionStep(entries: seq<Entry>, k: nat)
    requires k < |entries|
    ensures Selection(entries[..k + 1]) == Extended(Selection(entries[..k]), entries[k])
  {
    assert entries[..k + 1][..k] == entries[..k];
  }

  lemma WalkEnds(tree: Tree, seen: set<string>, selected: seq<Entry>, total: int)
    requires !tree.truncated && 1 <= |tree.entries| <= MAX_TREE_ENTRIES
    requires Walked(tree.entries, seen, selected, total)
    ensures Acceptable(tree) <==> selected != []
    ensures Ascending(Sort(selected)) && multiset(Sort(selected)) == multiset(selected)
  {
    SelectionDistinct(tree.entries);
    SortSorts(selected);
  }

  lemma {:induction false} SelectionDistinct(entries: seq<Entry>)
    requires DistinctPaths(entries)
    ensures DistinctPaths(Selection(entries))
    ensures forall f | f in Selection(entries) :: f in entries
  {
    if entries != [] {
      var k := |entries| - 1;
      SelectionDistinct(entries[..k]);
      LastIsApart(entries, Selection(entries[..k]));
      hide Eligible, DistinctPaths;
    }
  }

  lemma LastIsApart(entries: seq<Entry>, files: seq<Entry>)
    requires entries != [] && DistinctPaths(entries) && DistinctPaths(files)
    requires forall f | f in files :: f in entries[..|entries| - 1]
    ensures DistinctPaths(files + [entries[|entries| - 1]])
  {
    var k := |entries| - 1;
    forall f | f in files ensures f.path != entries[k].path {
      var i :| 0 <= i < k && entries[..k][i] == f;
      assert entries[i] == f;
    }
  }

  /** Select and account the source files of a tree, or reject the tree. */
  method ValidateTree(tree: Tree) returns (r: Validation)
    ensures r.Valid? <==> Acceptable(tree)
    ensures r.Valid? ==>
              && Ascending(r.selected) && multiset(r.selected) == multiset(Selection(tree.entries))
              && r.total == Total(Selection(tree.entries))
    ensures r.Valid? ==>
              && Fits(tree, r.selected) && AllSources(tree.entries, r.selected) && InPathOrder(r.selected)
              && r.total == Total(r.selected)
  {
    hide Fits, AllSources, InPathOrder;
    if tree.truncated {
      return Invalid;
    }
    if |tree.entries| == 0 || |tree.entries| > MAX_TREE_ENTRIES {
      return Invalid;
    }
    var seen: set<string>, selected: seq<Entry>, total := {}, [], 0;
    for k := 0 to |tree.entries|
      invariant Walked(tree.entries[..k], seen, selected, total)
    {
      hide Walked, Acceptable, Total;
      var e := tree.entries[k];
      TotalIs(tree.entries[..k], seen, selected, total);
      if Harmless(e) && e.path !in seen && WithinBounds(Extended(selected, e)) {
        WalkStep(tree, k, seen, selected, total);
      } else {
        WalkStops(tree, k, seen, selected, total);
      }
      var c, seen' := ClassifyTreeEntry(e, seen);
      if c.Rejected? {
        return Invalid;
      }
      seen := seen';
      if c.Chosen? {
        if e.size.NoSize? || e.size.count < 0 || e.size.count > MAX_FILE_BYTES {
          return Invalid;
        }
        TotalOfOne(selected, e);
        total := total + e.size.count;
        if total > MAX_TOTAL_BYTES || |selected| + 1 > MAX_GO_FILES {
          return Invalid;
        }
        selected := selected + [e];
      }
    }
    assert tree.entries[..|tree.entries|] == tree.entries;
    WalkEnds(tree, seen, selected, total);
    if |selected| == 0 {
      return Invalid;
    }
    ValidResult(tree, selected, Sort(selected));
    return Valid(Sort(selected), total);
  }

  lemma ValidResult(tree: Tree, selected: seq<Entry>, sorted: seq<Entry>)
    requires selected == Selection(tree.entries) && Ascending(sorted) && multiset(sorted) == multiset(selected)
    requires Acceptable(tree)
    ensures Fits(tree, sorted) && AllSources(tree.entries, sorted) && InPathOrder(sorted)
    ensures Total(sorted) == Total(selected)
  {
    hide AllSources, Fits, Acceptable, InPathOrder, Ascending, Selection;
    SelectionIsAll(tree.entries, sorted);
    TotalOfPermuted(sorted, selected);
    AscendingIs(sorted);
    AcceptableIs(tree, sorted);
  }

  lemma TotalIs(done: seq<Entry>, seen: set<string>, selected: seq<Entry>, total: int)
    requires Walked(done, seen, selected, total)
    ensures total == Total(selected) && WithinBounds(selected)
  {
  }

  lemma TotalOfOne(files: seq<Entry>, e: Entry)
    requires e.size.Bytes?
    ensures Total(files + [e]) == Total(files) + e.size.count
  {
    assert (files + [e])[..|files|] == files;
  }

  // ----- the order of entries does not matter

  lemma WithoutOne<T>(s: seq<T>, i: nat)
    requires i < |s|
    ensures multiset(s[..i] + s[i + 1..]) == multiset(s) - multiset{s[i]}
  {
    assert s == s[..i] + [s[i]] + s[i + 1..];
  }

  lemma {:induction false} TotalOfPermuted(a: seq<Entry>, b: seq<Entry>)
    requires multiset(a) == multiset(b)
    ensures Total(a) == Total(b)
  {
    SameLength(a, b);
    if a != [] {
      var k := |a| - 1;
      assert a == a[..k] + [a[k]];
      assert a[k] in multiset(b);
      var i :| 0 <= i < |b| && b[i] == a[k];
      assert b == b[..i] + [b[i]] + b[i + 1..];
      WithoutOne(a, k);
      WithoutOne(b, i);
      assert a[..k] + a[k + 1..] == a[..k];
      TotalOfPermuted(a[..k], b[..i] + b[i + 1..]);
      TotalSplits(b[..i], b[i + 1..]);
      TotalSplits(b[..i], [b[i]]);
      TotalSplits(b[..i] + [b[i]], b[i + 1..]);
      TotalSplits(a[..k], [a[k]]);
    }
  }

  ghost predicate PathOccursOnce(entries: seq<Entry>, e: Entry) {
    forall f | f in entries && f.path == e.path :: f == e
  }

  lemma CountsOnce(entries: seq<Entry>, i: nat)
    requires i < |entries| && forall j | 0 <= j < |entries| && j != i :: entries[j] != entries[i]
    ensures multiset(entries)[entries[i]] == 1
  {
    var e := entries[i];
    assert entries == entries[..i] + [e] + entries[i + 1..];
    assert e !in entries[..i] && e !in entries[i + 1..];
  }

  lemma CountsTwice(entries: seq<Entry>, i: nat, j: nat)
    requires i < j < |entries| && entries[i] == entries[j]
    ensures multiset(entries)[entries[i]] >= 2
  {
    assert entries == entries[..i] + [entries[i]] + entries[i + 1..];
    assert entries[j] == entries[i + 1..][j - i - 1];
    assert entries[i] in multiset(entries[i + 1..]);
  }

  lemma DistinctByCounting(entries: seq<Entry>)
    ensures DistinctPaths(entries) <==>
              forall e | e in multiset(entries) :: multiset(entries)[e] == 1 && PathOccursOnce(entries, e)
  {
    if DistinctPaths(entries) {
      forall e | e in multiset(entries) ensures multiset(entries)[e] == 1 && PathOccursOnce(entries, e) {
        var i :| 0 <= i < |entries| && entries[i] == e;
        CountsOnce(entries, i);
      }
    } else {
      var i, j :| 0 <= i < j < |entries| && entries[i].path == entries[j].path;
      assert entries[i] in multiset(entries) && entries[j] in entries;
      if entries[i] == entries[j] {
        CountsTwice(entries, i, j);
      }
    }
  }

  lemma DistinctPermuted(a: seq<Entry>, b: seq<Entry>)
    requires multiset(a) == multiset(b) && DistinctPaths(a)
    ensures DistinctPaths(b)
  {
    DistinctByCounting(a);
    DistinctByCounting(b);
    forall e | e in multiset(b) ensures multiset(b)[e] == 1 && PathOccursOnce(b, e) {
      forall f | f in b && f.path == e.path ensures f == e {
        assert f in multiset(a);
      }
    }
  }

  lemma SelectionPermuted(a: seq<Entry>, b: seq<Entry>)
    requires multiset(a) == multiset(b)
    ensures multiset(Selection(a)) == multiset(Selection(b))
  {
    forall e ensures multiset(Selection(a))[e] == multiset(Selection(b))[e] {
      SelectionHas(a, e);
      SelectionHas(b, e);
    }
  }

  /** A tree with its entries in another order is accepted alike, and gives the same files in the same order. */
  lemma OrderDoesNotMatter(t: Tree, u: Tree)
    requires t.truncated == u.truncated && multiset(t.entries) == multiset(u.entries)
    ensures Acceptable(t) ==> Acceptable(u)
    ensures Total(Selection(t.entries)) == Total(Selection(u.entries))
    ensures forall a, b | Ascending(a) && Ascending(b) && multiset(a) == multiset(Selection(t.entries)) &&
                          multiset(b) == multiset(Selection(u.entries)) :: a == b
  {
    SelectionPermuted(t.entries, u.entries);
    TotalOfPermuted(Selection(t.entries), Selection(u.entries));
    SameLength(t.entries, u.entries);
    SameLength(Selection(t.entries), Selection(u.entries));
    if Acceptable(t) {
      forall e | e in u.entries ensures Harmless(e) {
        assert e in multiset(t.entries);
      }
      DistinctPermuted(t.entries, u.entries);
    }
    forall a, b | Ascending(a) && Ascending(b) && multiset(a) == multiset(Selection(t.entries)) &&
                  multiset(b) == multiset(Selection(u.entries))
      ensures a == b
    {
      AscendingIsUnique(a, b);
    }
  }

  /** What is selected from an acceptable tree stays within the bounds. */
  lemma SelectionIsBounded(tree: Tree, selected: seq<Entry>)
    requires Acceptable(tree) && multiset(selected) == multiset(Selection(tree.entries))
    ensures 1 <= |selected| <= 160 && 0 <= Total(selected) <= 1024 * 1024
    ensures forall e :: e in selected <==> e in tree.entries && IsSource(e)
    ensures forall e | e in selected :: e.size.Bytes? && 0 <= e.size.count <= 128 * 1024
  {
    SameLength(selected, Selection(tree.entries));
    TotalOfPermuted(selected, Selection(tree.entries));
    EligibleAreFitting(tree.entries);
    TotalIsPositive(Selection(tree.entries));
    forall e ensures e in selected <==> e in tree.entries && IsSource(e) {
      EligibleIs(e);
      SelectionHas(tree.entries, e);
      assert e in selected <==> e in multiset(selected);
      assert e in tree.entries <==> e in multiset(tree.entries);
    }
    forall e | e in selected ensures SizeFits(e) {
      assert e in tree.entries;
      EligibleIs(e);
    }
  }
}
