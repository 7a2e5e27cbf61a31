/**
  Copying the selected files into a new directory, on a file system every step of which may
  fail: either all of them are there afterwards, or nothing has changed.
 */
module Materializing {
  import opened Base62
  import opened TreeValidation

  /** A path as its segments. */
  type FilePath = seq<string>

  datatype Node = Directory | File(data: Data)

  type Files = map<FilePath, Node>

  /** The segments of a path; a tree path is canonical, so none of them is empty. */
  function Segments(path: string): (s: FilePath)
    ensures s != []
  {
    var i := FirstSlash(path, 0);
    if i == |path| then [path] else [path[..i]] + Segments(path[i + 1..])
  }

  function FirstSlash(path: string, i: nat): (r: nat)
    requires i <= |path|
    ensures i <= r <= |path|
    decreases |path| - i
  {
    if i == |path| || path[i] == '/' then i else FirstSlash(path, i + 1)
  }

  /** Names joined by slashes, in order. */
  ghost function JoinedBySlash(parts: seq<string>): string {
    if parts == [] then "" else if |parts| == 1 then parts[0] else parts[0] + "/" + JoinedBySlash(parts[1..])
  }

  /** A file path whose parts make up a path of a tree. */
  ghost predicate PartsOf(path: string, q: FilePath) {
    q != [] && JoinedBySlash(q) == path && forall part | part in q :: '/' !in part
  }

  lemma FirstSlashIs(path: string, i: nat)
    requires i <= |path|
    ensures '/' !in path[i..FirstSlash(path, i)]
    ensures FirstSlash(path, i) < |path| ==> path[FirstSlash(path, i)] == '/'
    decreases |path| - i
  {
    if i < |path| && path[i] != '/' {
      FirstSlashIs(path, i + 1);
      assert path[i..FirstSlash(path, i)] == [path[i]] + path[i + 1..FirstSlash(path, i)];
    }
  }

  lemma {:induction false} SegmentsJoin(path: string)
    ensures PartsOf(path, Segments(path))
    decreases |path|
  {
    var i := FirstSlash(path, 0);
    FirstSlashIs(path, 0);
    assert path[0..i] == path[..i];
    if i == |path| {
      assert path[..i] == path;
    } else {
      SegmentsJoin(path[i + 1..]);
      assert Segments(path)[1..] == Segments(path[i + 1..]);
      assert path == path[..i] + "/" + path[i + 1..];
    }
  }

  lemma {:induction false} SlashAt(path: string, i: nat, k: nat)
    requires i <= k <= |path| && '/' !in path[i..k] && (k < |path| ==> path[k] == '/')
    ensures FirstSlash(path, i) == k
    decreases k - i
  {
    if i < k {
      assert path[i..k] == [path[i]] + path[i + 1..k];
      SlashAt(path, i + 1, k);
    }
  }

  /** No other parts do. */
  lemma {:induction false} PartsAreUnique(path: string, q: FilePath)
    requires PartsOf(path, q)
    ensures q == Segments(path)
    decreases |q|
  {
    var k := |q[0]|;
    assert path[0..k] == q[0] && q[0] in q;
    SlashAt(path, 0, k);
    assert path[..k] == path[0..k];
    if |q| == 1 {
      assert q == [path];
    } else {
      assert path[k + 1..] == JoinedBySlash(q[1..]);
      PartsAreUnique(path[k + 1..], q[1..]);
      assert q == [q[0]] + q[1..];
    }
  }

  lemma SegmentsAre(path: string, q: FilePath)
    ensures q == Segments(path) <==> PartsOf(path, q)
  {
    SegmentsJoin(path);
    if PartsOf(path, q) {
      PartsAreUnique(path, q);
    }
  }

  datatype Stat = NotExist | StatFails | IsDirectory | NotDirectory

  predicate Under(root: FilePath, p: FilePath) {
    root <= p
  }

  /** The file system.  An operation may fail at will, which it then tells as a fault. */
  class FileSystem {
    var tree: Files

    method Mkdir(p: FilePath) returns (ok: bool, ghost fault: bool)
      modifies this
      ensures ok ==> p !in old(tree) && tree == old(tree)[p := Directory]
      ensures !ok ==> tree == old(tree) && (fault || p in tree)
    {
      var works: bool := *;
      ok, fault := works && p !in tree, !works;
      if ok {
        tree := tree[p := Directory];
      }
    }

    method Lstat(p: FilePath) returns (s: Stat, ghost fault: bool)
      ensures s.StatFails? ==> fault
      ensures s.NotExist? ==> p !in tree
      ensures s.IsDirectory? ==> p in tree && tree[p].Directory?
      ensures s.NotDirectory? ==> p in tree && tree[p].File?
    {
      var works: bool := *;
      fault := !works;
      s := if !works then StatFails
           else if p !in tree then NotExist
           else if tree[p].Directory? then IsDirectory else NotDirectory;
    }

    /** Create an empty file where there was nothing. */
    method OpenExclusive(p: FilePath) returns (ok: bool, ghost fault: bool)
      modifies this
      ensures ok ==> p !in old(tree) && tree == old(tree)[p := File([])]
      ensures !ok ==> tree == old(tree) && (fault || p in tree)
    {
      var works: bool := *;
      ok, fault := works && p !in tree, !works;
      if ok {
        tree := tree[p := File([])];
      }
    }

    /** Write to an empty file; writing less than all is a fault. */
    method Write(p: FilePath, data: Data) returns (ok: bool)
      requires p in tree
      modifies this
      ensures ok ==> tree == old(tree)[p := File(data)]
      ensures tree.Keys == old(tree).Keys && forall q | q in tree && q != p :: tree[q] == old(tree)[q]
    {
      var written: int := *;
      if !(0 <= written <= |data|) {
        written := |data|;
      }
      tree := tree[p := File(data[..written])];
      assert data[..|data|] == data;
      ok := written == |data|;
    }

    /** Set the mode of a file, and close it. */
    method Finish() returns (ok: bool)
    {
      ok := *;
    }

    /** Remove a path and everything under it. */
    method RemoveAll(p: FilePath)
      modifies this
      ensures forall q :: q in tree <==> q in old(tree) && !Under(p, q)
      ensures forall q | q in tree :: tree[q] == old(tree)[q]
    {
      tree := map q | q in tree && !Under(p, q) :: tree[q];
    }
  }

  /** Nothing has changed except under a root. */
  ghost predicate OnlyUnder(before: Files, after: Files, root: FilePath) {
    forall p | !Under(root, p) :: (p in after <==> p in before) && (p in before ==> after[p] == before[p])
  }

  /** A directory tree seen from a root. */
  ghost function Inside(tree: Files, root: FilePath): Files {
    map q | q in (set p | p in tree && Under(root, p) :: p[|root|..]) && root + q in tree :: tree[root + q]
  }

  lemma InsideHas(tree: Files, root: FilePath, q: FilePath)
    ensures q in Inside(tree, root) <==> root + q in tree
    ensures q in Inside(tree, root) ==> Inside(tree, root)[q] == tree[root + q]
  {
    assert (root + q)[|root|..] == q;
    forall p | p in tree && Under(root, p) && p[|root|..] == q ensures p == root + q {
      assert p == p[..|root|] + p[|root|..];
    }
  }

  /** A prefix of a file path, so the file itself or a directory it lies in. */
  ghost predicate LeadsToFile(files: map<FilePath, Data>, q: FilePath) {
    exists f :: f in files && Under(q, f)
  }

  /** Exactly some files with their contents, the directories they lie in, and the root itself. */
  ghost predicate IsCopy(inside: Files, files: map<FilePath, Data>) {
    && (forall q :: q in inside <==> q == [] || LeadsToFile(files, q))
    && (forall q | q in inside :: inside[q] == if q in files then File(files[q]) else Directory)
  }

  /** The same with the first few directories of a further file. */
  ghost predicate IsCopyAnd(inside: Files, files: map<FilePath, Data>, f: FilePath, k: int)
    requires 0 <= k <= |f|
  {
    && (forall q :: q in inside <==> q == [] || LeadsToFile(files, q) || Under(q, f[..k]))
    && (forall q | q in inside :: inside[q] == if q in files then File(files[q]) else Directory)
    && (forall j | 0 <= j <= k :: f[..j] in inside && inside[f[..j]] == Directory)
  }

  lemma CopyAndNothing(inside: Files, files: map<FilePath, Data>, f: FilePath)
    requires IsCopy(inside, files) && [] !in files
    ensures IsCopyAnd(inside, files, f, 0)
  {
    assert f[..0] == [];
  }

  lemma NextDirectory(inside: Files, inside': Files, files: map<FilePath, Data>, f: FilePath, k: nat)
    requires k < |f| && IsCopyAnd(inside, files, f, k)
    requires if inside' == inside then f[..k + 1] in inside && inside[f[..k + 1]] == Directory
             else f[..k + 1] !in inside && inside' == inside[f[..k + 1] := Directory]
    ensures IsCopyAnd(inside', files, f, k + 1)
  {
    hide LeadsToFile;
    forall q ensures Under(q, f[..k + 1]) <==> Under(q, f[..k]) || q == f[..k + 1] {
      PrefixStep(f, k, q);
    }
    forall q | q in files ensures q in inside {
      FileLeadsToItself(files, q);
    }
    forall j | 0 <= j <= k + 1 ensures f[..j] in inside' && inside'[f[..j]] == Directory {
      if j <= k {
        assert f[..j] in inside && inside[f[..j]] == Directory;
      }
    }
  }

  lemma PrefixStep(f: FilePath, k: nat, q: FilePath)
    requires k < |f|
    ensures Under(q, f[..k + 1]) <==> Under(q, f[..k]) || q == f[..k + 1]
  {
    if Under(q, f[..k + 1]) && |q| <= k {
      assert q == f[..|q|];
    }
  }

  lemma FileLeadsToItself(files: map<FilePath, Data>, f: FilePath)
    requires f in files
    ensures LeadsToFile(files, f)
  {
    assert Under(f, f);
  }

  lemma NextFile(inside: Files, inside': Files, files: map<FilePath, Data>, f: FilePath, data: Data)
    requires f != [] && IsCopyAnd(inside, files, f, |f| - 1) && f !in inside
    requires inside' == inside[f := File(data)]
    ensures IsCopy(inside', files[f := data]) && f !in files
  {
    assert f in files ==> LeadsToFile(files, f);
    var more := files[f := data];
    forall q ensures LeadsToFile(more, q) <==> LeadsToFile(files, q) || Under(q, f) {
      if LeadsToFile(files, q) {
        var g :| g in files && Under(q, g);
        assert g in more;
      }
      assert f in more;
    }
    forall q ensures Under(q, f) <==> q == f || Under(q, f[..|f| - 1]) {
      if Under(q, f) && |q| < |f| {
        assert q == f[..|q|];
      }
    }
  }

  /** One entry was added under the root. */
  lemma AddedUnder(before: Files, tree: Files, root: FilePath, q: FilePath, node: Node)
    requires OnlyUnder(before, tree, root)
    ensures OnlyUnder(before, tree[root + q := node], root)
    ensures Inside(tree[root + q := node], root) == Inside(tree, root)[q := node]
  {
    var after := tree[root + q := node];
    assert Under(root, root + q);
    forall x ensures x in Inside(after, root) <==> x in Inside(tree, root)[q := node] {
      InsideHas(tree, root, x);
      InsideHas(after, root, x);
      SameRest(root, x, q);
    }
    forall x | x in Inside(after, root) ensures Inside(after, root)[x] == Inside(tree, root)[q := node][x] {
      InsideHas(tree, root, x);
      InsideHas(after, root, x);
      SameRest(root, x, q);
    }
  }

  lemma SameRest(root: FilePath, x: FilePath, q: FilePath)
    ensures root + x == root + q <==> x == q
  {
    assert (root + x)[|root|..] == x && (root + q)[|root|..] == q;
  }

  /** Make the directories a file lies in, as far as they do not exist. */
  method EnsureParentDirectories(
    fs: FileSystem, root: FilePath, f: FilePath, ghost before: Files, ghost files: map<FilePath, Data>)
    returns (ok: bool, ghost fault: bool)
    requires f != [] && [] !in files && OnlyUnder(before, fs.tree, root) && IsCopy(Inside(fs.tree, root), files)
    modifies fs
    ensures OnlyUnder(before, fs.tree, root)
    ensures ok ==> IsCopyAnd(Inside(fs.tree, root), files, f, |f| - 1)
    ensures !ok ==> fault || InTheWay(files, f)
  {
    fault := false;
    CopyAndNothing(Inside(fs.tree, root), files, f);
    hide IsCopyAnd, Inside, OnlyUnder;
    for k := 0 to |f| - 1
      invariant OnlyUnder(before, fs.tree, root)
      invariant IsCopyAnd(Inside(fs.tree, root), files, f, k)
    {
      var directory := root + f[..k + 1];
      ghost var tree := fs.tree;
      var info;
      info, fault := fs.Lstat(directory);
      InsideHas(tree, root, f[..k + 1]);
      if info.NotExist? {
        var made;
        made, fault := fs.Mkdir(directory);
        if !made {
          return false, fault;
        }
        AddedUnder(before, tree, root, f[..k + 1], Directory);
      } else if !info.IsDirectory? {
        if info.NotDirectory? {
          FileInTheWay(Inside(tree, root), files, f, k);
        }
        return false, fault;
      }
      NextDirectory(Inside(tree, root), Inside(fs.tree, root), files, f, k);
    }
    ok := true;
  }

  /** A file of the copy is at a path, at one of its directories or below it. */
  ghost predicate InTheWay(files: map<FilePath, Data>, f: FilePath) {
    exists g :: g in files && (Under(g, f) || Under(f, g))
  }

  lemma FileInTheWay(inside: Files, files: map<FilePath, Data>, f: FilePath, k: nat)
    requires k < |f| && IsCopyAnd(inside, files, f, k) && f[..k + 1] in inside && inside[f[..k + 1]].File?
    ensures InTheWay(files, f)
  {
    assert f[..k + 1] in files;
  }

  /** Something is there already, after the directories were made. */
  lemma PathIsTaken(inside: Files, files: map<FilePath, Data>, f: FilePath)
    requires f != [] && IsCopyAnd(inside, files, f, |f| - 1) && f in inside
    ensures InTheWay(files, f)
  {
    assert !Under(f, f[..|f| - 1]);
  }

  /** Create one file with its directories; it must not exist yet. */
  method WriteExclusive(
    fs: FileSystem, root: FilePath, f: FilePath, data: Data, ghost before: Files, ghost files: map<FilePath, Data>)
    returns (ok: bool, ghost fault: bool)
    requires f != [] && [] !in files && OnlyUnder(before, fs.tree, root) && IsCopy(Inside(fs.tree, root), files)
    modifies fs
    ensures OnlyUnder(before, fs.tree, root)
    ensures ok ==> f !in files && IsCopy(Inside(fs.tree, root), files[f := data])
    ensures !ok ==> fault || InTheWay(files, f)
  {
    ok, fault := EnsureParentDirectories(fs, root, f, before, files);
    if !ok {
      return;
    }
    ghost var tree := fs.tree;
    hide IsCopy, IsCopyAnd, Inside, OnlyUnder;
    InsideHas(tree, root, f);
    ok, fault := CreateFile(fs, root + f, data);
    if !ok && !fault {
      PathIsTaken(Inside(tree, root), files, f);
    }
    ChangedAt(before, tree, fs.tree, root, f);
    if ok {
      AddedUnder(before, tree, root, f, File(data));
      NextFile(Inside(tree, root), Inside(fs.tree, root), files, f, data);
    }
  }

  /** Create a file with a content, close it and set its mode. */
  method CreateFile(fs: FileSystem, destination: FilePath, data: Data) returns (ok: bool, ghost fault: bool)
    modifies fs
    ensures ok ==> destination !in old(fs.tree) && fs.tree == old(fs.tree)[destination := File(data)]
    ensures !ok ==> fault || destination in old(fs.tree)
    ensures SameBut(old(fs.tree), fs.tree, destination)
  {
    ok, fault := fs.OpenExclusive(destination);
    if ok {
      ok := fs.Write(destination, data);
      if ok {
        ok := fs.Finish();
      }
      fault := !ok;
    }
  }

  ghost predicate SameBut(before: Files, after: Files, p: FilePath) {
    forall q | q != p :: (q in after <==> q in before) && (q in before ==> after[q] == before[q])
  }

  lemma ChangedAt(before: Files, tree: Files, after: Files, root: FilePath, f: FilePath)
    requires OnlyUnder(before, tree, root) && SameBut(tree, after, root + f)
    ensures OnlyUnder(before, after, root)
  {
    assert Under(root, root + f);
  }

  datatype Fetched = NotFetched | Content(data: Data)

  /** Fetch the content of an entry; what comes back is checked against its size and identity. */
  method FetchBlob(blobs: map<string, Data>, e: Entry) returns (r: Fetched, ghost fault: bool)
    ensures r.Content? ==> e.sha in blobs && r.data == blobs[e.sha] && e.size == Bytes(|r.data|)
    ensures r.NotFetched? ==> fault || !GoodBlob(blobs, e)
  {
    var works: bool := *;
    fault := !works;
    if works && e.sha in blobs && e.size.Bytes? && |blobs[e.sha]| == e.size.count {
      return Content(blobs[e.sha]), fault;
    }
    return NotFetched, fault;
  }

  /** The content of an entry can be had, and has the size that the tree states. */
  ghost predicate GoodBlob(blobs: map<string, Data>, e: Entry) {
    e.sha in blobs && e.size == Bytes(|blobs[e.sha]|)
  }

  /** One of two tree paths leads through the other. */
  ghost predicate Overlap(a: string, b: string) {
    exists p, q :: PartsOf(a, p) && PartsOf(b, q) && (Under(p, q) || Under(q, p))
  }

  /** Why the files of some entries cannot all be written even if nothing goes wrong. */
  ghost predicate Unwritable(entries: seq<Entry>, blobs: map<string, Data>) {
    || (exists e :: e in entries && !GoodBlob(blobs, e))
    || (exists i, j :: 0 <= i < j < |entries| && Overlap(entries[i].path, entries[j].path))
  }

  lemma OverlapFound(files: map<FilePath, Data>, entries: seq<Entry>, k: nat)
    requires k < |entries| && InTheWay(files, Segments(entries[k].path))
    requires forall f | f in files :: IsFileOf(entries[..k], f)
    ensures exists i :: 0 <= i < k && Overlap(entries[i].path, entries[k].path)
  {
    hide PartsOf, Segments;
    var f := Segments(entries[k].path);
    var g :| g in files && (Under(g, f) || Under(f, g));
    var e :| e in entries[..k] && PartsOf(e.path, g);
    var i :| 0 <= i < k && entries[..k][i] == e;
    SegmentsJoin(entries[k].path);
    assert Overlap(entries[i].path, entries[k].path);
  }

  /** The files that the first entries stand for. */
  ghost predicate FilesOf(files: map<FilePath, Data>, entries: seq<Entry>, blobs: map<string, Data>) {
    && (forall f | f in files :: IsFileOf(entries, f))
    && (forall e | e in entries :: HasFile(files, e, blobs))
    && |files| == |entries|
  }

  ghost predicate IsFileOf(entries: seq<Entry>, f: FilePath) {
    exists e :: e in entries && PartsOf(e.path, f)
  }

  ghost predicate HasFile(files: map<FilePath, Data>, e: Entry, blobs: map<string, Data>) {
    exists f :: PartsOf(e.path, f) && f in files && e.sha in blobs && files[f] == blobs[e.sha]
  }

  lemma FileOfMore(entries: seq<Entry>, e: Entry, f: FilePath)
    requires IsFileOf(entries, f) || PartsOf(e.path, f)
    ensures IsFileOf(entries + [e], f)
  {
    hide PartsOf;
    if PartsOf(e.path, f) {
      assert e in entries + [e];
    } else {
      var x :| x in entries && PartsOf(x.path, f);
      assert x in entries + [e];
    }
  }

  lemma HasFileStill(files: map<FilePath, Data>, e: Entry, blobs: map<string, Data>, f: FilePath, data: Data)
    requires HasFile(files, e, blobs) && f !in files
    ensures HasFile(files[f := data], e, blobs)
  {
    hide PartsOf;
    var g :| PartsOf(e.path, g) && g in files && e.sha in blobs && files[g] == blobs[e.sha];
    assert g in files[f := data];
  }

  lemma OneMoreFile(files: map<FilePath, Data>, entries: seq<Entry>, blobs: map<string, Data>, k: nat)
    requires k < |entries| && FilesOf(files, entries[..k], blobs)
    requires Segments(entries[k].path) !in files && entries[k].sha in blobs
    ensures FilesOf(files[Segments(entries[k].path) := blobs[entries[k].sha]], entries[..k + 1], blobs)
  {
    hide Segments, IsFileOf, HasFile, PartsOf;
    var e, f := entries[k], Segments(entries[k].path);
    SegmentsJoin(e.path);
    var more := files[f := blobs[e.sha]];
    assert entries[..k + 1] == entries[..k] + [e];
    forall g | g in more ensures IsFileOf(entries[..k + 1], g) {
      FileOfMore(entries[..k], e, g);
    }
    forall x | x in entries[..k + 1] ensures HasFile(more, x, blobs) {
      if x in entries[..k] {
        HasFileStill(files, x, blobs, f, blobs[e.sha]);
      } else {
        NowHasFile(more, e, blobs, f);
      }
    }
    assert more.Keys == files.Keys + {f};
  }

  lemma NowHasFile(files: map<FilePath, Data>, e: Entry, blobs: map<string, Data>, f: FilePath)
    requires PartsOf(e.path, f) && f in files && e.sha in blobs && files[f] == blobs[e.sha]
    ensures HasFile(files, e, blobs)
  {
  }

  /** Write all selected files, stopping at the first failure. */
  method MaterializeSelectedFiles(
    fs: FileSystem, root: FilePath, selected: seq<Entry>, blobs: map<string, Data>, ghost before: Files)
    returns (ok: bool, ghost files: map<FilePath, Data>, ghost fault: bool)
    requires OnlyUnder(before, fs.tree, root) && IsCopy(Inside(fs.tree, root), map[])
    modifies fs
    ensures OnlyUnder(before, fs.tree, root)
    ensures ok ==> FilesOf(files, selected, blobs) && IsCopy(Inside(fs.tree, root), files)
    ensures !ok ==> fault || Unwritable(selected, blobs)
  {
    hide IsCopy, Inside, OnlyUnder, Segments, GoodBlob, Overlap, HasFile, IsFileOf, PartsOf, InTheWay;
    files, fault := map[], false;
    for k := 0 to |selected|
      invariant OnlyUnder(before, fs.tree, root) && IsCopy(Inside(fs.tree, root), files)
      invariant FilesOf(files, selected[..k], blobs) && [] !in files
    {
      var fetched;
      fetched, fault := FetchBlob(blobs, selected[k]);
      if fetched.NotFetched? {
        return false, files, fault;
      }
      var f := Segments(selected[k].path);
      ok, fault := WriteExclusive(fs, root, f, fetched.data, before, files);
      if !ok {
        if !fault {
          OverlapFound(files, selected, k);
        }
        return;
      }
      OneMoreFile(files, selected, blobs, k);
      files := files[f := fetched.data];
    }
    assert selected[..|selected|] == selected;
    ok := true;
  }

  /** Every directory a path lies in exists. */
  ghost predicate Rooted(tree: Files) {
    forall p, q | p in tree && Under(q, p) :: q in tree
  }

  lemma NothingUnder(before: Files, root: FilePath, q: FilePath)
    requires Rooted(before) && root !in before
    ensures root + q !in before
  {
    assert Under(root, root + q);
  }

  /** What is at a root after it was made in a tree without it. */
  lemma NewRoot(before: Files, root: FilePath)
    requires Rooted(before) && root !in before
    ensures OnlyUnder(before, before[root := Directory], root)
    ensures IsCopy(Inside(before[root := Directory], root), map[])
  {
    var after := before[root := Directory];
    forall q ensures q in Inside(after, root) <==> q == [] {
      InsideHas(after, root, q);
      NothingUnder(before, root, q);
      assert root + q == root <==> q == [];
    }
    assert forall q :: !LeadsToFile(map[], q);
    InsideHas(after, root, []);
    assert root + [] == root;
  }

  lemma Restored(before: Files, after: Files, removed: Files, root: FilePath)
    requires Rooted(before) && root !in before && OnlyUnder(before, after, root)
    requires forall q :: q in removed <==> q in after && !Under(root, q)
    requires forall q | q in removed :: removed[q] == after[q]
    ensures removed == before
  {
    forall q | q in before ensures !Under(root, q) {}
  }

  /** The copy below a root, said of the paths themselves: each selected file with its content, and no other file. */
  ghost predicate CopyShows(tree: Files, root: FilePath, selected: seq<Entry>, blobs: map<string, Data>) {
    && (forall e | e in selected :: exists q :: HoldsFile(tree, root, e, blobs, q))
    && (forall q | root + q in tree && tree[root + q].File? :: exists e :: e in selected && PartsOf(e.path, q))
  }

  ghost predicate HoldsFile(tree: Files, root: FilePath, e: Entry, blobs: map<string, Data>, q: FilePath) {
    PartsOf(e.path, q) && root + q in tree && e.sha in blobs && tree[root + q] == File(blobs[e.sha])
  }

  lemma ShowsCopy(
    tree: Files, root: FilePath, files: map<FilePath, Data>, selected: seq<Entry>, blobs: map<string, Data>)
    requires IsCopy(Inside(tree, root), files) && FilesOf(files, selected, blobs)
    ensures CopyShows(tree, root, selected, blobs)
  {
    hide Inside, PartsOf, IsCopy, HasFile, IsFileOf, HoldsFile;
    forall e | e in selected ensures exists q :: HoldsFile(tree, root, e, blobs, q) {
      ShowsFile(tree, root, files, e, blobs);
    }
    forall q | root + q in tree && tree[root + q].File? ensures exists e :: e in selected && PartsOf(e.path, q) {
      ShowsOnlyFiles(tree, root, files, q);
      FileIsOf(selected, q);
    }
  }

  lemma FileIsOf(entries: seq<Entry>, f: FilePath)
    requires IsFileOf(entries, f)
    ensures exists e :: e in entries && PartsOf(e.path, f)
  {
  }

  lemma ShowsFile(tree: Files, root: FilePath, files: map<FilePath, Data>, e: Entry, blobs: map<string, Data>)
    requires IsCopy(Inside(tree, root), files) && HasFile(files, e, blobs)
    ensures exists q :: HoldsFile(tree, root, e, blobs, q)
  {
    hide Inside, PartsOf;
    var q :| PartsOf(e.path, q) && q in files && e.sha in blobs && files[q] == blobs[e.sha];
    FileLeadsToItself(files, q);
    InsideHas(tree, root, q);
    assert HoldsFile(tree, root, e, blobs, q);
  }

  lemma ShowsOnlyFiles(tree: Files, root: FilePath, files: map<FilePath, Data>, q: FilePath)
    requires IsCopy(Inside(tree, root), files) && root + q in tree && tree[root + q].File?
    ensures q in files
  {
    hide Inside, LeadsToFile;
    InsideHas(tree, root, q);
  }

  /**
    Copy the Go source of a tree below a new root.  On success the tree was acceptable, the
    root holds exactly its eligible files with their contents and the directories these lie
    in, and nothing else has changed; otherwise nothing has changed at all.
   */
  method Materialize(fs: FileSystem, root: FilePath, tree: Tree, blobs: map<string, Data>)
    returns (ok: bool, ghost selected: seq<Entry>, ghost files: map<FilePath, Data>, ghost fault: bool)
    requires Rooted(fs.tree)
    modifies fs
    ensures !ok ==> fs.tree == old(fs.tree)
    ensures !ok ==> fault || !Acceptable(tree) || root in old(fs.tree) || Unwritable(selected, blobs)
    ensures Acceptable(tree) ==> forall e :: e in selected <==> e in tree.entries && IsSource(e)
    ensures ok ==>
              && root !in old(fs.tree) && OnlyUnder(old(fs.tree), fs.tree, root)
              && IsCopy(Inside(fs.tree, root), files)
              && FilesOf(files, selected, blobs)
    ensures ok ==> CopyShows(fs.tree, root, selected, blobs)
    ensures ok ==> Acceptable(tree)
  {
    hide IsCopy, Inside, OnlyUnder, Acceptable, FilesOf, IsSource, CopyShows, Unwritable;
    selected, files, fault := [], map[], false;
    var validated := ValidateTree(tree);
    if validated.Invalid? {
      return false, selected, files, fault;
    }
    selected := validated.selected;
    SelectionIsBounded(tree, selected);
    ghost var before := fs.tree;
    ok, fault := fs.Mkdir(root);
    if !ok {
      return;
    }
    NewRoot(before, root);
    ok, files, fault := MaterializeSelectedFiles(fs, root, validated.selected, blobs, before);
    if ok {
      ShowsCopy(fs.tree, root, files, selected, blobs);
      ok := VerifyCurrentHead();
      fault := !ok;
    }
    if !ok {
      ghost var after := fs.tree;
      fs.RemoveAll(root);
      Restored(before, after, fs.tree, root);
    }
  }

  /** Whether the pull request still points at the commit; an answer from outside. */
  method VerifyCurrentHead() returns (ok: bool)
  {
    ok := *;
  }
}
