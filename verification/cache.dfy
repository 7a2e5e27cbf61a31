/**
  The cache of fetched configs: one file for each source, named by the encoded source.
 */
module ConfigCache {
  import opened Base62

  type Source = Data

  datatype Entry = NotInCache | OpenFailed | Cached(content: Data)

  const CACHE_DIR: string := "/.eirctl/cache/"

  function CachePath(home: string, source: Source): string {
    home + CACHE_DIR + Encode(source)
  }

  /** Every file of the cache lies in its directory itself, whatever the source. */
  lemma LiesInCache(home: string, source: Source)
    ensures exists name :: IsName(name) && CachePath(home, source) == home + "/.eirctl/cache/" + name
  {
    var name := Encode(source);
    TextIsName(Value(AsDigits(source), 256));
    assert IsName(name) && CachePath(home, source) == home + "/.eirctl/cache/" + name;
  }

  /** Different sources have different files, unless they differ in leading zero bytes only. */
  lemma PathsDiffer(home: string, a: Source, b: Source)
    ensures CachePath(home, a) == CachePath(home, b) <==> Stripped(a) == Stripped(b)
  {
    var k := |home + CACHE_DIR|;
    assert CachePath(home, a)[k..] == Encode(a) && CachePath(home, b)[k..] == Encode(b);
    EncodeCollides(a, b);
  }

  type Files = map<string, Data>

  class Cache {
    const home: string
    var files: Files

    constructor (home: string)
      ensures this.home == home && files == map[]
    {
      this.home, files := home, map[];
    }

    /** Write a file for the source, in place of the one there was; a failed copy may leave part of the content. */
    method Store(source: Source, content: Data) returns (ok: bool, ghost fault: bool)
      modifies this`files
      ensures !ok ==> fault
      ensures ok ==> files == old(files)[CachePath(home, source) := content]
      ensures forall p | p != CachePath(home, source) ::
                (p in files <==> p in old(files)) && (p in files ==> files[p] == old(files)[p])
    {
      var created: bool := *;
      if !created {
        return false, true;
      }
      var copied: int := *;
      if !(0 <= copied <= |content|) {
        copied := |content|;
      }
      files := files[CachePath(home, source) := content[..copied]];
      assert content[..|content|] == content;
      return copied == |content|, copied != |content|;
    }

    /**
      What is stored for a source.  When opening the file fails for another reason than that there is
      none, this too may be told as a missing entry.
     */
    method Get(source: Source) returns (r: Entry, ghost fault: bool)
      ensures r.Cached? ==> CachePath(home, source) in files && r.content == files[CachePath(home, source)]
      ensures !fault ==> CachePath(home, source) in files ==> r == Cached(files[CachePath(home, source)])
      ensures !fault ==> CachePath(home, source) !in files ==> r == NotInCache
    {
      var works: bool := *;
      fault := !works;
      if !works {
        var withPath: bool := *;
        return if withPath then NotInCache else OpenFailed, fault;
      }
      if CachePath(home, source) !in files {
        return NotInCache, fault;
      }
      return Cached(files[CachePath(home, source)]), fault;
    }
  }

  // ----- the cache as a map from sources

  datatype StoreCall = StoreCall(source: Source, content: Data)

  /** The last of some stores that was for a source. */
  ghost predicate LastFor(calls: seq<StoreCall>, source: Source, i: int) {
    0 <= i < |calls| && calls[i].source == source && forall j | i < j < |calls| :: calls[j].source != source
  }

  /** The file of a source after some stores of which some may have failed. */
  ghost predicate HoldsLast(home: string, files: Files, calls: seq<StoreCall>, stored: seq<bool>, source: Source)
    requires |stored| == |calls|
  {
    var p := CachePath(home, source);
    && (forall i | LastFor(calls, source, i) && stored[i] :: p in files && files[p] == calls[i].content)
    && ((forall i :: !LastFor(calls, source, i)) ==> p !in files)
  }

  /**
    The cache is a plain map: the file of every source holds what was stored last for it, if
    that store succeeded, and there is none if nothing was ever stored for it.
   */
  ghost predicate ActsAsMap(home: string, files: Files, calls: seq<StoreCall>, stored: seq<bool>)
    requires |stored| == |calls|
  {
    forall source | NoLeadingZero(source) :: HoldsLast(home, files, calls, stored, source)
  }

  /** One store keeps that, whether it succeeds or leaves part of the content behind. */
  lemma StoreKeepsMap(
    home: string, files: Files, files': Files, calls: seq<StoreCall>, stored: seq<bool>, call: StoreCall, ok: bool)
    requires |stored| == |calls| && ActsAsMap(home, files, calls, stored) && NoLeadingZero(call.source)
    requires ok ==> files' == files[CachePath(home, call.source) := call.content]
    requires forall p | p != CachePath(home, call.source) ::
               (p in files' <==> p in files) && (p in files' ==> files'[p] == files[p])
    ensures ActsAsMap(home, files', calls + [call], stored + [ok])
  {
    var k := |calls|;
    forall source | NoLeadingZero(source) ensures HoldsLast(home, files', calls + [call], stored + [ok], source) {
      SourcesApart(home, call.source, source);
      hide CachePath;
      LastForSnoc(calls, call, source);
      assert HoldsLast(home, files, calls, stored, source);
      if source == call.source {
        assert LastFor(calls + [call], source, k);
      }
    }
  }

  lemma SourcesApart(home: string, a: Source, b: Source)
    requires NoLeadingZero(a) && NoLeadingZero(b)
    ensures CachePath(home, a) == CachePath(home, b) <==> a == b
  {
    PathsDiffer(home, a, b);
    StrippedIsShorter(a);
    StrippedIsShorter(b);
  }

  lemma LastForSnoc(calls: seq<StoreCall>, call: StoreCall, source: Source)
    ensures forall i :: LastFor(calls + [call], source, i) <==>
                          if call.source == source then i == |calls| else LastFor(calls, source, i)
  {
    var more := calls + [call];
    forall i ensures LastFor(more, source, i) <==>
                       if call.source == source then i == |calls| else LastFor(calls, source, i)
    {
      assert more[|calls|] == call && forall j | 0 <= j < |calls| :: more[j] == calls[j];
    }
  }

  /** Store one content after the other in a new cache, and look one source up. */
  method StoreAndGet(home: string, calls: seq<StoreCall>, source: Source)
    returns (stored: seq<bool>, r: Entry, ghost fault: bool)
    requires NoLeadingZero(source) && forall c | c in calls :: NoLeadingZero(c.source)
    ensures |stored| == |calls|
    ensures forall i | LastFor(calls, source, i) && stored[i] ::
              (!fault ==> r.Cached?) && (r.Cached? ==> r.content == calls[i].content)
    ensures (forall i :: !LastFor(calls, source, i)) ==> !r.Cached? && (!fault ==> r.NotInCache?)
  {
    var cache := new Cache(home);
    stored := [];
    for k := 0 to |calls|
      invariant cache.home == home && fresh(cache) && |stored| == k
      invariant ActsAsMap(home, cache.files, calls[..k], stored)
    {
      ghost var before := cache.files;
      var ok, _ := cache.Store(calls[k].source, calls[k].content);
      StoreKeepsMap(home, before, cache.files, calls[..k], stored, calls[k], ok);
      assert calls[..k + 1] == calls[..k] + [calls[k]];
      stored := stored + [ok];
    }
    assert calls[..|calls|] == calls;
    assert HoldsLast(home, cache.files, calls, stored, source);
    r, fault := cache.Get(source);
  }

  /** Two sources that share a file: a zero byte in front makes no difference to the name. */
  lemma ZeroByteCollides(home: string, source: Source)
    ensures CachePath(home, [0] + source) == CachePath(home, source)
  {
    assert ([0] + source)[1..] == source;
    PathsDiffer(home, [0] + source, source);
  }
}
