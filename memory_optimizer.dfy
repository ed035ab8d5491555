/**
 * lib/memory-optimizer.js: the bounded render cache of `MemoryMonitor`
 * (a `Map` from a render key to its rendered output, trimmed to the newest
 * insertions before every write) and the two truncation helpers.
 */
module MemoryOptimizer {
  import opened Wrappers
  import opened InsertionMap

  /** `MEMORY_LIMITS`. */
  const MAX_HISTORY_SIZE: int := 20
  const MAX_MERMAID_CODE_SIZE: int := 100000
  const MAX_INPUT_TEXT_SIZE: int := 50000
  const CLEANUP_INTERVAL: int := 60000
  const MAX_RENDER_CACHE: nat := 5

  type Cache = seq<Entry<string, string>>

  /** The cache after `cleanupRenderCache`: only the newest `MAX_RENDER_CACHE` insertions are kept. */
  function Trimmed(c: Cache): (r: Cache)
    ensures |r| <= MAX_RENDER_CACHE && |r| <= |c|
    ensures r == c[|c| - |r|..]
    ensures |c| <= MAX_RENDER_CACHE ==> r == c
    ensures |c| > MAX_RENDER_CACHE ==> |r| == MAX_RENDER_CACHE
  {
    if |c| > MAX_RENDER_CACHE then c[|c| - MAX_RENDER_CACHE..] else c
  }

  /** Trimming keeps the cache well-formed, and every entry that survives is unchanged. */
  lemma TrimmedProperties(c: Cache)
    requires UniqueKeys(c)
    ensures UniqueKeys(Trimmed(c))
    ensures forall e :: e in Trimmed(c) ==> e in c
  {
    var r := Trimmed(c);
    var d := |c| - |r|;
    forall e | e in r
      ensures e in c
    {
      var j :| 0 <= j < |r| && r[j] == e;
      assert c[d + j] == e;
    }
  }

  /** The cache after `cacheRender(key, value)`. */
  function Cached(c: Cache, key: string, value: string): Cache {
    Set(Trimmed(c), key, value)
  }

  /**
   * After `cacheRender(key, value)` the cache is well-formed, holds at most
   * six entries, and `getCachedRender(key)` is `value`.
   */
  lemma CachedProperties(c: Cache, key: string, value: string)
    requires UniqueKeys(c)
    ensures UniqueKeys(Cached(c, key, value))
    ensures |Cached(c, key, value)| <= MAX_RENDER_CACHE + 1
    ensures Get(Cached(c, key, value), key) == Some(value)
  {
    TrimmedProperties(c);
    SetProperties(Trimmed(c), key, value);
  }

  /**
   * Writing a key that survived the trim keeps it where it stands: the order
   * of the keys is unchanged, so eviction goes by first insertion, not by
   * last use.
   */
  lemma RewriteKeepsPosition(c: Cache, key: string, value: string)
    requires UniqueKeys(c) && Has(Trimmed(c), key)
    ensures Keys(Cached(c, key, value)) == Keys(Trimmed(c))
  {
    TrimmedProperties(c);
    SetProperties(Trimmed(c), key, value);
  }

  /** A new key goes to the end, after the surviving keys. */
  lemma NewKeyAppended(c: Cache, key: string, value: string)
    requires UniqueKeys(c) && !Has(Trimmed(c), key)
    ensures Keys(Cached(c, key, value)) == Keys(Trimmed(c)) + [key]
  {
    TrimmedProperties(c);
    SetProperties(Trimmed(c), key, value);
  }

  /** `MemoryMonitor`, reduced to its render cache. */
  class MemoryMonitor {
    var renderCache: Cache

    ghost predicate Valid()
      reads this
    {
      UniqueKeys(renderCache) && |renderCache| <= MAX_RENDER_CACHE + 1
    }

    constructor ()
      ensures Valid() && renderCache == []
    {
      renderCache := [];
    }

    /** `cleanupRenderCache()`: deletes the `size - 5` oldest keys, one at a time. */
    method CleanupRenderCache()
      modifies this
      ensures renderCache == Trimmed(old(renderCache))
    {
      if |renderCache| > MAX_RENDER_CACHE {
        var entriesToDelete := |renderCache| - MAX_RENDER_CACHE;
        var keys := Keys(renderCache);
        ghost var start := renderCache;
        for i := 0 to entriesToDelete
          invariant renderCache == start[i..]
        {
          DeleteFirst(renderCache);
          renderCache := Delete(renderCache, keys[i]);
        }
      }
    }

    /** `cacheRender(key, value)`: trim first, then store. */
    method CacheRender(key: string, value: string)
      requires Valid()
      modifies this
      ensures Valid()
      ensures renderCache == Cached(old(renderCache), key, value)
    {
      CachedProperties(renderCache, key, value);
      CleanupRenderCache();
      renderCache := Set(renderCache, key, value);
    }

    /** `getCachedRender(key)`: `None` stands for `undefined`. */
    function GetCachedRender(key: string): (r: Option<string>)
      reads this
      ensures r.Some? <==> Has(renderCache, key)
    {
      Get(renderCache, key)
    }
  }

  /**
   * `limitTextSize(text, maxSize)`: a falsy (empty) text is returned as it is;
   * a longer text is cut to `substring(0, maxSize)`, where a negative size
   * counts as zero.
   */
  function LimitTextSize(text: string, maxSize: int): (r: string)
    ensures |r| == if |text| <= maxSize then |text| else if maxSize < 0 then 0 else maxSize
    ensures r == text[..|r|]
  {
    if text == [] then text
    else if |text| > maxSize then text[..if maxSize < 0 then 0 else maxSize]
    else text
  }

  /** With the default size, the result is never over the input limit. */
  lemma LimitTextSizeBound(text: string)
    ensures |LimitTextSize(text, MAX_INPUT_TEXT_SIZE)| <= MAX_INPUT_TEXT_SIZE
    ensures |text| <= MAX_INPUT_TEXT_SIZE ==> LimitTextSize(text, MAX_INPUT_TEXT_SIZE) == text
  {
  }

  /** Truncating twice to the same size is truncating once. */
  lemma LimitTextSizeIdempotent(text: string, maxSize: int)
    ensures LimitTextSize(LimitTextSize(text, maxSize), maxSize) == LimitTextSize(text, maxSize)
  {
  }

  /** `array.slice(start)`: a negative start counts from the back; the start is clamped to the array. */
  function SliceFrom<T>(s: seq<T>, start: int): (r: seq<T>)
    ensures |r| <= |s| && r == s[|s| - |r|..]
  {
    var b := if start < 0 then (if |s| + start < 0 then 0 else |s| + start)
             else if start > |s| then |s| else start;
    s[b..]
  }

  /** `cleanupHistory(records, maxSize)`: the newest `maxSize` records when there are more. */
  function CleanupHistory<T>(records: seq<T>, maxSize: int): (r: seq<T>)
    ensures |r| <= |records| && r == records[|records| - |r|..]
  {
    if |records| <= maxSize then records else SliceFrom(records, -maxSize)
  }

  /** For a positive size, what is kept is exactly the last `min(length, maxSize)` records. */
  lemma CleanupHistoryKeepsNewest<T>(records: seq<T>, maxSize: int)
    requires maxSize > 0
    ensures |CleanupHistory(records, maxSize)| == if |records| <= maxSize then |records| else maxSize
  {
  }

  /** `slice(-0)` is `slice(0)`: a size of zero keeps every record. */
  lemma CleanupHistoryZero<T>(records: seq<T>)
    ensures CleanupHistory(records, 0) == records
  {
  }

  /** A negative size `-m` keeps the records from position `m` on. */
  lemma CleanupHistoryNegative<T>(records: seq<T>, m: int)
    requires 0 < m <= |records|
    ensures CleanupHistory(records, -m) == records[m..]
  {
  }
}
