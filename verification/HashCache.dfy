/** The hash cache: a bounded least-recently-used map per algorithm, and the segments of `hashFile` around its awaits. */
module HashCache {
  import opened Wrappers
  import opened InsertionMap

  datatype Algorithm = XxHash64 | Sha256

  /** Modification times are whole milliseconds by the time they get here. */
  datatype FileIdentity = FileIdentity(size: int, mtimeMs: int, dev: int, ino: int)

  datatype CacheEntry = CacheEntry(identity: FileIdentity, digest: string)

  type Cache = OrderedMap<CacheEntry>

  datatype Caches = Caches(xxhash64: Cache, sha256: Cache) {
    function Of(algorithm: Algorithm): Cache {
      if algorithm.XxHash64? then xxhash64 else sha256
    }

    function With(algorithm: Algorithm, cache: Cache): Caches {
      if algorithm.XxHash64? then this.(xxhash64 := cache) else this.(sha256 := cache)
    }
  }

  const EMPTY: Cache := OrderedMap([], map[])

  // -- The LRU as a value -----------------------------------------------------

  /** Moves a present key to the back. */
  function Used(cache: Cache, key: string): Cache {
    if key in cache.entries then cache.Delete(key).Set(key, cache.entries[key]) else cache
  }

  /** Drops from the front until the bound holds. */
  function Trimmed(cache: Cache, max: nat): Cache
    decreases |cache.order|
  {
    if |cache.order| <= max || |cache.order| == 0 then cache
    else Trimmed(OrderedMap(cache.order[1..], cache.entries - {cache.order[0]}), max)
  }

  function Stored(cache: Cache, key: string, entry: CacheEntry, max: nat): Cache {
    Trimmed(cache.Delete(key).Set(key, entry), max)
  }

  /** Exactly the newest keys survive a trim, with their entries. */
  lemma {:induction false} TrimKeepsNewest(cache: Cache, max: nat)
    requires cache.Valid()
    ensures
      var t, n := Trimmed(cache, max), |cache.order|;
      && t.Valid() && |t.order| <= max
      && t.order == cache.order[if n <= max then 0 else n - max..]
      && (forall k :: k in t.entries ==> k in cache.entries && t.entries[k] == cache.entries[k])
    decreases |cache.order|
  {
    if |cache.order| > max {
      OldestRemoved(cache);
      TrimKeepsNewest(OrderedMap(cache.order[1..], cache.entries - {cache.order[0]}), max);
    }
  }

  lemma UsedKeeps(cache: Cache, key: string)
    requires cache.Valid()
    ensures
      var used := Used(cache, key);
      && used.Valid() && used.entries == cache.entries && |used.order| == |cache.order|
      && (key in cache.entries ==> used.order == Without(cache.order, key) + [key])
  {
    if key in cache.entries {
      TouchedMovesToBack(cache, key, cache.entries[key]);
      DeleteValid(cache, key);
    }
  }

  /** Storing puts a key at the back, keeps the newest others, and never exceeds the bound. */
  lemma StoreKeepsNewest(cache: Cache, key: string, entry: CacheEntry, max: nat)
    requires cache.Valid()
    ensures
      var s, order := Stored(cache, key, entry, max), Without(cache.order, key) + [key];
      && s.Valid() && |s.order| <= max
      && s.order == order[if |order| <= max then 0 else |order| - max..]
      && (max > 0 ==> key in s.entries && s.entries[key] == entry)
      && (forall k :: k in s.entries && k != key ==> k in cache.entries && s.entries[k] == cache.entries[k])
  {
    TouchedMovesToBack(cache, key, entry);
    var touched := cache.Delete(key).Set(key, entry);
    TrimKeepsNewest(touched, max);
    var s := Trimmed(touched, max);
    if max > 0 {
      assert s.order[|s.order| - 1] == key;
      LastIsElement(s.order);
    }
  }

  class LruCache {
    const max: nat
    var entries: Cache

    ghost predicate Valid()
      reads this
    {
      entries.Valid() && |entries.order| <= max
    }

    constructor (max: nat)
      ensures Valid() && this.max == max && entries == EMPTY
    {
      this.max := max;
      entries := EMPTY;
    }

    method Get(key: string) returns (found: Option<CacheEntry>)
      requires Valid()
      modifies this
      ensures Valid() && entries == Used(old(entries), key) && entries.entries == old(entries.entries)
      ensures found == if key in entries.entries then Some(entries.entries[key]) else None
    {
      UsedKeeps(entries, key);
      if key !in entries.entries {
        return None;
      }
      var entry := entries.entries[key];
      entries := entries.Delete(key);
      entries := entries.Set(key, entry);
      return Some(entry);
    }

    method Put(key: string, entry: CacheEntry)
      requires Valid()
      modifies this
      ensures Valid() && entries == Stored(old(entries), key, entry, max)
    {
      StoreKeepsNewest(entries, key, entry, max);
      TouchedMovesToBack(entries, key, entry);
      if key in entries.entries {
        entries := entries.Delete(key);
      }
      entries := entries.Set(key, entry);
      while |entries.order| > max
        invariant entries.Valid() && Trimmed(entries, max) == Stored(old(entries), key, entry, max)
        decreases |entries.order|
      {
        OldestRemoved(entries);
        entries := entries.Delete(entries.order[0]);
      }
    }

    method Remove(key: string)
      requires Valid()
      modifies this
      ensures Valid() && entries == old(entries).Delete(key)
    {
      DeleteValid(entries, key);
      entries := entries.Delete(key);
    }

    method Clear()
      modifies this
      ensures Valid() && entries == EMPTY
    {
      entries := EMPTY;
    }
  }

  class HashService {
    const xxhash64: LruCache
    const sha256: LruCache
    var hits: nat
    var misses: nat
    var bytesRead: nat
    var filesHashed: nat

    ghost predicate Valid()
      reads this, xxhash64, sha256
    {
      xxhash64 != sha256 && xxhash64.max == sha256.max && xxhash64.Valid() && sha256.Valid()
    }

    ghost function Contents(): Caches
      reads xxhash64, sha256
    {
      Caches(xxhash64.entries, sha256.entries)
    }

    constructor (cacheSize: nat)
      ensures Valid() && fresh(xxhash64) && fresh(sha256) && xxhash64.max == cacheSize
      ensures Contents() == Caches(EMPTY, EMPTY)
    {
      xxhash64 := new LruCache(cacheSize);
      sha256 := new LruCache(cacheSize);
      hits, misses, bytesRead, filesHashed := 0, 0, 0, 0;
    }

    function CacheFor(algorithm: Algorithm): LruCache {
      if algorithm.XxHash64? then xxhash64 else sha256
    }

    /** The segment after the first `stat`: answer from the cache, or go and read. */
    method Lookup(path: string, algorithm: Algorithm, identity: FileIdentity) returns (digest: Option<string>)
      requires Valid()
      modifies this, xxhash64, sha256
      ensures Valid()
      ensures
        var cache := old(Contents()).Of(algorithm);
        digest == if path in cache.entries && cache.entries[path].identity == identity
                  then Some(cache.entries[path].digest) else None
      ensures Contents() == old(Contents()).With(algorithm, Used(old(Contents()).Of(algorithm), path))
      ensures hits == old(hits) + (if digest.Some? then 1 else 0) && misses == old(misses) + (if digest.Some? then 0 else 1)
    {
      var cached := CacheFor(algorithm).Get(path);
      if cached.Some? && cached.value.identity == identity {
        hits := hits + 1;
        return Some(cached.value.digest);
      }
      misses := misses + 1;
      return None;
    }

    /** The segment after the read: remember what was read, under the identity found before reading. */
    method Store(path: string, algorithm: Algorithm, identity: FileIdentity, digest: string, read: nat)
      requires Valid()
      modifies this, xxhash64, sha256
      ensures Valid()
      ensures Contents() == old(Contents()).With(
        algorithm, Stored(old(Contents()).Of(algorithm), path, CacheEntry(identity, digest), xxhash64.max))
      ensures hits == old(hits) && misses == old(misses)
      ensures bytesRead == old(bytesRead) + read && filesHashed == old(filesHashed) + 1
    {
      bytesRead := bytesRead + read;
      filesHashed := filesHashed + 1;
      CacheFor(algorithm).Put(path, CacheEntry(identity, digest));
    }

    method Invalidate(path: string)
      requires Valid()
      modifies xxhash64, sha256
      ensures Valid()
      ensures Contents() == Caches(old(xxhash64.entries).Delete(path), old(sha256.entries).Delete(path))
    {
      xxhash64.Remove(path);
      sha256.Remove(path);
    }

    method Clear()
      requires Valid()
      modifies this, xxhash64, sha256
      ensures Valid() && Contents() == Caches(EMPTY, EMPTY)
      ensures hits == 0 && misses == 0 && bytesRead == 0 && filesHashed == 0
    {
      xxhash64.Clear();
      sha256.Clear();
      hits, misses, bytesRead, filesHashed := 0, 0, 0, 0;
    }
  }
}
