/**
 * The memoising icon cache of src/icon_cache.rs.  A handle is identified by
 * where its image comes from: a file path, or one of the two images
 * embedded in the program.
 */
module IconCache {

  datatype IconKey = Text | Dir | Path(path: string)

  /** The SVG images compiled into the program. */
  datatype EmbeddedImage = TextPlainSvg | InodeDirectorySvg

  /** `svg::Handle::from_path` or `svg::Handle::from_memory`. */
  datatype Handle = FromPath(path: string) | FromMemory(image: EmbeddedImage)

  /** The handle built on a miss, by kind of key. */
  function HandleFor(key: IconKey): Handle
  {
    match key
    case Path(path) => FromPath(path)
    case Text => FromMemory(TextPlainSvg)
    case Dir => FromMemory(InodeDirectorySvg)
  }

  /**
   * One lookup on a cache value: the handle returned and the cache after.
   * A hit returns the stored handle and changes nothing; a miss stores
   * exactly one new key.
   */
  function Lookup(cache: map<IconKey, Handle>, key: IconKey): (r: (Handle, map<IconKey, Handle>))
    ensures key in r.1 && r.1[key] == r.0
    ensures key in cache ==> r.0 == cache[key] && r.1 == cache
    ensures key !in cache ==> r.0 == HandleFor(key) && r.1.Keys == cache.Keys + {key}
    ensures forall k :: k in cache ==> k in r.1 && r.1[k] == cache[k]
  {
    if key in cache then (cache[key], cache)
    else (HandleFor(key), cache[key := HandleFor(key)])
  }

  /** The cache after a sequence of lookups. */
  function Run(cache: map<IconKey, Handle>, keys: seq<IconKey>): map<IconKey, Handle>
    decreases |keys|
  {
    if keys == [] then cache else Run(Lookup(cache, keys[0]).1, keys[1..])
  }

  /** Every stored handle is the one its key would be built with. */
  ghost predicate Coherent(cache: map<IconKey, Handle>)
  {
    forall k :: k in cache ==> cache[k] == HandleFor(k)
  }

  /**
   * Over any sequence of lookups entries are never removed or replaced, every
   * key looked up ends up cached, and a coherent cache stays coherent.
   */
  lemma {:induction false} RunOnlyGrows(cache: map<IconKey, Handle>, keys: seq<IconKey>)
    ensures Run(cache, keys).Keys == cache.Keys + (set k | k in keys)
    ensures forall k :: k in cache ==> Run(cache, keys)[k] == cache[k]
    ensures Coherent(cache) ==> Coherent(Run(cache, keys))
    decreases |keys|
  {
    if keys != [] {
      var next := Lookup(cache, keys[0]).1;
      RunOnlyGrows(next, keys[1..]);
      assert keys == [keys[0]] + keys[1..];
    }
  }

  /** A repeated lookup returns the same handle and leaves the cache as it was. */
  lemma LookupIdempotent(cache: map<IconKey, Handle>, key: IconKey)
    ensures var (h, after) := Lookup(cache, key);
      Lookup(after, key) == (h, after)
  {
  }

  /** The process-wide cache, as an object constructed once and shared. */
  class IconCache {
    var cache: map<IconKey, Handle>

    ghost predicate Valid()
      reads this
    {
      Coherent(cache)
    }

    constructor ()
      ensures Valid() && cache == map[]
    {
      cache := map[];
    }

    /** `get_icon_handle`: look up `key`, building and storing its handle on a miss. */
    method GetIconHandle(key: IconKey) returns (handle: Handle)
      requires Valid()
      modifies this
      ensures Valid()
      ensures (handle, cache) == Lookup(old(cache), key)
      ensures handle == HandleFor(key)
    {
      if key in cache {
        return cache[key];
      }
      if key.Path? {
        handle := FromPath(key.path);
        cache := cache[key := handle];
        return handle;
      }
      if key.Text? {
        handle := FromMemory(TextPlainSvg);
        cache := cache[key := handle];
        return handle;
      }
      handle := FromMemory(InodeDirectorySvg);
      cache := cache[key := handle];
      return handle;
    }
  }
}
