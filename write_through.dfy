/**
 * The write-through SEO controller (internal/controller/seo_controller.go).
 * Reads are cache-aside as in the other generations, but create and update
 * overwrite the cache entry with the record the repository returns instead
 * of deleting it; only delete invalidates. Cache faults are logged and
 * swallowed. Parameters stand for the collaborators' answers as in module
 * LegacyCtrl.
 */
module WriteThrough {
  import opened Wrappers
  import opened Entities
  import opened Errors
  import opened CacheKeys
  import opened Effects

  class Controller {
    /** The cache's contents: key to the entity stored under it. */
    var cache: map<string, Cached>
    /** Every call issued to the cache and to the repository, in order. */
    ghost var calls: seq<Call>

    /** SEO records only under SEO keys, pages only under page keys. */
    ghost predicate Valid()
      reads this
    {
      WellTyped(cache)
    }

    constructor (initial: map<string, Cached>)
      requires WellTyped(initial)
      ensures Valid()
      ensures cache == initial && calls == []
    {
      cache := initial;
      calls := [];
    }

    /** Cache-aside read: hit without the repository, miss then one Set, no negative caching. */
    method GetSEO(name: string, pk: string, readable: bool, answer: Result<SEO, RepoError>,
                  encodes: bool, stored: bool)
      returns (r: Result<SEO, CtrlError>)
      requires Valid()
      modifies this
      ensures Valid()
      ensures readable && SEOKey(name, pk) in old(cache) ==>
        && old(cache)[SEOKey(name, pk)].CachedSEO?
        && r == Ok(old(cache)[SEOKey(name, pk)].seo)
        && cache == old(cache)
        && calls == old(calls) + [CacheGet(SEOKey(name, pk))]
      ensures !(readable && SEOKey(name, pk) in old(cache)) && answer.Ok? ==>
        && r == Ok(answer.value)
        && (encodes ==>
              && calls == old(calls) + [CacheGet(SEOKey(name, pk)), RepoGetSEO(name, pk),
                                        CacheSet(DefaultCacheTime, SEOKey(name, pk), CachedSEO(answer.value))]
              && cache == if stored then old(cache)[SEOKey(name, pk) := CachedSEO(answer.value)] else old(cache))
        && (!encodes ==>
              && cache == old(cache)
              && calls == old(calls) + [CacheGet(SEOKey(name, pk)), RepoGetSEO(name, pk)])
      ensures !(readable && SEOKey(name, pk) in old(cache)) && answer.Err? ==>
        && r == Err(LookupError(answer.error))
        && cache == old(cache)
        && calls == old(calls) + [CacheGet(SEOKey(name, pk)), RepoGetSEO(name, pk)]
    {
      var key := SEOKey(name, pk);
      calls := calls + [CacheGet(key)];
      if readable && key in cache {
        SEOKeyHoldsSEO(cache, name, pk);
        return Ok(cache[key].seo);
      }
      calls := calls + [RepoGetSEO(name, pk)];
      if answer.Err? {
        return Err(LookupError(answer.error));
      }
      if encodes {
        calls := calls + [CacheSet(DefaultCacheTime, key, CachedSEO(answer.value))];
        if stored {
          cache := cache[key := CachedSEO(answer.value)];
        }
      }
      return Ok(answer.value);
    }

    /**
     * A conflict is reported as already-exists and leaves the cache alone;
     * success writes the repository's record under the path's natural key,
     * and a refused write is swallowed.
     */
    method CreateSEO(name: string, pk: string, req: SEO, answer: Result<SEO, RepoError>,
                     encodes: bool, stored: bool)
      returns (err: Option<CtrlError>)
      requires Valid()
      modifies this
      ensures Valid()
      ensures answer.Err? ==>
        && err == Some(ConflictError(answer.error))
        && cache == old(cache)
        && calls == old(calls) + [RepoCreateSEOFor(name, pk, req)]
      ensures answer.Ok? ==>
        && err.None?
        && calls == old(calls) + [RepoCreateSEOFor(name, pk, req)] +
             (if encodes then [CacheSet(DefaultCacheTime, SEOKey(name, pk), CachedSEO(answer.value))] else [])
        && cache == if encodes && stored then old(cache)[SEOKey(name, pk) := CachedSEO(answer.value)] else old(cache)
    {
      calls := calls + [RepoCreateSEOFor(name, pk, req)];
      if answer.Err? {
        return Some(ConflictError(answer.error));
      }
      if encodes {
        var key := SEOKey(name, pk);
        calls := calls + [CacheSet(DefaultCacheTime, key, CachedSEO(answer.value))];
        if stored {
          cache := cache[key := CachedSEO(answer.value)];
        }
      }
      return None;
    }

    /**
     * A failed update translates not-found and leaves the cache alone; success
     * overwrites the entry with the repository's updated record rather than
     * deleting it.
     */
    method UpdateSEO(name: string, pk: string, req: SEO, answer: Result<SEO, RepoError>,
                     encodes: bool, stored: bool)
      returns (err: Option<CtrlError>)
      requires Valid()
      modifies this
      ensures Valid()
      ensures answer.Err? ==>
        && err == Some(LookupError(answer.error))
        && cache == old(cache)
        && calls == old(calls) + [RepoUpdateSEOFor(name, pk, req)]
      ensures answer.Ok? ==>
        && err.None?
        && calls == old(calls) + [RepoUpdateSEOFor(name, pk, req)] +
             (if encodes then [CacheSet(DefaultCacheTime, SEOKey(name, pk), CachedSEO(answer.value))] else [])
        && cache == if encodes && stored then old(cache)[SEOKey(name, pk) := CachedSEO(answer.value)] else old(cache)
    {
      calls := calls + [RepoUpdateSEOFor(name, pk, req)];
      if answer.Err? {
        return Some(LookupError(answer.error));
      }
      if encodes {
        var key := SEOKey(name, pk);
        calls := calls + [CacheSet(DefaultCacheTime, key, CachedSEO(answer.value))];
        if stored {
          cache := cache[key := CachedSEO(answer.value)];
        }
      }
      return None;
    }

    /** Deletion invalidates after repository success only; a failed cache delete is swallowed. */
    method DeleteSEO(name: string, pk: string, answer: Option<RepoError>, removed: bool)
      returns (err: Option<CtrlError>)
      requires Valid()
      modifies this
      ensures Valid()
      ensures answer.None? ==>
        && err.None?
        && cache == (if removed then old(cache) - {SEOKey(name, pk)} else old(cache))
        && calls == old(calls) + [RepoDeleteSEO(name, pk), CacheDelete(SEOKey(name, pk))]
      ensures answer.Some? ==>
        && err == Some(LookupError(answer.value))
        && cache == old(cache)
        && calls == old(calls) + [RepoDeleteSEO(name, pk)]
    {
      calls := calls + [RepoDeleteSEO(name, pk)];
      if answer.Some? {
        return Some(LookupError(answer.value));
      }
      var key := SEOKey(name, pk);
      calls := calls + [CacheDelete(key)];
      if removed {
        cache := cache - {key};
      }
      return None;
    }
  }

  /**
   * Write-through keeps reads current: after a successful update whose
   * cache write goes through, the next readable read is served from the
   * cache and returns the repository's updated record.
   */
  method UpdateThenGetSEO(c: Controller, name: string, pk: string, req: SEO, updated: SEO, other: Result<SEO, RepoError>)
    returns (r: Result<SEO, CtrlError>)
    requires c.Valid()
    modifies c
    ensures r == Ok(updated)
  {
    var err := c.UpdateSEO(name, pk, req, Ok(updated), true, true);
    r := c.GetSEO(name, pk, true, other, true, true);
  }
}
