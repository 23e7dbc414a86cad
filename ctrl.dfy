/**
 * The current cache-aside controller (internal/ctrl). Reads try the cache
 * first and fall back to the repository, filling the cache on a successful
 * fallback; successful writes invalidate the cache entry. The cache service
 * of this generation returns nothing from `Set` and `Delete`, so a cache
 * fault can never reach the caller, but the cache may still fail to act on
 * the call (a backend that swallows its own error).
 *
 * Every answer of a collaborator is a parameter: `readable` says whether the
 * cache read could succeed at all (false stands for a backend error, an
 * expired entry or bytes that do not decode), `answer` is what the
 * repository returns, `encodes` whether the JSON encoding of a fetched
 * record succeeded, `stored` whether the cache acted on a `Set` and
 * `removed` whether it acted on a `Delete`. A call the cache ignores is
 * still issued, so it is logged.
 */
module Ctrl {
  import opened Wrappers
  import opened Entities
  import opened Errors
  import opened CacheKeys
  import opened Effects

  class Controller {
    /** The cache's contents: key to the entity stored under it. */
    var cache: map<string, Cached>
    /** Every call issued to the cache and to the repository, in order. */
    ghost var calls: seq<Call>

    /** The controller only ever stores SEO records under SEO keys and pages under page keys. */
    ghost predicate Valid()
      reads this
    {
      WellTyped(cache)
    }

    constructor (initial: map<string, Cached>)
      requires WellTyped(initial)
      ensures Valid()
      ensures cache == initial && calls == []
    {
      cache := initial;
      calls := [];
    }

    /**
     * A hit returns the cached record without asking the repository. A miss
     * asks the repository; its record is returned and, when it encodes,
     * written back once under the same key with the default TTL. A failed
     * lookup writes nothing, and only not-found is translated.
     */
    method GetSEO(name: string, pk: string, readable: bool, answer: Result<SEO, RepoError>,
                  encodes: bool, stored: bool)
      returns (r: Result<SEO, CtrlError>)
      requires Valid()
      modifies this
      ensures Valid()
      ensures readable && SEOKey(name, pk) in old(cache) ==>
        && old(cache)[SEOKey(name, pk)].CachedSEO?
        && r == Ok(old(cache)[SEOKey(name, pk)].seo)
        && cache == old(cache)
        && calls == old(calls) + [CacheGet(SEOKey(name, pk))]
      ensures !(readable && SEOKey(name, pk) in old(cache)) && answer.Ok? ==>
        && r == Ok(answer.value)
        && (encodes ==>
              && cache == (if stored then old(cache)[SEOKey(name, pk) := CachedSEO(answer.value)] else old(cache))
              && calls == old(calls) + [CacheGet(SEOKey(name, pk)), RepoGetSEO(name, pk),
                                        CacheSet(DefaultCacheTime, SEOKey(name, pk), CachedSEO(answer.value))])
        && (!encodes ==>
              && cache == old(cache)
              && calls == old(calls) + [CacheGet(SEOKey(name, pk)), RepoGetSEO(name, pk)])
      ensures !(readable && SEOKey(name, pk) in old(cache)) && answer.Err? ==>
        && r == Err(LookupError(answer.error))
        && cache == old(cache)
        && calls == old(calls) + [CacheGet(SEOKey(name, pk)), RepoGetSEO(name, pk)]
    {
      var key := SEOKey(name, pk);
      calls := calls + [CacheGet(key)];
      if readable && key in cache {
        SEOKeyHoldsSEO(cache, name, pk);
        return Ok(cache[key].seo);
      }
      calls := calls + [RepoGetSEO(name, pk)];
      if answer.Err? {
        return Err(LookupError(answer.error));
      }
      if encodes {
        calls := calls + [CacheSet(DefaultCacheTime, key, CachedSEO(answer.value))];
        if stored {
          cache := cache[key := CachedSEO(answer.value)];
        }
      }
      return Ok(answer.value);
    }

    /**
     * Creation never touches the cache. The repository's natural key is
     * reported on success; a conflict becomes the controller's
     * already-exists and every other error passes through.
     */
    method CreateSEO(req: SEO, answer: Result<(string, string), RepoError>)
      returns (r: Result<CreateSEOResponse, CtrlError>)
      requires Valid()
      modifies this`calls
      ensures Valid()
      ensures cache == old(cache)
      ensures calls == old(calls) + [RepoCreateSEO(req)]
      ensures answer.Ok? ==> r == Ok(CreateSEOResponse(answer.value.0, answer.value.1))
      ensures answer.Err? ==> r == Err(ConflictError(answer.error))
    {
      calls := calls + [RepoCreateSEO(req)];
      if answer.Err? {
        return Err(ConflictError(answer.error));
      }
      var (name, pk) := answer.value;
      return Ok(CreateSEOResponse(name, pk));
    }

    /**
     * Only after the repository confirms the update is the entry under the
     * request's own natural key deleted; a failed update leaves the cache
     * alone and translates not-found.
     */
    method UpdateSEO(req: SEO, answer: Option<RepoError>, removed: bool) returns (err: Option<CtrlError>)
      requires Valid()
      modifies this
      ensures Valid()
      ensures answer.None? ==>
        && err.None?
        && cache == (if removed then old(cache) - {SEOKey(req.objName, req.objPK)} else old(cache))
        && calls == old(calls) + [RepoUpdateSEO(req), CacheDelete(SEOKey(req.objName, req.objPK))]
      ensures answer.Some? ==>
        && err == Some(LookupError(answer.value))
        && cache == old(cache)
        && calls == old(calls) + [RepoUpdateSEO(req)]
    {
      calls := calls + [RepoUpdateSEO(req)];
      if answer.Some? {
        return Some(LookupError(answer.value));
      }
      var key := SEOKey(req.objName, req.objPK);
      calls := calls + [CacheDelete(key)];
      if removed {
        cache := cache - {key};
      }
      return None;
    }

    /** The entry for `(name, pk)` is deleted strictly after a successful repository delete. */
    method DeleteSEO(name: string, pk: string, answer: Option<RepoError>, removed: bool)
      returns (err: Option<CtrlError>)
      requires Valid()
      modifies this
      ensures Valid()
      ensures answer.None? ==>
        && err.None?
        && cache == (if removed then old(cache) - {SEOKey(name, pk)} else old(cache))
        && calls == old(calls) + [RepoDeleteSEO(name, pk), CacheDelete(SEOKey(name, pk))]
      ensures answer.Some? ==>
        && err == Some(LookupError(answer.value))
        && cache == old(cache)
        && calls == old(calls) + [RepoDeleteSEO(name, pk)]
    {
      var key := SEOKey(name, pk);
      calls := calls + [RepoDeleteSEO(name, pk)];
      if answer.Some? {
        return Some(LookupError(answer.value));
      }
      calls := calls + [CacheDelete(key)];
      if removed {
        cache := cache - {key};
      }
      return None;
    }

    /** Listing is never cached: the repository's list, or its error unchanged. */
    method ListPages(answer: Result<seq<Page>, RepoError>) returns (r: Result<seq<Page>, CtrlError>)
      requires Valid()
      modifies this`calls
      ensures Valid()
      ensures cache == old(cache)
      ensures calls == old(calls) + [RepoListPages]
      ensures answer.Ok? ==> r == Ok(answer.value)
      ensures answer.Err? ==> r == Err(PassedThrough(answer.error))
    {
      calls := calls + [RepoListPages];
      if answer.Err? {
        return Err(PassedThrough(answer.error));
      }
      return Ok(answer.value);
    }

    /** The cache-aside read of a page, under "page:" + slug; same rules as GetSEO. */
    method GetPage(slug: string, readable: bool, answer: Result<Page, RepoError>, encodes: bool, stored: bool)
      returns (r: Result<Page, CtrlError>)
      requires Valid()
      modifies this
      ensures Valid()
      ensures readable && PageKey(slug) in old(cache) ==>
        && old(cache)[PageKey(slug)].CachedPage?
        && r == Ok(old(cache)[PageKey(slug)].page)
        && cache == old(cache)
        && calls == old(calls) + [CacheGet(PageKey(slug))]
      ensures !(readable && PageKey(slug) in old(cache)) && answer.Ok? ==>
        && r == Ok(answer.value)
        && (encodes ==>
              && cache == (if stored then old(cache)[PageKey(slug) := CachedPage(answer.value)] else old(cache))
              && calls == old(calls) + [CacheGet(PageKey(slug)), RepoGetPage(slug),
                                        CacheSet(DefaultCacheTime, PageKey(slug), CachedPage(answer.value))])
        && (!encodes ==>
              && cache == old(cache)
              && calls == old(calls) + [CacheGet(PageKey(slug)), RepoGetPage(slug)])
      ensures !(readable && PageKey(slug) in old(cache)) && answer.Err? ==>
        && r == Err(LookupError(answer.error))
        && cache == old(cache)
        && calls == old(calls) + [CacheGet(PageKey(slug)), RepoGetPage(slug)]
    {
      var key := PageKey(slug);
      calls := calls + [CacheGet(key)];
      if readable && key in cache {
        PageKeyHoldsPage(cache, slug);
        return Ok(cache[key].page);
      }
      calls := calls + [RepoGetPage(slug)];
      if answer.Err? {
        return Err(LookupError(answer.error));
      }
      if encodes {
        calls := calls + [CacheSet(DefaultCacheTime, key, CachedPage(answer.value))];
        if stored {
          cache := cache[key := CachedPage(answer.value)];
        }
      }
      return Ok(answer.value);
    }

    /** Page creation never touches the cache; success reports the repository's slug. */
    method CreatePage(req: Page, answer: Result<string, RepoError>)
      returns (r: Result<CreatePageResponse, CtrlError>)
      requires Valid()
      modifies this`calls
      ensures Valid()
      ensures cache == old(cache)
      ensures calls == old(calls) + [RepoCreatePage(req)]
      ensures answer.Ok? ==> r == Ok(CreatePageResponse(answer.value))
      ensures answer.Err? ==> r == Err(ConflictError(answer.error))
    {
      calls := calls + [RepoCreatePage(req)];
      if answer.Err? {
        return Err(ConflictError(answer.error));
      }
      return Ok(CreatePageResponse(answer.value));
    }

    /**
     * After a successful update the entry under the PATH slug is deleted,
     * whatever slug the request body carries.
     */
    method UpdatePage(slug: string, req: Page, answer: Option<RepoError>, removed: bool)
      returns (err: Option<CtrlError>)
      requires Valid()
      modifies this
      ensures Valid()
      ensures answer.None? ==>
        && err.None?
        && cache == (if removed then old(cache) - {PageKey(slug)} else old(cache))
        && calls == old(calls) + [RepoUpdatePage(slug, req), CacheDelete(PageKey(slug))]
      ensures answer.Some? ==>
        && err == Some(LookupError(answer.value))
        && cache == old(cache)
        && calls == old(calls) + [RepoUpdatePage(slug, req)]
    {
      calls := calls + [RepoUpdatePage(slug, req)];
      if answer.Some? {
        return Some(LookupError(answer.value));
      }
      calls := calls + [CacheDelete(PageKey(slug))];
      if removed {
        cache := cache - {PageKey(slug)};
      }
      return None;
    }

    /** The page entry is deleted strictly after a successful repository delete. */
    method DeletePage(slug: string, answer: Option<RepoError>, removed: bool) returns (err: Option<CtrlError>)
      requires Valid()
      modifies this
      ensures Valid()
      ensures answer.None? ==>
        && err.None?
        && cache == (if removed then old(cache) - {PageKey(slug)} else old(cache))
        && calls == old(calls) + [RepoDeletePage(slug), CacheDelete(PageKey(slug))]
      ensures answer.Some? ==>
        && err == Some(LookupError(answer.value))
        && cache == old(cache)
        && calls == old(calls) + [RepoDeletePage(slug)]
    {
      calls := calls + [RepoDeletePage(slug)];
      if answer.Some? {
        return Some(LookupError(answer.value));
      }
      calls := calls + [CacheDelete(PageKey(slug))];
      if removed {
        cache := cache - {PageKey(slug)};
      }
      return None;
    }
  }

  /**
   * No stale read after a successful update whose invalidation the cache
   * performed: whatever the cache held, the next read of the same natural
   * key goes to the repository and returns its record.
   */
  method UpdateThenGetSEO(c: Controller, req: SEO, readable: bool, current: SEO, encodes: bool, stored: bool)
    returns (r: Result<SEO, CtrlError>)
    requires c.Valid()
    modifies c
    ensures c.Valid()
    ensures r == Ok(current)
  {
    var err := c.UpdateSEO(req, None, true);
    r := c.GetSEO(req.objName, req.objPK, readable, Ok(current), encodes, stored);
  }

  /**
   * After a successful delete that the cache performed, the next read misses
   * the cache and reports the repository's not-found.
   */
  method DeleteThenGetPage(c: Controller, slug: string, readable: bool, encodes: bool, stored: bool)
    returns (r: Result<Page, CtrlError>)
    requires c.Valid()
    modifies c
    ensures c.Valid()
    ensures r == Err(NotFound)
    ensures PageKey(slug) !in c.cache
  {
    var err := c.DeletePage(slug, None, true);
    r := c.GetPage(slug, readable, Err(RepoNotFound), encodes, stored);
  }

  /**
   * The staleness window remains in this generation, only silent: when the
   * cache does not act on the `Delete` after a successful update, the update
   * is reported successful and the next readable read serves the record
   * cached before it, not the repository's.
   */
  method StaleReadAfterIgnoredInvalidation(c: Controller, req: SEO, stale: SEO, current: SEO)
    returns (err: Option<CtrlError>, r: Result<SEO, CtrlError>)
    requires c.Valid()
    requires c.cache == map[SEOKey(req.objName, req.objPK) := CachedSEO(stale)]
    modifies c
    ensures err.None?
    ensures r == Ok(stale)
  {
    err := c.UpdateSEO(req, None, false);
    r := c.GetSEO(req.objName, req.objPK, true, Ok(current), true, true);
  }
}
