/**
 * The older cache-aside controller (internal/controller/seo_ctrl.go and
 * page_ctrl.go). Its cache returns an error from `Set` and `Delete`; the
 * controller checks it, logs it and carries on, so the caller never sees a
 * cache fault, but a failed `Delete` leaves a stale entry behind.
 *
 * Parameters stand for the collaborators' answers, as in module Ctrl, plus
 * `stored` (the cache accepted the `Set`) and `removed` (the cache performed
 * the `Delete`). A call the cache rejects is still issued, so it is logged.
 */
module LegacyCtrl {
  import opened Wrappers
  import opened Entities
  import opened Errors
  import opened CacheKeys
  import opened Effects

  class Controller {
    /** The cache's contents: key to the entity stored under it. */
    var cache: map<string, Cached>
    /** Every call issued to the cache and to the repository, in order. */
    ghost var calls: seq<Call>

    /** SEO records only under SEO keys, pages only under page keys. */
    ghost predicate Valid()
      reads this
    {
      WellTyped(cache)
    }

    constructor (initial: map<string, Cached>)
      requires WellTyped(initial)
      ensures Valid()
      ensures cache == initial && calls == []
    {
      cache := initial;
      calls := [];
    }

    /**
     * A hit returns the cached record with no repository call. A miss asks
     * the repository; a found record is returned with no error even when the
     * cache refuses to store it. Not-found is translated and never cached.
     */
    method GetSEO(name: string, pk: string, readable: bool, answer: Result<SEO, RepoError>,
                  encodes: bool, stored: bool)
      returns (r: Result<SEO, CtrlError>)
      requires Valid()
      modifies this
      ensures Valid()
      ensures readable && SEOKey(name, pk) in old(cache) ==>
        && old(cache)[SEOKey(name, pk)].CachedSEO?
        && r == Ok(old(cache)[SEOKey(name, pk)].seo)
        && cache == old(cache)
        && calls == old(calls) + [CacheGet(SEOKey(name, pk))]
      ensures !(readable && SEOKey(name, pk) in old(cache)) && answer.Ok? ==>
        && r == Ok(answer.value)
        && (encodes ==>
              && calls == old(calls) + [CacheGet(SEOKey(name, pk)), RepoGetSEO(name, pk),
                                        CacheSet(DefaultCacheTime, SEOKey(name, pk), CachedSEO(answer.value))]
              && cache == if stored then old(cache)[SEOKey(name, pk) := CachedSEO(answer.value)] else old(cache))
        && (!encodes ==>
              && cache == old(cache)
              && calls == old(calls) + [CacheGet(SEOKey(name, pk)), RepoGetSEO(name, pk)])
      ensures !(readable && SEOKey(name, pk) in old(cache)) && answer.Err? ==>
        && r == Err(LookupError(answer.error))
        && cache == old(cache)
        && calls == old(calls) + [CacheGet(SEOKey(name, pk)), RepoGetSEO(name, pk)]
    {
      var key := SEOKey(name, pk);
      calls := calls + [CacheGet(key)];
      if readable && key in cache {
        SEOKeyHoldsSEO(cache, name, pk);
        return Ok(cache[key].seo);
      }
      calls := calls + [RepoGetSEO(name, pk)];
      if answer.Err? {
        return Err(LookupError(answer.error));
      }
      if encodes {
        calls := calls + [CacheSet(DefaultCacheTime, key, CachedSEO(answer.value))];
        if stored {
          cache := cache[key := CachedSEO(answer.value)];
        }
      }
      return Ok(answer.value);
    }

    /**
     * Creation never touches the cache. Success reports the repository's id;
     * a failure reports id 0 with already-exists translated and any other
     * error passed through.
     */
    method CreateSEO(req: SEO, answer: Result<uint64, RepoError>) returns (id: uint64, err: Option<CtrlError>)
      requires Valid()
      modifies this`calls
      ensures Valid()
      ensures cache == old(cache)
      ensures calls == old(calls) + [RepoCreateSEO(req)]
      ensures answer.Ok? ==> id == answer.value && err.None?
      ensures answer.Err? ==> id == 0 && err == Some(ConflictError(answer.error))
    {
      calls := calls + [RepoCreateSEO(req)];
      if answer.Err? {
        return 0, Some(ConflictError(answer.error));
      }
      return answer.value, None;
    }

    /**
     * After a successful update the entry under the request's natural key is
     * deleted; the update is reported successful even when the cache fails to
     * delete, in which case the old entry stays.
     */
    method UpdateSEO(req: SEO, answer: Option<RepoError>, removed: bool) returns (err: Option<CtrlError>)
      requires Valid()
      modifies this
      ensures Valid()
      ensures answer.None? ==>
        && err.None?
        && cache == (if removed then old(cache) - {SEOKey(req.objName, req.objPK)} else old(cache))
        && calls == old(calls) + [RepoUpdateSEO(req), CacheDelete(SEOKey(req.objName, req.objPK))]
      ensures answer.Some? ==>
        && err == Some(LookupError(answer.value))
        && cache == old(cache)
        && calls == old(calls) + [RepoUpdateSEO(req)]
    {
      calls := calls + [RepoUpdateSEO(req)];
      if answer.Some? {
        return Some(LookupError(answer.value));
      }
      var key := SEOKey(req.objName, req.objPK);
      calls := calls + [CacheDelete(key)];
      if removed {
        cache := cache - {key};
      }
      return None;
    }

    /** Deletion invalidates after repository success only; a failed cache delete is swallowed. */
    method DeleteSEO(name: string, pk: string, answer: Option<RepoError>, removed: bool)
      returns (err: Option<CtrlError>)
      requires Valid()
      modifies this
      ensures Valid()
      ensures answer.None? ==>
        && err.None?
        && cache == (if removed then old(cache) - {SEOKey(name, pk)} else old(cache))
        && calls == old(calls) + [RepoDeleteSEO(name, pk), CacheDelete(SEOKey(name, pk))]
      ensures answer.Some? ==>
        && err == Some(LookupError(answer.value))
        && cache == old(cache)
        && calls == old(calls) + [RepoDeleteSEO(name, pk)]
    {
      var key := SEOKey(name, pk);
      calls := calls + [RepoDeleteSEO(name, pk)];
      if answer.Some? {
        return Some(LookupError(answer.value));
      }
      calls := calls + [CacheDelete(key)];
      if removed {
        cache := cache - {key};
      }
      return None;
    }

    /** Listing is never cached: the repository's list, or its error unchanged. */
    method ListPages(answer: Result<seq<Page>, RepoError>) returns (r: Result<seq<Page>, CtrlError>)
      requires Valid()
      modifies this`calls
      ensures Valid()
      ensures cache == old(cache)
      ensures calls == old(calls) + [RepoListPages]
      ensures answer.Ok? ==> r == Ok(answer.value)
      ensures answer.Err? ==> r == Err(PassedThrough(answer.error))
    {
      calls := calls + [RepoListPages];
      if answer.Err? {
        return Err(PassedThrough(answer.error));
      }
      return Ok(answer.value);
    }

    /** The cache-aside read of a page under "page:" + slug; same rules as GetSEO. */
    method GetPage(slug: string, readable: bool, answer: Result<Page, RepoError>, encodes: bool, stored: bool)
      returns (r: Result<Page, CtrlError>)
      requires Valid()
      modifies this
      ensures Valid()
      ensures readable && PageKey(slug) in old(cache) ==>
        && old(cache)[PageKey(slug)].CachedPage?
        && r == Ok(old(cache)[PageKey(slug)].page)
        && cache == old(cache)
        && calls == old(calls) + [CacheGet(PageKey(slug))]
      ensures !(readable && PageKey(slug) in old(cache)) && answer.Ok? ==>
        && r == Ok(answer.value)
        && (encodes ==>
              && calls == old(calls) + [CacheGet(PageKey(slug)), RepoGetPage(slug),
                                        CacheSet(DefaultCacheTime, PageKey(slug), CachedPage(answer.value))]
              && cache == if stored then old(cache)[PageKey(slug) := CachedPage(answer.value)] else old(cache))
        && (!encodes ==>
              && cache == old(cache)
              && calls == old(calls) + [CacheGet(PageKey(slug)), RepoGetPage(slug)])
      ensures !(readable && PageKey(slug) in old(cache)) && answer.Err? ==>
        && r == Err(LookupError(answer.error))
        && cache == old(cache)
        && calls == old(calls) + [CacheGet(PageKey(slug)), RepoGetPage(slug)]
    {
      var key := PageKey(slug);
      calls := calls + [CacheGet(key)];
      if readable && key in cache {
        PageKeyHoldsPage(cache, slug);
        return Ok(cache[key].page);
      }
      calls := calls + [RepoGetPage(slug)];
      if answer.Err? {
        return Err(LookupError(answer.error));
      }
      if encodes {
        calls := calls + [CacheSet(DefaultCacheTime, key, CachedPage(answer.value))];
        if stored {
          cache := cache[key := CachedPage(answer.value)];
        }
      }
      return Ok(answer.value);
    }

    /**
     * Page creation never touches the cache. Success reports the repository's
     * slug; a failure reports "" with already-exists translated.
     */
    method CreatePage(req: Page, answer: Result<string, RepoError>) returns (slug: string, err: Option<CtrlError>)
      requires Valid()
      modifies this`calls
      ensures Valid()
      ensures cache == old(cache)
      ensures calls == old(calls) + [RepoCreatePage(req)]
      ensures answer.Ok? ==> slug == answer.value && err.None?
      ensures answer.Err? ==> slug == "" && err == Some(ConflictError(answer.error))
    {
      calls := calls + [RepoCreatePage(req)];
      if answer.Err? {
        return "", Some(ConflictError(answer.error));
      }
      return answer.value, None;
    }

    /** After a successful update "page:" + slug is deleted; a failed cache delete is swallowed. */
    method UpdatePage(slug: string, req: Page, answer: Option<RepoError>, removed: bool)
      returns (err: Option<CtrlError>)
      requires Valid()
      modifies this
      ensures Valid()
      ensures answer.None? ==>
        && err.None?
        && cache == (if removed then old(cache) - {PageKey(slug)} else old(cache))
        && calls == old(calls) + [RepoUpdatePage(slug, req), CacheDelete(PageKey(slug))]
      ensures answer.Some? ==>
        && err == Some(LookupError(answer.value))
        && cache == old(cache)
        && calls == old(calls) + [RepoUpdatePage(slug, req)]
    {
      calls := calls + [RepoUpdatePage(slug, req)];
      if answer.Some? {
        return Some(LookupError(answer.value));
      }
      calls := calls + [CacheDelete(PageKey(slug))];
      if removed {
        cache := cache - {PageKey(slug)};
      }
      return None;
    }

    /** After a successful delete "page:" + slug is deleted; a failed cache delete is swallowed. */
    method DeletePage(slug: string, answer: Option<RepoError>, removed: bool) returns (err: Option<CtrlError>)
      requires Valid()
      modifies this
      ensures Valid()
      ensures answer.None? ==>
        && err.None?
        && cache == (if removed then old(cache) - {PageKey(slug)} else old(cache))
        && calls == old(calls) + [RepoDeletePage(slug), CacheDelete(PageKey(slug))]
      ensures answer.Some? ==>
        && err == Some(LookupError(answer.value))
        && cache == old(cache)
        && calls == old(calls) + [RepoDeletePage(slug)]
    {
      calls := calls + [RepoDeletePage(slug)];
      if answer.Some? {
        return Some(LookupError(answer.value));
      }
      calls := calls + [CacheDelete(PageKey(slug))];
      if removed {
        cache := cache - {PageKey(slug)};
      }
      return None;
    }
  }

  /**
   * The staleness window: when the cache fails to delete after a successful
   * update, the update is still reported successful and the next readable
   * read serves the record cached before the update, not the repository's.
   */
  method StaleReadAfterFailedInvalidation(c: Controller, req: SEO, stale: SEO, current: SEO)
    returns (err: Option<CtrlError>, r: Result<SEO, CtrlError>)
    requires c.Valid()
    requires c.cache == map[SEOKey(req.objName, req.objPK) := CachedSEO(stale)]
    modifies c
    ensures err.None?
    ensures r == Ok(stale)
  {
    err := c.UpdateSEO(req, None, false);
    r := c.GetSEO(req.objName, req.objPK, true, Ok(current), true, true);
  }
}
