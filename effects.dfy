/**
 * What the controllers do to their collaborators: the entries they put in the
 * cache and the calls they issue. Serialisation to JSON is treated as the
 * identity, so a cache entry is the entity it encodes.
 */
module Effects {
  import opened Entities
  import opened CacheKeys

  /** A cache value: the entity serialised under a key. */
  datatype Cached = CachedSEO(seo: SEO) | CachedPage(page: Page)

  /** One call from a controller to the cache or to the repository. */
  datatype Call =
    | CacheGet(key: string)
    | CacheSet(ttl: Duration, key: string, entry: Cached)
    | CacheDelete(key: string)
    | RepoGetSEO(name: string, pk: string)
    | RepoCreateSEO(req: SEO)
    | RepoCreateSEOFor(name: string, pk: string, req: SEO)
    | RepoUpdateSEO(req: SEO)
    | RepoUpdateSEOFor(name: string, pk: string, req: SEO)
    | RepoDeleteSEO(name: string, pk: string)
    | RepoListPages
    | RepoGetPage(slug: string)
    | RepoCreatePage(page: Page)
    | RepoUpdatePage(slug: string, page: Page)
    | RepoDeletePage(slug: string)

  /** An SEO entry sits under an SEO-shaped key, a page under a page-shaped key. */
  predicate Fits(key: string, entry: Cached)
  {
    match entry
    case CachedSEO(_) => SEOPrefix <= key
    case CachedPage(_) => PagePrefix <= key
  }

  /** Every entry of the cache sits under a key of its own kind. */
  ghost predicate WellTyped(cache: map<string, Cached>)
  {
    forall key :: key in cache ==> Fits(key, cache[key])
  }

  /** In a well-typed cache, what is found under an SEO key is an SEO record. */
  lemma SEOKeyHoldsSEO(cache: map<string, Cached>, name: string, pk: string)
    requires WellTyped(cache)
    requires SEOKey(name, pk) in cache
    ensures cache[SEOKey(name, pk)].CachedSEO?
  {
    PrefixesExclusive(SEOKey(name, pk));
  }

  /** In a well-typed cache, what is found under a page key is a page. */
  lemma PageKeyHoldsPage(cache: map<string, Cached>, slug: string)
    requires WellTyped(cache)
    requires PageKey(slug) in cache
    ensures cache[PageKey(slug)].CachedPage?
  {
    PrefixesExclusive(PageKey(slug));
  }
}
