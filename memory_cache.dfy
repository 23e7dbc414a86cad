/**
 * The in-memory cache (internal/cache/memory/cache.go): a map from key to SEO
 * record behind a mutex. Get reports a miss as not-found-in-cache; Set
 * ignores its time-to-live and never fails; Delete never fails, present key
 * or not. The mutex is left out: the model is single-threaded.
 */
module MemoryCache {
  import opened Wrappers
  import opened Entities

  datatype CacheError = NotFoundInCache

  class Cache {
    /** The stored records by key. */
    var data: map<string, SEO>

    /** A new cache holds nothing. */
    constructor ()
      ensures data == map[]
    {
      data := map[];
    }

    /** The record under `key`, or not-found-in-cache exactly when the key is absent. */
    method Get(key: string) returns (r: Result<SEO, CacheError>)
      ensures r.Ok? <==> key in data
      ensures r.Ok? ==> r.value == data[key]
      ensures r.Err? ==> r.error == NotFoundInCache
    {
      if key !in data {
        return Err(NotFoundInCache);
      }
      return Ok(data[key]);
    }

    /** Stores `r` under `key`, overwriting; the time-to-live is not used and the answer is always success. */
    method Set(t: Duration, key: string, r: SEO) returns (err: Option<CacheError>)
      modifies this
      ensures err.None?
      ensures data == old(data)[key := r]
    {
      data := data[key := r];
      return None;
    }

    /** Removes `key` if present; the answer is always success. */
    method Delete(key: string) returns (err: Option<CacheError>)
      modifies this
      ensures err.None?
      ensures data == old(data) - {key}
    {
      data := data - {key};
      return None;
    }
  }

  /** A read after a write to the same key returns the written record, whatever the time-to-live. */
  method SetThenGet(c: Cache, t: Duration, key: string, r: SEO) returns (got: Result<SEO, CacheError>)
    modifies c
    ensures got == Ok(r)
  {
    var err := c.Set(t, key, r);
    got := c.Get(key);
  }

  /** A read after a delete of the same key misses. */
  method DeleteThenGet(c: Cache, key: string) returns (got: Result<SEO, CacheError>)
    modifies c
    ensures got == Err(NotFoundInCache)
  {
    var err := c.Delete(key);
    got := c.Get(key);
  }

  /** Deleting twice succeeds both times and leaves what deleting once leaves. */
  method DeleteTwice(c: Cache, key: string) returns (first: Option<CacheError>, second: Option<CacheError>)
    modifies c
    ensures first.None? && second.None?
    ensures c.data == old(c.data) - {key}
  {
    first := c.Delete(key);
    second := c.Delete(key);
  }

  /** A write leaves every other key's record as it was. */
  method SetKeepsOthers(c: Cache, t: Duration, key: string, r: SEO, other: string) returns (got: Result<SEO, CacheError>)
    requires other != key
    modifies c
    ensures got.Ok? <==> other in old(c.data)
    ensures got.Ok? ==> got.value == old(c.data)[other]
  {
    var err := c.Set(t, key, r);
    got := c.Get(other);
  }
}
