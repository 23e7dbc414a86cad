/**
 * The in-memory repository (internal/repository/memory): SEO records in a map
 * keyed by a uint64 counter, pages in a map keyed by slug. Every lookup is a
 * linear search over the map, whose iteration order Go leaves unspecified; a
 * loop picks its next key with `:|`, so every order is covered.
 *
 * Modelled as written, including three defects recorded under Findings: the
 * SEO delete removes the key after the matching one, the SEO create stores
 * under `len + 1`, which can be a key already in use, and the page delete
 * removes the entry keyed by the slug rather than the one it matched. The
 * corrected operations follow them. Locking is left out: the model is
 * single-threaded. The maps hold records by value, where the source holds
 * pointers to them.
 */
module MemoryRepo {
  import opened Wrappers
  import opened Entities
  import opened Errors

  /** The record belongs to the host object `(name, pk)`. */
  predicate Matches(s: SEO, name: string, pk: string)
  {
    s.objName == name && s.objPK == pk
  }

  /** Some stored record belongs to `(name, pk)`. */
  ghost predicate HasMatch(data: map<uint64, SEO>, name: string, pk: string)
  {
    exists k :: k in data && Matches(data[k], name, pk)
  }

  /** Some stored page carries `slug` (whatever key it is stored under). */
  ghost predicate HasSlug(pages: map<string, Page>, slug: string)
  {
    exists k :: k in pages && pages[k].slug == slug
  }

  /** No two stored pages carry the same slug. */
  ghost predicate UniqueSlugs(pages: map<string, Page>)
  {
    forall k1, k2 :: k1 in pages && k2 in pages && pages[k1].slug == pages[k2].slug ==> k1 == k2
  }

  /** No two stored records belong to the same host object. */
  ghost predicate UniqueNaturalKeys(data: map<uint64, SEO>)
  {
    forall k1, k2 :: k1 in data && k2 in data && Matches(data[k1], data[k2].objName, data[k2].objPK) ==> k1 == k2
  }

  /**
   * `i + 1` on a Go uint64: the next integer, except that the largest value
   * wraps round to 0. Either way it is never `i` itself.
   */
  function Succ(i: uint64): (j: uint64)
    ensures j != i
    ensures i as int < Uint64Modulus - 1 ==> j as int == i as int + 1
    ensures i as int == Uint64Modulus - 1 ==> j == 0
  {
    ((i as int + 1) % Uint64Modulus) as uint64
  }

  /**
   * The key CreateSEO stores under, `uint64(len(data) + 1)`: one more than
   * the number of records while that fits, 0 when it is exactly 2^64, and in
   * general equal to it modulo 2^64.
   */
  function NextKey(data: map<uint64, SEO>): (k: uint64)
    ensures |data| + 1 < Uint64Modulus ==> k as int == |data| + 1
    ensures |data| + 1 == Uint64Modulus ==> k == 0
    ensures (|data| + 1 - k as int) % Uint64Modulus == 0
  {
    ((|data| + 1) % Uint64Modulus) as uint64
  }

  /** The keys 1..n. */
  function KeysUpTo(n: nat): (keys: set<uint64>)
    requires n < Uint64Modulus
    ensures forall j :: j in keys ==> 1 <= j as int <= n
  {
    if n == 0 then {} else KeysUpTo(n - 1) + {n as uint64}
  }

  /** There are exactly n keys in 1..n. */
  lemma {:induction false} KeysUpToSize(n: nat)
    requires n < Uint64Modulus
    ensures |KeysUpTo(n)| == n
  {
    if n > 0 {
      KeysUpToSize(n - 1);
      assert n as uint64 !in KeysUpTo(n - 1);
    }
  }

  /** A set that holds 1..n has at least n elements. */
  lemma SubsetSize(keys: set<uint64>, n: nat)
    requires n < Uint64Modulus
    requires KeysUpTo(n) <= keys
    ensures n <= |keys|
  {
    KeysUpToSize(n);
    SubsetCardinality(KeysUpTo(n), keys);
  }

  lemma {:induction false} SubsetCardinality<T>(a: set<T>, b: set<T>)
    requires a <= b
    ensures |a| <= |b|
    decreases |a|
  {
    if a != {} {
      var x :| x in a;
      SubsetCardinality(a - {x}, b - {x});
    }
  }

  class Repository {
    /** SEO records by surrogate key. */
    var data: map<uint64, SEO>
    /** Pages by the key they were stored under. */
    var pageData: map<string, Page>

    constructor ()
      ensures data == map[] && pageData == map[]
    {
      data := map[];
      pageData := map[];
    }

    /** Some record belonging to `(name, pk)`, or not-found exactly when there is none. */
    method GetSEO(name: string, pk: string) returns (r: Result<SEO, RepoError>)
      ensures r.Ok? ==> r.value in data.Values && Matches(r.value, name, pk)
      ensures r.Err? ==> r.error == RepoNotFound
      ensures r.Ok? <==> HasMatch(data, name, pk)
    {
      var keys := data.Keys;
      while keys != {}
        invariant keys <= data.Keys
        invariant forall k :: k in data && k !in keys ==> !Matches(data[k], name, pk)
        decreases keys
      {
        var k :| k in keys;
        if Matches(data[k], name, pk) {
          return Ok(data[k]);
        }
        keys := keys - {k};
      }
      return Err(RepoNotFound);
    }

    /**
     * As written: a conflict on `(name, pk)` (the parameters, not the
     * request's fields) is already-exists with the map unchanged; otherwise
     * the request is stored under `len + 1`, whatever is there, and a nil
     * record is returned with no error.
     */
    method CreateSEO(name: string, pk: string, req: SEO) returns (rec: Option<SEO>, err: Option<RepoError>)
      modifies this`data
      ensures rec.None?
      ensures HasMatch(old(data), name, pk) ==> err == Some(RepoAlreadyExists) && data == old(data)
      ensures !HasMatch(old(data), name, pk) ==> err.None? && data == old(data)[NextKey(old(data)) := req]
    {
      var found := GetSEO(name, pk);
      if found.Ok? {
        return None, Some(RepoAlreadyExists);
      }
      data := data[NextKey(data) := req];
      return None, None;
    }

    /** The smallest positive key not in use; one exists while the map is not full. */
    method FreshKey() returns (k: uint64)
      requires |data| < Uint64Modulus - 1
      ensures k !in data
      ensures 1 <= k as int <= |data| + 1
      ensures forall j: uint64 :: 1 <= j < k ==> j in data
    {
      var n: nat := 1;
      while (n as uint64) in data
        invariant 1 <= n <= |data| + 1
        invariant KeysUpTo(n - 1) <= data.Keys
        invariant forall j: uint64 :: 1 <= j as int < n ==> j in data
        decreases |data| + 1 - n
      {
        SubsetSize(data.Keys, n);
        n := n + 1;
      }
      k := n as uint64;
    }

    /**
     * Corrected create: the request goes under a key not in use, so no
     * stored record is ever overwritten.
     */
    method CreateSEOCorrected(name: string, pk: string, req: SEO) returns (rec: Option<SEO>, err: Option<RepoError>)
      requires |data| < Uint64Modulus - 1
      modifies this`data
      ensures rec.None?
      ensures HasMatch(old(data), name, pk) ==> err == Some(RepoAlreadyExists) && data == old(data)
      ensures !HasMatch(old(data), name, pk) ==>
        && err.None?
        && |data| == |old(data)| + 1
        && (exists k :: k !in old(data) && data == old(data)[k := req])
        && req in data.Values
        && forall k :: k in old(data) ==> k in data && data[k] == old(data)[k]
    {
      var found := GetSEO(name, pk);
      if found.Ok? {
        return None, Some(RepoAlreadyExists);
      }
      var k := FreshKey();
      data := data[k := req];
      assert data[k] == req;
      return None, None;
    }

    /**
     * The value under some key whose record belongs to `(name, pk)` is
     * replaced by the request, which is returned; with no such record the
     * map is unchanged and the answer is not-found.
     */
    method UpdateSEO(name: string, pk: string, req: SEO) returns (r: Result<SEO, RepoError>)
      modifies this`data
      ensures r.Ok? <==> HasMatch(old(data), name, pk)
      ensures r.Ok? ==>
        && r.value == req
        && exists k :: k in old(data) && Matches(old(data)[k], name, pk) && data == old(data)[k := req]
      ensures r.Err? ==> r.error == RepoNotFound && data == old(data)
    {
      var keys := data.Keys;
      while keys != {}
        invariant data == old(data)
        invariant keys <= data.Keys
        invariant forall k :: k in data && k !in keys ==> !Matches(data[k], name, pk)
        decreases keys
      {
        var k :| k in keys;
        if Matches(data[k], name, pk) {
          data := data[k := req];
          return Ok(req);
        }
        keys := keys - {k};
      }
      return Err(RepoNotFound);
    }

    /**
     * As written: when the record under key i belongs to `(name, pk)`, the
     * key removed is i + 1, not i; with no such record the answer is
     * not-found and nothing changes.
     */
    method DeleteSEO(name: string, pk: string) returns (err: Option<RepoError>)
      modifies this`data
      ensures err.None? <==> HasMatch(old(data), name, pk)
      ensures err.None? ==>
        exists i :: i in old(data) && Matches(old(data)[i], name, pk) && data == old(data) - {Succ(i)}
      ensures err.Some? ==> err.value == RepoNotFound && data == old(data)
    {
      var keys := data.Keys;
      while keys != {}
        invariant data == old(data)
        invariant keys <= data.Keys
        invariant forall k :: k in data && k !in keys ==> !Matches(data[k], name, pk)
        decreases keys
      {
        var i :| i in keys;
        if Matches(data[i], name, pk) {
          data := data - {Succ(i)};
          return None;
        }
        keys := keys - {i};
      }
      return Some(RepoNotFound);
    }

    /**
     * Corrected delete: the matching key itself is removed, so while natural
     * keys are unique no record of `(name, pk)` remains.
     */
    method DeleteSEOCorrected(name: string, pk: string) returns (err: Option<RepoError>)
      modifies this`data
      ensures err.None? <==> HasMatch(old(data), name, pk)
      ensures err.None? ==>
        exists i :: i in old(data) && Matches(old(data)[i], name, pk) && data == old(data) - {i}
      ensures err.None? && UniqueNaturalKeys(old(data)) ==> !HasMatch(data, name, pk)
      ensures err.Some? ==> err.value == RepoNotFound && data == old(data)
    {
      var keys := data.Keys;
      while keys != {}
        invariant data == old(data)
        invariant keys <= data.Keys
        invariant forall k :: k in data && k !in keys ==> !Matches(data[k], name, pk)
        decreases keys
      {
        var i :| i in keys;
        if Matches(data[i], name, pk) {
          data := data - {i};
          return None;
        }
        keys := keys - {i};
      }
      return Some(RepoNotFound);
    }

    /** A page whose own slug is `slug`, searched among the values, or not-found when there is none. */
    method GetPage(slug: string) returns (r: Result<Page, RepoError>)
      ensures r.Ok? ==> r.value in pageData.Values && r.value.slug == slug
      ensures r.Err? ==> r.error == RepoNotFound
      ensures r.Ok? <==> HasSlug(pageData, slug)
    {
      var keys := pageData.Keys;
      while keys != {}
        invariant keys <= pageData.Keys
        invariant forall k :: k in pageData && k !in keys ==> pageData[k].slug != slug
        decreases keys
      {
        var k :| k in keys;
        if pageData[k].slug == slug {
          return Ok(pageData[k]);
        }
        keys := keys - {k};
      }
      return Err(RepoNotFound);
    }

    /** An existing slug is already-exists with the map unchanged; otherwise the page is stored under its slug. */
    method CreatePage(req: Page) returns (slug: string, err: Option<RepoError>)
      modifies this`pageData
      ensures HasSlug(old(pageData), req.slug) ==>
        slug == "" && err == Some(RepoAlreadyExists) && pageData == old(pageData)
      ensures !HasSlug(old(pageData), req.slug) ==>
        slug == req.slug && err.None? && pageData == old(pageData)[req.slug := req]
    {
      var found := GetPage(req.slug);
      if found.Ok? {
        return "", Some(RepoAlreadyExists);
      }
      pageData := pageData[req.slug := req];
      return req.slug, None;
    }

    /** The value under some key whose page carries `slug` is replaced by the request. */
    method UpdatePage(slug: string, req: Page) returns (err: Option<RepoError>)
      modifies this`pageData
      ensures err.None? <==> HasSlug(old(pageData), slug)
      ensures err.None? ==>
        exists k :: k in old(pageData) && old(pageData)[k].slug == slug && pageData == old(pageData)[k := req]
      ensures err.Some? ==> err.value == RepoNotFound && pageData == old(pageData)
    {
      var keys := pageData.Keys;
      while keys != {}
        invariant pageData == old(pageData)
        invariant keys <= pageData.Keys
        invariant forall k :: k in pageData && k !in keys ==> pageData[k].slug != slug
        decreases keys
      {
        var k :| k in keys;
        if pageData[k].slug == slug {
          pageData := pageData[k := req];
          return None;
        }
        keys := keys - {k};
      }
      return Some(RepoNotFound);
    }

    /**
     * When some page carries `slug`, the map key `slug` is removed, which is
     * the matching page's key only if it was stored under its own slug.
     */
    method DeletePage(slug: string) returns (err: Option<RepoError>)
      modifies this`pageData
      ensures err.None? <==> HasSlug(old(pageData), slug)
      ensures err.None? ==> pageData == old(pageData) - {slug}
      ensures err.Some? ==> err.value == RepoNotFound && pageData == old(pageData)
    {
      var keys := pageData.Keys;
      while keys != {}
        invariant pageData == old(pageData)
        invariant keys <= pageData.Keys
        invariant forall k :: k in pageData && k !in keys ==> pageData[k].slug != slug
        decreases keys
      {
        var k :| k in keys;
        if pageData[k].slug == slug {
          pageData := pageData - {slug};
          return None;
        }
        keys := keys - {k};
      }
      return Some(RepoNotFound);
    }

    /**
     * The delete the page search evidently intends: remove the entry the
     * search matched, whatever key it is stored under, so no page carrying
     * the slug is left when slugs are unique.
     */
    method DeletePageCorrected(slug: string) returns (err: Option<RepoError>)
      modifies this`pageData
      ensures err.None? <==> HasSlug(old(pageData), slug)
      ensures err.None? ==>
        exists k :: k in old(pageData) && old(pageData)[k].slug == slug && pageData == old(pageData) - {k}
      ensures err.None? && UniqueSlugs(old(pageData)) ==> !HasSlug(pageData, slug)
      ensures err.Some? ==> err.value == RepoNotFound && pageData == old(pageData)
    {
      var keys := pageData.Keys;
      while keys != {}
        invariant pageData == old(pageData)
        invariant keys <= pageData.Keys
        invariant forall k :: k in pageData && k !in keys ==> pageData[k].slug != slug
        decreases keys
      {
        var k :| k in keys;
        if pageData[k].slug == slug {
          pageData := pageData - {k};
          return None;
        }
        keys := keys - {k};
      }
      return Some(RepoNotFound);
    }
  }
}

module MemoryRepoScenarios {
  import opened Wrappers
  import opened Entities
  import opened Errors
  import opened MemoryRepo

  /**
   * With one record stored under key 2, `len + 1` is 2 again: creating a
   * record for another host object reports success and silently replaces
   * the stored one. In the source this is latent behind the self-deadlock of
   * CreateSEO's locking, which the model leaves out.
   */
  method CreateOverwrites(r: Repository, x: SEO, name: string, pk: string, req: SEO)
    returns (err: Option<RepoError>)
    requires r.data == map[2 := x]
    requires !Matches(x, name, pk)
    modifies r
    ensures err.None?
    ensures r.data == map[2 := req]
  {
    assert !HasMatch(r.data, name, pk);
    var rec;
    rec, err := r.CreateSEO(name, pk, req);
  }

  /** Two records belong to different host objects. */
  predicate Distinct(x: SEO, y: SEO)
  {
    !Matches(x, y.objName, y.objPK)
  }

  /** A create for a new host object on `|data| == n` stores under key n + 1. */
  method CreateStep(r: Repository, x: SEO, n: nat) returns (err: Option<RepoError>)
    requires |r.data| == n && n + 1 < Uint64Modulus
    requires forall k :: k in r.data ==> Distinct(r.data[k], x)
    modifies r
    ensures err.None?
    ensures r.data == old(r.data)[(n + 1) as uint64 := x]
  {
    var rec;
    rec, err := r.CreateSEO(x.objName, x.objPK, x);
  }

  /**
   * Deleting the record at key 1 of a repository holding keys 1 to 3 removes
   * key 2, the one after the match.
   */
  method DeleteFirstStep(r: Repository, a: SEO, b: SEO, c: SEO) returns (err: Option<RepoError>)
    requires r.data == map[1 := a, 2 := b, 3 := c]
    requires Distinct(b, a) && Distinct(c, a)
    modifies r
    ensures err.None?
    ensures r.data == map[1 := a, 3 := c]
  {
    assert Matches(r.data[1], a.objName, a.objPK);
    ghost var filled := r.data;
    err := r.DeleteSEO(a.objName, a.objPK);
    assert forall i :: i in filled && Matches(filled[i], a.objName, a.objPK) ==> i == 1;
    assert r.data == filled - {2};
  }

  /**
   * The overwrite is reachable from an empty repository through the
   * operations as written: three creates fill keys 1 to 3, deleting the
   * first record removes key 2 instead, and the next create lands on key 3,
   * replacing the third record while reporting success.
   */
  method CreateOverwritesReachable(r: Repository, a: SEO, b: SEO, c: SEO, d: SEO)
    returns (errs: seq<Option<RepoError>>)
    requires r.data == map[]
    requires Distinct(a, b) && Distinct(a, c) && Distinct(b, c)
    requires Distinct(b, a) && Distinct(c, a)
    requires Distinct(a, d) && Distinct(c, d)
    modifies r
    ensures errs == [None, None, None, None, None]
    ensures r.data == map[1 := a, 3 := d]
  {
    var e1 := CreateStep(r, a, 0);
    var e2 := CreateStep(r, b, 1);
    assert r.data.Keys == {1, 2};
    var e3 := CreateStep(r, c, 2);
    var e4 := DeleteFirstStep(r, a, b, c);
    assert r.data.Keys == {1, 3};
    var e5 := CreateStep(r, d, 2);
    errs := [e1, e2, e3, e4, e5];
  }

  /**
   * The corrected create on the same state keeps the stored record and adds
   * the new one beside it.
   */
  method CreateCorrectedKeeps(r: Repository, x: SEO, name: string, pk: string, req: SEO)
    returns (err: Option<RepoError>)
    requires r.data == map[2 := x]
    requires !Matches(x, name, pk)
    modifies r
    ensures err.None?
    ensures 2 in r.data && r.data[2] == x && req in r.data.Values
  {
    assert !HasMatch(r.data, name, pk);
    var rec;
    rec, err := r.CreateSEOCorrected(name, pk, req);
  }

  /**
   * With the only record of `(name, pk)` stored under key 1, the delete
   * removes key 2, reports success, and the record is still found.
   */
  method DeleteLeavesRecord(r: Repository, s: SEO) returns (err: Option<RepoError>, after: Result<SEO, RepoError>)
    requires r.data == map[1 := s]
    modifies r
    ensures err.None?
    ensures r.data == map[1 := s]
    ensures after == Ok(s)
  {
    assert Matches(r.data[1], s.objName, s.objPK);
    err := r.DeleteSEO(s.objName, s.objPK);
    assert Succ(1) == 2;
    assert r.data == map[1 := s] - {2};
    assert r.data == map[1 := s];
    after := r.GetSEO(s.objName, s.objPK);
    assert r.data.Values == {s};
  }

  /** The corrected delete on the same state removes the record. */
  method DeleteCorrectedRemoves(r: Repository, s: SEO) returns (err: Option<RepoError>, after: Result<SEO, RepoError>)
    requires r.data == map[1 := s]
    modifies r
    ensures err.None?
    ensures r.data == map[]
    ensures after == Err(RepoNotFound)
  {
    assert Matches(r.data[1], s.objName, s.objPK);
    err := r.DeleteSEOCorrected(s.objName, s.objPK);
    after := r.GetSEO(s.objName, s.objPK);
  }

  /**
   * A page stored under a key other than its slug (as UpdatePage can leave
   * it) is found by its slug, but deleting that slug removes nothing.
   */
  method DeleteMissesRekeyedPage(r: Repository, key: string, p: Page) returns (err: Option<RepoError>, after: Result<Page, RepoError>)
    requires r.pageData == map[key := p]
    requires key != p.slug
    modifies r
    ensures err.None?
    ensures r.pageData == map[key := p]
    ensures after == Ok(p)
  {
    assert r.pageData[key].slug == p.slug;
    err := r.DeletePage(p.slug);
    after := r.GetPage(p.slug);
    assert r.pageData.Values == {p};
  }

  /** The corrected delete removes the same rekeyed page, and the next lookup misses. */
  method DeleteCorrectedRemovesRekeyedPage(r: Repository, key: string, p: Page)
    returns (err: Option<RepoError>, after: Result<Page, RepoError>)
    requires r.pageData == map[key := p]
    modifies r
    ensures err.None?
    ensures r.pageData == map[]
    ensures after == Err(RepoNotFound)
  {
    assert r.pageData[key].slug == p.slug;
    err := r.DeletePageCorrected(p.slug);
    after := r.GetPage(p.slug);
  }
}
