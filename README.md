# SEO metadata service: cache-aside controllers, in-memory stores, validators, parsers, mappers

This project models the core of an SEO metadata service written in Go. The
service stores SEO records, keyed by the host object `(name, pk)` they
describe, and static pages, keyed by slug. Its heart is a business layer that
sits between the transports and a repository, with a key-value cache in front
of the repository. The layer exists in three generations, and each one is
modelled as a Dafny class whose state is the cache (`map<string, Cached>`) and
a ghost log of every call it makes to the cache and to the repository:

- `Ctrl` (internal/ctrl): cache-aside. A read tries the cache, then falls back
  to the repository and fills the cache on success. A write goes to the
  repository and, on success only, deletes the cache entry. The cache reports
  no outcome from `Set` or `Delete`, so a fault there never reaches the caller,
  though a `Delete` the cache does not carry out still leaves a stale entry.
- `LegacyCtrl` (internal/controller/seo_ctrl.go, page_ctrl.go): the same
  protocol. Cache `Set` and `Delete` failures are logged and swallowed, and
  create reports a numeric id.
- `WriteThrough` (internal/controller/seo_controller.go): create and update
  overwrite the cache entry with the repository's record instead of deleting
  it.

What the collaborators answer is a parameter of each operation:
- `readable`: whether the cache read succeeds.
- `answer`: the repository's result.
- `encodes`: whether the JSON marshal succeeds.
- `stored` and `removed`: whether the cache write or delete took effect.

Every postcondition therefore covers every combination of answers. Each one
states the result, the new cache and the exact calls issued, in order. That
is how "never calls the repository on a hit", "no negative caching" and
"invalidate only after repository success" are stated. `Valid()` says the
cache holds SEO records only under `SEO:` keys and pages only under `page:`
keys. Every operation preserves it. The two key spaces are disjoint, and
`CacheKeys.SEOKeyInjective` shows the SEO key determines `(name, pk)` when the
name holds no `:`.

Around the controllers the project also models:
- the in-memory repository, as a class over two maps, where Go's unordered
  map iteration becomes a nondeterministic choice of the next key;
- the in-memory cache, as a class over one map;
- the two generations of request validators, against a reference definition
  "first empty field in a fixed order";
- the HTTP path parsers, with `strings.Split`/`Join` and both round trips;
- the proto/model mappers, with round trips that keep the instant of each
  time but not its location;
- the HTTP method allow-list middleware.

Functions in Dafny are deterministic by construction. That covers the
mappers' "equal inputs give equal models" without a lemma.

## Model

| member | source | states |
|---|---|---|
| Errors.LookupError | internal/ctrl/seo_ctrl.go:29-46 | a repository not-found becomes the controller's not-found and nothing else does; every other error passes through unchanged |
| Errors.ConflictError | internal/ctrl/seo_ctrl.go:59-76 | a repository already-exists becomes the controller's already-exists and nothing else does; every other error passes through unchanged |
| Errors.ClassificationIsLossless | internal/ctrl/seo_ctrl.go:29-46 | both translations keep the repository error recoverable up to the sentinel it matches (a wrapped not-found's wrapping text is dropped by the controller and is not modelled) |
| CacheKeys.SEOKey | internal/ctrl/seo_ctrl.go:16 | the SEO key starts with `SEO:` and its length is that of prefix, name, separator and pk |
| CacheKeys.PageKey | internal/ctrl/page_ctrl.go:16 | the page key is `page:` followed by exactly the slug |
| CacheKeys.KeySpacesDisjoint | internal/ctrl/page_ctrl.go:16 | no SEO key equals any page key |
| CacheKeys.PageKeyInjective | internal/ctrl/page_ctrl.go:42 | distinct slugs get distinct page keys |
| CacheKeys.BeforeColon | internal/ctrl/seo_ctrl.go:16 | the text before the first `:` is a colon-free prefix |
| CacheKeys.BeforeColonRecoversHead | internal/ctrl/seo_ctrl.go:16 | a colon-free head followed by `:` is recovered exactly |
| CacheKeys.SEOKeyInjective | internal/ctrl/seo_ctrl.go:24 | for names without `:`, equal SEO keys mean equal `(name, pk)` |
| CacheKeys.SEOKeyCollides | internal/ctrl/seo_ctrl.go:16 | with a `:` in the name, `("a","b:c")` and `("a:b","c")` share one key |
| Effects.SEOKeyHoldsSEO | internal/ctrl/seo_ctrl.go:23-26 | in a well-typed cache the entry under an SEO key is an SEO record |
| Effects.PageKeyHoldsPage | internal/ctrl/page_ctrl.go:41-45 | in a well-typed cache the entry under a page key is a page |
| Ctrl.Controller.constructor | internal/ctrl/ctrl.go:49-54 | a controller starts with the given well-typed cache and an empty call log |
| Ctrl.Controller.GetSEO | internal/ctrl/seo_ctrl.go:18-52 | hit: the cached record, one cache read, no repository call; miss plus success: the record, then exactly one Set under the same key when it encodes, which changes the cache only when the cache acts on it; miss plus error: the translated error, no cache write |
| Ctrl.Controller.CreateSEO | internal/ctrl/seo_ctrl.go:54-82 | three outcomes (already-exists, passed-through error, `{name, pk}` of the repository); the cache is never touched |
| Ctrl.Controller.UpdateSEO | internal/ctrl/seo_ctrl.go:84-110 | on success a Delete of the key built from the request's object name and pk is issued after the repository call, and the key is gone when the cache acts on it; no error either way; on failure not-found is translated and the cache is unchanged |
| Ctrl.Controller.DeleteSEO | internal/ctrl/seo_ctrl.go:112-138 | the Delete of the key is issued strictly after repository success and removes it when the cache acts on it; any repository error leaves the cache unchanged |
| Ctrl.Controller.ListPages | internal/ctrl/page_ctrl.go:18-34 | uncached pass-through of the repository list or its error |
| Ctrl.Controller.GetPage | internal/ctrl/page_ctrl.go:36-70 | hit under `page:`+slug without the repository; miss plus success issues one Set of the page under the same key, taking effect when the cache acts on it; miss plus error sets nothing |
| Ctrl.Controller.CreatePage | internal/ctrl/page_ctrl.go:72-99 | already-exists translated, other errors passed through, success reports the repository's slug; the cache is never touched |
| Ctrl.Controller.UpdatePage | internal/ctrl/page_ctrl.go:101-127 | on success issues a Delete of the key of the path slug, not the request's slug, which removes it when the cache acts on it; on failure the cache is unchanged |
| Ctrl.Controller.DeletePage | internal/ctrl/page_ctrl.go:129-155 | issues the Delete of the page key only after repository success, translating not-found; the key is gone when the cache acts on it |
| Ctrl.UpdateThenGetSEO | internal/ctrl/seo_ctrl.go:84-110 | after a successful update whose Delete the cache carried out, the next read misses and returns the repository's current record |
| Ctrl.StaleReadAfterIgnoredInvalidation | internal/ctrl/seo_ctrl.go:84-110 | when the cache does not carry out the invalidating Delete, the update still reports success and the next read serves the stale record |
| Ctrl.DeleteThenGetPage | internal/ctrl/page_ctrl.go:129-155 | after a successful delete whose cache Delete the cache carried out, the key is gone and a read reports not-found |
| LegacyCtrl.Controller.constructor | internal/controller/ctrl.go:31-36 | a controller starts with the given well-typed cache and an empty call log |
| LegacyCtrl.Controller.GetSEO | internal/controller/seo_ctrl.go:24-63 | hit without the repository; miss plus success returns the record even when the Set fails; not-found translated without a Set; other errors passed through |
| LegacyCtrl.Controller.CreateSEO | internal/controller/seo_ctrl.go:65-89 | the repository id on success, `(0, already-exists)` on conflict, `(0, err)` otherwise; the cache is never touched |
| LegacyCtrl.Controller.UpdateSEO | internal/controller/seo_ctrl.go:91-122 | the delete is issued only after success, and a failed delete still yields no error |
| LegacyCtrl.Controller.DeleteSEO | internal/controller/seo_ctrl.go:124-156 | not-found gives not-found with no cache delete; a failed cache delete is swallowed |
| LegacyCtrl.Controller.ListPages | internal/controller/page_ctrl.go:25-41 | the repository list or its error, unchanged |
| LegacyCtrl.Controller.GetPage | internal/controller/page_ctrl.go:43-79 | hit without the repository; miss plus success returns the page even when the Set fails; not-found translated without a Set |
| LegacyCtrl.Controller.CreatePage | internal/controller/page_ctrl.go:81-103 | the repository slug on success, `("", already-exists)` on conflict, `("", err)` otherwise; the cache is never touched |
| LegacyCtrl.Controller.UpdatePage | internal/controller/page_ctrl.go:105-134 | deletes `page:`+slug only after success; a failed delete still yields no error |
| LegacyCtrl.Controller.DeletePage | internal/controller/page_ctrl.go:136-165 | deletes `page:`+slug only after success; a failed delete still yields no error |
| LegacyCtrl.StaleReadAfterFailedInvalidation | internal/controller/seo_ctrl.go:114-121 | when the invalidating delete fails, the update still reports success and the next read serves the stale record |
| WriteThrough.Controller.constructor | internal/controller/ctrl.go:31-36 | a controller starts with the given well-typed cache and an empty call log |
| WriteThrough.Controller.GetSEO | internal/controller/seo_controller.go:24-63 | the same hit, miss-then-Set and no-negative-caching rules |
| WriteThrough.Controller.CreateSEO | internal/controller/seo_controller.go:65-98 | a conflict gives already-exists with the cache unchanged; success writes the repository's record under `SEO:name:pk`, and a failed write is swallowed |
| WriteThrough.Controller.UpdateSEO | internal/controller/seo_controller.go:100-133 | not-found translated with the cache unchanged; success overwrites the entry with the updated record instead of deleting it |
| WriteThrough.Controller.DeleteSEO | internal/controller/seo_controller.go:135-166 | the key is deleted only after repository success; a failed cache delete is swallowed |
| WriteThrough.UpdateThenGetSEO | internal/controller/seo_controller.go:100-133 | after a successful update whose write goes through, the next read is a hit returning the updated record |
| MemoryRepo.Succ | internal/repository/memory/seo_repo.go:68 | `i + 1` is never `i`: the next integer below 2^64 - 1, and 0 for the largest uint64 |
| MemoryRepo.NextKey | internal/repository/memory/seo_repo.go:39 | the create key is `len + 1` while that fits in a uint64, 0 at exactly 2^64, and congruent to `len + 1` modulo 2^64 always |
| MemoryRepo.KeysUpTo | internal/repository/memory/seo_repo.go:39 | the keys 1..n lie between 1 and n |
| MemoryRepo.KeysUpToSize | internal/repository/memory/seo_repo.go:39 | there are exactly n keys in 1..n |
| MemoryRepo.SubsetSize | internal/repository/memory/seo_repo.go:39 | a key set that holds 1..n has at least n keys |
| MemoryRepo.Repository.constructor | internal/repository/memory/memory.go:13-17 | a new repository is empty |
| MemoryRepo.Repository.GetSEO | internal/repository/memory/seo_repo.go:10-24 | returns a stored record of `(name, pk)` exactly when one exists, otherwise not-found |
| MemoryRepo.Repository.CreateSEO | internal/repository/memory/seo_repo.go:26-41 | a match on the `(name, pk)` parameters gives already-exists with the map unchanged; otherwise the request is stored under `len + 1` and a nil record is returned with no error |
| MemoryRepo.Repository.FreshKey | internal/repository/memory/seo_repo.go:39 | a positive key not in use, at most `len + 1`, with every smaller positive key in use, so it is the smallest free one |
| MemoryRepo.Repository.CreateSEOCorrected | internal/repository/memory/seo_repo.go:39 | a conflict on `(name, pk)` leaves the map unchanged; otherwise the new map is exactly the old one plus the request under a key that was not in use, so it grows by one and keeps every stored record |
| MemoryRepo.Repository.UpdateSEO | internal/repository/memory/seo_repo.go:43-57 | replaces the value at a matching key with the request and returns it, other keys unchanged; no match gives not-found with the map unchanged |
| MemoryRepo.Repository.DeleteSEO | internal/repository/memory/seo_repo.go:59-73 | with the match at key i, removes key i + 1; no match gives not-found with the map unchanged |
| MemoryRepo.Repository.DeleteSEOCorrected | internal/repository/memory/seo_repo.go:66-70 | removes the matching key itself, so with unique natural keys no record of `(name, pk)` remains |
| MemoryRepo.Repository.GetPage | internal/repository/memory/page_repo.go:10-24 | searches the values for the slug; not-found exactly when no page carries it |
| MemoryRepo.Repository.CreatePage | internal/repository/memory/page_repo.go:26-40 | an existing slug gives already-exists with the map unchanged; otherwise the page is stored under its slug and the slug returned |
| MemoryRepo.Repository.UpdatePage | internal/repository/memory/page_repo.go:42-56 | replaces the value at a key whose page carries the slug; otherwise not-found with the map unchanged |
| MemoryRepo.Repository.DeletePage | internal/repository/memory/page_repo.go:58-72 | when some page carries the slug, removes the map key equal to the slug; otherwise not-found |
| MemoryRepo.Repository.DeletePageCorrected | internal/repository/memory/page_repo.go:65-68 | removes the key of the matching page itself, so with unique slugs no page carrying the slug remains; otherwise not-found |
| MemoryRepoScenarios.CreateOverwrites | internal/repository/memory/seo_repo.go:39 | with one record under key 2, a create for another object reports success and replaces it |
| MemoryRepoScenarios.CreateStep | internal/repository/memory/seo_repo.go:26-41 | a create for an object no stored record belongs to, on a map of n records, succeeds and stores under key n + 1 |
| MemoryRepoScenarios.DeleteFirstStep | internal/repository/memory/seo_repo.go:59-73 | with records under keys 1 to 3 and the match at key 1, the delete succeeds and removes key 2 |
| MemoryRepoScenarios.CreateOverwritesReachable | internal/repository/memory/seo_repo.go:39 | from an empty repository, three creates, a delete of the first record and one more create all report success, and the last create replaces the third record under key 3 |
| MemoryRepoScenarios.CreateCorrectedKeeps | internal/repository/memory/seo_repo.go:39 | the corrected create on that state keeps the old record and adds the new one |
| MemoryRepoScenarios.DeleteLeavesRecord | internal/repository/memory/seo_repo.go:66-70 | with the only match under key 1, the delete reports success and the record is still found |
| MemoryRepoScenarios.DeleteCorrectedRemoves | internal/repository/memory/seo_repo.go:66-70 | the corrected delete on that state empties the map and the record is no longer found |
| MemoryRepoScenarios.DeleteMissesRekeyedPage | internal/repository/memory/page_repo.go:65-68 | a page stored under a key other than its slug is reported deleted yet still found |
| MemoryRepoScenarios.DeleteCorrectedRemovesRekeyedPage | internal/repository/memory/page_repo.go:65-68 | the corrected delete on that state empties the map and the page is no longer found |
| MemoryCache.Cache.constructor | internal/cache/memory/cache.go:16-18 | a new cache is empty |
| MemoryCache.Cache.Get | internal/cache/memory/cache.go:20-28 | the stored record, or not-found-in-cache exactly when the key is absent |
| MemoryCache.Cache.Set | internal/cache/memory/cache.go:30-35 | overwrites only its key and always succeeds |
| MemoryCache.Cache.Delete | internal/cache/memory/cache.go:37-42 | removes the key, present or not, and always succeeds |
| MemoryCache.SetThenGet | internal/cache/memory/cache.go:30-35 | a read after a write returns the written record, whatever the time-to-live, so entries never expire |
| MemoryCache.DeleteThenGet | internal/cache/memory/cache.go:37-42 | a read after a delete reports not-found-in-cache |
| MemoryCache.DeleteTwice | internal/cache/memory/cache.go:40-41 | deleting twice succeeds twice and leaves what one delete leaves |
| MemoryCache.SetKeepsOthers | internal/cache/memory/cache.go:33 | a write leaves every other key's record as it was |
| Validation.FirstEmptyNoneIff | internal/hdl/validation/seo_validation.go:6-38 | the reference check passes exactly when every listed field is non-empty |
| Validation.FirstEmptyIsFirst | internal/hdl/validation/seo_validation.go:6-38 | a reported error belongs to an empty field whose predecessors are all non-empty |
| Validation.FirstEmptyFrom | internal/hdl/validation/seo_validation.go:6-38 | the search from field k checks field k and then continues from k + 1 |
| Validation.ValidateSEO | internal/hdl/validation/seo_validation.go:5-39 | accepts exactly when all eight fields from title to object pk are non-empty; the older internal/validation/seo_validation.go:7-41 is the same function word for word |
| Validation.ValidateSEOIsFirstEmpty | internal/hdl/validation/seo_validation.go:6-38 | reports the first empty field in the order title, description, keywords, og title, og description, og image, object name, object pk (in both generations) |
| Validation.ValidateSEOIgnoresIdAndTimes | internal/hdl/validation/seo_validation.go:5-39 | the id and the timestamps never affect the verdict |
| Validation.ValidatePage | internal/hdl/validation/page_validation.go:5-18 | accepts exactly when slug, title and href are non-empty |
| Validation.ValidatePageIsFirstEmpty | internal/hdl/validation/page_validation.go:6-16 | reports the first empty field in the order slug, title, href, so an empty slug wins and title precedes href |
| Validation.LegacyValidatePage | internal/validation/page_validation.go:5-18 | accepts exactly the pages the current validator accepts, and never reports a missing slug |
| Validation.PageValidatorsAgreeExceptSlug | internal/validation/page_validation.go:6-16 | the two page validators agree whenever the slug is set; on an empty slug the older one reports a missing description |
| Validation.LegacySlugMislabelled | internal/validation/page_validation.go:6-8 | a concrete page with an empty slug is reported as missing its description |
| UrlParams.TrimPrefix | internal/hdl/http/utils/utils.go:37 | drops the prefix exactly when the path starts with it |
| UrlParams.Split | internal/hdl/http/utils/utils.go:36-38 | always at least one piece, and no piece holds the separator |
| UrlParams.JoinSplit | internal/hdl/http/utils/utils.go:36-38 | joining the pieces gives back the split string |
| UrlParams.SplitAfterHead | internal/hdl/http/utils/utils.go:36-38 | a separator-free head is glued onto the first piece of what follows |
| UrlParams.SplitJoin | internal/hdl/http/utils/utils.go:36-38 | splitting joined separator-free parts gives back the parts |
| UrlParams.ParseURLParams | internal/hdl/http/utils/utils.go:35-49 | two '/'-free segments that spell the path after the route, or the empty pair; with exactly two segments after the route (on the route or off it) the answer always spells the remainder back, so it is those two segments |
| UrlParams.ParseURLParamsRoundTrip | internal/hdl/http/utils/utils.go:35-49 | `/api/seo/name/pk` with '/'-free name and pk parses to `(name, pk)` |
| UrlParams.ParseURLParamsRejects | internal/hdl/http/utils/utils.go:40-46 | any segment count other than two gives `("", "")` |
| UrlParams.ParsePageParams | internal/hdl/http/utils/utils.go:51-57 | the first segment after the route: '/'-free, and either the whole remainder or exactly the part before its first '/' |
| UrlParams.ParsePageParamsRoundTrip | internal/hdl/http/utils/utils.go:51-57 | `/api/page/slug`, alone or followed by `/` and any text at all (such as `slug/x`), parses to the slug |
| UrlParams.ParsePageParamsOffRoute | internal/hdl/http/utils/utils.go:51-57 | a path outside the page route that starts with '/' gives the empty slug |
| UrlParams.SEOPathExample | internal/hdl/http/seo_hdl_test.go:23 | `/api/seo/name/pk` gives `("name", "pk")` |
| UrlParams.SEOPathEmptyPkExample | internal/hdl/http/seo_hdl_test.go:53 | `/api/seo/test-name/` gives `("test-name", "")` |
| UrlParams.SEOPathBothEmptyExample | internal/hdl/http/utils/utils.go:35-49 | `/api/seo//` has two empty segments and gives `("", "")` |
| UrlParams.PagePathExample | internal/hdl/http/page_hdl_test.go:69 | `/api/page/slug` gives `"slug"` |
| UrlParams.PageRouteExample | internal/hdl/http/page_hdl_test.go:96 | `/api/page/` gives `""` |
| UrlParams.SEOPathAsPageExample | internal/hdl/http/page_hdl_test.go:387 | `/api/seo/test-name/` read as a page path gives `""` |
| Mapper.AsTime | internal/models/mapper/seo.go:36-37 | a timestamp reads back as its instant in UTC, and an absent one as the epoch in UTC |
| Mapper.ModelToProto | internal/models/mapper/seo.go:9-23 | the nine non-time fields are copied and both timestamps are present with the record's instants; the older pkg/utils/grpc/utils.go:9-23 is the same function |
| Mapper.ProtoToModel | internal/models/mapper/seo.go:25-39 | the nine non-time fields are copied back and the times are read back in UTC; the older pkg/utils/grpc/utils.go:25-39 is the same function |
| Mapper.SEORoundTrip | internal/models/mapper/seo.go:9-39 | model to message to model keeps every field except the times' location, which becomes UTC (for the older mappers too) |
| Mapper.SEORoundTripExact | internal/models/mapper/seo.go:9-39 | that round trip is the identity exactly for records whose times are in UTC |
| Mapper.SEOMsgRoundTrip | internal/models/mapper/seo.go:9-39 | message to model to message is the identity when both timestamps are present |
| Mapper.PageToProto | internal/models/mapper/page.go:17-25 | slug, title and href copied, both timestamps present |
| Mapper.ProtoToPage | internal/models/mapper/page.go:27-35 | slug, title and href copied back, times in UTC |
| Mapper.PageRoundTrip | internal/models/mapper/page.go:17-35 | page to message to page keeps slug, title, href and instants |
| Mapper.PageMsgRoundTrip | internal/models/mapper/page.go:17-35 | message to page to message is the identity when both timestamps are present |
| Mapper.PageMsgs | internal/models/mapper/page.go:9-15 | the messages have the input's length and order, element i being the message of page i |
| Mapper.PagesToProto | internal/models/mapper/page.go:9-15 | nil exactly for an empty list, otherwise the messages of the pages in input order |
| Mapper.PagesRoundTrip | internal/models/mapper/page.go:9-35 | reading the list's messages back gives each page with its times in UTC |
| Middleware.MethodNotAllowed | internal/handler/http/middleware/common.go:13-17 | the allowed set is exactly the listed methods |
| Middleware.Filter | internal/handler/http/middleware/common.go:22-26 | forwards exactly the allowed methods; anything else gets 405 and the method-not-allowed error without reaching the next handler |
| Middleware.Serve | internal/handler/http/middleware/common.go:13-30 | a request reaches the next handler exactly when its method was listed |
| Middleware.NothingListedRejectsAll | internal/handler/http/middleware/common.go:14-22 | with no methods listed every request is rejected |
| Middleware.SameMembersSameFilter | internal/handler/http/middleware/common.go:14-17 | lists with the same members filter alike, whatever their order |
| Middleware.DuplicatesIrrelevant | internal/handler/http/middleware/common.go:14-17 | repeating a listed method does not change the allowed set |

## Left out

- Concurrency: the mutexes of the in-memory repository and cache are not modelled, and every operation is one atomic step. So two defects are not captured: the repository's CreateSEO takes the write lock and then calls GetSEO, which takes the read lock (a self-deadlock in Go), and CreatePage checks for the slug before taking the lock.
- Tracing spans, zap logging and the `context.Context` argument carry no logic and are left out.
- JSON encoding of cached values is the identity. A marshal failure is the `encodes` parameter; an unmarshal failure on a cache read is the `readable` parameter.
- The value of `DefaultCacheTime` is not part of this model. It is an opaque `Duration`, and TTL expiry is not modelled because no clock is modelled.
- The Redis cache and the database repositories are outside the core. Their answers are the `answer`, `readable`, `stored` and `removed` parameters of the controller operations.
- HTTP and gRPC handlers, response writers and `RecoverPanic` are outside the core.
- Ctrl.Controller.CreateSEO: the repository interface at internal/ctrl/ctrl.go:12 returns `(uint64, error)`, while the body at internal/ctrl/seo_ctrl.go:59 destructures `name, pk, err`. The model follows the body: the repository answers a `(name, pk)` pair.
- Ctrl.Controller.GetSEO: the cache interface's `Set` and `Delete` report no outcome (internal/ctrl/ctrl.go:39-40), so whether the cache acted on them is the `stored` and `removed` parameters, and the controller's answer never depends on them.
- WriteThrough.Controller.GetSEO: internal/controller/seo_controller.go reads the cache with `GetToStruct`, which its cache interface (internal/controller/ctrl.go:18-24) does not declare, and it redeclares the SEO key constant of seo_ctrl.go in the same package. The model treats the read as a typed cache read under the same key format.
- WriteThrough.Controller.CreateSEO: the model treats the repository's answer as a record. The in-memory repository's CreateSEO cannot answer as written, because it deadlocks first (see Concurrency). With that deadlock removed it would answer a nil record on success (internal/repository/memory/seo_repo.go:40), which the controller would cache as JSON `null`.
- MemoryRepo.Repository.GetPage: memory.go declares no `PageData` field, although page_repo.go uses one. The model gives the repository a page map.
- MemoryRepo.Repository.CreateSEOCorrected: requires fewer than 2^64 - 1 stored records, so that a free key exists.
- Mapper.AsTime: a time keeps only its instant and location. Nanosecond splitting, monotonic clock readings and time-zone rules are not modelled.
- Mapper.PagesToProto: Go slices of page pointers may hold nil entries, which would panic. The model's lists hold pages only.
- Aliasing: the in-memory repository stores and returns `*model.SEO` and `*model.Page` pointers and the in-memory cache `*md.SEO` pointers, so a caller that mutates a returned record changes the stored one. The model stores and returns values, so it does not capture that sharing.

## Findings

| source | as written | input that shows it | evidently intended | confidence | as-written member | corrected member |
|---|---|---|---|---|---|---|
| internal/repository/memory/seo_repo.go:68 | deletes the key after the matching record's key (`i+1`) | one record of `(name, pk)` stored under key 1: delete reports success, removes nothing, and the record is still found | delete the matching key `i` | high, not executed | MemoryRepoScenarios.DeleteLeavesRecord | MemoryRepo.Repository.DeleteSEOCorrected |
| internal/repository/memory/seo_repo.go:39 | stores a new record under `len(data)+1`, which may already be in use; the defect is latent, because as written CreateSEO takes the write lock (:31) and then calls GetSEO (:34), which takes the read lock (:14) and deadlocks before :39 is reached | once the lock order is fixed: from empty, create three records (keys 1-3), delete the first (which removes key 2), then create a fourth, which lands on key 3 and overwrites the third while reporting success | store under a key not in use | medium (behind the deadlock), not executed | MemoryRepoScenarios.CreateOverwritesReachable | MemoryRepo.Repository.CreateSEOCorrected |
| internal/repository/memory/page_repo.go:67 | deletes the map entry keyed by the slug, not the key `i` of the page the loop matched | a page with slug `b` stored under key `a`, as UpdatePage leaves a page whose slug changed: delete of `b` reports success, removes nothing, and the page is still found | delete the matched key `i`, as UpdatePage writes to it | medium, not executed | MemoryRepoScenarios.DeleteMissesRekeyedPage | MemoryRepo.Repository.DeletePageCorrected |
| internal/validation/page_validation.go:6-8 | an empty slug is reported as a missing description | a page with an empty slug and a title and href set | report a missing slug, as internal/hdl/validation/page_validation.go:6-8 does | high, not executed | Validation.LegacySlugMislabelled | Validation.ValidatePage |
