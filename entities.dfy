/**
 * The entities the service stores: SEO metadata records and static pages
 * (internal/models/seo.go, internal/models/page.go and the identical older
 * pkg/model/seo.go), the creation responses of the current controller, and
 * the opaque time values they carry.
 */
module Entities {

  /** Go's `uint64`, used for the SEO surrogate id and the in-memory map keys. */
  newtype uint64 = x: int | 0 <= x < 0x1_0000_0000_0000_0000

  /** 2^64: unsigned 64-bit arithmetic wraps modulo this. */
  const Uint64Modulus: int := 0x1_0000_0000_0000_0000

  /**
   * A Go `time.Time`, kept opaque: an instant and the location it is
   * expressed in. Nothing in the core compares or orders times.
   */
  datatype Time = Time(instant: int, location: string)

  /** A cache time-to-live. The controllers only ever pass the process-wide default. */
  datatype Duration = DefaultCacheTime | Nanoseconds(n: int)

  /** An SEO metadata record for the host object `(objName, objPK)`. */
  datatype SEO = SEO(
    id: uint64,
    title: string,
    description: string,
    keywords: string,
    ogTitle: string,
    ogDescription: string,
    ogImage: string,
    objName: string,
    objPK: string,
    createdAt: Time,
    updatedAt: Time)

  /** A static page, identified by its slug. */
  datatype Page = Page(
    slug: string,
    title: string,
    href: string,
    createdAt: Time,
    updatedAt: Time)

  /** What the current controller's CreateSEO reports: the natural key of the new record. */
  datatype CreateSEOResponse = CreateSEOResponse(name: string, pk: string)

  /** What the current controller's CreatePage reports: the slug of the new page. */
  datatype CreatePageResponse = CreatePageResponse(slug: string)
}
