/**
 * Conversion between the stored entities and their gRPC messages
 * (internal/models/mapper/seo.go, internal/models/mapper/page.go, and the
 * identical older pkg/utils/grpc/utils.go). Text fields and the id are
 * copied; a time becomes a protobuf timestamp, which keeps the instant only,
 * and comes back in UTC. A message whose timestamp is absent reads as the
 * Unix epoch in UTC.
 */
module Mapper {
  import opened Wrappers
  import opened Entities

  /** A protobuf timestamp: an instant with no location. */
  datatype Timestamp = Timestamp(instant: int)

  datatype SEOMsg = SEOMsg(
    id: uint64,
    title: string,
    description: string,
    keywords: string,
    ogTitle: string,
    ogDescription: string,
    ogImage: string,
    objName: string,
    objPk: string,
    createdAt: Option<Timestamp>,
    updatedAt: Option<Timestamp>)

  datatype PageMsg = PageMsg(
    slug: string,
    title: string,
    href: string,
    createdAt: Option<Timestamp>,
    updatedAt: Option<Timestamp>)

  /** A Go slice of page messages, which can be nil as well as empty. */
  datatype PageMsgSlice = Nil | NonNil(items: seq<PageMsg>)

  const UTC := "UTC"

  /** timestamppb.New: the instant, never absent. */
  function NewTimestamp(t: Time): Timestamp
  {
    Timestamp(t.instant)
  }

  /** Timestamp.AsTime: the instant in UTC; an absent timestamp is the epoch. */
  function AsTime(ts: Option<Timestamp>): (t: Time)
    ensures t.location == UTC
    ensures ts.Some? ==> t.instant == ts.value.instant
    ensures ts.None? ==> t.instant == 0
  {
    match ts
    case None => Time(0, UTC)
    case Some(Timestamp(instant)) => Time(instant, UTC)
  }

  /** The same time expressed in UTC. */
  function InUTC(t: Time): Time
  {
    Time(t.instant, UTC)
  }

  /** The nine fields the mappers copy verbatim agree. */
  predicate SameSEOContent(s: SEO, m: SEOMsg)
  {
    && s.id == m.id && s.title == m.title && s.description == m.description
    && s.keywords == m.keywords && s.ogTitle == m.ogTitle
    && s.ogDescription == m.ogDescription && s.ogImage == m.ogImage
    && s.objName == m.objName && s.objPK == m.objPk
  }

  /** Model to message: content copied, both timestamps present with the record's instants. */
  function ModelToProto(s: SEO): (m: SEOMsg)
    ensures SameSEOContent(s, m)
    ensures m.createdAt == Some(Timestamp(s.createdAt.instant))
    ensures m.updatedAt == Some(Timestamp(s.updatedAt.instant))
  {
    SEOMsg(s.id, s.title, s.description, s.keywords, s.ogTitle, s.ogDescription, s.ogImage,
           s.objName, s.objPK, Some(NewTimestamp(s.createdAt)), Some(NewTimestamp(s.updatedAt)))
  }

  /** Message to model: content copied, times in UTC. */
  function ProtoToModel(m: SEOMsg): (s: SEO)
    ensures SameSEOContent(s, m)
    ensures s.createdAt == AsTime(m.createdAt) && s.updatedAt == AsTime(m.updatedAt)
  {
    SEO(m.id, m.title, m.description, m.keywords, m.ogTitle, m.ogDescription, m.ogImage,
        m.objName, m.objPk, AsTime(m.createdAt), AsTime(m.updatedAt))
  }

  /** A record survives the trip through its message except that its times come back in UTC. */
  lemma SEORoundTrip(s: SEO)
    ensures ProtoToModel(ModelToProto(s)) == s.(createdAt := InUTC(s.createdAt), updatedAt := InUTC(s.updatedAt))
  {
  }

  /** The trip is exact precisely for records whose times are already in UTC. */
  lemma SEORoundTripExact(s: SEO)
    ensures ProtoToModel(ModelToProto(s)) == s <==> s.createdAt.location == UTC && s.updatedAt.location == UTC
  {
    SEORoundTrip(s);
  }

  /** A message with both timestamps present survives the trip through the model. */
  lemma SEOMsgRoundTrip(m: SEOMsg)
    requires m.createdAt.Some? && m.updatedAt.Some?
    ensures ModelToProto(ProtoToModel(m)) == m
  {
  }

  /** Page to message: slug, title and href copied, both timestamps present. */
  function PageToProto(p: Page): (m: PageMsg)
    ensures m.slug == p.slug && m.title == p.title && m.href == p.href
    ensures m.createdAt == Some(Timestamp(p.createdAt.instant))
    ensures m.updatedAt == Some(Timestamp(p.updatedAt.instant))
  {
    PageMsg(p.slug, p.title, p.href, Some(NewTimestamp(p.createdAt)), Some(NewTimestamp(p.updatedAt)))
  }

  /** Message to page: slug, title and href copied, times in UTC. */
  function ProtoToPage(m: PageMsg): (p: Page)
    ensures p.slug == m.slug && p.title == m.title && p.href == m.href
    ensures p.createdAt == AsTime(m.createdAt) && p.updatedAt == AsTime(m.updatedAt)
  {
    Page(m.slug, m.title, m.href, AsTime(m.createdAt), AsTime(m.updatedAt))
  }

  /** A page survives the trip through its message except that its times come back in UTC. */
  lemma PageRoundTrip(p: Page)
    ensures ProtoToPage(PageToProto(p)) == p.(createdAt := InUTC(p.createdAt), updatedAt := InUTC(p.updatedAt))
  {
  }

  /** A page message with both timestamps present survives the trip through the model. */
  lemma PageMsgRoundTrip(m: PageMsg)
    requires m.createdAt.Some? && m.updatedAt.Some?
    ensures PageToProto(ProtoToPage(m)) == m
  {
  }

  /** The messages a list of pages is sent as, element by element. */
  function PageMsgs(pages: seq<Page>): (msgs: seq<PageMsg>)
    ensures |msgs| == |pages|
    ensures forall i :: 0 <= i < |pages| ==> msgs[i] == PageToProto(pages[i])
  {
    if |pages| == 0 then [] else [PageToProto(pages[0])] + PageMsgs(pages[1..])
  }

  /**
   * Appends each page's message to a slice that starts nil, so an empty
   * list gives nil, and otherwise the messages in input order.
   */
  method PagesToProto(pages: seq<Page>) returns (slice: PageMsgSlice)
    ensures slice.Nil? <==> |pages| == 0
    ensures slice.NonNil? ==> slice.items == PageMsgs(pages)
  {
    slice := Nil;
    var i := 0;
    while i < |pages|
      invariant 0 <= i <= |pages|
      invariant i == 0 <==> slice.Nil?
      invariant slice.NonNil? ==> slice.items == PageMsgs(pages[..i])
    {
      var msgs := if slice.Nil? then [] else slice.items;
      slice := NonNil(msgs + [PageToProto(pages[i])]);
      assert pages[..i + 1] == pages[..i] + [pages[i]];
      i := i + 1;
    }
    assert pages[..|pages|] == pages;
  }

  /** Reading the messages back gives each page with its times in UTC. */
  lemma PagesRoundTrip(pages: seq<Page>)
    ensures forall i :: 0 <= i < |pages| ==>
      ProtoToPage(PageMsgs(pages)[i]) == pages[i].(createdAt := InUTC(pages[i].createdAt), updatedAt := InUTC(pages[i].updatedAt))
  {
  }
}
