/**
 * The cache-key templates of every controller generation: "SEO:%v:%v" over an
 * SEO record's natural key (internal/ctrl/seo_ctrl.go, internal/controller/seo_ctrl.go,
 * internal/controller/seo_controller.go) and "page:%v" over a page slug
 * (internal/ctrl/page_ctrl.go, internal/controller/page_ctrl.go). `%v` of a
 * string is the string itself.
 */
module CacheKeys {

  const SEOPrefix: string := "SEO:"
  const PagePrefix: string := "page:"

  /** The key an SEO record for `(name, pk)` is cached under. */
  function SEOKey(name: string, pk: string): (key: string)
    ensures SEOPrefix <= key
    ensures |key| == |SEOPrefix| + |name| + 1 + |pk|
  {
    SEOPrefix + name + ":" + pk
  }

  /** The key a page is cached under. */
  function PageKey(slug: string): (key: string)
    ensures PagePrefix <= key
    ensures key[|PagePrefix|..] == slug
  {
    PagePrefix + slug
  }

  /** No string starts with both prefixes, so SEO and page entries never share a key. */
  lemma PrefixesExclusive(key: string)
    ensures !(SEOPrefix <= key && PagePrefix <= key)
  {
    if SEOPrefix <= key {
      assert key[0] == 'S';
    }
  }

  /** The SEO and page key spaces are disjoint. */
  lemma KeySpacesDisjoint(name: string, pk: string, slug: string)
    ensures SEOKey(name, pk) != PageKey(slug)
  {
    PrefixesExclusive(SEOKey(name, pk));
  }

  /** Distinct slugs give distinct page keys. */
  lemma PageKeyInjective(slug1: string, slug2: string)
    ensures PageKey(slug1) == PageKey(slug2) ==> slug1 == slug2
  {
  }

  /** Everything before the first colon of `s` (all of `s` when it has none). */
  function BeforeColon(s: string): (head: string)
    ensures head <= s
    ensures ':' !in head
  {
    if s == [] || s[0] == ':' then [] else [s[0]] + BeforeColon(s[1..])
  }

  /** A colon-free head is recovered from `head + ":" + tail` by cutting at the first colon. */
  lemma {:induction false} BeforeColonRecoversHead(head: string, tail: string)
    requires ':' !in head
    ensures BeforeColon(head + ":" + tail) == head
  {
    if head != [] {
      assert (head + ":" + tail)[1..] == head[1..] + ":" + tail;
      BeforeColonRecoversHead(head[1..], tail);
    }
  }

  /** `head + ":" + tail` with a colon-free head determines both parts. */
  lemma ColonSplitUnique(h1: string, t1: string, h2: string, t2: string)
    requires ':' !in h1 && ':' !in h2
    requires h1 + ":" + t1 == h2 + ":" + t2
    ensures h1 == h2 && t1 == t2
  {
    var s := h1 + ":" + t1;
    BeforeColonRecoversHead(h1, t1);
    BeforeColonRecoversHead(h2, t2);
    assert t1 == s[|h1| + 1..] == t2;
  }

  /** When object names contain no colon, the SEO key determines the natural key. */
  lemma SEOKeyInjective(name1: string, pk1: string, name2: string, pk2: string)
    requires ':' !in name1 && ':' !in name2
    ensures SEOKey(name1, pk1) == SEOKey(name2, pk2) ==> name1 == name2 && pk1 == pk2
  {
    if SEOKey(name1, pk1) == SEOKey(name2, pk2) {
      var k1, k2 := SEOKey(name1, pk1), SEOKey(name2, pk2);
      assert k1[|SEOPrefix|..] == name1 + ":" + pk1;
      assert k2[|SEOPrefix|..] == name2 + ":" + pk2;
      ColonSplitUnique(name1, pk1, name2, pk2);
    }
  }

  /** Without that restriction the template collides: ("a", "b:c") and ("a:b", "c") share a key. */
  lemma SEOKeyCollides()
    ensures SEOKey("a", "b:c") == SEOKey("a:b", "c")
    ensures ("a", "b:c") != ("a:b", "c")
  {
  }
}
