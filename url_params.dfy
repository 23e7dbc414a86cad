/**
 * Path parameter parsing for the HTTP transport
 * (internal/hdl/http/utils/utils.go). A path is stripped of its route prefix
 * and split on '/'; the SEO route wants exactly two segments, the page route
 * takes the first one.
 */
module UrlParams {

  const SEORoute := "/api/seo/"
  const PageRoute := "/api/page/"

  /** Go's strings.TrimPrefix: drops `prefix` when `s` starts with it. */
  function TrimPrefix(s: string, prefix: string): (t: string)
    ensures prefix <= s ==> prefix + t == s
    ensures !(prefix <= s) ==> t == s
  {
    if prefix <= s then s[|prefix|..] else s
  }

  /**
   * Go's strings.Split with a one-character separator: the pieces between
   * separators, so there is always at least one, and none contains the
   * separator.
   */
  function Split(s: string, sep: char): (parts: seq<string>)
    ensures |parts| >= 1
    ensures forall i :: 0 <= i < |parts| ==> sep !in parts[i]
  {
    if |s| == 0 then [""]
    else
      var rest := Split(s[1..], sep);
      if s[0] == sep then [""] + rest
      else [[s[0]] + rest[0]] + rest[1..]
  }

  /** Go's strings.Join: the parts with the separator between them. */
  function Join(parts: seq<string>, sep: char): string
    requires |parts| >= 1
  {
    if |parts| == 1 then parts[0] else parts[0] + [sep] + Join(parts[1..], sep)
  }

  /** Joining what was split gives back the original string. */
  lemma {:induction false} JoinSplit(s: string, sep: char)
    ensures Join(Split(s, sep), sep) == s
  {
    if |s| > 0 {
      var rest := Split(s[1..], sep);
      JoinSplit(s[1..], sep);
      if s[0] == sep {
        assert ([""] + rest)[1..] == rest;
      } else {
        var parts := Split(s, sep);
        assert parts[1..] == rest[1..];
        if |rest| == 1 {
          assert Join(parts, sep) == [s[0]] + rest[0];
        } else {
          assert Join(rest, sep) == rest[0] + [sep] + Join(rest[1..], sep);
        }
        assert s == [s[0]] + s[1..];
      }
    }
  }

  /** A separator-free head is glued onto the first piece of what follows it. */
  lemma {:induction false} SplitAfterHead(head: string, t: string, sep: char)
    requires sep !in head
    ensures Split(head + t, sep) == [head + Split(t, sep)[0]] + Split(t, sep)[1..]
  {
    if |head| > 0 {
      SplitAfterHead(head[1..], t, sep);
      var st := Split(t, sep);
      var r := Split(head[1..] + t, sep);
      assert (head + t)[1..] == head[1..] + t;
      assert (head + t)[0] == head[0] && head[0] != sep;
      assert r[0] == head[1..] + st[0] && r[1..] == st[1..];
      assert Split(head + t, sep) == [[head[0]] + r[0]] + r[1..];
      assert [head[0]] + (head[1..] + st[0]) == head + st[0];
    } else {
      assert head + t == t;
      assert head + Split(t, sep)[0] == Split(t, sep)[0];
      assert Split(t, sep) == [Split(t, sep)[0]] + Split(t, sep)[1..];
    }
  }

  /** Splitting what was joined gives back the parts, when no part holds the separator. */
  lemma {:induction false} SplitJoin(parts: seq<string>, sep: char)
    requires |parts| >= 1
    requires forall i :: 0 <= i < |parts| ==> sep !in parts[i]
    ensures Split(Join(parts, sep), sep) == parts
  {
    if |parts| == 1 {
      SplitAfterHead(parts[0], "", sep);
      assert parts[0] + "" == parts[0];
    } else {
      var tail := Join(parts[1..], sep);
      SplitJoin(parts[1..], sep);
      assert Split([sep] + tail, sep) == [""] + parts[1..] by {
        assert ([sep] + tail)[1..] == tail;
      }
      SplitAfterHead(parts[0], [sep] + tail, sep);
      assert Join(parts, sep) == parts[0] + ([sep] + tail);
      assert ([""] + parts[1..])[0] == "" && ([""] + parts[1..])[1..] == parts[1..];
      assert parts[0] + "" == parts[0];
      assert parts == [parts[0]] + parts[1..];
    }
  }

  /**
   * The name and pk of an SEO path: the two segments after the route, or a
   * pair of empty strings when there are not exactly two. Either way the
   * segments hold no '/'; a non-empty answer spells the path back, and with
   * exactly two segments the answer spells it back even when both are empty.
   */
  function ParseURLParams(path: string): (r: (string, string))
    ensures '/' !in r.0 && '/' !in r.1
    ensures r == ("", "") || TrimPrefix(path, SEORoute) == r.0 + "/" + r.1
    ensures |Split(TrimPrefix(path, SEORoute), '/')| == 2 ==> TrimPrefix(path, SEORoute) == r.0 + "/" + r.1
  {
    var parts := Split(TrimPrefix(path, SEORoute), '/');
    JoinSplit(TrimPrefix(path, SEORoute), '/');
    if |parts| != 2 then ("", "")
    else
      assert Join(parts, '/') == parts[0] + "/" + parts[1];
      (parts[0], parts[1])
  }

  /**
   * The slug of a page path: the first segment after the route. It holds no
   * '/', and it is either everything after the route or exactly what comes
   * before the first '/' there.
   */
  function ParsePageParams(path: string): (slug: string)
    ensures '/' !in slug
    ensures slug == TrimPrefix(path, PageRoute) || slug + "/" <= TrimPrefix(path, PageRoute)
  {
    var parts := Split(TrimPrefix(path, PageRoute), '/');
    JoinSplit(TrimPrefix(path, PageRoute), '/');
    assert |parts| > 1 ==> Join(parts, '/') == (parts[0] + "/") + Join(parts[1..], '/');
    parts[0]
  }

  /** The path the SEO routes are called with. */
  function SEOPath(name: string, pk: string): string
  {
    SEORoute + name + "/" + pk
  }

  /** The path the page routes are called with. */
  function PagePath(slug: string): string
  {
    PageRoute + slug
  }

  /** A path built from a '/'-free name and pk parses back to them. */
  lemma ParseURLParamsRoundTrip(name: string, pk: string)
    requires '/' !in name && '/' !in pk
    ensures ParseURLParams(SEOPath(name, pk)) == (name, pk)
  {
    var path := SEOPath(name, pk);
    assert path == SEORoute + (name + "/" + pk);
    assert TrimPrefix(path, SEORoute) == name + "/" + pk;
    assert Join([name, pk], '/') == name + "/" + pk;
    SplitJoin([name, pk], '/');
  }

  /** Any other number of segments after the route gives the empty pair. */
  lemma ParseURLParamsRejects(path: string)
    requires |Split(TrimPrefix(path, SEORoute), '/')| != 2
    ensures ParseURLParams(path) == ("", "")
  {
  }

  /**
   * A '/'-free slug parses back, alone or followed by '/' and anything at
   * all: further segments are ignored.
   */
  lemma ParsePageParamsRoundTrip(slug: string, tail: string)
    requires '/' !in slug
    ensures ParsePageParams(PagePath(slug)) == slug
    ensures ParsePageParams(PagePath(slug) + "/" + tail) == slug
  {
    assert TrimPrefix(PagePath(slug), PageRoute) == slug;
    SplitAfterHead(slug, "", '/');
    assert slug + "" == slug;
    var more := PagePath(slug) + "/" + tail;
    assert more == PageRoute + (slug + ("/" + tail));
    assert TrimPrefix(more, PageRoute) == slug + ("/" + tail);
    SplitAfterHead(slug, "/" + tail, '/');
    assert ("/" + tail)[0] == '/';
  }

  /** A path outside the page route that starts with '/' gives the empty slug. */
  lemma ParsePageParamsOffRoute(path: string)
    requires !(PageRoute <= path)
    requires |path| > 0 && path[0] == '/'
    ensures ParsePageParams(path) == ""
  {
  }

  /** The SEO path with name "name" and pk "pk". */
  lemma SEOPathExample()
    ensures ParseURLParams("/api/seo/name/pk") == ("name", "pk")
  {
    ParseURLParamsRoundTrip("name", "pk");
    assert SEOPath("name", "pk") == "/api/seo/name/pk";
  }

  /** A trailing '/' with nothing after it parses to an empty pk, which callers reject. */
  lemma SEOPathEmptyPkExample()
    ensures ParseURLParams("/api/seo/test-name/") == ("test-name", "")
  {
    ParseURLParamsRoundTrip("test-name", "");
    assert SEOPath("test-name", "") == "/api/seo/test-name/";
  }

  /** Two empty segments after the route give the empty pair, which the route's handlers reject. */
  lemma SEOPathBothEmptyExample()
    ensures ParseURLParams("/api/seo//") == ("", "")
  {
    ParseURLParamsRoundTrip("", "");
    assert SEOPath("", "") == "/api/seo//";
  }

  /** The page path with slug "slug". */
  lemma PagePathExample()
    ensures ParsePageParams("/api/page/slug") == "slug"
  {
    ParsePageParamsRoundTrip("slug", "");
    assert PagePath("slug") == "/api/page/slug";
  }

  /** The bare page route gives the empty slug. */
  lemma PageRouteExample()
    ensures ParsePageParams("/api/page/") == ""
  {
    ParsePageParamsRoundTrip("", "");
    assert PagePath("") == "/api/page/";
  }

  /** An SEO path read as a page path gives the empty slug. */
  lemma SEOPathAsPageExample()
    ensures ParsePageParams("/api/seo/test-name/") == ""
  {
    var path := "/api/seo/test-name/";
    assert path[..|PageRoute|] != PageRoute by {
      assert path[5] == 's' && PageRoute[5] == 'p';
    }
    ParsePageParamsOffRoute(path);
  }
}
