/**
 * Request validation (internal/hdl/validation and the older
 * internal/validation). Each validator checks a fixed list of fields in a
 * fixed order and reports the first empty one. The two generations share
 * ValidateSEO word for word; their ValidatePage differ only in the error for
 * an empty slug, where the older one reports a missing description.
 */
module Validation {
  import opened Wrappers
  import opened Entities

  datatype ValidationError =
    | MissingSlug
    | MissingTitle
    | MissingDescription
    | MissingKeywords
    | MissingOGTitle
    | MissingOGDescription
    | MissingOGImage
    | MissingOBJName
    | MissingOBJPK
    | MissingHref

  /** A field's value paired with the error reported when it is empty. */
  type Check = (string, ValidationError)

  /** Reference: the error of the first empty field in the list, if any. */
  function FirstEmpty(checks: seq<Check>): Option<ValidationError>
  {
    if |checks| == 0 then None
    else if checks[0].0 == "" then Some(checks[0].1)
    else FirstEmpty(checks[1..])
  }

  /** No error exactly when every listed field is non-empty. */
  lemma {:induction false} FirstEmptyNoneIff(checks: seq<Check>)
    ensures FirstEmpty(checks).None? <==> forall i :: 0 <= i < |checks| ==> checks[i].0 != ""
  {
    if |checks| > 0 && checks[0].0 != "" {
      FirstEmptyNoneIff(checks[1..]);
      assert forall i :: 1 <= i < |checks| ==> checks[i].0 == checks[1..][i - 1].0;
    }
  }

  /** A reported error belongs to an empty field all of whose predecessors are non-empty. */
  lemma {:induction false} FirstEmptyIsFirst(checks: seq<Check>)
    requires FirstEmpty(checks).Some?
    ensures exists i :: 0 <= i < |checks| && checks[i].0 == "" && checks[i].1 == FirstEmpty(checks).value &&
                        forall j :: 0 <= j < i ==> checks[j].0 != ""
  {
    if checks[0].0 != "" {
      FirstEmptyIsFirst(checks[1..]);
      var i :| 0 <= i < |checks[1..]| && checks[1..][i].0 == "" && checks[1..][i].1 == FirstEmpty(checks[1..]).value &&
        forall j :: 0 <= j < i ==> checks[1..][j].0 != "";
      assert forall j :: 1 <= j < i + 1 ==> checks[j].0 == checks[1..][j - 1].0;
      assert checks[i + 1] == checks[1..][i];
    } else {
      assert checks[0].0 == "" && checks[0].1 == FirstEmpty(checks).value;
    }
  }

  /** The SEO fields in the order they are checked. */
  function SEOChecks(s: SEO): seq<Check>
  {
    [ (s.title, MissingTitle), (s.description, MissingDescription), (s.keywords, MissingKeywords),
      (s.ogTitle, MissingOGTitle), (s.ogDescription, MissingOGDescription), (s.ogImage, MissingOGImage),
      (s.objName, MissingOBJName), (s.objPK, MissingOBJPK) ]
  }

  /** The page fields in the order the current validator checks them. */
  function PageChecks(p: Page): seq<Check>
  {
    [ (p.slug, MissingSlug), (p.title, MissingTitle), (p.href, MissingHref) ]
  }

  /** Rejects the first of the eight content and host-object fields that is empty. */
  function ValidateSEO(s: SEO): (r: Option<ValidationError>)
    ensures r.None? <==>
      s.title != "" && s.description != "" && s.keywords != "" && s.ogTitle != "" &&
      s.ogDescription != "" && s.ogImage != "" && s.objName != "" && s.objPK != ""
  {
    if s.title == "" then Some(MissingTitle)
    else if s.description == "" then Some(MissingDescription)
    else if s.keywords == "" then Some(MissingKeywords)
    else if s.ogTitle == "" then Some(MissingOGTitle)
    else if s.ogDescription == "" then Some(MissingOGDescription)
    else if s.ogImage == "" then Some(MissingOGImage)
    else if s.objName == "" then Some(MissingOBJName)
    else if s.objPK == "" then Some(MissingOBJPK)
    else None
  }

  /** The search from position k looks at field k, then goes on from k + 1. */
  lemma FirstEmptyFrom(cs: seq<Check>, k: nat)
    requires k < |cs|
    ensures FirstEmpty(cs[k..]) == if cs[k].0 == "" then Some(cs[k].1) else FirstEmpty(cs[k + 1..])
  {
    assert cs[k..][1..] == cs[k + 1..];
  }

  /**
   * The SEO validator reports the first empty field in the order title,
   * description, keywords, og title, og description, og image, object name,
   * object pk.
   */
  lemma ValidateSEOIsFirstEmpty(s: SEO)
    ensures ValidateSEO(s) == FirstEmpty(SEOChecks(s))
  {
    var cs := SEOChecks(s);
    assert cs[0..] == cs;
    FirstEmptyFrom(cs, 0); FirstEmptyFrom(cs, 1); FirstEmptyFrom(cs, 2); FirstEmptyFrom(cs, 3);
    FirstEmptyFrom(cs, 4); FirstEmptyFrom(cs, 5); FirstEmptyFrom(cs, 6); FirstEmptyFrom(cs, 7);
    assert cs[8..] == [];
  }

  /** The surrogate id and the timestamps are never looked at. */
  lemma ValidateSEOIgnoresIdAndTimes(s: SEO, id: uint64, createdAt: Time, updatedAt: Time)
    ensures ValidateSEO(s.(id := id, createdAt := createdAt, updatedAt := updatedAt)) == ValidateSEO(s)
  {
    assert SEOChecks(s.(id := id, createdAt := createdAt, updatedAt := updatedAt)) == SEOChecks(s);
  }

  /** Current page validation: the first empty of slug, title, href. */
  function ValidatePage(p: Page): (r: Option<ValidationError>)
    ensures r.None? <==> p.slug != "" && p.title != "" && p.href != ""
  {
    if p.slug == "" then Some(MissingSlug)
    else if p.title == "" then Some(MissingTitle)
    else if p.href == "" then Some(MissingHref)
    else None
  }

  /** The page validator reports the first empty field in the order slug, title, href. */
  lemma ValidatePageIsFirstEmpty(p: Page)
    ensures ValidatePage(p) == FirstEmpty(PageChecks(p))
  {
    var cs := PageChecks(p);
    assert cs[0..] == cs;
    FirstEmptyFrom(cs, 0); FirstEmptyFrom(cs, 1); FirstEmptyFrom(cs, 2);
    assert cs[3..] == [];
  }

  /** Older page validation, as written: an empty slug is reported as a missing description. */
  function LegacyValidatePage(p: Page): (r: Option<ValidationError>)
    ensures r != Some(MissingSlug)
    ensures r.None? <==> ValidatePage(p).None?
  {
    if p.slug == "" then Some(MissingDescription)
    else if p.title == "" then Some(MissingTitle)
    else if p.href == "" then Some(MissingHref)
    else None
  }

  /**
   * The two page validators agree on every page with a slug; on an empty
   * slug the older one names a field pages do not have.
   */
  lemma PageValidatorsAgreeExceptSlug(p: Page)
    ensures p.slug != "" ==> LegacyValidatePage(p) == ValidatePage(p)
    ensures p.slug == "" ==> ValidatePage(p) == Some(MissingSlug) && LegacyValidatePage(p) == Some(MissingDescription)
  {
  }

  /** A concrete page the older validator mislabels. */
  lemma LegacySlugMislabelled()
    ensures var p := Page("", "Home", "/", Time(0, "UTC"), Time(0, "UTC"));
      LegacyValidatePage(p) == Some(MissingDescription) && ValidatePage(p) == Some(MissingSlug)
  {
  }
}
