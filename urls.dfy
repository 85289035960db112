/** The two listing-site search URLs built from a request. */
module Urls {
  import opened Scrape

  const SelogerPrefix := "https://www.seloger.com/immobilier/achat/"
  const LeboncoinPrefix := "https://www.leboncoin.fr/recherche?category=9&locations="
  const TypeParameter := "&real_estate_type="

  /** The second site's name for the property type: only "apartment" is an apartment. */
  function LeboncoinType(propertyType: string): (t: string)
    ensures t == "appartement" || t == "maison"
    ensures t == "appartement" <==> propertyType == "apartment"
  {
    if propertyType == "apartment" then "appartement" else "maison"
  }

  /** The first site's search path: the property type, then the location. */
  function SelogerUrl(req: Request): (u: string)
    ensures |u| == |SelogerPrefix| + |req.propertyType| + 1 + |req.location|
    ensures u[..|SelogerPrefix|] == SelogerPrefix && u[|SelogerPrefix| + |req.propertyType|] == '/'
  {
    SelogerPrefix + req.propertyType + "/" + req.location
  }

  /** The second site's search query: the location, then the type parameter. */
  function LeboncoinUrl(req: Request): (u: string)
    ensures |LeboncoinPrefix| <= |u| && u[..|LeboncoinPrefix|] == LeboncoinPrefix
    ensures u[|u| - 1] == (if req.propertyType == "apartment" then 't' else 'n')
  {
    LeboncoinPrefix + req.location + TypeParameter + LeboncoinType(req.propertyType)
  }

  /** The list of URLs to crawl, in crawl order. Neither the location nor the
      property type is escaped: both are spliced in as they are. */
  function SourceUrls(req: Request): (urls: seq<string>)
    ensures |urls| == 2
    ensures |SelogerPrefix| <= |urls[0]| && urls[0][..|SelogerPrefix|] == SelogerPrefix
    ensures |LeboncoinPrefix| <= |urls[1]| && urls[1][..|LeboncoinPrefix|] == LeboncoinPrefix
  {
    [SelogerUrl(req), LeboncoinUrl(req)]
  }

  /** The first URL embeds the property type and then the location verbatim, so both
      can be read back from it. */
  lemma SelogerUrlEmbedsRequest(req: Request)
    ensures var u, n, k := SourceUrls(req)[0], |SelogerPrefix|, |req.propertyType|;
      |u| == n + k + 1 + |req.location| &&
      u[n..n + k] == req.propertyType && u[n + k] == '/' && u[n + k + 1..] == req.location
  {
  }

  /** The second URL carries the location verbatim and ends with the type parameter,
      which says "appartement" exactly when the request is for an apartment and
      "maison" for every other property type. */
  lemma LeboncoinUrlType(req: Request)
    ensures var u, n, m := SourceUrls(req)[1], |LeboncoinPrefix|, |req.location|;
      var t := u[n + m + |TypeParameter|..];
      |u| >= n + m + |TypeParameter| &&
      u[n..n + m] == req.location &&
      u[n + m..n + m + |TypeParameter|] == TypeParameter &&
      (t == "appartement" <==> req.propertyType == "apartment") &&
      (t == "maison" <==> req.propertyType != "apartment")
  {
  }

  /** The two URLs point at different sites, so no site is crawled twice. */
  lemma SourceUrlsDistinct(req: Request)
    ensures SourceUrls(req)[0] != SourceUrls(req)[1]
  {
    var urls := SourceUrls(req);
    assert urls[0][12] == SelogerPrefix[12] == 's';
    assert urls[1][12] == LeboncoinPrefix[12] == 'l';
  }
}
