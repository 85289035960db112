/** The body of the fetch-listings request handler, between reading the request
    and writing the JSON response: build the URLs, crawl them, filter the results. */
module Handler {
  import opened Scrape
  import opened Urls
  import opened Crawl
  import opened Listings

  /** The listings sent back for `req` when crawling a URL gives `crawl(url)`.
      They are the first site's listings followed by the second site's, each site's
      items filtered on their own, and each carries the request's location and type
      and an area within 20 m² of the requested one. */
  method FetchListings(req: Request, crawl: string -> CrawlOutcome) returns (listings: seq<Listing>)
    ensures listings == BuildListings(Collected(SourceUrls(req), crawl), req)
    ensures listings ==
      BuildListings(Contribution(crawl(SourceUrls(req)[0])), req) +
      BuildListings(Contribution(crawl(SourceUrls(req)[1])), req)
    ensures forall l :: l in listings ==>
      l.location == req.location && l.propertyType == req.propertyType &&
      l.area.Int? && req.area - 20.0 <= l.area.value as real <= req.area + 20.0
  {
    var urls := SourceUrls(req);
    var results := AggregateCrawls(urls, crawl);
    listings := BuildListings(results, req);
    var first, second := Contribution(crawl(urls[0])), Contribution(crawl(urls[1]));
    assert urls[..1] == [urls[0]] && [urls[0]][..0] == [];
    assert Collected(urls[..1], crawl) == first;
    assert results == Collected(urls[..1], crawl) + second;
    BuildListingsConcat(first, second, req);
    forall l | l in listings
      ensures l.area.Int? && req.area - 20.0 <= l.area.value as real <= req.area + 20.0
    {
      NearAreaBand(l, req.area);
    }
  }
}
