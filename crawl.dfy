/** The loop that crawls each source URL in turn and gathers the scraped items. */
module Crawl {
  import opened Scrape

  /** What one crawl adds to the results: its data when it succeeded, nothing otherwise. */
  function Contribution(outcome: CrawlOutcome): seq<ScrapedItem> {
    if outcome.Success? then outcome.data else []
  }

  /** The results of crawling `urls` in order: the data of every successful crawl,
      concatenated in URL order. */
  function Collected(urls: seq<string>, crawl: string -> CrawlOutcome): seq<ScrapedItem> {
    if urls == [] then []
    else Collected(urls[..|urls| - 1], crawl) + Contribution(crawl(urls[|urls| - 1]))
  }

  /** The `for (const url of urls)` loop: `results.push(...response.data)` on success;
      an unsuccessful response or an exception is skipped and the loop moves on. */
  method AggregateCrawls(urls: seq<string>, crawl: string -> CrawlOutcome)
    returns (results: seq<ScrapedItem>)
    ensures results == Collected(urls, crawl)
  {
    results := [];
    for i := 0 to |urls|
      invariant results == Collected(urls[..i], crawl)
    {
      var outcome := crawl(urls[i]);
      match outcome {
        case Success(data) =>
          results := results + data;
        case Unsuccessful =>
        case Threw =>
      }
      assert urls[..i + 1][..i] == urls[..i];
    }
    assert urls[..|urls|] == urls;
  }

  /** Crawling a list of URLs in two halves gives the two halves' results, in order. */
  lemma {:induction false} CollectedConcat(u: seq<string>, v: seq<string>, crawl: string -> CrawlOutcome)
    ensures Collected(u + v, crawl) == Collected(u, crawl) + Collected(v, crawl)
  {
    if v == [] {
      assert u + v == u;
    } else {
      var v' := v[..|v| - 1];
      assert (u + v)[..|u + v| - 1] == u + v';
      assert (u + v)[|u + v| - 1] == v[|v| - 1];
      CollectedConcat(u, v', crawl);
    }
  }

  /** A crawl that fails or throws adds nothing and does not stop the URLs after it. */
  lemma FailedCrawlSkipped(u: seq<string>, url: string, v: seq<string>, crawl: string -> CrawlOutcome)
    requires !crawl(url).Success?
    ensures Collected(u + [url] + v, crawl) == Collected(u, crawl) + Collected(v, crawl)
  {
    CollectedConcat(u + [url], v, crawl);
    assert (u + [url])[..|u|] == u;
  }

  /** An item is in the results exactly when some URL's crawl succeeded with it in its data. */
  lemma {:induction false} CollectedMembers(urls: seq<string>, crawl: string -> CrawlOutcome, x: ScrapedItem)
    ensures x in Collected(urls, crawl) <==>
      exists i :: 0 <= i < |urls| && crawl(urls[i]).Success? && x in crawl(urls[i]).data
  {
    if urls != [] {
      var init, last := urls[..|urls| - 1], urls[|urls| - 1];
      CollectedMembers(init, crawl, x);
      if x in Collected(urls, crawl) {
        if x in Collected(init, crawl) {
          var i :| 0 <= i < |init| && crawl(init[i]).Success? && x in crawl(init[i]).data;
          assert urls[i] == init[i];
        } else {
          assert urls[|urls| - 1] == last;
        }
      } else {
        forall i | 0 <= i < |urls| && crawl(urls[i]).Success?
          ensures x !in crawl(urls[i]).data
        {
          if i < |urls| - 1 { assert urls[i] == init[i]; }
        }
      }
    }
  }
}
