/** The values that flow through the fetch-listings function: the request body,
    what the scraper returns per listing, the outcome of crawling one site, and
    the listing the function sends back. */
module Scrape {
  import opened Digits

  datatype Option<T> = None | Some(value: T)

  /** The JSON body `{ location, propertyType, area }`. The form sends `area` as
      `Number(...)` of a text field, so it may be fractional. */
  datatype Request = Request(location: string, propertyType: string, area: real)

  /** One scraped item. Each field the selectors did not find is absent. */
  datatype ScrapedItem = ScrapedItem(
    price: Option<string>,
    area: Option<string>,
    url: Option<string>,
    title: Option<string>)

  /** What one `crawlUrl` call came to: a response with `success` set and its `data`,
      a response without `success`, or an exception. */
  datatype CrawlOutcome = Success(data: seq<ScrapedItem>) | Unsuccessful | Threw

  /** One listing of the response. `price` and `area` are what `parseInt` returned. */
  datatype Listing = Listing(
    price: Num,
    area: Num,
    location: string,
    propertyType: string,
    url: Option<string>,
    title: Option<string>)
}
