# fetch-listings: a verified model of the listing pipeline

The pricewise analyzer compares a property's asking price with local market
listings. Its server side is one edge function, `fetch-listings`. It receives
`{ location, propertyType, area }` and builds two search URLs, one for each of
two French listing sites. It crawls both URLs with a scraping service, gathers
the scraped items, and returns the listings whose area is within 20 m² of the
requested area.

This project models that function's logic in Dafny:

- `digits.dfy` (module `Digits`) models `parseInt(s.replace(/[^\d]/g, ''))`.
  `StripNonDigits` deletes every character that is not an ASCII digit.
  `ParseDigits` models `parseInt` on what remains: NaN for the empty string,
  otherwise the decimal value, with leading zeros ignored. `Decimal`, the
  printing of a number, is the inverse used for the round-trip lemmas.
- `scrape.dfy` (module `Scrape`) holds the data model: the request, a scraped
  item whose fields may be absent, the outcome of one crawl
  (`Success(data) | Unsuccessful | Threw`), and the returned listing.
- `urls.dfy` (module `Urls`) builds the two source URLs.
- `crawl.dfy` (module `Crawl`) models the crawl loop as an imperative method
  with a loop invariant. `Collected` is its specification: the successful
  crawls' data, concatenated in URL order.
- `listings.dfy` (module `Listings`) models the filter / map / filter chain as
  three functions, `KeepPriced`, `MapToListings` and `KeepNear`. `Selected` is
  an independent one-pass reference definition. The lemmas prove that the chain
  computes `Selected`, keeps input order, and emits exactly the accepted items.
- `handler.dfy` (module `Handler`) composes the three stages as the handler does.

The crawl is a parameter `crawl: string -> CrawlOutcome`: it gives the outcome
of crawling one URL. The request's `area` is a `real`, because the form sends
`Number(...)` of a text field.

Some revisions of this function answered with `{ listings, marketData }`, and
the page still reads `response.marketData` (src/pages/Index.tsx:26). The code
modelled here answers with a flat array of listings, and the model follows that
code.

## Model

| member | source | states |
|---|---|---|
| `Digits.StripNonDigits` | supabase/functions/fetch-listings/index.ts:66-67 | the stripped string holds only ASCII digits and is no longer than the input |
| `Digits.StripKeepsEveryDigit` | supabase/functions/fetch-listings/index.ts:66-67 | every digit occurs in the stripped string as often as in the input, so no digit is deleted |
| `Digits.StripConcat` | supabase/functions/fetch-listings/index.ts:66-67 | the digits of `a + b` are the digits of `a` followed by the digits of `b`, so order is kept |
| `Digits.StripKeepsDigitString` | supabase/functions/fetch-listings/index.ts:66-67 | a string made only of digits is unchanged by the replacement |
| `Digits.StripIdempotent` | supabase/functions/fetch-listings/index.ts:66-67 | stripping twice gives the same string as stripping once |
| `Digits.StripEmptyIffNoDigit` | supabase/functions/fetch-listings/index.ts:66-67 | the stripped string is empty exactly when the input contains no digit |
| `Digits.DecimalValue` | supabase/functions/fetch-listings/index.ts:66-67 | the value `parseInt` reads from n digits is below 10^n |
| `Digits.DecimalValueConcat` | supabase/functions/fetch-listings/index.ts:66-67 | the value of `a + b` is value(a) · 10^len(b) + value(b), i.e. base 10, most significant digit first |
| `Digits.LeadingZeroIgnored` | supabase/functions/fetch-listings/index.ts:66-67 | a leading '0' does not change the value that `parseInt` reads |
| `Digits.DecimalValueLowerBound` | supabase/functions/fetch-listings/index.ts:66-67 | n digits without a leading zero are worth at least 10^(n-1) |
| `Digits.DecimalRoundTrip` | supabase/functions/fetch-listings/index.ts:66-67 | reading back the decimal spelling of n gives n |
| `Digits.DecimalOfValue` | supabase/functions/fetch-listings/index.ts:66-67 | a digit string without a leading zero is the decimal spelling of its value (the other round trip) |
| `Digits.ParseDigits` | supabase/functions/fetch-listings/index.ts:66-67 | `parseInt` of a digit string is NaN exactly when the string is empty; otherwise its value is below 10^length |
| `Digits.ParseNumber` | supabase/functions/fetch-listings/index.ts:66-67 | a scraped field parses to NaN exactly when it contains no ASCII digit |
| `Digits.ParseNumberConcat` | supabase/functions/fetch-listings/index.ts:66-67 | the parsed value is the decimal number formed by all digits of the field, in order, whatever lies between them |
| `Digits.ParseNumberOfDecimal` | supabase/functions/fetch-listings/index.ts:66-67 | a number printed with any digit-free text before and after it parses back to that number |
| `Digits.PriceExample` | supabase/functions/fetch-listings/index.ts:66 | "250 000 €" parses to 250000 |
| `Digits.AreaExample` | supabase/functions/fetch-listings/index.ts:67 | "45,5 m²" parses to 455: the decimal comma is deleted and '²' is not a digit |
| `Digits.NoDigitExample` | supabase/functions/fetch-listings/index.ts:67 | "m²" and "" parse to NaN |
| `Urls.SelogerUrl` | supabase/functions/fetch-listings/index.ts:29 | the first template: the seloger search prefix, then the property type, a '/', and the location |
| `Urls.LeboncoinUrl` | supabase/functions/fetch-listings/index.ts:30 | the second template: the leboncoin search prefix, and a type value that ends in 't' (appartement) exactly for "apartment", otherwise in 'n' (maison) |
| `Urls.LeboncoinType` | supabase/functions/fetch-listings/index.ts:30 | the second site's type is "appartement" exactly when the property type is "apartment", and "maison" otherwise |
| `Urls.SourceUrls` | supabase/functions/fetch-listings/index.ts:28-31 | exactly two URLs are built, the first on the seloger search path and the second on the leboncoin search path |
| `Urls.SelogerUrlEmbedsRequest` | supabase/functions/fetch-listings/index.ts:29 | the first URL holds the property type, a '/', and then the location, verbatim and unescaped |
| `Urls.LeboncoinUrlType` | supabase/functions/fetch-listings/index.ts:30 | the second URL holds the location verbatim, then `&real_estate_type=`, then "appartement" exactly for "apartment" and "maison" for any other type |
| `Urls.SourceUrlsDistinct` | supabase/functions/fetch-listings/index.ts:28-31 | the two URLs differ, so no site is crawled twice |
| `Crawl.Contribution` | supabase/functions/fetch-listings/index.ts:53-55 | what one crawl adds to `results`: its `data` on success, nothing for an unsuccessful or throwing crawl |
| `Crawl.AggregateCrawls` | supabase/functions/fetch-listings/index.ts:33-60 | the loop's `results` is the concatenation, in URL order, of the data of every successful crawl |
| `Crawl.CollectedConcat` | supabase/functions/fetch-listings/index.ts:35-60 | crawling `u + v` gives the results of `u` followed by those of `v` |
| `Crawl.FailedCrawlSkipped` | supabase/functions/fetch-listings/index.ts:53-59 | an unsuccessful or throwing crawl adds nothing and does not stop the URLs after it |
| `Crawl.CollectedMembers` | supabase/functions/fetch-listings/index.ts:53-55 | an item is in the results exactly when some URL's successful crawl returned it |
| `Listings.Truthy` | supabase/functions/fetch-listings/index.ts:64 | JavaScript truthiness of a scraped text field: present and not "" |
| `Listings.HasPriceAndArea` | supabase/functions/fetch-listings/index.ts:64 | the first filter's callback: both price and area are truthy |
| `Listings.KeepPriced` | supabase/functions/fetch-listings/index.ts:64 | an input item is kept exactly when it has a non-empty price and area; nothing else is added |
| `Listings.ToListing` | supabase/functions/fetch-listings/index.ts:65-72 | the map callback: location and type come from the request, url and title are copied from the item, and each number is NaN exactly when its field has no digit |
| `Listings.MapToListings` | supabase/functions/fetch-listings/index.ts:65-72 | one listing per item, in the same position, built from that item and the request |
| `Listings.NearArea` | supabase/functions/fetch-listings/index.ts:74 | the last filter's callback: the parsed area is a number and lies within 20 of the requested area; NaN fails |
| `Listings.KeepNear` | supabase/functions/fetch-listings/index.ts:73-75 | an input listing is kept exactly when its area is numeric and within 20 of the requested area; nothing else is added |
| `Listings.BuildListings` | supabase/functions/fetch-listings/index.ts:63-75 | there are never more listings than scraped items; each one has the request's location and type and an area in the band |
| `Listings.BuildListingsIsSelected` | supabase/functions/fetch-listings/index.ts:63-75 | the three passes equal the one-pass reference that keeps each accepted item's listing |
| `Listings.SelectedConcat` | supabase/functions/fetch-listings/index.ts:63-75 | the reference selection of `a + b` is that of `a` followed by that of `b` |
| `Listings.BuildListingsConcat` | supabase/functions/fetch-listings/index.ts:63-75 | the chain keeps input order: the output for `a + b` is the output for `a` followed by the output for `b` |
| `Listings.SomesPositions` | supabase/functions/fetch-listings/index.ts:63-75 | the values kept from a sequence of optional entries come from increasing positions that hold exactly those values, and no present entry is missed |
| `Listings.SelectedIsSomes` | supabase/functions/fetch-listings/index.ts:63-75 | the one-pass reference keeps, in order, the present values of the per-item decisions (listing if accepted, nothing otherwise) |
| `Listings.BuildListingsSubsequence` | supabase/functions/fetch-listings/index.ts:63-75 | the output is an order-preserving subsequence of the mapped input: output k comes from an accepted item at an increasing position, with its url and title copied, and every accepted item appears |
| `Listings.MissingFieldDropped` | supabase/functions/fetch-listings/index.ts:64 | an item with an absent or empty price or area contributes nothing, wherever it stands |
| `Listings.NearAreaBand` | supabase/functions/fetch-listings/index.ts:73-75 | the area filter is the inclusive band requested − 20 ≤ area ≤ requested + 20, and it fails on NaN |
| `Listings.NoDigitAreaDropped` | supabase/functions/fetch-listings/index.ts:67-75 | an item whose area has no digit parses to NaN and is always dropped |
| `Listings.NoDigitPriceKept` | supabase/functions/fetch-listings/index.ts:66-75 | only the area is filtered: an item whose price has no digit is kept, with a NaN price, when its area is in the band |
| `Handler.FetchListings` | supabase/functions/fetch-listings/index.ts:28-75 | the response is the first site's filtered listings followed by the second site's; every listing has the request's location and type and an area within 20 m² |

## Left out

- HTTP serving is not modelled. This covers the CORS preflight, JSON decoding of the request and encoding of the response, the `FIRECRAWL_API_KEY` check, and the 500 error payload. It is I/O plumbing.
- Logging with `console.log` and `console.error` is not modelled. It has no effect on the result.
- The scraping service call `crawlUrl` and its selector options are not modelled. Each call is an abstract outcome given by the `crawl` parameter. Those outcomes come from a third-party service and live HTML.
- A successful response whose `data` is not an array is not modelled. `CrawlOutcome.Success` always carries a sequence of items. In the source, a `data` that cannot be spread (`undefined`, `null`, a number, a plain object) throws inside the per-URL `try` (index.ts:38-59), so that crawl adds nothing. A string `data` does not throw: line 54 pushes its characters, and line 64 then drops each of them, because a one-character string has no `price`.
- Scraped fields that are not strings are not modelled. Every present field of a `ScrapedItem` is a string. In the source, a falsy non-string `price` or `area` (`0`, `false`, `null`) is dropped at line 64 like an absent one. A truthy non-string `price` or `area` reaches `.replace` at line 66 or 67 and throws outside the per-URL `try`, so the whole request fails with the 500 payload. A non-string `url` or `title` is copied unchanged without any error.
- A `null` or `undefined` entry in a successful crawl's `data` is not modelled. A `ScrapedItem` is never null. In the source, `item.price` on such an entry throws at line 64, outside the per-URL `try`, so the whole request fails with the 500 payload (index.ts:82-93). The model always returns listings instead.
- A requested `area` that is not a number is not modelled. The model takes a `real`. In the source, line 74 converts it with JavaScript's numeric conversion. `null`, `""` and `false` become 0, `true` becomes 1, and a numeric string such as `"45"` becomes 45. With those values the band is applied around the converted number. A missing `area` (`undefined`), a non-numeric string or a plain object becomes NaN, so every comparison is false and no listing is returned.
- NearArea: the band is checked on exact reals. The source rounds the difference `item.area - area` to a double. A difference that lies above 20 by less than half a unit in the last place is kept by the source and dropped by the model. For example, requested area 1 − 2⁻⁵³ with scraped area 21 gives exactly 20.0 in doubles.
- KeepNear: inherits the exact-real comparison of NearArea, so it can drop a listing the source keeps when the double difference rounds down to 20.
- NearAreaBand: states the band on exact reals, not on the double rounding of the source.
- `parseInt` loses precision on digit strings above 2^53, because JavaScript numbers are floats. The model reads them as unbounded naturals.
- The client wrapper in src/services/FirecrawlService.ts is not part of this model. Its only logic is replacing a missing response with `[]`.
- The page and the components under src/ are not part of this model. They hold React state, rendering, and float arithmetic with `Math.round`, `toFixed` and locale formatting.
