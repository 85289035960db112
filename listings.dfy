/** The filter / map / filter chain that turns the gathered scraped items into the
    listings the function returns. */
module Listings {
  import opened Digits
  import opened Scrape

  /** JavaScript truthiness of a scraped text field: present and not "". */
  predicate Truthy(field: Option<string>) {
    field.Some? && field.value != ""
  }

  /** The first filter, `item => item.price && item.area`. */
  predicate HasPriceAndArea(item: ScrapedItem) {
    Truthy(item.price) && Truthy(item.area)
  }

  function KeepPriced(items: seq<ScrapedItem>): (r: seq<ScrapedItem>)
    ensures |r| <= |items|
    ensures forall x :: x in r ==> x in items && HasPriceAndArea(x)
    ensures forall x :: x in items && HasPriceAndArea(x) ==> x in r
  {
    if items == [] then []
    else (if HasPriceAndArea(items[0]) then [items[0]] else []) + KeepPriced(items[1..])
  }

  /** The `map` step: both numbers parsed, location and type taken from the request,
      url and title copied from the item. */
  function ToListing(item: ScrapedItem, req: Request): (r: Listing)
    requires HasPriceAndArea(item)
    ensures r.location == req.location && r.propertyType == req.propertyType
    ensures r.url == item.url && r.title == item.title
    ensures r.price.NaN? <==> HasNoDigit(item.price.value)
    ensures r.area.NaN? <==> HasNoDigit(item.area.value)
  {
    Listing(
      ParseNumber(item.price.value),
      ParseNumber(item.area.value),
      req.location,
      req.propertyType,
      item.url,
      item.title)
  }

  function MapToListings(items: seq<ScrapedItem>, req: Request): (r: seq<Listing>)
    requires forall x :: x in items ==> HasPriceAndArea(x)
    ensures |r| == |items|
    ensures forall k :: 0 <= k < |r| ==> r[k] == ToListing(items[k], req)
  {
    if items == [] then []
    else [ToListing(items[0], req)] + MapToListings(items[1..], req)
  }

  function Abs(x: real): real {
    if x < 0.0 then -x else x
  }

  /** The last filter, `Math.abs(item.area - area) <= 20`. A NaN area makes the
      difference NaN, and `NaN <= 20` is false. */
  predicate NearArea(listing: Listing, area: real) {
    listing.area.Int? && Abs(listing.area.value as real - area) <= 20.0
  }

  function KeepNear(listings: seq<Listing>, area: real): (r: seq<Listing>)
    ensures |r| <= |listings|
    ensures forall l :: l in r ==> l in listings && NearArea(l, area)
    ensures forall l :: l in listings && NearArea(l, area) ==> l in r
  {
    if listings == [] then []
    else (if NearArea(listings[0], area) then [listings[0]] else []) + KeepNear(listings[1..], area)
  }

  /** The whole chain, from the crawl results to the response body. Every listing it
      returns carries the request's location and type and an area in the tolerance
      band, and there are never more listings than scraped items. */
  function BuildListings(results: seq<ScrapedItem>, req: Request): (r: seq<Listing>)
    ensures |r| <= |results|
    ensures forall l :: l in r ==>
      l.location == req.location && l.propertyType == req.propertyType && NearArea(l, req.area)
  {
    var priced := KeepPriced(results);
    var mapped := MapToListings(priced, req);
    assert forall l :: l in mapped ==> l.location == req.location && l.propertyType == req.propertyType;
    KeepNear(mapped, req.area)
  }

  /** An item survives the chain when it has a price and an area and its parsed area
      is within 20 m² of the requested one. */
  predicate Accepted(item: ScrapedItem, req: Request) {
    HasPriceAndArea(item) && NearArea(ToListing(item, req), req.area)
  }

  /** Reference definition: one pass over the items, keeping the listing of each
      accepted item. */
  function Selected(items: seq<ScrapedItem>, req: Request): seq<Listing> {
    if items == [] then []
    else (if Accepted(items[0], req) then [ToListing(items[0], req)] else []) + Selected(items[1..], req)
  }

  /** The three passes compute the one-pass reference. */
  lemma {:induction false} BuildListingsIsSelected(items: seq<ScrapedItem>, req: Request)
    ensures BuildListings(items, req) == Selected(items, req)
  {
    if items != [] {
      var x, rest := items[0], items[1..];
      BuildListingsIsSelected(rest, req);
      var kp := KeepPriced(rest);
      if HasPriceAndArea(x) {
        assert KeepPriced(items) == [x] + kp;
        var m := MapToListings(kp, req);
        assert MapToListings([x] + kp, req) == [ToListing(x, req)] + m by {
          assert ([x] + kp)[0] == x && ([x] + kp)[1..] == kp;
        }
        var l := ToListing(x, req);
        assert ([l] + m)[0] == l && ([l] + m)[1..] == m;
        assert KeepNear([l] + m, req.area) == (if NearArea(l, req.area) then [l] else []) + KeepNear(m, req.area);
      } else {
        assert KeepPriced(items) == kp;
      }
    }
  }

  /** Selection works piece by piece: the listings of `a + b` are those of `a`
      followed by those of `b`. */
  lemma {:induction false} SelectedConcat(a: seq<ScrapedItem>, b: seq<ScrapedItem>, req: Request)
    ensures Selected(a + b, req) == Selected(a, req) + Selected(b, req)
  {
    if a == [] {
      assert a + b == b;
    } else {
      assert (a + b)[0] == a[0];
      assert (a + b)[1..] == a[1..] + b;
      SelectedConcat(a[1..], b, req);
    }
  }

  /** The chain keeps the order of its input: the listings built from the items of
      `a + b` are those built from `a`, then those built from `b`. */
  lemma BuildListingsConcat(a: seq<ScrapedItem>, b: seq<ScrapedItem>, req: Request)
    ensures BuildListings(a + b, req) == BuildListings(a, req) + BuildListings(b, req)
  {
    BuildListingsIsSelected(a + b, req);
    BuildListingsIsSelected(a, req);
    BuildListingsIsSelected(b, req);
    SelectedConcat(a, b, req);
  }

  /** The present values of `s`, in order. */
  function Somes<U>(s: seq<Option<U>>): (r: seq<U>)
    ensures |r| <= |s|
  {
    if s == [] then []
    else (if s[0].Some? then [s[0].value] else []) + Somes(s[1..])
  }

  /** Positions in `s[1..]` moved up by one are positions in `s`. */
  lemma ShiftPositions<U>(s: seq<Option<U>>, vals: seq<U>, rest: seq<nat>) returns (shifted: seq<nat>)
    requires |s| > 0 && |rest| == |vals|
    requires forall k, m :: 0 <= k < m < |rest| ==> rest[k] < rest[m]
    requires forall k :: 0 <= k < |rest| ==> rest[k] < |s| - 1 && s[1..][rest[k]] == Some(vals[k])
    requires forall i :: 0 <= i < |s| - 1 && s[1..][i].Some? ==> i in rest
    ensures |shifted| == |rest|
    ensures forall k, m :: 0 <= k < m < |shifted| ==> shifted[k] < shifted[m]
    ensures forall k :: 0 <= k < |shifted| ==> 0 < shifted[k] < |s| && s[shifted[k]] == Some(vals[k])
    ensures forall i :: 0 < i < |s| && s[i].Some? ==> i in shifted
  {
    shifted := seq(|rest|, k requires 0 <= k < |rest| => rest[k] + 1);
    forall k | 0 <= k < |shifted| ensures s[shifted[k]] == s[1..][rest[k]] {
    }
    forall i | 0 < i < |s| && s[i].Some? ensures i in shifted {
      assert s[1..][i - 1] == s[i];
      var k :| 0 <= k < |rest| && rest[k] == i - 1;
      assert shifted[k] == i;
    }
  }

  /** A present first entry puts position 0 in front of the shifted positions. */
  lemma ConsPositions<U>(s: seq<Option<U>>, shifted: seq<nat>) returns (idx: seq<nat>)
    requires |s| > 0 && s[0].Some?
    requires |shifted| == |Somes(s[1..])|
    requires forall k, m :: 0 <= k < m < |shifted| ==> shifted[k] < shifted[m]
    requires forall k :: 0 <= k < |shifted| ==> 0 < shifted[k] < |s| && s[shifted[k]] == Some(Somes(s[1..])[k])
    requires forall i :: 0 < i < |s| && s[i].Some? ==> i in shifted
    ensures |idx| == |Somes(s)|
    ensures forall k, m :: 0 <= k < m < |idx| ==> idx[k] < idx[m]
    ensures forall k :: 0 <= k < |idx| ==> idx[k] < |s| && s[idx[k]] == Some(Somes(s)[k])
    ensures forall i :: 0 <= i < |s| && s[i].Some? ==> i in idx
  {
    idx := [0] + shifted;
    assert Somes(s) == [s[0].value] + Somes(s[1..]);
    forall k | 0 < k < |idx| ensures idx[k] == shifted[k - 1] {
    }
    forall i | 0 < i < |s| && s[i].Some? ensures i in idx {
      var k :| 0 <= k < |shifted| && shifted[k] == i;
      assert idx[k + 1] == i;
    }
  }

  /** The positions of the present entries, in increasing order, explain `Somes(s)`
      element by element, and none is missed. */
  lemma {:induction false} SomesPositions<U>(s: seq<Option<U>>) returns (idx: seq<nat>)
    ensures |idx| == |Somes(s)|
    ensures forall k, m :: 0 <= k < m < |idx| ==> idx[k] < idx[m]
    ensures forall k :: 0 <= k < |idx| ==> idx[k] < |s| && s[idx[k]] == Some(Somes(s)[k])
    ensures forall i :: 0 <= i < |s| && s[i].Some? ==> i in idx
  {
    if s == [] {
      idx := [];
    } else {
      var rest := SomesPositions(s[1..]);
      var shifted := ShiftPositions(s, Somes(s[1..]), rest);
      if s[0].Some? {
        idx := ConsPositions(s, shifted);
      } else {
        idx := shifted;
        assert Somes(s) == Somes(s[1..]);
      }
    }
  }

  /** What the chain makes of one item: its listing when accepted, nothing otherwise. */
  function Pick(item: ScrapedItem, req: Request): Option<Listing> {
    if Accepted(item, req) then Some(ToListing(item, req)) else None
  }

  function Picks(items: seq<ScrapedItem>, req: Request): (r: seq<Option<Listing>>)
    ensures |r| == |items|
  {
    seq(|items|, i requires 0 <= i < |items| => Pick(items[i], req))
  }

  /** The reference selection is the present values of the per-item picks. */
  lemma {:induction false} SelectedIsSomes(items: seq<ScrapedItem>, req: Request)
    ensures Selected(items, req) == Somes(Picks(items, req))
  {
    if items != [] {
      SelectedIsSomes(items[1..], req);
      assert Picks(items, req)[1..] == Picks(items[1..], req);
      assert Picks(items, req)[0] == Pick(items[0], req);
    }
  }

  /** The output is an order-preserving subsequence of the mapped input: output
      position k comes from an accepted item at input position idx[k], the
      positions increase, the listing's url and title are that item's own, and
      every accepted item is represented. */
  lemma BuildListingsSubsequence(items: seq<ScrapedItem>, req: Request) returns (idx: seq<nat>)
    ensures |idx| == |BuildListings(items, req)|
    ensures forall k, m :: 0 <= k < m < |idx| ==> idx[k] < idx[m]
    ensures forall k :: 0 <= k < |idx| ==>
      idx[k] < |items| && Accepted(items[idx[k]], req) &&
      BuildListings(items, req)[k] == ToListing(items[idx[k]], req) &&
      BuildListings(items, req)[k].url == items[idx[k]].url &&
      BuildListings(items, req)[k].title == items[idx[k]].title
    ensures forall i :: 0 <= i < |items| && Accepted(items[i], req) ==> i in idx
  {
    var out, picks := BuildListings(items, req), Picks(items, req);
    BuildListingsIsSelected(items, req);
    SelectedIsSomes(items, req);
    idx := SomesPositions(picks);
    forall k | 0 <= k < |idx|
      ensures idx[k] < |items| && Accepted(items[idx[k]], req) && out[k] == ToListing(items[idx[k]], req)
    {
      assert picks[idx[k]] == Pick(items[idx[k]], req) == Some(out[k]);
    }
    forall i | 0 <= i < |items| && Accepted(items[i], req) ensures i in idx {
      assert picks[i] == Pick(items[i], req);
    }
  }

  /** Only items with both a price and an area reach the output: an item missing
      either, or holding "" in either, contributes nothing wherever it stands. */
  lemma MissingFieldDropped(a: seq<ScrapedItem>, item: ScrapedItem, b: seq<ScrapedItem>, req: Request)
    requires !HasPriceAndArea(item)
    ensures BuildListings(a + [item] + b, req) == BuildListings(a, req) + BuildListings(b, req)
  {
    assert BuildListings([item], req) == [] by {
      BuildListingsIsSelected([item], req);
      assert [item][1..] == [];
    }
    assert BuildListings(a + [item], req) == BuildListings(a, req) by {
      BuildListingsConcat(a, [item], req);
      assert BuildListings(a, req) + [] == BuildListings(a, req);
    }
    BuildListingsConcat(a + [item], b, req);
  }

  /** The tolerance band is inclusive at both ends. */
  lemma NearAreaBand(listing: Listing, area: real)
    ensures NearArea(listing, area) <==>
      listing.area.Int? && area - 20.0 <= listing.area.value as real <= area + 20.0
  {
  }

  /** An item whose area string holds no digit parses to NaN and is always dropped. */
  lemma NoDigitAreaDropped(item: ScrapedItem, req: Request)
    requires item.area.Some? && HasNoDigit(item.area.value)
    ensures BuildListings([item], req) == []
  {
  }

  /** Only the area is checked: an item whose price string holds no digit is kept,
      with a NaN price, as long as its area is in the band. */
  lemma NoDigitPriceKept(item: ScrapedItem, req: Request)
    requires Truthy(item.price) && HasNoDigit(item.price.value)
    requires Accepted(item, req)
    ensures BuildListings([item], req) == [ToListing(item, req)]
    ensures BuildListings([item], req)[0].price == NaN
  {
  }
}
