/**
 * The listing grid of App.tsx: which cached listings are shown on the active
 * tab, in which order, and the counters of the "my page" dashboard.
 */
module View {
  import opened Listings
  import opened Text
  import opened Seqs
  import opened Sorting

  datatype Tab = Market | MyBuying | MySelling

  /** The controls that shape the grid: tab, category button, search box and sort menu. */
  datatype ViewSettings = ViewSettings(tab: Tab, category: string, searchTerm: string, sortBy: string)

  /** The category filter; `"all"` is the wildcard. */
  predicate MatchesCategory(category: string, p: Listing) {
    category == "all" || p.category == category
  }

  /** The search filter; an empty term is not applied. */
  predicate MatchesSearch(term: string, p: Listing) {
    term == "" || Contains(Lower(p.title), Lower(term))
  }

  /**
   * Whether listing `p` is shown: the tab selects listings I bid on, listings
   * I sell, or the whole market; only the market tab applies category and search.
   */
  predicate Visible(v: ViewSettings, myBids: seq<int>, myId: string, p: Listing) {
    match v.tab
    case MyBuying => p.id in myBids
    case MySelling => p.sellerId == myId
    case Market => MatchesCategory(v.category, p) && MatchesSearch(v.searchTerm, p)
  }

  /** The shown listings before sorting, in cache order. */
  function Shown(products: seq<Listing>, v: ViewSettings, myBids: seq<int>, myId: string): seq<Listing>
    decreases |products|
  {
    if products == [] then []
    else
      var last := products[|products| - 1];
      Shown(products[..|products| - 1], v, myBids, myId) + (if Visible(v, myBids, myId, last) then [last] else [])
  }

  /** Any `filter` by a predicate that agrees with `Visible` computes `Shown`. */
  lemma {:induction false} FilterIsShown(products: seq<Listing>, v: ViewSettings, myBids: seq<int>, myId: string, f: Listing -> bool)
    requires forall p :: f(p) == Visible(v, myBids, myId, p)
    ensures Filter(products, f) == Shown(products, v, myBids, myId)
    decreases |products|
  {
    if products != [] {
      FilterIsShown(products[..|products| - 1], v, myBids, myId, f);
      assert f(products[|products| - 1]) == Visible(v, myBids, myId, products[|products| - 1]);
    }
  }

  /** The empty search term is skipped, but applying it would keep everything anyway. */
  lemma SkippingEmptySearchIsHarmless(term: string, p: Listing)
    ensures MatchesSearch(term, p) == Contains(Lower(p.title), Lower(term))
  {
    if term == "" {
      ContainsEmpty(Lower(p.title));
    }
  }

  /** The search is case-insensitive: lower-casing the term does not change what is shown. */
  lemma SearchIgnoresCase(v: ViewSettings, myBids: seq<int>, myId: string, p: Listing)
    ensures Visible(v, myBids, myId, p) == Visible(v.(searchTerm := Lower(v.searchTerm)), myBids, myId, p)
  {
    LowerIdempotent(v.searchTerm);
  }

  /** With no category and no search, the market tab shows the whole cache. */
  lemma {:induction false} MarketShowsEverything(products: seq<Listing>, v: ViewSettings, myBids: seq<int>, myId: string)
    requires v.tab == Market && v.category == "all" && v.searchTerm == ""
    ensures Shown(products, v, myBids, myId) == products
    decreases |products|
  {
    if products != [] {
      MarketShowsEverything(products[..|products| - 1], v, myBids, myId);
      assert products == products[..|products| - 1] + [products[|products| - 1]];
    }
  }

  /** Every shown listing is in the cache and visible, and every visible cached listing is shown. */
  lemma ShownMembership(products: seq<Listing>, v: ViewSettings, myBids: seq<int>, myId: string)
    ensures forall p :: p in Shown(products, v, myBids, myId) <==> p in products && Visible(v, myBids, myId, p)
  {
    var visible := (p: Listing) => Visible(v, myBids, myId, p);
    FilterIsShown(products, v, myBids, myId, visible);
    FilterMembership(products, visible);
  }

  /**
   * The filtering half of the view: the tab filter, then on the market tab
   * the category filter unless it is `"all"` and the search filter unless the
   * term is empty, each a `filter` over the previous result.
   */
  method SelectShown(products: seq<Listing>, v: ViewSettings, myBids: seq<int>, myId: string)
    returns (shown: seq<Listing>)
    ensures shown == Shown(products, v, myBids, myId)
  {
    var visible := (p: Listing) => Visible(v, myBids, myId, p);
    shown := products;
    if v.tab == MyBuying {
      var bidOn := (p: Listing) => p.id in myBids;
      shown := Filter(shown, bidOn);
      FilterSame(products, bidOn, visible);
    } else if v.tab == MySelling {
      var mine := (p: Listing) => p.sellerId == myId;
      shown := Filter(shown, mine);
      FilterSame(products, mine, visible);
    }
    if v.tab == Market {
      var inCategory := (p: Listing) => p.category == v.category;
      var found := (p: Listing) => Contains(Lower(p.title), Lower(v.searchTerm));
      if v.category != "all" {
        shown := Filter(shown, inCategory);
      }
      if v.searchTerm != "" {
        shown := Filter(shown, found);
      }
      if v.category != "all" && v.searchTerm != "" {
        FilterTwice(products, inCategory, found, visible);
      } else if v.category != "all" {
        FilterSame(products, inCategory, visible);
      } else if v.searchTerm != "" {
        FilterSame(products, found, visible);
      } else {
        FilterAll(products, visible);
      }
    }
    FilterIsShown(products, v, myBids, myId, visible);
  }

  /** What sortedness means for each choice of the sort menu. */
  lemma SortedMeans(sortBy: string, s: seq<Listing>)
    requires Sorted(OrderOf(sortBy), s)
    ensures sortBy == "price_asc" ==>
      forall i, j :: 0 <= i < j < |s| ==> s[i].currentPrice <= s[j].currentPrice
    ensures sortBy == "price_desc" ==>
      forall i, j :: 0 <= i < j < |s| ==> s[i].currentPrice >= s[j].currentPrice
    ensures sortBy == "closing" ==>
      forall i, j :: 0 <= i < j < |s| ==> s[i].endTime <= s[j].endTime
    ensures sortBy !in {"price_asc", "price_desc", "closing"} ==>
      forall i, j :: 0 <= i < j < |s| ==> s[i].createdAt >= s[j].createdAt
  {
  }

  /**
   * The displayed listings: the cache filtered by tab (and, on the market tab,
   * by category and search), then sorted stably by the selected key.
   */
  method ComposeView(products: seq<Listing>, v: ViewSettings, myBids: seq<int>, myId: string)
    returns (display: seq<Listing>)
    ensures display == SortBy(OrderOf(v.sortBy), Shown(products, v, myBids, myId))
    ensures forall p :: p in display <==> p in products && Visible(v, myBids, myId, p)
    ensures multiset(display) == multiset(Shown(products, v, myBids, myId))
    ensures Sorted(OrderOf(v.sortBy), display)
    ensures forall k :: SameKey(OrderOf(v.sortBy), display, k)
                     == SameKey(OrderOf(v.sortBy), Shown(products, v, myBids, myId), k)
  {
    var shown := SelectShown(products, v, myBids, myId);
    var order := OrderOf(v.sortBy);
    var a := new Listing[|shown|](i requires 0 <= i < |shown| => shown[i]);
    assert a[..] == shown;
    SortInPlace(a, order);
    display := a[..];
    SortByCorrect(order, shown);
    ShownMembership(products, v, myBids, myId);
    forall p ensures p in display <==> p in shown {
      assert p in display <==> p in multiset(display);
      assert p in shown <==> p in multiset(shown);
    }
  }

  /** `products.filter(p => p.seller_id === myId).length`: the "listings I sell" counter. */
  function SellCount(products: seq<Listing>, myId: string): nat
    decreases |products|
  {
    if products == [] then 0
    else SellCount(products[..|products| - 1], myId) + (if products[|products| - 1].sellerId == myId then 1 else 0)
  }

  /** The sell counter equals the number of cards on the "my selling" tab. */
  lemma {:induction false} SellCountMatchesSellingTab(products: seq<Listing>, v: ViewSettings, myBids: seq<int>, myId: string)
    requires v.tab == MySelling
    ensures SellCount(products, myId) == |Shown(products, v, myBids, myId)|
    decreases |products|
  {
    if products != [] {
      SellCountMatchesSellingTab(products[..|products| - 1], v, myBids, myId);
    }
  }
}
