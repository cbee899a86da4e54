/** The catalog view: which products are visible for the current search term,
    sort option and in-stock filter (`updateSearchedProducts`), and the line
    that reports how many there are (`getSearchCount`). */
module Search {
  import opened Catalog
  import opened Text
  import opened Sorting

  /** The three pieces of view state the visible list is derived from. */
  datatype ViewState = ViewState(searchTerm: string, sortOption: string, inStockOnly: bool)

  /** The lower-cased name contains the lower-cased search term; a name
      shorter than the term never matches. */
  predicate NameMatches(p: Product, term: string): (r: bool)
    ensures r ==> |term| <= |p.name|
  {
    Includes(ToLower(p.name), ToLower(term))
  }

  function NameMatcher(term: string): Product -> bool
  {
    p => NameMatches(p, term)
  }

  /** `p` passes both filters of the view: with "In stock" ticked, a product
      with no stock is never shown. */
  predicate Shown(p: Product, view: ViewState): (r: bool)
    ensures r ==> NameMatches(p, view.searchTerm)
    ensures view.inStockOnly && p.quantity <= 0 ==> !r
  {
    (!view.inStockOnly || InStock(p)) && NameMatches(p, view.searchTerm)
  }

  function Keeps(view: ViewState): Product -> bool
  {
    p => Shown(p, view)
  }

  /** The catalog products the view shows, in catalog order: every product
      that passes both filters, as often as the catalog lists it, and no
      other. */
  function Selected(catalog: seq<Product>, view: ViewState): (r: seq<Product>)
    ensures forall p :: multiset(r)[p] == if Shown(p, view) then multiset(catalog)[p] else 0
  {
    FilterMultiset(catalog, Keeps(view));
    Filter(catalog, Keeps(view))
  }

  /** With an empty search term only the in-stock filter removes anything. */
  lemma EmptyTermFiltersNothing(catalog: seq<Product>, view: ViewState)
    requires view.searchTerm == ""
    ensures Selected(catalog, view) == if view.inStockOnly then Filter(catalog, InStock) else catalog
  {
    forall p: Product ensures NameMatches(p, "") {
      IncludesEmpty(ToLower(p.name));
    }
    if view.inStockOnly {
      FilterSameTest(catalog, Keeps(view), InStock);
    } else {
      FilterKeepsAll(catalog, Keeps(view));
    }
  }

  /** The search ignores the case of the term: "ap", "AP" and "Ap" select
      the same products. */
  lemma SearchIgnoresCase(catalog: seq<Product>, view: ViewState, term: string)
    requires SameUpToCase(term, view.searchTerm)
    ensures Selected(catalog, view.(searchTerm := term)) == Selected(catalog, view)
  {
    SameUpToCaseLowersAlike(term, view.searchTerm);
    FilterSameTest(catalog, Keeps(view.(searchTerm := term)), Keeps(view));
  }

  /** The search term "ap" finds a product named "Apple". */
  lemma SearchFindsApple(p: Product)
    requires p.name == "Apple"
    ensures NameMatches(p, "ap")
  {
    var name := ToLower(p.name);
    assert name[0] as int == 'A' as int + 32;
    assert name[1] == 'p';
    assert OccursAt(name, ToLower("ap"), 0);
  }

  /** `updateSearchedProducts`: copy the catalog, sort the copy in place when
      the option names an order, drop the out-of-stock products when asked,
      then keep the products whose name matches the search term. */
  method UpdateSearchedProducts(catalog: seq<Product>, view: ViewState) returns (visible: seq<Product>)
    ensures match ParseSortOption(view.sortOption)
      case Some(order) => visible == SortBy(order, Selected(catalog, view)) && Sorted(order, visible)
      case None => visible == Selected(catalog, view)
    ensures forall p :: multiset(visible)[p] == if Shown(p, view) then multiset(catalog)[p] else 0
  {
    var products := new Product[|catalog|](k requires 0 <= k < |catalog| => catalog[k]);
    assert products[..] == catalog;
    var parsed := ParseSortOption(view.sortOption);
    if parsed.Some? {
      SortInPlace(products, parsed.value);
    }
    var sorted := products[..];
    ghost var arranged := sorted;
    if view.inStockOnly {
      sorted := Filter(sorted, InStock);
    }
    visible := Filter(sorted, NameMatcher(view.searchTerm));

    if view.inStockOnly {
      FilterTwice(arranged, InStock, NameMatcher(view.searchTerm), Keeps(view));
    } else {
      FilterSameTest(arranged, NameMatcher(view.searchTerm), Keeps(view));
    }
    assert visible == Filter(arranged, Keeps(view));
    match parsed
    case Some(order) =>
      FilterSortBy(order, catalog, Keeps(view));
      SortBySorted(order, Selected(catalog, view));
      SortByPermutes(order, Selected(catalog, view));
    case None =>
  }

  /** `getSearchCount`: the line above the product list. */
  function SearchCount(term: string, visible: seq<Product>): (msg: string)
    ensures term == "" ==> msg == NatToString(|visible|) + " Products"
    ensures term != "" ==> (msg == "No search results found" <==> |visible| == 0)
    ensures term != "" && |visible| == 1 ==> msg == "1 Result"
    ensures term != "" && |visible| > 1 ==> msg == NatToString(|visible|) + " Results"
  {
    if term == "" then NatToString(|visible|) + " Products"
    else if |visible| == 0 then "No search results found"
    else if |visible| == 1 then NatToString(|visible|) + " Result"
    else
      var count := NatToString(|visible|);
      assert (count + " Results")[0] == count[0];
      count + " Results"
  }

  /** For a given search term the line tells the number of visible products
      apart: two lists with the same line have the same length. */
  lemma SearchCountDistinguishes(term: string, v1: seq<Product>, v2: seq<Product>)
    requires SearchCount(term, v1) == SearchCount(term, v2)
    ensures |v1| == |v2|
  {
    var n1, n2 := |v1|, |v2|;
    if term == "" {
      DigitsPrefixUnique(NatToString(n1), " Products", NatToString(n2), " Products");
      NatToStringInjective(n1, n2);
    } else if n1 > 0 && n2 > 0 {
      DigitsPrefixUnique(NatToString(n1), if n1 == 1 then " Result" else " Results",
                         NatToString(n2), if n2 == 1 then " Result" else " Results");
      NatToStringInjective(n1, n2);
    }
  }
}
