/** Products of the storefront catalog, and order-preserving filtering over them
    (the `Array.prototype.filter` calls of the search). */
module Catalog {

  /** One catalog entry. Prices are whole pence and ratings whole tenths of a
      star: the source holds both as floating-point numbers. `quantity` is the
      stock level, not a basket quantity. */
  datatype Product = Product(
    id: int,
    name: string,
    price: int,
    category: string,
    quantity: int,
    rating: int,
    imageLink: string)

  /** The in-stock test of the "In stock" checkbox. */
  predicate InStock(p: Product)
  {
    p.quantity > 0
  }

  /** The products of `s` for which `keep` holds, in the order of `s`.
      Defined from the back so that it unfolds alongside `Sorting.Insert`. */
  function Filter(s: seq<Product>, keep: Product -> bool): (r: seq<Product>)
    ensures |r| <= |s|
    ensures forall k :: 0 <= k < |r| ==> keep(r[k])
  {
    if s == [] then []
    else
      Filter(s[..|s| - 1], keep) + (if keep(s[|s| - 1]) then [s[|s| - 1]] else [])
  }

  /** Each product occurs in the result as often as in `s` when it passes the
      test, and not at all otherwise. */
  lemma {:induction false} FilterMultiset(s: seq<Product>, keep: Product -> bool)
    ensures forall x :: multiset(Filter(s, keep))[x] == if keep(x) then multiset(s)[x] else 0
  {
    if s != [] {
      FilterMultiset(s[..|s| - 1], keep);
      assert s == s[..|s| - 1] + [s[|s| - 1]];
    }
  }

  /** Filtering with two tests in a row is filtering with their conjunction. */
  lemma {:induction false} FilterTwice(s: seq<Product>, first: Product -> bool, second: Product -> bool, both: Product -> bool)
    requires forall x :: both(x) == (first(x) && second(x))
    ensures Filter(Filter(s, first), second) == Filter(s, both)
  {
    if s != [] {
      var init, last := s[..|s| - 1], s[|s| - 1];
      FilterTwice(init, first, second, both);
      var once := Filter(init, first);
      if first(last) {
        assert Filter(s, first) == once + [last];
        assert (once + [last])[..|once|] == once;
        assert Filter(once + [last], second) == Filter(once, second) + (if second(last) then [last] else []);
      } else {
        assert Filter(s, first) == once;
      }
    }
  }

  /** Filtering depends only on the values of the test. */
  lemma {:induction false} FilterSameTest(s: seq<Product>, f: Product -> bool, g: Product -> bool)
    requires forall x :: f(x) == g(x)
    ensures Filter(s, f) == Filter(s, g)
  {
    if s != [] {
      FilterSameTest(s[..|s| - 1], f, g);
    }
  }

  /** A test that holds of every element filters nothing out. */
  lemma {:induction false} FilterKeepsAll(s: seq<Product>, keep: Product -> bool)
    requires forall k :: 0 <= k < |s| ==> keep(s[k])
    ensures Filter(s, keep) == s
  {
    if s != [] {
      FilterKeepsAll(s[..|s| - 1], keep);
    }
  }
}
