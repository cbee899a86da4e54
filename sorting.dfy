/** The six sort options of the catalog view, their comparators, and the
    stable sort the view applies (`Array.prototype.sort`, stable since
    ECMAScript 2019). A stable sort by a total preorder has exactly one
    possible result, so the insertion sort `SortBy` below is an exact
    reference for it, whatever algorithm the engine runs. */
module Sorting {
  import opened Catalog
  import opened Text

  datatype Option<T> = None | Some(value: T)

  datatype SortOrder =
    | NameAscending
    | NameDescending
    | PriceAscending
    | PriceDescending
    | RatingAscending
    | RatingDescending

  /** The value of the `<option>` element that selects `order`. */
  function OptionValue(order: SortOrder): string
  {
    match order
    case NameAscending => "AtoZ"
    case NameDescending => "ZtoA"
    case PriceAscending => "£LtoH"
    case PriceDescending => "£HtoL"
    case RatingAscending => "*LtoH"
    case RatingDescending => "*HtoL"
  }

  /** The `if … else if` chain on `sortOption`: one of the six option values
      selects its order; any other string selects none. */
  function ParseSortOption(option: string): (r: Option<SortOrder>)
    ensures r.Some? ==> OptionValue(r.value) == option
    ensures r.None? ==> forall order: SortOrder :: OptionValue(order) != option
  {
    if option == "AtoZ" then Some(NameAscending)
    else if option == "ZtoA" then Some(NameDescending)
    else if option == "£LtoH" then Some(PriceAscending)
    else if option == "£HtoL" then Some(PriceDescending)
    else if option == "*LtoH" then Some(RatingAscending)
    else if option == "*HtoL" then Some(RatingDescending)
    else None
  }

  /** The comparator handed to `sort`: negative when `a` belongs before `b`,
      positive when after. */
  function Compare(order: SortOrder, a: Product, b: Product): int
  {
    match order
    case NameAscending => StrCompare(a.name, b.name)
    case NameDescending => StrCompare(b.name, a.name)
    case PriceAscending => a.price - b.price
    case PriceDescending => b.price - a.price
    case RatingAscending => a.rating - b.rating
    case RatingDescending => b.rating - a.rating
  }

  /** Each option value reads back as the order it names. */
  lemma ParseOptionValue(order: SortOrder)
    ensures ParseSortOption(OptionValue(order)) == Some(order)
  {
  }

  /** A comparator ties two products exactly when they agree on its key:
      the name, the price or the rating. */
  lemma CompareTiesOnKey(order: SortOrder, a: Product, b: Product)
    ensures (order.NameAscending? || order.NameDescending?) ==> (Compare(order, a, b) == 0 <==> a.name == b.name)
    ensures (order.PriceAscending? || order.PriceDescending?) ==> (Compare(order, a, b) == 0 <==> a.price == b.price)
    ensures (order.RatingAscending? || order.RatingDescending?) ==> (Compare(order, a, b) == 0 <==> a.rating == b.rating)
  {
  }

  /** A stable sort leaves `a` ahead of `b` exactly when the comparator does
      not call for a swap. */
  predicate Before(order: SortOrder, a: Product, b: Product)
  {
    Compare(order, a, b) <= 0
  }

  /** Every comparator orders any two products one way or the other. */
  lemma BeforeTotal(order: SortOrder, a: Product, b: Product)
    ensures Before(order, a, b) || Before(order, b, a)
  {
    match order
    case NameAscending => StrCompareAntisymmetric(a.name, b.name);
    case NameDescending => StrCompareAntisymmetric(a.name, b.name);
    case _ =>
  }

  /** Every comparator is transitive. */
  lemma BeforeTransitive(order: SortOrder, a: Product, b: Product, c: Product)
    requires Before(order, a, b) && Before(order, b, c)
    ensures Before(order, a, c)
  {
    match order
    case NameAscending => StrCompareTransitive(a.name, b.name, c.name);
    case NameDescending => StrCompareTransitive(c.name, b.name, a.name);
    case _ =>
  }

  ghost predicate Sorted(order: SortOrder, s: seq<Product>)
  {
    forall i, j :: 0 <= i < j < |s| ==> Before(order, s[i], s[j])
  }

  /** Inserts `x` after the last element of `s` that may stay ahead of it. */
  function Insert(order: SortOrder, s: seq<Product>, x: Product): seq<Product>
  {
    if s == [] || Before(order, s[|s| - 1], x) then s + [x]
    else Insert(order, s[..|s| - 1], x) + [s[|s| - 1]]
  }

  /** The stable sort of `s` under `order`. */
  function SortBy(order: SortOrder, s: seq<Product>): seq<Product>
  {
    if s == [] then [] else Insert(order, SortBy(order, s[..|s| - 1]), s[|s| - 1])
  }

  /** `Insert` adds `x` and loses nothing. */
  lemma {:induction false} InsertPermutes(order: SortOrder, s: seq<Product>, x: Product)
    ensures multiset(Insert(order, s, x)) == multiset(s) + multiset{x}
  {
    if s != [] && !Before(order, s[|s| - 1], x) {
      InsertPermutes(order, s[..|s| - 1], x);
      assert s == s[..|s| - 1] + [s[|s| - 1]];
    }
  }

  /** Inserting into a sorted sequence keeps it sorted. */
  lemma {:induction false} InsertSorted(order: SortOrder, s: seq<Product>, x: Product)
    requires Sorted(order, s)
    ensures Sorted(order, Insert(order, s, x))
  {
    if s == [] {
    } else if Before(order, s[|s| - 1], x) {
      forall i | 0 <= i < |s| ensures Before(order, s[i], x) {
        if i < |s| - 1 {
          BeforeTransitive(order, s[i], s[|s| - 1], x);
        }
      }
    } else {
      var init, last := s[..|s| - 1], s[|s| - 1];
      InsertSorted(order, init, x);
      InsertPermutes(order, init, x);
      BeforeTotal(order, last, x);
      var r := Insert(order, init, x);
      forall i | 0 <= i < |r| ensures Before(order, r[i], last) {
        assert r[i] in multiset(r);
        assert r[i] in multiset(init) || r[i] == x;
      }
    }
  }

  /** `SortBy` only rearranges: the result is a permutation of the input. */
  lemma {:induction false} SortByPermutes(order: SortOrder, s: seq<Product>)
    ensures multiset(SortBy(order, s)) == multiset(s)
  {
    if s != [] {
      SortByPermutes(order, s[..|s| - 1]);
      InsertPermutes(order, SortBy(order, s[..|s| - 1]), s[|s| - 1]);
      assert s == s[..|s| - 1] + [s[|s| - 1]];
    }
  }

  /** The result of `SortBy` is ordered by the chosen comparator. */
  lemma {:induction false} SortBySorted(order: SortOrder, s: seq<Product>)
    ensures Sorted(order, SortBy(order, s))
  {
    if s != [] {
      SortBySorted(order, s[..|s| - 1]);
      InsertSorted(order, SortBy(order, s[..|s| - 1]), s[|s| - 1]);
    }
  }

  /** Sorting an already sorted sequence changes nothing. */
  lemma {:induction false} SortByKeepsSorted(order: SortOrder, s: seq<Product>)
    requires Sorted(order, s)
    ensures SortBy(order, s) == s
  {
    if s != [] {
      SortByKeepsSorted(order, s[..|s| - 1]);
      assert s == s[..|s| - 1] + [s[|s| - 1]];
      if |s| > 1 {
        assert Before(order, s[|s| - 2], s[|s| - 1]);
      }
    }
  }

  /** Applying the same sort option twice gives the order of applying it once. */
  lemma SortByIdempotent(order: SortOrder, s: seq<Product>)
    ensures SortBy(order, SortBy(order, s)) == SortBy(order, s)
  {
    SortBySorted(order, s);
    SortByKeepsSorted(order, SortBy(order, s));
  }

  /** `Filter` and `Insert` unfolded once at the back. */
  lemma FilterSnoc(s: seq<Product>, y: Product, keep: Product -> bool)
    ensures Filter(s + [y], keep) == Filter(s, keep) + if keep(y) then [y] else []
  {
    assert (s + [y])[..|s|] == s;
  }

  lemma InsertSnoc(order: SortOrder, s: seq<Product>, y: Product, x: Product)
    ensures Insert(order, s + [y], x)
         == if Before(order, y, x) then s + [y] + [x] else Insert(order, s, x) + [y]
  {
    assert (s + [y])[..|s|] == s;
  }

  /** An element that may follow the last element of a sorted sequence may
      follow every element of any filtered part of it. */
  lemma AppendAfterFiltered(order: SortOrder, t: seq<Product>, x: Product, keep: Product -> bool)
    requires Sorted(order, t)
    requires t != [] && Before(order, t[|t| - 1], x)
    ensures Insert(order, Filter(t, keep), x) == Filter(t, keep) + [x]
  {
    var f := Filter(t, keep);
    if f != [] {
      FilterMultiset(t, keep);
      var y := f[|f| - 1];
      assert multiset(f)[y] > 0;
      assert y in t;
      var k :| 0 <= k < |t| && t[k] == y;
      if k < |t| - 1 {
        assert Before(order, t[k], t[|t| - 1]);
        BeforeTransitive(order, y, t[|t| - 1], x);
      }
      assert Before(order, y, x);
      var front := f[..|f| - 1];
      assert f == front + [y];
      InsertSnoc(order, front, y, x);
      assert Insert(order, front + [y], x) == front + [y] + [x];
    } else {
      assert Insert(order, f, x) == [x];
    }
  }

  /** Filtering the result of an insertion is inserting into the filtered
      sequence, when the test keeps the inserted element. */
  lemma {:induction false} FilterInsert(order: SortOrder, t: seq<Product>, x: Product, keep: Product -> bool)
    requires Sorted(order, t)
    ensures Filter(Insert(order, t, x), keep)
         == if keep(x) then Insert(order, Filter(t, keep), x) else Filter(t, keep)
  {
    var f := Filter(t, keep);
    if t == [] || Before(order, t[|t| - 1], x) {
      assert Insert(order, t, x) == t + [x];
      FilterSnoc(t, x, keep);
      if !keep(x) {
        assert Filter(Insert(order, t, x), keep) == f;
      } else if f == [] {
        assert Filter(Insert(order, t, x), keep) == [x] == Insert(order, f, x);
      } else {
        AppendAfterFiltered(order, t, x, keep);
        assert Filter(Insert(order, t, x), keep) == f + [x] == Insert(order, f, x);
      }
    } else {
      var init, last := t[..|t| - 1], t[|t| - 1];
      assert t == init + [last];
      FilterInsert(order, init, x, keep);
      var g := Filter(init, keep);
      var inserted := Insert(order, init, x);
      assert Insert(order, t, x) == inserted + [last];
      FilterSnoc(inserted, last, keep);
      FilterSnoc(init, last, keep);
      if !keep(x) {
        assert Filter(Insert(order, t, x), keep) == f;
      } else if !keep(last) {
        assert f == g;
        assert Filter(Insert(order, t, x), keep) == Insert(order, f, x);
      } else {
        InsertSnoc(order, g, last, x);
        assert f == g + [last];
        assert Filter(Insert(order, t, x), keep) == Insert(order, g, x) + [last] == Insert(order, f, x);
      }
    }
  }

  /** Sorting and then filtering gives the same sequence as filtering and
      then sorting. */
  lemma {:induction false} FilterSortBy(order: SortOrder, s: seq<Product>, keep: Product -> bool)
    ensures Filter(SortBy(order, s), keep) == SortBy(order, Filter(s, keep))
  {
    if s != [] {
      var init, x := s[..|s| - 1], s[|s| - 1];
      assert s == init + [x];
      FilterSortBy(order, init, keep);
      var sorted := SortBy(order, init);
      SortBySorted(order, init);
      assert SortBy(order, s) == Insert(order, sorted, x);
      FilterInsert(order, sorted, x, keep);
      var f := Filter(init, keep);
      FilterSnoc(init, x, keep);
      if keep(x) {
        assert Filter(s, keep) == f + [x];
        assert (f + [x])[..|f|] == f;
        assert SortBy(order, f + [x]) == Insert(order, SortBy(order, f), x);
        assert Filter(SortBy(order, s), keep) == Insert(order, Filter(sorted, keep), x)
                                              == Insert(order, SortBy(order, f), x);
      } else {
        assert Filter(s, keep) == f;
        assert Filter(SortBy(order, s), keep) == Filter(sorted, keep) == SortBy(order, f);
      }
    }
  }

  /** The products that the comparator cannot tell apart from `x`. */
  function SameKey(order: SortOrder, x: Product): Product -> bool
  {
    y => Before(order, x, y) && Before(order, y, x)
  }

  /** Stability: products with equal sort keys keep their relative order. */
  lemma SortByStable(order: SortOrder, s: seq<Product>, x: Product)
    ensures Filter(SortBy(order, s), SameKey(order, x)) == Filter(s, SameKey(order, x))
  {
    FilterSortBy(order, s, SameKey(order, x));
    var f := Filter(s, SameKey(order, x));
    forall i, j | 0 <= i < j < |f| ensures Before(order, f[i], f[j]) {
      BeforeTransitive(order, f[i], x, f[j]);
    }
    SortByKeepsSorted(order, f);
  }

  /** Where `Insert` puts `x`: after position `j - 1`, which may stay ahead
      of `x`, and before every later element, none of which may. */
  lemma {:induction false} InsertAt(order: SortOrder, s: seq<Product>, x: Product, j: int)
    requires 0 <= j <= |s|
    requires j == 0 || Before(order, s[j - 1], x)
    requires forall k :: j <= k < |s| ==> !Before(order, s[k], x)
    ensures Insert(order, s, x) == s[..j] + [x] + s[j..]
  {
    if j < |s| {
      var init := s[..|s| - 1];
      InsertAt(order, init, x, j);
      assert init[..j] == s[..j];
      assert init[j..] + [s[|s| - 1]] == s[j..];
    }
  }

  /** One step of `SortInPlace`: moves `a[i]` left past the elements of
      `a[..i]` that the comparator puts strictly after it. */
  method InsertInPlace(a: array<Product>, order: SortOrder, i: int)
    requires 0 <= i < a.Length
    modifies a
    ensures a[..i + 1] == Insert(order, old(a[..i]), old(a[i]))
    ensures a[i + 1..] == old(a[i + 1..])
  {
    ghost var done := a[..i];
    var x := a[i];
    var j := i;
    while j > 0 && !Before(order, a[j - 1], x)
      invariant 0 <= j <= i
      invariant a[..j] == done[..j]
      invariant a[j + 1..i + 1] == done[j..]
      invariant a[i + 1..] == old(a[i + 1..])
      invariant forall k :: j <= k < i ==> !Before(order, done[k], x)
    {
      a[j] := a[j - 1];
      j := j - 1;
    }
    a[j] := x;
    InsertAt(order, done, x, j);
    SpliceAround(a[..], done, x, i, j);
  }

  /** A list whose first `j` elements, element `j` and elements `j + 1 ..= i`
      are known, read off in one piece. */
  lemma SpliceAround(s: seq<Product>, done: seq<Product>, x: Product, i: int, j: int)
    requires 0 <= j <= i < |s| && |done| == i
    requires s[..j] == done[..j] && s[j] == x && s[j + 1..i + 1] == done[j..]
    ensures s[..i + 1] == done[..j] + [x] + done[j..]
  {
    assert s[..i + 1] == s[..j] + [s[j]] + s[j + 1..i + 1];
  }

  /** Inserting the next element of `s` into the sorted prefix gives the
      sorted prefix one longer. */
  lemma SortedPrefixGrows(order: SortOrder, s: seq<Product>, i: int, sorted: seq<Product>, grown: seq<Product>)
    requires 0 <= i < |s|
    requires sorted == SortBy(order, s[..i])
    requires grown == Insert(order, sorted, s[i])
    ensures grown == SortBy(order, s[..i + 1])
  {
    assert s[..i + 1][..i] == s[..i];
  }

  /** Sorts `a` in place, as `sortedProducts.sort(comparator)` does: an
      insertion sort that moves an element left only past elements that
      the comparator puts strictly after it. */
  method SortInPlace(a: array<Product>, order: SortOrder)
    modifies a
    ensures a[..] == SortBy(order, old(a[..]))
  {
    ghost var input := a[..];
    var i := 0;
    while i < a.Length
      invariant 0 <= i <= a.Length
      invariant a[..i] == SortBy(order, input[..i])
      invariant a[i..] == input[i..]
    {
      ghost var sortedPrefix := a[..i];
      assert a[i] == input[i] && a[i + 1..] == input[i + 1..];
      InsertInPlace(a, order, i);
      SortedPrefixGrows(order, input, i, sortedPrefix, a[..i + 1]);
      i := i + 1;
    }
    assert input[..a.Length] == input;
  }
}
