# Storefront state logic in Dafny

A Dafny model of the state logic of the storefront's `App` component
(`src/App.tsx`). The component has two parts.

- **Catalog view.** `updateSearchedProducts` copies the catalog and sorts the
  copy in place by one of six options: name A–Z or Z–A, price low–high or
  high–low, rating low–high or high–low. Any other option string leaves
  catalog order. It then drops out-of-stock products when "In stock" is ticked.
  Finally it keeps the products whose lower-cased name contains the lower-cased
  search term. `getSearchCount` turns the term and the number of visible
  products into the line above the list.
- **Basket.** The basket is an ordered list of lines `{product, quantity}`,
  looked up by product id. `addToBasket` bumps a line or appends a new one
  with quantity 1. `removeFromBasket` lowers a line and splices it out at 0,
  and does nothing for a product with no line. `getTotalCost` sums
  `price * quantity` over the lines.

Modules:

- `Catalog` (`catalog.dfy`): the `Product` record and order-preserving `Filter`.
- `Text` (`text.dfy`): name comparison, lower-casing, substring search and decimal rendering of counts.
- `Sorting` (`sorting.dfy`): the sort options and their comparators. It also holds `SortBy`, a functional stable insertion sort used as the reference, and `SortInPlace`, the in-place array sort proved equal to it.
- `Search` (`search.dfy`): the view state, the visible list and the result line.
- `Shopping` (`basket.dfy`): basket lines, the reference functions `Add` and `Remove`, the total cost, and the class `Basket`. `Basket` updates its list by index, as the component does.

`Array.prototype.sort` is stable (ECMAScript 2019). A stable sort under a
total preorder has only one possible result. So `SortBy` fixes the visible
list exactly, whatever algorithm the engine runs. `UpdateSearchedProducts`
is proved to return the stable sort of the selected catalog products.
It sorts first and filters afterwards, as the source does. The proof goes
through `FilterSortBy`: filtering commutes with the stable sort.

The in-stock filter keeps `quantity > 0`, so a product with negative stock
also counts as out of stock. Names are ordered by `localeCompare`, modelled
here as character-code order (see Left out).

## Model

| member | source | states |
|---|---|---|
| `Catalog.InStock` | src/App.tsx:64-66 | a product is in stock exactly when its stock level is positive |
| `Catalog.Filter` | src/App.tsx:64-70 | the result is no longer than the input, and every product in it passes the test |
| `Catalog.FilterMultiset` | src/App.tsx:64-70 | each product occurs in a filtered list exactly as often as in the input if it passes the test, and never otherwise |
| `Catalog.FilterTwice` | src/App.tsx:64-70 | the in-stock filter followed by the name filter equals one filter by their conjunction |
| `Catalog.FilterSameTest` | src/App.tsx:68-70 | filtering depends only on the values of the test |
| `Catalog.FilterKeepsAll` | src/App.tsx:68-70 | a test that every element passes removes nothing |
| `Text.StrCompare` | src/App.tsx:51 | the name comparator is three-way (-1, 0 or 1) and returns 0 exactly for equal names |
| `Text.StrCompareAntisymmetric` | src/App.tsx:51-53 | swapping the arguments negates the comparison, so Z–A is A–Z reversed |
| `Text.StrCompareTransitive` | src/App.tsx:51-53 | "sorts no later than" on names is transitive |
| `Text.ToLower` | src/App.tsx:69 | lower-casing keeps the length, turns each upper-case letter into its lower-case partner and changes no other character |
| `Text.SameUpToCaseLowersAlike` | src/App.tsx:69 | two words that differ only in the case of their letters lower-case to the same string |
| `Text.Includes` | src/App.tsx:69 | `includes`: the term occurs at some position of the name, so a name shorter than the term never includes it |
| `Text.IncludesEmpty` | src/App.tsx:69 | every name includes the empty search term |
| `Text.NatToString` | src/App.tsx:75-81 | a rendered count is a non-empty string of decimal digits |
| `Text.NatToStringRoundTrip` | src/App.tsx:75-81 | reading a rendered count back gives the count |
| `Text.NatToStringInjective` | src/App.tsx:75-81 | different counts render differently |
| `Sorting.OptionValue` | src/App.tsx:142-147 | the value of the `<option>` element that selects each of the six orders |
| `Sorting.ParseOptionValue` | src/App.tsx:50-62 | each option value offered by the drop-down selects the order it names |
| `Sorting.ParseSortOption` | src/App.tsx:50-62 | one of the six option values selects the order it names; every other string selects none |
| `Sorting.Compare` | src/App.tsx:51-61 | the six comparators: `localeCompare` on the names either way round, and the difference of the prices or of the ratings either way round |
| `Sorting.CompareTiesOnKey` | src/App.tsx:51-61 | each comparator ties two products exactly when they agree on its key (name, price or rating) |
| `Sorting.BeforeTotal` | src/App.tsx:51-61 | each of the six comparators orders any two products one way or the other |
| `Sorting.BeforeTransitive` | src/App.tsx:51-61 | each of the six comparators is transitive |
| `Sorting.Insert` | src/App.tsx:48-62 | one step of a stable sort: the element goes after the last element that may stay ahead of it |
| `Sorting.SortBy` | src/App.tsx:48-62 | the stable sort of a list under one comparator, by repeated insertion |
| `Sorting.InsertPermutes` | src/App.tsx:51-61 | one insertion step adds the element and loses nothing |
| `Sorting.InsertSorted` | src/App.tsx:51-61 | one insertion step keeps a sorted list sorted |
| `Sorting.SortByPermutes` | src/App.tsx:48-62 | the sorted list is a permutation of the catalog copy |
| `Sorting.SortBySorted` | src/App.tsx:48-62 | the sorted list is ordered by the chosen comparator |
| `Sorting.SortByKeepsSorted` | src/App.tsx:48-62 | sorting an already sorted list leaves it unchanged |
| `Sorting.SortByIdempotent` | src/App.tsx:48-62 | applying the same sort option twice gives the same order as once |
| `Sorting.SortByStable` | src/App.tsx:48-62 | products the comparator cannot tell apart keep their catalog order |
| `Sorting.FilterInsert` | src/App.tsx:48-70 | filtering after an insertion equals inserting into the filtered sorted list, or leaving it alone if the new element fails the test |
| `Sorting.FilterSortBy` | src/App.tsx:48-70 | sorting then filtering gives the same list as filtering then sorting |
| `Sorting.InsertAt` | src/App.tsx:48-62 | where an insertion puts an element: after the last element that may precede it |
| `Sorting.InsertInPlace` | src/App.tsx:48-62 | one pass of the in-place sort turns the prefix plus the next element into the insertion of that element and leaves the rest of the array alone |
| `Sorting.SortInPlace` | src/App.tsx:48-62 | sorting the array in place leaves exactly the stable sort of its old contents |
| `Search.NameMatches` | src/App.tsx:68-70 | the lower-cased name includes the lower-cased term; a name shorter than the term never matches |
| `Search.Shown` | src/App.tsx:64-70 | a shown product matches the term, and with "In stock" ticked a product without stock is never shown |
| `Search.Selected` | src/App.tsx:64-70 | the selected products are exactly the catalog products that pass both filters, each as often as the catalog lists it |
| `Search.EmptyTermFiltersNothing` | src/App.tsx:64-70 | with an empty search term only the in-stock filter removes anything, and with it off the whole catalog is kept |
| `Search.SearchIgnoresCase` | src/App.tsx:69 | two search terms that differ only in the case of their letters select the same products |
| `Search.SearchFindsApple` | src/App.tsx:68-70 | the term "ap" matches a product named "Apple" |
| `Search.UpdateSearchedProducts` | src/App.tsx:47-71 | the visible list is the stable sort of the selected products, ordered by the option when it names one. For any other option it is the selection in catalog order. It holds exactly the catalog products that pass both filters |
| `Search.SearchCount` | src/App.tsx:73-83 | "<n> Products" for an empty term; otherwise "No search results found" exactly when nothing is visible, "1 Result" for one and "<n> Results" for more |
| `Search.SearchCountDistinguishes` | src/App.tsx:73-83 | for a given term, two visible lists with the same result line have the same length |
| `Shopping.IndexOf` | src/App.tsx:85 | `findIndex` gives -1 exactly when no line holds the id, and otherwise the first line that does |
| `Shopping.Add` | src/App.tsx:84-93 | the basket after adding: one line longer when the product had no line, the same length otherwise |
| `Shopping.Remove` | src/App.tsx:94-104 | the basket after removing: unchanged when the product has no line |
| `Shopping.AddAt` | src/App.tsx:84-93 | adding a product that has a line raises that line by one and keeps the length and every other line. Otherwise it appends a line with quantity 1 after the unchanged old lines |
| `Shopping.RemoveAt` | src/App.tsx:94-104 | removing a product with no line changes nothing. A line with quantity 1 is spliced out and the other lines keep their order. Any other line is lowered by one in place |
| `Shopping.AddKeepsWellFormed` | src/App.tsx:84-93 | adding keeps the basket invariant: one line per id and every quantity at least 1 |
| `Shopping.RemoveKeepsWellFormed` | src/App.tsx:94-104 | removing keeps the basket invariant |
| `Shopping.RemoveUndoesAdd` | src/App.tsx:84-104 | removing a product right after adding it restores the basket |
| `Shopping.AddQuantity` | src/App.tsx:84-93 | adding a product raises its quantity by one and leaves every other product's unchanged |
| `Shopping.QuantityPositive` | src/App.tsx:94-104 | in a basket whose quantities are all at least 1, a product has a line exactly when its quantity is positive |
| `Shopping.RemoveQuantity` | src/App.tsx:94-104 | removing a product lowers its quantity by one when the basket holds it and leaves every other product's unchanged |
| `Shopping.AddTimesFromEmpty` | src/App.tsx:84-93 | adding a product n times to an empty basket gives a single line with quantity n |
| `Shopping.Subtotal` | src/App.tsx:106 | the cost of one line, `price * quantity`: never negative for a non-negative price and quantity, and 0 for a quantity of 0 |
| `Shopping.Cost` | src/App.tsx:105-107 | the total of an empty basket is 0, and it is never negative when prices and quantities are not |
| `Shopping.CostAdd` | src/App.tsx:84-107 | adding a catalog product raises the total by its price |
| `Shopping.CostRemove` | src/App.tsx:94-107 | removing a catalog product lowers the total by its price when the basket holds it, and otherwise leaves it unchanged |
| `Shopping.Basket.constructor` | src/App.tsx:26 | the basket starts empty and satisfies its invariant |
| `Shopping.Basket.AddToBasket` | src/App.tsx:84-93 | the in-place update keeps the invariant, produces `Add` of the old lines and raises the product's quantity by one |
| `Shopping.Basket.RemoveFromBasket` | src/App.tsx:94-104 | the in-place update keeps the invariant and produces `Remove` of the old lines. An absent product changes nothing; a present one loses one item |
| `Shopping.Basket.TotalCost` | src/App.tsx:105-107 | an empty basket costs 0, and a basket with non-negative prices never costs less than 0 |

## Left out

- The basket panel's DOM handling (`showBasket`, `hideBasket`, src/App.tsx:32-44) is I/O against the document and is not modelled.
- React plumbing is not modelled: `useState`, the `useEffect` that recomputes the visible list when the term, option or filter changes, and all JSX rendering. `UpdateSearchedProducts` takes the catalog and the view state as parameters and returns the list the component would store.
- The bundled JSON catalog import is not modelled; the catalog is a parameter.
- `src/Components/ProductList.tsx` is not part of this model. It only renders products and enables "Add to basket" when `quantity > 0`.
- Prices and ratings are integers (pence, tenths of a star) instead of floating-point numbers. `getTotalCost`'s `toFixed(2)` formatting is not modelled: `Cost` is the unformatted sum in pence. With integers the order of the `reduce` does not matter.
- `Text.StrCompare`: `localeCompare` is modelled as character-code lexicographic order, not as the host's locale collation, so "Banana" sorts before "apple" here. The sort results (`Sorting.SortBySorted`, `Sorting.SortByStable`, `Search.UpdateSearchedProducts`) rest only on each comparator being a total preorder (`Sorting.BeforeTotal`, `Sorting.BeforeTransitive`). The clause that `StrCompare` returns 0 only for equal names belongs to this stand-in: a locale collation can tie different strings.
- `Text.ToLower`: `toLowerCase` is modelled as ASCII lower-casing; Unicode case mapping is not modelled.
- Aliasing in `addToBasket` and `removeFromBasket` is not modelled. The source copies the array shallowly and then mutates a `BasketItem` that the previous state still shares. Here a basket line is a value, and `Basket` reassigns its list field.
- Stock levels are never changed by adding to the basket, as in the source; there is no replenishment.
