# Dessert storefront: cart and catalog model

This project models the data logic of a single-page dessert storefront:

- **The cart** (`cart.dfy`, module `CartEngine`), from `src/main.ts`. The page
  keeps one `cart` list of `{ dessert, quantity }` lines. Its event handlers
  replace that list with `map`/`filter` transforms of itself: decrement (one
  unit less, or the line goes when it was the last unit), remove a line, and
  reset to empty for a new order. The page reads the list through
  `calculateTotal`, the item count in the cart title, and the quantity lookup
  behind each product card. `formatCategoryName` gives a category's display
  name. Here the list is the `items` field of a `Cart` object. Each handler
  is a method that changes that field. The transforms are functions on
  `seq<CartItem>`. The cart invariant (`WellFormed`: every quantity is at least
  1 and no product has two lines) is `Cart.Valid()`. Every handler keeps it.
- **The catalog queries** (`products.dfy`, module `Products`), from
  `src/utils/products.ts`: search, the two stable price sorts, the inclusive
  price-range filter, grouping by category, the distinct categories, the
  average price, and the cheapest and most expensive product. The source reads
  a module-level `products` list. Here it is a `catalog` parameter.
- **The array operations both files use** (`lists.dfy`, module `Lists`):
  `filter`, `reduce` with a numeric accumulator, and `sort` by a numeric key,
  each with the facts the two modules rely on.

Prices are whole cents (`nat`), so totals, comparisons and sums are exact. The
average price is a `real`.

Three points of the source's behaviour that the model follows:

- `cart` is one module-level variable (src/main.ts:6). The decrement, remove
  and reset handlers overwrite it (src/main.ts:111, 117, 201, 256). So the
  model keeps it as the `items` field of one `Cart` object.
- `searchProducts` is documented as "Search products by name"
  (src/utils/products.ts:9). The code goes beyond that and matches the name,
  the description and the category.
- `getUniqueCategories` collects the categories in a JavaScript `Set`, and a
  `Set` iterates in insertion order. So the result lists the categories in
  order of first occurrence, and the model proves that order.

## Model

| member | source | states |
|---|---|---|
| `CartEngine.FormatCategoryName` | src/main.ts:9-15 | "Creme Brulee" becomes "Crème Brûlée"; every other string, "Panna Cotta" included, comes back unchanged |
| `CartEngine.Find` | src/main.ts:30 | none exactly when no line has the id; otherwise the first line whose product has the id |
| `CartEngine.QuantityIn` | src/main.ts:30-32 | the quantity of the first line for the id, and 0 when there is no such line |
| `CartEngine.QuantityInWellFormed` | src/main.ts:30-32 | in a well-formed cart the shown quantity is never negative, and it is 0 exactly when the product has no line |
| `CartEngine.DecrementAll` | src/main.ts:111-115 | same length; every line for the id has one unit less and keeps its product; every other line is unchanged |
| `CartEngine.DecrementAboveOne` | src/main.ts:110-115 | for a line with quantity q > 1: the result is the cart with only that line set to q-1 (same length and order); it stays well-formed; the quantity shown is q-1; the count drops by 1 and the total by the product's price |
| `CartEngine.DecrementLastUnit` | src/main.ts:116-117 | for a line with quantity 1: the result is the cart without that line, the others in their original order; it stays well-formed; the quantity shown is 0; the count drops by 1 and the total by the price |
| `CartEngine.DecrementFacts` | src/main.ts:109-118 | on a well-formed cart the handler's result (map above 1, filter at 1, unchanged when absent) stays well-formed; for a present product the count and its quantity drop by 1 and the total by its price |
| `CartEngine.RemoveId` | src/main.ts:201 | `cart.filter(item => item.dessert.id !== id)`, also applied by the last-unit decrement at src/main.ts:117: each line whose product has another id is kept as many times as the cart holds it, and no line for the id is kept; order and exact shape follow from `RemoveDeletesEveryLine` and `RemoveAt` |
| `CartEngine.RemoveDeletesEveryLine` | src/main.ts:201 | the result is a subsequence of the cart; it holds exactly the lines whose id differs; the removed product's quantity is then 0 |
| `CartEngine.RemoveAbsent` | src/main.ts:201 | removing an id that no line has leaves the cart unchanged |
| `CartEngine.RemoveIdempotent` | src/main.ts:201 | removing the same id twice gives the same cart as removing it once |
| `CartEngine.RemovePreservesWellFormed` | src/main.ts:201 | removal keeps every quantity at least 1 and the ids unique |
| `CartEngine.RemoveAt` | src/main.ts:201 | with unique ids, removing the product of line k deletes exactly line k |
| `CartEngine.RemovePresent` | src/main.ts:201 | removing a present product leaves one line fewer; the count drops by that line's quantity, the total by its price × quantity |
| `CartEngine.CalculateTotal` | src/main.ts:129-131 | the left-fold reduce from 0 equals the sum of price × quantity over the lines (0 for the empty cart) |
| `CartEngine.TotalNonNegative` | src/main.ts:129-131 | a cart whose quantities are all positive has a total of at least 0 |
| `CartEngine.ItemCount` | src/main.ts:139 | the left-fold reduce from 0 equals the sum of the quantities (0 for the empty cart) |
| `CartEngine.CountAtLeastLines` | src/main.ts:139 | when every quantity is positive, the count is at least the number of lines |
| `CartEngine.Cart.constructor` | src/main.ts:6 | the cart starts empty and valid |
| `CartEngine.Cart.Total` | src/main.ts:129-131 | the order total of the current cart: 0 when empty, never negative in a valid cart |
| `CartEngine.Cart.Count` | src/main.ts:139 | the title count: 0 when empty, at least the number of lines in a valid cart (so 0 only when empty) |
| `CartEngine.Cart.QuantityOf` | src/main.ts:30-32 | the card quantity: never negative in a valid cart, and 0 exactly when the product has no line |
| `CartEngine.Cart.Decrement` | src/main.ts:108-118 | the new cart is the map when the shown quantity is above 1, the filter when it is 1, and unchanged otherwise (absent product); the cart stays valid; for a present product the count and its quantity drop by 1 and the total by its price |
| `CartEngine.Cart.Remove` | src/main.ts:199-204 | the new cart is the filter by id; it stays valid; the product's quantity becomes 0; the count drops by its old quantity and the total by its line total |
| `CartEngine.Cart.Reset` | src/main.ts:255-256 | the cart is empty and valid, with count 0 and total 0 |
| `Products.IncludesIffOccurs` | src/utils/products.ts:15-17 | `includes` holds exactly when the needle occurs at some position of the haystack |
| `Products.MatchesQuery` | src/utils/products.ts:14-17 | a product matches exactly when the lower-cased query occurs at some position of its lower-cased name, description or category |
| `Products.SearchProducts` | src/utils/products.ts:11-19 | the result is a subsequence of the catalog; a product is in it exactly when its lower-cased name, description or category contains the lower-cased query; the empty query returns the whole catalog |
| `Products.SortProductsByPriceAsc` | src/utils/products.ts:24-26 | a permutation of the input, non-decreasing by price; for each price, the products with that price keep their input order |
| `Products.SortProductsByPriceDesc` | src/utils/products.ts:31-33 | a permutation of the input, non-increasing by price; for each price, the products with that price keep their input order |
| `Products.FilterProductsByPriceRange` | src/utils/products.ts:45-53 | a subsequence of the input holding exactly the products with min ≤ price ≤ max, bounds included; empty when min > max |
| `Products.GetProductsGroupedByCategory` | src/utils/products.ts:58-68 | the keys are exactly the categories that occur; each group is the catalog's products of that category in catalog order, and no group is empty |
| `Products.GroupsOfPush` | src/utils/products.ts:61-65 | one step (create the product's group when it is missing, then push the product) turns the dictionary of a prefix into the dictionary of the prefix extended by that product |
| `Products.GroupedIsGroupsOf` | src/utils/products.ts:59-67 | pushing the products one by one from an empty dictionary gives keys that are exactly the categories pushed, each group holding that category's products in push order, none empty |
| `Products.GroupSizesSumToCatalogSize` | src/utils/products.ts:58-68 | over a duplicate-free list naming every category, the group sizes add up to the catalog length |
| `Products.GetUniqueCategories` | src/utils/products.ts:73-79 | no duplicates; exactly the categories that occur; listed in order of first occurrence in the catalog |
| `Products.GetAveragePrice` | src/utils/products.ts:84-88 | 0 for the empty catalog; otherwise average × length equals the sum of the prices |
| `Products.AverageBetweenCheapestAndMostExpensive` | src/utils/products.ts:84-108 | for a non-empty catalog the average lies between the cheapest and the most expensive price |
| `Products.CheapestIndex` | src/utils/products.ts:95-97 | the reduce with a strict `<` stops at a position of minimal price that no earlier position shares |
| `Products.MostExpensiveIndex` | src/utils/products.ts:105-107 | the reduce with a strict `>` stops at a position of maximal price that no earlier position shares |
| `Products.GetCheapestProduct` | src/utils/products.ts:93-98 | none exactly for the empty catalog; otherwise the earliest product with the minimal price |
| `Products.GetMostExpensiveProduct` | src/utils/products.ts:103-108 | none exactly for the empty catalog; otherwise the earliest product with the maximal price |
| `Lists.Filter` | src/utils/products.ts:50-52 | `filter` keeps at most the input's length, and holds exactly the elements that pass the test; how many copies it keeps is stated by `FilterMultiset` |
| `Lists.FilterMultiset` | src/utils/products.ts:50-52 | `filter` keeps every copy of an element that passes the test, as many times as the input holds it, and no copy of one that fails |
| `Lists.FilterIsSubsequence` | src/utils/products.ts:13-18 | `filter` keeps the input order: its result is a subsequence of the input |
| `Lists.Reduce` | src/main.ts:130 | the left-fold `reduce((acc, x) => acc + f(x), acc)` equals acc plus the sum of f over the sequence |
| `Lists.SortByKey` | src/utils/products.ts:25 | the sort returns a permutation of its input, ordered by key |
| `Lists.SortByKeyStable` | src/utils/products.ts:25 | the sort is stable: the elements with any one key keep their input order |

## Left out

- `addToCart` and the increment branch (src/main.ts:89, 107): `src/utils/cart.js` is not part of this model, so no add operation is offered. The cart methods accept any valid cart, which is what add is expected to produce.
- `CartEngine.Cart.Decrement`, `CartEngine.Cart.Remove`: both require `Valid()`, the cart invariant. The handlers in the source run on whatever the cart holds. The transforms they apply (`DecrementAll`, `RemoveId`) are modelled and specified for any list, invariant or not.
- Rendering and wiring (`init`, `renderDesserts`, `renderCart`, `showOrderConfirmation`, the event listeners, the modal, `window.scrollTo`, the `DOMContentLoaded` bootstrap): presentation, with no effect on the cart or catalog data.
- `sortProductsByName` (src/utils/products.ts:38-40): its order is `localeCompare` collation, which is not visible in this source.
- The catalog contents (`src/data/products.js`) and the type definitions (`src/types/index.js`) are not part of this model. The catalog is a parameter. `Product` keeps the fields the core reads, and leaves out the image references.
- Floating point and `toFixed(2)`: prices are whole cents, so sums and comparisons are exact. NaN prices and fractional cents do not arise.
- Unicode case mapping: `toLowerCase` is modelled as ASCII lower-casing (`Products.LowerChar`).
- Key order of the grouped dictionary: it is a `map`, which has no order. In JavaScript the keys come in first-occurrence order, the same order that `GetUniqueCategories` proves.
- Keys inherited from `Object.prototype` (such as a category named "constructor") in the lookup table of `formatCategoryName` and in the grouped dictionary: not modelled. The categories form a fixed set of dessert names.
