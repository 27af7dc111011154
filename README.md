# Inventory dashboard: the data transformations

This project models the three pieces of logic of an inventory-management
front end that compute something from the list of product records:

- the **dashboard statistics** (`src/components/Dashboard.tsx`): the product
  count, the inventory value `Σ price × quantity`, the low-stock and
  out-of-stock alerts, the average price, the per-category stock tally with
  its top five and their percentages, and the counts by stored status;
- the **product table filter** (`src/components/ProductTable.tsx`): a
  case-insensitive search on name, SKU and category combined with a status
  drop-down, and the colour band of the quantity cell;
- the **page's delete action** (`src/app/page.tsx`): the page owns the
  product list and replaces it by the records whose id differs.

Modules, one per source file plus a generic one:

- `Seqs` (`seqs.dfy`): `Filter`, the order-preserving filter of
  `Array.prototype.filter`, `Count` (`xs.filter(p).length`), the subsequence
  and prefix relations, and their lemmas.
- `Inventory` (`types.dfy`): `Product` and its three-valued `Status`.
  Quantities are `nat`, prices and costs exact `real`s, `minStockLevel` an
  `int`.
- `Dashboard` (`dashboard.dfy`). JavaScript division is modelled exactly by
  `Divide`, which returns a `Number`: finite, `NaN` (zero over zero) or an
  infinity. The category tally is modelled twice. `CategoryStats` is the
  imperative fold: a loop that updates a dictionary entry for each product.
  `Categories` and `CategoryQuantity` are the functions it is proved
  against. The key order of the dictionary is the order in which
  categories are first met. The sort `(a, b) => b - a` is a stable
  insertion sort by descending quantity.
- `ProductTable` (`product_table.dfy`): `FilteredProducts`, its matching
  rule, `Includes` (`String.prototype.includes`) proved equal to "occurs at
  some position", ASCII `ToLower`, and `QuantityBand`.
- `Page` (`page.dfy`): class `InventoryPage` with the `products` field and
  `HandleDeleteProduct`, specified by the pure `RemoveById`.

`totalProducts` is `|products|` throughout.

## Model

| member | source | states |
|---|---|---|
| Dashboard.TotalValueAppend | src/components/Dashboard.tsx:22 | the value of a concatenation is the sum of the values of its parts |
| Dashboard.TotalValueWithoutStock | src/components/Dashboard.tsx:22 | when the total quantity is 0 the inventory value is 0, whatever the prices |
| Dashboard.TotalValueBounds | src/components/Dashboard.tsx:22 | prices in `[0, b]` put the value in `[0, b × Σ quantity]` |
| Dashboard.StockCountsOrdered | src/components/Dashboard.tsx:21-24 | with non-negative minimum levels, out-of-stock count ≤ low-stock count ≤ number of products |
| Dashboard.LowStockComplement | src/components/Dashboard.tsx:23 | low-stock count plus the count above minimum is the number of products |
| Dashboard.AveragePriceCases | src/components/Dashboard.tsx:25 | average price is 0 for no products, `totalValue / Σ quantity` when there is stock, and NaN for a non-empty list with no stock |
| Dashboard.AveragePriceOfEmptyShelf | src/components/Dashboard.tsx:25 | a single product with quantity 0 makes the average NaN |
| Dashboard.AveragePriceGuarded | src/components/Dashboard.tsx:25 | the average guarded on the total quantity: 0 without stock, and equal to the source's finite value when there is stock |
| Dashboard.AveragePriceWithinPrices | src/components/Dashboard.tsx:25 | with prices in `[0, b]` the guarded average lies in `[0, b]` |
| Dashboard.StatusCountsPartition | src/components/Dashboard.tsx:155-181 | the in-stock, low-stock and out-of-stock counts by stored status add up to the number of products |
| Dashboard.StatusCountsMayDisagree | src/components/Dashboard.tsx:155-181 | some list has a stored out-of-stock count different from the quantity-based one |
| Dashboard.StatusCountsAgreeWhenConsistent | src/components/Dashboard.tsx:155-181 | if every stored status matches its quantity (and minimum levels are non-negative), the stored counts equal the quantity-based alerts |
| Dashboard.Categories | src/components/Dashboard.tsx:62-65 | the dictionary's keys: each category once, exactly the categories of the products |
| Dashboard.CategoryStats | src/components/Dashboard.tsx:62-65 | the fold yields the keys in first-met order, one entry per category present, each holding that category's summed quantity, and `Object.entries` of it is the tally |
| Dashboard.TallyStep | src/components/Dashboard.tsx:63 | one update of the accumulator (an absent key read as 0, plus the product's quantity) turns the tally of a prefix into the tally of the prefix plus one product |
| Dashboard.CategoryQuantityAbsent | src/components/Dashboard.tsx:63 | a category no product carries has quantity 0, the value an absent key is read as |
| Dashboard.CategoryQuantityAtMostTotal | src/components/Dashboard.tsx:62-65 | no category holds more than the total quantity |
| Dashboard.CategoryEntriesSumToTotal | src/components/Dashboard.tsx:62-67 | the tally's quantities sum to the total quantity |
| Dashboard.CategoryEntriesShape | src/components/Dashboard.tsx:62-67 | one entry per distinct category, each a category of the products with its summed quantity, at most the total |
| Dashboard.InsertByQuantity | src/components/Dashboard.tsx:68 | inserting adds exactly that entry (as a multiset) and its quantity to the sum |
| Dashboard.InsertKeepsSorted | src/components/Dashboard.tsx:68 | inserting into a non-increasing list keeps it non-increasing |
| Dashboard.SortByQuantity | src/components/Dashboard.tsx:68 | the sort result is a permutation of its input and non-increasing by quantity |
| Dashboard.InsertKeepsTies | src/components/Dashboard.tsx:68 | insertion places the new entry before every entry of equal quantity |
| Dashboard.SortIsStable | src/components/Dashboard.tsx:68 | entries of equal quantity keep their input order |
| Dashboard.TopCategoriesOf | src/components/Dashboard.tsx:67-69 | the top list has `min(5, n)` entries, drawn from the input, in non-increasing order |
| Dashboard.TopCategoriesShape | src/components/Dashboard.tsx:67-69 | for the tally, the top list has `min(5, #distinct categories)` entries |
| Dashboard.TopCategoriesAreLargest | src/components/Dashboard.tsx:67-69 | a left-out entry has no more stock than any entry in the top list |
| Dashboard.TopCategoriesKeepFirstTies | src/components/Dashboard.tsx:67-69 | among equal quantities, the top list keeps those first met in the input |
| Dashboard.TopCategoriesSumAtMostTotal | src/components/Dashboard.tsx:67-69 | the top list's quantities sum to at most the total |
| Dashboard.PercentageInRange | src/components/Dashboard.tsx:112 | with stock present, a share of the stock is a finite percentage in `[0, 100]` |
| Dashboard.PercentageWithoutStock | src/components/Dashboard.tsx:112 | with products but no stock, every category's percentage is NaN |
| Dashboard.PercentageSumIsShare | src/components/Dashboard.tsx:112 | the percentages of a list of entries sum to their quantities' share of the total, times 100 |
| Dashboard.AllPercentagesSumTo100 | src/components/Dashboard.tsx:112 | over all categories the percentages sum to exactly 100 |
| Dashboard.TopPercentagesAtMost100 | src/components/Dashboard.tsx:111-112 | the displayed top-five percentages sum to at most 100 |
| Dashboard.PercentageGuarded | src/components/Dashboard.tsx:112 | the percentage guarded on the total quantity: 0 without stock, equal to the source's value with stock, and within `[0, 100]` |
| Dashboard.SampleTotals | src/components/Dashboard.tsx:22 | for the two sample tools the value is 10 and the total quantity 5 |
| Dashboard.SampleAlerts | src/components/Dashboard.tsx:23-24 | the two sample tools give two low-stock alerts and one out-of-stock alert |
| Dashboard.SampleCategories | src/components/Dashboard.tsx:62-69 | the two sample tools form one category "Tools" of 5 units, at 100% |
| ProductTable.ToLower | src/components/ProductTable.tsx:22-24 | lower-casing keeps the length and maps each character on its own |
| ProductTable.ToLowerIdempotent | src/components/ProductTable.tsx:22-24 | lower-casing twice is lower-casing once |
| ProductTable.Includes | src/components/ProductTable.tsx:22-24 | `includes` holds iff the term occurs at some position of the text |
| ProductTable.LongerTermNeverIncluded | src/components/ProductTable.tsx:22-24 | a term longer than the text never matches |
| ProductTable.EmptyTermMatches | src/components/ProductTable.tsx:22-24 | the empty search term matches every product |
| ProductTable.FilteredMembership | src/components/ProductTable.tsx:21-29 | a product is shown iff it is in the list, its lower-cased name, SKU or category contains the lower-cased term, and the filter is `'all'` or its stored status |
| ProductTable.FilteredIsSubsequence | src/components/ProductTable.tsx:21-29 | the rows shown are a subsequence of the products, so there are no more of them |
| ProductTable.EmptySearchShowsAll | src/components/ProductTable.tsx:21-29 | an empty term with `'all'` shows the list unchanged |
| ProductTable.FilteringIsIdempotent | src/components/ProductTable.tsx:21-29 | filtering the shown rows again shows the same rows |
| ProductTable.StatusNarrowsAll | src/components/ProductTable.tsx:26 | for a fixed term, a specific status gives the `'all'` result filtered further, a subsequence of it |
| ProductTable.SearchIgnoresCase | src/components/ProductTable.tsx:22-24 | terms equal up to case show the same rows |
| ProductTable.LowerCasedTermSameRows | src/components/ProductTable.tsx:22-24 | lower-casing the term beforehand changes nothing |
| ProductTable.QuantityBand | src/components/ProductTable.tsx:103-109 | red iff quantity ≤ minimum, yellow iff minimum < quantity ≤ 2 × minimum, green iff above both |
| ProductTable.BandMonotone | src/components/ProductTable.tsx:104-108 | more stock at the same minimum never gives a more alarming band |
| ProductTable.SampleWidgetMatches | src/components/ProductTable.tsx:22-24 | "widget" matches the record named "Widget" |
| ProductTable.SampleGadgetMisses | src/components/ProductTable.tsx:22-24 | "widget" matches neither the name, SKU nor category of the "Gadget" record |
| ProductTable.SampleSearchExample | src/components/ProductTable.tsx:21-29 | searching "widget" among the two samples shows only the widget |
| ProductTable.SampleStatusExample | src/components/ProductTable.tsx:21-29 | an empty term with "out-of-stock" shows only the empty record |
| Page.RemoveByIdMembership | src/app/page.tsx:29 | after deleting an id, a record remains iff it was there and has another id |
| Page.RemoveByIdKeepsOrder | src/app/page.tsx:29 | the remaining records keep their relative order |
| Page.RemoveByIdLength | src/app/page.tsx:29 | the new length is the old length minus the number of records with that id |
| Page.RemoveAbsentId | src/app/page.tsx:29 | deleting an id no record has leaves the list unchanged |
| Page.RemoveByIdIdempotent | src/app/page.tsx:29 | deleting the same id twice is deleting it once |
| Page.InventoryPage.constructor | src/app/page.tsx:20 | the page starts out holding the list it is given |
| Page.InventoryPage.HandleDeleteProduct | src/app/page.tsx:28-30 | the held list becomes the old list without the id's records: a subsequence of the old list, no record with the id, shorter by their number |

## Left out

- Rendering: JSX, CSS classes, icons, `getStatusIcon`, the "no results" message and the stat cards' texts are presentation only.
- `formatCurrency` (src/lib/utils) and `mockProducts` (src/lib/mockData) are not part of this model. The initial list is a parameter of the `InventoryPage` constructor.
- Floating point: prices, values, averages and percentages are exact rationals. There is no rounding and no `toFixed(1)`. Quantities are whole and non-negative, as the records are meant to hold.
- `toLowerCase` is modelled for ASCII letters only. Unicode case mapping is not modelled.
- `Object.entries` is modelled as listing keys in first-insertion order. JavaScript lists integer-like keys first, in numeric order; the model does not.
- Category names that collide with members of `Object.prototype` (such as `"constructor"`) are not modelled. `acc[c] || 0` would read the inherited member there.
- React state plumbing (`useState`, `setSearchTerm`, `setFilterStatus`, re-render timing) is left out. The search term and the status filter are parameters.
- Tab navigation (`activeTab`, the sidebar) and the console-logging edit/add handlers of `src/app/page.tsx` are left out: they compute nothing from the products.
- The `StockMovement`, `Supplier` and `Category` types of `src/lib/types.ts` are left out: no code uses them.

## Findings

| source | as written | input that shows it | evidently intended | confidence | as-written member | corrected member |
|---|---|---|---|---|---|---|
| src/components/Dashboard.tsx:25 | `totalProducts > 0 ? totalValue / Σ quantity : 0` guards on the number of products, not on the divisor | one product with quantity 0: the result is 0 / 0, i.e. NaN | 0 when the total quantity is 0, avoiding the division by zero | not executed | Dashboard.AveragePriceOfEmptyShelf | Dashboard.AveragePriceGuarded |
| src/components/Dashboard.tsx:112 | `totalProducts > 0 ? (quantity / Σ quantity) * 100 : 0` has the same guard | one product with quantity 0: its category's percentage is NaN, and the bar width becomes `NaN%` | 0 when the total quantity is 0 | not executed | Dashboard.PercentageWithoutStock | Dashboard.PercentageGuarded |

Both as-written functions (`AveragePrice`, `Percentage`) are kept as the
source has them. The corrected versions agree with them wherever there is
stock (`AveragePriceGuarded` and `PercentageGuarded` state this). They
differ only in the no-stock case.
