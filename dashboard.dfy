/** The statistics of `src/components/Dashboard.tsx`: totals, stock-level
    counts, the average price, the per-category tally with its top five and
    their percentages, and the counts by stored status. */
module Dashboard {
  import opened Seqs
  import opened Inventory

  /** A JavaScript number as a division can leave it. */
  datatype Number = Finite(value: real) | NaN | Infinity(negative: bool)

  /** JavaScript's `a / b`: zero over zero is NaN, anything else over zero is an infinity. */
  function Divide(a: real, b: real): Number
  {
    if b != 0.0 then Finite(a / b)
    else if a == 0.0 then NaN
    else Infinity(a < 0.0)
  }

  /** JavaScript's `n * k` for a positive finite `k`. */
  function Scale(n: Number, k: real): Number
    requires k > 0.0
  {
    match n
    case Finite(v) => Finite(v * k)
    case NaN => NaN
    case Infinity(negative) => Infinity(negative)
  }

  // ---------------------------------------------------------------------------
  // Totals (the `reduce` calls, folded from the left)

  /** `totalValue`: the running sum of `price * quantity`. */
  function TotalValue(products: seq<Product>): real
  {
    if products == [] then 0.0
    else
      var last := products[|products| - 1];
      TotalValue(products[..|products| - 1]) + last.price * last.quantity as real
  }

  /** The running sum of `quantity`, the divisor of the average and the percentages. */
  function TotalQuantity(products: seq<Product>): nat
  {
    if products == [] then 0
    else TotalQuantity(products[..|products| - 1]) + products[|products| - 1].quantity
  }

  /** The value of a list is the value of its parts. */
  lemma {:induction false} TotalValueAppend(a: seq<Product>, b: seq<Product>)
    ensures TotalValue(a + b) == TotalValue(a) + TotalValue(b)
    decreases |b|
  {
    if b == [] {
      assert a + b == a;
    } else {
      var init := b[..|b| - 1];
      TotalValueAppend(a, init);
      assert (a + b)[..|a + b| - 1] == a + init;
    }
  }

  /** With no stock at all there is no value, whatever the prices. */
  lemma {:induction false} TotalValueWithoutStock(products: seq<Product>)
    requires TotalQuantity(products) == 0
    ensures TotalValue(products) == 0.0
    decreases |products|
  {
    if products != [] {
      TotalValueWithoutStock(products[..|products| - 1]);
    }
  }

  /** Prices in `[0, bound]` keep the value in `[0, bound * totalQuantity]`. */
  lemma {:induction false} TotalValueBounds(products: seq<Product>, bound: real)
    requires forall i :: 0 <= i < |products| ==> 0.0 <= products[i].price <= bound
    ensures 0.0 <= TotalValue(products) <= bound * TotalQuantity(products) as real
    decreases |products|
  {
    if products != [] {
      var init := products[..|products| - 1];
      var last := products[|products| - 1];
      TotalValueBounds(init, bound);
      assert 0.0 <= last.price * last.quantity as real <= bound * last.quantity as real by {
        MultiplyMonotone(last.price, bound, last.quantity as real);
      }
    }
  }

  lemma MultiplyMonotone(x: real, y: real, k: real)
    requires 0.0 <= x <= y && 0.0 <= k
    ensures 0.0 <= x * k <= y * k
  {
  }

  // ---------------------------------------------------------------------------
  // Quantity-based counts

  /** `p.quantity <= p.minStockLevel`. */
  predicate IsLowStock(p: Product)
  {
    p.quantity <= p.minStockLevel
  }

  /** `p.quantity === 0`. */
  predicate IsOutOfStock(p: Product)
  {
    p.quantity == 0
  }

  predicate IsAboveMinimum(p: Product)
  {
    p.quantity > p.minStockLevel
  }

  /** `lowStockItems`. */
  function LowStockItems(products: seq<Product>): nat
  {
    Count(IsLowStock, products)
  }

  /** `outOfStockItems`. */
  function OutOfStockItems(products: seq<Product>): nat
  {
    Count(IsOutOfStock, products)
  }

  /** With non-negative minimum levels every empty record is also a low-stock
      record, so the alerts are ordered: out of stock <= low stock <= all. */
  lemma StockCountsOrdered(products: seq<Product>)
    requires forall i :: 0 <= i < |products| ==> products[i].minStockLevel >= 0
    ensures OutOfStockItems(products) <= LowStockItems(products) <= |products|
  {
    CountMonotone(IsOutOfStock, IsLowStock, products);
    FilterIsSubsequence(IsLowStock, products);
  }

  /** Every record is either at or below its minimum or above it. */
  lemma LowStockComplement(products: seq<Product>)
    ensures LowStockItems(products) + Count(IsAboveMinimum, products) == |products|
  {
    CountComplement(IsLowStock, IsAboveMinimum, products);
  }

  // ---------------------------------------------------------------------------
  // Average price

  /** `averagePrice` as written: the guard tests the number of products, not
      the total quantity, so a non-empty list without stock divides by zero. */
  function AveragePrice(products: seq<Product>): Number
  {
    if |products| > 0 then Divide(TotalValue(products), TotalQuantity(products) as real) else Finite(0.0)
  }

  /** The three cases of `averagePrice`: zero for no products, the
      quantity-weighted price when there is stock, and NaN (zero over zero)
      for products without stock. */
  lemma AveragePriceCases(products: seq<Product>)
    ensures |products| == 0 ==> AveragePrice(products) == Finite(0.0)
    ensures TotalQuantity(products) > 0
        ==> AveragePrice(products) == Finite(TotalValue(products) / TotalQuantity(products) as real)
    ensures |products| > 0 && TotalQuantity(products) == 0 ==> AveragePrice(products) == NaN
  {
    if TotalQuantity(products) == 0 {
      TotalValueWithoutStock(products);
    }
    if |products| == 0 {
      assert products == [];
    }
  }

  /** A single record with no stock makes the average NaN. */
  lemma AveragePriceOfEmptyShelf(p: Product)
    requires p.quantity == 0
    ensures AveragePrice([p]) == NaN
  {
    assert [p][..0] == [];
    assert TotalQuantity([p]) == 0;
    AveragePriceCases([p]);
  }

  /** The average with the guard on the divisor, as evidently intended: zero
      when there is no stock, the weighted price otherwise. */
  function AveragePriceGuarded(products: seq<Product>): (r: real)
    ensures TotalQuantity(products) == 0 ==> r == 0.0
    ensures TotalQuantity(products) > 0 ==> AveragePrice(products) == Finite(r)
  {
    AveragePriceCases(products);
    var quantity := TotalQuantity(products);
    if quantity > 0 then TotalValue(products) / quantity as real else 0.0
  }

  /** The guarded average lies within the range of the prices. */
  lemma AveragePriceWithinPrices(products: seq<Product>, bound: real)
    requires 0.0 <= bound
    requires forall i :: 0 <= i < |products| ==> 0.0 <= products[i].price <= bound
    ensures 0.0 <= AveragePriceGuarded(products) <= bound
  {
    TotalValueBounds(products, bound);
    var q := TotalQuantity(products) as real;
    if q > 0.0 {
      var v := TotalValue(products);
      assert v / q <= bound by {
        assert v <= bound * q;
        DivideBelow(v, bound, q);
      }
      assert 0.0 <= v / q;
    }
  }

  lemma DivideBelow(v: real, bound: real, q: real)
    requires q > 0.0 && v <= bound * q
    ensures v / q <= bound
  {
    assert v / q * q == v;
  }

  // ---------------------------------------------------------------------------
  // Counts by stored status

  /** `p => p.status === status`. */
  function StatusIs(status: Status): Product -> bool
  {
    (p: Product) => p.status == status
  }

  /** The figures of the "Stock Status Overview" card. */
  function StatusCount(products: seq<Product>, status: Status): nat
  {
    Count(StatusIs(status), products)
  }

  /** The stored status takes exactly one of three values, so the three
      figures add up to the number of products. */
  lemma {:induction false} StatusCountsPartition(products: seq<Product>)
    ensures StatusCount(products, InStock) + StatusCount(products, LowStock) + StatusCount(products, OutOfStock)
         == |products|
  {
    if products != [] {
      StatusCountsPartition(products[1..]);
    }
  }

  /** The stored-status figures are not tied to the quantity-based alerts: a
      stale status makes them differ. */
  lemma StatusCountsMayDisagree()
    ensures exists products :: StatusCount(products, OutOfStock) != OutOfStockItems(products)
  {
    var stale := Product("1", "Widget", "W-1", "Tools", 0, 2.0, 1.0, "Acme", "A1", InStock, "", 10);
    assert [stale] == [stale] + [];
    FilterCons(StatusIs(OutOfStock), stale, []);
    FilterCons(IsOutOfStock, stale, []);
    assert StatusCount([stale], OutOfStock) == 0;
    assert OutOfStockItems([stale]) == 1;
  }

  /** When every stored status is the one its quantity implies (and minimum
      levels are non-negative), the two sets of figures agree. */
  lemma {:induction false} StatusCountsAgreeWhenConsistent(products: seq<Product>)
    requires forall i :: 0 <= i < |products| ==> products[i].status == DerivedStatus(products[i])
    requires forall i :: 0 <= i < |products| ==> products[i].minStockLevel >= 0
    ensures StatusCount(products, OutOfStock) == OutOfStockItems(products)
    ensures StatusCount(products, LowStock) + StatusCount(products, OutOfStock) == LowStockItems(products)
  {
    if products != [] {
      StatusCountsAgreeWhenConsistent(products[1..]);
    }
  }

  // ---------------------------------------------------------------------------
  // Category tally (`categoryStats`)

  /** The categories of the products, without repetition, in the order they
      are first met: the key order of the dictionary the fold builds. */
  function Categories(products: seq<Product>): (cs: seq<string>)
    ensures Distinct(cs)
    ensures forall c :: c in cs <==> c in CategorySet(products)
  {
    if products == [] then []
    else
      var init := products[..|products| - 1];
      var c := products[|products| - 1].category;
      assert products == init + [products[|products| - 1]];
      assert CategorySet(products) == CategorySet(init) + {c};
      var before := Categories(init);
      if c in before then before else before + [c]
  }

  function CategorySet(products: seq<Product>): set<string>
  {
    set p | p in products :: p.category
  }

  /** The units of stock in one category. */
  function CategoryQuantity(products: seq<Product>, category: string): nat
  {
    if products == [] then 0
    else
      var last := products[|products| - 1];
      CategoryQuantity(products[..|products| - 1], category) + (if last.category == category then last.quantity else 0)
  }

  lemma CategoriesSnoc(products: seq<Product>, p: Product)
    ensures Categories(products + [p])
         == if p.category in Categories(products) then Categories(products) else Categories(products) + [p.category]
  {
    assert (products + [p])[..|products|] == products;
  }

  lemma CategoryQuantitySnoc(products: seq<Product>, p: Product, category: string)
    ensures CategoryQuantity(products + [p], category)
         == CategoryQuantity(products, category) + (if p.category == category then p.quantity else 0)
  {
    assert (products + [p])[..|products|] == products;
  }

  /** A category that no product carries has no stock. */
  lemma {:induction false} CategoryQuantityAbsent(products: seq<Product>, category: string)
    requires category !in CategorySet(products)
    ensures CategoryQuantity(products, category) == 0
    decreases |products|
  {
    if products != [] {
      var init := products[..|products| - 1];
      assert products == init + [products[|products| - 1]];
      assert CategorySet(init) <= CategorySet(products);
      CategoryQuantityAbsent(init, category);
    }
  }

  lemma {:induction false} CategoryQuantityAtMostTotal(products: seq<Product>, category: string)
    ensures CategoryQuantity(products, category) <= TotalQuantity(products)
    decreases |products|
  {
    if products != [] {
      CategoryQuantityAtMostTotal(products[..|products| - 1], category);
    }
  }

  /** `categoryStats` built the way the source builds it: one pass, updating
      the accumulator's entry for each product's category in place. It
      returns the dictionary and its key order. */
  method CategoryStats(products: seq<Product>) returns (keys: seq<string>, stats: map<string, nat>)
    ensures keys == Categories(products)
    ensures forall c :: c in stats <==> c in CategorySet(products)
    ensures forall c :: c in stats ==> stats[c] == CategoryQuantity(products, c)
    ensures forall k :: k in keys ==> k in stats
    ensures ObjectEntries(keys, stats) == CategoryEntries(products)
  {
    keys, stats := [], map[];
    var i := 0;
    while i < |products|
      invariant 0 <= i <= |products|
      invariant TallyOf(products[..i], keys, stats)
    {
      var p := products[i];
      var previous := if p.category in stats then stats[p.category] else 0;
      ghost var before, keysBefore, statsBefore := products[..i], keys, stats;
      if p.category !in stats {
        keys := keys + [p.category];
      }
      stats := stats[p.category := previous + p.quantity];
      TallyStep(before, p, keysBefore, statsBefore);
      assert products[..i + 1] == before + [p];
      i := i + 1;
    }
    assert products[..i] == products;
    ObjectEntriesAgree(keys, stats, products);
  }

  /** `keys` and `stats` are the dictionary the fold has built after `prefix`. */
  ghost predicate TallyOf(prefix: seq<Product>, keys: seq<string>, stats: map<string, nat>)
  {
    && keys == Categories(prefix)
    && (forall c :: c in stats <==> c in keys)
    && (forall c :: c in stats ==> stats[c] == CategoryQuantity(prefix, c))
  }

  /** One step of the fold: `acc[c] = (acc[c] || 0) + quantity`. */
  lemma TallyStep(prefix: seq<Product>, p: Product, keys: seq<string>, stats: map<string, nat>)
    requires TallyOf(prefix, keys, stats)
    ensures TallyOf(prefix + [p],
                    if p.category in stats then keys else keys + [p.category],
                    stats[p.category := (if p.category in stats then stats[p.category] else 0) + p.quantity])
  {
    var c := p.category;
    var keys' := if c in stats then keys else keys + [c];
    var stats' := stats[c := (if c in stats then stats[c] else 0) + p.quantity];
    CategoriesSnoc(prefix, p);
    assert keys' == Categories(prefix + [p]);
    assert forall k :: k in stats' <==> k in keys';
    forall k | k in stats' ensures stats'[k] == CategoryQuantity(prefix + [p], k) {
      TallyEntryStep(prefix, p, stats, k);
    }
  }

  lemma TallyEntryStep(prefix: seq<Product>, p: Product, stats: map<string, nat>, k: string)
    requires forall c :: c in stats ==> stats[c] == CategoryQuantity(prefix, c)
    requires p.category !in stats ==> p.category !in CategorySet(prefix)
    requires k in stats || k == p.category
    ensures stats[p.category := (if p.category in stats then stats[p.category] else 0) + p.quantity][k]
         == CategoryQuantity(prefix + [p], k)
  {
    CategoryQuantitySnoc(prefix, p, k);
    if k == p.category && p.category !in stats {
      CategoryQuantityAbsent(prefix, k);
    }
  }

  // ---------------------------------------------------------------------------
  // Entries, sorting and the top five (`topCategories`)

  /** One `[category, quantity]` pair of `Object.entries(categoryStats)`. */
  datatype Entry = Entry(category: string, quantity: nat)

  /** `Object.entries` of a dictionary with the given key order. */
  function ObjectEntries(keys: seq<string>, stats: map<string, nat>): seq<Entry>
    requires forall k :: k in keys ==> k in stats
  {
    if keys == [] then [] else [Entry(keys[0], stats[keys[0]])] + ObjectEntries(keys[1..], stats)
  }

  /** The pairs for the given keys, each with its category's quantity. */
  function EntriesFor(keys: seq<string>, products: seq<Product>): (es: seq<Entry>)
    ensures |es| == |keys|
    ensures forall i :: 0 <= i < |keys| ==> es[i] == Entry(keys[i], CategoryQuantity(products, keys[i]))
  {
    if keys == [] then [] else [Entry(keys[0], CategoryQuantity(products, keys[0]))] + EntriesFor(keys[1..], products)
  }

  /** The entries of the tally: every category once, in first-met order, with its quantity. */
  function CategoryEntries(products: seq<Product>): seq<Entry>
  {
    EntriesFor(Categories(products), products)
  }

  lemma {:induction false} ObjectEntriesAgree(keys: seq<string>, stats: map<string, nat>, products: seq<Product>)
    requires forall k :: k in keys ==> k in stats && stats[k] == CategoryQuantity(products, k)
    ensures ObjectEntries(keys, stats) == EntriesFor(keys, products)
  {
    if keys != [] {
      ObjectEntriesAgree(keys[1..], stats, products);
    }
  }

  function SumQuantities(es: seq<Entry>): nat
  {
    if es == [] then 0 else es[0].quantity + SumQuantities(es[1..])
  }

  lemma {:induction false} SumQuantitiesAppend(a: seq<Entry>, b: seq<Entry>)
    ensures SumQuantities(a + b) == SumQuantities(a) + SumQuantities(b)
  {
    if a == [] {
      assert a + b == b;
    } else {
      SumQuantitiesAppend(a[1..], b);
      assert (a + b)[1..] == a[1..] + b;
    }
  }

  lemma {:induction false} EntriesWithoutProducts(keys: seq<string>)
    ensures SumQuantities(EntriesFor(keys, [])) == 0
  {
    if keys != [] {
      EntriesWithoutProducts(keys[1..]);
    }
  }

  /** Adding one product adds its quantity to the entry of its category, if that key is present. */
  lemma {:induction false} EntriesGrow(keys: seq<string>, products: seq<Product>, p: Product)
    requires Distinct(keys)
    ensures SumQuantities(EntriesFor(keys, products + [p]))
         == SumQuantities(EntriesFor(keys, products)) + (if p.category in keys then p.quantity else 0)
  {
    assert (products + [p])[..|products|] == products;
    if keys != [] {
      EntriesGrow(keys[1..], products, p);
    }
  }

  lemma {:induction false} EntriesCoverTotal(keys: seq<string>, products: seq<Product>)
    requires Distinct(keys)
    requires forall c :: c in CategorySet(products) ==> c in keys
    ensures SumQuantities(EntriesFor(keys, products)) == TotalQuantity(products)
    decreases |products|
  {
    if products == [] {
      EntriesWithoutProducts(keys);
    } else {
      var init := products[..|products| - 1];
      var last := products[|products| - 1];
      assert products == init + [last];
      assert last in products;
      assert forall c :: c in CategorySet(init) ==> c in CategorySet(products);
      EntriesCoverTotal(keys, init);
      EntriesGrow(keys, init, last);
    }
  }

  /** The tally accounts for every unit of stock exactly once. */
  lemma CategoryEntriesSumToTotal(products: seq<Product>)
    ensures SumQuantities(CategoryEntries(products)) == TotalQuantity(products)
  {
    EntriesCoverTotal(Categories(products), products);
  }

  /** The tally has one entry per distinct category, and no category's share exceeds the total. */
  lemma CategoryEntriesShape(products: seq<Product>)
    ensures |CategoryEntries(products)| == |Categories(products)|
    ensures forall e :: e in CategoryEntries(products) ==>
      && e.category in CategorySet(products)
      && e.quantity == CategoryQuantity(products, e.category)
      && e.quantity <= TotalQuantity(products)
  {
    forall e | e in CategoryEntries(products)
      ensures e.category in CategorySet(products) && e.quantity == CategoryQuantity(products, e.category)
           && e.quantity <= TotalQuantity(products)
    {
      CategoryQuantityAtMostTotal(products, e.category);
    }
  }

  /** Non-increasing by quantity. */
  predicate SortedByQuantity(es: seq<Entry>)
  {
    forall i, j :: 0 <= i < j < |es| ==> es[i].quantity >= es[j].quantity
  }

  /** One step of a stable sort with comparator `(a, b) => b - a`: `x`, which
      came earlier, goes before every entry that is not strictly larger. */
  function InsertByQuantity(x: Entry, es: seq<Entry>): (r: seq<Entry>)
    ensures multiset(r) == multiset(es) + multiset{x}
    ensures |r| == |es| + 1
    ensures SumQuantities(r) == SumQuantities(es) + x.quantity
    ensures r[0] == x || (es != [] && r[0] == es[0])
  {
    if es == [] || es[0].quantity <= x.quantity then [x] + es
    else
      assert es == [es[0]] + es[1..];
      var rest := InsertByQuantity(x, es[1..]);
      assert ([es[0]] + rest)[1..] == rest;
      [es[0]] + rest
  }

  lemma {:induction false} InsertKeepsSorted(x: Entry, es: seq<Entry>)
    requires SortedByQuantity(es)
    ensures SortedByQuantity(InsertByQuantity(x, es))
  {
    if !(es == [] || es[0].quantity <= x.quantity) {
      var rest := InsertByQuantity(x, es[1..]);
      InsertKeepsSorted(x, es[1..]);
      assert es[0].quantity >= rest[0].quantity;
      assert forall k :: 0 <= k < |rest| ==> rest[0].quantity >= rest[k].quantity;
      assert InsertByQuantity(x, es) == [es[0]] + rest;
    }
  }

  /** `.sort(([, a], [, b]) => b - a)`: a stable sort by descending quantity. */
  function SortByQuantity(es: seq<Entry>): (r: seq<Entry>)
    ensures multiset(r) == multiset(es)
    ensures |r| == |es|
    ensures SortedByQuantity(r)
    ensures SumQuantities(r) == SumQuantities(es)
  {
    if es == [] then []
    else
      assert es == [es[0]] + es[1..];
      var sorted := SortByQuantity(es[1..]);
      InsertKeepsSorted(es[0], sorted);
      InsertByQuantity(es[0], sorted)
  }

  function WithQuantity(quantity: nat): Entry -> bool
  {
    (e: Entry) => e.quantity == quantity
  }

  lemma {:induction false} InsertKeepsTies(x: Entry, es: seq<Entry>, quantity: nat)
    ensures Filter(WithQuantity(quantity), InsertByQuantity(x, es)) == Filter(WithQuantity(quantity), [x] + es)
  {
    var w := WithQuantity(quantity);
    if !(es == [] || es[0].quantity <= x.quantity) {
      InsertKeepsTies(x, es[1..], quantity);
      var rest := InsertByQuantity(x, es[1..]);
      assert InsertByQuantity(x, es) == [es[0]] + rest;
      FilterCons(w, es[0], rest);
      FilterCons(w, x, es[1..]);
      FilterCons(w, x, es);
      assert es == [es[0]] + es[1..];
      FilterCons(w, es[0], es[1..]);
      assert !(w(x) && w(es[0]));
    }
  }

  /** The sort is stable: entries of equal quantity keep their input order. */
  lemma {:induction false} SortIsStable(es: seq<Entry>, quantity: nat)
    ensures Filter(WithQuantity(quantity), SortByQuantity(es)) == Filter(WithQuantity(quantity), es)
  {
    if es != [] {
      var w := WithQuantity(quantity);
      SortIsStable(es[1..], quantity);
      InsertKeepsTies(es[0], SortByQuantity(es[1..]), quantity);
      FilterCons(w, es[0], SortByQuantity(es[1..]));
      assert es == [es[0]] + es[1..];
      FilterCons(w, es[0], es[1..]);
    }
  }

  /** How many categories the card shows. */
  const TopLimit: nat := 5

  /** `topCategories`: the sorted entries, cut with `.slice(0, 5)`. */
  function TopCategories(es: seq<Entry>): seq<Entry>
  {
    var sorted := SortByQuantity(es);
    sorted[..if |sorted| < TopLimit then |sorted| else TopLimit]
  }

  /** The top list has `min(5, |es|)` entries, taken from `es`, in
      non-increasing order of quantity. */
  lemma TopCategoriesOf(es: seq<Entry>)
    ensures |TopCategories(es)| == if |es| < TopLimit then |es| else TopLimit
    ensures SortedByQuantity(TopCategories(es))
    ensures multiset(TopCategories(es)) <= multiset(es)
  {
    var sorted := SortByQuantity(es);
    var k := if |sorted| < TopLimit then |sorted| else TopLimit;
    PrefixMultiset(sorted, k);
    PrefixSorted(sorted, k);
  }

  lemma PrefixSorted(es: seq<Entry>, k: nat)
    requires SortedByQuantity(es) && k <= |es|
    ensures SortedByQuantity(es[..k])
  {
  }

  /** For the tally: `min(5, #distinct categories)` entries. */
  lemma TopCategoriesShape(products: seq<Product>)
    ensures |TopCategories(CategoryEntries(products))|
         == if |Categories(products)| < TopLimit then |Categories(products)| else TopLimit
    ensures SortedByQuantity(TopCategories(CategoryEntries(products)))
    ensures multiset(TopCategories(CategoryEntries(products))) <= multiset(CategoryEntries(products))
  {
    TopCategoriesOf(CategoryEntries(products));
  }

  /** An entry left out of the top list has no more stock than any entry in it. */
  lemma TopCategoriesAreLargest(es: seq<Entry>, left: Entry, kept: Entry)
    requires left in es && left !in TopCategories(es)
    requires kept in TopCategories(es)
    ensures left.quantity <= kept.quantity
  {
    var sorted := SortByQuantity(es);
    var k := if |sorted| < TopLimit then |sorted| else TopLimit;
    assert left in multiset(sorted);
    var i :| 0 <= i < |sorted| && sorted[i] == left;
    var j :| 0 <= j < k && sorted[..k][j] == kept;
  }

  /** Among entries of equal quantity, the top list keeps the ones met first. */
  lemma TopCategoriesKeepFirstTies(es: seq<Entry>, quantity: nat)
    ensures IsPrefix(Filter(WithQuantity(quantity), TopCategories(es)), Filter(WithQuantity(quantity), es))
  {
    var sorted := SortByQuantity(es);
    var k := if |sorted| < TopLimit then |sorted| else TopLimit;
    FilterOfPrefix(WithQuantity(quantity), sorted, k);
    SortIsStable(es, quantity);
  }

  lemma TopCategoriesSumAtMostTotal(es: seq<Entry>)
    ensures SumQuantities(TopCategories(es)) <= SumQuantities(es)
  {
    var sorted := SortByQuantity(es);
    var k := if |sorted| < TopLimit then |sorted| else TopLimit;
    assert sorted == sorted[..k] + sorted[k..];
    SumQuantitiesAppend(sorted[..k], sorted[k..]);
  }

  // ---------------------------------------------------------------------------
  // Percentages

  /** `percentage` as written, with the same guard on the number of products as the average. */
  function Percentage(quantity: nat, products: seq<Product>): Number
  {
    if |products| > 0 then Scale(Divide(quantity as real, TotalQuantity(products) as real), 100.0) else Finite(0.0)
  }

  /** With stock present, a share of the stock is a finite percentage in `[0, 100]`. */
  lemma PercentageInRange(quantity: nat, products: seq<Product>)
    requires 0 < TotalQuantity(products) && quantity <= TotalQuantity(products)
    ensures Percentage(quantity, products).Finite?
    ensures 0.0 <= Percentage(quantity, products).value <= 100.0
  {
    var t := TotalQuantity(products) as real;
    assert quantity as real / t <= 1.0 by {
      DivideBelow(quantity as real, 1.0, t);
    }
  }

  /** Products without stock make every displayed percentage NaN. */
  lemma PercentageWithoutStock(products: seq<Product>, e: Entry)
    requires |products| > 0 && TotalQuantity(products) == 0
    requires e in CategoryEntries(products)
    ensures Percentage(e.quantity, products) == NaN
  {
    CategoryEntriesShape(products);
  }

  /** The sum of the percentages shown for a list of entries. */
  function PercentageSum(es: seq<Entry>, products: seq<Product>): real
    requires TotalQuantity(products) > 0
  {
    if es == [] then 0.0
    else
      assert products != [];
      Percentage(es[0].quantity, products).value + PercentageSum(es[1..], products)
  }

  lemma {:induction false} PercentageSumIsShare(es: seq<Entry>, products: seq<Product>)
    requires TotalQuantity(products) > 0
    ensures PercentageSum(es, products) == SumQuantities(es) as real / TotalQuantity(products) as real * 100.0
  {
    assert products != [];
    if es != [] {
      PercentageSumIsShare(es[1..], products);
      var t := TotalQuantity(products) as real;
      var a := es[0].quantity as real;
      var b := SumQuantities(es[1..]) as real;
      ShareAdds(a, b, t);
    }
  }

  lemma ShareAdds(a: real, b: real, t: real)
    requires t > 0.0
    ensures a / t * 100.0 + b / t * 100.0 == (a + b) / t * 100.0
  {
    var u, w := a / t, b / t;
    assert u * t == a && w * t == b;
    assert (u + w) * t == a + b;
  }

  /** Over all categories the percentages add up to exactly 100. */
  lemma AllPercentagesSumTo100(products: seq<Product>)
    requires TotalQuantity(products) > 0
    ensures PercentageSum(CategoryEntries(products), products) == 100.0
  {
    var es := CategoryEntries(products);
    PercentageSumIsShare(es, products);
    CategoryEntriesSumToTotal(products);
    WholeShare(TotalQuantity(products) as real);
  }

  /** The five shown percentages add up to at most 100. */
  lemma TopPercentagesAtMost100(products: seq<Product>)
    requires TotalQuantity(products) > 0
    ensures PercentageSum(TopCategories(CategoryEntries(products)), products) <= 100.0
  {
    var es := CategoryEntries(products);
    var top := TopCategories(es);
    PercentageSumIsShare(top, products);
    TopCategoriesSumAtMostTotal(es);
    CategoryEntriesSumToTotal(products);
    PartShare(SumQuantities(top) as real, TotalQuantity(products) as real);
  }

  lemma WholeShare(t: real)
    requires t > 0.0
    ensures t / t * 100.0 == 100.0
  {
  }

  lemma PartShare(s: real, t: real)
    requires 0.0 <= s <= t && t > 0.0
    ensures s / t * 100.0 <= 100.0
  {
    DivideBelow(s, 1.0, t);
  }

  /** The percentage with the guard on the divisor, as evidently intended:
      zero without stock, the share of the stock otherwise. */
  function PercentageGuarded(quantity: nat, products: seq<Product>): (r: real)
    ensures TotalQuantity(products) == 0 ==> r == 0.0
    ensures TotalQuantity(products) > 0 ==> Percentage(quantity, products) == Finite(r)
    ensures quantity <= TotalQuantity(products) ==> 0.0 <= r <= 100.0
  {
    var total := TotalQuantity(products);
    if total > 0 then
      PercentageInRange(if quantity <= total then quantity else 0, products);
      assert products != [];
      quantity as real / total as real * 100.0
    else 0.0
  }

  // ---------------------------------------------------------------------------
  // A worked example

  /** The two sample tools: value 10 and five units in stock. */
  lemma SampleTotals()
    ensures TotalValue([SampleWidget, SampleGadget]) == 10.0
    ensures TotalQuantity([SampleWidget, SampleGadget]) == 5
  {
    var widget, gadget := SampleWidget, SampleGadget;
    assert [widget, gadget][..1] == [widget] && [widget][..0] == [];
    assert TotalValue([widget]) == 10.0;
    assert TotalQuantity([widget]) == 5;
  }

  /** Both sample tools are at or below their minimum, one is empty. */
  lemma SampleAlerts()
    ensures LowStockItems([SampleWidget, SampleGadget]) == 2
    ensures OutOfStockItems([SampleWidget, SampleGadget]) == 1
  {
    var widget, gadget := SampleWidget, SampleGadget;
    assert [widget, gadget] == [widget] + [gadget] && [gadget] == [gadget] + [];
    FilterCons(IsLowStock, widget, [gadget]);
    FilterCons(IsLowStock, gadget, []);
    FilterCons(IsOutOfStock, widget, [gadget]);
    FilterCons(IsOutOfStock, gadget, []);
  }

  /** One category, "Tools", holding all five units: 100%. */
  lemma SampleCategories()
    ensures CategoryEntries([SampleWidget, SampleGadget]) == [Entry("Tools", 5)]
    ensures Percentage(5, [SampleWidget, SampleGadget]) == Finite(100.0)
  {
    var widget, gadget := SampleWidget, SampleGadget;
    var products := [widget, gadget];
    SampleTotals();
    assert products[..1] == [widget] && [widget][..0] == [];
    assert Categories([widget]) == ["Tools"];
    assert Categories(products) == ["Tools"];
    assert CategoryQuantity([widget], "Tools") == 5;
    assert CategoryQuantity(products, "Tools") == 5;
    assert EntriesFor(["Tools"], products) == [Entry("Tools", 5)];
  }
}
