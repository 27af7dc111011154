/** The product table of `src/components/ProductTable.tsx`: the search and
    status filter that decides which rows are shown, and the colour band of
    the quantity cell. */
module ProductTable {
  import opened Seqs
  import opened Inventory

  /** The value of the status drop-down: `'all'` or one stored status. */
  datatype StatusFilter = All | Only(status: Status)

  /** The colour of the quantity cell. */
  datatype StockBand = Red | Yellow | Green

  /** `toLowerCase` on one character, restricted to ASCII letters. */
  function LowerChar(c: char): char
  {
    if 'A' <= c <= 'Z' then (c as int + 32) as char else c
  }

  /** `toLowerCase` on a string, character by character. */
  function ToLower(s: string): (r: string)
    ensures |r| == |s|
    ensures forall i :: 0 <= i < |s| ==> r[i] == LowerChar(s[i])
  {
    if s == [] then [] else [LowerChar(s[0])] + ToLower(s[1..])
  }

  lemma ToLowerIdempotent(s: string)
    ensures ToLower(ToLower(s)) == ToLower(s)
  {
    var once := ToLower(s);
    assert forall i :: 0 <= i < |once| ==> ToLower(once)[i] == once[i];
  }

  /** `needle` occurs in `hay` starting at position `i`. */
  predicate OccursAt(hay: string, needle: string, i: nat)
  {
    i + |needle| <= |hay| && hay[i..i + |needle|] == needle
  }

  /** `hay.includes(needle)`: a scan over the starting positions. */
  function Includes(hay: string, needle: string): (r: bool)
    ensures r <==> exists i: nat :: OccursAt(hay, needle, i)
    decreases |hay|
  {
    if OccursAt(hay, needle, 0) then true
    else if hay == [] then false
    else
      var r := Includes(hay[1..], needle);
      assert forall i: nat :: OccursAt(hay[1..], needle, i) <==> OccursAt(hay, needle, i + 1) by {
        forall i: nat ensures OccursAt(hay[1..], needle, i) <==> OccursAt(hay, needle, i + 1) {
          if i + |needle| <= |hay[1..]| {
            assert hay[1..][i..i + |needle|] == hay[i + 1..i + 1 + |needle|];
          }
        }
      }
      assert forall j: nat :: OccursAt(hay, needle, j) ==> j > 0;
      assert forall j: nat :: j > 0 && OccursAt(hay, needle, j) ==> OccursAt(hay[1..], needle, j - 1);
      r
  }

  /** The text part of the rule: the lower-cased term occurs in the lower-cased
      name, SKU or category. */
  predicate MatchesSearch(p: Product, searchTerm: string)
  {
    var term := ToLower(searchTerm);
    Includes(ToLower(p.name), term) || Includes(ToLower(p.sku), term) || Includes(ToLower(p.category), term)
  }

  /** The status part of the rule: the filter is `'all'` or names the stored status. */
  predicate MatchesStatus(p: Product, filterStatus: StatusFilter)
  {
    filterStatus == All || (filterStatus.Only? && p.status == filterStatus.status)
  }

  predicate Matches(p: Product, searchTerm: string, filterStatus: StatusFilter)
  {
    MatchesSearch(p, searchTerm) && MatchesStatus(p, filterStatus)
  }

  /** The predicate handed to `products.filter`. */
  function Keep(searchTerm: string, filterStatus: StatusFilter): Product -> bool
  {
    p => Matches(p, searchTerm, filterStatus)
  }

  /** `filteredProducts`: the rows the table shows. */
  function FilteredProducts(products: seq<Product>, searchTerm: string, filterStatus: StatusFilter): seq<Product>
  {
    Filter(Keep(searchTerm, filterStatus), products)
  }

  /** A product is shown iff it is in the list and matches both the search and the status filter. */
  lemma FilteredMembership(products: seq<Product>, searchTerm: string, filterStatus: StatusFilter, p: Product)
    ensures p in FilteredProducts(products, searchTerm, filterStatus)
        <==> p in products && MatchesSearch(p, searchTerm) && MatchesStatus(p, filterStatus)
  {
    FilterMembership(Keep(searchTerm, filterStatus), products, p);
  }

  /** The shown rows are the list with some rows taken out and the rest in their order. */
  lemma FilteredIsSubsequence(products: seq<Product>, searchTerm: string, filterStatus: StatusFilter)
    ensures IsSubsequence(FilteredProducts(products, searchTerm, filterStatus), products)
    ensures |FilteredProducts(products, searchTerm, filterStatus)| <= |products|
  {
    FilterIsSubsequence(Keep(searchTerm, filterStatus), products);
  }

  /** The empty string occurs in every string. */
  lemma EmptyTermMatches(p: Product)
    ensures MatchesSearch(p, "")
  {
    assert OccursAt(ToLower(p.name), "", 0);
  }

  /** With no search term and the `'all'` filter the table shows every product, in order. */
  lemma EmptySearchShowsAll(products: seq<Product>)
    ensures FilteredProducts(products, "", All) == products
  {
    forall i | 0 <= i < |products| ensures Keep("", All)(products[i]) {
      EmptyTermMatches(products[i]);
    }
    FilterAllKept(Keep("", All), products);
  }

  /** Filtering the shown rows again with the same inputs shows the same rows. */
  lemma FilteringIsIdempotent(products: seq<Product>, searchTerm: string, filterStatus: StatusFilter)
    ensures FilteredProducts(FilteredProducts(products, searchTerm, filterStatus), searchTerm, filterStatus)
         == FilteredProducts(products, searchTerm, filterStatus)
  {
    FilterIdempotent(Keep(searchTerm, filterStatus), products);
  }

  /** For one search term, choosing a status narrows the `'all'` result: it is
      that result filtered further, hence a subsequence of it. */
  lemma StatusNarrowsAll(products: seq<Product>, searchTerm: string, status: Status)
    ensures FilteredProducts(products, searchTerm, Only(status))
         == Filter(Keep(searchTerm, Only(status)), FilteredProducts(products, searchTerm, All))
    ensures IsSubsequence(FilteredProducts(products, searchTerm, Only(status)), FilteredProducts(products, searchTerm, All))
  {
    FilterOfWeakerFilter(Keep(searchTerm, Only(status)), Keep(searchTerm, All), products);
    FilterIsSubsequence(Keep(searchTerm, Only(status)), FilteredProducts(products, searchTerm, All));
  }

  /** Search terms that agree up to case select the same rows. */
  lemma SearchIgnoresCase(products: seq<Product>, term1: string, term2: string, filterStatus: StatusFilter)
    requires ToLower(term1) == ToLower(term2)
    ensures FilteredProducts(products, term1, filterStatus) == FilteredProducts(products, term2, filterStatus)
  {
    FilterAgree(Keep(term1, filterStatus), Keep(term2, filterStatus), products);
  }

  /** In particular, lower-casing the term beforehand changes nothing. */
  lemma LowerCasedTermSameRows(products: seq<Product>, searchTerm: string, filterStatus: StatusFilter)
    ensures FilteredProducts(products, ToLower(searchTerm), filterStatus) == FilteredProducts(products, searchTerm, filterStatus)
  {
    ToLowerIdempotent(searchTerm);
    SearchIgnoresCase(products, ToLower(searchTerm), searchTerm, filterStatus);
  }

  /** The colour of the quantity cell: red at or below the minimum, yellow up
      to twice the minimum, green above. Each product gets exactly one band. */
  function QuantityBand(p: Product): (b: StockBand)
    ensures b == Red <==> p.quantity <= p.minStockLevel
    ensures b == Yellow <==> p.minStockLevel < p.quantity <= 2 * p.minStockLevel
    ensures b == Green <==> p.minStockLevel < p.quantity && 2 * p.minStockLevel < p.quantity
  {
    if p.quantity <= p.minStockLevel then Red
    else if p.quantity <= p.minStockLevel * 2 then Yellow
    else Green
  }

  function BandRank(b: StockBand): nat
  {
    match b
    case Red => 0
    case Yellow => 1
    case Green => 2
  }

  /** More stock never moves a product to a more alarming band. */
  lemma BandMonotone(p: Product, q: Product)
    requires p.minStockLevel == q.minStockLevel && p.quantity <= q.quantity
    ensures BandRank(QuantityBand(p)) <= BandRank(QuantityBand(q))
  {
  }

  /** A term longer than the text never occurs in it. */
  lemma LongerTermNeverIncluded(hay: string, needle: string)
    requires |hay| < |needle|
    ensures !Includes(hay, needle)
  {
  }

  lemma SampleWidgetMatches()
    ensures Keep("widget", All)(SampleWidget)
  {
    assert SampleWidget.name == "Widget";
    assert ToLower("widget") == "widget" && ToLower("Widget") == "widget";
    assert OccursAt("widget", "widget", 0);
  }

  lemma SampleGadgetMisses()
    ensures !Keep("widget", All)(SampleGadget)
  {
    var g := SampleGadget;
    assert g.name == "Gadget" && g.sku == "G-2" && g.category == "Tools";
    assert ToLower("widget") == "widget";
    assert ToLower("Gadget") == "gadget";
    assert !OccursAt("gadget", "widget", 0) by { assert "gadget"[0] != "widget"[0]; }
    assert forall i: nat :: OccursAt("gadget", "widget", i) ==> i == 0;
    LongerTermNeverIncluded(ToLower("G-2"), "widget");
    LongerTermNeverIncluded(ToLower("Tools"), "widget");
  }

  /** The search is case-insensitive: "widget" finds the record named "Widget" only. */
  lemma SampleSearchExample()
    ensures FilteredProducts([SampleWidget, SampleGadget], "widget", All) == [SampleWidget]
  {
    SampleWidgetMatches();
    SampleGadgetMisses();
    assert [SampleWidget, SampleGadget] == [SampleWidget] + [SampleGadget] && [SampleGadget] == [SampleGadget] + [];
    FilterCons(Keep("widget", All), SampleWidget, [SampleGadget]);
    FilterCons(Keep("widget", All), SampleGadget, []);
  }

  /** The status filter reads the stored field: "out-of-stock" finds the empty record only. */
  lemma SampleStatusExample()
    ensures FilteredProducts([SampleWidget, SampleGadget], "", Only(OutOfStock)) == [SampleGadget]
  {
    EmptyTermMatches(SampleGadget);
    assert [SampleWidget, SampleGadget] == [SampleWidget] + [SampleGadget] && [SampleGadget] == [SampleGadget] + [];
    FilterCons(Keep("", Only(OutOfStock)), SampleWidget, [SampleGadget]);
    FilterCons(Keep("", Only(OutOfStock)), SampleGadget, []);
  }
}
