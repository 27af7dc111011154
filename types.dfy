/** The inventory record of `src/lib/types.ts`. */
module Inventory {

  /** The three literal values of the stored `status` field. */
  datatype Status = InStock | LowStock | OutOfStock

  /** One inventory item. Quantities are non-negative whole numbers; prices
      and costs are exact rationals standing in for JavaScript numbers;
      `minStockLevel` is any integer, since nothing in the source keeps it
      non-negative. `lastUpdated` is an opaque timestamp string. */
  datatype Product = Product(
    id: string,
    name: string,
    sku: string,
    category: string,
    quantity: nat,
    price: real,
    cost: real,
    supplier: string,
    location: string,
    status: Status,
    lastUpdated: string,
    minStockLevel: int)

  /** The status the record ought to carry for its quantity. The source never
      computes it: it trusts the stored field. It is used here only to state
      when stored and quantity-based counts agree. */
  function DerivedStatus(p: Product): Status
  {
    if p.quantity == 0 then OutOfStock
    else if p.quantity <= p.minStockLevel then LowStock
    else InStock
  }

  /** Two sample records for the worked examples: a tool short of stock and an empty one. */
  const SampleWidget := Product("1", "Widget", "W-1", "Tools", 5, 2.0, 1.0, "Acme", "A1", LowStock, "", 10)
  const SampleGadget := Product("2", "Gadget", "G-2", "Tools", 0, 10.0, 6.0, "Acme", "A2", OutOfStock, "", 3)
}
