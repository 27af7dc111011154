/** The page component of `src/app/page.tsx`: it owns the product list and
    replaces it when a row is deleted. */
module Page {
  import opened Seqs
  import opened Inventory

  /** `p => p.id !== productId`. */
  function IdIsNot(productId: string): Product -> bool
  {
    (p: Product) => p.id != productId
  }

  function HasId(productId: string): Product -> bool
  {
    (p: Product) => p.id == productId
  }

  /** The list `handleDeleteProduct` installs: every record whose id differs. */
  function RemoveById(products: seq<Product>, productId: string): seq<Product>
  {
    Filter(IdIsNot(productId), products)
  }

  /** Exactly the records with another id survive. */
  lemma RemoveByIdMembership(products: seq<Product>, productId: string, p: Product)
    ensures p in RemoveById(products, productId) <==> p in products && p.id != productId
  {
    FilterMembership(IdIsNot(productId), products, p);
  }

  /** The survivors keep their relative order. */
  lemma RemoveByIdKeepsOrder(products: seq<Product>, productId: string)
    ensures IsSubsequence(RemoveById(products, productId), products)
  {
    FilterIsSubsequence(IdIsNot(productId), products);
  }

  /** The list shrinks by the number of records that carry the id. */
  lemma RemoveByIdLength(products: seq<Product>, productId: string)
    ensures |RemoveById(products, productId)| == |products| - Count(HasId(productId), products)
  {
    CountComplement(IdIsNot(productId), HasId(productId), products);
  }

  /** Deleting an id nobody carries changes nothing. */
  lemma RemoveAbsentId(products: seq<Product>, productId: string)
    requires forall i :: 0 <= i < |products| ==> products[i].id != productId
    ensures RemoveById(products, productId) == products
  {
    FilterAllKept(IdIsNot(productId), products);
  }

  /** Deleting the same id twice is deleting it once. */
  lemma RemoveByIdIdempotent(products: seq<Product>, productId: string)
    ensures RemoveById(RemoveById(products, productId), productId) == RemoveById(products, productId)
  {
    FilterIdempotent(IdIsNot(productId), products);
  }

  /** The component's state: the `products` held by `useState`, initially the
      list it is given (the mock data of the running application). */
  class InventoryPage {
    var products: seq<Product>

    constructor (initial: seq<Product>)
      ensures products == initial
    {
      products := initial;
    }

    /** `handleDeleteProduct`: replace the list by the records whose id differs. */
    method HandleDeleteProduct(productId: string)
      modifies this
      ensures products == RemoveById(old(products), productId)
      ensures forall p :: p in products ==> p in old(products) && p.id != productId
      ensures IsSubsequence(products, old(products))
      ensures |products| == |old(products)| - Count(HasId(productId), old(products))
    {
      ghost var before := products;
      products := RemoveById(products, productId);
      forall p | p in products ensures p in before && p.id != productId {
        RemoveByIdMembership(before, productId, p);
      }
      RemoveByIdKeepsOrder(before, productId);
      RemoveByIdLength(before, productId);
    }
  }
}
