/**
 * The product record and the lookup by identifier (main.py, class Product and
 * InventoryManager.find_product_by_id).
 */
module Catalog {
  import opened Wrappers

  /**
   * One product. The price, a float in the program, is kept here as a whole
   * number of cents; no field is range-checked, as in the program.
   */
  datatype Product = Product(id: int, name: string, price: int, quantity: int, category: string)

  /** Index of the first product whose identifier is `id`, if any. */
  function FindIndex(ps: seq<Product>, id: int): (r: Option<nat>)
    ensures r.Some? ==> r.value < |ps| && ps[r.value].id == id
    ensures r.Some? ==> forall j :: 0 <= j < r.value ==> ps[j].id != id
    ensures r.None? <==> forall j :: 0 <= j < |ps| ==> ps[j].id != id
  {
    if ps == [] then None
    else if ps[0].id == id then Some(0)
    else match FindIndex(ps[1..], id)
         case None => None
         case Some(k) => Some(k + 1)
  }

  /** `next((p for p in products if p.product_id == id), None)`. */
  function FindProductById(ps: seq<Product>, id: int): (r: Option<Product>)
    ensures r.None? <==> forall j :: 0 <= j < |ps| ==> ps[j].id != id
    ensures r.Some? ==> exists k :: 0 <= k < |ps| && ps[k] == r.value && r.value.id == id &&
                                    forall j :: 0 <= j < k ==> ps[j].id != id
  {
    match FindIndex(ps, id)
    case None => None
    case Some(k) => Some(ps[k])
  }

  /** No two products share an identifier. */
  predicate IdsDistinct(ps: seq<Product>) {
    forall j, k :: 0 <= j < k < |ps| ==> ps[j].id != ps[k].id
  }

  /** With distinct identifiers the first match is the only one. */
  lemma FindIsOnlyMatch(ps: seq<Product>, id: int, k: nat)
    requires IdsDistinct(ps)
    requires k < |ps| && ps[k].id == id
    ensures FindIndex(ps, id) == Some(k)
    ensures FindProductById(ps, id) == Some(ps[k])
  {
  }
}
