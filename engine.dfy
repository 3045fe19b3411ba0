/**
 * The inventory operations of main.py as pure transitions on the pair
 * (catalog, transaction log), and the properties of any sequence of them.
 * The class in manager.dfy is proved to perform exactly these transitions.
 */
module Engine {
  import opened Wrappers
  import opened Catalog

  /**
   * One line of the transaction log: the time, the quantity sold and the
   * product's name and price at the moment of the sale.
   */
  datatype LogEntry = LogEntry(timestamp: string, quantity: int, name: string, price: int)

  /** The catalog in display order, and the log in the order of the sales. */
  datatype Inventory = Inventory(products: seq<Product>, log: seq<LogEntry>)

  /** The message an operation reports: success, "not found", "insufficient quantity". */
  datatype Outcome = Done | NotFound | InsufficientQuantity

  datatype Step = Step(outcome: Outcome, after: Inventory)

  const Empty := Inventory([], [])

  /** add_product: the new identifier is the catalog's length plus one. */
  function AddProduct(inv: Inventory, name: string, price: int, quantity: int, category: string): (r: Inventory)
    ensures |r.products| == |inv.products| + 1 && r.products[..|inv.products|] == inv.products
    ensures r.products[|inv.products|].id == |inv.products| + 1
    ensures r.log == inv.log
  {
    var p := Product(|inv.products| + 1, name, price, quantity, category);
    inv.(products := inv.products + [p])
  }

  /** update_product_quantity: absolute overwrite of the first match's quantity. */
  function UpdateQuantity(inv: Inventory, id: int, newQuantity: int): (r: Step)
    ensures r.outcome != InsufficientQuantity
    ensures r.outcome == NotFound ==> r.after == inv
    ensures |r.after.products| == |inv.products| && r.after.log == inv.log
  {
    match FindIndex(inv.products, id)
    case None => Step(NotFound, inv)
    case Some(i) =>
      var p := inv.products[i];
      Step(Done, inv.(products := inv.products[i := p.(quantity := newQuantity)]))
  }

  /** sell_product: decrement only when the stock covers the request, then log the sale. */
  function Sell(inv: Inventory, id: int, quantity: int, timestamp: string): (r: Step)
    ensures r.outcome != Done ==> r.after == inv
    ensures |r.after.products| == |inv.products| && inv.log <= r.after.log
    ensures |r.after.log| == |inv.log| + (if r.outcome == Done then 1 else 0)
  {
    match FindIndex(inv.products, id)
    case None => Step(NotFound, inv)
    case Some(i) =>
      var p := inv.products[i];
      if p.quantity >= quantity then
        var sold := p.(quantity := p.quantity - quantity);
        Step(Done, Inventory(inv.products[i := sold],
                             inv.log + [LogEntry(timestamp, quantity, sold.name, sold.price)]))
      else
        Step(InsufficientQuantity, inv)
  }

  /** Every product's quantity is at least zero. */
  predicate StockNonNegative(ps: seq<Product>) {
    forall k :: 0 <= k < |ps| ==> ps[k].quantity >= 0
  }

  // ---------------------------------------------------------------- one call

  lemma AddProductAppends(inv: Inventory, name: string, price: int, quantity: int, category: string)
    ensures var r := AddProduct(inv, name, price, quantity, category);
      && |r.products| == |inv.products| + 1
      && r.products[..|inv.products|] == inv.products
      && r.products[|inv.products|] == Product(|inv.products| + 1, name, price, quantity, category)
      && r.log == inv.log
  {
  }

  lemma UpdateQuantityEffect(inv: Inventory, id: int, newQuantity: int)
    ensures var s := UpdateQuantity(inv, id, newQuantity);
      && (s.outcome == Done <==> exists k :: 0 <= k < |inv.products| && inv.products[k].id == id)
      && (s.outcome != Done ==> s.outcome == NotFound && s.after == inv)
      && s.after.log == inv.log
      && |s.after.products| == |inv.products|
    ensures forall i :: FindIndex(inv.products, id) == Some(i) ==>
      var r := UpdateQuantity(inv, id, newQuantity).after.products;
      && r[i] == inv.products[i].(quantity := newQuantity)
      && forall j :: 0 <= j < |r| && j != i ==> r[j] == inv.products[j]
  {
  }

  lemma SellSucceeds(inv: Inventory, id: int, quantity: int, timestamp: string, i: nat)
    requires FindIndex(inv.products, id) == Some(i)
    requires inv.products[i].quantity >= quantity
    ensures var s := Sell(inv, id, quantity, timestamp);
      && s.outcome == Done
      && |s.after.products| == |inv.products|
      && s.after.products[i] == inv.products[i].(quantity := inv.products[i].quantity - quantity)
      && (forall j :: 0 <= j < |inv.products| && j != i ==> s.after.products[j] == inv.products[j])
      && s.after.log == inv.log + [LogEntry(timestamp, quantity, inv.products[i].name, inv.products[i].price)]
  {
  }

  lemma SellRefused(inv: Inventory, id: int, quantity: int, timestamp: string)
    ensures var s := Sell(inv, id, quantity, timestamp);
      && (s.outcome != Done ==> s.after == inv)
      && (s.outcome == NotFound <==> forall j :: 0 <= j < |inv.products| ==> inv.products[j].id != id)
      && (s.outcome == InsufficientQuantity <==>
            exists i :: FindIndex(inv.products, id) == Some(i) && inv.products[i].quantity < quantity)
  {
  }

  /** The guard alone keeps the sold product's stock non-negative, whatever the request. */
  lemma SellLeavesStockNonNegative(inv: Inventory, id: int, quantity: int, timestamp: string, i: nat)
    requires FindIndex(inv.products, id) == Some(i)
    requires Sell(inv, id, quantity, timestamp).outcome == Done
    ensures Sell(inv, id, quantity, timestamp).after.products[i].quantity >= 0
  {
  }

  /** A negative request passes the guard: the stock grows and a negative sale is logged. */
  lemma SellNegativeQuantityRestocks(inv: Inventory, id: int, quantity: int, timestamp: string, i: nat)
    requires FindIndex(inv.products, id) == Some(i)
    requires inv.products[i].quantity >= 0 && quantity < 0
    ensures var s := Sell(inv, id, quantity, timestamp);
      && s.outcome == Done
      && s.after.products[i].quantity > inv.products[i].quantity
      && s.after.log[|s.after.log| - 1].quantity < 0
  {
  }

  // ------------------------------------------------------ sequences of calls

  /** One user action with its already-parsed arguments. */
  datatype Op =
    | AddOp(name: string, price: int, quantity: int, category: string)
    | UpdateOp(id: int, newQuantity: int)
    | SellOp(id: int, quantity: int, timestamp: string)

  function Apply(inv: Inventory, op: Op): Inventory
  {
    match op
    case AddOp(name, price, quantity, category) => AddProduct(inv, name, price, quantity, category)
    case UpdateOp(id, newQuantity) => UpdateQuantity(inv, id, newQuantity).after
    case SellOp(id, quantity, timestamp) => Sell(inv, id, quantity, timestamp).after
  }

  function Run(inv: Inventory, ops: seq<Op>): Inventory
    decreases |ops|
  {
    if ops == [] then inv else Run(Apply(inv, ops[0]), ops[1..])
  }

  function AddCount(ops: seq<Op>): nat
    decreases |ops|
  {
    if ops == [] then 0 else (if ops[0].AddOp? then 1 else 0) + AddCount(ops[1..])
  }

  /** The k-th product carries identifier k + 1. */
  predicate IdsAreIndices(ps: seq<Product>) {
    forall k :: 0 <= k < |ps| ==> ps[k].id == k + 1
  }

  lemma {:induction false} RunKeepsIdsAreIndices(inv: Inventory, ops: seq<Op>)
    requires IdsAreIndices(inv.products)
    ensures IdsAreIndices(Run(inv, ops).products)
    ensures |Run(inv, ops).products| == |inv.products| + AddCount(ops)
    decreases |ops|
  {
    if ops != [] {
      var next := Apply(inv, ops[0]);
      assert IdsAreIndices(next.products);
      RunKeepsIdsAreIndices(next, ops[1..]);
    }
  }

  /**
   * From an empty catalog, any sequence of operations leaves identifiers
   * 1..n in order, one per add: strictly increasing and pairwise distinct.
   */
  lemma RunFromEmptyNumbersIds(ops: seq<Op>)
    ensures var ps := Run(Empty, ops).products;
      && |ps| == AddCount(ops)
      && (forall k :: 0 <= k < |ps| ==> ps[k].id == k + 1)
      && (forall j, k :: 0 <= j < k < |ps| ==> ps[j].id < ps[k].id)
      && IdsDistinct(ps)
  {
    RunKeepsIdsAreIndices(Empty, ops);
  }

  predicate AllAdds(ops: seq<Op>) {
    forall k :: 0 <= k < |ops| ==> ops[k].AddOp?
  }

  /** A run of adds appends the given records, numbered on from the catalog's length. */
  lemma {:induction false} RunOfAdds(inv: Inventory, ops: seq<Op>)
    requires AllAdds(ops)
    ensures var ps := Run(inv, ops).products;
      && |ps| == |inv.products| + |ops|
      && ps[..|inv.products|] == inv.products
      && forall k :: 0 <= k < |ops| ==>
           ps[|inv.products| + k] ==
             Product(|inv.products| + k + 1, ops[k].name, ops[k].price, ops[k].quantity, ops[k].category)
    decreases |ops|
  {
    if ops != [] {
      var next := Apply(inv, ops[0]);
      RunOfAdds(next, ops[1..]);
      var ps := Run(inv, ops).products;
      assert ps == Run(next, ops[1..]).products;
      var n := |inv.products|;
      assert ps[..n + 1] == next.products by {
        assert ps[..n + 1] == ps[..|next.products|];
      }
      assert ps[..n] == inv.products by {
        assert ps[..n] == ps[..n + 1][..n];
        assert next.products[..n] == inv.products;
      }
      forall k | 0 <= k < |ops|
        ensures ps[n + k] == Product(n + k + 1, ops[k].name, ops[k].price, ops[k].quantity, ops[k].category)
      {
        if k == 0 {
          assert ps[n] == ps[..n + 1][n];
        } else {
          assert ops[1..][k - 1] == ops[k];
          assert ps[|next.products| + (k - 1)] == ps[n + k];
        }
      }
    }
  }

  /** The inputs the program leaves unchecked, restricted to non-negative stock. */
  predicate NonNegativeInput(op: Op) {
    match op
    case AddOp(_, _, quantity, _) => quantity >= 0
    case UpdateOp(_, newQuantity) => newQuantity >= 0
    case SellOp(_, _, _) => true
  }

  lemma ApplyKeepsStockNonNegative(inv: Inventory, op: Op)
    requires StockNonNegative(inv.products) && NonNegativeInput(op)
    ensures StockNonNegative(Apply(inv, op).products)
  {
    match op
    case AddOp(name, price, quantity, category) =>
    case UpdateOp(id, newQuantity) =>
    case SellOp(id, quantity, timestamp) =>
      match FindIndex(inv.products, id)
      case None =>
      case Some(i) =>
        if inv.products[i].quantity >= quantity {
          SellLeavesStockNonNegative(inv, id, quantity, timestamp, i);
        }
  }

  /** No quantity is ever negative after non-negative adds and restocks and any sales. */
  lemma {:induction false} RunKeepsStockNonNegative(inv: Inventory, ops: seq<Op>)
    requires StockNonNegative(inv.products)
    requires forall k :: 0 <= k < |ops| ==> NonNegativeInput(ops[k])
    ensures StockNonNegative(Run(inv, ops).products)
    decreases |ops|
  {
    if ops != [] {
      ApplyKeepsStockNonNegative(inv, ops[0]);
      RunKeepsStockNonNegative(Apply(inv, ops[0]), ops[1..]);
    }
  }

  /** The log is append-only: what was logged stays, in place, after any run. */
  lemma {:induction false} RunExtendsLog(inv: Inventory, ops: seq<Op>)
    ensures inv.log <= Run(inv, ops).log
    decreases |ops|
  {
    if ops != [] {
      var next := Apply(inv, ops[0]);
      assert inv.log <= next.log;
      RunExtendsLog(next, ops[1..]);
    }
  }

  /** Identifiers stay unique only from an empty catalog: after a load they can collide. */
  lemma AddAfterLoadCanDuplicateIds()
    ensures var loaded := Inventory([Product(2, "Bread", 120, 5, "Bakery")], []);
      !IdsDistinct(AddProduct(loaded, "Milk", 250, 10, "Dairy").products)
  {
    var loaded := Inventory([Product(2, "Bread", 120, 5, "Bakery")], []);
    var ps := AddProduct(loaded, "Milk", 250, 10, "Dairy").products;
    assert ps[0].id == ps[1].id;
  }

  /** The worked scenario: add, sell within stock, oversell, sell an unknown id. */
  lemma MilkScenario(t1: string, t2: string, t3: string)
    ensures var a := AddProduct(Empty, "Milk", 250, 10, "Dairy");
      && a.products == [Product(1, "Milk", 250, 10, "Dairy")]
      && var b := Sell(a, 1, 4, t1);
      && b == Step(Done, Inventory([Product(1, "Milk", 250, 6, "Dairy")], [LogEntry(t1, 4, "Milk", 250)]))
      && Sell(b.after, 1, 999, t2) == Step(InsufficientQuantity, b.after)
      && Sell(b.after, 99, 1, t3) == Step(NotFound, b.after)
  {
  }
}
