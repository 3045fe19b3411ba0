/**
 * InventoryManager (main.py:39-140) as a class whose methods change its
 * catalog and its log in place. Console input is replaced by parameters,
 * products.json by a sequence of records passed in or returned, the clock by
 * a timestamp parameter and transactions.log by the `log` field.
 */
module Manager {
  import opened Wrappers
  import opened Catalog
  import opened Engine
  import opened Storage

  /** What load_products reports. Malformed is the TypeError the program lets escape. */
  datatype LoadOutcome = Loaded | NoStoredData | Malformed

  class InventoryManager {
    var products: seq<Product>
    var log: seq<LogEntry>

    function State(): Inventory
      reads this
    {
      Inventory(products, log)
    }

    /**
     * `priorLog` holds the sales that earlier runs appended to
     * transactions.log; the file is opened for appending, so they stay.
     */
    constructor (priorLog: seq<LogEntry>)
      ensures products == [] && log == priorLog
    {
      products := [];
      log := priorLog;
    }

    /**
     * `file` is None when products.json does not exist. The catalog is
     * replaced only when every record loads.
     */
    method LoadProducts(file: Option<seq<Record>>) returns (outcome: LoadOutcome)
      modifies this`products
      ensures file.None? ==> outcome == NoStoredData && products == old(products)
      ensures file.Some? && LoadData(file.value).None? ==> outcome == Malformed && products == old(products)
      ensures file.Some? && LoadData(file.value).Some? ==> outcome == Loaded && products == LoadData(file.value).value
    {
      match file
      case None =>
        outcome := NoStoredData;
      case Some(data) =>
        match LoadData(data)
        case None =>
          outcome := Malformed;
        case Some(loaded) =>
          products := loaded;
          outcome := Loaded;
    }

    /** The records written to products.json; loading them restores the catalog. */
    method SaveProducts() returns (data: seq<Record>)
      ensures |data| == |products| && forall k :: 0 <= k < |data| ==> data[k] == ToDict(products[k])
      ensures LoadData(data) == Some(products)
    {
      data := SaveData(products);
      LoadSaveRoundTrip(products);
    }

    method AddProduct(name: string, price: int, quantity: int, category: string)
      modifies this
      ensures State() == Engine.AddProduct(old(State()), name, price, quantity, category)
    {
      var productId := |products| + 1;
      var product := Product(productId, name, price, quantity, category);
      products := products + [product];
    }

    method UpdateProductQuantity(id: int, newQuantity: int) returns (outcome: Outcome)
      modifies this
      ensures Step(outcome, State()) == UpdateQuantity(old(State()), id, newQuantity)
    {
      match FindIndex(products, id)
      case None =>
        outcome := NotFound;
      case Some(i) =>
        products := products[i := products[i].(quantity := newQuantity)];
        outcome := Done;
    }

    method SellProduct(id: int, quantity: int, timestamp: string) returns (outcome: Outcome)
      modifies this
      ensures Step(outcome, State()) == Sell(old(State()), id, quantity, timestamp)
    {
      match FindIndex(products, id)
      case None =>
        outcome := NotFound;
      case Some(i) =>
        if products[i].quantity >= quantity {
          products := products[i := products[i].(quantity := products[i].quantity - quantity)];
          LogTransaction(products[i], quantity, timestamp);
          outcome := Done;
        } else {
          outcome := InsufficientQuantity;
        }
    }

    /** Appends one line for the sale of `quantity` units of `product`. */
    method LogTransaction(product: Product, quantity: int, timestamp: string)
      modifies this`log
      ensures log == old(log) + [LogEntry(timestamp, quantity, product.name, product.price)]
    {
      log := log + [LogEntry(timestamp, quantity, product.name, product.price)];
    }
  }
}
