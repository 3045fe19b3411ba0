/**
 * The mapping between products and the stored records of products.json:
 * Product.to_dict on save, and `Product(**data)` for each record on load.
 * The JSON text itself is not modelled; a record is the dictionary that
 * json.dump writes and json.load gives back.
 */
module Storage {
  import opened Wrappers
  import opened Catalog

  /** The JSON values a product record holds. */
  datatype Value = IntValue(i: int) | TextValue(s: string)

  type Record = map<string, Value>

  /** The keyword arguments of Product.__init__, which are the keys to_dict writes. */
  const FieldNames: set<string> := {"product_id", "name", "price", "quantity", "category"}

  function ToDict(p: Product): (d: Record)
    ensures d.Keys == FieldNames
  {
    map["product_id" := IntValue(p.id), "name" := TextValue(p.name), "price" := IntValue(p.price),
        "quantity" := IntValue(p.quantity), "category" := TextValue(p.category)]
  }

  /** A record that `Product(**data)` accepts: exactly the five keywords, with values of the field's kind. */
  predicate WellFormed(d: Record) {
    && d.Keys == FieldNames
    && d["product_id"].IntValue? && d["name"].TextValue? && d["price"].IntValue?
    && d["quantity"].IntValue? && d["category"].TextValue?
  }

  /** `Product(**data)`; a missing or unexpected keyword is a TypeError, here None. */
  function FromDict(d: Record): (r: Option<Product>)
    ensures r.Some? <==> WellFormed(d)
  {
    if WellFormed(d) then
      Some(Product(d["product_id"].i, d["name"].s, d["price"].i, d["quantity"].i, d["category"].s))
    else None
  }

  lemma FromToDict(p: Product)
    ensures FromDict(ToDict(p)) == Some(p)
  {
  }

  /** A record that loads is exactly the record its product saves to. */
  lemma ToFromDict(d: Record)
    requires FromDict(d).Some?
    ensures ToDict(FromDict(d).value) == d
  {
    var e := ToDict(FromDict(d).value);
    assert e.Keys == d.Keys;
    forall k | k in d ensures e[k] == d[k] {
      assert k in FieldNames;
    }
  }

  /** save_products: `[product.to_dict() for product in self.products]`. */
  function SaveData(ps: seq<Product>): (rs: seq<Record>)
    ensures |rs| == |ps| && forall k :: 0 <= k < |ps| ==> rs[k] == ToDict(ps[k])
    decreases |ps|
  {
    if ps == [] then [] else [ToDict(ps[0])] + SaveData(ps[1..])
  }

  /** load_products: `[Product(**data) for data in product_data]`, failing on the first bad record. */
  function LoadData(rs: seq<Record>): (r: Option<seq<Product>>)
    ensures r.Some? <==> forall k :: 0 <= k < |rs| ==> WellFormed(rs[k])
    ensures r.Some? ==> |r.value| == |rs| && forall k :: 0 <= k < |rs| ==> FromDict(rs[k]) == Some(r.value[k])
    decreases |rs|
  {
    if rs == [] then Some([])
    else match FromDict(rs[0])
         case None => None
         case Some(p) =>
           match LoadData(rs[1..])
           case None => None
           case Some(rest) => Some([p] + rest)
  }

  /** Loading what was saved gives back the same products in the same order. */
  lemma {:induction false} LoadSaveRoundTrip(ps: seq<Product>)
    ensures LoadData(SaveData(ps)) == Some(ps)
    decreases |ps|
  {
    if ps != [] {
      LoadSaveRoundTrip(ps[1..]);
      FromToDict(ps[0]);
      assert SaveData(ps)[1..] == SaveData(ps[1..]);
      assert [ps[0]] + ps[1..] == ps;
    }
  }

  /** Saving what was loaded gives back the same records. */
  lemma {:induction false} SaveLoadRoundTrip(rs: seq<Record>)
    requires LoadData(rs).Some?
    ensures SaveData(LoadData(rs).value) == rs
    decreases |rs|
  {
    if rs != [] {
      SaveLoadRoundTrip(rs[1..]);
      ToFromDict(rs[0]);
      var ps := LoadData(rs).value;
      assert ps[1..] == LoadData(rs[1..]).value;
      assert [rs[0]] + rs[1..] == rs;
    }
  }
}
