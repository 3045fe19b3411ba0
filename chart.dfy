/**
 * The data behind generate_quantity_chart (main.py:106-121): the set of
 * categories, the products of each category in catalog order, and the colour
 * each category's bars are drawn in. Plotting itself is not modelled.
 */
module Chart {
  import opened Catalog

  /** `set(product.category for product in self.products)`. */
  function Categories(ps: seq<Product>): (r: set<string>)
    ensures forall c :: c in r <==> exists k :: 0 <= k < |ps| && ps[k].category == c
  {
    set k | 0 <= k < |ps| :: ps[k].category
  }

  /** `[product for product in self.products if product.category == c]`. */
  function InCategory(ps: seq<Product>, c: string): (r: seq<Product>)
    ensures |r| <= |ps|
    ensures forall p :: p in r <==> p in ps && p.category == c
    decreases |ps|
  {
    if ps == [] then []
    else (if ps[0].category == c then [ps[0]] else []) + InCategory(ps[1..], c)
  }

  /** Grouping keeps catalog order: it distributes over concatenation. */
  lemma {:induction false} InCategoryConcat(xs: seq<Product>, ys: seq<Product>, c: string)
    ensures InCategory(xs + ys, c) == InCategory(xs, c) + InCategory(ys, c)
    decreases |xs|
  {
    if xs != [] {
      assert (xs + ys)[1..] == xs[1..] + ys;
      InCategoryConcat(xs[1..], ys, c);
    } else {
      assert [] + ys == ys;
    }
  }

  /** A category is charted exactly when it has at least one product. */
  lemma CategoryHasProducts(ps: seq<Product>, c: string)
    ensures c in Categories(ps) <==> InCategory(ps, c) != []
  {
    if c in Categories(ps) {
      var k :| 0 <= k < |ps| && ps[k].category == c;
      assert ps[k] in InCategory(ps, c);
    }
  }

  /** Every product lies in the group of its own category and in no other. */
  lemma GroupsPartition(ps: seq<Product>, k: nat, c: string)
    requires k < |ps|
    ensures ps[k] in InCategory(ps, c) <==> c == ps[k].category
    ensures ps[k].category in Categories(ps)
  {
  }

  /** The bars of one chart: product names and quantities, aligned position by position. */
  datatype Bars = Bars(names: seq<string>, quantities: seq<int>)

  /** Position k of both lists describes the k-th product of the category, in catalog order. */
  function BarsFor(ps: seq<Product>, c: string): (b: Bars)
    ensures var g := InCategory(ps, c);
      && |b.names| == |b.quantities| == |g|
      && forall k :: 0 <= k < |g| ==> b.names[k] == g[k].name && b.quantities[k] == g[k].quantity
  {
    var g := InCategory(ps, c);
    Bars(seq(|g|, k requires 0 <= k < |g| => g[k].name),
         seq(|g|, k requires 0 <= k < |g| => g[k].quantity))
  }

  // ------------------------------------------------------------------ colours

  datatype Color = Blue | Green | Yellow | Orange | Red | Purple | Brown

  const Palette: seq<Color> := [Blue, Green, Yellow, Orange, Red, Purple, Brown]

  /** `dict(zip(keys, values))`: pairs up to the shorter length, later keys overriding. */
  function ZipMap(keys: seq<string>, values: seq<Color>): (m: map<string, Color>)
    ensures forall c :: c in m <==> exists k :: 0 <= k < |keys| && k < |values| && keys[k] == c
    decreases |keys|
  {
    if keys == [] || values == [] then map[]
    else map[keys[0] := values[0]] + ZipMap(keys[1..], values[1..])
  }

  /** With distinct keys, the k-th key is paired with the k-th value. */
  lemma {:induction false} ZipMapAt(keys: seq<string>, values: seq<Color>, k: nat)
    requires Distinct(keys) && k < |keys| && k < |values|
    ensures keys[k] in ZipMap(keys, values) && ZipMap(keys, values)[keys[k]] == values[k]
    decreases k
  {
    if k > 0 {
      ZipMapAt(keys[1..], values[1..], k - 1);
      assert keys[1..][k - 1] == keys[k] && keys[k] != keys[0];
    }
  }

  /** No category is listed twice, as in an iteration over a set. */
  predicate Distinct(order: seq<string>) {
    forall j, k :: 0 <= j < k < |order| ==> order[j] != order[k]
  }

  /** The colour map as the program builds it: `colors[:len(categories)]` zipped with the categories. */
  function ColorsAsWritten(order: seq<string>): (m: map<string, Color>)
    ensures forall c :: c in m <==> exists k :: 0 <= k < |order| && k < |Palette| && order[k] == c
  {
    ZipMap(order, Palette[..if |order| < |Palette| then |order| else |Palette|])
  }

  /** With eight categories the eighth has no colour: `category_colors[category]` raises KeyError. */
  lemma EighthCategoryHasNoColor(order: seq<string>)
    requires Distinct(order) && |order| >= 8
    ensures order[7] !in ColorsAsWritten(order)
  {
  }

  /** The corrected map: the palette is reused cyclically, so every category is coloured. */
  function Colors(order: seq<string>): (m: map<string, Color>)
    ensures forall k :: 0 <= k < |order| ==> order[k] in m
    ensures forall c :: c in m ==> c in order
  {
    ZipMap(order, seq(|order|, k requires 0 <= k < |order| => Palette[k % |Palette|]))
  }

  lemma EveryCategoryHasColor(order: seq<string>, k: nat)
    requires k < |order|
    ensures order[k] in Colors(order)
  {
  }

  /** Where the program works (at most seven categories) the correction colours each category the same. */
  lemma {:induction false} ColorsAgreeWhenFew(order: seq<string>)
    requires |order| <= |Palette|
    ensures Colors(order) == ColorsAsWritten(order)
  {
    assert seq(|order|, k requires 0 <= k < |order| => Palette[k % |Palette|]) == Palette[..|order|];
  }

  /** One chart window per category, in the order the categories are visited. */
  datatype Panel = Panel(category: string, bars: Bars, color: Color)

  /** `order` is the iteration order of the category set, which the program does not fix. */
  function Panels(ps: seq<Product>, order: seq<string>): (r: seq<Panel>)
    ensures |r| == |order|
    ensures forall k :: 0 <= k < |r| ==>
              && r[k].category == order[k] && r[k].bars == BarsFor(ps, order[k])
              && order[k] in Colors(order) && r[k].color == Colors(order)[order[k]]
  {
    var colors := Colors(order);
    seq(|order|, k requires 0 <= k < |order| => Panel(order[k], BarsFor(ps, order[k]), colors[order[k]]))
  }

  /** When `order` lists the categories of the catalog, no chart is empty. */
  lemma PanelsHaveBars(ps: seq<Product>, order: seq<string>, k: nat)
    requires forall c :: c in order ==> c in Categories(ps)
    requires k < |order|
    ensures Panels(ps, order)[k].bars.names != []
  {
    assert order[k] in order;
    CategoryHasProducts(ps, order[k]);
  }
}
