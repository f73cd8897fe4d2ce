/** The Product record with its embedded variants, the derived `total_stock` that the
    pre-save hook recomputes, and the unique index on `variants.sku`. */
module ProductModel {
  import opened Common
  import opened Strings

  /** An embedded variant. A request that leaves out `price` or `stock_quantity` gets 0. */
  datatype Variant = Variant(id: Id, name: string, sku: string, price: int, stock_quantity: int)

  /** `category` and `user` are required references; an absent brand is the empty string. */
  datatype Product = Product(
    name: string,
    brand: string,
    category: Id,
    tags: seq<string>,
    variants: seq<Variant>,
    total_stock: int,
    user: Id)

  /** `variants.reduce((acc, v) => acc + v.stock_quantity, 0)`: a left fold from 0. */
  function SumStock(vs: seq<Variant>): int {
    if vs == [] then 0 else SumStock(vs[..|vs| - 1]) + vs[|vs| - 1].stock_quantity
  }

  /** What `product.save()` stores: the trim setter on `name`, and the pre-save hook that
      overwrites `total_stock` with the sum of the variants' stock. */
  function PreSave(p: Product): Product {
    p.(name := Trim(p.name), total_stock := SumStock(p.variants))
  }

  /** The `required` validators of a variant: a non-empty name and a non-empty SKU. */
  predicate VariantValid(v: Variant) {
    v.name != [] && v.sku != []
  }

  predicate VariantsValid(vs: seq<Variant>) {
    forall i :: 0 <= i < |vs| ==> VariantValid(vs[i])
  }

  /** A product as the collection holds it: the name is non-empty and trimmed, every
      variant passed its validators, and `total_stock` is the sum of the variants' stock. */
  predicate Stored(p: Product) {
    p.name != [] && Trimmed(p.name) && VariantsValid(p.variants)
    && p.total_stock == SumStock(p.variants)
  }

  /** No two variants of the list carry the same SKU. */
  predicate SkusDistinct(vs: seq<Variant>) {
    forall i, j :: 0 <= i < j < |vs| ==> vs[i].sku != vs[j].sku
  }

  function Skus(p: Product): set<string> {
    set v | v in p.variants :: v.sku
  }

  /** True iff some stored variant carries this SKU (`findOne({ 'variants.sku': sku })`). */
  predicate SkuInUse(products: map<Id, Product>, sku: string) {
    exists id :: id in products && sku in Skus(products[id])
  }

  /** The keys the unique multikey index on `variants.sku` holds for a product: one key per
      SKU of its variants, or the single null key (None) when it has no variants. */
  function IndexKeys(p: Product): (r: set<Option<string>>)
    ensures None in r <==> p.variants == []
    ensures forall sku :: Some(sku) in r <==> sku in Skus(p)
  {
    if p.variants == [] then {None} else set sku | sku in Skus(p) :: Some(sku)
  }

  /** True iff a product other than `self` shares an index key with `p`: a SKU, or the null
      key of a product without variants. This is what the unique index refuses when `p` is
      written as document `self`. */
  predicate SkuClash(products: map<Id, Product>, self: Id, p: Product) {
    exists o :: o in products && o != self && !(IndexKeys(p) !! IndexKeys(products[o]))
  }

  /** The unique multikey index on `variants.sku`: two different products never share an
      index key, so they share no SKU and at most one of them has no variants. (A multikey
      unique index separates documents; it does not compare the variants of one product
      with each other.) */
  predicate SkuIndexOk(products: map<Id, Product>) {
    forall a, b :: a in products && b in products && a != b ==> IndexKeys(products[a]) !! IndexKeys(products[b])
  }

  /** Two products without a common index key share no SKU, and are not both without
      variants; a product with variants and no SKU in common with another shares no key
      with it. */
  lemma IndexKeysDisjoint(p: Product, q: Product)
    ensures IndexKeys(p) !! IndexKeys(q) <==> Skus(p) !! Skus(q) && (p.variants != [] || q.variants != [])
  {
    if p.variants == [] && q.variants == [] {
      assert None in IndexKeys(p) && None in IndexKeys(q);
    } else if !(Skus(p) !! Skus(q)) {
      var sku :| sku in Skus(p) && sku in Skus(q);
      assert Some(sku) in IndexKeys(p) && Some(sku) in IndexKeys(q);
    } else {
      forall k | k in IndexKeys(p) ensures k !in IndexKeys(q) {
        if k.Some? {
          assert k.value in Skus(p);
        }
      }
    }
  }

  /** The invariant of the products collection. */
  predicate CollectionValid(products: map<Id, Product>) {
    SkuIndexOk(products) && forall id :: id in products ==> Stored(products[id])
  }

  /** What `product.save()` decides for document `id`: the validators run first (a name
      that trims to nothing, a variant without name or SKU), then the unique index. */
  function CheckSave(products: map<Id, Product>, id: Id, p: Product): (r: Outcome)
    ensures r == Pass <==> Trim(p.name) != [] && VariantsValid(p.variants) && !SkuClash(products, id, p)
    ensures r.Fail? ==> r.error in {ValidationFailed, DuplicateKey}
  {
    if Trim(p.name) == [] || !VariantsValid(p.variants) then Fail(ValidationFailed)
    else if SkuClash(products, id, p) then Fail(DuplicateKey)
    else Pass
  }

  /** The null key in action: while another product has no variants, a product without
      variants cannot be saved, whatever its name. */
  lemma NoSecondProductWithoutVariants(products: map<Id, Product>, id: Id, o: Id, p: Product)
    requires o in products && o != id && products[o].variants == [] && p.variants == []
    ensures CheckSave(products, id, p) != Pass
  {
    assert None in IndexKeys(p) && None in IndexKeys(products[o]);
  }

  /** A save that passes keeps the collection valid, and what it stores has `total_stock`
      equal to the sum of its variants' stock. */
  lemma SavePreservesValid(products: map<Id, Product>, id: Id, p: Product)
    requires CollectionValid(products)
    requires Trim(p.name) != [] && VariantsValid(p.variants) && !SkuClash(products, id, p)
    ensures Stored(PreSave(p))
    ensures CollectionValid(products[id := PreSave(p)])
  {
    TrimSpec(p.name);
    var q := PreSave(p);
    assert IndexKeys(q) == IndexKeys(p);
    var ps := products[id := q];
    forall a, b | a in ps && b in ps && a != b
      ensures IndexKeys(ps[a]) !! IndexKeys(ps[b])
    {
      if a == id {
        assert !(b in products && b != id && !(IndexKeys(p) !! IndexKeys(products[b])));
      } else if b == id {
        assert !(a in products && a != id && !(IndexKeys(p) !! IndexKeys(products[a])));
      }
    }
  }

  /** Replacing one variant changes the sum by exactly the difference of the two stocks. */
  lemma {:induction false} SumStockReplace(vs: seq<Variant>, i: nat, v: Variant)
    requires i < |vs|
    ensures SumStock(vs[i := v]) == SumStock(vs) - vs[i].stock_quantity + v.stock_quantity
  {
    var n := |vs| - 1;
    if i < n {
      SumStockReplace(vs[..n], i, v);
      assert vs[i := v][..n] == vs[..n][i := v];
    } else {
      assert vs[i := v][..n] == vs[..n];
    }
  }

  /** Appending a variant adds its stock to the sum. */
  lemma SumStockAppend(vs: seq<Variant>, v: Variant)
    ensures SumStock(vs + [v]) == SumStock(vs) + v.stock_quantity
  {
    assert (vs + [v])[..|vs|] == vs;
  }

  /** When every variant's stock is non-negative, so is the sum. */
  lemma {:induction false} SumStockNonNegative(vs: seq<Variant>)
    requires forall i :: 0 <= i < |vs| ==> vs[i].stock_quantity >= 0
    ensures SumStock(vs) >= 0
  {
    if vs != [] {
      SumStockNonNegative(vs[..|vs| - 1]);
    }
  }

  /** The saved `total_stock` depends only on the variants: whatever value was assigned to
      `total_stock` directly is overwritten. */
  lemma AssignedTotalOverwritten(p: Product, direct: int)
    ensures PreSave(p.(total_stock := direct)) == PreSave(p)
    ensures PreSave(p).total_stock == SumStock(p.variants)
  {
  }

  /** A product saved with no variants has `total_stock` 0. */
  lemma EmptyProductHasNoStock(p: Product)
    requires p.variants == []
    ensures PreSave(p).total_stock == 0
  {
  }

  /** `variants.id(vid)`: the position of the first variant whose id is `vid`, if any. */
  function FindVariant(vs: seq<Variant>, vid: Id): (r: Option<nat>)
    ensures r.Some? ==> r.value < |vs| && vs[r.value].id == vid
    ensures r.Some? ==> forall j :: 0 <= j < r.value ==> vs[j].id != vid
    ensures r.None? <==> forall j :: 0 <= j < |vs| ==> vs[j].id != vid
  {
    if vs == [] then None
    else if vs[0].id == vid then Some(0)
    else match FindVariant(vs[1..], vid)
      case None => None
      case Some(k) => Some(k + 1)
  }

  /** The variant at position `i` with its stock moved by `delta`, the product then saved
      (so `total_stock` is recomputed). */
  function AdjustStock(p: Product, i: nat, delta: int): (r: Product)
    requires i < |p.variants|
    ensures |r.variants| == |p.variants|
    ensures r.variants[i].stock_quantity == p.variants[i].stock_quantity + delta
    ensures r.variants[i] == p.variants[i].(stock_quantity := r.variants[i].stock_quantity)
    ensures forall j :: 0 <= j < |p.variants| && j != i ==> r.variants[j] == p.variants[j]
    ensures Stored(p) ==> r.total_stock == p.total_stock + delta
  {
    var v := p.variants[i];
    var vs := p.variants[i := v.(stock_quantity := v.stock_quantity + delta)];
    SumStockReplace(p.variants, i, vs[i]);
    PreSave(p.(variants := vs))
  }

  /** Adjusting stock keeps a stored product stored and leaves its SKUs, name and
      everything but the one variant's stock as they were. */
  lemma AdjustStockKeepsStored(p: Product, i: nat, delta: int)
    requires i < |p.variants| && Stored(p)
    ensures Stored(AdjustStock(p, i, delta))
    ensures Skus(AdjustStock(p, i, delta)) == Skus(p)
    ensures IndexKeys(AdjustStock(p, i, delta)) == IndexKeys(p)
    ensures AdjustStock(p, i, delta) == p.(variants := AdjustStock(p, i, delta).variants, total_stock := p.total_stock + delta)
  {
    var r := AdjustStock(p, i, delta);
    TrimOfTrimmed(p.name);
    forall s | s in Skus(p) ensures s in Skus(r) {
      var j :| 0 <= j < |p.variants| && p.variants[j].sku == s;
      assert r.variants[j].sku == s;
    }
    forall s | s in Skus(r) ensures s in Skus(p) {
      var j :| 0 <= j < |r.variants| && r.variants[j].sku == s;
      assert p.variants[j].sku == s;
    }
  }

  /** Moving one variant's stock and saving a stored product again always passes: the name
      is already trimmed, no variant loses its name or SKU, and the product keeps exactly the
      SKUs the index already admitted. What gets stored is `AdjustStock`. */
  lemma StockChangePassesSave(products: map<Id, Product>, id: Id, i: nat, delta: int)
    requires CollectionValid(products) && id in products && i < |products[id].variants|
    ensures var p := products[id];
            var v := p.variants[i];
            var q := p.(variants := p.variants[i := v.(stock_quantity := v.stock_quantity + delta)]);
            CheckSave(products, id, q) == Pass && PreSave(q) == AdjustStock(p, i, delta)
  {
    var p := products[id];
    var v := p.variants[i];
    var q := p.(variants := p.variants[i := v.(stock_quantity := v.stock_quantity + delta)]);
    TrimOfTrimmed(p.name);
    AdjustStockKeepsStored(p, i, delta);
    assert IndexKeys(q) == IndexKeys(PreSave(q));
    forall o | o in products && o != id ensures IndexKeys(q) !! IndexKeys(products[o]) {
      assert IndexKeys(p) !! IndexKeys(products[o]);
    }
  }

  /** Saving a new product with a single variant under an identity not yet in use: the
      validators decide first, then the index refuses the SKU exactly when some stored
      product already carries it. The saved total is the variant's stock. */
  lemma SingleVariantSave(products: map<Id, Product>, id: Id, p: Product)
    requires id !in products && |p.variants| == 1
    ensures CheckSave(products, id, p) ==
      if Trim(p.name) == [] || !VariantValid(p.variants[0]) then Fail(ValidationFailed)
      else if SkuInUse(products, p.variants[0].sku) then Fail(DuplicateKey)
      else Pass
    ensures PreSave(p).total_stock == p.variants[0].stock_quantity
  {
    var v := p.variants[0];
    assert p.variants == [v];
    assert Skus(p) == {v.sku};
    forall o | o in products ensures IndexKeys(p) !! IndexKeys(products[o]) <==> v.sku !in Skus(products[o]) {
      IndexKeysDisjoint(p, products[o]);
    }
    assert SkuClash(products, id, p) <==> SkuInUse(products, v.sku);
    assert p.variants[..0] == [];
    assert SumStock(p.variants) == SumStock(p.variants[..0]) + v.stock_quantity;
  }
}
