/** The product endpoints: the paging arithmetic of the listing, lookup by identity,
    creation with its SKU guards, the field-merging update and the stock-guarded delete. */
module ProductController {
  import opened Common
  import opened Strings
  import opened ProductModel
  import opened Database

  /** `parseInt(query) || fallback`: a value that does not parse (None, JavaScript's NaN)
      or parses to 0 is replaced by the fallback. */
  function OrDefault(parsed: Option<int>, fallback: int): int {
    if parsed.Some? && parsed.value != 0 then parsed.value else fallback
  }

  /** The page size of a listing: 10 unless the query gives a non-zero number. */
  function PageSize(parsed: Option<int>): (r: int)
    ensures r != 0
    ensures parsed.None? ==> r == 10
    ensures parsed.Some? && parsed.value != 0 ==> r == parsed.value
  {
    OrDefault(parsed, 10)
  }

  /** The page asked for: 1 unless the query gives a non-zero number. */
  function PageNumber(parsed: Option<int>): (r: int)
    ensures r != 0
    ensures parsed.None? ==> r == 1
    ensures parsed.Some? && parsed.value != 0 ==> r == parsed.value
  {
    OrDefault(parsed, 1)
  }

  /** How many matching products the listing skips to reach page `page`. */
  function Skip(pageSize: int, page: int): int {
    pageSize * (page - 1)
  }

  /** `Math.ceil(count / pageSize)`: the real quotient rounded up. */
  function Pages(count: nat, pageSize: int): int
    requires pageSize != 0
  {
    if pageSize > 0 then (count + pageSize - 1) / pageSize else -(count / -pageSize)
  }

  /** `Pages` is the ceiling of `count / pageSize`: the least whole number at or above it. */
  lemma PagesIsCeiling(count: nat, pageSize: int)
    requires pageSize != 0
    ensures pageSize > 0 ==> (Pages(count, pageSize) - 1) * pageSize < count <= Pages(count, pageSize) * pageSize
    ensures pageSize < 0 ==> Pages(count, pageSize) * pageSize <= count < (Pages(count, pageSize) - 1) * pageSize
  {
    var r := Pages(count, pageSize);
    if pageSize > 0 {
      var m := (count + pageSize - 1) % pageSize;
      assert count + pageSize - 1 == r * pageSize + m;
      assert (r - 1) * pageSize == r * pageSize - pageSize;
    } else {
      var n := -pageSize;
      var q := count / n;
      assert count == q * n + count % n;
      assert r * pageSize == q * n;
      assert (r - 1) * pageSize == q * n + n;
    }
  }

  /** With a positive page size, the item at position `k` of the `count` matching products
      lies on exactly one page, and that page is among the `Pages` the listing reports. */
  lemma EveryItemOnAReportedPage(count: nat, pageSize: int, k: nat)
    requires pageSize > 0 && k < count
    ensures var page := k / pageSize + 1;
            1 <= page <= Pages(count, pageSize)
            && Skip(pageSize, page) <= k < Skip(pageSize, page) + pageSize
    ensures forall page :: Skip(pageSize, page) <= k < Skip(pageSize, page) + pageSize ==> page == k / pageSize + 1
  {
    var q := k / pageSize;
    assert k == q * pageSize + k % pageSize;
    assert Skip(pageSize, q + 1) == q * pageSize;
    PagesIsCeiling(count, pageSize);
    var r := Pages(count, pageSize);
    if q + 1 > r {
      MulMonotone(r, q, pageSize);
    }
    forall page | Skip(pageSize, page) <= k < Skip(pageSize, page) + pageSize
      ensures page == q + 1
    {
      var d := page - 1;
      assert Skip(pageSize, page) == d * pageSize;
      if d < q {
        MulMonotone(d + 1, q, pageSize);
      } else if d > q {
        MulMonotone(q + 1, d, pageSize);
      }
    }
  }

  lemma MulMonotone(a: int, b: int, c: int)
    requires a <= b && c > 0
    ensures a * c <= b * c
  {
  }

  /** `Product.findById`: the stored product, or NotFound. */
  method GetProductById(s: Store, id: Id) returns (r: Result<Product>)
    ensures r.Ok? <==> id in s.products
    ensures r.Ok? ==> r.value == s.products[id]
    ensures r.Err? ==> r.error == NotFound
  {
    if id in s.products {
      r := Ok(s.products[id]);
    } else {
      r := Err(NotFound);
    }
  }

  /** The body of a create request. Absent strings are empty and an absent list is empty.
      Variant identities are taken as the request gives them. */
  datatype ProductRequest = ProductRequest(
    name: string,
    brand: string,
    category: Option<Id>,
    tags: seq<string>,
    variants: seq<Variant>)

  /** The product a create request describes, owned by `user`, before the save hooks. */
  function Requested(req: ProductRequest, user: Id): Product
    requires req.category.Some?
  {
    Product(req.name, req.brand, req.category.value, req.tags, req.variants, 0, user)
  }

  /** What `createProduct` decides, as written: the required fields, an empty SKU, a SKU some
      stored product already carries, then the validators of the save. Two submitted
      variants with the same SKU are not refused. */
  function CheckCreateAsWritten(products: map<Id, Product>, req: ProductRequest): (r: Outcome)
    ensures r == Pass <==>
      && req.category.Some? && Trim(req.name) != [] && req.variants != [] && VariantsValid(req.variants)
      && forall i :: 0 <= i < |req.variants| ==> !SkuInUse(products, req.variants[i].sku)
  {
    if req.name == [] || req.category.None? || req.variants == [] then Fail(MissingFields)
    else if exists i :: 0 <= i < |req.variants| && req.variants[i].sku == [] then Fail(MissingFields)
    else if exists i :: 0 <= i < |req.variants| && SkuInUse(products, req.variants[i].sku) then Fail(DuplicateSku)
    else if Trim(req.name) == [] || !VariantsValid(req.variants) then Fail(ValidationFailed)
    else Pass
  }

  /** Two variants of one request sharing a SKU pass every guard of `createProduct` and the
      unique index too (a unique multikey index compares documents, not the entries of one
      document's array), so the product is stored with a repeated SKU. */
  lemma RepeatedSkuAccepted()
    ensures var v := Variant(0, "Black", "SKU-1", 100, 0);
            var req := ProductRequest("Phone", "", Some(0), [], [v, v.(id := 1, name := "White")]);
            && CheckCreateAsWritten(map[], req) == Pass
            && CheckSave(map[], 0, Requested(req, 0)) == Pass
            && !SkusDistinct(req.variants)
  {
    var v := Variant(0, "Black", "SKU-1", 100, 0);
    var req := ProductRequest("Phone", "", Some(0), [], [v, v.(id := 1, name := "White")]);
    assert Trim("Phone") == "Phone" by { TrimOfTrimmed("Phone"); }
    assert VariantsValid(req.variants);
    assert req.variants[0].sku == req.variants[1].sku;
    assert !SkuInUse(map[], "SKU-1");
  }

  /** What `createProduct` decides with the duplicate check its guard intends: after the
      empty-SKU check, a request repeating a SKU among its own variants is refused too. */
  function CheckCreate(products: map<Id, Product>, req: ProductRequest): (r: Outcome)
    ensures r == Pass <==>
      && req.category.Some? && Trim(req.name) != [] && req.variants != [] && VariantsValid(req.variants)
      && SkusDistinct(req.variants)
      && forall i :: 0 <= i < |req.variants| ==> !SkuInUse(products, req.variants[i].sku)
    ensures r == Pass <==> CheckCreateAsWritten(products, req) == Pass && SkusDistinct(req.variants)
    ensures r.Fail? ==> r.error in {MissingFields, DuplicateSku, ValidationFailed}
  {
    if req.name == [] || req.category.None? || req.variants == [] then Fail(MissingFields)
    else if exists i :: 0 <= i < |req.variants| && req.variants[i].sku == [] then Fail(MissingFields)
    else if !SkusDistinct(req.variants) then Fail(DuplicateSku)
    else if exists i :: 0 <= i < |req.variants| && SkuInUse(products, req.variants[i].sku) then Fail(DuplicateSku)
    else if Trim(req.name) == [] || !VariantsValid(req.variants) then Fail(ValidationFailed)
    else Pass
  }

  /** `createProduct`, with the corrected guard. On success the new product holds exactly the
      submitted fields (name trimmed), is owned by the caller, has its total computed by the
      save hook, and no SKU of it appears twice in the catalog. On failure nothing is stored. */
  method CreateProduct(s: Store, req: ProductRequest, user: Id) returns (r: Result<Id>)
    requires s.Valid()
    modifies s`nextId, s`products
    ensures s.Valid()
    ensures r.Ok? <==> CheckCreate(old(s.products), req) == Pass
    ensures r.Err? ==> r.error == CheckCreate(old(s.products), req).error && s.products == old(s.products)
    ensures r.Ok? ==>
      && r.value !in old(s.products)
      && s.products == old(s.products)[r.value := Product(
           Trim(req.name), req.brand, req.category.value, req.tags, req.variants, SumStock(req.variants), user)]
      && SkusDistinct(s.products[r.value].variants)
      && forall o :: o in old(s.products) ==> Skus(s.products[r.value]) !! Skus(old(s.products)[o])
  {
    if req.name == [] || req.category.None? || req.variants == [] {
      return Err(MissingFields);
    }
    if exists i :: 0 <= i < |req.variants| && req.variants[i].sku == [] {
      return Err(MissingFields);
    }
    if !SkusDistinct(req.variants) {
      return Err(DuplicateSku);
    }
    if exists i :: 0 <= i < |req.variants| && SkuInUse(s.products, req.variants[i].sku) {
      return Err(DuplicateSku);
    }
    var id := s.FreshId();
    var product := Requested(req, user);
    forall o | o in s.products ensures Skus(product) !! Skus(s.products[o]) {
      forall x | x in Skus(product) ensures x !in Skus(s.products[o]) {
        var v :| v in req.variants && v.sku == x;
        var i :| 0 <= i < |req.variants| && req.variants[i] == v;
        assert !SkuInUse(s.products, req.variants[i].sku);
      }
    }
    var saved := s.SaveProduct(id, product);
    if saved.Fail? {
      return Err(saved.error);
    }
    r := Ok(id);
  }

  /** The body of an update request. An absent or empty string is empty; `tags` and
      `variants` are arrays, which are truthy even when empty, so only their absence counts.
      The schema has no `image` path, so an image in the request is dropped. */
  datatype ProductUpdate = ProductUpdate(
    name: string,
    brand: string,
    category: Option<Id>,
    tags: Option<seq<string>>,
    variants: Option<seq<Variant>>)

  /** The merge in `updateProduct`: each field takes the request's value when it is truthy and keeps its
      own otherwise. */
  function Merge(p: Product, u: ProductUpdate): Product {
    p.(name := if u.name != [] then u.name else p.name,
       brand := if u.brand != [] then u.brand else p.brand,
       category := if u.category.Some? then u.category.value else p.category,
       tags := if u.tags.Some? then u.tags.value else p.tags,
       variants := if u.variants.Some? then u.variants.value else p.variants)
  }

  /** Sending the same update twice is sending it once. */
  lemma MergeIdempotent(p: Product, u: ProductUpdate)
    ensures Merge(Merge(p, u), u) == Merge(p, u)
  {
  }

  /** An update that supplies nothing saves a stored product exactly as it was. */
  lemma EmptyUpdateKeepsProduct(p: Product)
    requires Stored(p)
    ensures PreSave(Merge(p, ProductUpdate([], [], None, None, None))) == p
  {
    TrimOfTrimmed(p.name);
  }

  /** `updateProduct`: unknown identities are NotFound; otherwise the merged product is
      saved, which the validators and the SKU index may refuse. */
  method UpdateProduct(s: Store, id: Id, u: ProductUpdate) returns (r: Outcome)
    requires s.Valid()
    modifies s`products
    ensures s.Valid()
    ensures id !in old(s.products) ==> r == Fail(NotFound)
    ensures r.Fail? ==> s.products == old(s.products)
    ensures id in old(s.products) ==> r == CheckSave(old(s.products), id, Merge(old(s.products[id]), u))
    ensures r == Pass ==> id in old(s.products) && id in s.products
    ensures r == Pass && id in old(s.products) && id in s.products ==>
      var p := old(s.products[id]);
      var q := s.products[id];
      && s.products == old(s.products)[id := q]
      && q.name == (if u.name != [] then Trim(u.name) else p.name)
      && q.brand == (if u.brand != [] then u.brand else p.brand)
      && q.category == (if u.category.Some? then u.category.value else p.category)
      && q.tags == (if u.tags.Some? then u.tags.value else p.tags)
      && q.variants == (if u.variants.Some? then u.variants.value else p.variants)
      && q.user == p.user
      && q.total_stock == SumStock(q.variants)
  {
    if id !in s.products {
      return Fail(NotFound);
    }
    var p := s.products[id];
    TrimOfTrimmed(p.name);
    r := s.SaveProduct(id, Merge(p, u));
  }

  /** The guard of `deleteProduct`: a product whose total stock is positive stays. */
  function CheckDelete(p: Product): (r: Outcome)
    ensures r == Pass <==> p.total_stock <= 0
    ensures r.Fail? ==> r.error == ProductHasStock
  {
    if p.total_stock > 0 then Fail(ProductHasStock) else Pass
  }

  /** When no variant holds negative stock, a product the guard lets go holds no stock in
      any variant. */
  lemma DeletableHoldsNothing(p: Product)
    requires Stored(p) && CheckDelete(p) == Pass
    requires forall i :: 0 <= i < |p.variants| ==> p.variants[i].stock_quantity >= 0
    ensures forall i :: 0 <= i < |p.variants| ==> p.variants[i].stock_quantity == 0
  {
    ZeroSumOfNonNegative(p.variants);
  }

  lemma {:induction false} ZeroSumOfNonNegative(vs: seq<Variant>)
    requires forall i :: 0 <= i < |vs| ==> vs[i].stock_quantity >= 0
    requires SumStock(vs) <= 0
    ensures forall i :: 0 <= i < |vs| ==> vs[i].stock_quantity == 0
  {
    if vs != [] {
      var init := vs[..|vs| - 1];
      SumStockNonNegative(init);
      ZeroSumOfNonNegative(init);
      forall i | 0 <= i < |vs| ensures vs[i].stock_quantity == 0 {
        if i < |vs| - 1 {
          assert vs[i] == init[i];
        }
      }
    }
  }

  /** The guard reads only the total: a variant holding stock can go with its product when
      another variant's stock is negative (an approved outgoing record for a new product
      creates such a variant). */
  lemma DeletableWhileVariantHoldsStock()
    ensures var p := Product("Phone", "", 0, [], [Variant(0, "Black", "SKU-1", 100, 5), Variant(1, "White", "SKU-2", 100, -5)], 0, 0);
            Stored(p) && CheckDelete(p) == Pass && p.variants[0].stock_quantity == 5
  {
    var p := Product("Phone", "", 0, [], [Variant(0, "Black", "SKU-1", 100, 5), Variant(1, "White", "SKU-2", 100, -5)], 0, 0);
    assert p.variants[..1][..0] == [];
    assert SumStock(p.variants[..1]) == 5;
  }

  /** `deleteProduct`: unknown identities are NotFound, a product with positive total stock
      is refused and kept, any other product is removed. */
  method DeleteProduct(s: Store, id: Id) returns (r: Outcome)
    requires s.Valid()
    modifies s`products
    ensures s.Valid()
    ensures id !in old(s.products) ==> r == Fail(NotFound)
    ensures id in old(s.products) ==> r == CheckDelete(old(s.products[id]))
    ensures r.Fail? ==> s.products == old(s.products)
    ensures r == Pass ==> s.products == old(s.products) - {id}
  {
    if id !in s.products {
      return Fail(NotFound);
    }
    r := CheckDelete(s.products[id]);
    if r.Fail? {
      return;
    }
    s.DeleteProduct(id);
  }
}
