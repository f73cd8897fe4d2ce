/** The stock-movement approval engine. A warehouse manager files a stock movement as a
    Pending ledger record; an administrator then rejects it, or approves it, and only an
    approval moves stock. An approval either completes in full or changes nothing. */
module InventoryController {
  import opened Common
  import opened Strings
  import CategoryModel
  import ProductModel
  import opened TransactionModel
  import opened Database

  /** The body of a create request. A missing string is the empty string and a missing
      quantity is 0 (both falsy, as the guards see them). */
  datatype TransactionRequest = TransactionRequest(
    txType: string,
    quantity: int,
    notes: string,
    isNewProduct: bool,
    product: Option<Id>,
    variant: Option<Id>,
    newProductData: Option<NewProductData>,
    total_amount: Option<int>)

  const DefaultRejectionReason: string := "Không có lý do cụ thể."

  /** The record `InventoryTransaction.create` receives for request `req` filed by `user`. */
  function NewRecord(req: TransactionRequest, ty: TxType, user: Id): Transaction {
    Transaction(
      ty, req.quantity, Trim(req.notes), user, Pending, None, None,
      if req.total_amount.Some? then req.total_amount.value else 0,
      req.isNewProduct,
      if req.isNewProduct then None else req.product,
      if req.isNewProduct then None else req.variant,
      if req.isNewProduct then req.newProductData else None)
  }

  /** What `createTransaction` decides for a request filed by `user`: the controller's
      guards (required fields, the new-product fields, the SKU lookup), then the schema
      validators and the pre-save hook of the record it creates. */
  function CheckCreate(products: map<Id, ProductModel.Product>, req: TransactionRequest, user: Id): (r: Outcome)
    ensures r == Fail(MissingFields) <==>
      req.txType == [] || req.quantity == 0 || (req.isNewProduct && !NewProductComplete(req.newProductData))
    ensures r == Fail(DuplicateSku) <==>
      && req.txType != [] && req.quantity != 0
      && req.isNewProduct && NewProductComplete(req.newProductData)
      && ProductModel.SkuInUse(products, req.newProductData.value.variantData.value.sku)
    ensures r == Pass <==>
      && ParseType(req.txType).Some? && req.quantity >= 1
      && if req.isNewProduct
         then NewProductComplete(req.newProductData)
              && !ProductModel.SkuInUse(products, req.newProductData.value.variantData.value.sku)
         else req.product.Some? && req.variant.Some?
    ensures r == Pass ==> Stored(NewRecord(req, ParseType(req.txType).value, user))
  {
    if req.txType == [] || req.quantity == 0 then Fail(MissingFields)
    else if req.isNewProduct && !NewProductComplete(req.newProductData) then Fail(MissingFields)
    else if req.isNewProduct && ProductModel.SkuInUse(products, req.newProductData.value.variantData.value.sku) then
      Fail(DuplicateSku)
    else match ParseType(req.txType)
      case None => Fail(ValidationFailed)
      case Some(ty) => CheckSave(NewRecord(req, ty, user))
  }

  /** `createTransaction`: on success a new Pending record is in the ledger; on failure the
      ledger is as it was. */
  method CreateTransaction(s: Store, req: TransactionRequest, user: Id) returns (r: Result<Id>)
    requires s.Valid()
    modifies s`nextId, s`transactions
    ensures s.Valid()
    ensures r.Ok? <==> CheckCreate(old(s.products), req, user) == Pass
    ensures r.Err? ==> r.error == CheckCreate(old(s.products), req, user).error
    ensures r.Err? ==> s.transactions == old(s.transactions)
    ensures r.Ok? ==>
      && r.value !in old(s.transactions)
      && s.transactions == old(s.transactions)[r.value := NewRecord(req, ParseType(req.txType).value, user)]
    ensures r.Ok? ==>
      var t := s.transactions[r.value];
      && t.status == Pending && t.approvedBy.None? && t.rejectionReason.None? && t.user == user
      && t.total_amount == (if req.total_amount.Some? then req.total_amount.value else 0)
      && (t.isNewProduct ==> t.product.None? && t.variant.None? && t.newProductData == req.newProductData)
      && (!t.isNewProduct ==> t.product == req.product && t.variant == req.variant && t.newProductData.None?)
  {
    if req.txType == [] || req.quantity == 0 {
      return Err(MissingFields);
    }
    if req.isNewProduct {
      if !NewProductComplete(req.newProductData) {
        return Err(MissingFields);
      }
      if ProductModel.SkuInUse(s.products, req.newProductData.value.variantData.value.sku) {
        return Err(DuplicateSku);
      }
    }
    var ty := ParseType(req.txType);
    if ty.None? {
      return Err(ValidationFailed);
    }
    var id := s.FreshId();
    var saved := s.SaveTransaction(id, NewRecord(req, ty.value, user));
    if saved.Fail? {
      return Err(saved.error);
    }
    r := Ok(id);
  }

  /** The status a review moves a record to. Only a Pending record can be reviewed, and
      only the two literal decisions are accepted. */
  function Review(status: TxStatus, decision: string): (r: Result<TxStatus>)
    ensures status != Pending ==> r == Err(NotPending)
    ensures r.Ok? <==> status == Pending && (decision == "Rejected" || decision == "Approved")
    ensures r.Ok? ==> r.value != Pending && (r.value == Rejected <==> decision == "Rejected")
  {
    if status != Pending then Err(NotPending)
    else if decision == "Rejected" then Ok(Rejected)
    else if decision == "Approved" then Ok(Approved)
    else Err(InvalidDecision)
  }

  /** A decided record is final: whatever decision a second review carries, it is refused. */
  lemma ReviewIsFinal(status: TxStatus, first: string, second: string)
    requires Review(status, first).Ok?
    ensures Review(Review(status, first).value, second) == Err(NotPending)
  {
  }

  /** `transaction.type === 'IN' ? quantity : -quantity`: the signed stock movement. */
  function QuantityChange(t: Transaction): int {
    if t.txType == IN then t.quantity else -t.quantity
  }

  /** What approving an existing-product record decides, before anything is written: the
      product must still exist, the variant must still be in it, and an outgoing movement
      must not exceed the variant's stock. On success, the product and the position of the
      variant whose stock moves. */
  function CheckApproveExisting(products: map<Id, ProductModel.Product>, t: Transaction): (r: Result<(Id, nat)>)
    requires t.product.Some? && t.variant.Some?
    ensures r.Ok? ==>
      && r.value.0 == t.product.value && r.value.0 in products
      && r.value.1 < |products[r.value.0].variants|
      && products[r.value.0].variants[r.value.1].id == t.variant.value
    ensures r == Err(ProductGone) <==> t.product.value !in products
    ensures r == Err(VariantGone) <==>
      t.product.value in products && forall v :: v in products[t.product.value].variants ==> v.id != t.variant.value
    ensures r.Ok? ==> ProductModel.FindVariant(products[r.value.0].variants, t.variant.value) == Some(r.value.1)
    ensures r == Err(InsufficientStock) <==>
      && t.product.value in products
      && var found := ProductModel.FindVariant(products[t.product.value].variants, t.variant.value);
         && found.Some? && t.txType == OUT
         && products[t.product.value].variants[found.value].stock_quantity < t.quantity
    ensures r.Ok? && t.txType == OUT ==> products[r.value.0].variants[r.value.1].stock_quantity >= t.quantity
    ensures r.Err? ==> r.error in {ProductGone, VariantGone, InsufficientStock}
  {
    var pid := t.product.value;
    if pid !in products then Err(ProductGone)
    else match ProductModel.FindVariant(products[pid].variants, t.variant.value)
      case None => Err(VariantGone)
      case Some(i) =>
        if t.txType == OUT && products[pid].variants[i].stock_quantity < t.quantity then Err(InsufficientStock)
        else Ok((pid, i))
  }

  /** An approved outgoing movement never takes a variant below zero, and when no variant of
      the product was below zero before, none is after and neither is its total stock. */
  lemma ApprovalKeepsStockNonNegative(products: map<Id, ProductModel.Product>, t: Transaction)
    requires t.product.Some? && t.variant.Some? && t.quantity >= 1
    requires CheckApproveExisting(products, t).Ok?
    ensures var (pid, i) := CheckApproveExisting(products, t).value;
            t.txType == OUT ==> ProductModel.AdjustStock(products[pid], i, QuantityChange(t)).variants[i].stock_quantity >= 0
    ensures var (pid, i) := CheckApproveExisting(products, t).value;
            var p := products[pid];
            var q := ProductModel.AdjustStock(p, i, QuantityChange(t));
            (forall j :: 0 <= j < |p.variants| ==> p.variants[j].stock_quantity >= 0) ==>
              (forall j :: 0 <= j < |q.variants| ==> q.variants[j].stock_quantity >= 0) && q.total_stock >= 0
  {
    var (pid, i) := CheckApproveExisting(products, t).value;
    var p := products[pid];
    var q := ProductModel.AdjustStock(p, i, QuantityChange(t));
    if forall j :: 0 <= j < |p.variants| ==> p.variants[j].stock_quantity >= 0 {
      forall j | 0 <= j < |q.variants| ensures q.variants[j].stock_quantity >= 0 {
        if j != i {
          assert q.variants[j] == p.variants[j];
        }
      }
      ProductModel.SumStockNonNegative(q.variants);
    }
  }

  /** Saves product `pid` with the stock of its variant at position `i` moved by `change`.
      The save always passes, and what is stored is `AdjustStock`. */
  method MoveStock(s: Store, pid: Id, i: nat, change: int)
    requires s.Valid() && pid in s.products && i < |s.products[pid].variants|
    modifies s`products
    ensures s.Valid()
    ensures s.products == old(s.products)[pid := ProductModel.AdjustStock(old(s.products[pid]), i, change)]
  {
    var p := s.products[pid];
    var v := p.variants[i];
    ProductModel.StockChangePassesSave(s.products, pid, i, change);
    var saved := s.SaveProduct(pid, p.(variants := p.variants[i := v.(stock_quantity := v.stock_quantity + change)]));
    assert saved == Pass;
  }

  /** The existing-product branch of `reviewTransaction`'s approval: on success the one
      variant's stock moves by the signed quantity, the product's total moves with it, and
      the record becomes Approved with its amount recomputed from the variant's current
      price. On failure nothing is written. */
  method ApproveExistingProduct(s: Store, id: Id, reviewer: Id) returns (r: Outcome)
    requires s.Valid() && id in s.transactions
    requires s.transactions[id].status == Pending && !s.transactions[id].isNewProduct
    modifies s`products, s`transactions
    ensures s.Valid()
    ensures var t := old(s.transactions[id]);
            var c := CheckApproveExisting(old(s.products), t);
            c.Err? ==> r == Fail(c.error) && s.products == old(s.products) && s.transactions == old(s.transactions)
    ensures var t := old(s.transactions[id]);
            var c := CheckApproveExisting(old(s.products), t);
            c.Ok? ==>
              var (pid, i) := c.value;
              var p := old(s.products[pid]);
              && r == Pass
              && s.products == old(s.products)[pid := ProductModel.AdjustStock(p, i, QuantityChange(t))]
              && s.products[pid].total_stock == p.total_stock + QuantityChange(t)
              && s.transactions == old(s.transactions)[id := t.(
                   status := Approved, approvedBy := Some(reviewer),
                   total_amount := p.variants[i].price * t.quantity)]
  {
    var t := s.transactions[id];
    assert Stored(t);
    var pid := t.product.value;
    if pid !in s.products {
      return Fail(ProductGone);
    }
    var p := s.products[pid];
    var found := ProductModel.FindVariant(p.variants, t.variant.value);
    if found.None? {
      return Fail(VariantGone);
    }
    var i := found.value;
    var amount := p.variants[i].price * t.quantity;
    var change := QuantityChange(t);
    if t.txType == OUT && p.variants[i].stock_quantity < t.quantity {
      return Fail(InsufficientStock);
    }
    var v := p.variants[i];
    MoveStock(s, pid, i, change);
    var approved := t.(status := Approved, approvedBy := Some(reviewer), total_amount := amount,
                       product := Some(pid), variant := Some(v.id));
    assert approved == t.(status := Approved, approvedBy := Some(reviewer), total_amount := amount);
    var recorded := s.SaveTransaction(id, approved);
    assert recorded == Pass;
    r := Pass;
  }

  /** What the category step of a new-product approval decides. `Category.findOne({ name })`
      sees the trimmed name (the trim setter runs on query filters too), so a category
      holding the trimmed name is reused; otherwise a new category is saved under the
      trimmed name, which only the `required` validator can refuse (the unique index cannot,
      since no category holds that name). */
  function CheckCategory(cats: map<Id, CategoryModel.Category>, name: string): (r: Outcome)
    ensures r == Pass <==> CategoryModel.NameTaken(cats, Trim(name)) || Trim(name) != []
    ensures r.Fail? ==> r == Fail(ValidationFailed)
  {
    if CategoryModel.NameTaken(cats, Trim(name)) then Pass
    else if Trim(name) == [] then Fail(ValidationFailed)
    else Pass
  }

  /** In a valid collection no category has the empty name, so the category step fails
      exactly for a category name made of white space. */
  lemma CategoryStepFailsOnlyOnBlank(cats: map<Id, CategoryModel.Category>, name: string)
    requires CategoryModel.CollectionValid(cats)
    ensures CheckCategory(cats, name) == Pass <==> Trim(name) != []
  {
  }

  /** `Category.findOne({ name })`, and `new Category({ name }).save()` when nothing matched.
      `cid` is the category found or created. */
  method FindOrCreateCategory(s: Store, name: string) returns (r: Outcome, cid: Id)
    requires s.Valid()
    modifies s`nextId, s`categories
    ensures s.Valid() && s.nextId >= old(s.nextId)
    ensures r == CheckCategory(old(s.categories), name)
    ensures CategoryModel.NameTaken(old(s.categories), Trim(name)) ==>
      cid in old(s.categories) && old(s.categories)[cid].name == Trim(name) && s.categories == old(s.categories)
    ensures !CategoryModel.NameTaken(old(s.categories), Trim(name)) ==>
      && cid !in old(s.categories)
      && s.categories == if r == Pass then old(s.categories)[cid := CategoryModel.Category(Trim(name), "")]
                         else old(s.categories)
    ensures r == Pass ==> cid in s.categories
  {
    if CategoryModel.NameTaken(s.categories, Trim(name)) {
      cid :| cid in s.categories && s.categories[cid].name == Trim(name);
      return Pass, cid;
    }
    cid := s.FreshId();
    assert CategoryModel.NameTakenByOther(s.categories, Trim(name), cid)
      <==> CategoryModel.NameTaken(s.categories, Trim(name));
    assert Trim([]) == [];
    r := s.SaveCategory(cid, CategoryModel.Category(name, ""));
  }

  /** The price a new variant is stored with: the record's price, or the variant schema's
      default of 0 when the record carries none. */
  function InitialPrice(vd: VariantData): int {
    if vd.price.Some? then vd.price.value else 0
  }

  /** The product, as stored, that a new-product approval creates in category `cid` for the
      record's filer `owner`, with the one variant `vid` holding the signed movement `stock`. */
  function CreatedProduct(np: NewProductData, cid: Id, vid: Id, owner: Id, stock: int): ProductModel.Product
    requires np.variantData.Some?
  {
    var vd := np.variantData.value;
    ProductModel.Product(Trim(np.name), np.brand, cid, [],
      [ProductModel.Variant(vid, vd.name, vd.sku, InitialPrice(vd), stock)], stock, owner)
  }

  /** What approving a new-product record decides: the category step, then the validators
      of the new product and its one variant, then the SKU index; last, a record without a
      price makes the recomputed amount `undefined * quantity`, which is NaN, and the Number
      cast of `total_amount` refuses it when the record is saved. */
  function CheckApproveNew(cats: map<Id, CategoryModel.Category>, products: map<Id, ProductModel.Product>, np: NewProductData): (r: Outcome)
    requires np.variantData.Some?
    ensures r == Pass <==>
      && CheckCategory(cats, np.categoryName) == Pass
      && Trim(np.name) != [] && np.variantData.value.name != [] && np.variantData.value.sku != []
      && !ProductModel.SkuInUse(products, np.variantData.value.sku)
      && np.variantData.value.price.Some?
    ensures r == Fail(DuplicateKey) <==>
      && CheckCategory(cats, np.categoryName) == Pass
      && Trim(np.name) != [] && np.variantData.value.name != [] && np.variantData.value.sku != []
      && ProductModel.SkuInUse(products, np.variantData.value.sku)
    ensures r.Fail? ==> r.error in {ValidationFailed, DuplicateKey}
  {
    var vd := np.variantData.value;
    var category := CheckCategory(cats, np.categoryName);
    if category.Fail? then category
    else if Trim(np.name) == [] || vd.name == [] || vd.sku == [] then Fail(ValidationFailed)
    else if ProductModel.SkuInUse(products, vd.sku) then Fail(DuplicateKey)
    else if vd.price.None? then Fail(ValidationFailed)
    else Pass
  }

  /** The product-creation step of a new-product approval: a new product in category `cid`,
      owned by the record's filer, with the one variant the record describes, whose stock is
      the signed movement `stock`. */
  method CreateProductWithVariant(s: Store, np: NewProductData, cid: Id, owner: Id, stock: int)
    returns (r: Outcome, pid: Id, vid: Id)
    requires s.Valid() && np.variantData.Some?
    modifies s`nextId, s`products
    ensures s.Valid() && s.nextId >= old(s.nextId)
    ensures r == (if Trim(np.name) == [] || np.variantData.value.name == [] || np.variantData.value.sku == []
                  then Fail(ValidationFailed)
                  else if ProductModel.SkuInUse(old(s.products), np.variantData.value.sku) then Fail(DuplicateKey)
                  else Pass)
    ensures r.Fail? ==> s.products == old(s.products)
    ensures r == Pass ==>
      && pid !in old(s.products)
      && s.products == old(s.products)[pid := CreatedProduct(np, cid, vid, owner, stock)]
  {
    var vd := np.variantData.value;
    pid := s.FreshId();
    var product := ProductModel.Product(np.name, np.brand, cid, [], [], 0, owner);
    vid := s.FreshId();
    var variant := ProductModel.Variant(vid, vd.name, vd.sku, InitialPrice(vd), stock);
    product := product.(variants := product.variants + [variant]);
    ProductModel.SingleVariantSave(s.products, pid, product);
    r := s.SaveProduct(pid, product);
  }

  /** The identities a new-product approval of payload `np` uses: the category that holds
      the trimmed category name when there is one, a category identity not yet in use
      otherwise, and a product identity not yet in use. */
  predicate ApprovalTargets(before: Snapshot, np: NewProductData, cid: Id, pid: Id) {
    && (CategoryModel.NameTaken(before.categories, Trim(np.categoryName)) ==>
          cid in before.categories && before.categories[cid].name == Trim(np.categoryName))
    && (!CategoryModel.NameTaken(before.categories, Trim(np.categoryName)) ==> cid !in before.categories)
    && pid !in before.products
  }

  /** The collections after new-product record `id` is approved by `reviewer`, using
      category `cid`, product `pid` and variant `vid`: the category is created unless the
      trimmed name is taken, the product with its one variant is created, and the record is
      Approved, points at the product and variant, and carries the recomputed amount. */
  function ApprovedNew(before: Snapshot, id: Id, reviewer: Id, cid: Id, pid: Id, vid: Id): (after: Snapshot)
    requires id in before.transactions && before.transactions[id].newProductData.Some?
    requires before.transactions[id].newProductData.value.variantData.Some?
    ensures var t := before.transactions[id];
            && id in after.transactions
            && after.transactions[id].status == Approved && after.transactions[id].approvedBy == Some(reviewer)
            && after.transactions[id].product == Some(pid) && after.transactions[id].variant == Some(vid)
            && pid in after.products && cid in after.categories
            && after.products[pid].category == cid
            && ProductModel.FindVariant(after.products[pid].variants, vid) == Some(0)
            && after.products[pid].total_stock == QuantityChange(t)
    ensures after.transactions.Keys == before.transactions.Keys
    ensures after.products.Keys == before.products.Keys + {pid}
  {
    var t := before.transactions[id];
    var np := t.newProductData.value;
    var vd := np.variantData.value;
    var name := Trim(np.categoryName);
    Snapshot(
      if CategoryModel.NameTaken(before.categories, name) && cid in before.categories then before.categories
      else before.categories[cid := CategoryModel.Category(name, "")],
      before.products[pid := CreatedProduct(np, cid, vid, t.user, QuantityChange(t))],
      before.transactions[id := t.(
        status := Approved, approvedBy := Some(reviewer), product := Some(pid), variant := Some(vid),
        total_amount := InitialPrice(vd) * t.quantity)])
  }

  /** With the identities chosen as `ApprovalTargets` says, the approved record's category
      is the one holding the trimmed name, no other category or product changes, and the
      amount is the record's price times its quantity. */
  lemma ApprovedNewLinks(before: Snapshot, id: Id, reviewer: Id, cid: Id, pid: Id, vid: Id)
    requires id in before.transactions && before.transactions[id].newProductData.Some?
    requires before.transactions[id].newProductData.value.variantData.Some?
    requires ApprovalTargets(before, before.transactions[id].newProductData.value, cid, pid)
    ensures var after := ApprovedNew(before, id, reviewer, cid, pid, vid);
            var np := before.transactions[id].newProductData.value;
            && after.categories[cid].name == Trim(np.categoryName)
            && (forall c :: c in before.categories ==> c in after.categories && after.categories[c] == before.categories[c])
            && (forall p :: p in before.products ==> after.products[p] == before.products[p])
            && (forall x :: x in before.transactions && x != id ==> after.transactions[x] == before.transactions[x])
            && (np.variantData.value.price.Some? ==>
                  after.transactions[id].total_amount == np.variantData.value.price.value * before.transactions[id].quantity)
  {
  }

  /** The new-product branch of `reviewTransaction`'s approval. `cid`, `pid` and `vid` are
      the category, product and variant the approval used or created. On failure the ledger
      is unchanged, but a category and a product may already have been created: the caller's
      session undoes them. */
  method ApproveNewProduct(s: Store, id: Id, reviewer: Id) returns (r: Outcome, cid: Id, pid: Id, vid: Id)
    requires s.Valid() && id in s.transactions
    requires s.transactions[id].status == Pending && s.transactions[id].isNewProduct
    modifies s
    ensures s.Valid() && s.users == old(s.users) && s.nextId >= old(s.nextId)
    ensures r == CheckApproveNew(old(s.categories), old(s.products), old(s.transactions[id]).newProductData.value)
    ensures var t := old(s.transactions[id]);
            var np := t.newProductData.value;
            var created := old(s.categories)[cid := CategoryModel.Category(Trim(np.categoryName), "")];
            r.Fail? ==>
              && s.transactions == old(s.transactions)
              && (s.categories == old(s.categories) || (cid !in old(s.categories) && s.categories == created))
              && (s.products == old(s.products)
                  || (pid !in old(s.products)
                      && s.products == old(s.products)[pid := CreatedProduct(np, cid, vid, t.user, QuantityChange(t))]))
    ensures r == Pass ==>
      var before := Snapshot(old(s.categories), old(s.products), old(s.transactions));
      && ApprovalTargets(before, old(s.transactions[id]).newProductData.value, cid, pid)
      && Snapshot(s.categories, s.products, s.transactions) == ApprovedNew(before, id, reviewer, cid, pid, vid)
  {
    var t := s.transactions[id];
    assert Stored(t);
    var np := t.newProductData.value;
    var vd := np.variantData.value;
    pid, vid := 0, 0;
    r, cid := FindOrCreateCategory(s, np.categoryName);
    if r.Fail? {
      return;
    }
    r, pid, vid := CreateProductWithVariant(s, np, cid, t.user, QuantityChange(t));
    if r.Fail? {
      return;
    }
    if vd.price.None? {
      // `undefined * quantity` is NaN, which the Number cast of `total_amount` refuses.
      r := Fail(ValidationFailed);
      return;
    }
    var approved := t.(status := Approved, approvedBy := Some(reviewer), product := Some(pid), variant := Some(vid),
                       total_amount := vd.price.value * t.quantity);
    var recorded := s.SaveTransaction(id, approved);
    assert recorded == Pass;
  }

  /** `reviewTransaction`: a Pending record is rejected or approved; anything else is
      refused. A refused or failed review changes no collection. */
  method ReviewTransaction(s: Store, id: Id, decision: string, rejectionReason: string, reviewer: Id) returns (r: Outcome)
    requires s.Valid()
    modifies s
    ensures s.Valid() && s.users == old(s.users)
    ensures r.Fail? ==>
      s.categories == old(s.categories) && s.products == old(s.products) && s.transactions == old(s.transactions)
    ensures id !in old(s.transactions) ==> r == Fail(NotFound)
    ensures id in old(s.transactions) && Review(old(s.transactions[id]).status, decision).Err? ==>
      r == Fail(Review(old(s.transactions[id]).status, decision).error)
    ensures r == Pass ==>
      && id in old(s.transactions)
      && id in s.transactions
      && Review(old(s.transactions[id]).status, decision) == Ok(s.transactions[id].status)
      && s.transactions[id].approvedBy == Some(reviewer)
      && s.transactions == old(s.transactions)[id := s.transactions[id]]
    ensures id in old(s.transactions) && Review(old(s.transactions[id]).status, decision) == Ok(Rejected) ==>
      && r == Pass
      && s.categories == old(s.categories) && s.products == old(s.products)
      && s.transactions[id] == old(s.transactions[id]).(
           status := Rejected, approvedBy := Some(reviewer),
           rejectionReason := Some(Trim(if rejectionReason == [] then DefaultRejectionReason else rejectionReason)))
    ensures id in old(s.transactions) && Review(old(s.transactions[id]).status, decision) == Ok(Approved)
            && !old(s.transactions[id]).isNewProduct ==>
      var t := old(s.transactions[id]);
      var c := CheckApproveExisting(old(s.products), t);
      && (c.Err? ==> r == Fail(c.error))
      && (c.Ok? ==>
            && r == Pass && s.categories == old(s.categories)
            && s.products == old(s.products)[c.value.0 := ProductModel.AdjustStock(old(s.products[c.value.0]), c.value.1, QuantityChange(t))]
            && s.transactions[id] == t.(status := Approved, approvedBy := Some(reviewer),
                 total_amount := old(s.products[c.value.0]).variants[c.value.1].price * t.quantity))
    ensures id in old(s.transactions) && Review(old(s.transactions[id]).status, decision) == Ok(Approved)
            && old(s.transactions[id]).isNewProduct ==>
      var before := Snapshot(old(s.categories), old(s.products), old(s.transactions));
      && r == CheckApproveNew(old(s.categories), old(s.products), old(s.transactions[id]).newProductData.value)
      && (r == Pass ==> exists cid, pid, vid ::
            && ApprovalTargets(before, old(s.transactions[id]).newProductData.value, cid, pid)
            && Snapshot(s.categories, s.products, s.transactions) == ApprovedNew(before, id, reviewer, cid, pid, vid))
  {
    if id !in s.transactions {
      return Fail(NotFound);
    }
    var t := s.transactions[id];
    assert Stored(t);
    if t.status != Pending {
      return Fail(NotPending);
    }
    if decision == "Rejected" {
      var reason := if rejectionReason == [] then DefaultRejectionReason else rejectionReason;
      var rejected := t.(status := Rejected, rejectionReason := Some(Trim(reason)), approvedBy := Some(reviewer));
      var recorded := s.SaveTransaction(id, rejected);
      assert recorded == Pass;
      return Pass;
    }
    if decision == "Approved" {
      var session := s.Begin();
      if t.isNewProduct {
        var cid, pid, vid;
        r, cid, pid, vid := ApproveNewProduct(s, id, reviewer);
      } else {
        r := ApproveExistingProduct(s, id, reviewer);
      }
      if r.Fail? {
        s.Abort(session);
      }
      return;
    }
    r := Fail(InvalidDecision);
  }

  const UnknownProduct: string := "[Sản phẩm không xác định]"
  const UnknownVariant: string := "[Phiên bản không xác định]"
  const NewProductName: string := "[Sản phẩm mới]"
  const NewVariantName: string := "[Phiên bản mới]"
  const DeletedVariant: string := "[Phiên bản đã bị xóa]"
  const DeletedProduct: string := "[Sản phẩm đã bị xóa]"

  /** The product and variant names `getTransactions` shows for a record. A new-product
      record shows its payload's names, or placeholders for empty ones. A record whose product
      still exists shows the product's name and the name of its first variant with the
      record's variant identity, or the deleted-variant placeholder when there is none. A
      reference to a product that no longer exists populates to nothing. */
  function DisplayNames(t: Transaction, products: map<Id, ProductModel.Product>): (r: (string, string))
    requires t.isNewProduct ==> t.newProductData.Some? && t.newProductData.value.variantData.Some?
    ensures t.isNewProduct ==>
      var np := t.newProductData.value;
      && (np.name != [] ==> r.0 == np.name)
      && (np.name == [] ==> r.0 == NewProductName)
      && (np.variantData.value.name != [] ==> r.1 == np.variantData.value.name)
      && (np.variantData.value.name == [] ==> r.1 == NewVariantName)
    ensures !t.isNewProduct && t.product.Some? && t.product.value in products ==>
      var vs := products[t.product.value].variants;
      && r.0 == products[t.product.value].name
      && (forall k :: 0 <= k < |vs| && Some(vs[k].id) == t.variant && (forall j :: 0 <= j < k ==> vs[j].id != vs[k].id) ==>
            r.1 == vs[k].name)
      && ((forall k :: 0 <= k < |vs| ==> Some(vs[k].id) != t.variant) ==> r.1 == DeletedVariant)
    ensures !t.isNewProduct && (t.product.None? || t.product.value !in products) ==>
      && r.1 == UnknownVariant
      && (t.status == Pending ==> r.0 == DeletedProduct)
      && (t.status != Pending ==> r.0 == UnknownProduct)
  {
    if t.isNewProduct then
      var np := t.newProductData.value;
      (if np.name != [] then np.name else NewProductName,
       if np.variantData.value.name != [] then np.variantData.value.name else NewVariantName)
    else if t.product.Some? && t.product.value in products then
      var p := products[t.product.value];
      var found := if t.variant.Some? then ProductModel.FindVariant(p.variants, t.variant.value) else None;
      (p.name, if found.Some? then p.variants[found.value].name else DeletedVariant)
    else if t.status == Pending then
      (DeletedProduct, UnknownVariant)
    else
      (UnknownProduct, UnknownVariant)
  }

  /** Every ledger row shows a non-empty product name and a non-empty variant name. */
  lemma DisplayNamesNonEmpty(t: Transaction, products: map<Id, ProductModel.Product>)
    requires Stored(t) && ProductModel.CollectionValid(products)
    ensures DisplayNames(t, products).0 != [] && DisplayNames(t, products).1 != []
  {
    if !t.isNewProduct && t.product.Some? && t.product.value in products {
      var p := products[t.product.value];
      assert ProductModel.Stored(p);
    }
  }
}
