/** The stock-movement ledger record: its enums and defaults, the `min: 1` validator on
    `quantity`, and the pre-save hook that demands the payload shape `isNewProduct` calls for. */
module TransactionModel {
  import opened Common

  /** `type`: enum ['IN', 'OUT']. */
  datatype TxType = IN | OUT

  /** `status`: enum ['Pending', 'Approved', 'Rejected'], default 'Pending'. */
  datatype TxStatus = Pending | Approved | Rejected

  /** The variant descriptor of a new-product record; absent strings are empty and an
      absent price is None. */
  datatype VariantData = VariantData(name: string, sku: string, price: Option<int>)

  /** The new-product payload; absent strings are empty. */
  datatype NewProductData = NewProductData(
    name: string,
    brand: string,
    categoryName: string,
    variantData: Option<VariantData>)

  /** A ledger record. The trim setters of `notes` and `rejectionReason` run when the
      controller assigns them. */
  datatype Transaction = Transaction(
    txType: TxType,
    quantity: int,
    notes: string,
    user: Id,
    status: TxStatus,
    approvedBy: Option<Id>,
    rejectionReason: Option<string>,
    total_amount: int,
    isNewProduct: bool,
    product: Option<Id>,
    variant: Option<Id>,
    newProductData: Option<NewProductData>)

  /** The enum validator on `type`: only the two literal values are accepted. */
  function ParseType(s: string): (r: Option<TxType>)
    ensures r == Some(IN) <==> s == "IN"
    ensures r == Some(OUT) <==> s == "OUT"
  {
    if s == "IN" then Some(IN) else if s == "OUT" then Some(OUT) else None
  }

  /** The payload the pre-save hook demands: a new-product record needs the product name,
      the category name, a variant descriptor and its SKU; any other record needs both the
      product and the variant reference. */
  predicate PayloadComplete(t: Transaction) {
    if t.isNewProduct then NewProductComplete(t.newProductData) else t.product.Some? && t.variant.Some?
  }

  /** A new-product payload with its product name, category name, variant descriptor and SKU. */
  predicate NewProductComplete(np: Option<NewProductData>) {
    && np.Some?
    && np.value.name != []
    && np.value.categoryName != []
    && np.value.variantData.Some?
    && np.value.variantData.value.sku != []
  }

  /** Exactly one of the two payload shapes is present. */
  predicate PayloadExclusive(t: Transaction) {
    if t.isNewProduct then t.product.None? && t.variant.None? else t.newProductData.None?
  }

  /** What `transaction.save()` decides: schema validation (`quantity` at least 1) runs
      before the pre-save hook. */
  function CheckSave(t: Transaction): (r: Outcome)
    ensures r == Pass <==> t.quantity >= 1 && PayloadComplete(t)
    ensures r == Fail(ValidationFailed) <==> t.quantity < 1
  {
    if t.quantity < 1 then Fail(ValidationFailed)
    else if !PayloadComplete(t) then Fail(InvalidPayload)
    else Pass
  }

  /** A record as the ledger holds it. A Pending record carries exactly the payload its
      flag asks for; an approved new-product record also carries the product and variant
      it created. */
  predicate Stored(t: Transaction) {
    t.quantity >= 1 && PayloadComplete(t)
    && (t.status == Pending ==> PayloadExclusive(t) && t.approvedBy.None? && t.rejectionReason.None?)
    && (t.status == Approved ==> t.approvedBy.Some? && t.product.Some? && t.variant.Some?)
    && (t.status == Rejected ==> t.approvedBy.Some? && t.rejectionReason.Some?)
  }

  predicate LedgerValid(txs: map<Id, Transaction>) {
    forall id :: id in txs ==> Stored(txs[id])
  }
}
