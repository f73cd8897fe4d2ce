# Inventory approval engine — a Dafny model

This project models the server core of a warehouse inventory application (Node.js,
Express, mongoose over MongoDB). The data it keeps:

- categories;
- products, each with an embedded list of variants (SKU, price, stock);
- users with roles;
- a ledger of stock movements.

A warehouse manager never changes stock directly. They file a movement (`IN` or `OUT`)
as a *Pending* ledger record, either for an existing variant or for a product that does
not exist yet. An administrator then rejects it or approves it:
- an approval of an existing-product record moves that variant's stock by ±quantity;
- an approval of a new-product record creates the category (when no category has the
  trimmed name), the product and its single variant.

An approval runs inside a database session, so it either completes or changes nothing.

The model follows the program's structure, one module per source file:

- **`Common`**: identities, `Option`, `Result`, and the error taxonomy with the HTTP status of each error.
- **`Strings`**: JavaScript's `String.prototype.trim`, which the schemas' `trim: true` setters apply.
- **`CategoryModel`, `ProductModel`, `TransactionModel`, `UserModel`**: the records. Each
  has what `save()` decides (validators, pre-save hooks, unique indexes) and the
  invariant of its collection.
  - The derived `total_stock` is the sum of the variants' stock.
  - Category names are unique and trimmed.
  - No SKU is shared by two products, and at most one product has no variants (the
    unique index holds a null key for it).
  - User emails are unique.
  - A ledger record carries the payload its `isNewProduct` flag asks for.
- **`Database`**: a `Store` class with one map per collection and a counter for fresh
  identities.
  - Its save primitives apply exactly the rules above.
  - `Begin`/`Abort` take and restore a snapshot, the way a session's abort rolls back.
  - `Valid()` is the conjunction of the four collection invariants. Every operation
    preserves it.
- **`InventoryController`**: `createTransaction`, `reviewTransaction` (reject,
  approve-existing, approve-new, and the abort on any failure) and the display names of
  the ledger listing.
- **`ProductController`, `CategoryController`, `UserController`**: the create, update and
  delete guards and field merges, the paging arithmetic, and the per-category product
  count.
- **`AuthMiddleware`, `CsrfMiddleware`**: the role gates and the double-submit CSRF
  comparison.

Two behaviours of the code are worth knowing when reading the contracts. The delete guard
of a product reads only `total_stock`. Approving an `OUT` record for a new product creates
a variant with negative stock. So a product can be deleted while one of its variants still
holds stock: `ProductController.DeletableWhileVariantHoldsStock` exhibits it, and
`ProductController.DeletableHoldsNothing` shows that this needs a negative variant. The
update endpoint of a product also replaces the variant list wholesale, so it can set stock
without going through the ledger. The save hook still recomputes the total.

## Model

| member | source | states |
|---|---|---|
| Strings.TrimStartSpec | backend/models/ProductModel.js:16 | the trimmed-from-the-left value is a suffix, begins with a non-space, and only white space was dropped |
| Strings.TrimEndSpec | backend/models/ProductModel.js:16 | the trimmed-from-the-right value is a prefix, ends with a non-space, and only white space was dropped |
| Strings.TrimSpec | backend/models/CategoryModel.js:8 | the trim setter keeps a contiguous piece of the value with no white space at either end |
| Strings.TrimIdempotent | backend/models/CategoryModel.js:8 | trimming a trimmed value changes nothing |
| Strings.TrimEmptyIffAllSpace | backend/models/CategoryModel.js:7-8 | a value fails `required` after trimming exactly when it is all white space |
| Strings.TrimOfTrimmed | backend/models/CategoryModel.js:13 | a value without white space at its ends is stored as given |
| CategoryModel.CheckSave | backend/models/CategoryModel.js:5-10 | a category saves iff its trimmed name is non-empty and no other category holds it; otherwise ValidationFailed or DuplicateKey |
| CategoryModel.SavePreservesValid | backend/models/CategoryModel.js:5-14 | a passing save stores a trimmed category and keeps names unique |
| CategoryModel.SaveKeepsNamesUnique | backend/models/CategoryModel.js:9 | writing a name no other category holds keeps the unique index satisfied |
| CategoryModel.LookupUnique | backend/models/CategoryModel.js:9 | with unique names an exact-name lookup names at most one category |
| CategoryModel.NormalizeStored | backend/models/CategoryModel.js:8-13 | re-saving a stored category leaves it unchanged |
| ProductModel.CheckSave | backend/models/ProductModel.js:5-39 | a product saves iff its trimmed name is non-empty, every variant has a name and SKU, and no other product shares an index key with it: a SKU, or the null key of a product without variants |
| ProductModel.IndexKeys | backend/models/ProductModel.js:7 | a product's keys in the unique index on `variants.sku` are its SKUs, plus the null key exactly when it has no variants |
| ProductModel.IndexKeysDisjoint | backend/models/ProductModel.js:7 | two products share no index key iff they share no SKU and are not both without variants |
| ProductModel.NoSecondProductWithoutVariants | backend/models/ProductModel.js:7 | while another product has no variants, a product without variants cannot be saved |
| ProductModel.SavePreservesValid | backend/models/ProductModel.js:42-45 | what a passing save stores has `total_stock` equal to the sum of variant stock, and the collection stays valid |
| ProductModel.SumStockReplace | backend/models/ProductModel.js:43 | replacing one variant changes the sum by exactly the difference of the two stocks |
| ProductModel.SumStockAppend | backend/models/ProductModel.js:43 | appending a variant adds its stock to the sum |
| ProductModel.SumStockNonNegative | backend/models/ProductModel.js:43 | non-negative variant stocks give a non-negative total |
| ProductModel.AssignedTotalOverwritten | backend/models/ProductModel.js:42-45 | a `total_stock` assigned directly is overwritten by the sum at save |
| ProductModel.EmptyProductHasNoStock | backend/models/ProductModel.js:43 | a product without variants saves with total 0 |
| ProductModel.FindVariant | backend/controllers/inventoryController.js:127 | finds the first variant with the given id, or reports that none has it |
| ProductModel.AdjustStock | backend/controllers/inventoryController.js:140-141 | only the chosen variant's stock moves, by delta, and the saved total moves by the same delta |
| ProductModel.AdjustStockKeepsStored | backend/controllers/inventoryController.js:140-141 | a stock move keeps the product valid and leaves its name, SKUs and other fields as they were |
| ProductModel.StockChangePassesSave | backend/controllers/inventoryController.js:140-141 | the save after a stock move always passes and stores `AdjustStock` |
| ProductModel.SingleVariantSave | backend/controllers/inventoryController.js:96-117 | a new one-variant product is refused by the validators or by a SKU already in use, and otherwise saves with total equal to the variant's stock |
| TransactionModel.ParseType | backend/models/InventoryTransactionModel.js:5 | only "IN" and "OUT" are movement types |
| TransactionModel.CheckSave | backend/models/InventoryTransactionModel.js:41-52 | a record saves iff quantity is at least 1 and its flag's payload is complete (new product: name, category name, variant data, SKU; otherwise product and variant) |
| UserModel.CheckSave | backend/models/UserModel.js:5-11 | a user saves iff name, email and password are present and no other user has the email |
| UserModel.SavePreservesValid | backend/models/UserModel.js:7 | a passing save keeps emails unique |
| Database.Store.FreshId | backend/controllers/inventoryController.js:110 | a new identity is in no collection |
| Database.Store.SaveCategory | backend/models/CategoryModel.js:4-15 | the store changes exactly when `CategoryModel.CheckSave` passes, and then holds the trimmed category |
| Database.Store.SaveProduct | backend/models/ProductModel.js:42-45 | the store changes exactly when `ProductModel.CheckSave` passes, and then holds the product with its total recomputed |
| Database.Store.SaveTransaction | backend/models/InventoryTransactionModel.js:41-52 | the ledger changes exactly when `TransactionModel.CheckSave` passes |
| Database.Store.SaveUser | backend/models/UserModel.js:5-11 | the users change exactly when `UserModel.CheckSave` passes |
| Database.Store.DeleteProduct | backend/controllers/productController.js:163 | removes exactly that product |
| Database.Store.DeleteCategory | backend/controllers/categoryController.js:127 | removes exactly that category |
| Database.Store.DeleteUser | backend/controllers/userController.js:228 | removes exactly that user |
| Database.Store.Begin | backend/controllers/inventoryController.js:78-79 | the session remembers the three collections, and restoring them keeps the store valid |
| Database.Store.Abort | backend/controllers/inventoryController.js:155-156 | categories, products and ledger return to the session's snapshot |
| InventoryController.CheckCreate | backend/controllers/inventoryController.js:15-45 | missing type or zero quantity, or an incomplete new-product payload, is MissingFields; DuplicateSku iff a complete new-product request names a SKU some product carries; a passing request yields a valid Pending record |
| InventoryController.CreateTransaction | backend/controllers/inventoryController.js:10-48 | on success exactly one new Pending record with `total_amount` as sent or 0, and `product`/`variant` or `newProductData` per the flag; on failure the ledger is unchanged |
| InventoryController.Review | backend/controllers/inventoryController.js:62-165 | only a Pending record is reviewed, only the two literal decisions are accepted, and the result is never Pending |
| InventoryController.ReviewIsFinal | backend/controllers/inventoryController.js:62-65 | a reviewed record refuses any second review |
| InventoryController.CheckApproveExisting | backend/controllers/inventoryController.js:123-138 | ProductGone iff the product is missing; VariantGone iff no variant has the id; InsufficientStock iff an OUT exceeds the stock of the first variant with that id; on success that first variant's position |
| InventoryController.MoveStock | backend/controllers/inventoryController.js:139-141 | saving a stored product with one variant's stock moved always passes, and stores exactly `AdjustStock` |
| InventoryController.ApprovalKeepsStockNonNegative | backend/controllers/inventoryController.js:133-140 | an approved OUT leaves the variant at or above zero, and a product with no negative variant keeps none and a non-negative total |
| InventoryController.ApproveExistingProduct | backend/controllers/inventoryController.js:123-150 | on failure nothing changes; on success exactly one variant moves by ±quantity, the total moves with it, and the record is Approved with amount = current price × quantity |
| InventoryController.CheckCategory | backend/controllers/inventoryController.js:89-93 | the lookup sees the trimmed name, so a category holding it is reused; otherwise the new category fails, with ValidationFailed, only when its name trims to nothing |
| InventoryController.CategoryStepFailsOnlyOnBlank | backend/controllers/inventoryController.js:89-93 | in a valid collection the category step fails exactly for a blank category name |
| InventoryController.FindOrCreateCategory | backend/controllers/inventoryController.js:89-93 | returns the category holding the trimmed name with the collection unchanged, or creates exactly one new category under the trimmed name |
| InventoryController.CheckApproveNew | backend/controllers/inventoryController.js:85-150 | passes iff the category step passes, the product and variant validators pass, the SKU is unused and the record carries a price; DuplicateKey iff only the SKU is in use; a missing price makes the amount NaN and is ValidationFailed |
| InventoryController.CreateProductWithVariant | backend/controllers/inventoryController.js:96-117 | validators, then the SKU index, decide; on success exactly one new product with one variant (submitted name and SKU, the price or the schema default 0, signed stock), owned by the filer |
| InventoryController.ApprovedNew | backend/controllers/inventoryController.js:85-150 | after a new-product approval the record is Approved by the reviewer and points at the new product and its one variant, whose total is the signed quantity and whose category is the one used |
| InventoryController.ApprovedNewLinks | backend/controllers/inventoryController.js:89-150 | the category used holds the trimmed name; no other category, product or record changes; the amount is price × quantity |
| InventoryController.ApproveNewProduct | backend/controllers/inventoryController.js:85-150 | on success the collections are exactly `ApprovedNew`, with the category reused when the trimmed name is taken and fresh identities otherwise; on failure the ledger is unchanged and at most the new category and product were added |
| InventoryController.ReviewTransaction | backend/controllers/inventoryController.js:53-166 | NotFound, NotPending and InvalidDecision change nothing; rejection records reviewer and reason (or the default text) and touches no product; any approval failure leaves every collection as it was; an approved existing-product record moves exactly one variant; an approved new-product record leaves exactly `ApprovedNew` |
| InventoryController.DisplayNames | backend/controllers/inventoryController.js:182-200 | new-product rows show the payload's names or placeholders; rows of a live product show its name and the name of its first variant with the record's variant id, or "deleted variant" when none has it; rows of a gone product show "unknown variant", and "deleted product" when Pending, "unknown product" otherwise |
| InventoryController.DisplayNamesNonEmpty | backend/controllers/inventoryController.js:182-200 | every ledger row shows non-empty product and variant names |
| ProductController.PageSize | backend/controllers/productController.js:11 | page size is 10 unless the query parses to a non-zero number |
| ProductController.PageNumber | backend/controllers/productController.js:12 | page is 1 unless the query parses to a non-zero number |
| ProductController.PagesIsCeiling | backend/controllers/productController.js:47 | `pages` is the ceiling of count / pageSize, for either sign of pageSize |
| ProductController.EveryItemOnAReportedPage | backend/controllers/productController.js:40-47 | with a positive page size each item lies on exactly one page, between 1 and `pages` |
| ProductController.GetProductById | backend/controllers/productController.js:57-68 | the stored product, or NotFound |
| ProductController.CheckCreateAsWritten | backend/controllers/productController.js:80-95 | the guards as written: required fields, non-empty SKUs, no SKU on a stored product |
| ProductController.RepeatedSkuAccepted | backend/controllers/productController.js:85-107 | a request whose two variants share a SKU passes the guards and the save |
| ProductController.CheckCreate | backend/controllers/productController.js:80-95 | the corrected guard: as written, and additionally the submitted SKUs are pairwise distinct |
| ProductController.CreateProduct | backend/controllers/productController.js:75-109 | on success exactly the submitted product, owned by the caller, total computed, SKUs distinct and disjoint from every other product's; on failure nothing stored |
| ProductController.MergeIdempotent | backend/controllers/productController.js:122-127 | applying the same update twice equals applying it once |
| ProductController.EmptyUpdateKeepsProduct | backend/controllers/productController.js:122-129 | an update that supplies nothing stores the product unchanged |
| ProductController.UpdateProduct | backend/controllers/productController.js:116-135 | NotFound for unknown ids; each field replaced only when supplied, owner kept, total recomputed; on failure nothing changes |
| ProductController.CheckDelete | backend/controllers/productController.js:149-152 | deletion is refused iff `total_stock` is positive |
| ProductController.DeletableHoldsNothing | backend/controllers/productController.js:149 | with no negative variant, a deletable product holds no stock in any variant |
| ProductController.DeletableWhileVariantHoldsStock | backend/controllers/productController.js:149 | a product with variants +5 and −5 passes the guard |
| ProductController.DeleteProduct | backend/controllers/productController.js:142-170 | NotFound, or refused and kept while stock is positive, or removed |
| CategoryController.ProductCountZeroIff | backend/controllers/categoryController.js:52 | a category's product count is zero iff no product references it |
| CategoryController.CheckCreate | backend/controllers/categoryController.js:14-27 | the lookup sees the trimmed name, so DuplicateName iff the trimmed name is in use; otherwise only a blank name fails; the unique index never refuses |
| CategoryController.CreateCategory | backend/controllers/categoryController.js:11-29 | on success exactly one new category, trimmed; on failure nothing inserted |
| CategoryController.GetCategoryById | backend/controllers/categoryController.js:69-78 | the stored category, or NotFound |
| CategoryController.KeepingOwnNameAllowed | backend/controllers/categoryController.js:92-102 | resubmitting a category's own name is no clash and the save passes |
| CategoryController.UpdateCategory | backend/controllers/categoryController.js:85-108 | NotFound; DuplicateName iff another category holds the trimmed name; otherwise the merged, trimmed fields are saved, keeping old values when none is supplied, and only a supplied blank name fails |
| CategoryController.CheckDelete | backend/controllers/categoryController.js:120-124 | deletion is refused iff some product references the category |
| CategoryController.DeleteCategory | backend/controllers/categoryController.js:115-134 | NotFound, or refused and kept while referenced, or removed with no product left referencing it |
| UserController.CheckCreate | backend/controllers/userController.js:128-147 | all four fields are required; an email in use is DuplicateEmail |
| UserController.CreateUserByAdmin | backend/controllers/userController.js:125-163 | on success exactly one new user with the submitted fields; on failure no user created |
| UserController.RoleAfterUpdate | backend/controllers/userController.js:182-195 | an admin's own role never changes (a different one is SelfRoleChange); another user's role becomes the requested one |
| UserController.UpdateUserByAdmin | backend/controllers/userController.js:171-209 | NotFound; SelfRoleChange changes nothing; otherwise name and email kept unless supplied, password replaced only when supplied, saved unless the email is another user's |
| UserController.DeleteUser | backend/controllers/userController.js:216-235 | NotFound; deleting oneself is refused; any other user is removed, and the requester always remains |
| UserController.CheckPasswordChange | backend/controllers/userController.js:52-80 | passes iff the current password matches and the new one does not; afterwards the new one opens the account and the old one does not |
| UserController.ChangePassword | backend/controllers/userController.js:41-90 | both passwords required, then NotFound, then WrongPassword or SamePassword; every failure leaves the password unchanged; success changes only the credential |
| UserController.UpdateUserProfile | backend/controllers/userController.js:21-37 | NotFound, or name and phone replaced only when supplied and nothing else changed |
| AuthMiddleware.IsAdmin | backend/middlewares/authMiddleware.js:49-57 | passes iff a user with a role named exactly "Admin" is present, else Forbidden; every admin also passes `IsWarehouseManager` |
| AuthMiddleware.IsWarehouseManager | backend/middlewares/authMiddleware.js:62-70 | passes iff the role is "Admin" or "Nhân viên Kho"; a missing user or role is Forbidden |
| AuthMiddleware.WarehouseStaffAreNotAdmins | backend/middlewares/authMiddleware.js:64 | the warehouse gate admits beyond the admin gate exactly the warehouse role |
| CsrfMiddleware.ProtectCsrf | backend/middlewares/csrfMiddleware.js:4-14 | passes iff both tokens are present, non-empty and equal; a missing or empty token or a mismatch is Forbidden |
| CsrfMiddleware.ProtectCsrfSymmetric | backend/middlewares/csrfMiddleware.js:8 | swapping cookie and header does not change the verdict |

## Left out

- Persistence is modelled as in-memory maps. MongoDB queries, `populate`, sorting, timestamps, and the regex keyword filters of the listings are not modelled.
- Concurrency is not modelled. `reviewTransaction` checks Pending before its session opens. Each operation is modelled as one atomic step, so that race is not represented.
- Excel export and import, the report controller, JWT sign-in and verification (`protect`), and the frontend are not part of this model.
- Password hashing is abstracted. A credential stands for the hash of its secret, and `matchPassword` compares secrets.
- UserController.UpdateUserProfile: the user pre-save hook calls `next()` without returning when the password is unmodified (backend/models/UserModel.js:15-17). It then re-hashes the stored hash on every save. The model keeps the credential unchanged on such saves, because the effect depends on bcrypt and on the hook's asynchronous timing.
- UserController.UpdateUserByAdmin: same re-hashing caveat as `UpdateUserProfile`, when no new password is supplied.
- Database.Store.Abort restores the three collections but not the identity counter. Identities handed out during an aborted session stay unused, as ObjectIds generated on the client would.
- Prices and quantities are JavaScript numbers. They are modelled as unbounded integers, so floating-point rounding in `price × quantity` is not captured. A variant without a price or stock gets the schema default 0. A new-product record without a price makes the approval's amount NaN, which the save refuses (modelled as ValidationFailed), so that approval aborts. A price stored as null, rather than left out, is not distinguished from a missing one.
- A missing string is modelled as the empty string. Both are falsy, and the guards treat them alike.
- CategoryController.CheckCreate and CategoryController.UpdateCategory model a request without a name as a lookup for the (trimmed) empty name. That lookup matches no stored category. How the driver serialises an `undefined` filter value is not modelled.
- Variant identities in a create or update request are taken as given. Mongoose would assign fresh ones.
- The `image` field of category and product requests is dropped, as mongoose's strict schemas drop it.
- The ledger listing is modelled per row (`DisplayNames`). The list itself, ordered by creation time, is not modelled. The category listing is modelled as the per-category count (`ProductCount`).
- Strings are compared by code point. JavaScript compares UTF-16 code units, which gives the same equality.

## Findings

| source | as written | input that shows it | evidently intended | confidence | as-written member | corrected member |
|---|---|---|---|---|---|---|
| backend/controllers/productController.js:85-95 | `createProduct` checks each submitted SKU only against stored products. The unique multikey index on `variants.sku` compares documents, not the entries of one document's array. So a new product can repeat a SKU across its own variants. | one request with two variants both carrying SKU "SKU-1", sent to an empty catalog | a request whose variants repeat a SKU is refused with a duplicate-SKU error, as the comment at line 85 announces | not executed | ProductController.RepeatedSkuAccepted | ProductController.CheckCreate |
