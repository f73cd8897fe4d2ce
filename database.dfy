/** The MongoDB database the controllers work on: four collections held as maps from
    document identity to document, and a counter that hands out fresh identities. Each save
    primitive applies what mongoose applies on `save()`: the setters, the validators, the
    hooks and the unique indexes. */
module Database {
  import opened Common
  import CategoryModel
  import ProductModel
  import TransactionModel
  import UserModel

  /** The state a multi-document session can roll back to. */
  datatype Snapshot = Snapshot(
    categories: map<Id, CategoryModel.Category>,
    products: map<Id, ProductModel.Product>,
    transactions: map<Id, TransactionModel.Transaction>)

  class Store {
    var categories: map<Id, CategoryModel.Category>
    var products: map<Id, ProductModel.Product>
    var transactions: map<Id, TransactionModel.Transaction>
    var users: map<Id, UserModel.User>
    var nextId: Id

    /** Every identity in use was handed out by the counter. */
    ghost predicate IdsIssued()
      reads this
    {
      && (forall id :: id in categories ==> id < nextId)
      && (forall id :: id in products ==> id < nextId)
      && (forall id :: id in transactions ==> id < nextId)
      && (forall id :: id in users ==> id < nextId)
    }

    /** The collections' invariants: validators, unique indexes, the derived `total_stock`
        and the ledger's record shapes. */
    ghost predicate Valid()
      reads this
    {
      && CategoryModel.CollectionValid(categories)
      && ProductModel.CollectionValid(products)
      && TransactionModel.LedgerValid(transactions)
      && UserModel.CollectionValid(users)
      && IdsIssued()
    }

    constructor ()
      ensures Valid()
      ensures categories == map[] && products == map[] && transactions == map[] && users == map[]
    {
      categories, products, transactions, users := map[], map[], map[], map[];
      nextId := 0;
    }

    /** A new document identity (`new mongoose.Types.ObjectId()`), never handed out before. */
    method FreshId() returns (id: Id)
      requires Valid()
      modifies this`nextId
      ensures Valid()
      ensures id == old(nextId) && nextId == old(nextId) + 1
      ensures id !in categories && id !in products && id !in transactions && id !in users
    {
      id := nextId;
      nextId := nextId + 1;
    }

    /** `category.save()` of document `id`. */
    method SaveCategory(id: Id, c: CategoryModel.Category) returns (r: Outcome)
      requires Valid() && id < nextId
      modifies this`categories
      ensures Valid()
      ensures r == CategoryModel.CheckSave(old(categories), id, c)
      ensures categories == if r == Pass then old(categories)[id := CategoryModel.Normalize(c)] else old(categories)
    {
      r := CategoryModel.CheckSave(categories, id, c);
      if r == Pass {
        CategoryModel.SavePreservesValid(categories, id, c);
        categories := categories[id := CategoryModel.Normalize(c)];
      }
    }

    /** `product.save()` of document `id`. */
    method SaveProduct(id: Id, p: ProductModel.Product) returns (r: Outcome)
      requires Valid() && id < nextId
      modifies this`products
      ensures Valid()
      ensures r == ProductModel.CheckSave(old(products), id, p)
      ensures products == if r == Pass then old(products)[id := ProductModel.PreSave(p)] else old(products)
    {
      r := ProductModel.CheckSave(products, id, p);
      if r == Pass {
        ProductModel.SavePreservesValid(products, id, p);
        products := products[id := ProductModel.PreSave(p)];
      }
    }

    /** `transaction.save()` of document `id`. The validators and the pre-save hook decide;
        the caller guarantees the record has the shape the ledger keeps for its status. */
    method SaveTransaction(id: Id, t: TransactionModel.Transaction) returns (r: Outcome)
      requires Valid() && id < nextId
      requires TransactionModel.CheckSave(t) == Pass ==> TransactionModel.Stored(t)
      modifies this`transactions
      ensures Valid()
      ensures r == TransactionModel.CheckSave(t)
      ensures transactions == if r == Pass then old(transactions)[id := t] else old(transactions)
    {
      r := TransactionModel.CheckSave(t);
      if r == Pass {
        transactions := transactions[id := t];
      }
    }

    /** `user.save()` of document `id`. */
    method SaveUser(id: Id, u: UserModel.User) returns (r: Outcome)
      requires Valid() && id < nextId
      modifies this`users
      ensures Valid()
      ensures r == UserModel.CheckSave(old(users), id, u)
      ensures users == if r == Pass then old(users)[id := u] else old(users)
    {
      r := UserModel.CheckSave(users, id, u);
      if r == Pass {
        UserModel.SavePreservesValid(users, id, u);
        users := users[id := u];
      }
    }

    /** `product.deleteOne()`. */
    method DeleteProduct(id: Id)
      requires Valid()
      modifies this`products
      ensures Valid()
      ensures products == old(products) - {id}
    {
      products := products - {id};
    }

    /** `category.deleteOne()`. */
    method DeleteCategory(id: Id)
      requires Valid()
      modifies this`categories
      ensures Valid()
      ensures categories == old(categories) - {id}
    {
      categories := categories - {id};
    }

    /** `user.deleteOne()`. */
    method DeleteUser(id: Id)
      requires Valid()
      modifies this`users
      ensures Valid()
      ensures users == old(users) - {id}
    {
      users := users - {id};
    }

    /** What a snapshot must satisfy for restoring it to leave the store valid: its
        collections are valid and all its identities were handed out already. */
    ghost predicate Restorable(session: Snapshot)
      reads this
    {
      && CategoryModel.CollectionValid(session.categories)
      && ProductModel.CollectionValid(session.products)
      && TransactionModel.LedgerValid(session.transactions)
      && (forall id :: id in session.categories ==> id < nextId)
      && (forall id :: id in session.products ==> id < nextId)
      && (forall id :: id in session.transactions ==> id < nextId)
    }

    /** `session.startTransaction()`: remember what an abort rolls back to. */
    method Begin() returns (session: Snapshot)
      requires Valid()
      ensures session == Snapshot(categories, products, transactions)
      ensures Restorable(session)
    {
      session := Snapshot(categories, products, transactions);
    }

    /** `session.abortTransaction()`: discard every write made since `Begin`. Identities
        handed out in between stay used. */
    method Abort(session: Snapshot)
      requires Valid() && Restorable(session)
      modifies this`categories, this`products, this`transactions
      ensures Valid()
      ensures categories == session.categories && products == session.products
      ensures transactions == session.transactions
    {
      categories, products, transactions := session.categories, session.products, session.transactions;
    }
  }
}
