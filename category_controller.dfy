/** The category endpoints: creation and renaming guarded by name uniqueness, the field
    merge of an update, the per-category product count of the listing, and a delete that
    refuses while products still reference the category. A request's `image` is dropped,
    since the category schema has no such path. */
module CategoryController {
  import opened Common
  import opened Strings
  import opened CategoryModel
  import ProductModel
  import opened Database

  /** `Product.countDocuments({ category })`: how many products reference category `cid`. */
  function ProductCount(products: map<Id, ProductModel.Product>, cid: Id): nat {
    |set pid | pid in products && products[pid].category == cid|
  }

  /** A category's count is zero exactly when no product references it. */
  lemma ProductCountZeroIff(products: map<Id, ProductModel.Product>, cid: Id)
    ensures ProductCount(products, cid) == 0 <==> forall pid :: pid in products ==> products[pid].category != cid
  {
    var referencing := set pid | pid in products && products[pid].category == cid;
    if ProductCount(products, cid) != 0 {
      var pid :| pid in referencing;
    } else {
      assert referencing == {};
      forall pid | pid in products ensures products[pid].category != cid {
        assert pid !in referencing;
      }
    }
  }

  /** What `createCategory` decides: the name lookup (which sees the trimmed name, as the
      trim setter runs on query filters) refuses a name already in use with DuplicateName;
      the save then refuses a name that trims to nothing. With the lookup done on the
      trimmed name, the unique index never has to refuse. */
  function CheckCreate(cats: map<Id, Category>, name: string): (r: Outcome)
    ensures r == Pass <==> Trim(name) != [] && !NameTaken(cats, Trim(name))
    ensures r == Fail(DuplicateName) <==> NameTaken(cats, Trim(name))
    ensures r.Fail? ==> r.error in {DuplicateName, ValidationFailed}
  {
    if NameTaken(cats, Trim(name)) then Fail(DuplicateName)
    else if Trim(name) == [] then Fail(ValidationFailed)
    else Pass
  }

  /** `createCategory`: a category with this (trimmed) name already exists (DuplicateName);
      otherwise the save decides, whose trim setter and `required` validator see the trimmed
      name. On failure nothing is stored. */
  method CreateCategory(s: Store, name: string, description: string) returns (r: Result<Id>)
    requires s.Valid()
    modifies s`nextId, s`categories
    ensures s.Valid()
    ensures r.Ok? <==> CheckCreate(old(s.categories), name) == Pass
    ensures r.Err? ==> r.error == CheckCreate(old(s.categories), name).error
    ensures r.Err? ==> s.categories == old(s.categories)
    ensures r.Ok? ==>
      && r.value !in old(s.categories)
      && s.categories == old(s.categories)[r.value := Category(Trim(name), Trim(description))]
  {
    if NameTaken(s.categories, Trim(name)) {
      return Err(DuplicateName);
    }
    var id := s.FreshId();
    assert NameTakenByOther(s.categories, Trim(name), id) <==> NameTaken(s.categories, Trim(name));
    var saved := s.SaveCategory(id, Category(name, description));
    if saved.Fail? {
      return Err(saved.error);
    }
    r := Ok(id);
  }

  /** `Category.findById`: the stored category, or NotFound. */
  method GetCategoryById(s: Store, id: Id) returns (r: Result<Category>)
    ensures r.Ok? <==> id in s.categories
    ensures r.Ok? ==> r.value == s.categories[id]
    ensures r.Err? ==> r.error == NotFound
  {
    if id in s.categories {
      r := Ok(s.categories[id]);
    } else {
      r := Err(NotFound);
    }
  }

  /** The merge in `updateCategory`: each field takes the request's value when it is non-empty and keeps its
      own otherwise. */
  function Merge(c: Category, name: string, description: string): Category {
    Category(if name != [] then name else c.name, if description != [] then description else c.description)
  }

  /** Resubmitting a category's own name is not a clash: with unique names, no other
      category holds it, and the merged category saves back unchanged. */
  lemma KeepingOwnNameAllowed(cats: map<Id, Category>, id: Id, description: string)
    requires CollectionValid(cats) && id in cats
    ensures !NameTakenByOther(cats, cats[id].name, id)
    ensures CheckSave(cats, id, Merge(cats[id], cats[id].name, description)) == Pass
    ensures description == [] ==> Normalize(Merge(cats[id], cats[id].name, description)) == cats[id]
  {
    var c := cats[id];
    TrimOfTrimmed(c.name);
    NormalizeStored(c);
  }

  /** `updateCategory`: unknown identities are NotFound; a name that, trimmed, is another
      category's is DuplicateName; otherwise the merged category is saved, which only the
      `required` validator can refuse (a supplied name made of white space). On failure the
      collection is as it was. */
  method UpdateCategory(s: Store, id: Id, name: string, description: string) returns (r: Outcome)
    requires s.Valid()
    modifies s`categories
    ensures s.Valid()
    ensures id !in old(s.categories) ==> r == Fail(NotFound)
    ensures id in old(s.categories) && NameTakenByOther(old(s.categories), Trim(name), id) ==> r == Fail(DuplicateName)
    ensures id in old(s.categories) && !NameTakenByOther(old(s.categories), Trim(name), id) ==>
      r == CheckSave(old(s.categories), id, Merge(old(s.categories[id]), name, description))
    ensures r == Fail(ValidationFailed) <==>
      && id in old(s.categories)
      && !NameTakenByOther(old(s.categories), Trim(name), id)
      && name != [] && Trim(name) == []
    ensures r.Fail? ==> r.error in {NotFound, DuplicateName, ValidationFailed}
    ensures r.Fail? ==> s.categories == old(s.categories)
    ensures r == Pass ==> id in old(s.categories)
    ensures r == Pass && id in old(s.categories) ==>
      var c := old(s.categories[id]);
      s.categories == old(s.categories)[id := Category(
        if name != [] then Trim(name) else c.name,
        if description != [] then Trim(description) else c.description)]
  {
    if id !in s.categories {
      return Fail(NotFound);
    }
    if NameTakenByOther(s.categories, Trim(name), id) {
      return Fail(DuplicateName);
    }
    var c := s.categories[id];
    NormalizeStored(c);
    if name == [] {
      KeepingOwnNameAllowed(s.categories, id, description);
    }
    r := s.SaveCategory(id, Merge(c, name, description));
  }

  /** The guard of `deleteCategory`. */
  function CheckDelete(products: map<Id, ProductModel.Product>, cid: Id): (r: Outcome)
    ensures r == Pass <==> forall pid :: pid in products ==> products[pid].category != cid
    ensures r.Fail? ==> r.error == CategoryInUse
  {
    ProductCountZeroIff(products, cid);
    if ProductCount(products, cid) > 0 then Fail(CategoryInUse) else Pass
  }

  /** `deleteCategory`: unknown identities are NotFound, a category some product references
      is refused and kept, any other is removed, so no product is left referencing it. */
  method DeleteCategory(s: Store, id: Id) returns (r: Outcome)
    requires s.Valid()
    modifies s`categories
    ensures s.Valid()
    ensures id !in old(s.categories) ==> r == Fail(NotFound)
    ensures id in old(s.categories) ==> r == CheckDelete(s.products, id)
    ensures r.Fail? ==> s.categories == old(s.categories)
    ensures r == Pass ==> s.categories == old(s.categories) - {id}
    ensures r == Pass ==> forall pid :: pid in s.products ==> s.products[pid].category != id
  {
    if id !in s.categories {
      return Fail(NotFound);
    }
    r := CheckDelete(s.products, id);
    if r.Fail? {
      return;
    }
    s.DeleteCategory(id);
  }
}
