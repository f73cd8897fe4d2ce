/** The Category record: a required, trimmed, unique name and an optional trimmed
    description. The schema has no `image` path, so mongoose's strict mode drops any image
    a request supplies. */
module CategoryModel {
  import opened Common
  import opened Strings

  /** An absent description is the empty string. */
  datatype Category = Category(name: string, description: string)

  /** The trim setters of the two string paths, applied whenever a value is assigned. */
  function Normalize(c: Category): Category {
    Category(Trim(c.name), Trim(c.description))
  }

  /** A category as the collection holds it: a non-empty name, both fields trimmed. */
  predicate Stored(c: Category) {
    c.name != [] && Trimmed(c.name) && Trimmed(c.description)
  }

  /** True iff some category has exactly this name. Mongoose runs a path's setters on query
      filters too, so the lookup `findOne({ name })` asks this of `Trim(name)`. */
  predicate NameTaken(cats: map<Id, Category>, name: string) {
    exists id :: id in cats && cats[id].name == name
  }

  /** True iff a category other than `self` has exactly this name: the unique index's
      question, and that of the lookup `findOne({ name, _id: { $ne: self } })` asked of
      `Trim(name)`. */
  predicate NameTakenByOther(cats: map<Id, Category>, name: string, self: Id) {
    exists id :: id in cats && id != self && cats[id].name == name
  }

  /** The unique index on `name`: no two stored categories share a name. */
  predicate NamesUnique(cats: map<Id, Category>) {
    forall a, b :: a in cats && b in cats && a != b ==> cats[a].name != cats[b].name
  }

  /** The invariant of the categories collection. */
  predicate CollectionValid(cats: map<Id, Category>) {
    NamesUnique(cats) && forall id :: id in cats ==> Stored(cats[id])
  }

  /** What `category.save()` decides for the document with identity `id`: after the trim
      setters, the `required` validator refuses an empty name and the unique index refuses a
      name another category already holds. */
  function CheckSave(cats: map<Id, Category>, id: Id, c: Category): (r: Outcome)
    ensures r == Pass <==> Trim(c.name) != [] && !NameTakenByOther(cats, Trim(c.name), id)
    ensures r.Fail? ==> r.error in {ValidationFailed, DuplicateKey}
  {
    var n := Normalize(c);
    if n.name == [] then Fail(ValidationFailed)
    else if NameTakenByOther(cats, n.name, id) then Fail(DuplicateKey)
    else Pass
  }

  /** A save that passes keeps the collection valid: the new document is stored trimmed and
      its name is unique. */
  lemma SavePreservesValid(cats: map<Id, Category>, id: Id, c: Category)
    requires CollectionValid(cats)
    requires Trim(c.name) != [] && !NameTakenByOther(cats, Trim(c.name), id)
    ensures CollectionValid(cats[id := Normalize(c)])
    ensures Stored(Normalize(c))
  {
    var n := Normalize(c);
    TrimSpec(c.name);
    TrimSpec(c.description);
    assert Stored(n);
    SaveKeepsNamesUnique(cats, id, n);
    var cats' := cats[id := n];
    forall k | k in cats' ensures Stored(cats'[k]) {
      if k != id { assert cats'[k] == cats[k]; }
    }
  }

  lemma SaveKeepsNamesUnique(cats: map<Id, Category>, id: Id, n: Category)
    requires NamesUnique(cats)
    requires !NameTakenByOther(cats, n.name, id)
    ensures NamesUnique(cats[id := n])
  {
    var cats' := cats[id := n];
    forall a, b | a in cats' && b in cats' && a != b
      ensures cats'[a].name != cats'[b].name
    {
      if a == id {
        assert !(b in cats && b != id && cats[b].name == n.name);
      } else if b == id {
        assert !(a in cats && a != id && cats[a].name == n.name);
      }
    }
  }

  /** With unique names, an exact-name lookup identifies at most one category. */
  lemma LookupUnique(cats: map<Id, Category>, name: string, a: Id, b: Id)
    requires NamesUnique(cats)
    requires a in cats && cats[a].name == name
    requires b in cats && cats[b].name == name
    ensures a == b
  {
  }

  /** A stored category is a fixed point of the trim setters, so re-saving it unchanged
      stores it unchanged. */
  lemma NormalizeStored(c: Category)
    requires Stored(c)
    ensures Normalize(c) == c
  {
    TrimOfTrimmed(c.name);
    TrimOfTrimmed(c.description);
  }
}
