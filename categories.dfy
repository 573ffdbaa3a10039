/** The category controller: creation from the form's `category_*` fields
    with the unique-name rule, editing, and the delete that is refused while
    products use the category. */
module CategoryController {
  import opened Wrappers
  import opened Entities
  import opened Database
  import opened Validation
  import Seqs

  const CreatedMessage: string := "Category created successfully."
  const UpdatedMessage: string := "Category updated successfully."
  const DeletedMessage: string := "Category deleted successfully."
  const InUseMessage: string := "Cannot delete category with existing products."

  /** `unique:categories,name[,$id]`: some row other than `except` has the name. */
  predicate NameTaken(cs: seq<Category>, name: string, except: Option<Id>) {
    exists i :: 0 <= i < |cs| && cs[i].name == name && (except.None? || cs[i].id != except.value)
  }

  /** No two categories share a name. */
  ghost predicate UniqueNames(cs: seq<Category>) {
    forall i, j :: 0 <= i < j < |cs| ==> cs[i].name != cs[j].name
  }

  predicate NameOk(name: Option<string>, cs: seq<Category>, except: Option<Id>) {
    FilledString(name) && AtMost(name, 255) && !NameTaken(cs, name.value, except)
  }

  /** The failing fields of the create form (`category_name`, `category_description`). */
  function CreateErrors(name: Option<string>, description: Option<string>, cs: seq<Category>): (r: seq<Field>)
    ensures r == [] <==> NameOk(name, cs, None) && AtMost(description, 1000)
    ensures CategoryName in r <==> !NameOk(name, cs, None)
  {
    FieldIf(!NameOk(name, cs, None), CategoryName) + FieldIf(!AtMost(description, 1000), CategoryDescription)
  }

  /** A name some category already has is refused. */
  lemma ExistingNameRejected(cs: seq<Category>, k: nat, description: Option<string>)
    requires k < |cs|
    ensures CategoryName in CreateErrors(Some(cs[k].name), description, cs)
  {
  }

  /** `store`: `category_name` becomes `name` and `category_description` becomes `description`. */
  method Store(db: Database.Store, name: Option<string>, description: Option<string>) returns (reply: Reply)
    requires db.Valid()
    modifies db`categories, db`nextCategoryId
    ensures db.Valid()
    ensures UniqueNames(old(db.categories)) ==> UniqueNames(db.categories)
    ensures CreateErrors(name, description, old(db.categories)) != [] ==>
      reply == Invalid(CreateErrors(name, description, old(db.categories)))
      && db.categories == old(db.categories) && db.nextCategoryId == old(db.nextCategoryId)
    ensures CreateErrors(name, description, old(db.categories)) == [] ==>
      reply == Success(CreatedMessage) && db.nextCategoryId == old(db.nextCategoryId) + 1
      && db.categories == old(db.categories) + [Category(old(db.nextCategoryId), name.value, description)]
  {
    var errors := CreateErrors(name, description, db.categories);
    if errors != [] {
      return Invalid(errors);
    }
    var c := Category(db.nextCategoryId, name.value, description);
    var cs := db.categories + [c];
    assert forall i :: 0 <= i < |db.categories| ==> db.categories[i].name != c.name;
    assert forall i :: 0 <= i < |db.categories| ==> cs[i] == db.categories[i];
    db.categories := cs;
    db.nextCategoryId := db.nextCategoryId + 1;
    reply := Success(CreatedMessage);
  }

  /** The row after `update($request->all())`: the name is replaced and a description the request carries too. */
  function EditRow(cs: seq<Category>, id: Id, name: string, description: Option<string>): (r: seq<Category>)
    ensures |r| == |cs|
    ensures forall i :: 0 <= i < |cs| && cs[i].id == id ==>
      r[i] == cs[i].(name := name, description := if description.Some? then description else cs[i].description)
    ensures forall i :: 0 <= i < |cs| && cs[i].id != id ==> r[i] == cs[i]
  {
    if cs == [] then []
    else
      var c := cs[0];
      [if c.id == id then c.(name := name, description := if description.Some? then description else c.description) else c]
      + EditRow(cs[1..], id, name, description)
  }

  lemma EditRowKeepsKeys(cs: seq<Category>, id: Id, name: string, description: Option<string>, next: nat)
    requires CategoryKeys(cs, next)
    ensures CategoryKeys(EditRow(cs, id, name, description), next)
  {
    var r := EditRow(cs, id, name, description);
    assert forall i :: 0 <= i < |r| ==> r[i].id == cs[i].id;
  }

  /** `update($id)`: looked up first, then validated with the row's own name exempt from the unique rule. */
  method Update(db: Database.Store, id: Id, name: Option<string>, description: Option<string>) returns (reply: Reply)
    requires db.Valid()
    modifies db`categories
    ensures db.Valid()
    ensures UniqueNames(old(db.categories)) ==> UniqueNames(db.categories)
    ensures if !HasCategory(old(db.categories), id) then
        reply == NotFound && db.categories == old(db.categories)
      else if !(NameOk(name, old(db.categories), Some(id)) && AtMost(description, 1000)) then
        reply == Invalid(FieldIf(!NameOk(name, old(db.categories), Some(id)), Name) + FieldIf(!AtMost(description, 1000), Description))
        && db.categories == old(db.categories)
      else
        reply == Success(UpdatedMessage) && db.categories == EditRow(old(db.categories), id, name.value, description)
  {
    var found := Seqs.Find(db.categories, (c: Category) => c.id == id);   // findOrFail
    if found.None? {
      return NotFound;
    }
    var errors := FieldIf(!NameOk(name, db.categories, Some(id)), Name) + FieldIf(!AtMost(description, 1000), Description);
    if errors != [] {
      return Invalid(errors);
    }
    EditRowKeepsKeys(db.categories, id, name.value, description, db.nextCategoryId);
    if UniqueNames(db.categories) {
      EditKeepsUniqueNames(db.categories, id, name.value, description);
    }
    db.categories := EditRow(db.categories, id, name.value, description);
    reply := Success(UpdatedMessage);
  }

  /** An accepted rename keeps names unique when ids are unique. */
  lemma EditKeepsUniqueNames(cs: seq<Category>, id: Id, name: string, description: Option<string>)
    requires UniqueNames(cs) && !NameTaken(cs, name, Some(id))
    requires forall i, j :: 0 <= i < j < |cs| ==> cs[i].id != cs[j].id
    ensures UniqueNames(EditRow(cs, id, name, description))
  {
    var r := EditRow(cs, id, name, description);
    forall i, j | 0 <= i < j < |r| ensures r[i].name != r[j].name {
      if cs[i].id == id {
        assert cs[j].id != id && cs[j].name != name;
      } else if cs[j].id == id {
        assert cs[i].name != name;
      }
    }
  }

  function WithoutCategory(cs: seq<Category>, id: Id): (r: seq<Category>)
    ensures |r| <= |cs|
  {
    Seqs.Filter(cs, (c: Category) => c.id != id)
  }

  lemma WithoutCategoryExact(cs: seq<Category>, id: Id, c: Category)
    ensures c in WithoutCategory(cs, id) <==> c in cs && c.id != id
  {
    Seqs.FilterMembership(cs, (c: Category) => c.id != id, c);
  }

  /** `$category->products()->count() > 0`. */
  predicate InUse(ps: seq<Product>, id: Id) {
    exists i :: 0 <= i < |ps| && ps[i].categoryId == id
  }

  /** `destroy($id)`: refused while a product is in the category. */
  method Destroy(db: Database.Store, id: Id) returns (reply: Reply)
    requires db.Valid()
    modifies db`categories
    ensures db.Valid()
    ensures !HasCategory(old(db.categories), id) ==> reply == NotFound && db.categories == old(db.categories)
    ensures HasCategory(old(db.categories), id) && InUse(db.products, id) ==>
      reply == Failure(InUseMessage) && db.categories == old(db.categories)
    ensures HasCategory(old(db.categories), id) && !InUse(db.products, id) ==>
      reply == Success(DeletedMessage) && db.categories == WithoutCategory(old(db.categories), id)
  {
    var found := Seqs.Find(db.categories, (c: Category) => c.id == id);   // findOrFail
    if found.None? {
      return NotFound;
    }
    var used := Seqs.Find(db.products, (p: Product) => p.categoryId == id);
    if used.Some? {
      return Failure(InUseMessage);
    }
    var keep := (c: Category) => c.id != id;
    var key := (c: Category) => c.id;
    Seqs.FilterKeepsKeys(db.categories, keep, key, db.nextCategoryId);
    var r := WithoutCategory(db.categories, id);
    assert r == Seqs.Filter(db.categories, keep);
    assert forall i :: 0 <= i < |r| ==> key(r[i]) == r[i].id;
    db.categories := r;
    reply := Success(DeletedMessage);
  }
}
