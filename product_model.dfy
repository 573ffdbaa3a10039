/** The product model: its low-stock test, its mass-assignable attributes and
    its search helpers. */
module ProductModel {
  import opened Wrappers
  import opened Entities
  import Seqs
  import Text

  /** `isLowStock()`: strictly below 10, unlike the scanner's `<= 10`. */
  predicate IsLowStock(p: Product) {
    p.stockQuantity < 10
  }

  /** The attributes a create or update request carries. `lowStockNotified`
      stands for a request that also sends `low_stock_notified`, which is not
      in `$fillable`. */
  datatype ProductAttributes = ProductAttributes(
    name: string,
    description: Option<string>,
    price: real,
    stockQuantity: int,
    isActive: Option<bool>,
    supplierId: Id,
    categoryId: Id,
    branchId: Id,
    lowStockNotified: Option<bool>)

  /** `Product::create($attributes)`: only the fillable attributes are taken.
      The alert flag starts cleared and an absent `is_active` takes the
      column default, true. */
  function FromAttributes(a: ProductAttributes, id: Id): (r: Product)
    ensures r.id == id && !r.lowStockNotified
    ensures r.name == a.name && r.description == a.description && r.price == a.price
    ensures r.stockQuantity == a.stockQuantity && r.supplierId == a.supplierId
    ensures r.categoryId == a.categoryId && r.branchId == a.branchId
    ensures r.isActive == a.isActive.GetOr(true)
  {
    Product(id, a.name, a.description, a.price, a.stockQuantity, a.isActive.GetOr(true),
            false, a.supplierId, a.categoryId, a.branchId)
  }

  /** Whatever a request says about `low_stock_notified`, the created row is the same. */
  lemma NotifiedFlagNotMassAssignable(a: ProductAttributes, flag: Option<bool>, id: Id)
    ensures FromAttributes(a.(lowStockNotified := flag), id) == FromAttributes(a, id)
  {
  }

  /** A stock of exactly 10 is alerted by the scanner (`<= 10`) but is not low for `isLowStock`. */
  lemma TenIsNotLowButIsScanned(p: Product)
    requires p.stockQuantity == 10
    ensures !IsLowStock(p) && p.stockQuantity <= 10
  {
  }

  /** `searchByName($name)`: names containing the term (`LIKE '%name%'`). */
  function SearchByName(ps: seq<Product>, term: string): (r: seq<Product>)
    ensures |r| <= |ps|
  {
    Seqs.Filter(ps, (p: Product) => Text.Contains(p.name, term))
  }

  /** `Category::where('name', $name)->value('id')`: the id of the first category so named. */
  function CategoryIdByName(cs: seq<Category>, name: string): (r: Option<Id>)
    ensures r.Some? <==> exists i :: 0 <= i < |cs| && cs[i].name == name
    ensures r.Some? ==> exists i :: 0 <= i < |cs| && cs[i].name == name && cs[i].id == r.value
  {
    if cs == [] then None
    else if cs[0].name == name then Some(cs[0].id)
    else
      var r := CategoryIdByName(cs[1..], name);
      assert (exists i :: 0 <= i < |cs| && cs[i].name == name) ==> (exists i :: 0 <= i < |cs[1..]| && cs[1..][i].name == name) by {
        if exists i :: 0 <= i < |cs| && cs[i].name == name {
          var i :| 0 <= i < |cs| && cs[i].name == name;
          assert cs[1..][i - 1] == cs[i];
        }
      }
      assert r.Some? ==> exists i :: 0 <= i < |cs| && cs[i].name == name && cs[i].id == r.value by {
        if r.Some? {
          var i :| 0 <= i < |cs[1..]| && cs[1..][i].name == name && cs[1..][i].id == r.value;
          assert cs[i + 1] == cs[1..][i];
        }
      }
      r
  }

  /** `Supplier::where('name', $name)->value('id')`. */
  function SupplierIdByName(ss: seq<Supplier>, name: string): (r: Option<Id>)
    ensures r.Some? <==> exists i :: 0 <= i < |ss| && ss[i].name == name
    ensures r.Some? ==> exists i :: 0 <= i < |ss| && ss[i].name == name && ss[i].id == r.value
  {
    if ss == [] then None
    else if ss[0].name == name then Some(ss[0].id)
    else
      var r := SupplierIdByName(ss[1..], name);
      assert (exists i :: 0 <= i < |ss| && ss[i].name == name) ==> (exists i :: 0 <= i < |ss[1..]| && ss[1..][i].name == name) by {
        if exists i :: 0 <= i < |ss| && ss[i].name == name {
          var i :| 0 <= i < |ss| && ss[i].name == name;
          assert ss[1..][i - 1] == ss[i];
        }
      }
      assert r.Some? ==> exists i :: 0 <= i < |ss| && ss[i].name == name && ss[i].id == r.value by {
        if r.Some? {
          var i :| 0 <= i < |ss[1..]| && ss[1..][i].name == name && ss[1..][i].id == r.value;
          assert ss[i + 1] == ss[1..][i];
        }
      }
      r
  }

  /** `searchByCategory($category)`: the products of the first category with
      that name; when no category has it the lookup yields null and
      `where('category_id', null)` matches no product. */
  function SearchByCategory(ps: seq<Product>, cs: seq<Category>, name: string): (r: seq<Product>)
    ensures |r| <= |ps|
  {
    match CategoryIdByName(cs, name)
    case None => []
    case Some(cid) => Seqs.Filter(ps, (p: Product) => p.categoryId == cid)
  }

  /** `searchBySupplier($supplier)`, the same lookup on suppliers. */
  function SearchBySupplier(ps: seq<Product>, ss: seq<Supplier>, name: string): (r: seq<Product>)
    ensures |r| <= |ps|
  {
    match SupplierIdByName(ss, name)
    case None => []
    case Some(sid) => Seqs.Filter(ps, (p: Product) => p.supplierId == sid)
  }

  /** `searchByBranch($branchId)`. */
  function SearchByBranch(ps: seq<Product>, branchId: Id): (r: seq<Product>)
    ensures |r| <= |ps|
  {
    Seqs.Filter(ps, (p: Product) => p.branchId == branchId)
  }

  // ---- what each search returns ----

  lemma SearchByNameExact(ps: seq<Product>, term: string, p: Product)
    ensures p in SearchByName(ps, term) <==> p in ps && Text.Contains(p.name, term)
  {
    Seqs.FilterMembership(ps, (p: Product) => Text.Contains(p.name, term), p);
  }

  lemma SearchByBranchExact(ps: seq<Product>, branchId: Id, p: Product)
    ensures p in SearchByBranch(ps, branchId) <==> p in ps && p.branchId == branchId
  {
    Seqs.FilterMembership(ps, (p: Product) => p.branchId == branchId, p);
  }

  /** A product is found by category name exactly when some category has that
      name and the first such category is the product's. */
  lemma SearchByCategoryExact(ps: seq<Product>, cs: seq<Category>, name: string, p: Product)
    ensures p in SearchByCategory(ps, cs, name) <==>
      p in ps && CategoryIdByName(cs, name).Some? && p.categoryId == CategoryIdByName(cs, name).value
  {
    match CategoryIdByName(cs, name)
    case None =>
    case Some(cid) => Seqs.FilterMembership(ps, (p: Product) => p.categoryId == cid, p);
  }

  lemma SearchBySupplierExact(ps: seq<Product>, ss: seq<Supplier>, name: string, p: Product)
    ensures p in SearchBySupplier(ps, ss, name) <==>
      p in ps && SupplierIdByName(ss, name).Some? && p.supplierId == SupplierIdByName(ss, name).value
  {
    match SupplierIdByName(ss, name)
    case None =>
    case Some(sid) => Seqs.FilterMembership(ps, (p: Product) => p.supplierId == sid, p);
  }

  /** With two categories of the same name, only the first one's products are found. */
  lemma DuplicateCategoryNameUsesFirst(c1: Category, c2: Category, p: Product)
    requires c1.name == c2.name && c1.id != c2.id && p.categoryId == c2.id
    ensures SearchByCategory([p], [c1, c2], c1.name) == []
  {
    assert CategoryIdByName([c1, c2], c1.name) == Some(c1.id);
    assert Seqs.Filter([p], (q: Product) => q.categoryId == c1.id) == [] by {
      Seqs.FilterDropsAll([p], (q: Product) => q.categoryId == c1.id);
    }
  }
}
