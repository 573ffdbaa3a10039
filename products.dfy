/** The product controller: edits of one product's stock or branch, product
    creation with its validation, deletion, and the two read-only listings
    (low stock, the cashier's own branch). */
module ProductController {
  import opened Wrappers
  import opened Entities
  import opened Database
  import opened Validation
  import ProductModel
  import InvoiceController
  import Seqs
  import Text

  /** The default of `getLowStock($threshold = 10)`. */
  const DefaultLowStockThreshold: int := 10

  const StockUpdatedMessage: string := "Product stock updated successfully."
  const CreatedMessage: string := "Product created successfully."
  const DeletedMessage: string := "Product deleted successfully."

  function BranchUpdatedMessage(branchId: int): string {
    "Product branch updated successfully. (branch_id: " + Text.IntToString(branchId) + ")"
  }

  /** `(int) $request->query('branch_id')`: an absent parameter casts to 0. */
  function CastBranchParam(param: Option<int>): int {
    param.GetOr(0)
  }

  // ---- row updates ----

  /** `branch_id = b` on the product with id `id`; every other row and column stays. */
  function SetBranch(ps: seq<Product>, id: Id, b: Id): (r: seq<Product>)
    ensures |r| == |ps|
    ensures forall i :: 0 <= i < |ps| && ps[i].id == id ==> r[i] == ps[i].(branchId := b)
    ensures forall i :: 0 <= i < |ps| && ps[i].id != id ==> r[i] == ps[i]
  {
    if ps == [] then []
    else [if ps[0].id == id then ps[0].(branchId := b) else ps[0]] + SetBranch(ps[1..], id, b)
  }

  /** `stock_quantity = q` on the product with id `id`; every other row and column stays. */
  function SetStock(ps: seq<Product>, id: Id, q: int): (r: seq<Product>)
    ensures |r| == |ps|
    ensures forall i :: 0 <= i < |ps| && ps[i].id == id ==> r[i] == ps[i].(stockQuantity := q)
    ensures forall i :: 0 <= i < |ps| && ps[i].id != id ==> r[i] == ps[i]
  {
    if ps == [] then []
    else [if ps[0].id == id then ps[0].(stockQuantity := q) else ps[0]] + SetStock(ps[1..], id, q)
  }

  /** Moving a product to an existing branch keeps the keys and the branch foreign key. */
  lemma SetBranchKeepsKeys(ps: seq<Product>, id: Id, b: Id, next: nat, bs: seq<Branch>)
    requires ProductKeys(ps, next) && HasBranch(bs, b)
    requires forall i :: 0 <= i < |ps| ==> HasBranch(bs, ps[i].branchId)
    ensures ProductKeys(SetBranch(ps, id, b), next)
    ensures forall i :: 0 <= i < |ps| ==> HasBranch(bs, SetBranch(ps, id, b)[i].branchId)
  {
    var r := SetBranch(ps, id, b);
    assert forall i :: 0 <= i < |ps| ==> r[i].id == ps[i].id;
  }

  lemma SetStockKeepsKeys(ps: seq<Product>, id: Id, q: int, next: nat, bs: seq<Branch>)
    requires ProductKeys(ps, next)
    requires forall i :: 0 <= i < |ps| ==> HasBranch(bs, ps[i].branchId)
    ensures ProductKeys(SetStock(ps, id, q), next)
    ensures forall i :: 0 <= i < |ps| ==> HasBranch(bs, SetStock(ps, id, q)[i].branchId)
  {
    var r := SetStock(ps, id, q);
    assert forall i :: 0 <= i < |ps| ==> r[i].id == ps[i].id && r[i].branchId == ps[i].branchId;
  }

  /** Setting the stock is idempotent: the last value written wins. */
  lemma SetStockLastWins(ps: seq<Product>, id: Id, q1: int, q2: int)
    ensures SetStock(SetStock(ps, id, q1), id, q2) == SetStock(ps, id, q2)
  {
    var a := SetStock(SetStock(ps, id, q1), id, q2);
    var b := SetStock(ps, id, q2);
    assert forall i :: 0 <= i < |ps| ==> a[i] == b[i];
  }

  /** `updateBranch($id)`: the branch parameter is validated before the product is looked up. */
  method UpdateBranch(db: Store, productId: Id, branchParam: Option<int>) returns (reply: Reply)
    requires db.Valid()
    modifies db`products
    ensures db.Valid()
    ensures var b := CastBranchParam(branchParam);
      if b < 0 || !HasBranch(db.branches, b) then
        reply == Invalid([BranchId]) && db.products == old(db.products)
      else if !HasProduct(old(db.products), productId) then
        reply == NotFound && db.products == old(db.products)
      else
        reply == Success(BranchUpdatedMessage(b)) && db.products == SetBranch(old(db.products), productId, b)
  {
    var b := CastBranchParam(branchParam);
    if b < 0 || !HasBranch(db.branches, b) {        // exists:branches,id
      return Invalid([BranchId]);
    }
    var found := Seqs.Find(db.products, (p: Product) => p.id == productId);   // findOrFail
    if found.None? {
      return NotFound;
    }
    SetBranchKeepsKeys(db.products, productId, b, db.nextProductId, db.branches);
    db.products := SetBranch(db.products, productId, b);
    reply := Success(BranchUpdatedMessage(b));
  }

  /** `updateStock($id)`: `required|integer|min:0`, checked before the lookup. */
  method UpdateStock(db: Store, productId: Id, stock: Option<real>) returns (reply: Reply)
    requires db.Valid()
    modifies db`products
    ensures db.Valid()
    ensures if !IntegerAtLeast(stock, 0) then
        reply == Invalid([StockQuantity]) && db.products == old(db.products)
      else if !HasProduct(old(db.products), productId) then
        reply == NotFound && db.products == old(db.products)
      else
        reply == Success(StockUpdatedMessage) && db.products == SetStock(old(db.products), productId, stock.value.Floor)
  {
    if !IntegerAtLeast(stock, 0) {
      return Invalid([StockQuantity]);
    }
    var found := Seqs.Find(db.products, (p: Product) => p.id == productId);   // findOrFail
    if found.None? {
      return NotFound;
    }
    SetStockKeepsKeys(db.products, productId, stock.value.Floor, db.nextProductId, db.branches);
    db.products := SetStock(db.products, productId, stock.value.Floor);
    reply := Success(StockUpdatedMessage);
  }

  // ---- creation ----

  /** The fields of a create request; `None` is an absent field. */
  datatype ProductRequest = ProductRequest(
    name: Option<string>,
    price: Option<real>,
    categoryId: Option<Id>,
    stockQuantity: Option<real>,
    description: Option<string>,
    supplierId: Option<Id>,
    branchId: Option<Id>,
    isActive: Option<bool>,
    lowStockNotified: Option<bool>)

  /** The rules of `store`, field by field. */
  predicate NameOk(q: ProductRequest) { FilledString(q.name) && AtMost(q.name, 255) }
  predicate CategoryOk(q: ProductRequest, cs: seq<Category>) { q.categoryId.Some? && HasCategory(cs, q.categoryId.value) }
  predicate SupplierOk(q: ProductRequest, ss: seq<Supplier>) { q.supplierId.Some? && HasSupplier(ss, q.supplierId.value) }
  predicate BranchOk(q: ProductRequest, bs: seq<Branch>) { q.branchId.Some? && HasBranch(bs, q.branchId.value) }

  /** The failing fields of a create request, in rule order. `is_active` is
      `nullable|boolean` (the `?: true` applies to the rule string, which is
      truthy) and a boolean-or-absent value always passes it. */
  function ProductErrors(q: ProductRequest, cs: seq<Category>, ss: seq<Supplier>, bs: seq<Branch>): (r: seq<Field>)
    ensures r == [] <==> (NameOk(q) && NonNegative(q.price) && CategoryOk(q, cs)
      && IntegerAtLeast(q.stockQuantity, 0) && AtMost(q.description, 1000)
      && SupplierOk(q, ss) && BranchOk(q, bs))
  {
    FieldIf(!NameOk(q), Name)
    + FieldIf(!NonNegative(q.price), Price)
    + FieldIf(!CategoryOk(q, cs), CategoryId)
    + FieldIf(!IntegerAtLeast(q.stockQuantity, 0), StockQuantity)
    + FieldIf(!AtMost(q.description, 1000), Description)
    + FieldIf(!SupplierOk(q, ss), SupplierId)
    + FieldIf(!BranchOk(q, bs), BranchId)
  }

  /** A negative price, a negative stock or a fractional stock is refused. */
  lemma StoreRejectsBadNumbers(q: ProductRequest, cs: seq<Category>, ss: seq<Supplier>, bs: seq<Branch>)
    ensures q.price.Some? && q.price.value < 0.0 ==> Price in ProductErrors(q, cs, ss, bs)
    ensures q.stockQuantity.Some? && (q.stockQuantity.value < 0.0 || !Integral(q.stockQuantity.value))
      ==> StockQuantity in ProductErrors(q, cs, ss, bs)
  {
  }

  /** The attributes `Product::create($request->all())` receives from a request that passed validation. */
  function Attributes(q: ProductRequest): (a: ProductModel.ProductAttributes)
    requires q.name.Some? && q.price.Some? && q.categoryId.Some? && q.stockQuantity.Some?
    requires q.supplierId.Some? && q.branchId.Some?
    ensures a.name == q.name.value && a.price == q.price.value && a.branchId == q.branchId.value
    ensures a.stockQuantity as real == q.stockQuantity.value.Floor as real
    ensures a.lowStockNotified == q.lowStockNotified
  {
    ProductModel.ProductAttributes(q.name.value, q.description, q.price.value, q.stockQuantity.value.Floor,
      q.isActive, q.supplierId.value, q.categoryId.value, q.branchId.value, q.lowStockNotified)
  }

  lemma ProductKeysAppend(ps: seq<Product>, p: Product, next: nat)
    requires ProductKeys(ps, next) && p.id == next
    ensures ProductKeys(ps + [p], next + 1)
  {
  }

  /** `store`: validates, then creates the product under the next id. */
  method Store(db: Database.Store, q: ProductRequest) returns (reply: Reply)
    requires db.Valid()
    modifies db`products, db`nextProductId
    ensures db.Valid()
    ensures var errors := ProductErrors(q, db.categories, db.suppliers, db.branches);
      if errors != [] then
        reply == Invalid(errors) && db.products == old(db.products) && db.nextProductId == old(db.nextProductId)
      else
        reply == Success(CreatedMessage) && db.nextProductId == old(db.nextProductId) + 1
        && db.products == old(db.products) + [ProductModel.FromAttributes(Attributes(q), old(db.nextProductId))]
  {
    var errors := ProductErrors(q, db.categories, db.suppliers, db.branches);
    if errors != [] {
      return Invalid(errors);
    }
    var p := ProductModel.FromAttributes(Attributes(q), db.nextProductId);
    ProductKeysAppend(db.products, p, db.nextProductId);
    db.products := db.products + [p];
    db.nextProductId := db.nextProductId + 1;
    reply := Success(CreatedMessage);
  }

  // ---- deletion ----

  function WithoutProduct(ps: seq<Product>, id: Id): (r: seq<Product>)
    ensures |r| <= |ps|
  {
    Seqs.Filter(ps, (p: Product) => p.id != id)
  }

  /** A product survives a delete exactly when it is not the deleted one;
      deleting a missing id changes nothing. */
  lemma WithoutProductExact(ps: seq<Product>, id: Id, p: Product)
    ensures p in WithoutProduct(ps, id) <==> p in ps && p.id != id
    ensures !HasProduct(ps, id) ==> WithoutProduct(ps, id) == ps
  {
    Seqs.FilterMembership(ps, (p: Product) => p.id != id, p);
    if !HasProduct(ps, id) {
      Seqs.FilterKeepsAll(ps, (p: Product) => p.id != id);
    }
  }

  lemma WithoutProductKeepsKeys(ps: seq<Product>, id: Id, next: nat, bs: seq<Branch>)
    requires ProductKeys(ps, next)
    requires forall i :: 0 <= i < |ps| ==> HasBranch(bs, ps[i].branchId)
    ensures ProductKeys(WithoutProduct(ps, id), next)
    ensures forall i :: 0 <= i < |WithoutProduct(ps, id)| ==> HasBranch(bs, WithoutProduct(ps, id)[i].branchId)
  {
    var keep := (p: Product) => p.id != id;
    var key := (p: Product) => p.id;
    Seqs.FilterKeepsKeys(ps, keep, key, next);
    Seqs.FilterElements(ps, keep);
    var r := WithoutProduct(ps, id);
    assert r == Seqs.Filter(ps, keep);
    assert forall i :: 0 <= i < |r| ==> key(r[i]) == r[i].id;
    assert forall i, j :: 0 <= i < j < |r| ==> key(r[i]) != key(r[j]);
  }

  /** `destroy($id)`: `Product::destroy` deletes the row if there is one and
      reports success either way. */
  method Destroy(db: Database.Store, id: Id) returns (reply: Reply)
    requires db.Valid()
    modifies db`products
    ensures db.Valid()
    ensures reply == Success(DeletedMessage)
    ensures db.products == WithoutProduct(old(db.products), id)
  {
    WithoutProductKeepsKeys(db.products, id, db.nextProductId, db.branches);
    db.products := WithoutProduct(db.products, id);
    reply := Success(DeletedMessage);
  }

  // ---- listings ----

  /** `getLowStock($threshold)`: active products at or below the threshold. */
  function LowStock(ps: seq<Product>, threshold: int): (r: seq<Product>)
    ensures |r| <= |ps|
  {
    Seqs.Filter(ps, (p: Product) => p.isActive && p.stockQuantity <= threshold)
  }

  lemma LowStockExact(ps: seq<Product>, threshold: int, p: Product)
    ensures p in LowStock(ps, threshold) <==> p in ps && p.isActive && p.stockQuantity <= threshold
  {
    Seqs.FilterMembership(ps, (p: Product) => p.isActive && p.stockQuantity <= threshold, p);
  }

  /** A product at exactly the default threshold is listed as low although `isLowStock` says it is not. */
  lemma LowStockListsWhatIsLowStockDenies(p: Product)
    requires p.isActive && p.stockQuantity == DefaultLowStockThreshold
    ensures p in LowStock([p], DefaultLowStockThreshold) && !ProductModel.IsLowStock(p)
  {
    LowStockExact([p], DefaultLowStockThreshold, p);
  }

  /** The `where('branch_id', ...)` scope of `indexBranch`. A user without a branch
      queries `branch_id IS NULL`, which no product matches. */
  function BranchScope(ps: seq<Product>, u: User): (r: seq<Product>)
    ensures |r| <= |ps|
  {
    match u.branchId
    case None => []
    case Some(b) => ProductModel.SearchByBranch(ps, b)
  }

  lemma BranchScopeExact(ps: seq<Product>, u: User, p: Product)
    ensures p in BranchScope(ps, u) <==> p in ps && u.branchId == Some(p.branchId)
  {
    if u.branchId.Some? {
      ProductModel.SearchByBranchExact(ps, u.branchId.value, p);
    }
  }

  /** `indexBranch`: the requested page of the scope, `paginate(10)`. */
  function IndexBranch(ps: seq<Product>, u: User, page: Option<int>): (r: seq<Product>)
    ensures |r| <= InvoiceController.PerPage
    ensures forall i :: 0 <= i < |r| ==>
      var k := (InvoiceController.ResolvePage(page) - 1) * InvoiceController.PerPage + i;
      k < |BranchScope(ps, u)| && r[i] == BranchScope(ps, u)[k]
  {
    InvoiceController.Page(BranchScope(ps, u), InvoiceController.ResolvePage(page))
  }

  /** Every row of an `indexBranch` page is a product of the user's own branch. */
  lemma IndexBranchOwnBranch(ps: seq<Product>, u: User, page: Option<int>, i: nat)
    requires i < |IndexBranch(ps, u, page)|
    ensures IndexBranch(ps, u, page)[i] in ps && u.branchId == Some(IndexBranch(ps, u, page)[i].branchId)
  {
    var scope := BranchScope(ps, u);
    var k := (InvoiceController.ResolvePage(page) - 1) * InvoiceController.PerPage + i;
    BranchScopeExact(ps, u, scope[k]);
  }
}
