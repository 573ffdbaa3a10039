/** The rows of the system's tables, as values. Every table is a sequence of
    rows in primary-key order; ids are the auto-increment keys. */
module Entities {
  import opened Wrappers

  type Id = nat

  /** The `status` enum shared by sales and invoices. */
  datatype SaleStatus = Pending | Paid | Canceled


  /** The values `in:pending,paid,canceled` accepts, and what each stores. */
  function ParseStatus(s: string): (r: Option<SaleStatus>)
    ensures r.Some? <==> s in {"pending", "paid", "canceled"}
  {
    if s == "pending" then Some(Pending)
    else if s == "paid" then Some(Paid)
    else if s == "canceled" then Some(Canceled)
    else None
  }

  function StatusKey(st: SaleStatus): string {
    match st
    case Pending => "pending"
    case Paid => "paid"
    case Canceled => "canceled"
  }

  /** Every stored status is accepted back as itself. */
  lemma StatusRoundTrip(st: SaleStatus)
    ensures ParseStatus(StatusKey(st)) == Some(st)
  {
  }

  datatype BranchStatus = Active | Inactive

  /** An invoice's `type` column. */
  datatype InvoiceType = Purchase | SaleInvoice

  /** The values `in:purchase,sale` accepts. */
  function ParseInvoiceType(s: string): (r: Option<InvoiceType>)
    ensures r.Some? <==> s in {"purchase", "sale"}
  {
    if s == "purchase" then Some(Purchase) else if s == "sale" then Some(SaleInvoice) else None
  }

  /** `products`: the stock level is a signed count because nothing stops it from going negative. */
  datatype Product = Product(
    id: Id,
    name: string,
    description: Option<string>,
    price: real,
    stockQuantity: int,
    isActive: bool,
    lowStockNotified: bool,
    supplierId: Id,
    categoryId: Id,
    branchId: Id)

  /** `sales`: one product line with its precomputed total. */
  datatype Sale = Sale(
    id: Id,
    customerId: Option<Id>,
    customerName: Option<string>,
    productId: Id,
    quantity: int,
    tax: real,
    discount: real,
    branchId: Option<Id>,
    totalAmount: real,
    status: SaleStatus)

  /** `stock_notifications`. */
  datatype StockNotification = StockNotification(
    id: Id,
    productId: Id,
    kind: string,
    message: string,
    isRead: bool)

  datatype Branch = Branch(
    id: Id,
    name: string,
    address: Option<string>,
    contactNumber: Option<string>,
    status: BranchStatus)

  datatype Customer = Customer(
    id: Id,
    name: string,
    email: string,
    phone: Option<string>,
    address: Option<string>,
    loyaltyPoints: int,
    branchId: Option<Id>)

  datatype Category = Category(id: Id, name: string, description: Option<string>)

  datatype Supplier = Supplier(id: Id, name: string)

  /** An authenticated user: role 1 is a branch cashier, role 2 an administrator. */
  datatype User = User(id: Id, role: int, branchId: Option<Id>)

  /** `invoices`; `branch` holds the branch NAME, not its id. */
  datatype Invoice = Invoice(
    id: Id,
    invoiceNumber: string,
    kind: InvoiceType,
    supplierId: Option<Id>,
    branch: Option<string>,
    customerId: Option<Id>,
    customerName: Option<string>,
    notes: Option<string>,
    dueDate: Option<string>,
    totalAmount: real,
    taxAmount: Option<real>,
    discount: Option<real>,
    status: SaleStatus)

  /** A row of the `invoice_sale` pivot table. */
  datatype InvoiceSale = InvoiceSale(invoiceId: Id, saleId: Id, lineTotal: Option<real>)

  /** The request fields a validation rule can reject. */
  datatype Field =
    | Name | Price | CategoryId | StockQuantity | Description | SupplierId | BranchId
    | CustomerId | CustomerName | Tax | Discount | ProductId | Quantity | Status | TotalAmount
    | Address | ContactNumber | Email | Phone | LoyaltyPoints
    | CategoryName | CategoryDescription
    | SaleIds | Notes | Kind | DueDate | TaxAmount

  /** The request key each field is submitted under. */
  function FieldKey(f: Field): string {
    match f
    case Name => "name"
    case Price => "price"
    case CategoryId => "category_id"
    case StockQuantity => "stock_quantity"
    case Description => "description"
    case SupplierId => "supplier_id"
    case BranchId => "branch_id"
    case CustomerId => "customer_id"
    case CustomerName => "customer_name"
    case Tax => "tax"
    case Discount => "discount"
    case ProductId => "product_id"
    case Quantity => "quantity"
    case Status => "status"
    case TotalAmount => "total_amount"
    case Address => "address"
    case ContactNumber => "contact_number"
    case Email => "email"
    case Phone => "phone"
    case LoyaltyPoints => "loyalty_points"
    case CategoryName => "category_name"
    case CategoryDescription => "category_description"
    case SaleIds => "sales"
    case Notes => "notes"
    case Kind => "type"
    case DueDate => "due_date"
    case TaxAmount => "tax_amount"
  }

  /** What a controller action answers: a redirect carrying a `success`/`message`
      flash, one carrying an `error` flash, a 201 or a 200 whose JSON body is the row with that id, the 404 of
      `findOrFail`, or the validation exception naming the failing fields. */
  datatype Reply =
    | Success(message: string)
    | Failure(message: string)
    | Created(id: Id)
    | Ok(id: Id)
    | NotFound
    | Invalid(fields: seq<Field>)

  /** `isAdmin()` on the user model. */
  predicate IsAdmin(u: User) {
    u.role == 2
  }

  // ---- lookups by primary key (`find`) ----

  predicate HasProduct(ps: seq<Product>, id: Id) {
    exists i :: 0 <= i < |ps| && ps[i].id == id
  }

  predicate HasSale(ss: seq<Sale>, id: Id) {
    exists i :: 0 <= i < |ss| && ss[i].id == id
  }

  predicate HasNotification(ns: seq<StockNotification>, id: Id) {
    exists i :: 0 <= i < |ns| && ns[i].id == id
  }

  predicate HasCustomer(cs: seq<Customer>, id: Id) {
    exists i :: 0 <= i < |cs| && cs[i].id == id
  }

  predicate HasCategory(cs: seq<Category>, id: Id) {
    exists i :: 0 <= i < |cs| && cs[i].id == id
  }

  predicate HasSupplier(ss: seq<Supplier>, id: Id) {
    exists i :: 0 <= i < |ss| && ss[i].id == id
  }

  predicate HasInvoice(vs: seq<Invoice>, id: Id) {
    exists i :: 0 <= i < |vs| && vs[i].id == id
  }

  /** Defined by recursion so that `BranchName` below can recurse on it. */
  predicate HasBranch(bs: seq<Branch>, id: Id) {
    |bs| > 0 && (bs[0].id == id || HasBranch(bs[1..], id))
  }

  /** `$product->branch->name`: the name of the first branch with that id. */
  function BranchName(bs: seq<Branch>, id: Id): string
    requires HasBranch(bs, id)
  {
    if bs[0].id == id then bs[0].name else BranchName(bs[1..], id)
  }

  function FindCustomer(cs: seq<Customer>, id: Id): (r: Option<Customer>)
    ensures r.Some? <==> HasCustomer(cs, id)
    ensures r.Some? ==> r.value in cs && r.value.id == id
  {
    if cs == [] then None
    else if cs[0].id == id then Some(cs[0])
    else
      var r := FindCustomer(cs[1..], id);
      assert HasCustomer(cs, id) ==> HasCustomer(cs[1..], id) by {
        if HasCustomer(cs, id) {
          var i :| 0 <= i < |cs| && cs[i].id == id;
          assert cs[1..][i - 1] == cs[i];
        }
      }
      r
  }

  function FindBranch(bs: seq<Branch>, id: Id): (r: Option<Branch>)
    ensures r.Some? <==> HasBranch(bs, id)
    ensures r.Some? ==> r.value in bs && r.value.id == id
  {
    if bs == [] then None
    else if bs[0].id == id then Some(bs[0])
    else FindBranch(bs[1..], id)
  }

  /** The related branch's name is the name of the row `find` returns. */
  lemma {:induction false} BranchNameOfFound(bs: seq<Branch>, id: Id)
    requires HasBranch(bs, id)
    ensures FindBranch(bs, id).Some? && BranchName(bs, id) == FindBranch(bs, id).value.name
  {
    if bs[0].id != id {
      BranchNameOfFound(bs[1..], id);
    }
  }

  // ---- table invariants: unique ids, all below the next auto-increment value ----

  ghost predicate ProductKeys(ps: seq<Product>, next: nat) {
    (forall i, j :: 0 <= i < j < |ps| ==> ps[i].id != ps[j].id)
    && (forall i :: 0 <= i < |ps| ==> ps[i].id < next)
  }

  ghost predicate SaleKeys(ss: seq<Sale>, next: nat) {
    (forall i, j :: 0 <= i < j < |ss| ==> ss[i].id != ss[j].id)
    && (forall i :: 0 <= i < |ss| ==> ss[i].id < next)
  }

  ghost predicate NotificationKeys(ns: seq<StockNotification>, next: nat) {
    (forall i, j :: 0 <= i < j < |ns| ==> ns[i].id != ns[j].id)
    && (forall i :: 0 <= i < |ns| ==> ns[i].id < next)
  }

  ghost predicate BranchKeys(bs: seq<Branch>, next: nat) {
    (forall i, j :: 0 <= i < j < |bs| ==> bs[i].id != bs[j].id)
    && (forall i :: 0 <= i < |bs| ==> bs[i].id < next)
  }

  ghost predicate CustomerKeys(cs: seq<Customer>, next: nat) {
    (forall i, j :: 0 <= i < j < |cs| ==> cs[i].id != cs[j].id)
    && (forall i :: 0 <= i < |cs| ==> cs[i].id < next)
  }

  ghost predicate CategoryKeys(cs: seq<Category>, next: nat) {
    (forall i, j :: 0 <= i < j < |cs| ==> cs[i].id != cs[j].id)
    && (forall i :: 0 <= i < |cs| ==> cs[i].id < next)
  }

  ghost predicate InvoiceKeys(vs: seq<Invoice>, next: nat) {
    (forall i, j :: 0 <= i < j < |vs| ==> vs[i].id != vs[j].id)
    && (forall i :: 0 <= i < |vs| ==> vs[i].id < next)
  }
}
