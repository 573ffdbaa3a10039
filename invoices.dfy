/** The invoice controller: creating an invoice with its defaults and the
    sales it groups, the role scope, filters and summary of the list, the
    computed sales total and difference shown for each invoice, the partial
    update, and the delete that cascades to the pivot rows. The random part of
    the invoice number and the `date` rule are parameters. */
module InvoiceController {
  import opened Wrappers
  import opened Entities
  import opened Database
  import opened Validation
  import Seqs
  import Text

  const NumberPrefix: string := "INV-"
  const DeletedMessage: string := "Invoice deleted successfully."
  /** `paginate(10)`. */
  const PerPage: nat := 10

  /** The fields of a create request; `None` is a field the request does not carry. */
  datatype InvoiceRequest = InvoiceRequest(
    customerId: Option<Id>,
    supplierId: Option<Id>,
    totalAmount: Option<real>,
    status: Option<string>,
    customerName: Option<string>,
    sales: Option<seq<Id>>,
    notes: Option<string>,
    kind: Option<string>,
    dueDate: Option<string>,
    taxAmount: Option<real>,
    discount: Option<real>)

  // ---- validation ----

  predicate CustomerOk(v: Option<Id>, cs: seq<Customer>) { v.None? || HasCustomer(cs, v.value) }
  predicate SupplierOk(v: Option<Id>, sups: seq<Supplier>) { v.None? || HasSupplier(sups, v.value) }
  predicate StatusOk(v: Option<string>) { v.Some? && ParseStatus(v.value).Some? }
  predicate KindOk(v: Option<string>) { v.Some? && ParseInvoiceType(v.value).Some? }
  predicate DueDateOk(v: Option<string>, isDate: string -> bool) { v.None? || isDate(v.value) }

  /** `sales.*` => `exists:sales,id`: every selected id is a sale. */
  predicate SalesOk(v: Option<seq<Id>>, ss: seq<Sale>) {
    v.None? || forall i :: 0 <= i < |v.value| ==> HasSale(ss, v.value[i])
  }

  predicate Acceptable(q: InvoiceRequest, db: DbView, isDate: string -> bool) {
    CustomerOk(q.customerId, db.customers) && SupplierOk(q.supplierId, db.suppliers)
    && NonNegative(q.totalAmount) && StatusOk(q.status) && AtMost(q.customerName, 255)
    && SalesOk(q.sales, db.sales) && AtMost(q.notes, 1000) && KindOk(q.kind)
    && DueDateOk(q.dueDate, isDate) && NonNegativeIfGiven(q.taxAmount) && NonNegativeIfGiven(q.discount)
  }

  /** The tables validation and `store` read. */
  datatype DbView = DbView(customers: seq<Customer>, suppliers: seq<Supplier>, sales: seq<Sale>, branches: seq<Branch>)

  /** The failing fields of a create request, in rule order. */
  function StoreErrors(q: InvoiceRequest, db: DbView, isDate: string -> bool): (r: seq<Field>)
    ensures r == [] <==> Acceptable(q, db, isDate)
    ensures SaleIds in r <==> !SalesOk(q.sales, db.sales)
  {
    FieldIf(!CustomerOk(q.customerId, db.customers), CustomerId)
    + FieldIf(!SupplierOk(q.supplierId, db.suppliers), SupplierId)
    + FieldIf(!NonNegative(q.totalAmount), TotalAmount)
    + FieldIf(!StatusOk(q.status), Status)
    + FieldIf(!AtMost(q.customerName, 255), CustomerName)
    + FieldIf(!SalesOk(q.sales, db.sales), SaleIds)
    + FieldIf(!AtMost(q.notes, 1000), Notes)
    + FieldIf(!KindOk(q.kind), Kind)
    + FieldIf(!DueDateOk(q.dueDate, isDate), DueDate)
    + FieldIf(!NonNegativeIfGiven(q.taxAmount), TaxAmount)
    + FieldIf(!NonNegativeIfGiven(q.discount), Discount)
  }

  // ---- the row `store` creates ----

  /** A `customer_id` PHP treats as true: present and not 0. */
  predicate Truthy(v: Option<Id>) { v.Some? && v.value != 0 }

  /** The registered customer's name when `customer_id` is truthy, otherwise `fallback`. */
  function RegisteredNameOr(customerId: Option<Id>, fallback: Option<string>, cs: seq<Customer>): (r: Option<string>)
    requires CustomerOk(customerId, cs)
    ensures Truthy(customerId) ==>
      exists i :: 0 <= i < |cs| && cs[i].id == customerId.value && r == Some(cs[i].name)
    ensures !Truthy(customerId) ==> r == fallback
  {
    if Truthy(customerId) then
      var c := FindCustomer(cs, customerId.value);
      assert c.value in cs;
      Some(c.value.name)
    else fallback
  }

  /** `Branch::find($user->branch_id)?->name` when the user's branch id is truthy, else null. */
  function CreatorBranch(u: User, bs: seq<Branch>): (r: Option<string>)
    ensures r.Some? <==> Truthy(u.branchId) && HasBranch(bs, u.branchId.value)
    ensures r.Some? ==> exists i :: 0 <= i < |bs| && bs[i].id == u.branchId.value && r.value == bs[i].name
  {
    if Truthy(u.branchId) then
      var b := FindBranch(bs, u.branchId.value);
      if b.Some? then
        assert b.value in bs;
        Some(b.value.name)
      else None
    else None
  }

  /** The invoice `store` creates under `id`; `suffix` stands for `strtoupper(uniqid())`. */
  function NewInvoice(q: InvoiceRequest, db: DbView, u: User, id: Id, suffix: string): (v: Invoice)
    requires q.totalAmount.Some? && StatusOk(q.status) && KindOk(q.kind) && CustomerOk(q.customerId, db.customers)
    ensures v.id == id && Text.IsPrefix(NumberPrefix, v.invoiceNumber)
    ensures v.customerName == RegisteredNameOr(q.customerId, q.customerName, db.customers)
    ensures v.branch == CreatorBranch(u, db.branches)
    ensures v.taxAmount == Some(q.taxAmount.GetOr(0.0)) && v.discount == Some(q.discount.GetOr(0.0))
    ensures v.customerId == q.customerId && v.supplierId == q.supplierId
    ensures v.notes == q.notes && v.dueDate == q.dueDate && v.totalAmount == q.totalAmount.value
    ensures Some(v.status) == ParseStatus(q.status.value) && Some(v.kind) == ParseInvoiceType(q.kind.value)
  {
    Invoice(id, NumberPrefix + suffix, ParseInvoiceType(q.kind.value).value, q.supplierId,
            CreatorBranch(u, db.branches), q.customerId,
            RegisteredNameOr(q.customerId, q.customerName, db.customers),
            q.notes, q.dueDate, q.totalAmount.value,
            Some(q.taxAmount.GetOr(0.0)), Some(q.discount.GetOr(0.0)), ParseStatus(q.status.value).value)
  }

  // ---- the pivot rows ----

  /** The ids in first-occurrence order with repeats dropped, as the keys of `mapWithKeys`. */
  function Dedup(s: seq<Id>): (r: seq<Id>)
    ensures forall x :: x in r <==> x in s
    ensures forall i, j :: 0 <= i < j < |r| ==> r[i] != r[j]
    ensures |r| <= |s|
  {
    if s == [] then []
    else
      var rest := Dedup(s[..|s| - 1]);
      var x := s[|s| - 1];
      assert s == s[..|s| - 1] + [x];
      if x in rest then rest else rest + [x]
  }

  /** One pivot row per id, with a null `line_total`. */
  function Attach(invoiceId: Id, ids: seq<Id>): (r: seq<InvoiceSale>)
    ensures |r| == |ids|
    ensures forall i :: 0 <= i < |ids| ==> r[i] == InvoiceSale(invoiceId, ids[i], None)
  {
    if ids == [] then [] else [InvoiceSale(invoiceId, ids[0], None)] + Attach(invoiceId, ids[1..])
  }

  /** The ids `sync` attaches: none unless `sales` is filled, each selected id once. */
  function Selected(q: InvoiceRequest): (r: seq<Id>)
    ensures forall x :: x in r <==> q.sales.Some? && x in q.sales.value
    ensures forall i, j :: 0 <= i < j < |r| ==> r[i] != r[j]
  {
    if q.sales.Some? && |q.sales.value| > 0 then Dedup(q.sales.value) else []
  }

  /** `unique(['invoice_id', 'sale_id'])`. */
  predicate PairsUnique(rows: seq<InvoiceSale>) {
    forall i, j :: 0 <= i < j < |rows| ==>
      !(rows[i].invoiceId == rows[j].invoiceId && rows[i].saleId == rows[j].saleId)
  }

  /** The pivot's constraints: unique pairs, and every row names an existing invoice id. */
  ghost predicate PivotOk(rows: seq<InvoiceSale>, nextInvoiceId: nat) {
    PairsUnique(rows) && forall i :: 0 <= i < |rows| ==> rows[i].invoiceId < nextInvoiceId
  }

  /** Attaching distinct sales to a fresh invoice keeps the pivot's constraints. */
  lemma AttachKeepsPivot(rows: seq<InvoiceSale>, next: nat, ids: seq<Id>)
    requires PivotOk(rows, next)
    requires forall i, j :: 0 <= i < j < |ids| ==> ids[i] != ids[j]
    ensures PivotOk(rows + Attach(next, ids), next + 1)
  {
    var a := Attach(next, ids);
    var r := rows + a;
    forall i, j | 0 <= i < j < |r| ensures !(r[i].invoiceId == r[j].invoiceId && r[i].saleId == r[j].saleId) {
      if j >= |rows| {
        assert r[j] == a[j - |rows|];
        if i >= |rows| {
          assert r[i] == a[i - |rows|];
        }
      }
    }
  }

  /** `store`: validates, creates the invoice, then attaches the selected sales. */
  method Store(db: Database.Store, q: InvoiceRequest, u: User, suffix: string, isDate: string -> bool)
    returns (reply: Reply)
    requires db.Valid()
    modifies db`invoices, db`nextInvoiceId, db`invoiceSales
    ensures db.Valid()
    ensures !Acceptable(q, DbView(db.customers, db.suppliers, db.sales, db.branches), isDate) ==>
      reply == Invalid(StoreErrors(q, DbView(db.customers, db.suppliers, db.sales, db.branches), isDate))
      && db.invoices == old(db.invoices) && db.invoiceSales == old(db.invoiceSales)
      && db.nextInvoiceId == old(db.nextInvoiceId)
    ensures Acceptable(q, DbView(db.customers, db.suppliers, db.sales, db.branches), isDate) ==>
      reply == Created(old(db.nextInvoiceId)) && db.nextInvoiceId == old(db.nextInvoiceId) + 1
      && db.invoices == old(db.invoices) + [NewInvoice(q, DbView(db.customers, db.suppliers, db.sales, db.branches), u, old(db.nextInvoiceId), suffix)]
      && db.invoiceSales == old(db.invoiceSales) + Attach(old(db.nextInvoiceId), Selected(q))
    ensures PivotOk(old(db.invoiceSales), old(db.nextInvoiceId)) ==> PivotOk(db.invoiceSales, db.nextInvoiceId)
  {
    var view := DbView(db.customers, db.suppliers, db.sales, db.branches);
    var errors := StoreErrors(q, view, isDate);
    if errors != [] {
      return Invalid(errors);
    }
    var id := db.nextInvoiceId;
    var rows := Attach(id, Selected(q));
    if PivotOk(db.invoiceSales, id) {
      AttachKeepsPivot(db.invoiceSales, id, Selected(q));
    }
    db.InsertInvoice(NewInvoice(q, view, u, id, suffix), rows);
    reply := Created(id);
  }

  // ---- `$invoice->sales`, its sum and the difference ----

  /** The sales attached to invoice `id`, in pivot order, as the join finds them. */
  function AttachedSales(rows: seq<InvoiceSale>, ss: seq<Sale>, id: Id): (r: seq<Sale>)
    ensures |r| <= |rows|
    ensures forall i :: 0 <= i < |r| ==> r[i] in ss
  {
    if rows == [] then []
    else
      var rest := AttachedSales(rows[1..], ss, id);
      if rows[0].invoiceId == id then
        var k := Seqs.Find(ss, (s: Sale) => s.id == rows[0].saleId);
        if k.Some? then [ss[k.value]] + rest else rest
      else rest
  }

  /** `->sum('total_amount')`. */
  function TotalOf(ss: seq<Sale>): real {
    if ss == [] then 0.0 else ss[0].totalAmount + TotalOf(ss[1..])
  }

  lemma {:induction false} TotalOfAppend(a: seq<Sale>, b: seq<Sale>)
    ensures TotalOf(a + b) == TotalOf(a) + TotalOf(b)
  {
    if a == [] {
      assert a + b == b;
    } else {
      assert (a + b)[1..] == a[1..] + b;
      TotalOfAppend(a[1..], b);
    }
  }

  lemma {:induction false} AttachedAppend(a: seq<InvoiceSale>, b: seq<InvoiceSale>, ss: seq<Sale>, id: Id)
    ensures AttachedSales(a + b, ss, id) == AttachedSales(a, ss, id) + AttachedSales(b, ss, id)
  {
    if a == [] {
      assert a + b == b;
    } else {
      assert (a + b)[1..] == a[1..] + b;
      AttachedAppend(a[1..], b, ss, id);
    }
  }

  /** An invoice no pivot row names has no sales. */
  lemma {:induction false} NoRowsNoSales(rows: seq<InvoiceSale>, ss: seq<Sale>, id: Id)
    requires forall i :: 0 <= i < |rows| ==> rows[i].invoiceId != id
    ensures AttachedSales(rows, ss, id) == []
  {
    if rows != [] {
      NoRowsNoSales(rows[1..], ss, id);
    }
  }

  /** The `total_amount` of the sale with id `sid`. */
  function SaleAmount(ss: seq<Sale>, sid: Id): real {
    var k := Seqs.Find(ss, (s: Sale) => s.id == sid);
    if k.Some? then ss[k.value].totalAmount else 0.0
  }

  /** The summed `total_amount` of the sales with the given ids. */
  function SumAmounts(ids: seq<Id>, ss: seq<Sale>): real {
    if ids == [] then 0.0 else SaleAmount(ss, ids[0]) + SumAmounts(ids[1..], ss)
  }

  /** The rows `Attach` writes bring back exactly the selected sales, in order,
      and their total is the sum of the selected sales' amounts. */
  lemma {:induction false} AttachedOfAttach(id: Id, ids: seq<Id>, ss: seq<Sale>)
    requires forall i :: 0 <= i < |ids| ==> HasSale(ss, ids[i])
    ensures var r := AttachedSales(Attach(id, ids), ss, id);
      |r| == |ids| && (forall i :: 0 <= i < |ids| ==> r[i].id == ids[i])
      && TotalOf(r) == SumAmounts(ids, ss)
  {
    if ids != [] {
      var a := Attach(id, ids);
      assert a[1..] == Attach(id, ids[1..]);
      AttachedOfAttach(id, ids[1..], ss);
      var k := Seqs.Find(ss, (s: Sale) => s.id == ids[0]);
      assert HasSale(ss, ids[0]);
      assert k.Some?;
      var rest := AttachedSales(Attach(id, ids[1..]), ss, id);
      var r := AttachedSales(a, ss, id);
      assert r == [ss[k.value]] + rest;
      assert r[1..] == rest;
    }
  }

  /** A newly stored invoice's sales are the distinct selected sales, each once, and
      its computed total is the sum of their amounts. */
  lemma StoredInvoiceSales(rows: seq<InvoiceSale>, ss: seq<Sale>, next: nat, q: InvoiceRequest)
    requires PivotOk(rows, next)
    requires SalesOk(q.sales, ss)
    ensures var r := AttachedSales(rows + Attach(next, Selected(q)), ss, next);
      |r| == |Selected(q)|
      && (forall i :: 0 <= i < |r| ==> r[i].id in Selected(q))
      && (forall i, j :: 0 <= i < j < |r| ==> r[i].id != r[j].id)
      && TotalOf(r) == SumAmounts(Selected(q), ss)
  {
    var ids := Selected(q);
    forall i | 0 <= i < |ids| ensures HasSale(ss, ids[i]) {
      assert ids[i] in q.sales.value;
    }
    NoRowsNoSales(rows, ss, next);
    AttachedAppend(rows, Attach(next, ids), ss, next);
    AttachedOfAttach(next, ids, ss);
    var r := AttachedSales(rows + Attach(next, ids), ss, next);
    assert r == AttachedSales(Attach(next, ids), ss, next);
    assert forall i :: 0 <= i < |r| ==> r[i].id == ids[i];
  }

  /** One entry of the list or the detail page. */
  datatype InvoiceRow = InvoiceRow(
    id: Id,
    invoiceNumber: string,
    kind: InvoiceType,
    status: SaleStatus,
    branch: Option<string>,
    totalAmount: real,
    computedSalesTotal: real,
    difference: real,
    salesCount: nat,
    saleIds: seq<Id>)

  /** What `index` and `show` report for an invoice. */
  function Present(v: Invoice, rows: seq<InvoiceSale>, ss: seq<Sale>): (r: InvoiceRow)
    ensures r.id == v.id && r.totalAmount == v.totalAmount && r.invoiceNumber == v.invoiceNumber
    ensures r.computedSalesTotal == TotalOf(AttachedSales(rows, ss, v.id))
    ensures r.difference == v.totalAmount - r.computedSalesTotal
    ensures r.salesCount == |AttachedSales(rows, ss, v.id)| == |r.saleIds|
  {
    var attached := AttachedSales(rows, ss, v.id);
    InvoiceRow(v.id, v.invoiceNumber, v.kind, v.status, v.branch, v.totalAmount,
               TotalOf(attached), v.totalAmount - TotalOf(attached), |attached|,
               seq(|attached|, i requires 0 <= i < |attached| => attached[i].id))
  }

  /** The difference is zero exactly when the entered total equals the sales' sum,
      and an invoice without sales reports its whole total as the difference. */
  lemma DifferenceMeaning(v: Invoice, rows: seq<InvoiceSale>, ss: seq<Sale>)
    ensures Present(v, rows, ss).difference == 0.0 <==> v.totalAmount == TotalOf(AttachedSales(rows, ss, v.id))
    ensures (forall i :: 0 <= i < |rows| ==> rows[i].invoiceId != v.id) ==> Present(v, rows, ss).difference == v.totalAmount
  {
    if forall i :: 0 <= i < |rows| ==> rows[i].invoiceId != v.id {
      NoRowsNoSales(rows, ss, v.id);
    }
  }

  /** `show($id)`. */
  function Show(vs: seq<Invoice>, rows: seq<InvoiceSale>, ss: seq<Sale>, id: Id): (r: Option<InvoiceRow>)
    ensures r.None? <==> !HasInvoice(vs, id)
    ensures r.Some? ==> exists i :: 0 <= i < |vs| && vs[i].id == id && r.value == Present(vs[i], rows, ss)
  {
    var k := Seqs.Find(vs, (v: Invoice) => v.id == id);
    if k.Some? then Some(Present(vs[k.value], rows, ss)) else None
  }

  // ---- `index` ----

  /** The branch name a cashier's invoices must carry: `$user->branch?->name` when truthy. */
  function CashierBranch(u: User, bs: seq<Branch>): (r: Option<string>)
    ensures r.Some? ==> Text.PhpTruthy(r.value) && u.branchId.Some? && HasBranch(bs, u.branchId.value)
    ensures u.branchId.None? ==> r.None?
  {
    if u.branchId.Some? && HasBranch(bs, u.branchId.value) && Text.PhpTruthy(BranchName(bs, u.branchId.value))
    then Some(BranchName(bs, u.branchId.value))
    else None
  }

  /** The role scope: a role-1 user sees the invoices of their branch name, or none
      without one; every other role sees all. */
  function Scope(vs: seq<Invoice>, u: User, bs: seq<Branch>): (r: seq<Invoice>)
    ensures |r| <= |vs|
  {
    if u.role != 1 then vs
    else
      var name := CashierBranch(u, bs);
      if name.Some? then Seqs.Filter(vs, (v: Invoice) => v.branch == name) else []
  }

  lemma ScopeExact(vs: seq<Invoice>, u: User, bs: seq<Branch>, v: Invoice)
    ensures v in Scope(vs, u, bs) <==>
      v in vs && (u.role != 1 || (CashierBranch(u, bs).Some? && v.branch == CashierBranch(u, bs)))
  {
    var name := CashierBranch(u, bs);
    if u.role == 1 && name.Some? {
      Seqs.FilterMembership(vs, (v: Invoice) => v.branch == name, v);
    }
  }

  /** A cashier without a branch sees no invoice at all. */
  lemma CashierWithoutBranchSeesNothing(vs: seq<Invoice>, u: User, bs: seq<Branch>)
    requires u.role == 1 && u.branchId.None?
    ensures Scope(vs, u, bs) == []
  {
  }

  function KindKey(k: InvoiceType): string {
    match k
    case Purchase => "purchase"
    case SaleInvoice => "sale"
  }

  /** The optional `status`, `type` and `q` filters; a falsy value sets no filter. */
  predicate MatchesFilters(v: Invoice, status: Option<string>, kind: Option<string>, search: Option<string>) {
    (status.None? || !Text.PhpTruthy(status.value) || StatusKey(v.status) == status.value)
    && (kind.None? || !Text.PhpTruthy(kind.value) || KindKey(v.kind) == kind.value)
    && (search.None? || !Text.PhpTruthy(search.value)
        || Text.Contains(v.invoiceNumber, search.value)
        || (v.customerName.Some? && Text.Contains(v.customerName.value, search.value)))
  }

  /** Scope, filters and `latest()`: the newest invoice first. */
  function Listing(vs: seq<Invoice>, u: User, bs: seq<Branch>,
                   status: Option<string>, kind: Option<string>, search: Option<string>): (r: seq<Invoice>)
    ensures forall v :: v in r <==> v in Scope(vs, u, bs) && MatchesFilters(v, status, kind, search)
  {
    var keep := (v: Invoice) => MatchesFilters(v, status, kind, search);
    var f := Seqs.Filter(Scope(vs, u, bs), keep);
    var r := Seqs.Reverse(f);
    forall v ensures v in r <==> v in f {
      if v in f {
        var i :| 0 <= i < |f| && f[i] == v;
        assert r[|f| - 1 - i] == v;
      }
    }
    forall v ensures v in f <==> v in Scope(vs, u, bs) && keep(v) {
      Seqs.FilterMembership(Scope(vs, u, bs), keep, v);
    }
    r
  }

  /** The page number the paginator uses: the request's when it is at least 1, else 1. */
  function ResolvePage(p: Option<int>): (r: nat)
    ensures r >= 1
    ensures p.Some? && p.value >= 1 ==> r == p.value
    ensures !(p.Some? && p.value >= 1) ==> r == 1
  {
    if p.Some? && p.value >= 1 then p.value else 1
  }

  /** Page `page` of `list`, `PerPage` entries to a page. */
  function Page<T>(list: seq<T>, page: nat): (r: seq<T>)
    requires page >= 1
    ensures |r| <= PerPage
    ensures forall i :: 0 <= i < |r| ==> (page - 1) * PerPage + i < |list| && r[i] == list[(page - 1) * PerPage + i]
    ensures (page - 1) * PerPage + PerPage <= |list| ==> |r| == PerPage
  {
    var lo := if (page - 1) * PerPage <= |list| then (page - 1) * PerPage else |list|;
    var hi := if page * PerPage <= |list| then page * PerPage else |list|;
    list[lo..hi]
  }

  /** `summary`, over every invoice whatever the scope and filters. */
  datatype Summary = Summary(total: nat, pending: nat, paid: nat, canceled: nat)

  function CountStatus(vs: seq<Invoice>, st: SaleStatus): (n: nat)
    ensures n <= |vs|
  {
    if vs == [] then 0 else (if vs[0].status == st then 1 else 0) + CountStatus(vs[1..], st)
  }

  /** Every invoice is counted under exactly one status. */
  lemma {:induction false} StatusCountsPartition(vs: seq<Invoice>)
    ensures CountStatus(vs, Pending) + CountStatus(vs, Paid) + CountStatus(vs, Canceled) == |vs|
  {
    if vs != [] {
      StatusCountsPartition(vs[1..]);
    }
  }

  /** What `index` renders: the page's rows, and the summary. */
  datatype IndexPage = IndexPage(rows: seq<InvoiceRow>, currentPage: nat, summary: Summary)

  function Index(vs: seq<Invoice>, pivot: seq<InvoiceSale>, ss: seq<Sale>, u: User, bs: seq<Branch>,
                 status: Option<string>, kind: Option<string>, search: Option<string>, page: Option<int>): (r: IndexPage)
    ensures r.summary.total == |Listing(vs, u, bs, status, kind, search)|
    ensures r.summary.pending + r.summary.paid + r.summary.canceled == |vs|
    ensures r.summary.pending == CountStatus(vs, Pending) && r.summary.paid == CountStatus(vs, Paid)
    ensures r.currentPage == ResolvePage(page) && |r.rows| <= PerPage
    ensures forall i :: 0 <= i < |r.rows| ==>
      var k := (r.currentPage - 1) * PerPage + i;
      k < |Listing(vs, u, bs, status, kind, search)|
      && r.rows[i] == Present(Listing(vs, u, bs, status, kind, search)[k], pivot, ss)
  {
    var list := Listing(vs, u, bs, status, kind, search);
    var p := ResolvePage(page);
    StatusCountsPartition(vs);
    IndexPage(PresentPage(list, p, pivot, ss), p,
              Summary(|list|, CountStatus(vs, Pending), CountStatus(vs, Paid), CountStatus(vs, Canceled)))
  }

  /** The entries of page `p` of `list`, each presented. */
  function PresentPage(list: seq<Invoice>, p: nat, pivot: seq<InvoiceSale>, ss: seq<Sale>): (rows: seq<InvoiceRow>)
    requires p >= 1
    ensures |rows| <= PerPage
    ensures forall i :: 0 <= i < |rows| ==>
      (p - 1) * PerPage + i < |list| && rows[i] == Present(list[(p - 1) * PerPage + i], pivot, ss)
  {
    var onPage := Page(list, p);
    seq(|onPage|, i requires 0 <= i < |onPage| => Present(onPage[i], pivot, ss))
  }

  // ---- `update` ----

  /** The fields `update` reads; `None` is a field the request does not carry. */
  datatype InvoiceUpdate = InvoiceUpdate(
    customerId: Option<Id>,
    supplierId: Option<Id>,
    totalAmount: Option<real>,
    status: Option<string>,
    customerName: Option<string>,
    notes: Option<string>,
    dueDate: Option<string>,
    taxAmount: Option<real>,
    discount: Option<real>)

  predicate UpdateAcceptable(q: InvoiceUpdate, cs: seq<Customer>, sups: seq<Supplier>, isDate: string -> bool) {
    CustomerOk(q.customerId, cs) && SupplierOk(q.supplierId, sups)
    && NonNegativeIfGiven(q.totalAmount) && (q.status.None? || StatusOk(q.status))
    && AtMost(q.customerName, 255) && AtMost(q.notes, 1000) && DueDateOk(q.dueDate, isDate)
    && NonNegativeIfGiven(q.taxAmount) && NonNegativeIfGiven(q.discount)
  }

  /** The failing fields of an update (`total_amount` and `status` are `sometimes`). */
  function UpdateErrors(q: InvoiceUpdate, cs: seq<Customer>, sups: seq<Supplier>, isDate: string -> bool): (r: seq<Field>)
    ensures r == [] <==> UpdateAcceptable(q, cs, sups, isDate)
  {
    FieldIf(!CustomerOk(q.customerId, cs), CustomerId)
    + FieldIf(!SupplierOk(q.supplierId, sups), SupplierId)
    + FieldIf(!NonNegativeIfGiven(q.totalAmount), TotalAmount)
    + FieldIf(!(q.status.None? || StatusOk(q.status)), Status)
    + FieldIf(!AtMost(q.customerName, 255), CustomerName)
    + FieldIf(!AtMost(q.notes, 1000), Notes)
    + FieldIf(!DueDateOk(q.dueDate, isDate), DueDate)
    + FieldIf(!NonNegativeIfGiven(q.taxAmount), TaxAmount)
    + FieldIf(!NonNegativeIfGiven(q.discount), Discount)
  }

  /** `$request->only(...)` applied to the row, with a truthy `customer_id` replacing
      the name by the registered customer's. */
  function Edited(v: Invoice, q: InvoiceUpdate, cs: seq<Customer>): (r: Invoice)
    requires CustomerOk(q.customerId, cs) && (q.status.None? || StatusOk(q.status))
    ensures r.id == v.id && r.invoiceNumber == v.invoiceNumber && r.kind == v.kind && r.branch == v.branch
    ensures r.customerId == (if q.customerId.Some? then q.customerId else v.customerId)
    ensures r.supplierId == (if q.supplierId.Some? then q.supplierId else v.supplierId)
    ensures r.totalAmount == q.totalAmount.GetOr(v.totalAmount)
    ensures q.status.Some? ==> Some(r.status) == ParseStatus(q.status.value)
    ensures q.status.None? ==> r.status == v.status
    ensures r.customerName == RegisteredNameOr(q.customerId, if q.customerName.Some? then q.customerName else v.customerName, cs)
    ensures r.notes == (if q.notes.Some? then q.notes else v.notes)
    ensures r.dueDate == (if q.dueDate.Some? then q.dueDate else v.dueDate)
    ensures r.taxAmount == (if q.taxAmount.Some? then q.taxAmount else v.taxAmount)
    ensures r.discount == (if q.discount.Some? then q.discount else v.discount)
  {
    var name := RegisteredNameOr(q.customerId, if q.customerName.Some? then q.customerName else v.customerName, cs);
    v.(customerId := if q.customerId.Some? then q.customerId else v.customerId,
       supplierId := if q.supplierId.Some? then q.supplierId else v.supplierId,
       totalAmount := q.totalAmount.GetOr(v.totalAmount),
       status := if q.status.Some? then ParseStatus(q.status.value).value else v.status,
       customerName := name,
       notes := if q.notes.Some? then q.notes else v.notes,
       dueDate := if q.dueDate.Some? then q.dueDate else v.dueDate,
       taxAmount := if q.taxAmount.Some? then q.taxAmount else v.taxAmount,
       discount := if q.discount.Some? then q.discount else v.discount)
  }

  /** With a truthy `customer_id`, a supplied name is discarded for the registered customer's. */
  lemma SuppliedNameIgnored(v: Invoice, q: InvoiceUpdate, cs: seq<Customer>, other: string)
    requires CustomerOk(q.customerId, cs) && (q.status.None? || StatusOk(q.status)) && Truthy(q.customerId)
    ensures exists i :: (0 <= i < |cs| && cs[i].id == q.customerId.value
      && Edited(v, q.(customerName := Some(other)), cs).customerName == Some(cs[i].name))
    ensures Edited(v, q.(customerName := Some(other)), cs).customerName == Edited(v, q.(customerName := None), cs).customerName
  {
  }

  function EditRow(vs: seq<Invoice>, id: Id, q: InvoiceUpdate, cs: seq<Customer>): (r: seq<Invoice>)
    requires CustomerOk(q.customerId, cs) && (q.status.None? || StatusOk(q.status))
    ensures |r| == |vs|
    ensures forall i :: 0 <= i < |vs| && vs[i].id == id ==> r[i] == Edited(vs[i], q, cs)
    ensures forall i :: 0 <= i < |vs| && vs[i].id != id ==> r[i] == vs[i]
  {
    if vs == [] then []
    else [if vs[0].id == id then Edited(vs[0], q, cs) else vs[0]] + EditRow(vs[1..], id, q, cs)
  }

  lemma EditRowKeepsKeys(vs: seq<Invoice>, id: Id, q: InvoiceUpdate, cs: seq<Customer>, next: nat)
    requires CustomerOk(q.customerId, cs) && (q.status.None? || StatusOk(q.status))
    requires InvoiceKeys(vs, next)
    ensures InvoiceKeys(EditRow(vs, id, q, cs), next)
  {
    var r := EditRow(vs, id, q, cs);
    assert forall i :: 0 <= i < |r| ==> r[i].id == vs[i].id;
  }

  /** `update($id)`: looked up first, then validated; answers with the updated row. */
  method Update(db: Database.Store, id: Id, q: InvoiceUpdate, isDate: string -> bool) returns (reply: Reply)
    requires db.Valid()
    modifies db`invoices
    ensures db.Valid()
    ensures if !HasInvoice(old(db.invoices), id) then
        reply == NotFound && db.invoices == old(db.invoices)
      else if !UpdateAcceptable(q, db.customers, db.suppliers, isDate) then
        reply == Invalid(UpdateErrors(q, db.customers, db.suppliers, isDate)) && db.invoices == old(db.invoices)
      else
        reply == Ok(id) && db.invoices == EditRow(old(db.invoices), id, q, db.customers)
  {
    var found := Seqs.Find(db.invoices, (v: Invoice) => v.id == id);   // findOrFail
    if found.None? {
      return NotFound;
    }
    var errors := UpdateErrors(q, db.customers, db.suppliers, isDate);
    if errors != [] {
      return Invalid(errors);
    }
    EditRowKeepsKeys(db.invoices, id, q, db.customers, db.nextInvoiceId);
    db.invoices := EditRow(db.invoices, id, q, db.customers);
    reply := Ok(id);
  }

  // ---- `destroy` ----

  function WithoutInvoice(vs: seq<Invoice>, id: Id): (r: seq<Invoice>)
    ensures |r| <= |vs|
  {
    Seqs.Filter(vs, (v: Invoice) => v.id != id)
  }

  /** The pivot after `cascadeOnDelete`: the invoice's rows are gone. */
  function Detach(rows: seq<InvoiceSale>, id: Id): (r: seq<InvoiceSale>)
    ensures |r| <= |rows|
  {
    Seqs.Filter(rows, (x: InvoiceSale) => x.invoiceId != id)
  }

  /** After the cascade the deleted invoice has no sales and every other invoice keeps its own. */
  lemma {:induction false} DetachExact(rows: seq<InvoiceSale>, ss: seq<Sale>, id: Id, other: Id)
    ensures AttachedSales(Detach(rows, id), ss, id) == []
    ensures other != id ==> AttachedSales(Detach(rows, id), ss, other) == AttachedSales(rows, ss, other)
  {
    if rows != [] {
      DetachExact(rows[1..], ss, id, other);
      var keep := (x: InvoiceSale) => x.invoiceId != id;
      if keep(rows[0]) {
        assert Detach(rows, id) == [rows[0]] + Detach(rows[1..], id);
        assert ([rows[0]] + Detach(rows[1..], id))[1..] == Detach(rows[1..], id);
      } else {
        assert Detach(rows, id) == Detach(rows[1..], id);
      }
    }
  }

  /** `destroy($id)`. */
  method Destroy(db: Database.Store, id: Id) returns (reply: Reply)
    requires db.Valid()
    modifies db`invoices, db`invoiceSales
    ensures db.Valid()
    ensures !HasInvoice(old(db.invoices), id) ==>
      reply == NotFound && db.invoices == old(db.invoices) && db.invoiceSales == old(db.invoiceSales)
    ensures HasInvoice(old(db.invoices), id) ==>
      reply == Success(DeletedMessage) && db.invoices == WithoutInvoice(old(db.invoices), id)
      && db.invoiceSales == Detach(old(db.invoiceSales), id)
  {
    var found := Seqs.Find(db.invoices, (v: Invoice) => v.id == id);   // findOrFail
    if found.None? {
      return NotFound;
    }
    var keep := (v: Invoice) => v.id != id;
    var key := (v: Invoice) => v.id;
    Seqs.FilterKeepsKeys(db.invoices, keep, key, db.nextInvoiceId);
    var r := WithoutInvoice(db.invoices, id);
    assert r == Seqs.Filter(db.invoices, keep);
    assert forall i :: 0 <= i < |r| ==> key(r[i]) == r[i].id;
    db.invoices := r;
    db.invoiceSales := Detach(db.invoiceSales, id);
    reply := Success(DeletedMessage);
  }
}
