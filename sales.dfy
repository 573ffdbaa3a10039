/** The sale controller: recording a sale (validation, the derived fields and
    the total formula), changing a sale's status, deleting a sale, and the
    branch scope of the sale list. */
module SaleController {
  import opened Wrappers
  import opened Entities
  import opened Database
  import opened Validation
  import SaleModel
  import Seqs

  const CreatedMessage: string := "Sale created successfully."
  const UpdatedMessage: string := "Sale updated successfully."
  const DeletedMessage: string := "Sale deleted successfully."

  /** The fields of a sale request; `None` is an absent field. */
  datatype SaleRequest = SaleRequest(
    customerId: Option<Id>,
    customerName: Option<string>,
    tax: Option<real>,
    discount: Option<real>,
    productId: Option<Id>,
    quantity: Option<real>,
    price: Option<real>,
    status: Option<string>,
    totalAmount: Option<real>)

  predicate CustomerOk(q: SaleRequest, cs: seq<Customer>) { q.customerId.None? || HasCustomer(cs, q.customerId.value) }
  predicate ProductOk(q: SaleRequest, ps: seq<Product>) { q.productId.Some? && HasProduct(ps, q.productId.value) }
  predicate StatusOk(s: Option<string>) { s.Some? && ParseStatus(s.value).Some? }

  /** Every rule of `store` holds. */
  predicate Acceptable(q: SaleRequest, cs: seq<Customer>, ps: seq<Product>) {
    && CustomerOk(q, cs) && AtMost(q.customerName, 255)
    && NonNegativeIfGiven(q.tax) && NonNegativeIfGiven(q.discount)
    && ProductOk(q, ps) && IntegerAtLeast(q.quantity, 1) && NonNegative(q.price)
    && StatusOk(q.status) && NonNegative(q.totalAmount)
  }

  /** The failing fields of a sale request, in rule order. */
  function SaleErrors(q: SaleRequest, cs: seq<Customer>, ps: seq<Product>): (r: seq<Field>)
    ensures r == [] <==> Acceptable(q, cs, ps)
  {
    FieldIf(!CustomerOk(q, cs), CustomerId)
    + FieldIf(!AtMost(q.customerName, 255), CustomerName)
    + FieldIf(!NonNegativeIfGiven(q.tax), Tax)
    + FieldIf(!NonNegativeIfGiven(q.discount), Discount)
    + FieldIf(!ProductOk(q, ps), ProductId)
    + FieldIf(!IntegerAtLeast(q.quantity, 1), Quantity)
    + FieldIf(!NonNegative(q.price), Price)
    + FieldIf(!StatusOk(q.status), Status)
    + FieldIf(!NonNegative(q.totalAmount), TotalAmount)
  }

  /** A fractional or non-positive quantity, a negative price, percent or
      client total, and an unknown status are each refused. */
  lemma SaleRejects(q: SaleRequest, cs: seq<Customer>, ps: seq<Product>)
    requires || (q.quantity.Some? && (q.quantity.value < 1.0 || !Integral(q.quantity.value)))
             || (q.price.Some? && q.price.value < 0.0)
             || (q.tax.Some? && q.tax.value < 0.0)
             || (q.discount.Some? && q.discount.value < 0.0)
             || (q.status.Some? && q.status.value !in {"pending", "paid", "canceled"})
    ensures SaleErrors(q, cs, ps) != []
  {
  }

  /** `$total - $total * $discount / 100 + $total * $tax / 100` with `$total = price * quantity`:
      the line amount scaled by one minus the discount rate plus the tax rate. */
  function SaleTotal(price: real, quantity: real, discount: real, tax: real): (r: real)
    ensures r == price * quantity * (1.0 - discount / 100.0 + tax / 100.0)
  {
    var total := price * quantity;
    total - (total * discount / 100.0) + (total * tax / 100.0)
  }

  /** Without tax and discount the total is the line amount. */
  lemma NoPercentsIsLineAmount(price: real, quantity: real)
    ensures SaleTotal(price, quantity, 0.0, 0.0) == price * quantity
  {
  }

  /** Equal tax and discount rates cancel out. */
  lemma EqualPercentsCancel(price: real, quantity: real, rate: real)
    ensures SaleTotal(price, quantity, rate, rate) == price * quantity
  {
  }

  /** The discount is not capped: with a positive line amount, a discount larger
      than 100 plus the tax gives a negative total. */
  lemma DiscountCanMakeTotalNegative(price: real, quantity: real, discount: real, tax: real)
    requires price > 0.0 && quantity > 0.0 && discount > 100.0 + tax
    ensures SaleTotal(price, quantity, discount, tax) < 0.0
  {
    var t := price * quantity;
    assert t > 0.0;
    var f := 1.0 - discount / 100.0 + tax / 100.0;
    assert f < 0.0;
    assert t * f < 0.0;
  }

  /** `$request->customer_id ? $customer->name : $request->customer_name`:
      a truthy (present and non-zero) customer id takes the registered name. */
  function CustomerNameFor(q: SaleRequest, cs: seq<Customer>): (r: Option<string>)
    requires CustomerOk(q, cs)
    ensures q.customerId.Some? && q.customerId.value != 0 ==>
      exists i :: 0 <= i < |cs| && cs[i].id == q.customerId.value && r == Some(cs[i].name)
    ensures !(q.customerId.Some? && q.customerId.value != 0) ==> r == q.customerName
  {
    if q.customerId.Some? && q.customerId.value != 0 then
      var c := FindCustomer(cs, q.customerId.value);
      assert c.value in cs;
      Some(c.value.name)
    else q.customerName
  }

  /** The row `Sale::create` receives from a request that passed validation;
      its id is assigned on insert. */
  function NewSale(q: SaleRequest, cs: seq<Customer>, ps: seq<Product>, user: User): (s: Sale)
    requires Acceptable(q, cs, ps)
    ensures s.customerId == q.customerId && s.productId == q.productId.value
    ensures s.customerName == CustomerNameFor(q, cs)
    ensures s.branchId == user.branchId
    ensures s.tax == q.tax.GetOr(0.0) && s.discount == q.discount.GetOr(0.0)
    ensures s.quantity as real == q.quantity.value
    ensures s.totalAmount == SaleTotal(q.price.value, q.quantity.value, q.discount.GetOr(0.0), q.tax.GetOr(0.0))
    ensures Some(s.status) == ParseStatus(q.status.value)
  {
    Sale(0, q.customerId, CustomerNameFor(q, cs), q.productId.value, q.quantity.value.Floor,
         q.tax.GetOr(0.0), q.discount.GetOr(0.0), user.branchId,
         SaleTotal(q.price.value, q.quantity.value, q.discount.GetOr(0.0), q.tax.GetOr(0.0)),
         ParseStatus(q.status.value).value)
  }

  /** The client's `total_amount` is validated but never stored: any valid value gives the same row. */
  lemma ClientTotalIgnored(q: SaleRequest, cs: seq<Customer>, ps: seq<Product>, user: User, other: real)
    requires Acceptable(q, cs, ps) && other >= 0.0
    ensures Acceptable(q.(totalAmount := Some(other)), cs, ps)
    ensures NewSale(q.(totalAmount := Some(other)), cs, ps, user) == NewSale(q, cs, ps, user)
  {
  }

  /** `store`: validates, derives the row and creates it; the sale model's
      `created` hook then takes the quantity off the product's stock. */
  method Store(db: Database.Store, q: SaleRequest, user: User) returns (reply: Reply)
    requires db.Valid()
    modifies db`sales, db`products, db`nextSaleId
    ensures db.Valid()
    ensures !Acceptable(q, db.customers, old(db.products)) ==>
      reply == Invalid(SaleErrors(q, db.customers, old(db.products)))
      && db.sales == old(db.sales) && db.products == old(db.products) && db.nextSaleId == old(db.nextSaleId)
    ensures Acceptable(q, db.customers, old(db.products)) ==>
      var s := NewSale(q, db.customers, old(db.products), user);
      && reply == Success(CreatedMessage)
      && db.sales == old(db.sales) + [s.(id := old(db.nextSaleId))]
      && db.nextSaleId == old(db.nextSaleId) + 1
      && db.products == SaleModel.AdjustStock(old(db.products), s.productId, -s.quantity)
  {
    var errors := SaleErrors(q, db.customers, db.products);
    if errors != [] {
      return Invalid(errors);
    }
    var s := NewSale(q, db.customers, db.products, user);
    var id := db.CreateSale(s);
    reply := Success(CreatedMessage);
  }

  // ---- status update ----

  /** `status = st` on the sale with id `id`; every other row and column stays. */
  function SetStatus(ss: seq<Sale>, id: Id, st: SaleStatus): (r: seq<Sale>)
    ensures |r| == |ss|
    ensures forall i :: 0 <= i < |ss| && ss[i].id == id ==> r[i] == ss[i].(status := st)
    ensures forall i :: 0 <= i < |ss| && ss[i].id != id ==> r[i] == ss[i]
  {
    if ss == [] then []
    else [if ss[0].id == id then ss[0].(status := st) else ss[0]] + SetStatus(ss[1..], id, st)
  }

  /** A status change keeps keys, and with them the stock ledger, since no
      product or quantity moves. */
  lemma SetStatusKeeps(ps: seq<Product>, ss: seq<Sale>, id: Id, st: SaleStatus, next: nat)
    requires SaleKeys(ss, next)
    ensures SaleKeys(SetStatus(ss, id, st), next)
    ensures SaleModel.SameLedger(ps, ss, ps, SetStatus(ss, id, st))
  {
    var r := SetStatus(ss, id, st);
    assert forall i :: 0 <= i < |ss| ==> r[i].id == ss[i].id && r[i].productId == ss[i].productId
                                          && r[i].quantity == ss[i].quantity;
    forall pid: Id ensures SaleModel.Outstanding(r, pid) == SaleModel.Outstanding(ss, pid) {
      SameOutstanding(ss, r, pid);
    }
  }

  /** Two sale tables that agree row by row on product and quantity have the same outstanding quantities. */
  lemma {:induction false} SameOutstanding(a: seq<Sale>, b: seq<Sale>, pid: Id)
    requires |a| == |b|
    requires forall i :: 0 <= i < |a| ==> a[i].productId == b[i].productId && a[i].quantity == b[i].quantity
    ensures SaleModel.Outstanding(a, pid) == SaleModel.Outstanding(b, pid)
  {
    if a != [] {
      SameOutstanding(a[1..], b[1..], pid);
    }
  }

  /** `update($id)`: the sale is looked up before the status is validated, and only the status changes. */
  method Update(db: Database.Store, id: Id, status: Option<string>) returns (reply: Reply)
    requires db.Valid()
    modifies db`sales
    ensures db.Valid()
    ensures SaleModel.SameLedger(db.products, old(db.sales), db.products, db.sales)
    ensures if !HasSale(old(db.sales), id) then
        reply == NotFound && db.sales == old(db.sales)
      else if !StatusOk(status) then
        reply == Invalid([Status]) && db.sales == old(db.sales)
      else
        reply == Success(UpdatedMessage) && db.sales == SetStatus(old(db.sales), id, ParseStatus(status.value).value)
  {
    var found := Seqs.Find(db.sales, (s: Sale) => s.id == id);   // findOrFail
    if found.None? {
      return NotFound;
    }
    if !StatusOk(status) {
      return Invalid([Status]);
    }
    var st := ParseStatus(status.value).value;
    SetStatusKeeps(db.products, db.sales, id, st, db.nextSaleId);
    db.sales := SetStatus(db.sales, id, st);
    reply := Success(UpdatedMessage);
  }

  /** `destroy($id)`: deletes through the model, so the `deleting` hook gives the quantity back. */
  method Destroy(db: Database.Store, id: Id) returns (reply: Reply)
    requires db.Valid()
    modifies db`sales, db`products, db`invoiceSales
    ensures db.Valid()
    ensures !HasSale(old(db.sales), id) ==>
      reply == NotFound && db.sales == old(db.sales) && db.products == old(db.products)
      && db.invoiceSales == old(db.invoiceSales)
    ensures HasSale(old(db.sales), id) ==>
      && reply == Success(DeletedMessage)
      && (exists k :: 0 <= k < |old(db.sales)| && old(db.sales)[k].id == id &&
            db.products == SaleModel.AdjustStock(old(db.products), old(db.sales)[k].productId, old(db.sales)[k].quantity))
      && db.sales == Seqs.Filter(old(db.sales), (x: Sale) => x.id != id)
    ensures SaleModel.SameLedger(old(db.products), old(db.sales), db.products, db.sales)
  {
    var deleted := db.DeleteSale(id);     // findOrFail, then delete()
    if !deleted {
      return NotFound;
    }
    reply := Success(DeletedMessage);
  }

  // ---- the sale list ----

  /** The role restriction of `index`: an administrator sees every sale, anyone
      else the sales whose `branch_id` equals theirs (`IS NULL` when they have none). */
  function VisibleSales(ss: seq<Sale>, u: User): (r: seq<Sale>)
    ensures |r| <= |ss|
  {
    if IsAdmin(u) then ss else Seqs.Filter(ss, (s: Sale) => s.branchId == u.branchId)
  }

  lemma VisibleSalesExact(ss: seq<Sale>, u: User, s: Sale)
    ensures s in VisibleSales(ss, u) <==> s in ss && (IsAdmin(u) || s.branchId == u.branchId)
  {
    if !IsAdmin(u) {
      Seqs.FilterMembership(ss, (s: Sale) => s.branchId == u.branchId, s);
    }
  }
}
