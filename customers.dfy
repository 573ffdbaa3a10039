/** The customer controller: registration with its defaults and the unique
    e-mail rule, editing, the guarded delete, and the branch scope of the
    customer list. Whether a string is a well-formed e-mail address is decided
    by the validation library and is a parameter here. */
module CustomerController {
  import opened Wrappers
  import opened Entities
  import opened Database
  import opened Validation
  import Seqs

  const CreatedMessage: string := "Customer created successfully."
  const UpdatedMessage: string := "Customer updated successfully."
  const DeletedMessage: string := "Customer deleted successfully."
  const InUseMessage: string := "Cannot delete customer with existing sales or invoices."

  /** The fields of a registration or edit request. */
  datatype CustomerRequest = CustomerRequest(
    name: Option<string>,
    email: Option<string>,
    phone: Option<string>,
    address: Option<string>,
    loyaltyPoints: Option<real>)

  /** `unique:customers` (no row has the address) or `unique:customers,email,$id`
      (no row other than `$id` has it). */
  predicate EmailTaken(cs: seq<Customer>, email: string, except: Option<Id>) {
    exists i :: 0 <= i < |cs| && cs[i].email == email && (except.None? || cs[i].id != except.value)
  }

  predicate EmailOk(q: CustomerRequest, cs: seq<Customer>, except: Option<Id>, isEmail: string -> bool) {
    FilledString(q.email) && isEmail(q.email.value) && AtMost(q.email, 255) && !EmailTaken(cs, q.email.value, except)
  }

  predicate LoyaltyOk(v: Option<real>) { v.None? || (Integral(v.value) && v.value >= 0.0) }

  predicate Acceptable(q: CustomerRequest, cs: seq<Customer>, except: Option<Id>, isEmail: string -> bool) {
    FilledString(q.name) && AtMost(q.name, 255) && EmailOk(q, cs, except, isEmail)
    && AtMost(q.phone, 20) && AtMost(q.address, 500) && LoyaltyOk(q.loyaltyPoints)
  }

  /** The failing fields, in rule order; `except` is the row an edit ignores in the unique check. */
  function CustomerErrors(q: CustomerRequest, cs: seq<Customer>, except: Option<Id>, isEmail: string -> bool): (r: seq<Field>)
    ensures r == [] <==> Acceptable(q, cs, except, isEmail)
    ensures Email in r <==> !EmailOk(q, cs, except, isEmail)
  {
    FieldIf(!(FilledString(q.name) && AtMost(q.name, 255)), Name)
    + FieldIf(!EmailOk(q, cs, except, isEmail), Email)
    + FieldIf(!AtMost(q.phone, 20), Phone)
    + FieldIf(!AtMost(q.address, 500), Address)
    + FieldIf(!LoyaltyOk(q.loyaltyPoints), LoyaltyPoints)
  }

  /** Registering with an address some customer already has is refused. */
  lemma DuplicateEmailRejected(q: CustomerRequest, cs: seq<Customer>, k: nat, isEmail: string -> bool)
    requires k < |cs| && q.email == Some(cs[k].email)
    ensures Email in CustomerErrors(q, cs, None, isEmail)
  {
  }

  /** An edit that keeps the customer's own address passes the unique rule when
      addresses are unique across the table. */
  lemma OwnEmailAllowedOnEdit(cs: seq<Customer>, k: nat)
    requires k < |cs|
    requires forall i, j :: 0 <= i < j < |cs| ==> cs[i].email != cs[j].email
    ensures !EmailTaken(cs, cs[k].email, Some(cs[k].id))
  {
  }

  /** The row `store` creates: absent loyalty points become 0 and the branch is the creating user's. */
  function NewCustomer(q: CustomerRequest, id: Id, user: User): (c: Customer)
    requires q.name.Some? && q.email.Some? && LoyaltyOk(q.loyaltyPoints)
    ensures c.id == id && c.name == q.name.value && c.email == q.email.value
    ensures c.phone == q.phone && c.address == q.address
    ensures c.loyaltyPoints as real == q.loyaltyPoints.GetOr(0.0) && c.loyaltyPoints >= 0
    ensures c.branchId == user.branchId
  {
    Customer(id, q.name.value, q.email.value, q.phone, q.address, q.loyaltyPoints.GetOr(0.0).Floor, user.branchId)
  }

  /** `store`. */
  method Store(db: Database.Store, q: CustomerRequest, user: User, isEmail: string -> bool) returns (reply: Reply)
    requires db.Valid()
    modifies db`customers, db`nextCustomerId
    ensures db.Valid()
    ensures !Acceptable(q, old(db.customers), None, isEmail) ==>
      reply == Invalid(CustomerErrors(q, old(db.customers), None, isEmail))
      && db.customers == old(db.customers) && db.nextCustomerId == old(db.nextCustomerId)
    ensures Acceptable(q, old(db.customers), None, isEmail) ==>
      reply == Success(CreatedMessage) && db.nextCustomerId == old(db.nextCustomerId) + 1
      && db.customers == old(db.customers) + [NewCustomer(q, old(db.nextCustomerId), user)]
  {
    var errors := CustomerErrors(q, db.customers, None, isEmail);
    if errors != [] {
      return Invalid(errors);
    }
    var c := NewCustomer(q, db.nextCustomerId, user);
    db.customers := db.customers + [c];
    db.nextCustomerId := db.nextCustomerId + 1;
    reply := Success(CreatedMessage);
  }

  /** `$customer->update($request->only(...))`: a field the request does not carry keeps its value. */
  function Edited(c: Customer, q: CustomerRequest): (r: Customer)
    requires LoyaltyOk(q.loyaltyPoints)
    ensures r.id == c.id && r.branchId == c.branchId
    ensures r.name == q.name.GetOr(c.name) && r.email == q.email.GetOr(c.email)
    ensures r.phone == (if q.phone.Some? then q.phone else c.phone)
    ensures r.address == (if q.address.Some? then q.address else c.address)
    ensures q.loyaltyPoints.Some? ==> r.loyaltyPoints as real == q.loyaltyPoints.value
    ensures q.loyaltyPoints.None? ==> r.loyaltyPoints == c.loyaltyPoints
  {
    c.(name := q.name.GetOr(c.name), email := q.email.GetOr(c.email),
       phone := if q.phone.Some? then q.phone else c.phone,
       address := if q.address.Some? then q.address else c.address,
       loyaltyPoints := if q.loyaltyPoints.Some? then q.loyaltyPoints.value.Floor else c.loyaltyPoints)
  }

  function EditRow(cs: seq<Customer>, id: Id, q: CustomerRequest): (r: seq<Customer>)
    requires LoyaltyOk(q.loyaltyPoints)
    ensures |r| == |cs|
    ensures forall i :: 0 <= i < |cs| && cs[i].id == id ==> r[i] == Edited(cs[i], q)
    ensures forall i :: 0 <= i < |cs| && cs[i].id != id ==> r[i] == cs[i]
  {
    if cs == [] then []
    else [if cs[0].id == id then Edited(cs[0], q) else cs[0]] + EditRow(cs[1..], id, q)
  }

  lemma EditRowKeepsKeys(cs: seq<Customer>, id: Id, q: CustomerRequest, next: nat)
    requires LoyaltyOk(q.loyaltyPoints) && CustomerKeys(cs, next)
    ensures CustomerKeys(EditRow(cs, id, q), next)
  {
    var r := EditRow(cs, id, q);
    assert forall i :: 0 <= i < |r| ==> r[i].id == cs[i].id;
  }

  /** `update($id)`: looked up first, then validated with the row's own address exempt from the unique rule. */
  method Update(db: Database.Store, id: Id, q: CustomerRequest, isEmail: string -> bool) returns (reply: Reply)
    requires db.Valid()
    modifies db`customers
    ensures db.Valid()
    ensures if !HasCustomer(old(db.customers), id) then
        reply == NotFound && db.customers == old(db.customers)
      else if !Acceptable(q, old(db.customers), Some(id), isEmail) then
        reply == Invalid(CustomerErrors(q, old(db.customers), Some(id), isEmail)) && db.customers == old(db.customers)
      else
        reply == Success(UpdatedMessage) && db.customers == EditRow(old(db.customers), id, q)
  {
    if FindCustomer(db.customers, id).None? {      // findOrFail
      return NotFound;
    }
    var errors := CustomerErrors(q, db.customers, Some(id), isEmail);
    if errors != [] {
      return Invalid(errors);
    }
    EditRowKeepsKeys(db.customers, id, q, db.nextCustomerId);
    db.customers := EditRow(db.customers, id, q);
    reply := Success(UpdatedMessage);
  }

  /** `$customer->sales()->count() > 0 || $customer->invoices()->count() > 0`. */
  predicate InUse(ss: seq<Sale>, vs: seq<Invoice>, id: Id) {
    (exists i :: 0 <= i < |ss| && ss[i].customerId == Some(id))
    || (exists i :: 0 <= i < |vs| && vs[i].customerId == Some(id))
  }

  function WithoutCustomer(cs: seq<Customer>, id: Id): (r: seq<Customer>)
    ensures |r| <= |cs|
  {
    Seqs.Filter(cs, (c: Customer) => c.id != id)
  }

  /** Deleting keeps every other customer and drops the deleted one. */
  lemma WithoutCustomerExact(cs: seq<Customer>, id: Id, c: Customer)
    ensures c in WithoutCustomer(cs, id) <==> c in cs && c.id != id
  {
    Seqs.FilterMembership(cs, (c: Customer) => c.id != id, c);
  }

  /** `destroy($id)`: refused while a sale or an invoice refers to the customer. */
  method Destroy(db: Database.Store, id: Id) returns (reply: Reply)
    requires db.Valid()
    modifies db`customers
    ensures db.Valid()
    ensures !HasCustomer(old(db.customers), id) ==> reply == NotFound && db.customers == old(db.customers)
    ensures HasCustomer(old(db.customers), id) && InUse(db.sales, db.invoices, id) ==>
      reply == Failure(InUseMessage) && db.customers == old(db.customers)
    ensures HasCustomer(old(db.customers), id) && !InUse(db.sales, db.invoices, id) ==>
      reply == Success(DeletedMessage) && db.customers == WithoutCustomer(old(db.customers), id)
  {
    if FindCustomer(db.customers, id).None? {      // findOrFail
      return NotFound;
    }
    var bySale := Seqs.Find(db.sales, (s: Sale) => s.customerId == Some(id));
    var byInvoice := Seqs.Find(db.invoices, (v: Invoice) => v.customerId == Some(id));
    if bySale.Some? || byInvoice.Some? {
      return Failure(InUseMessage);
    }
    var keep := (c: Customer) => c.id != id;
    var key := (c: Customer) => c.id;
    Seqs.FilterKeepsKeys(db.customers, keep, key, db.nextCustomerId);
    var r := WithoutCustomer(db.customers, id);
    assert r == Seqs.Filter(db.customers, keep);
    assert forall i :: 0 <= i < |r| ==> key(r[i]) == r[i].id;
    db.customers := r;
    reply := Success(DeletedMessage);
  }

  /** The role restriction of `index`: administrators see every customer,
      anyone else the customers of their own branch. */
  function VisibleCustomers(cs: seq<Customer>, u: User): (r: seq<Customer>)
    ensures |r| <= |cs|
  {
    if IsAdmin(u) then cs else Seqs.Filter(cs, (c: Customer) => c.branchId == u.branchId)
  }

  lemma VisibleCustomersExact(cs: seq<Customer>, u: User, c: Customer)
    ensures c in VisibleCustomers(cs, u) <==> c in cs && (IsAdmin(u) || c.branchId == u.branchId)
  {
    if !IsAdmin(u) {
      Seqs.FilterMembership(cs, (c: Customer) => c.branchId == u.branchId, c);
    }
  }
}
