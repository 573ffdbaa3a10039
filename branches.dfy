/** The branch controller: creating and editing a branch, the status-only
    update, and the guarded delete that refuses a branch still referenced by
    a product or a sale. */
module BranchController {
  import opened Wrappers
  import opened Entities
  import opened Database
  import opened Validation
  import Seqs

  const CreatedMessage: string := "Branch created successfully."
  const UpdatedMessage: string := "Branch updated successfully."
  const DeletedMessage: string := "Branch deleted successfully."
  const StatusUpdatedMessage: string := "Branch status updated."
  const InUseMessage: string := "Cannot delete branch with existing products or sales."

  /** The values `in:active,inactive` accepts. */
  function ParseBranchStatus(s: string): (r: Option<BranchStatus>)
    ensures r.Some? <==> s in {"active", "inactive"}
  {
    if s == "active" then Some(Active) else if s == "inactive" then Some(Inactive) else None
  }

  /** The fields of a create or edit request. */
  datatype BranchRequest = BranchRequest(
    name: Option<string>,
    address: Option<string>,
    contactNumber: Option<string>,
    status: Option<string>)

  predicate StatusOk(s: Option<string>) { s.Some? && ParseBranchStatus(s.value).Some? }

  predicate Acceptable(q: BranchRequest) {
    FilledString(q.name) && AtMost(q.name, 255) && AtMost(q.address, 500)
    && AtMost(q.contactNumber, 20) && StatusOk(q.status)
  }

  /** The failing fields of a create or edit request, in rule order. */
  function BranchErrors(q: BranchRequest): (r: seq<Field>)
    ensures r == [] <==> Acceptable(q)
    ensures Status in r <==> !StatusOk(q.status)
    ensures Name in r <==> !(FilledString(q.name) && AtMost(q.name, 255))
  {
    FieldIf(!(FilledString(q.name) && AtMost(q.name, 255)), Name)
    + FieldIf(!AtMost(q.address, 500), Address)
    + FieldIf(!AtMost(q.contactNumber, 20), ContactNumber)
    + FieldIf(!StatusOk(q.status), Status)
  }

  /** The row a valid request describes, under id `id`. */
  function RowOf(q: BranchRequest, id: Id): (b: Branch)
    requires Acceptable(q)
    ensures b.id == id && b.name == q.name.value && b.address == q.address
    ensures b.contactNumber == q.contactNumber && Some(b.status) == ParseBranchStatus(q.status.value)
  {
    Branch(id, q.name.value, q.address, q.contactNumber, ParseBranchStatus(q.status.value).value)
  }

  /** The row after `update($request->all())` of a valid request: name and status
      are replaced, and an address or contact number only when the request carries it. */
  function Edited(b: Branch, q: BranchRequest): (r: Branch)
    requires Acceptable(q)
    ensures r.id == b.id && r.name == q.name.value && Some(r.status) == ParseBranchStatus(q.status.value)
    ensures r.address == (if q.address.Some? then q.address else b.address)
    ensures r.contactNumber == (if q.contactNumber.Some? then q.contactNumber else b.contactNumber)
  {
    b.(name := q.name.value,
       address := if q.address.Some? then q.address else b.address,
       contactNumber := if q.contactNumber.Some? then q.contactNumber else b.contactNumber,
       status := ParseBranchStatus(q.status.value).value)
  }

  /** An edit that carries every column gives the row a create would make;
      one that leaves a column out keeps the stored value. */
  lemma EditedAgreesWithRowOf(b: Branch, q: BranchRequest)
    requires Acceptable(q)
    ensures q.address.Some? && q.contactNumber.Some? ==> Edited(b, q) == RowOf(q, b.id)
    ensures q.address.None? ==> Edited(b, q).address == b.address
    ensures q.contactNumber.None? ==> Edited(b, q).contactNumber == b.contactNumber
  {
  }

  // ---- the branch table under change ----

  /** The row with id `id` replaced by `f(row)`; every other row stays. */
  function Update(bs: seq<Branch>, id: Id, f: Branch -> Branch): (r: seq<Branch>)
    ensures |r| == |bs|
    ensures forall i :: 0 <= i < |bs| && bs[i].id == id ==> r[i] == f(bs[i])
    ensures forall i :: 0 <= i < |bs| && bs[i].id != id ==> r[i] == bs[i]
  {
    if bs == [] then []
    else [if bs[0].id == id then f(bs[0]) else bs[0]] + Update(bs[1..], id, f)
  }

  /** Two branch tables with the same ids, row by row, have the same branches. */
  lemma {:induction false} SameIdsSameBranches(a: seq<Branch>, b: seq<Branch>, x: Id)
    requires |a| == |b| && forall i :: 0 <= i < |a| ==> a[i].id == b[i].id
    ensures HasBranch(a, x) <==> HasBranch(b, x)
  {
    if a != [] {
      SameIdsSameBranches(a[1..], b[1..], x);
    }
  }

  /** Appending a row keeps every existing branch. */
  lemma {:induction false} HasBranchAppend(bs: seq<Branch>, b: Branch, x: Id)
    ensures HasBranch(bs + [b], x) <==> HasBranch(bs, x) || b.id == x
  {
    if bs != [] {
      assert (bs + [b])[1..] == bs[1..] + [b];
      HasBranchAppend(bs[1..], b, x);
    } else {
      assert (bs + [b])[1..] == [];
    }
  }

  /** Filtering out id `id` keeps every other branch. */
  lemma {:induction false} HasBranchWithout(bs: seq<Branch>, id: Id, x: Id)
    ensures HasBranch(Seqs.Filter(bs, (b: Branch) => b.id != id), x) <==> HasBranch(bs, x) && x != id
  {
    if bs != [] {
      HasBranchWithout(bs[1..], id, x);
    }
  }

  /** An update that keeps ids keeps the keys and the product foreign key. */
  lemma UpdateKeepsValid(bs: seq<Branch>, id: Id, f: Branch -> Branch, next: nat, ps: seq<Product>)
    requires BranchKeys(bs, next)
    requires forall b :: f(b).id == b.id
    requires forall i :: 0 <= i < |ps| ==> HasBranch(bs, ps[i].branchId)
    ensures BranchKeys(Update(bs, id, f), next)
    ensures forall i :: 0 <= i < |ps| ==> HasBranch(Update(bs, id, f), ps[i].branchId)
  {
    var r := Update(bs, id, f);
    assert forall i :: 0 <= i < |bs| ==> r[i].id == bs[i].id;
    forall i | 0 <= i < |ps| ensures HasBranch(r, ps[i].branchId) {
      SameIdsSameBranches(bs, r, ps[i].branchId);
    }
  }

  /** `store`: validates, then creates the branch under the next id. */
  method Store(db: Database.Store, q: BranchRequest) returns (reply: Reply)
    requires db.Valid()
    modifies db`branches, db`nextBranchId
    ensures db.Valid()
    ensures !Acceptable(q) ==>
      reply == Invalid(BranchErrors(q)) && db.branches == old(db.branches) && db.nextBranchId == old(db.nextBranchId)
    ensures Acceptable(q) ==>
      reply == Success(CreatedMessage) && db.nextBranchId == old(db.nextBranchId) + 1
      && db.branches == old(db.branches) + [RowOf(q, old(db.nextBranchId))]
  {
    var errors := BranchErrors(q);
    if errors != [] {
      return Invalid(errors);
    }
    var b := RowOf(q, db.nextBranchId);
    forall i | 0 <= i < |db.products| ensures HasBranch(db.branches + [b], db.products[i].branchId) {
      HasBranchAppend(db.branches, b, db.products[i].branchId);
    }
    db.branches := db.branches + [b];
    db.nextBranchId := db.nextBranchId + 1;
    reply := Success(CreatedMessage);
  }

  /** `update($id)`: looked up first, then validated; name and status are replaced,
      and address and contact number when the request carries them. */
  method Edit(db: Database.Store, id: Id, q: BranchRequest) returns (reply: Reply)
    requires db.Valid()
    modifies db`branches
    ensures db.Valid()
    ensures if !HasBranch(old(db.branches), id) then
        reply == NotFound && db.branches == old(db.branches)
      else if !Acceptable(q) then
        reply == Invalid(BranchErrors(q)) && db.branches == old(db.branches)
      else
        reply == Success(UpdatedMessage)
        && db.branches == Update(old(db.branches), id, (b: Branch) => Edited(b, q))
  {
    if FindBranch(db.branches, id).None? {         // findOrFail
      return NotFound;
    }
    var errors := BranchErrors(q);
    if errors != [] {
      return Invalid(errors);
    }
    var f := (b: Branch) => Edited(b, q);
    UpdateKeepsValid(db.branches, id, f, db.nextBranchId, db.products);
    db.branches := Update(db.branches, id, f);
    reply := Success(UpdatedMessage);
  }

  /** `updateStatus($id)`: only the status column changes. */
  method UpdateStatus(db: Database.Store, id: Id, status: Option<string>) returns (reply: Reply)
    requires db.Valid()
    modifies db`branches
    ensures db.Valid()
    ensures if !HasBranch(old(db.branches), id) then
        reply == NotFound && db.branches == old(db.branches)
      else if !StatusOk(status) then
        reply == Invalid([Status]) && db.branches == old(db.branches)
      else
        reply == Success(StatusUpdatedMessage) && |db.branches| == |old(db.branches)|
        && (forall i :: 0 <= i < |db.branches| && old(db.branches)[i].id == id ==>
              db.branches[i] == old(db.branches)[i].(status := ParseBranchStatus(status.value).value))
        && (forall i :: 0 <= i < |db.branches| && old(db.branches)[i].id != id ==>
              db.branches[i] == old(db.branches)[i])
  {
    if FindBranch(db.branches, id).None? {         // findOrFail
      return NotFound;
    }
    if !StatusOk(status) {
      return Invalid([Status]);
    }
    var st := ParseBranchStatus(status.value).value;
    var f := (b: Branch) => b.(status := st);
    UpdateKeepsValid(db.branches, id, f, db.nextBranchId, db.products);
    db.branches := Update(db.branches, id, f);
    reply := Success(StatusUpdatedMessage);
  }

  /** `$branch->products()->count() > 0 || $branch->sales()->count() > 0`. */
  predicate InUse(ps: seq<Product>, ss: seq<Sale>, id: Id) {
    (exists i :: 0 <= i < |ps| && ps[i].branchId == id)
    || (exists i :: 0 <= i < |ss| && ss[i].branchId == Some(id))
  }

  function WithoutBranch(bs: seq<Branch>, id: Id): (r: seq<Branch>)
    ensures |r| <= |bs|
  {
    Seqs.Filter(bs, (b: Branch) => b.id != id)
  }

  /** With unique ids, deleting an existing branch removes exactly one row and
      keeps every other branch. */
  lemma {:induction false} WithoutBranchRemovesOne(bs: seq<Branch>, id: Id)
    requires forall i, j :: 0 <= i < j < |bs| ==> bs[i].id != bs[j].id
    requires HasBranch(bs, id)
    ensures |WithoutBranch(bs, id)| == |bs| - 1
  {
    var keep := (b: Branch) => b.id != id;
    if bs[0].id == id {
      forall i | 0 <= i < |bs[1..]| ensures keep(bs[1..][i]) {
        assert bs[1..][i] == bs[i + 1];
      }
      Seqs.FilterKeepsAll(bs[1..], keep);
    } else {
      WithoutBranchRemovesOne(bs[1..], id);
    }
  }

  /** `destroy($id)`: refused while a product or a sale refers to the branch. */
  method Destroy(db: Database.Store, id: Id) returns (reply: Reply)
    requires db.Valid()
    modifies db`branches
    ensures db.Valid()
    ensures !HasBranch(old(db.branches), id) ==> reply == NotFound && db.branches == old(db.branches)
    ensures HasBranch(old(db.branches), id) && InUse(db.products, db.sales, id) ==>
      reply == Failure(InUseMessage) && db.branches == old(db.branches)
    ensures HasBranch(old(db.branches), id) && !InUse(db.products, db.sales, id) ==>
      reply == Success(DeletedMessage) && db.branches == WithoutBranch(old(db.branches), id)
      && |db.branches| == |old(db.branches)| - 1 && !HasBranch(db.branches, id)
  {
    if FindBranch(db.branches, id).None? {         // findOrFail
      return NotFound;
    }
    var usedByProduct := Seqs.Find(db.products, (p: Product) => p.branchId == id);
    var usedBySale := Seqs.Find(db.sales, (s: Sale) => s.branchId == Some(id));
    if usedByProduct.Some? || usedBySale.Some? {
      return Failure(InUseMessage);
    }
    var keep := (b: Branch) => b.id != id;
    Seqs.FilterKeepsKeys(db.branches, keep, (b: Branch) => b.id, db.nextBranchId);
    WithoutBranchRemovesOne(db.branches, id);
    HasBranchWithout(db.branches, id, id);
    forall i | 0 <= i < |db.products| ensures HasBranch(WithoutBranch(db.branches, id), db.products[i].branchId) {
      HasBranchWithout(db.branches, id, db.products[i].branchId);
    }
    db.branches := WithoutBranch(db.branches, id);
    reply := Success(DeletedMessage);
  }
}
