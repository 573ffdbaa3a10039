/** The users page's branch rows: the delete lock, the status toggle and the
    guarded delete, and the roles a new user can be given. The requests a row
    sends are recorded in order; the browser's `confirm` answer is a
    parameter. */
module UserPage {
  import opened Wrappers
  import opened Entities
  import Seqs
  import BranchController

  /** A row of the branch list, with the counts `withCount` may leave out. */
  datatype BranchListItem = BranchListItem(
    id: Id,
    name: string,
    status: BranchStatus,
    productsCount: Option<int>,
    salesCount: Option<int>)

  /** The delete button is disabled while the branch has products or sales. */
  predicate Locked(b: BranchListItem) {
    b.productsCount.GetOr(0) > 0 || b.salesCount.GetOr(0) > 0
  }

  function ProductsAt(ps: seq<Product>, id: Id): seq<Product> {
    Seqs.Filter(ps, (p: Product) => p.branchId == id)
  }

  function SalesAt(ss: seq<Sale>, id: Id): seq<Sale> {
    Seqs.Filter(ss, (s: Sale) => s.branchId == Some(id))
  }

  /** The row the branch list shows for branch `b`, with its real counts. */
  function ItemFor(b: Branch, ps: seq<Product>, ss: seq<Sale>): (r: BranchListItem)
    ensures r.id == b.id && r.status == b.status
    ensures r.productsCount == Some(|ProductsAt(ps, b.id)|) && r.salesCount == Some(|SalesAt(ss, b.id)|)
  {
    BranchListItem(b.id, b.name, b.status, Some(|ProductsAt(ps, b.id)|), Some(|SalesAt(ss, b.id)|))
  }

  /** With the real counts the page locks exactly the branches the server refuses to delete. */
  lemma LockedIffServerRefuses(b: Branch, ps: seq<Product>, ss: seq<Sale>)
    ensures Locked(ItemFor(b, ps, ss)) <==> BranchController.InUse(ps, ss, b.id)
  {
    var keepP := (p: Product) => p.branchId == b.id;
    var keepS := (s: Sale) => s.branchId == Some(b.id);
    if BranchController.InUse(ps, ss, b.id) {
      if exists i :: 0 <= i < |ps| && ps[i].branchId == b.id {
        var i :| 0 <= i < |ps| && ps[i].branchId == b.id;
        Seqs.FilterMembership(ps, keepP, ps[i]);
      } else {
        var i :| 0 <= i < |ss| && ss[i].branchId == Some(b.id);
        Seqs.FilterMembership(ss, keepS, ss[i]);
      }
    }
    if |ProductsAt(ps, b.id)| > 0 {
      Seqs.FilterMembership(ps, keepP, ProductsAt(ps, b.id)[0]);
    }
    if |SalesAt(ss, b.id)| > 0 {
      Seqs.FilterMembership(ss, keepS, SalesAt(ss, b.id)[0]);
    }
  }

  /** Missing counts count as 0: a row without counts is never locked. */
  lemma MissingCountsUnlocked(b: BranchListItem)
    requires b.productsCount.None? && b.salesCount.None?
    ensures !Locked(b)
  {
  }

  function StatusName(s: BranchStatus): string {
    if s == Active then "active" else "inactive"
  }

  function FlipStatus(s: BranchStatus): (r: BranchStatus)
    ensures r != s
  {
    if s == Active then Inactive else Active
  }

  /** Toggling twice restores the status, and every status the row posts is one the server accepts. */
  lemma FlipStatusFacts(s: BranchStatus)
    ensures FlipStatus(FlipStatus(s)) == s
    ensures BranchController.ParseBranchStatus(StatusName(FlipStatus(s))) == Some(FlipStatus(s))
  {
  }

  /** A request a row sends. */
  datatype Post = StatusPost(branchId: Id, status: string) | DeletePost(branchId: Id)

  /** One branch row: its `statusForm` state and the requests it has sent. */
  class BranchRow {
    const item: BranchListItem
    var status: BranchStatus
    var sent: seq<Post>

    constructor (b: BranchListItem)
      ensures item == b && status == b.status && sent == []
    {
      item := b;
      status := b.status;
      sent := [];
    }

    /** `toggle`: flips the status and posts the new one. */
    method Toggle()
      modifies this`status, this`sent
      ensures status == FlipStatus(old(status))
      ensures sent == old(sent) + [StatusPost(item.id, StatusName(status))]
    {
      var ns := FlipStatus(status);
      status := ns;
      sent := sent + [StatusPost(item.id, StatusName(ns))];
    }

    /** `remove`: nothing on a locked row; otherwise the delete is posted once confirmed. */
    method Remove(confirmed: bool)
      modifies this`sent
      ensures Locked(item) || !confirmed ==> sent == old(sent)
      ensures !Locked(item) && confirmed ==> sent == old(sent) + [DeletePost(item.id)]
    {
      if Locked(item) {
        return;
      }
      if confirmed {
        sent := sent + [DeletePost(item.id)];
      }
    }
  }

  /** A role a new user can be given. */
  datatype RoleOption = RoleOption(id: string, name: string)

  const Roles: seq<RoleOption> := [RoleOption("1", "Cashier"), RoleOption("2", "Admin")]

  /** The value of a role option as the `role` column stores it. */
  function RoleValue(r: RoleOption): int {
    if r.id == "1" then 1 else if r.id == "2" then 2 else 0
  }

  /** Exactly two roles can be chosen: 1, the branch-scoped cashier, and 2, the administrator. */
  lemma RolesAreCashierAndAdmin(u: User)
    ensures |Roles| == 2 && RoleValue(Roles[0]) == 1 && RoleValue(Roles[1]) == 2
    ensures forall r :: r in Roles ==> RoleValue(r) == 1 || RoleValue(r) == 2
    ensures IsAdmin(u.(role := RoleValue(Roles[1]))) && !IsAdmin(u.(role := RoleValue(Roles[0])))
  {
  }
}
