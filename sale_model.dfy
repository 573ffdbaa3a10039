/** The stock ledger of the sale model: the `created` hook decrements the
    referenced product's `stock_quantity` by the sale's quantity and the
    `deleting` hook increments it back; a missing product is skipped. */
module SaleModel {
  import opened Wrappers
  import opened Entities
  import Seqs

  /** `increment('stock_quantity', delta)` on the product with id `productId`
      (a `decrement` is a negative delta); not clamped at zero. */
  function AdjustStock(ps: seq<Product>, productId: Id, delta: int): (r: seq<Product>)
    ensures |r| == |ps|
    ensures forall i :: 0 <= i < |ps| && ps[i].id == productId ==>
      r[i] == ps[i].(stockQuantity := ps[i].stockQuantity + delta)
    ensures forall i :: 0 <= i < |ps| && ps[i].id != productId ==> r[i] == ps[i]
  {
    if ps == [] then []
    else
      var p := ps[0];
      [if p.id == productId then p.(stockQuantity := p.stockQuantity + delta) else p]
      + AdjustStock(ps[1..], productId, delta)
  }

  /** `Product::find($id)?->stock_quantity`. */
  function StockOf(ps: seq<Product>, productId: Id): (r: Option<int>)
    ensures r.Some? <==> HasProduct(ps, productId)
    ensures r.Some? ==> exists i :: 0 <= i < |ps| && ps[i].id == productId && ps[i].stockQuantity == r.value
  {
    if ps == [] then None
    else if ps[0].id == productId then Some(ps[0].stockQuantity)
    else
      var r := StockOf(ps[1..], productId);
      assert HasProduct(ps, productId) ==> HasProduct(ps[1..], productId) by {
        if HasProduct(ps, productId) {
          var i :| 0 <= i < |ps| && ps[i].id == productId;
          assert ps[1..][i - 1] == ps[i];
        }
      }
      assert r.Some? ==> exists i :: 0 <= i < |ps| && ps[i].id == productId && ps[i].stockQuantity == r.value by {
        if r.Some? {
          var i :| 0 <= i < |ps[1..]| && ps[1..][i].id == productId && ps[1..][i].stockQuantity == r.value;
          assert ps[i + 1] == ps[1..][i];
        }
      }
      r
  }

  /** Adjusting by `delta` moves the product's stock by exactly `delta`. */
  lemma {:induction false} AdjustStockMovesStock(ps: seq<Product>, productId: Id, delta: int)
    requires HasProduct(ps, productId)
    ensures StockOf(AdjustStock(ps, productId, delta), productId) == Some(StockOf(ps, productId).value + delta)
  {
    var r := AdjustStock(ps, productId, delta);
    if ps[0].id != productId {
      var i :| 0 <= i < |ps| && ps[i].id == productId;
      assert ps[1..][i - 1] == ps[i];
      AdjustStockMovesStock(ps[1..], productId, delta);
      assert r[0] == ps[0];
      assert r[1..] == AdjustStock(ps[1..], productId, delta);
    } else {
      assert r[0] == ps[0].(stockQuantity := ps[0].stockQuantity + delta);
    }
  }

  /** A decrement followed by an increment of the same amount restores every row. */
  lemma AdjustStockInverse(ps: seq<Product>, productId: Id, q: int)
    ensures AdjustStock(AdjustStock(ps, productId, -q), productId, q) == ps
  {
    var r := AdjustStock(AdjustStock(ps, productId, -q), productId, q);
    assert forall i :: 0 <= i < |ps| ==> r[i] == ps[i];
  }

  /** A hook whose product does not exist changes no row. */
  lemma AdjustStockMissing(ps: seq<Product>, productId: Id, delta: int)
    requires !HasProduct(ps, productId)
    ensures AdjustStock(ps, productId, delta) == ps
  {
  }

  /** The decrement is not clamped: a sale larger than the stock drives it negative. */
  lemma StockCanGoNegative(p: Product)
    requires p.stockQuantity == 2
    ensures StockOf(AdjustStock([p], p.id, -5), p.id) == Some(-3)
  {
  }

  // ---- the ledger: stock plus the quantities of the still-recorded sales ----

  /** Sum of the quantities of the recorded sales of product `productId`. */
  function Outstanding(ss: seq<Sale>, productId: Id): int {
    if ss == [] then 0
    else (if ss[0].productId == productId then ss[0].quantity else 0) + Outstanding(ss[1..], productId)
  }

  lemma {:induction false} OutstandingAppend(ss: seq<Sale>, s: Sale, productId: Id)
    ensures Outstanding(ss + [s], productId)
         == Outstanding(ss, productId) + (if s.productId == productId then s.quantity else 0)
  {
    if ss != [] {
      assert (ss + [s])[1..] == ss[1..] + [s];
      OutstandingAppend(ss[1..], s, productId);
    }
  }

  /** Removing the (unique) sale with id `saleId` removes exactly its quantity. */
  lemma {:induction false} OutstandingRemove(ss: seq<Sale>, k: nat, productId: Id)
    requires k < |ss|
    requires forall i, j :: 0 <= i < j < |ss| ==> ss[i].id != ss[j].id
    ensures Outstanding(Seqs.Filter(ss, (x: Sale) => x.id != ss[k].id), productId)
         == Outstanding(ss, productId) - (if ss[k].productId == productId then ss[k].quantity else 0)
  {
    var sid := ss[k].id;
    var keep := (x: Sale) => x.id != sid;
    if k == 0 {
      forall i | 0 <= i < |ss[1..]| ensures keep(ss[1..][i]) { assert ss[1..][i] == ss[i + 1]; }
      Seqs.FilterKeepsAll(ss[1..], keep);
    } else {
      assert ss[1..][k - 1] == ss[k];
      OutstandingRemove(ss[1..], k - 1, productId);
    }
  }

  /** Stock plus outstanding quantity is the same, row by row, in two states of the tables. */
  ghost predicate SameLedger(ps: seq<Product>, ss: seq<Sale>, ps': seq<Product>, ss': seq<Sale>) {
    |ps'| == |ps| &&
    forall i :: 0 <= i < |ps| ==>
      ps'[i].id == ps[i].id &&
      ps'[i].stockQuantity + Outstanding(ss', ps[i].id) == ps[i].stockQuantity + Outstanding(ss, ps[i].id)
  }

  /** Recording a sale and running the `created` hook keeps stock + outstanding for every product. */
  lemma CreateKeepsLedger(ps: seq<Product>, ss: seq<Sale>, s: Sale)
    ensures SameLedger(ps, ss, AdjustStock(ps, s.productId, -s.quantity), ss + [s])
  {
    forall i | 0 <= i < |ps| {
      OutstandingAppend(ss, s, ps[i].id);
    }
  }

  /** Deleting the k-th sale after its `deleting` hook keeps stock + outstanding for every product. */
  lemma DeleteKeepsLedger(ps: seq<Product>, ss: seq<Sale>, k: nat)
    requires k < |ss|
    requires forall a, b :: 0 <= a < b < |ss| ==> ss[a].id != ss[b].id
    ensures SameLedger(ps, ss, AdjustStock(ps, ss[k].productId, ss[k].quantity),
                       Seqs.Filter(ss, (x: Sale) => x.id != ss[k].id))
  {
    forall i | 0 <= i < |ps| {
      OutstandingRemove(ss, k, ps[i].id);
    }
  }

  /** The hooks change stock only: ids, branches and every other column stay. */
  lemma AdjustStockKeepsKeys(ps: seq<Product>, productId: Id, delta: int, next: nat, bs: seq<Branch>)
    requires ProductKeys(ps, next)
    requires forall i :: 0 <= i < |ps| ==> HasBranch(bs, ps[i].branchId)
    ensures ProductKeys(AdjustStock(ps, productId, delta), next)
    ensures forall i :: 0 <= i < |ps| ==> HasBranch(bs, AdjustStock(ps, productId, delta)[i].branchId)
  {
    var r := AdjustStock(ps, productId, delta);
    assert forall i :: 0 <= i < |ps| ==> r[i].id == ps[i].id && r[i].branchId == ps[i].branchId;
  }
}
