/** The `stock:check-low` console command: one pass alerts every product at or
    below the threshold that has not been alerted yet, marks it as alerted, and
    then clears the mark of every product that has recovered above the
    threshold, so that it is alerted again the next time it runs low. */
module CheckLowStock {
  import opened Wrappers
  import opened Entities
  import opened Database
  import Seqs
  import Text

  /** The scanner's threshold, inclusive (`stock_quantity <= 10`). */
  const Threshold: int := 10

  /** The selection of the scan query: low and not yet alerted. Active and
      inactive products alike. */
  predicate NeedsAlert(p: Product) {
    p.stockQuantity <= Threshold && !p.lowStockNotified
  }

  /** The rows the query returns, in table order, captured before the loop. */
  function LowStocks(ps: seq<Product>): (r: seq<Product>)
    ensures |r| <= |ps|
  {
    Seqs.Filter(ps, NeedsAlert)
  }

  /** The text of an alert, with the stock printed in decimal. */
  function Message(name: string, branchName: string, stock: int): string {
    "Low stock alert for product " + name + " in branch " + branchName
    + ". Current stock: " + Text.IntToString(stock)
  }

  /** The notification the pass creates for `p` under id `id`. */
  function Alert(p: Product, bs: seq<Branch>, id: Id): (r: StockNotification)
    requires HasBranch(bs, p.branchId)
    ensures r.id == id && r.productId == p.id && r.kind == "low_stock" && !r.isRead
  {
    StockNotification(id, p.id, "low_stock", Message(p.name, BranchName(bs, p.branchId), p.stockQuantity), false)
  }

  /** The notifications created for the rows `s`, numbered from `next` in loop order. */
  function Alerts(s: seq<Product>, bs: seq<Branch>, next: Id): (r: seq<StockNotification>)
    requires forall j :: 0 <= j < |s| ==> HasBranch(bs, s[j].branchId)
    ensures |r| == |s|
  {
    if s == [] then []
    else
      assert forall j :: 0 <= j < |s| - 1 ==> s[..|s| - 1][j] == s[j];
      Alerts(s[..|s| - 1], bs, next) + [Alert(s[|s| - 1], bs, next + |s| - 1)]
  }

  /** The j-th notification is the alert for the j-th row, under id `next + j`. */
  lemma {:induction false} AlertsAt(s: seq<Product>, bs: seq<Branch>, next: Id, j: nat)
    requires forall i :: 0 <= i < |s| ==> HasBranch(bs, s[i].branchId)
    requires j < |s|
    ensures Alerts(s, bs, next)[j] == Alert(s[j], bs, next + j)
  {
    if j < |s| - 1 {
      var front := s[..|s| - 1];
      assert forall i :: 0 <= i < |front| ==> front[i] == s[i];
      AlertsAt(front, bs, next, j);
    }
  }

  /** `$product->low_stock_notified = true; $product->save()`: only the dirty
      column of the row with id `id` is written. */
  function SetNotified(ps: seq<Product>, id: Id): (r: seq<Product>)
    ensures |r| == |ps|
    ensures forall i :: 0 <= i < |ps| && ps[i].id == id ==> r[i] == ps[i].(lowStockNotified := true)
    ensures forall i :: 0 <= i < |ps| && ps[i].id != id ==> r[i] == ps[i]
  {
    if ps == [] then []
    else
      [if ps[0].id == id then ps[0].(lowStockNotified := true) else ps[0]] + SetNotified(ps[1..], id)
  }

  /** The closing bulk update: every recovered row (above the threshold, still
      marked) gets its mark cleared; no other row or column changes. */
  function ResetRecovered(ps: seq<Product>): (r: seq<Product>)
    ensures |r| == |ps|
    ensures forall i :: 0 <= i < |ps| ==>
      r[i] == if ps[i].stockQuantity > Threshold then ps[i].(lowStockNotified := false) else ps[i]
  {
    if ps == [] then []
    else
      var p := ps[0];
      [if p.stockQuantity > Threshold && p.lowStockNotified then p.(lowStockNotified := false) else p]
      + ResetRecovered(ps[1..])
  }

  /** After a pass, a product is marked exactly when its stock is at or below the threshold. */
  ghost predicate Settled(ps: seq<Product>) {
    forall i :: 0 <= i < |ps| ==> ps[i].lowStockNotified == (ps[i].stockQuantity <= Threshold)
  }

  /** Every row the snapshot returns is a row of the table, so its branch exists. */
  lemma SnapshotBranches(ps: seq<Product>, bs: seq<Branch>)
    requires forall i :: 0 <= i < |ps| ==> HasBranch(bs, ps[i].branchId)
    ensures forall j :: 0 <= j < |LowStocks(ps)| ==> HasBranch(bs, LowStocks(ps)[j].branchId)
  {
    var snap := LowStocks(ps);
    forall j | 0 <= j < |snap| ensures HasBranch(bs, snap[j].branchId) {
      Seqs.FilterMembership(ps, NeedsAlert, snap[j]);
    }
  }

  lemma AlertsStep(s: seq<Product>, k: nat, bs: seq<Branch>, next: Id)
    requires k < |s|
    requires forall j :: 0 <= j < |s| ==> HasBranch(bs, s[j].branchId)
    ensures Alerts(s[..k + 1], bs, next) == Alerts(s[..k], bs, next) + [Alert(s[k], bs, next + k)]
  {
    var t := s[..k + 1];
    assert t[..k] == s[..k];
    assert t[k] == s[k];
    assert forall i :: 0 <= i < |t| ==> HasBranch(bs, t[i].branchId);
  }

  lemma NotificationKeysAppend(ns: seq<StockNotification>, n: StockNotification, next: Id)
    requires NotificationKeys(ns, next) && n.id == next
    ensures NotificationKeys(ns + [n], next + 1)
  {
  }

  /** Marking a row changes its flag only: ids and branches stay. */
  lemma SetNotifiedKeepsKeys(ps: seq<Product>, id: Id, next: nat, bs: seq<Branch>)
    requires ProductKeys(ps, next)
    requires forall i :: 0 <= i < |ps| ==> HasBranch(bs, ps[i].branchId)
    ensures ProductKeys(SetNotified(ps, id), next)
    ensures forall i :: 0 <= i < |ps| ==> HasBranch(bs, SetNotified(ps, id)[i].branchId)
  {
    var r := SetNotified(ps, id);
    assert forall i :: 0 <= i < |ps| ==> r[i].id == ps[i].id && r[i].branchId == ps[i].branchId;
  }

  /** The bulk reset changes flags only: ids and branches stay. */
  lemma ResetRecoveredKeepsKeys(ps: seq<Product>, next: nat, bs: seq<Branch>)
    requires ProductKeys(ps, next)
    requires forall i :: 0 <= i < |ps| ==> HasBranch(bs, ps[i].branchId)
    ensures ProductKeys(ResetRecovered(ps), next)
    ensures forall i :: 0 <= i < |ps| ==> HasBranch(bs, ResetRecovered(ps)[i].branchId)
  {
    var r := ResetRecovered(ps);
    assert forall i :: 0 <= i < |ps| ==> r[i].id == ps[i].id && r[i].branchId == ps[i].branchId;
  }

  /** Marking one more id keeps "marked = originally marked or already visited". */
  lemma MarkStep(ps0: seq<Product>, cur: seq<Product>, done: set<Id>, id: Id)
    requires |cur| == |ps0|
    requires forall i :: 0 <= i < |ps0| ==>
      cur[i] == ps0[i].(lowStockNotified := ps0[i].lowStockNotified || ps0[i].id in done)
    ensures forall i :: 0 <= i < |ps0| ==>
      SetNotified(cur, id)[i] == ps0[i].(lowStockNotified := ps0[i].lowStockNotified || ps0[i].id in done + {id})
  {
  }

  /** The `foreach` over the snapshot: for each row in turn, an alert is
      stored under the next id and the row's mark is saved. Returns the ids
      visited, which are the ids of the snapshot rows. */
  method NotifyEach(db: Store, snap: seq<Product>) returns (ghost done: set<Id>)
    requires forall j :: 0 <= j < |snap| ==> HasBranch(db.branches, snap[j].branchId)
    requires ProductKeys(db.products, db.nextProductId)
    requires forall i :: 0 <= i < |db.products| ==> HasBranch(db.branches, db.products[i].branchId)
    requires NotificationKeys(db.notifications, db.nextNotificationId)
    modifies db`products, db`notifications, db`nextNotificationId
    ensures ProductKeys(db.products, db.nextProductId)
    ensures forall i :: 0 <= i < |db.products| ==> HasBranch(db.branches, db.products[i].branchId)
    ensures NotificationKeys(db.notifications, db.nextNotificationId)
    ensures forall j :: 0 <= j < |snap| ==> snap[j].id in done
    ensures |db.products| == |old(db.products)|
    ensures forall i :: 0 <= i < |db.products| ==>
      db.products[i] == old(db.products)[i].(lowStockNotified := old(db.products)[i].lowStockNotified || old(db.products)[i].id in done)
    ensures db.notifications == old(db.notifications) + Alerts(snap, db.branches, old(db.nextNotificationId))
    ensures db.nextNotificationId == old(db.nextNotificationId) + |snap|
  {
    ghost var ps0, ns0, next0, bs := db.products, db.notifications, db.nextNotificationId, db.branches;
    done := {};
    var k := 0;
    while k < |snap|
      invariant 0 <= k <= |snap|
      invariant db.branches == bs
      invariant |db.products| == |ps0|
      invariant forall i :: 0 <= i < |ps0| ==>
        db.products[i] == ps0[i].(lowStockNotified := ps0[i].lowStockNotified || ps0[i].id in done)
      invariant forall j :: 0 <= j < k ==> snap[j].id in done
      invariant db.notifications == ns0 + Alerts(snap[..k], bs, next0)
      invariant db.nextNotificationId == next0 + k
      invariant ProductKeys(db.products, db.nextProductId)
      invariant forall i :: 0 <= i < |db.products| ==> HasBranch(bs, db.products[i].branchId)
      invariant NotificationKeys(db.notifications, db.nextNotificationId)
    {
      var p := snap[k];
      AlertsStep(snap, k, bs, next0);
      SetNotifiedKeepsKeys(db.products, p.id, db.nextProductId, bs);
      MarkStep(ps0, db.products, done, p.id);
      done := done + {p.id};
      assert forall j :: 0 <= j <= k ==> snap[j].id in done;
      var n := Alert(p, db.branches, db.nextNotificationId);   // StockNotification::create
      assert n == Alert(snap[k], bs, next0 + k);
      Seqs.SnocAssoc(ns0, Alerts(snap[..k], bs, next0), n);
      db.InsertNotification(n);
      db.products := SetNotified(db.products, p.id);          // $product->save()
      k := k + 1;
    }
    assert snap[..k] == snap;
  }

  /** `handle()`: the snapshot query, the alert-and-mark loop, the bulk reset.
      Afterwards every product's mark equals "stock at or below 10", nothing
      else about any product has changed, and exactly one alert was appended
      per snapshot row, in table order. */
  method Handle(db: Store)
    requires db.Valid()
    modifies db`products, db`notifications, db`nextNotificationId
    ensures db.Valid()
    ensures |db.products| == |old(db.products)|
    ensures forall i :: 0 <= i < |db.products| ==>
      db.products[i] == old(db.products)[i].(lowStockNotified := old(db.products)[i].stockQuantity <= Threshold)
    ensures Settled(db.products)
    ensures forall j :: 0 <= j < |LowStocks(old(db.products))| ==> HasBranch(db.branches, LowStocks(old(db.products))[j].branchId)
    ensures db.notifications == old(db.notifications) + Alerts(LowStocks(old(db.products)), db.branches, old(db.nextNotificationId))
    ensures db.nextNotificationId == old(db.nextNotificationId) + |LowStocks(old(db.products))|
  {
    ghost var ps0 := db.products;
    var lowStocks := LowStocks(db.products);
    SnapshotBranches(db.products, db.branches);
    ghost var done := NotifyEach(db, lowStocks);
    forall i | 0 <= i < |ps0| && NeedsAlert(ps0[i]) ensures ps0[i].id in done {
      Seqs.FilterMembership(ps0, NeedsAlert, ps0[i]);
    }
    ResetRecoveredKeepsKeys(db.products, db.nextProductId, db.branches);
    db.products := ResetRecovered(db.products);
  }

  // ---- what one pass guarantees ----

  /** On settled products the scan query returns nothing: a second pass sends no alert. */
  lemma {:induction false} SettledHasNoLowStocks(ps: seq<Product>)
    requires Settled(ps)
    ensures LowStocks(ps) == []
  {
    Seqs.FilterDropsAll(ps, NeedsAlert);
  }

  /** A product is alerted by a pass exactly when it is low and not yet marked
      (ids are unique, so an alert's product id names one row). */
  lemma AlertedIffNeedsAlert(ps: seq<Product>, bs: seq<Branch>, next: Id, i: nat)
    requires ProductKeys(ps, next)
    requires forall j :: 0 <= j < |ps| ==> HasBranch(bs, ps[j].branchId)
    requires i < |ps|
    ensures forall j :: 0 <= j < |LowStocks(ps)| ==> HasBranch(bs, LowStocks(ps)[j].branchId)
    ensures (exists n :: n in Alerts(LowStocks(ps), bs, next) && n.productId == ps[i].id) <==> NeedsAlert(ps[i])
  {
    SnapshotBranches(ps, bs);
    var snap := LowStocks(ps);
    var alerts := Alerts(snap, bs, next);
    if NeedsAlert(ps[i]) {
      Seqs.FilterMembership(ps, NeedsAlert, ps[i]);
      var j :| 0 <= j < |snap| && snap[j] == ps[i];
      AlertsAt(snap, bs, next, j);
      assert alerts[j].productId == ps[i].id;
    }
    if exists n :: n in alerts && n.productId == ps[i].id {
      var n :| n in alerts && n.productId == ps[i].id;
      var j :| 0 <= j < |alerts| && alerts[j] == n;
      AlertsAt(snap, bs, next, j);
      Seqs.FilterMembership(ps, NeedsAlert, snap[j]);
      var i' :| 0 <= i' < |ps| && ps[i'] == snap[j];
      assert i' == i;
    }
  }

  /** Each alert that a pass creates carries the product's stock as it was at the query. */
  lemma AlertStockReadsBack(p: Product, bs: seq<Branch>, id: Id)
    requires HasBranch(bs, p.branchId)
    ensures var m := Alert(p, bs, id).message;
      |m| > 0 && Text.ParseInt(m[|m| - |Text.IntToString(p.stockQuantity)|..]) == p.stockQuantity
  {
    var m := Alert(p, bs, id).message;
    var digits := Text.IntToString(p.stockQuantity);
    assert m[|m| - |digits|..] == digits;
    Text.IntToStringRoundTrip(p.stockQuantity);
  }

  /** Two passes with no change in between: the second creates no notification
      and leaves every product as the first left it. */
  method HandleTwice(db: Store)
    requires db.Valid()
    modifies db`products, db`notifications, db`nextNotificationId
    ensures db.Valid() && Settled(db.products)
    ensures forall j :: 0 <= j < |LowStocks(old(db.products))| ==> HasBranch(db.branches, LowStocks(old(db.products))[j].branchId)
    ensures db.notifications == old(db.notifications) + Alerts(LowStocks(old(db.products)), db.branches, old(db.nextNotificationId))
    ensures db.nextNotificationId == old(db.nextNotificationId) + |LowStocks(old(db.products))|
    ensures |db.products| == |old(db.products)|
    ensures forall i :: 0 <= i < |db.products| ==>
      db.products[i] == old(db.products)[i].(lowStockNotified := old(db.products)[i].stockQuantity <= Threshold)
  {
    Handle(db);
    ghost var afterFirst := db.notifications;
    ghost var productsFirst := db.products;
    SettledHasNoLowStocks(db.products);
    Handle(db);
    assert db.notifications == afterFirst;
    assert db.products == productsFirst;
  }

  /** A product that recovers above the threshold and runs low again is alerted again. */
  lemma RecoveredIsAlertedAgain(p: Product, restocked: int, sold: int)
    requires p.lowStockNotified && p.stockQuantity <= Threshold
    requires p.stockQuantity + restocked > Threshold
    requires p.stockQuantity + restocked - sold <= Threshold
    ensures var recovered := ResetRecovered([p.(stockQuantity := p.stockQuantity + restocked)])[0];
      !recovered.lowStockNotified &&
      NeedsAlert(recovered.(stockQuantity := recovered.stockQuantity - sold))
  {
  }
}
