/** The persistence layer: every table of the system as a field of one store
    object, with the sale model's lifecycle hooks attached to sale creation
    and deletion. */
module Database {
  import opened Wrappers
  import opened Entities
  import opened SaleModel
  import Seqs

  class Store {
    var products: seq<Product>
    var sales: seq<Sale>
    var notifications: seq<StockNotification>
    var branches: seq<Branch>
    var customers: seq<Customer>
    var categories: seq<Category>
    var suppliers: seq<Supplier>
    var users: seq<User>
    var invoices: seq<Invoice>
    var invoiceSales: seq<InvoiceSale>

    // auto-increment counters: the id the next inserted row receives
    var nextProductId: nat
    var nextSaleId: nat
    var nextNotificationId: nat
    var nextBranchId: nat
    var nextCustomerId: nat
    var nextCategoryId: nat
    var nextInvoiceId: nat

    /** Primary keys are unique and below their counter, and every product
        belongs to an existing branch (the `products.branch_id` foreign key). */
    ghost predicate Valid()
      reads this
    {
      && ProductKeys(products, nextProductId)
      && SaleKeys(sales, nextSaleId)
      && NotificationKeys(notifications, nextNotificationId)
      && BranchKeys(branches, nextBranchId)
      && CustomerKeys(customers, nextCustomerId)
      && CategoryKeys(categories, nextCategoryId)
      && InvoiceKeys(invoices, nextInvoiceId)
      && (forall i :: 0 <= i < |products| ==> HasBranch(branches, products[i].branchId))
    }

    constructor ()
      ensures Valid()
      ensures products == [] && sales == [] && notifications == [] && branches == []
      ensures customers == [] && categories == [] && suppliers == [] && users == []
      ensures invoices == [] && invoiceSales == []
    {
      products, sales, notifications, branches := [], [], [], [];
      customers, categories, suppliers, users := [], [], [], [];
      invoices, invoiceSales := [], [];
      nextProductId, nextSaleId, nextNotificationId, nextBranchId := 1, 1, 1, 1;
      nextCustomerId, nextCategoryId, nextInvoiceId := 1, 1, 1;
    }

    /** `Sale::create`: inserts the row under the next id, then the `created`
        hook decrements the referenced product's stock by the sale's quantity
        (`updateProductStock`); a missing product is silently skipped. */
    method CreateSale(s: Sale) returns (id: Id)
      requires Valid()
      modifies this`sales, this`products, this`nextSaleId
      ensures Valid()
      ensures id == old(nextSaleId) && nextSaleId == id + 1
      ensures sales == old(sales) + [s.(id := id)]
      ensures products == AdjustStock(old(products), s.productId, -s.quantity)
      ensures SameLedger(old(products), old(sales), products, sales)
    {
      id := nextSaleId;
      CreateKeepsLedger(products, sales, s.(id := id));
      AdjustStockKeepsKeys(products, s.productId, -s.quantity, nextProductId, branches);
      sales := sales + [s.(id := id)];
      nextSaleId := nextSaleId + 1;
      // a missing product is no row to adjust (SaleModel.AdjustStockMissing)
      products := AdjustStock(products, s.productId, -s.quantity);
    }

    /** `StockNotification::create`: the row is stored under the next id. */
    method InsertNotification(n: StockNotification)
      requires NotificationKeys(notifications, nextNotificationId) && n.id == nextNotificationId
      modifies this`notifications, this`nextNotificationId
      ensures NotificationKeys(notifications, nextNotificationId)
      ensures nextNotificationId == old(nextNotificationId) + 1
      ensures notifications == old(notifications) + [n]
    {
      notifications := notifications + [n];
      nextNotificationId := nextNotificationId + 1;
    }

    /** `Invoice::create` followed by attaching pivot rows for the new invoice. */
    method InsertInvoice(v: Invoice, rows: seq<InvoiceSale>)
      requires Valid() && v.id == nextInvoiceId
      modifies this`invoices, this`nextInvoiceId, this`invoiceSales
      ensures Valid()
      ensures nextInvoiceId == old(nextInvoiceId) + 1
      ensures invoices == old(invoices) + [v] && invoiceSales == old(invoiceSales) + rows
    {
      invoices := invoices + [v];
      nextInvoiceId := nextInvoiceId + 1;
      invoiceSales := invoiceSales + rows;
    }

    /** `$sale->delete()`: when the sale exists, the `deleting` hook first
        increments its product's stock by the sale's quantity
        (`restoreProductStock`, skipped for a missing product), then the row
        goes, and with it its `invoice_sale` rows (cascade on delete). */
    method DeleteSale(saleId: Id) returns (deleted: bool)
      requires Valid()
      modifies this`sales, this`products, this`invoiceSales
      ensures Valid()
      ensures deleted <==> HasSale(old(sales), saleId)
      ensures !deleted ==> sales == old(sales) && products == old(products) && invoiceSales == old(invoiceSales)
      ensures deleted ==> exists k :: 0 <= k < |old(sales)| && old(sales)[k].id == saleId &&
                                      products == AdjustStock(old(products), old(sales)[k].productId, old(sales)[k].quantity)
      ensures deleted ==> sales == Seqs.Filter(old(sales), (x: Sale) => x.id != saleId)
      ensures deleted ==> |sales| == |old(sales)| - 1
      ensures deleted ==> invoiceSales == Seqs.Filter(old(invoiceSales), (r: InvoiceSale) => r.saleId != saleId)
      ensures SameLedger(old(products), old(sales), products, sales)
    {
      var found := Seqs.Find(sales, (x: Sale) => x.id == saleId);   // Sale::find
      if found.None? {
        return false;
      }
      var k := found.value;
      var s := sales[k];
      DeleteKeepsLedger(products, sales, k);
      AdjustStockKeepsKeys(products, s.productId, s.quantity, nextProductId, branches);
      RemovedOne(sales, k, saleId);
      SaleKeysWithout(sales, k, nextSaleId);
      // deleting hook; a missing product is no row to adjust
      products := AdjustStock(products, s.productId, s.quantity);
      sales := Seqs.Filter(sales, (x: Sale) => x.id != saleId);
      invoiceSales := Seqs.Filter(invoiceSales, (r: InvoiceSale) => r.saleId != saleId);
      deleted := true;
    }
  }

  /** Dropping one row keeps the remaining keys unique and below the counter. */
  lemma SaleKeysWithout(ss: seq<Sale>, k: nat, next: nat)
    requires k < |ss| && SaleKeys(ss, next)
    ensures SaleKeys(ss[..k] + ss[k + 1..], next)
  {
    var r := ss[..k] + ss[k + 1..];
    assert forall i :: 0 <= i < |r| ==> r[i] == ss[if i < k then i else i + 1];
  }

  /** With unique ids, filtering out row k's id removes exactly that row. */
  lemma {:induction false} RemovedOne(ss: seq<Sale>, k: nat, sid: Id)
    requires k < |ss| && ss[k].id == sid
    requires forall i, j :: 0 <= i < j < |ss| ==> ss[i].id != ss[j].id
    ensures Seqs.Filter(ss, (x: Sale) => x.id != sid) == ss[..k] + ss[k + 1..]
  {
    var keep := (x: Sale) => x.id != sid;
    if k == 0 {
      forall i | 0 <= i < |ss[1..]| ensures keep(ss[1..][i]) { assert ss[1..][i] == ss[i + 1]; }
      Seqs.FilterKeepsAll(ss[1..], keep);
    } else {
      assert ss[1..][k - 1] == ss[k];
      RemovedOne(ss[1..], k - 1, sid);
      assert ss[1..][..k - 1] + ss[1..][k..] == ss[1..k] + ss[k + 1..];
      assert ss[..k] + ss[k + 1..] == [ss[0]] + (ss[1..k] + ss[k + 1..]);
    }
  }
}
