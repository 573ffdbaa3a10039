# IMS core: stock ledger, low-stock scanner and guarded master data

This project is a Dafny model of the core of IMS, an inventory and point-of-sale system built with Laravel and React. It covers:

- **Stock ledger.** IMS keeps products, sales, branches, customers, categories, invoices and stock notifications in one database, modelled as the class `Database.Store` with one `seq` field per table and one auto-increment counter per table. `Store.Valid()` says that primary keys are unique and below their counter, and that every product's branch exists. Recording a sale lowers its product's stock, and deleting a sale gives the stock back (`Store.CreateSale`, `Store.DeleteSale`). A missing product is skipped. The pure partner of both hooks is `SaleModel.AdjustStock`. Both methods keep "stock plus quantity still on recorded sales" unchanged for every product (`SaleModel.SameLedger`).
- **Low-stock scanner.** The `stock:check-low` command alerts every product at or below 10 that has not been alerted yet, marks it, and then clears the mark on products above 10. After one pass each product's mark equals `stock <= 10`, so a second pass sends nothing (`CheckLowStock.Handle`, `CheckLowStock.HandleTwice`).
- **Dashboard throttle.** The dashboard queues that command through an add-if-absent cache lock with a 20-second lifetime (`ScanThrottle.Throttle`).
- **Controllers.** Each controller action is a method on the store:
  - notifications: mark as read, delete;
  - sales: store with the total formula, status update, delete;
  - products: stock and branch edits, store, delete, the low-stock and own-branch listings;
  - branches, customers, categories: create, edit, the delete refused while other rows depend on the row;
  - invoices: store, list, show, update, delete.
  
  The related query scopes are modelled too. An action answers with a `Reply`:
  - a success or failure flash message;
  - `NotFound` for `findOrFail`;
  - `Invalid(fields)`, where `fields` lists the failing fields in rule order;
  - `Created`/`Ok` for JSON answers.
- **React pages.** The model also covers the arithmetic and state of four pages:
  - the invoice form's totals and sale selection (`InvoiceForm`);
  - the invoice list's difference sums, row numbers and filter bar (`InvoiceList`);
  - the dashboard's per-branch cards, search filter, sort and sort toggle (`DashboardPage`);
  - the users page's branch rows and role list (`UserPage`).

Money is exact `real`. Request fields are `Option`s, where `None` is an absent field. A numeric field that must be an integer is a `real` with an integrality check. Stock and ids are unbounded integers.

Two behaviours of the code are modelled as written:

- `Product::isLowStock` tests `stock_quantity < 10`, but the scanner alerts at `<= 10`. A product with exactly 10 in stock is alerted yet is not "low" (`ProductModel.TenIsNotLowButIsScanned`, `ProductController.LowStockListsWhatIsLowStockDenies`).
- The throttle's comment promises at most one scan per 60 seconds, but the lock lives 20 seconds. Two loads 20 seconds apart both queue a scan (`ScanThrottle.SixtySecondCommentNotHeld`).

## Model

| member | source | states |
|---|---|---|
| Database.Store.CreateSale | app/Models/Sale.php:52-68 | the sale is stored under the next id; the `created` hook lowers the referenced product's stock by the quantity and changes nothing else; stock plus outstanding quantity is unchanged for every product |
| Database.Store.DeleteSale | app/Models/Sale.php:57-76 | deletes exactly when the sale exists, otherwise nothing changes; on delete the `deleting` hook gives the sale's quantity back to its product, exactly one sale row goes, the sale's pivot rows go, and stock plus outstanding quantity is unchanged |
| Database.Store.InsertNotification | app/Console/Commands/CheckLowStock.php:33-37 | the notification is appended under the next id and keys stay unique |
| Database.Store.InsertInvoice | app/Http/Controllers/InvoiceController.php:60-79 | the invoice and its pivot rows are appended and the invoice counter advances by one |
| SaleModel.AdjustStock | app/Models/Sale.php:62-76 | the product with the id has its stock moved by `delta`; every other row is unchanged |
| SaleModel.StockOf | app/Models/Sale.php:64 | `Product::find` finds a stock exactly when a product has the id, and the stock is that product's |
| SaleModel.AdjustStockMovesStock | app/Models/Sale.php:66 | an existing product's stock moves by exactly `delta` |
| SaleModel.AdjustStockInverse | app/Models/Sale.php:62-76 | decrementing then incrementing by the same quantity restores every product |
| SaleModel.AdjustStockMissing | app/Models/Sale.php:64-67 | with no product under the id, neither hook changes any row |
| SaleModel.StockCanGoNegative | app/Models/Sale.php:66 | the decrement is not clamped: stock 2 minus a sale of 5 is −3 |
| SaleModel.CreateKeepsLedger | app/Models/Sale.php:52-54 | recording a sale and decrementing keeps stock plus outstanding quantity for every product |
| SaleModel.DeleteKeepsLedger | app/Models/Sale.php:57-59 | incrementing and removing a sale keeps stock plus outstanding quantity for every product |
| SaleModel.AdjustStockKeepsKeys | app/Models/Sale.php:66 | the hooks change stock only: keys and branch references stay valid |
| ProductModel.FromAttributes | app/Models/Product.php:13-22 | a created product takes the fillable attributes; its low-stock mark starts false and `is_active` defaults to true |
| ProductModel.NotifiedFlagNotMassAssignable | app/Models/Product.php:13-22 | whatever a request says about `low_stock_notified`, the created row is the same |
| ProductModel.TenIsNotLowButIsScanned | app/Models/Product.php:73-76 | stock 10 is not low for `isLowStock` (`< 10`) but is at or below the scanner's threshold |
| ProductModel.SearchByNameExact | app/Models/Product.php:44-47 | `searchByName` returns exactly the products whose name contains the term |
| ProductModel.CategoryIdByName | app/Models/Product.php:51 | a category id is found exactly when a category has the name, and it is that category's id |
| ProductModel.SupplierIdByName | app/Models/Product.php:58 | a supplier id is found exactly when a supplier has the name, and it is that supplier's id |
| ProductModel.SearchByCategoryExact | app/Models/Product.php:49-54 | `searchByCategory` returns exactly the products in the first category with that name |
| ProductModel.SearchBySupplierExact | app/Models/Product.php:56-61 | `searchBySupplier` returns exactly the products of the first supplier with that name |
| ProductModel.SearchByBranchExact | app/Models/Product.php:63-66 | `searchByBranch(b)` returns exactly the products with `branch_id == b` |
| ProductModel.DuplicateCategoryNameUsesFirst | app/Models/Product.php:51-53 | with two categories of one name, products of the second are not found |
| CheckLowStock.Alert | app/Console/Commands/CheckLowStock.php:33-37 | an alert has its id, the product's id, type `low_stock`, and is unread |
| CheckLowStock.AlertsAt | app/Console/Commands/CheckLowStock.php:32-37 | the j-th notification of a pass is the alert for the j-th scanned row, under id `next + j` |
| CheckLowStock.SetNotified | app/Console/Commands/CheckLowStock.php:39-40 | only the saved row's mark becomes true; every other row is unchanged |
| CheckLowStock.ResetRecovered | app/Console/Commands/CheckLowStock.php:43 | every row above 10 has its mark cleared; every other row is unchanged |
| CheckLowStock.NotifyEach | app/Console/Commands/CheckLowStock.php:32-41 | the loop appends exactly the alerts for the snapshot, in order, and marks exactly the snapshot's rows; stock and other columns stay |
| CheckLowStock.Handle | app/Console/Commands/CheckLowStock.php:28-46 | one pass appends one alert per product that was at or below 10 and unmarked; afterwards every mark equals `stock <= 10`; stock and existing notifications are unchanged |
| CheckLowStock.SettledHasNoLowStocks | app/Console/Commands/CheckLowStock.php:30 | on settled products the scan query selects nothing |
| CheckLowStock.AlertedIffNeedsAlert | app/Console/Commands/CheckLowStock.php:30-37 | a product gets an alert exactly when it is at or below 10 and unmarked (active or not) |
| CheckLowStock.AlertStockReadsBack | app/Console/Commands/CheckLowStock.php:36 | the alert text is the product name, branch name and stock in the fixed sentence, and the stock printed reads back as the stock |
| CheckLowStock.HandleTwice | app/Console/Commands/CheckLowStock.php:28-46 | two passes with no change in between equal one: the notifications and the counter advance only by the first pass's alerts, and each product ends with only its mark set to `stock <= 10` |
| CheckLowStock.RecoveredIsAlertedAgain | app/Console/Commands/CheckLowStock.php:30-43 | a marked product that is restocked above 10 has its mark cleared and is alerted again once it falls back to 10 or below |
| ScanThrottle.Add | app/Http/Controllers/DashboardController.php:21 | `Cache::add` succeeds exactly when the key has no live entry, and only then stores the expiry `now + ttl` |
| ScanThrottle.Throttle.Index | app/Http/Controllers/DashboardController.php:19-49 | the lock is taken exactly when absent or expired; a scan is queued only then, or the error is reported instead; the data returned is the tables, whatever the lock did |
| ScanThrottle.WithinTtlNoReacquire | app/Http/Controllers/DashboardController.php:21 | within 20 seconds of a successful add, the next add fails |
| ScanThrottle.AfterTtlReacquires | app/Http/Controllers/DashboardController.php:21 | 20 seconds or more after a successful add, the next add succeeds |
| ScanThrottle.LiveLockBlocksAll | app/Http/Controllers/DashboardController.php:21-25 | while a lock is live, no load in the window queues a scan |
| ScanThrottle.AtMostOnePerWindow | app/Http/Controllers/DashboardController.php:21 | loads within one 20-second window queue at most one scan |
| ScanThrottle.SixtySecondCommentNotHeld | app/Http/Controllers/DashboardController.php:20-21 | two loads 20 seconds apart queue two scans, so "once per 60s" does not hold |
| StockNotifications.MarkRead | app/Http/Controllers/StockNotificationController.php:12-15 | only the notification with the id becomes read; every other row is unchanged |
| StockNotifications.MarkReadIdempotent | app/Http/Controllers/StockNotificationController.php:14-15 | marking twice is the same as marking once |
| StockNotifications.WithoutMembership | app/Http/Controllers/StockNotificationController.php:25-27 | after delete, a row remains exactly when it was there and has another id |
| StockNotifications.WithoutRemovesOne | app/Http/Controllers/StockNotificationController.php:25-27 | with unique ids, deleting an existing id removes exactly one row |
| StockNotifications.MarkAsRead | app/Http/Controllers/StockNotificationController.php:10-21 | an existing id is marked read with the "marked" message; a missing id changes nothing and answers "not found" |
| StockNotifications.Delete | app/Http/Controllers/StockNotificationController.php:23-33 | an existing id's row is removed, one row fewer; a missing id changes nothing and answers "not found" |
| Entities.ParseStatus | app/Http/Controllers/SaleController.php:92 | a status is accepted exactly when it is `pending`, `paid` or `canceled` |
| Entities.StatusRoundTrip | app/Http/Controllers/SaleController.php:92 | every status's name parses back to it |
| Entities.ParseInvoiceType | app/Http/Controllers/InvoiceController.php:40 | a type is accepted exactly when it is `purchase` or `sale` |
| Entities.FindCustomer | app/Http/Controllers/CustomerController.php:94 | `findOrFail` finds a row exactly when one has the id, and returns that row |
| Entities.FindBranch | app/Http/Controllers/BranchController.php:73 | `findOrFail` finds a row exactly when one has the id, and returns that row |
| SaleController.SaleErrors | app/Http/Controllers/SaleController.php:84-94 | a sale request has no failing field exactly when every rule of `store` holds |
| SaleController.SaleRejects | app/Http/Controllers/SaleController.php:84-94 | a fractional or non-positive quantity, a negative price, tax or discount, or an unknown status is refused |
| SaleController.SaleTotal | app/Http/Controllers/SaleController.php:100-103 | the total is the line amount times (1 − discount/100 + tax/100) |
| SaleController.NoPercentsIsLineAmount | app/Http/Controllers/SaleController.php:100-103 | with tax and discount 0 the total is `price × quantity` |
| SaleController.EqualPercentsCancel | app/Http/Controllers/SaleController.php:103 | equal tax and discount rates give the line amount |
| SaleController.DiscountCanMakeTotalNegative | app/Http/Controllers/SaleController.php:103 | a discount above 100 plus the tax gives a negative total, because it is not capped |
| SaleController.CustomerNameFor | app/Http/Controllers/SaleController.php:96-97 | with a truthy `customer_id` the name is the registered customer's, otherwise the request's |
| SaleController.NewSale | app/Http/Controllers/SaleController.php:96-115 | the row takes the user's branch, the derived customer name, tax and discount defaulting to 0, the recomputed total and the parsed status |
| SaleController.ClientTotalIgnored | app/Http/Controllers/SaleController.php:100-112 | any other valid client `total_amount` leaves the stored row the same |
| SaleController.Store | app/Http/Controllers/SaleController.php:82-118 | an invalid request changes nothing and lists its failing fields; a valid one stores the derived row under the next id and runs the stock hook |
| SaleController.SetStatus | app/Http/Controllers/SaleController.php:128-130 | only the status of the sale with the id changes |
| SaleController.SetStatusKeeps | app/Http/Controllers/SaleController.php:128-130 | a status change keeps keys and the stock ledger |
| SaleController.Update | app/Http/Controllers/SaleController.php:120-133 | a missing sale answers NotFound; a status outside the three values is refused; otherwise only the status changes and stock is untouched |
| SaleController.Destroy | app/Http/Controllers/SaleController.php:135-141 | a missing sale answers NotFound; otherwise the sale is deleted through the model, so its quantity goes back to the product |
| SaleController.VisibleSalesExact | app/Http/Controllers/SaleController.php:17-20 | non-administrators see exactly the sales of their own branch; administrators see all |
| ProductController.SetBranch | app/Http/Controllers/ProductController.php:22-23 | only the branch of the product with the id changes |
| ProductController.SetStock | app/Http/Controllers/ProductController.php:33-34 | only the stock of the product with the id changes |
| ProductController.SetStockLastWins | app/Http/Controllers/ProductController.php:33-34 | two stock edits leave the second value |
| ProductController.UpdateBranch | app/Http/Controllers/ProductController.php:14-25 | a cast branch id that does not exist is refused before the lookup; a missing product answers NotFound; otherwise only the product's `branch_id` changes |
| ProductController.UpdateStock | app/Http/Controllers/ProductController.php:27-36 | a negative or fractional stock is refused; a missing product answers NotFound; otherwise only its stock is set |
| ProductController.ProductErrors | app/Http/Controllers/ProductController.php:39-48 | a product request has no failing field exactly when every rule of `store` holds |
| ProductController.StoreRejectsBadNumbers | app/Http/Controllers/ProductController.php:41-43 | a negative price, or a negative or fractional stock, is a failing field |
| ProductController.Attributes | app/Http/Controllers/ProductController.php:50 | `$request->all()` passes every field on, including a `low_stock_notified` value, which the model then drops |
| ProductController.Store | app/Http/Controllers/ProductController.php:37-53 | an invalid request changes nothing; a valid one appends the product built from the fillable attributes under the next id |
| ProductController.WithoutProductExact | app/Http/Controllers/ProductController.php:58 | `Product::destroy` keeps exactly the rows with another id, and a missing id changes nothing |
| ProductController.Destroy | app/Http/Controllers/ProductController.php:55-61 | the product is removed with no guard and the answer is always success |
| ProductController.LowStockExact | app/Http/Controllers/ProductController.php:106-114 | `getLowStock(t)` returns exactly the active products with stock at or below `t` |
| ProductController.LowStockListsWhatIsLowStockDenies | app/Http/Controllers/ProductController.php:106-110 | an active product at stock 10 is listed by `getLowStock()` while `isLowStock` says no |
| ProductController.BranchScopeExact | app/Http/Controllers/ProductController.php:75-78 | the `where('branch_id', ...)` scope holds exactly the products of the user's branch, and none for a user without one |
| ProductController.IndexBranch | app/Http/Controllers/ProductController.php:73-80 | `paginate(10)`: at most 10 rows, the requested page's slice of the scope in order |
| ProductController.IndexBranchOwnBranch | app/Http/Controllers/ProductController.php:73-80 | every row of an `indexBranch` page is a product of the user's own branch |
| BranchController.ParseBranchStatus | app/Http/Controllers/BranchController.php:29 | a branch status is accepted exactly when it is `active` or `inactive` |
| BranchController.BranchErrors | app/Http/Controllers/BranchController.php:25-30 | no failing field exactly when the request is valid; the name fails exactly when missing or too long, the status exactly when not `active`/`inactive` |
| BranchController.RowOf | app/Http/Controllers/BranchController.php:32 | the row takes the name, address, contact number and parsed status of the request |
| BranchController.Update | app/Http/Controllers/BranchController.php:66 | the row with the id is replaced by its update; every other row stays |
| BranchController.Store | app/Http/Controllers/BranchController.php:23-35 | an invalid request changes nothing; a valid one appends the branch under the next id |
| BranchController.Edited | app/Http/Controllers/BranchController.php:66 | `update($request->all())` replaces name and status, and the address and contact number only when the request carries them; the id is kept |
| BranchController.EditedAgreesWithRowOf | app/Http/Controllers/BranchController.php:66 | an edit carrying every column gives the row a create would make; a column left out keeps its stored value |
| BranchController.Edit | app/Http/Controllers/BranchController.php:55-69 | a missing branch answers NotFound before validation; an invalid request changes nothing; otherwise only that row is edited, keeping the columns the request leaves out |
| BranchController.UpdateStatus | app/Http/Controllers/BranchController.php:89-100 | a missing branch answers NotFound; a status outside `active`/`inactive` is refused; otherwise only that branch's status changes |
| BranchController.WithoutBranchRemovesOne | app/Http/Controllers/BranchController.php:81 | with unique ids, deleting an existing branch removes exactly one row |
| BranchController.Destroy | app/Http/Controllers/BranchController.php:71-84 | a branch with a product or a sale is kept, with the error message; otherwise exactly that branch is removed |
| CustomerController.CustomerErrors | app/Http/Controllers/CustomerController.php:54-60 | no failing field exactly when every rule holds; the e-mail fails exactly when missing, malformed, too long or taken by another row |
| CustomerController.DuplicateEmailRejected | app/Http/Controllers/CustomerController.php:56 | registering with an address some customer already has fails on `email` |
| CustomerController.OwnEmailAllowedOnEdit | app/Http/Controllers/CustomerController.php:98 | with unique addresses, an edit keeping the customer's own address passes the unique rule |
| CustomerController.NewCustomer | app/Http/Controllers/CustomerController.php:62-69 | absent loyalty points become 0 and the branch is the creating user's |
| CustomerController.Store | app/Http/Controllers/CustomerController.php:52-72 | an invalid request changes nothing; a valid one appends the new customer under the next id |
| CustomerController.Edited | app/Http/Controllers/CustomerController.php:104 | the carried fields are replaced and absent ones keep their value; id and branch never change |
| CustomerController.EditRow | app/Http/Controllers/CustomerController.php:104 | only the row with the id is edited |
| CustomerController.Update | app/Http/Controllers/CustomerController.php:92-107 | a missing customer answers NotFound; an invalid request changes nothing; otherwise only that row is edited |
| CustomerController.WithoutCustomerExact | app/Http/Controllers/CustomerController.php:119 | deleting keeps exactly the customers with another id |
| CustomerController.Destroy | app/Http/Controllers/CustomerController.php:109-122 | a customer with a sale or an invoice is kept, with the error message; otherwise exactly that customer is removed |
| CustomerController.VisibleCustomersExact | app/Http/Controllers/CustomerController.php:14-16 | non-administrators see exactly the customers of their own branch |
| CategoryController.CreateErrors | app/Http/Controllers/CategoryController.php:25-28 | no failing field exactly when the name is present, short enough and unused and the description short enough |
| CategoryController.ExistingNameRejected | app/Http/Controllers/CategoryController.php:26 | a name some category already has is refused |
| CategoryController.Store | app/Http/Controllers/CategoryController.php:23-36 | `category_name` becomes `name` and `category_description` becomes `description`; unique names stay unique |
| CategoryController.EditRow | app/Http/Controllers/CategoryController.php:65 | only the row with the id gets the new name, and the new description when one is carried |
| CategoryController.Update | app/Http/Controllers/CategoryController.php:56-68 | a missing category answers NotFound; an invalid request changes nothing; otherwise only that row is edited and names stay unique |
| CategoryController.EditKeepsUniqueNames | app/Http/Controllers/CategoryController.php:61 | a rename accepted by `unique:categories,name,$id` keeps names unique |
| CategoryController.WithoutCategoryExact | app/Http/Controllers/CategoryController.php:80 | deleting keeps exactly the categories with another id |
| CategoryController.Destroy | app/Http/Controllers/CategoryController.php:70-83 | a category with a product is kept, with the error message; otherwise exactly that category is removed |
| InvoiceController.StoreErrors | app/Http/Controllers/InvoiceController.php:31-44 | no failing field exactly when every rule of `store` holds; `sales` fails exactly when a listed sale does not exist |
| InvoiceController.RegisteredNameOr | app/Http/Controllers/InvoiceController.php:47-52 | with a truthy `customer_id` the name is that customer's, otherwise the fallback |
| InvoiceController.CreatorBranch | app/Http/Controllers/InvoiceController.php:55-58 | the branch name is set exactly when the user has a truthy branch id that exists, and it is that branch's name |
| InvoiceController.NewInvoice | app/Http/Controllers/InvoiceController.php:46-73 | the number starts with `INV-`; the customer name is the one found for the id, else the request's; tax and discount default to 0; the other fields are copied |
| InvoiceController.Dedup | app/Http/Controllers/InvoiceController.php:77 | the sale ids keep their members, each once |
| InvoiceController.Attach | app/Http/Controllers/InvoiceController.php:77 | one pivot row per sale id, with `line_total` null |
| InvoiceController.Selected | app/Http/Controllers/InvoiceController.php:76-77 | the attached ids are exactly the listed ones when `sales` is filled, without repeats |
| InvoiceController.AttachKeepsPivot | database/migrations/2025_08_30_000001_create_invoice_sale_table.php:17 | attaching distinct ids to a fresh invoice keeps every (invoice, sale) pair unique |
| InvoiceController.Store | app/Http/Controllers/InvoiceController.php:29-82 | an invalid request changes nothing; a valid one appends the new invoice under the next id with its pivot rows; pivot pairs stay unique |
| InvoiceController.AttachedOfAttach | app/Http/Controllers/InvoiceController.php:76-78 | the sales of freshly attached ids are those ids in order, and their total is the sum of their amounts |
| InvoiceController.StoredInvoiceSales | app/Http/Controllers/InvoiceController.php:76-79 | a stored invoice's sales are the selected ones, each once, and they total the sum of the selected sales' amounts |
| InvoiceController.Present | app/Http/Controllers/InvoiceController.php:115-137 | `computed_sales_total` is the sum over the attached sales, `difference` is the total minus it, and `sales_count` is their number |
| InvoiceController.DifferenceMeaning | app/Http/Controllers/InvoiceController.php:126 | the difference is 0 exactly when the invoice total equals its sales total, and it is the total when nothing is attached |
| InvoiceController.Show | app/Http/Controllers/InvoiceController.php:158-188 | a missing id answers NotFound; otherwise the row is presented with its sales total and difference |
| InvoiceController.CashierBranch | app/Http/Controllers/InvoiceController.php:92-93 | a cashier's branch name is used only when it is truthy and the user's branch exists |
| InvoiceController.ScopeExact | app/Http/Controllers/InvoiceController.php:89-99 | role 1 sees exactly the invoices whose `branch` is their branch name; any other role sees all |
| InvoiceController.CashierWithoutBranchSeesNothing | app/Http/Controllers/InvoiceController.php:95-98 | a cashier without a branch name sees no invoice |
| InvoiceController.Listing | app/Http/Controllers/InvoiceController.php:101-115 | the list holds exactly the scoped invoices that match the status, type and search filters |
| InvoiceController.ResolvePage | app/Http/Controllers/InvoiceController.php:115 | a page number below 1 or absent becomes 1 |
| InvoiceController.Page | app/Http/Controllers/InvoiceController.php:115 | page `p` holds at most 10 rows and is the slice from `(p − 1)·10`; it is full when the list is long enough |
| InvoiceController.StatusCountsPartition | app/Http/Controllers/InvoiceController.php:140-145 | the pending, paid and canceled counts add up to the whole table |
| InvoiceController.Index | app/Http/Controllers/InvoiceController.php:84-156 | `total` counts the filtered list; the status counts are over all invoices; row i of page p is the presentation of list entry `(p − 1)·10 + i` |
| InvoiceController.UpdateErrors | app/Http/Controllers/InvoiceController.php:194-204 | no failing field exactly when every rule of `update` holds |
| InvoiceController.Edited | app/Http/Controllers/InvoiceController.php:206-217 | carried fields replace the old ones and absent ones stay; with a truthy `customer_id` the name is the registered one |
| InvoiceController.SuppliedNameIgnored | app/Http/Controllers/InvoiceController.php:211-215 | with a customer id, a supplied `customer_name` is overwritten by the customer's name |
| InvoiceController.EditRow | app/Http/Controllers/InvoiceController.php:217 | only the row with the id is edited |
| InvoiceController.Update | app/Http/Controllers/InvoiceController.php:190-220 | a missing invoice answers NotFound; an invalid request changes nothing; otherwise only that row is edited |
| InvoiceController.DetachExact | database/migrations/2025_08_30_000001_create_invoice_sale_table.php:13 | after deletion the invoice has no sales left, and every other invoice keeps its sales |
| InvoiceController.Destroy | app/Http/Controllers/InvoiceController.php:222-228 | a missing invoice answers NotFound; otherwise the invoice and its pivot rows are removed |
| InvoiceForm.NumericKeysApart | resources/js/pages/invoice/create.tsx:93-94 | distinct numeric ids have distinct string keys |
| InvoiceForm.Chosen | resources/js/pages/invoice/create.tsx:82-83 | the chosen sales are exactly the loaded sales whose string id is selected |
| InvoiceForm.BaseNonNegative | resources/js/pages/invoice/create.tsx:80-84 | with non-negative amounts the base is non-negative |
| InvoiceForm.BaseDependsOnlyOnKeys | resources/js/pages/invoice/create.tsx:82 | two selections with the same string keys give the same base |
| InvoiceForm.BaseOfUnmatched | resources/js/pages/invoice/create.tsx:81-83 | a selection that matches no loaded sale, including the empty one, gives base 0 |
| InvoiceForm.ComputeTotals | resources/js/pages/invoice/create.tsx:86-89 | the discount is `percent/100 · base`; the taxable base is `max(base − discount, 0)`; the tax is applied to it; the grand total is `max(taxable + tax, 0) ≥ 0` |
| InvoiceForm.NoPercentsTotalIsBase | resources/js/pages/invoice/create.tsx:86-89 | with both percents 0 and base ≥ 0, the grand total is the base |
| InvoiceForm.FullDiscountZeroes | resources/js/pages/invoice/create.tsx:86-87 | a discount of 100% or more zeroes the taxable base and the total |
| InvoiceForm.NonNegativeTaxAdds | resources/js/pages/invoice/create.tsx:88-89 | a non-negative tax rate adds a non-negative tax with no clamping of the total |
| InvoiceForm.Toggled | resources/js/pages/invoice/create.tsx:91-97 | toggling flips whether the id is selected and keeps every other key's membership |
| InvoiceForm.ToggleTwice | resources/js/pages/invoice/create.tsx:91-97 | toggling the same id twice restores the membership of every key and the base |
| InvoiceForm.Form.constructor | resources/js/pages/invoice/create.tsx:64-77 | the form starts with the preselected customer, no sales and both percents 0 |
| InvoiceForm.Form.Shown | resources/js/pages/invoice/create.tsx:80-89 | the shown base is that of the selected sales and the total is non-negative |
| InvoiceForm.Form.ToggleSale | resources/js/pages/invoice/create.tsx:91-97 | the selection becomes the toggled selection |
| InvoiceForm.Form.ChangeCustomer | resources/js/pages/invoice/create.tsx:118-124 | a new customer empties the selection, so the base is 0 whatever is loaded |
| InvoiceForm.Form.SetDiscountPercent | resources/js/pages/invoice/create.tsx:238 | an input that is not a number, or is 0, sets 0 |
| InvoiceForm.Form.SetTaxPercent | resources/js/pages/invoice/create.tsx:250 | an input that is not a number, or is 0, sets 0 |
| InvoiceList.Positive | resources/js/pages/invoice/index.tsx:94 | the sum of the positive differences is ≥ 0 |
| InvoiceList.Negative | resources/js/pages/invoice/index.tsx:95 | the sum of the negative differences is ≤ 0 |
| InvoiceList.PositivePlusNegative | resources/js/pages/invoice/index.tsx:93-97 | positive plus negative is the sum of all differences on the page |
| InvoiceList.NetDifference | resources/js/pages/invoice/index.tsx:93-97 | the sum of differences is the sum of totals minus the sum of computed sales totals |
| InvoiceList.IndexNetDifference | app/Http/Controllers/InvoiceController.php:125-126 | on any page the server sends, positive plus negative is the page's totals minus its sales totals |
| InvoiceList.RowNumberIsPosition | resources/js/pages/invoice/index.tsx:226 | the row number of row idx on the current page is that row's 1-based position in the filtered list |
| InvoiceList.RowNumbersDistinct | resources/js/pages/invoice/index.tsx:226 | different (page, row) places get different numbers |
| InvoiceList.OrElse | resources/js/pages/invoice/index.tsx:74-76 | a missing or empty filter falls back to the default |
| InvoiceList.QueryFor | resources/js/pages/invoice/index.tsx:84-88 | status and type are sent exactly when not `all`, and `q` exactly when not empty, with their values |
| InvoiceList.FilterBar.constructor | resources/js/pages/invoice/index.tsx:73-77 | the bar starts from the server's filters, with `all`, `all` and empty as fallbacks |
| InvoiceList.FilterBar.Type | resources/js/pages/invoice/index.tsx:170 | typing changes only `q` and sends nothing |
| InvoiceList.FilterBar.ApplyFilters | resources/js/pages/invoice/index.tsx:79-91 | the partial is merged over the state and the query sent is the one for the merged state |
| InvoiceList.FilterBar.Reset | resources/js/pages/invoice/index.tsx:181-184 | reset returns to `all`/`all`/empty and sends no filter |
| InvoiceList.ResetQueryKeepsEverything | resources/js/pages/invoice/index.tsx:181-184 | the query sent by reset filters out no invoice |
| InvoiceList.ChosenStatusSelects | resources/js/pages/invoice/index.tsx:85 | choosing a status sends it, and the server then keeps exactly the invoices with that status |
| DashboardPage.SaleAmount | resources/js/pages/dashboard.tsx:31-34 | the accumulating loop yields the sum of all sales' amounts |
| DashboardPage.BranchSalesRaw | resources/js/pages/dashboard.tsx:46-52 | one card per branch in branch order, with that branch's sale count and total |
| DashboardPage.CardCountsItsSales | resources/js/pages/dashboard.tsx:48 | a card counts exactly the sales whose `branch_id`, else `branch.id`, is its branch |
| DashboardPage.HitsOnce | resources/js/pages/dashboard.tsx:48 | with distinct branch ids a sale lands on one card when its branch is listed and on none otherwise |
| DashboardPage.CardsCoverAllSales | resources/js/pages/dashboard.tsx:46-52 | when every sale's branch is listed, the cards' counts sum to the number of sales and their totals to the sales amount |
| DashboardPage.Visible | resources/js/pages/dashboard.tsx:61-66 | a card is shown exactly when branch 1 is allowed or it is not branch 1, and the trimmed term is blank or its lower-cased name contains it |
| DashboardPage.BlankTermShowsAll | resources/js/pages/dashboard.tsx:62-63 | with `showPrimary` and a blank term every card is shown |
| DashboardPage.BeforeTotal | resources/js/pages/dashboard.tsx:67-73 | any two cards are comparable under the comparator |
| DashboardPage.Sort | resources/js/pages/dashboard.tsx:67-73 | the sorted cards are a permutation of the input, ordered by the key in the chosen direction |
| DashboardPage.BranchSales | resources/js/pages/dashboard.tsx:61-75 | the shown list is a permutation of the visible cards, ordered by the key in the chosen direction |
| DashboardPage.SortState.constructor | resources/js/pages/dashboard.tsx:55-56 | sorting starts by total, descending |
| DashboardPage.SortState.ToggleSort | resources/js/pages/dashboard.tsx:77-84 | the current key flips the direction; a new key is selected with direction descending |
| DashboardPage.FlipTwice | resources/js/pages/dashboard.tsx:79 | flipping changes the direction and flipping twice restores it |
| UserPage.ItemFor | app/Http/Controllers/UserController.php:30-31 | a listed branch carries its real product and sale counts |
| UserPage.LockedIffServerRefuses | resources/js/pages/user/index.tsx:249 | with real counts, a row is locked exactly when the server's delete would refuse that branch |
| UserPage.MissingCountsUnlocked | resources/js/pages/user/index.tsx:249 | missing counts count as 0, so such a row is not locked |
| UserPage.FlipStatus | resources/js/pages/user/index.tsx:252 | the toggled status differs from the current one |
| UserPage.FlipStatusFacts | resources/js/pages/user/index.tsx:251-254 | toggling twice restores the status, and the status sent is one the server accepts |
| UserPage.BranchRow.constructor | resources/js/pages/user/index.tsx:246-249 | a row starts with the branch's status and has sent nothing |
| UserPage.BranchRow.Toggle | resources/js/pages/user/index.tsx:251-255 | toggle flips the status and posts the new status for the branch |
| UserPage.BranchRow.Remove | resources/js/pages/user/index.tsx:256-261 | a locked row, or an unconfirmed delete, sends nothing; otherwise one delete is posted |
| UserPage.RolesAreCashierAndAdmin | resources/js/pages/user/index.tsx:63-66 | the only roles offered are 1 (cashier, not an administrator) and 2 (administrator) |
| Text.TrimEmptyIffBlank | resources/js/pages/dashboard.tsx:63 | a term trims to empty exactly when it is all white space |
| Text.LowerAscii | resources/js/pages/dashboard.tsx:64-65 | lower-casing maps `A`–`Z` to `a`–`z` and keeps every other character |
| Text.IntToStringRoundTrip | app/Console/Commands/CheckLowStock.php:36 | the decimal text of an integer parses back to it |
| Text.LexLessTotal | resources/js/pages/dashboard.tsx:71-72 | two different names are ordered one way or the other |
| Text.LexLessTransitive | resources/js/pages/dashboard.tsx:71-72 | the name order is transitive |

## Left out

- Rendering, Inertia responses and redirects, flash storage and JSON encoding. Actions return a `Reply`. `router.get`/`router.post` calls on the pages are recorded as values (`InvoiceList.Query`, `UserPage.Post`) and are not sent.
- The authenticated user is a parameter and is assumed present. `isAdmin` is taken to be `role == 2`, because `User.php` is not part of this model. For the same reason the branch, category and user models' fillable sets are assumed to be their migration columns.
- Eloquent query building. SQL `LIKE` is modelled as a case-sensitive substring test, with `%` and `_` in the term taken literally; the database collation is not modelled.
- `latest()` is modelled as reverse table order, newest row first. Timestamps, `created_at` and `toDateTimeString` are left out.
- SaleController.VisibleSalesExact and CustomerController.VisibleCustomersExact state the role scope of `index` before its ordering (`latest()`, `orderByDesc`) and its `paginate(15)`; the page slice of those two listings is not modelled.
- ProductModel.FromAttributes: the products migration is not part of this model, and `Product::create` does not set `low_stock_notified`, nor `is_active` when the request leaves it out. The model assumes their column defaults: `is_active` true and `low_stock_notified` false.
- CheckLowStock.Alert: the stock_notifications migration is not part of this model, and `StockNotification::create` does not set `is_read`. The model assumes its column default, false (unread).
- `uniqid()` is an arbitrary suffix parameter. Only the `INV-` prefix is stated.
- The `email` and `date` validation rules are predicate parameters, not reimplemented.
- Absent and `null` request fields are both `None`. Where Laravel treats them differently for `only`, an absent field is modelled.
- `sync` on a new invoice only inserts rows, since a fresh invoice has no pivot rows. Its detaching of earlier rows is not modelled.
- `Invoice.php` declares no `sales()` relation, although the controller calls one. The model assumes the pivot relation of the `invoice_sale` migration.
- SQL integer and decimal widths and rounding are not modelled. Money is exact `real` and stock is an unbounded `int`.
- Non-numeric request values are not modelled. A numeric field is an `Option<real>`, and PHP's loose string-to-number conversions are left out.
- The page types declare some ids as strings. The model uses numbers, and string keys where the page compares `String(id)`.
- JavaScript string `<` compares UTF-16 code units. The model compares characters by code point.
- `toLowerCase` is modelled for ASCII letters only.
- `DashboardPage.Sort`: stability of `Array.prototype.sort` is not stated. The result is an ordered permutation.
- `submit` on the invoice form is not modelled: the `toFixed(2)` rounding and the post. Nor are `toLocaleString` formatting, the dashboard's refresh timers and visibility listener, and the sparkline normalisation.
- `confirm` in a branch row is a boolean parameter.
- The queue exception in the dashboard is a boolean parameter (`queueFails`). `report` is recorded as a counter. `Artisan::queue` is counted and does not run the scan; the scan itself is `CheckLowStock.Handle`.
- The real cache backend and scheduler (`everyMinute`, `withoutOverlapping`) are left out. The throttle is a sequential lock table over an abstract clock.
- Concurrency between requests, and crash consistency between a sale's insert and its stock update, are not modelled. Every operation runs alone.
- Supplier and user CRUD, seeders and factories are not part of this model.
