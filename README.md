# biz-ops-manager: sales, products and dashboard controllers in Dafny

This project models the business core of biz-ops-manager, a Laravel
application for a small shop's customers, products and sales. Three
controllers are modelled:

* `SaleController`:
  * `store` writes a sale, writes its line items and decrements stock.
  * `update` changes the sale's own columns.
  * `destroy` gives the stock back and deletes the sale.
  * `index` searches, filters, orders and paginates the sales.
* `ProductController`: single-row `store`, `update` and `destroy`, and `index`, which searches and filters by category, status and low stock.
* `DashboardController`: five counts and sums, plus the five latest sales.

Modules, in dependency order:

| file | module | what it holds |
|---|---|---|
| `basics.dfy` | `Basics` | `Option`/`Result`, money as integer cents, timestamps and their sort key, substring search for `LIKE '%t%'`, ASCII `strtoupper`, decimal parsing |
| `records.dfy` | `Records` | the rows of categories, customers, products, sales and sale items, and the request shapes |
| `sequences.dfy` | `Seqs` | filtering, summing, stable descending sort, `LIMIT`, lookup by key |
| `query_builder.dfy` | `QueryBuilder` | the flat WHERE list Eloquent builds (AND binds tighter than OR) and the parenthesising `callScope` applies when a local scope is called |
| `http.dfy` | `Http` | request parameters, PHP truthiness of `when`, `request()->only`, the length-aware paginator (10 per page) |
| `stock.dfy` | `Stock` | the sale number, the line items and the stock changes of `store` and `destroy`, as functions |
| `database.dfy` | `Ledger` | a `Database` class holding the tables; the write actions are methods on it |
| `product_listing.dfy` | `ProductListing` | `ProductController::index` |
| `sale_listing.dfy` | `SaleListing` | `SaleController::index` |
| `dashboard.dfy` | `Dashboard` | `DashboardController::index` |

How the tables are modelled:

* Tables are sequences of rows in id order, held as fields of `Ledger.Database`.
* The write actions change these fields in place, as the controllers change the rows: `store` and `destroy` run `while` loops over the items.
* `$product->decrement(...)` and `increment(...)` are modelled as `UPDATE products SET quantity = quantity ± n WHERE id = ?`.
* A failure the database raises is a `Result` error that leaves the tables unchanged: a missing customer (foreign key), a taken sale number or sku (unique index), or a missing row for route-model binding.
* The listings and the dashboard are pure functions of the tables, the query string and the current time.

### Where the low-stock filter applies

`ProductController::index` calls the `lowStock` local scope from inside a `when` callback. Eloquent's `callScope` then wraps the earlier clauses in parentheses, because they contain an `OR`, and joins the scope's clause with `AND`.

So the low-stock filter restricts every listed product. The category and status filters do not: they attach by `AND` to the last `OR` branch only, the description match.

`ProductListing.Kept` states the resulting predicate:

`(name ∋ t ∨ sku ∋ t ∨ (description ∋ t ∧ category ∧ status)) ∧ low_stock`

A reading of the controller that ignores `callScope` would put `low_stock` inside the description branch as well. The model follows the framework code instead (`QueryBuilder.GroupForScope`).

## Model

| member | source | states |
|---|---|---|
| Basics.InstantIsChronological | app/Http/Controllers/SaleController.php:31 | on well-formed timestamps the sort key orders exactly as the calendar does, and equal keys mean equal timestamps, so `latest('sale_date')` is calendar order |
| Basics.ContainsIff | app/Http/Controllers/ProductController.php:21-23 | `LIKE '%t%'` holds iff `t` occurs at some position of the column value |
| Basics.UpperChar | app/Http/Controllers/SaleController.php:61 | `strtoupper` maps an ASCII lower-case letter to its upper-case letter and leaves every other character alone |
| Basics.Upper | app/Http/Controllers/SaleController.php:61 | upper-casing keeps the length and maps each character independently |
| Basics.ParseNat | app/Http/Controllers/ProductController.php:25-27 | a category parameter has a numeric value iff it is a non-empty string of digits |
| Basics.ParseNatToString | app/Http/Controllers/ProductController.php:25-27 | the decimal spelling of a category id parses back to that id |
| Seqs.SortDesc | app/Http/Controllers/SaleController.php:31 | `ORDER BY … DESC` yields a permutation of the rows with keys non-increasing |
| Seqs.TopDesc | app/Http/Controllers/DashboardController.php:21-24 | `ORDER BY … DESC LIMIT n` yields min(n, rows) rows, sorted, drawn from the table, and no row left out has a larger key than a row kept |
| QueryBuilder.ConjunctionHolds | app/Http/Controllers/ProductController.php:25-30 | a WHERE list whose clauses after the first are all AND holds iff every clause holds |
| QueryBuilder.GroupForScope | app/Http/Controllers/ProductController.php:31-33 | grouping for a scope call leaves a list joined only by AND and keeps the leading connective |
| QueryBuilder.GroupKeepsMeaning | app/Http/Controllers/ProductController.php:31-33 | parenthesising a slice does not change which rows it admits |
| QueryBuilder.ScopeConjoins | app/Http/Controllers/ProductController.php:31-33 | after a scope call, a row is admitted iff the earlier clauses and the scope's clauses both admit it, whatever ORs the earlier clauses hold |
| Http.Only | app/Http/Controllers/ProductController.php:43 | the echoed filters hold exactly the listed keys present in the request, with the request's values |
| Http.Filled | app/Http/Controllers/ProductController.php:20-33 | `when(request(key), …)` applies its callback only for a present value other than `""` and `"0"`; what that means for the listings is stated by `ProductListing.FalsyParameterIgnored` and `SaleListing.FalsyParameterIgnored` |
| Http.CurrentPage | app/Http/Controllers/ProductController.php:35 | the page shown is the requested page when it is an integer ≥ 1, and page 1 in every other case |
| Http.LastPage | app/Http/Controllers/ProductController.php:35 | the last page is at least 1; the pages before it are filled, the total fits within it, and when there is any row the last page is not empty |
| Http.Paginate | app/Http/Controllers/ProductController.php:35 | the page shown holds rows 10(n−1) to 10n of the ordered result (none past the last page) and reports the full total, 10 per page and the last page |
| Http.PageNumbered | app/Http/Controllers/ProductController.php:35 | an explicit page n ≥ 1 holds rows 10(n−1) to 10n of the result and reports its full size |
| Http.PagesCoverResult | app/Http/Controllers/ProductController.php:35 | pages 1 to the last, read in order, give back the whole ordered result |
| Http.PageOfRow | app/Http/Controllers/ProductController.php:35 | row i of the result is row i mod 10 of page ⌊i/10⌋ + 1 |
| Stock.SaleNumber | app/Http/Controllers/SaleController.php:61 | the sale number is `SALE-` followed by the supplied characters, each upper-cased |
| Stock.SaleNumberShape | app/Http/Controllers/SaleController.php:61 | from 8 alphanumeric characters the number is 13 long and its last 8 characters are upper-case letters or digits |
| Stock.SaleNumberFoldsCase | app/Http/Controllers/SaleController.php:61 | two draws give the same sale number iff they have the same length and agree character by character up to ASCII case, so draws differing only in case collide |
| Stock.LineItems | app/Http/Controllers/SaleController.php:66-72 | one line item per input item, in order, with product, quantity and unit price copied and `total_price = quantity * unit_price` |
| Stock.AdjustStock | app/Http/Controllers/SaleController.php:76 | one `increment`/`decrement` changes only the quantity of the named product's row; `Stock.AdjustStockUndo` states that an increment undoes a decrement of the same amount |
| Stock.AdjustStockUndo | app/Http/Controllers/SaleController.php:76 | adjusting a product by `-n` after `+n` gives back the table as it was |
| Stock.Decremented | app/Http/Controllers/SaleController.php:74-76 | the products after the store loop's decrements; `Stock.DecrementedAt` states each row's new quantity |
| Stock.DecrementedAt | app/Http/Controllers/SaleController.php:66-77 | after the store loop each product has lost exactly the summed quantity of the input items naming it, and nothing else in its row changes |
| Stock.DemandUnnamed | app/Http/Controllers/SaleController.php:66-77 | a product no input item names loses nothing |
| Stock.OversellGoesNegative | app/Http/Controllers/SaleController.php:75-76 | with no stock guard, selling more than is on hand leaves a negative quantity |
| Stock.Restocked | app/Http/Controllers/SaleController.php:128-131 | the products after the destroy loop's increments; `Stock.RestockedAt` states each row's new quantity |
| Stock.RestockedAt | app/Http/Controllers/SaleController.php:128-131 | after the destroy loop each product has gained exactly the summed quantity of the sale's items naming it, and nothing else changes |
| Stock.HeldLineItems | app/Http/Controllers/SaleController.php:66-72 | the stored items hold of each product exactly the quantity the input requested of it |
| Stock.StoreThenDestroyRestores | app/Http/Controllers/SaleController.php:125-133 | restocking by a stored sale's items undoes the store's decrements exactly, row for row |
| Stock.DecrementedKeepsKeys | app/Http/Controllers/SaleController.php:75-76 | decrementing keeps every product's id and sku |
| Stock.RestockedKeepsKeys | app/Http/Controllers/SaleController.php:129-130 | incrementing keeps every product's id and sku |
| Ledger.Database.StoreSale | app/Http/Controllers/SaleController.php:58-81 | an unknown customer or a taken number is an error that changes nothing; otherwise the sale is appended under the next id with the generated number and the request's totals verbatim, its items are the line items of the input, and the products are the input's decrements of the old products |
| Ledger.Database.InsertSale | app/Http/Controllers/SaleController.php:63-77 | the body of `store` after the checks: the sale is appended under the next id with the given number, its items are the line items of the input, the products are the input's decrements of the old products, and the tables stay valid |
| Ledger.Database.WriteItems | app/Http/Controllers/SaleController.php:66-77 | the `foreach` of `store`: the last sale's items become the line items of the input and the products the input's decrements of the old products; the loop invariant ties both to the processed prefix |
| Ledger.Patched | app/Http/Controllers/SaleController.php:116 | `$sale->update($validated)` on the header; `Ledger.PatchedColumns` states its contract column by column, and `Ledger.PatchedEmpty` and `Ledger.PatchedIdempotent` follow |
| Ledger.PatchedColumns | app/Http/Controllers/SaleController.php:116 | for each of the seven sale columns: a carried column takes the carried value and an uncarried column keeps its old value |
| Ledger.PatchedEmpty | app/Http/Controllers/SaleController.php:116 | an update carrying no column leaves the sale header as it was |
| Ledger.PatchedIdempotent | app/Http/Controllers/SaleController.php:116 | submitting the same update twice equals submitting it once; the carried customer, total, status and sale date end with the carried values |
| Ledger.Database.UpdateSale | app/Http/Controllers/SaleController.php:114-116 | a missing sale or an unknown new customer is an error; otherwise only that sale's own columns take the patched values; its items, all other sales and every product quantity are unchanged, whatever the new status |
| Ledger.Database.DestroySale | app/Http/Controllers/SaleController.php:125-133 | a missing sale is an error that changes nothing; otherwise the products are the old products restocked by the sale's items and the sale is removed with the others kept in order; no sale with that id remains |
| Ledger.SellThenDelete | app/Http/Controllers/SaleController.php:125-133 | storing a sale and then destroying it leaves the product and sale tables as they were, and destroying it again is a not-found error |
| Ledger.Database.StoreProduct | app/Http/Controllers/ProductController.php:62-64 | a taken sku is an error that changes nothing; otherwise exactly one row with the form's columns is appended under the next id, and sales are untouched |
| Ledger.Database.UpdateProduct | app/Http/Controllers/ProductController.php:98-100 | a missing product or a sku another product holds is an error; otherwise only that row takes the form's columns, keeping its id and creation time |
| Ledger.Database.DestroyProduct | app/Http/Controllers/ProductController.php:109-111 | a missing product is an error; otherwise only that row is removed, the others stay in order, and no product with that id remains |
| ProductListing.FilterWheres | app/Http/Controllers/ProductController.php:20-30 | the search, category and status clauses in the order the `when` calls add them; `ProductListing.SearchAndFilters` states their meaning |
| ProductListing.SearchAndFilters | app/Http/Controllers/ProductController.php:20-30 | the search, category and status clauses admit a product iff `Kept` holds for the request without `low_stock`, both directions |
| ProductListing.ProductWheres | app/Http/Controllers/ProductController.php:20-33 | those clauses, with the `lowStock` scope called on them when `low_stock` is filled; `ProductListing.ProductWheresMeaning` states their meaning |
| QueryBuilder.ApplyScope | app/Http/Controllers/ProductController.php:31-33 | a scope call on a WHERE list; `QueryBuilder.ScopeConjoins` states its meaning |
| ProductListing.ProductWheresMeaning | app/Http/Controllers/ProductController.php:20-33 | the WHERE clause built from the request admits a product iff the closed form `Kept` holds, in both directions |
| ProductListing.ProductResult | app/Http/Controllers/ProductController.php:19-34 | the listing before paging is sorted newest first, duplicates no row, and holds a product iff it is in the table and satisfies `Kept` |
| ProductListing.ActiveCategories | app/Http/Controllers/ProductController.php:38 | a category is offered iff it is in the table and active |
| ProductListing.ProductIndex | app/Http/Controllers/ProductController.php:19-44 | the products page is the paginated result with its full total; the categories are the active ones; the filters are `request()->only` of the four filter keys |
| ProductListing.UnfilteredIndex | app/Http/Controllers/ProductController.php:19-36 | with no filter filled, page n holds rows 10(n−1) to 10n of all products newest first, and the total is the size of the table |
| ProductListing.FalsyParameterIgnored | app/Http/Controllers/ProductController.php:20-33 | a filter parameter that is `""` or `"0"` lists the same products as an absent one |
| ProductListing.EqualityFilters | app/Http/Controllers/ProductController.php:25-30 | the category filter alone keeps exactly `category_id = c`, and the status filter alone exactly `status = s` |
| ProductListing.LowStockFilter | app/Http/Controllers/ProductController.php:31-33 | the low-stock filter alone keeps exactly the products with `quantity <= min_stock_level` |
| ProductListing.NameMatchBypassesFilters | app/Http/Controllers/ProductController.php:20-33 | a product whose name matches the search is listed whatever the category and status filters say, and iff the low-stock filter (when filled) admits it |
| SaleListing.SaleWheres | app/Http/Controllers/SaleController.php:22-30 | the clauses in the order the `when` calls add them; `SaleListing.SaleWheresMeaning` states their meaning |
| SaleListing.SaleWheresMeaning | app/Http/Controllers/SaleController.php:22-30 | a sale is admitted iff its number contains the search, or its customer's name does and the status filter holds; an unfilled parameter restricts nothing; both directions |
| SaleListing.SaleResult | app/Http/Controllers/SaleController.php:21-31 | the listing before paging is sorted by `sale_date` descending, duplicates no row, and holds a sale iff it is in the table and satisfies `Kept` |
| SaleListing.SaleIndex | app/Http/Controllers/SaleController.php:21-38 | the sales page is the paginated result; the filters are `request()->only` of `search` and `status` |
| SaleListing.NumberMatchBypassesStatus | app/Http/Controllers/SaleController.php:22-30 | a sale whose number contains the search is listed whatever its status |
| SaleListing.StatusFilter | app/Http/Controllers/SaleController.php:28-30 | without a search, the status filter keeps exactly the sales of that status |
| SaleListing.UnknownStatusListsNothing | app/Http/Controllers/SaleController.php:28-30 | without a search, a status value that names no status lists no sale |
| SaleListing.FalsyParameterIgnored | app/Http/Controllers/SaleController.php:22-30 | a search or status of `""` or `"0"` lists the same sales as an absent one |
| Dashboard.ActiveCustomers | app/Http/Controllers/DashboardController.php:18 | the counted customers are the active rows, each as often as it occurs in the table, and no other row |
| Dashboard.ActiveProducts | app/Http/Controllers/DashboardController.php:19 | the counted products are the active rows, each as often as it occurs, and no other row |
| Dashboard.LowStockActive | app/Http/Controllers/DashboardController.php:20 | the counted products are the active rows with `quantity <= min_stock_level`, each as often as it occurs, and no other row |
| Dashboard.ActiveCountsPartition | app/Http/Controllers/DashboardController.php:18-19 | the active and the inactive customers together are all customers, and likewise for products |
| Dashboard.LowStockAtMostActive | app/Http/Controllers/DashboardController.php:19-20 | the low-stock active products number no more than the active products |
| Dashboard.RecentSales | app/Http/Controllers/DashboardController.php:21-24 | min(5, #sales) sales of any status, latest first, and no omitted sale is later than an included one |
| Dashboard.MonthlyRevenue | app/Http/Controllers/DashboardController.php:26-29 | `sum('total_amount')` over the completed sales of the current month and year; `Dashboard.MonthlyRevenueIsSumOfContributions` states its contract |
| Dashboard.MonthlyRevenueIsSumOfContributions | app/Http/Controllers/DashboardController.php:26-29 | the revenue is the sum over all sales of each one's contribution: its total if completed and dated in the current month of the current year, else nothing |
| Dashboard.MonthlyRevenueAppend | app/Http/Controllers/DashboardController.php:26-29 | one more sale changes the revenue by exactly its contribution |
| Dashboard.MonthlyRevenueNonNegative | app/Http/Controllers/DashboardController.php:26-29 | with no negative totals the revenue is not negative |
| Dashboard.TodaysSales | app/Http/Controllers/DashboardController.php:31-32 | the count of today's sales is at most the number of sales, and equals it iff every sale is dated today |
| Dashboard.TodaysSalesAppend | app/Http/Controllers/DashboardController.php:31-32 | one more sale raises today's count by one iff its calendar date is today's, whatever its status |
| Dashboard.DashboardIndex | app/Http/Controllers/DashboardController.php:16-43 | the five stats are the counts of `ActiveCustomers`, `ActiveProducts` and `LowStockActive`, `MonthlyRevenue` and `TodaysSales`; the customer count is below the table size when some customer is inactive; the low-stock count is at most the product count, which is at most the table size; the recent sales are `RecentSales` |

The dashboard and both listings are functions, so they change no table.

## Left out

- LIKE patterns are plain substring containment: a `%` or `_` in the search text is not a wildcard. The collation's case-insensitive comparison is not modelled, neither for `LIKE`, nor for the `status = ?` filters (app/Http/Controllers/ProductController.php:29, app/Http/Controllers/SaleController.php:29), nor for the unique indexes on `sku` and `sale_number`: `SkuTaken` and `NumberTaken` compare exactly, so the model accepts a sku `abc-1` beside an existing `ABC-1` where the database would refuse it.
- Laravel's `TrimStrings` and `ConvertEmptyStringsToNull` middleware are not modelled. A parameter value reaches the controller as sent, and only `""` and `"0"` are falsy.
- The category parameter matches only when it is a string of digits. MySQL's lenient conversion of a value like `"2abc"` to 2 is not modelled.
- Money is integer cents. `decimal(10,2)` overflow, 32-bit `int` overflow of quantities and PHP float arithmetic in `quantity * unit_price` are not modelled.
- Ties in `latest()` / `latest('sale_date')`: the model keeps table order among equal timestamps, while SQL leaves that order unspecified.
- `StoreSaleRequest`, `UpdateSaleRequest`, `StoreProductRequest` and `UpdateProductRequest` are not part of this model. Store validation is modelled as the precondition `ValidatedItems`: at least one item, positive quantities, existing products. The fields an update may carry are modelled as a patch of the sale columns other than `sale_number`.
- Ledger.Database.DestroySale: requires that the products its items name still exist. Without them `Product::find` yields null and the increment fails on a PHP null; the model does not represent that crash.
- Ledger.Database.StoreProduct: does not check the `category_id` foreign key, because the categories table is not part of the write model.
- Ledger.Database.UpdateProduct: likewise accepts a `category_id` naming no category, which the foreign key would reject.
- The cascade delete of `sale_items` is modelled by the items being part of the sale value. Deleting a product does not touch the sales whose items name it; the `sale_items` foreign key is not modelled.
- Row timestamps other than `products.created_at` are not modelled: `updated_at`, which `decrement`, `increment` and `update` set, and `created_at` of sales and sale items.
- Eager loading (`with('customer')`, `with('category')`), Inertia rendering, redirects, flash messages, routing and authentication are not modelled.
- `Str::random(8)` and `now()` are parameters. No transactions or locks exist in the source; each action is one sequential step, so concurrent requests are not modelled.
- The TSX pages, factories, seeders and the `show`, `create` and `edit` actions are not modelled: they are presentational or generate test data.
