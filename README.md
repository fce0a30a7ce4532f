# Invento inventory core, modelled in Dafny

Invento is a small web application that keeps a catalogue of products,
records sales against them and shows a dashboard and a 30-day report. This
project models its logic without the web and database layers:

- **Store** (`store.dfy`): the inventory as a class. It holds the products
  keyed by id, the ledger of sales and the two id counters. It has the four
  operations that change data: add, edit and delete a product, and record a
  sale. Recording a sale is the one operation that touches both records. It
  fails, changing nothing, when the product is missing or has too little
  stock. Otherwise it lowers the stock and appends exactly one sale whose
  total is the caller's unit price times the quantity.
- **Reports** (`reports.dfy`): the read-only queries as functions of the
  products and the sales. These are the dashboard totals (product and sale
  counts, revenue, profit), the low-stock list, the products offered on the
  sale form, the top sellers, the ten latest sales and the 30-day report.
- **DatabaseUrl** (`dburl.dfy`): choosing the database from the
  `DATABASE_URL` environment variable, including the `postgres://` to
  `postgresql://` rewrite and the SQLite default.
- **Ordering** (`ordering.dfy`), **Records** (`records.dfy`) and
  **Options** (`options.dfy`): the SQL filtering, ordering and LIMIT the
  queries rely on, the two record types, and an optional value.

Money is a whole number of the smallest currency unit. Time is a whole
number of seconds, and the current time is a parameter (`now`). A committed
database transaction is one method call, so it is atomic.

The code does not check that a sale's quantity is positive, that stock
stays non-negative, or that a product's name is non-empty, and the model
follows the code. Adding or editing a product accepts any stock. A sale of a
negative quantity passes the stock check whenever the stock is at least that
quantity, and then raises the stock. The one guarantee the code does give is
the one `RecordSale` proves: the sold product's stock is never negative
right after a sale.

## Model

| member | source | states |
|---|---|---|
| Store.Inventory.constructor | app.py:53-56 | the freshly created, empty tables: no products, no sales, counters that satisfy the store invariant |
| Store.Inventory.AddProduct | app.py:126-151 | the new product is stored under an id no existing product has, with exactly the given fields, whatever its stock; other products and all sales are unchanged |
| Store.Inventory.EditProduct | app.py:158-174 | a missing id reports not-found and changes nothing; otherwise all seven editable fields of that one product are replaced and the sales, with their totals, stay exactly as they were |
| Store.Inventory.DeleteProduct | app.py:181-187 | a missing id reports not-found and changes nothing; otherwise exactly that product is removed and the sales are unchanged |
| Store.Inventory.RecordSale | app.py:201-230 | not-found exactly when the product is absent, insufficient-stock exactly when its stock is below the quantity, and then nothing changes; on success the product's stock drops by the quantity, no other product changes, exactly one sale is appended with a fresh id, that product, the quantity, total = unit price (0 by default) × quantity, and the date `now`; the product's stock afterwards is non-negative |
| Store.StockAfterSale | app.py:227 | the stock update of a sale changes only that product's stock and keeps every other product and the set of ids |
| Store.SaleUpdatesDashboard | app.py:76-93 | after a sale, total revenue grows by the sale's total, total profit by the product's margin × quantity, that product's sold quantity by the quantity, and no other product's sold quantity or low-stock flag changes; a non-negative quantity cannot clear a low-stock flag |
| Store.EditRepricesProfit | app.py:83 | profit uses each product's current price and cost: editing a product shifts total profit by (new margin − old margin) × all units ever sold of it |
| Reports.TotalRevenueAppend | app.py:80 | the revenue sum is additive over the ledger |
| Reports.TotalProfitAppend | app.py:83 | the profit sum is additive over the ledger |
| Reports.TotalProfitIgnoresStock | app.py:83 | profit depends only on price and cost, so stock changes leave it alone |
| Reports.TotalsPartition | app.py:252-259 | splitting the ledger by a condition and its negation splits the count, the revenue and the profit |
| Reports.LowStockProducts | app.py:86 | holds exactly the products with stock ≤ minimum stock level, each once |
| Reports.SaleableProducts | app.py:242 | holds exactly the products with stock > 0, each once, ordered by name |
| Reports.SaleableProductsOrdered | app.py:242 | on the sale form every earlier product's name sorts no later than any later one's |
| Reports.SellerRows | app.py:89-93 | one row per grouped product id, carrying that product's name, summed quantity and summed revenue; distinct products give distinct rows |
| Reports.TopSellers | app.py:262-266 | exactly the products that exist and have at least one sale (inner join), each with the sum of its sale quantities and totals, in non-increasing order of quantity sold, no row repeated |
| Reports.TopSellersOnePerProduct | app.py:262-266 | no product appears in two rows of the top-sellers list |
| Reports.DashboardTopSellersAreLargest | app.py:89-93 | the dashboard's list has at most five rows, all taken from the full top-sellers list, in non-increasing order of quantity sold, and no product left out sold more than a product that was kept |
| Reports.QuantitySoldAppend | app.py:89-93 | one more sale adds its quantity and total to its own product's sums and to no other's |
| Reports.RecentSales | app.py:96 | the min(10, number of sales) latest sales, latest first, taken from the ledger; no sale left out is later than one shown |
| Reports.DashboardOf | app.py:76-96 | the dashboard counts every product and every sale and shows at most five top sellers and at most ten recent sales |
| Reports.EmptyDashboard | app.py:76-96 | an empty store shows zero counts, zero revenue and profit, and empty lists |
| Reports.WindowSales | app.py:252-253 | a sale is in the 30-day window exactly when its date is at or after now − 30 days, and is kept as often as it occurs |
| Reports.ReportOf | app.py:248-281 | the report's count, revenue and profit are the number, the summed totals and the summed current-price profit of the sales it lists; when every windowed sale's product exists it lists exactly the windowed sales and the all-time top sellers, and otherwise the page falls back to zeros and empty lists |
| Reports.ReportSplitsTotals | app.py:252-266 | when every sale names an existing product, the report lists the windowed sales and the all-time top sellers, and its count, revenue and profit plus those of the older sales equal the all-time count, revenue and profit |
| Reports.EmptyWindowReport | app.py:255-259 | with no sale in the window, count, revenue and profit are all 0 |
| Reports.WindowBoundary | app.py:252-253 | a sale from 29 days ago or exactly 30 days ago is in the window and one from 31 days ago is not |
| Ordering.SortByName | app.py:242 | ORDER BY name: the result is ordered by name and holds the same elements as the input |
| Ordering.SortDesc | app.py:93 | ORDER BY … DESC: the result is in non-increasing key order and holds the same elements as the input |
| Ordering.LimitKeepsLargest | app.py:93 | LIMIT on a descending list keeps a sorted sub-multiset, and nothing cut off has a larger key than anything kept |
| DatabaseUrl.ReplaceFirst | app.py:13 | replacing the first occurrence: a string that starts with the target gets the replacement in its place followed by the same suffix; a string without the target is returned unchanged |
| DatabaseUrl.Configure | app.py:11-24 | a URL starting with `postgres://` becomes `postgresql://` + the same suffix; any other non-empty URL is used unchanged; a missing or empty URL selects `sqlite:///inventory.db`; pool options are set exactly when a URL was given |
| DatabaseUrl.ConfigureIdempotent | app.py:11-24 | configuring again from the chosen URL chooses the same URL |

## Left out

- Web plumbing: routing, templates, flash messages, redirects, the receipt page and its `action` switch, the health endpoint, `SECRET_KEY` and the `__main__` start-up. These are user-interface glue.
- Form parsing: missing form keys and failed `int`/`float` conversions raise and are caught in each request handler. The model takes already-typed arguments. The one default it keeps is the unit price of 0.
- Database session mechanics and storage failures. A commit is one atomic method call. Dashboard and report fallbacks after a database error are not modelled. The report's fallback when a windowed sale has no product is modelled.
- Store.Inventory.DeleteProduct: requires that no sale names the product. Deleting a product that has sales depends on the ORM's default cascade and the NOT NULL foreign key, and that library behaviour is not part of this model.
- Concurrent sale requests. The check-then-decrement has no locking, and that race is a concurrency concern.
- Floating-point money. Prices and totals are whole numbers, so rounding is not modelled.
- `format_currency` (float formatting) and the JSON endpoints `api_products` and `api_sale_detail`. These are output projections.
- The `created_at`/`updated_at` timestamps. No modelled query reads them, and a sale's date is the `now` argument.
- Column length limits (`String(100)`, `String(50)`). Some databases enforce them and some do not.
- Name ordering compares characters by code point. A database collation other than byte order is not modelled. The order of rows with equal sort keys is not promised, because the queries leave it open.
- Reports.TopSellers: each row also carries the product id. The query selects only name, quantity and revenue, and the id is what identifies a group.
- The sample-data seeding in `init_db`. It is start-up I/O.
- The product list ordered by name (app.py:120) and the sales list ordered by date (app.py:195). They are outside the modelled core, though they would use the same ordering functions.
- `deploy.py` and `deploy-railway.py`. They are deployment helpers that do file, process and browser I/O.
