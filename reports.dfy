/** The read-only queries behind the dashboard, the sale form and the
    reports page. Each is a function of the current products (keyed by id)
    and the ledger of sales; none of them changes anything. */
module Reports {
  import opened Records
  import opened Ordering

  // ---------------------------------------------------------------------
  // Sums over the ledger

  /** SUM(total_amount) over `sales`; an empty ledger sums to 0. */
  function TotalRevenue(sales: seq<Sale>): int {
    if sales == [] then 0 else sales[0].totalAmount + TotalRevenue(sales[1..])
  }

  /** One sale's gross profit at its product's current price and cost. A sale
      whose product is not in `products` has no partner in the join and
      contributes nothing. */
  function SaleProfit(products: map<int, Product>, s: Sale): int {
    if s.productId in products then UnitProfit(products[s.productId]) * s.quantity else 0
  }

  /** SUM((price - cost) * quantity) over the sales joined to their product;
      0 when there are none. */
  function TotalProfit(products: map<int, Product>, sales: seq<Sale>): int {
    if sales == [] then 0 else SaleProfit(products, sales[0]) + TotalProfit(products, sales[1..])
  }

  lemma {:induction false} TotalRevenueAppend(a: seq<Sale>, b: seq<Sale>)
    ensures TotalRevenue(a + b) == TotalRevenue(a) + TotalRevenue(b)
  {
    if a != [] {
      assert (a + b)[0] == a[0] && (a + b)[1..] == a[1..] + b;
      TotalRevenueAppend(a[1..], b);
      assert TotalRevenue(a + b) == a[0].totalAmount + TotalRevenue(a[1..] + b);
    } else {
      assert a + b == b;
    }
  }

  lemma {:induction false} TotalProfitAppend(products: map<int, Product>, a: seq<Sale>, b: seq<Sale>)
    ensures TotalProfit(products, a + b) == TotalProfit(products, a) + TotalProfit(products, b)
  {
    if a != [] {
      assert (a + b)[0] == a[0] && (a + b)[1..] == a[1..] + b;
      TotalProfitAppend(products, a[1..], b);
      assert TotalProfit(products, a + b) == SaleProfit(products, a[0]) + TotalProfit(products, a[1..] + b);
    } else {
      assert a + b == b;
    }
  }

  /** Profit reads only the price and cost of the products, so changing
      stock levels (or anything else but price and cost) leaves it alone. */
  lemma {:induction false} TotalProfitIgnoresStock(p: map<int, Product>, q: map<int, Product>, sales: seq<Sale>)
    requires p.Keys == q.Keys
    requires forall id :: id in p ==> p[id].price == q[id].price && p[id].cost == q[id].cost
    ensures TotalProfit(p, sales) == TotalProfit(q, sales)
  {
    if sales != [] {
      TotalProfitIgnoresStock(p, q, sales[1..]);
    }
  }

  /** Splitting the ledger by a condition and its negation splits the sale
      count, the revenue and the profit. */
  lemma {:induction false} TotalsPartition(products: map<int, Product>, sales: seq<Sale>,
                                           keep: Sale -> bool, drop: Sale -> bool)
    requires forall s :: drop(s) == !keep(s)
    ensures TotalRevenue(Filter(sales, keep)) + TotalRevenue(Filter(sales, drop)) == TotalRevenue(sales)
    ensures TotalProfit(products, Filter(sales, keep)) + TotalProfit(products, Filter(sales, drop))
            == TotalProfit(products, sales)
    ensures |Filter(sales, keep)| + |Filter(sales, drop)| == |sales|
  {
    if sales != [] {
      TotalsPartition(products, sales[1..], keep, drop);
    }
  }

  // ---------------------------------------------------------------------
  // Product lists

  /** Ids of the products flagged low on stock. */
  function LowStockProducts(products: map<int, Product>): (r: seq<int>)
    ensures forall id :: id in r <==> id in products && IsLowStock(products[id])
    ensures Distinct(r)
  {
    Filter(SortedIds(products.Keys), id => id in products && IsLowStock(products[id]))
  }

  /** The name under which a product id is ordered. */
  function NameOf(products: map<int, Product>): int -> string {
    id => if id in products then products[id].name else ""
  }

  /** Ids of the products offered on the sale form: those with stock left,
      ordered by name. */
  function SaleableProducts(products: map<int, Product>): (r: seq<int>)
    ensures forall id :: id in r <==> id in products && IsSaleable(products[id])
    ensures Distinct(r)
    ensures SortedByName(r, NameOf(products))
  {
    var inStock := Filter(SortedIds(products.Keys), id => id in products && IsSaleable(products[id]));
    var r := SortByName(inStock, NameOf(products));
    SameElements(inStock, r);
    r
  }

  /** On the sale form, every earlier product's name sorts no later than
      every later one's. */
  lemma SaleableProductsOrdered(products: map<int, Product>, i: int, j: int)
    requires 0 <= i < j < |SaleableProducts(products)|
    ensures SaleableProducts(products)[i] in products && SaleableProducts(products)[j] in products
    ensures NameLe(products[SaleableProducts(products)[i]].name,
                   products[SaleableProducts(products)[j]].name)
  {
    var r := SaleableProducts(products);
    assert r[i] in r && r[j] in r;
    SortedByNamePairwise(r, NameOf(products), i, j);
  }

  // ---------------------------------------------------------------------
  // Top sellers

  /** One row of the top-sellers query: a product with its summed sales. */
  datatype TopSeller = TopSeller(productId: int, name: string, totalSold: int, totalRevenue: int)

  const DashboardTopSellers: nat := 5

  /** SUM(quantity) over the sales of product `id`. */
  function QuantitySold(sales: seq<Sale>, id: int): int {
    if sales == [] then 0
    else (if sales[0].productId == id then sales[0].quantity else 0) + QuantitySold(sales[1..], id)
  }

  /** SUM(total_amount) over the sales of product `id`. */
  function RevenueOf(sales: seq<Sale>, id: int): int {
    if sales == [] then 0
    else (if sales[0].productId == id then sales[0].totalAmount else 0) + RevenueOf(sales[1..], id)
  }

  /** Product `id` has at least one sale, so it survives the inner join. */
  predicate HasSale(sales: seq<Sale>, id: int) {
    exists i :: 0 <= i < |sales| && sales[i].productId == id
  }

  function SellerRow(products: map<int, Product>, sales: seq<Sale>, id: int): TopSeller
    requires id in products
  {
    TopSeller(id, products[id].name, QuantitySold(sales, id), RevenueOf(sales, id))
  }

  function SellerRows(products: map<int, Product>, sales: seq<Sale>, ids: seq<int>): (r: seq<TopSeller>)
    requires forall id :: id in ids ==> id in products
    ensures forall e :: e in r ==> e.productId in ids && e == SellerRow(products, sales, e.productId)
    ensures forall id :: id in ids ==> SellerRow(products, sales, id) in r
    ensures Distinct(ids) ==> Distinct(r)
  {
    if ids == [] then []
    else
      var first := SellerRow(products, sales, ids[0]);
      var rest := SellerRows(products, sales, ids[1..]);
      var r := [first] + rest;
      assert ids == [ids[0]] + ids[1..];
      DistinctCons(ids);
      DistinctCons(r);
      assert r[1..] == rest;
      r
  }

  function TotalSold(e: TopSeller): int {
    e.totalSold
  }

  /** Every product with at least one sale, with its summed quantity and
      revenue, in non-increasing order of quantity sold. */
  function TopSellers(products: map<int, Product>, sales: seq<Sale>): (r: seq<TopSeller>)
    ensures SortedDesc(r, TotalSold)
    ensures forall e :: e in r ==>
              && e.productId in products
              && HasSale(sales, e.productId)
              && e == SellerRow(products, sales, e.productId)
    ensures forall id :: id in products && HasSale(sales, id) ==> SellerRow(products, sales, id) in r
    ensures Distinct(r)
  {
    var ids := Filter(SortedIds(products.Keys), id => id in products && HasSale(sales, id));
    var rows := SellerRows(products, sales, ids);
    var r := SortDesc(rows, TotalSold);
    SameElements(rows, r);
    r
  }

  /** The top-sellers list has one row per product. */
  lemma TopSellersOnePerProduct(products: map<int, Product>, sales: seq<Sale>, i: int, j: int)
    requires 0 <= i < j < |TopSellers(products, sales)|
    ensures TopSellers(products, sales)[i].productId != TopSellers(products, sales)[j].productId
  {
    var r := TopSellers(products, sales);
    assert r[i] in r && r[j] in r;
    DistinctAt(r, i, j);
  }

  /** The dashboard's top sellers are the first five rows of the full list;
      no product left out sold more than one that was kept. */
  lemma DashboardTopSellersAreLargest(products: map<int, Product>, sales: seq<Sale>)
    ensures |Limit(TopSellers(products, sales), DashboardTopSellers)| <= DashboardTopSellers
    ensures SortedDesc(Limit(TopSellers(products, sales), DashboardTopSellers), TotalSold)
    ensures forall e :: e in Limit(TopSellers(products, sales), DashboardTopSellers) ==>
              e in TopSellers(products, sales)
    ensures forall x, y ::
              x in Limit(TopSellers(products, sales), DashboardTopSellers) &&
              y in multiset(TopSellers(products, sales)) - multiset(Limit(TopSellers(products, sales), DashboardTopSellers))
              ==> x.totalSold >= y.totalSold
  {
    LimitKeepsLargest(TopSellers(products, sales), TotalSold, DashboardTopSellers);
  }

  lemma {:induction false} QuantitySoldAppend(sales: seq<Sale>, s: Sale, id: int)
    ensures QuantitySold(sales + [s], id)
            == QuantitySold(sales, id) + (if s.productId == id then s.quantity else 0)
    ensures RevenueOf(sales + [s], id)
            == RevenueOf(sales, id) + (if s.productId == id then s.totalAmount else 0)
  {
    if sales != [] {
      assert (sales + [s])[1..] == sales[1..] + [s];
      QuantitySoldAppend(sales[1..], s, id);
    }
  }

  // ---------------------------------------------------------------------
  // Recent sales

  const DashboardRecentSales: nat := 10

  function SaleDate(s: Sale): int {
    s.saleDate
  }

  /** The ten latest sales, latest first; no sale left out is later than one
      that is shown. */
  function RecentSales(sales: seq<Sale>): (r: seq<Sale>)
    ensures |r| == if |sales| < DashboardRecentSales then |sales| else DashboardRecentSales
    ensures SortedDesc(r, SaleDate)
    ensures multiset(r) <= multiset(sales)
    ensures forall x, y :: x in r && y in multiset(sales) - multiset(r) ==> x.saleDate >= y.saleDate
  {
    var sorted := SortDesc(sales, SaleDate);
    LimitKeepsLargest(sorted, SaleDate, DashboardRecentSales);
    Limit(sorted, DashboardRecentSales)
  }

  // ---------------------------------------------------------------------
  // Dashboard

  datatype Dashboard = Dashboard(
    totalProducts: nat,
    totalSales: nat,
    totalRevenue: int,
    totalProfit: int,
    lowStock: seq<int>,
    topProducts: seq<TopSeller>,
    recentSales: seq<Sale>)

  function DashboardOf(products: map<int, Product>, sales: seq<Sale>): (d: Dashboard)
    ensures d.totalProducts == |products| && d.totalSales == |sales|
    ensures |d.topProducts| <= DashboardTopSellers && |d.recentSales| <= DashboardRecentSales
  {
    Dashboard(|products|, |sales|, TotalRevenue(sales), TotalProfit(products, sales),
              LowStockProducts(products), Limit(TopSellers(products, sales), DashboardTopSellers),
              RecentSales(sales))
  }

  /** An empty store shows zeros and empty lists. */
  lemma EmptyDashboard()
    ensures DashboardOf(map[], []) == Dashboard(0, 0, 0, 0, [], [], [])
  {
  }

  // ---------------------------------------------------------------------
  // Thirty-day report

  const ReportWindowDays := 30
  const SecondsPerDay := 86400

  /** The earliest sale date that still counts as "the last 30 days". */
  function WindowStart(now: int): int {
    now - ReportWindowDays * SecondsPerDay
  }

  predicate InWindow(now: int, s: Sale) {
    s.saleDate >= WindowStart(now)
  }

  function InWindowAt(now: int): Sale -> bool {
    s => InWindow(now, s)
  }

  function BeforeWindowAt(now: int): Sale -> bool {
    s => !InWindow(now, s)
  }

  /** The sales of the last 30 days, the start of the window included. */
  function WindowSales(sales: seq<Sale>, now: int): (r: seq<Sale>)
    ensures forall x :: multiset(r)[x] == if InWindow(now, x) then multiset(sales)[x] else 0
  {
    Filter(sales, InWindowAt(now))
  }

  datatype Report = Report(
    salesCount: nat,
    revenue: int,
    profit: int,
    topProducts: seq<TopSeller>,
    recentSales: seq<Sale>)

  const EmptyReport := Report(0, 0, 0, [], [])

  /** The reports page. Profit reads each windowed sale's product, so a
      windowed sale whose product is gone makes the page fall back to
      zeros and empty lists. Its top sellers cover all sales, not only the
      window. */
  function ReportOf(products: map<int, Product>, sales: seq<Sale>, now: int): (r: Report)
    ensures r == EmptyReport || r.topProducts == TopSellers(products, sales)
    ensures r.salesCount == |r.recentSales|
    ensures r.revenue == TotalRevenue(r.recentSales)
    ensures r.profit == TotalProfit(products, r.recentSales)
    ensures (forall s :: s in WindowSales(sales, now) ==> s.productId in products) ==>
              r.recentSales == WindowSales(sales, now) && r.topProducts == TopSellers(products, sales)
    ensures (exists s :: s in WindowSales(sales, now) && s.productId !in products) ==> r == EmptyReport
  {
    var recent := WindowSales(sales, now);
    if forall s :: s in recent ==> s.productId in products then
      Report(|recent|, TotalRevenue(recent), TotalProfit(products, recent),
             TopSellers(products, sales), recent)
    else
      EmptyReport
  }

  /** When every sale names an existing product, the report's count, revenue
      and profit are those of the windowed sales, and together with the
      sales before the window they make up the dashboard's totals. */
  lemma ReportSplitsTotals(products: map<int, Product>, sales: seq<Sale>, now: int)
    requires forall i :: 0 <= i < |sales| ==> sales[i].productId in products
    ensures var r := ReportOf(products, sales, now);
            var older := Filter(sales, BeforeWindowAt(now));
            && r.recentSales == WindowSales(sales, now)
            && r.topProducts == TopSellers(products, sales)
            && r.salesCount + |older| == |sales|
            && r.revenue + TotalRevenue(older) == TotalRevenue(sales)
            && r.profit + TotalProfit(products, older) == TotalProfit(products, sales)
  {
    var recent := WindowSales(sales, now);
    forall s | s in recent ensures s.productId in products {
      assert s in sales;
    }
    TotalsPartition(products, sales, InWindowAt(now), BeforeWindowAt(now));
  }

  /** A window with no sales reports zeros. */
  lemma EmptyWindowReport(products: map<int, Product>, sales: seq<Sale>, now: int)
    requires forall i :: 0 <= i < |sales| ==> !InWindow(now, sales[i])
    ensures ReportOf(products, sales, now).salesCount == 0
    ensures ReportOf(products, sales, now).revenue == 0
    ensures ReportOf(products, sales, now).profit == 0
  {
  }

  /** The window reaches back exactly 30 days: a sale from 29 days ago
      counts, one from exactly 30 days ago counts, one from 31 days ago
      does not. */
  lemma WindowBoundary(now: int, s: Sale)
    ensures s.saleDate == now - 29 * SecondsPerDay ==> InWindow(now, s)
    ensures s.saleDate == now - 30 * SecondsPerDay ==> InWindow(now, s)
    ensures s.saleDate == now - 31 * SecondsPerDay ==> !InWindow(now, s)
  {
  }
}
