/** `DashboardController::index`: five counts and sums over the tables and
    the five latest sales. The current time is a parameter. */
module Dashboard {
  import opened Basics
  import opened Records
  import opened Seqs

  const RecentCount: nat := 5

  datatype Stats = Stats(
    totalCustomers: nat,
    totalProducts: nat,
    lowStockProducts: nat,
    monthlyRevenue: Cents,
    todaysSales: nat)

  datatype DashboardView = DashboardView(stats: Stats, recentSales: seq<Sale>)

  function SaleKey(s: Sale): int {
    Instant(s.header.saleDate)
  }

  /** `whereMonth` and `whereYear` on `sale_date` against the current month
      and year, and `status = 'completed'`. */
  predicate CountsAsRevenue(s: Sale, now: DateTime) {
    && s.header.status == Completed
    && s.header.saleDate.month == now.month
    && s.header.saleDate.year == now.year
  }

  /** `sum('total_amount')` over the completed sales of the current month. */
  function MonthlyRevenue(sales: seq<Sale>, now: DateTime): Cents {
    SumOf(Filter(sales, (s: Sale) => CountsAsRevenue(s, now)), (s: Sale) => s.header.totalAmount)
  }

  /** The contribution of one sale to the month's revenue. */
  function RevenueOf(s: Sale, now: DateTime): Cents {
    if CountsAsRevenue(s, now) then s.header.totalAmount else 0
  }

  /** The revenue is the sum over all sales of what each contributes: the
      total of a completed sale dated in the current month and year, and
      nothing for any other sale. */
  lemma {:induction false} MonthlyRevenueIsSumOfContributions(sales: seq<Sale>, now: DateTime)
    ensures MonthlyRevenue(sales, now) == SumOf(sales, (s: Sale) => RevenueOf(s, now))
  {
    if sales != [] {
      MonthlyRevenueIsSumOfContributions(sales[1..], now);
    }
  }

  /** Recording one more sale changes the revenue by exactly its contribution. */
  lemma MonthlyRevenueAppend(sales: seq<Sale>, s: Sale, now: DateTime)
    ensures MonthlyRevenue(sales + [s], now) == MonthlyRevenue(sales, now) + RevenueOf(s, now)
  {
    MonthlyRevenueIsSumOfContributions(sales + [s], now);
    MonthlyRevenueIsSumOfContributions(sales, now);
    SumOfAppend(sales, [s], (s: Sale) => RevenueOf(s, now));
  }

  /** With no negative totals the revenue is never negative. */
  lemma {:induction false} MonthlyRevenueNonNegative(sales: seq<Sale>, now: DateTime)
    requires forall k :: 0 <= k < |sales| ==> sales[k].header.totalAmount >= 0
    ensures MonthlyRevenue(sales, now) >= 0
  {
    if sales != [] {
      MonthlyRevenueNonNegative(sales[1..], now);
    }
  }

  /** `whereDate('sale_date', today)->count()`: the number of sales dated
      today; it is the number of all sales exactly when every sale is dated
      today. */
  function TodaysSales(sales: seq<Sale>, now: DateTime): (n: nat)
    ensures n <= |sales|
    ensures n == |sales| <==> forall k :: 0 <= k < |sales| ==> SameDate(sales[k].header.saleDate, now)
  {
    var today := (s: Sale) => SameDate(s.header.saleDate, now);
    FilterKeepsAll(sales, today);
    |Filter(sales, today)|
  }

  /** Recording a sale dated today raises the count by one; any other sale
      leaves it. */
  lemma TodaysSalesAppend(sales: seq<Sale>, s: Sale, now: DateTime)
    ensures TodaysSales(sales + [s], now) == TodaysSales(sales, now) + (if SameDate(s.header.saleDate, now) then 1 else 0)
  {
    FilterAppend(sales, [s], (s: Sale) => SameDate(s.header.saleDate, now));
  }

  /** `latest('sale_date')->take(5)`. */
  function RecentSales(sales: seq<Sale>): (r: seq<Sale>)
    ensures |r| == Min(RecentCount, |sales|)
    ensures SortedDesc(r, SaleKey)
    ensures multiset(r) <= multiset(sales)
    ensures forall s :: s in multiset(sales) - multiset(r) ==>
              forall k :: 0 <= k < |r| ==> SaleKey(s) <= SaleKey(r[k])
  {
    TopDesc(sales, SaleKey, RecentCount)
  }

  /** The active rows of the products table that are at or below their
      minimum stock level, each as often as it occurs. */
  function LowStockActive(products: seq<Product>): (r: seq<Product>)
    ensures forall p :: multiset(r)[p] == if IsLowStock(p) && p.status == Active then multiset(products)[p] else 0
  {
    var low := (p: Product) => IsLowStock(p) && p.status == Active;
    FilterCount(products, low);
    Filter(products, low)
  }

  /** The rows of the products table whose status is active. */
  function ActiveProducts(products: seq<Product>): (r: seq<Product>)
    ensures forall p :: multiset(r)[p] == if p.status == Active then multiset(products)[p] else 0
  {
    var active := (p: Product) => p.status == Active;
    FilterCount(products, active);
    Filter(products, active)
  }

  /** The rows of the customers table whose status is active. */
  function ActiveCustomers(customers: seq<Customer>): (r: seq<Customer>)
    ensures forall c :: multiset(r)[c] == if c.status == Active then multiset(customers)[c] else 0
  {
    var active := (c: Customer) => c.status == Active;
    FilterCount(customers, active);
    Filter(customers, active)
  }

  /** Every customer is counted as active or inactive, never both; likewise
      every product. */
  lemma ActiveCountsPartition(customers: seq<Customer>, products: seq<Product>)
    ensures |ActiveCustomers(customers)| + |Filter(customers, (c: Customer) => c.status == Inactive)| == |customers|
    ensures |ActiveProducts(products)| + |Filter(products, (p: Product) => p.status == Inactive)| == |products|
  {
    FilterPartition(customers, (c: Customer) => c.status == Active, (c: Customer) => c.status == Inactive);
    FilterPartition(products, (p: Product) => p.status == Active, (p: Product) => p.status == Inactive);
  }

  /** Low-stock active products are among the active products, so their
      count never exceeds the product count. */
  lemma LowStockAtMostActive(products: seq<Product>)
    ensures |LowStockActive(products)| <= |ActiveProducts(products)|
  {
    FilterMonotone(products, (p: Product) => IsLowStock(p) && p.status == Active, (p: Product) => p.status == Active);
  }

  /** `DashboardController::index` at time `now`. */
  function DashboardIndex(customers: seq<Customer>, products: seq<Product>, sales: seq<Sale>, now: DateTime): (v: DashboardView)
    ensures v.stats.totalCustomers <= |customers|
    ensures v.stats.lowStockProducts <= v.stats.totalProducts <= |products|
    ensures v.stats.todaysSales <= |sales|
    ensures forall k :: 0 <= k < |customers| && customers[k].status == Inactive ==>
              v.stats.totalCustomers < |customers|
    ensures v.stats.totalCustomers == |ActiveCustomers(customers)|
    ensures v.stats.totalProducts == |ActiveProducts(products)|
    ensures v.stats.lowStockProducts == |LowStockActive(products)|
    ensures v.stats.todaysSales == TodaysSales(sales, now)
    ensures v.stats.monthlyRevenue == MonthlyRevenue(sales, now)
    ensures v.recentSales == RecentSales(sales)
  {
    LowStockAtMostActive(products);
    FilterDrops(customers, (c: Customer) => c.status == Active);
    DashboardView(
      Stats(
        |ActiveCustomers(customers)|,
        |ActiveProducts(products)|,
        |LowStockActive(products)|,
        MonthlyRevenue(sales, now),
        TodaysSales(sales, now)),
      RecentSales(sales))
  }
}
