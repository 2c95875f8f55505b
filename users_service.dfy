/** The user analytics, which read both tables: distinct buyers and sellers, new buyers per
    month, the top wallets by volume, the activity histogram, monthly active buyers and the
    monthly buy/sell comparison. A wallet is `public_key` in `pending_txes` and `public` in
    `pending_refunds`; only finalized PMN rows count. */
module Users {
  import opened Wrappers
  import opened Calendar
  import opened Seqs
  import opened Ledger
  import opened Queries

  // ---------------------------------------------------------------------------------------
  // KPI cards (queries 28 and 29)

  function Buyers(txs: seq<Row>): set<string> {
    Wallets(Finalized(txs))
  }

  function Sellers(refunds: seq<Row>): set<string> {
    Wallets(Finalized(refunds))
  }

  /** The cards' Persian captions. */
  const UsersCaption := "تعداد کل کاربران منحصر به فرد"
  const BothSidesCaption := "کاربران خریدار و فروشنده"

  /** `COUNT(DISTINCT wallet)` over the `UNION` of buyers and sellers, and `COUNT(*)` over their
      `INTERSECT`. */
  function Kpis(txs: seq<Row>, refunds: seq<Row>): (ks: seq<Kpi>)
    ensures KeysOf(ks) == ["total_users", "both_side_users"]
  {
    [ Kpi("total_users", UsersCaption, |Buyers(txs) + Sellers(refunds)| as real, Number),
      Kpi("both_side_users", BothSidesCaption, |Buyers(txs) * Sellers(refunds)| as real, Number) ]
  }

  /** Users on both sides are at most the buyers, at most the sellers and at most all users;
      all users are the buyers plus the sellers less those counted twice. */
  lemma KpiBounds(txs: seq<Row>, refunds: seq<Row>)
    ensures Kpis(txs, refunds)[1].value <= |Buyers(txs)| as real
    ensures Kpis(txs, refunds)[1].value <= |Sellers(refunds)| as real
    ensures Kpis(txs, refunds)[1].value <= Kpis(txs, refunds)[0].value
    ensures Kpis(txs, refunds)[0].value + Kpis(txs, refunds)[1].value
            == (|Buyers(txs)| + |Sellers(refunds)|) as real
  {
    var b, s := Buyers(txs), Sellers(refunds);
    SubsetCard(b * s, b);
    SubsetCard(b * s, s);
    SubsetCard(b, b + s);
    UnionCard(b, s);
  }

  lemma SubsetCard(a: set<string>, b: set<string>)
    requires a <= b
    ensures |a| <= |b|
  {
    assert b == a + (b - a);
  }

  lemma UnionCard(a: set<string>, b: set<string>)
    ensures |a + b| + |a * b| == |a| + |b|
  {
    assert a + b == a + (b - a);
    assert b == (b - a) + (a * b);
  }

  // ---------------------------------------------------------------------------------------
  // One entry per buyer

  /** The distinct wallets of the rows, each once, in order of first appearance. */
  function WalletKeys(rows: seq<Row>): seq<string> {
    Dedup(Names(rows, Wallet))
  }

  /** Listing each wallet once lists as many wallets as `COUNT(DISTINCT wallet)` counts. */
  lemma WalletKeysCount(rows: seq<Row>)
    ensures |WalletKeys(rows)| == |Wallets(rows)|
    ensures forall w :: w in WalletKeys(rows) <==> w in Wallets(rows)
  {
    var ws := WalletKeys(rows);
    forall w ensures w in ws <==> w in Wallets(rows) {
      if w in ws {
        var i :| 0 <= i < |ws| && ws[i] == w;
        assert w in Names(rows, Wallet);
      }
      if w in Wallets(rows) {
        var x :| x in rows && x.wallet == w;
        assert CategoryOf(Wallet, x) == Some(w);
        assert w in Names(rows, Wallet);
        var j :| 0 <= j < |Names(rows, Wallet)| && Names(rows, Wallet)[j] == w;
      }
    }
    NoDupSize(ws);
    assert (set w | w in ws) == Wallets(rows);
  }

  lemma WalletRowsNonEmpty(rows: seq<Row>, w: string)
    requires w in WalletKeys(rows)
    ensures |InCategory(rows, Wallet, w)| > 0
  {
    var ws := WalletKeys(rows);
    var i :| 0 <= i < |ws| && ws[i] == w;
    assert w in Names(rows, Wallet);
    var x :| x in rows && CategoryOf(Wallet, x) == Some(w);
    assert x in InCategory(rows, Wallet, w);
  }

  // ---------------------------------------------------------------------------------------
  // New buyers per month (query 30)

  /** `MIN(created_at)`: a row of the group with no earlier row in the group. */
  function Earliest(g: seq<Row>): (r: Row)
    requires |g| > 0
    ensures r in g
    ensures forall x :: x in g ==> !TsBefore(x.created, r.created)
  {
    if |g| == 1 then g[0]
    else
      var m := Earliest(g[1..]);
      assert forall x :: x in g ==> x == g[0] || x in g[1..];
      if TsBefore(g[0].created, m.created) then g[0] else m
  }

  /** Every listed wallet has at least one row. */
  lemma WalletKeysNonEmpty(rows: seq<Row>)
    ensures forall i :: 0 <= i < |WalletKeys(rows)| ==> |InCategory(rows, Wallet, WalletKeys(rows)[i])| > 0
  {
    var ws := WalletKeys(rows);
    forall i | 0 <= i < |ws| ensures |InCategory(rows, Wallet, ws[i])| > 0 {
      assert ws[i] in ws;
      WalletRowsNonEmpty(rows, ws[i]);
    }
  }

  /** `SELECT public_key, MIN(created_at) AS first_buy ... GROUP BY public_key`: each listed
      wallet's earliest finalized purchase. */
  function FirstPurchases(fin: seq<Row>, ws: seq<string>): (r: seq<Row>)
    requires forall i :: 0 <= i < |ws| ==> |InCategory(fin, Wallet, ws[i])| > 0
    ensures |r| == |ws|
    ensures forall i :: 0 <= i < |ws| ==> r[i] == Earliest(InCategory(fin, Wallet, ws[i]))
  {
    seq(|ws|, i requires 0 <= i < |ws| => Earliest(InCategory(fin, Wallet, ws[i])))
  }

  function FirstPurchasesOf(txs: seq<Row>): seq<Row> {
    var fin := Finalized(txs);
    WalletKeysNonEmpty(fin);
    FirstPurchases(fin, WalletKeys(fin))
  }

  /** `DATE_TRUNC('month', first_buy)`, `COUNT(*)` per month, `ORDER BY month`. */
  function NewPerMonth(txs: seq<Row>): seq<SeriesPoint> {
    GroupBy(FirstPurchasesOf(txs), Monthly, RowCount)
  }

  /** There is one first purchase per buyer. */
  lemma FirstPurchasesCount(txs: seq<Row>)
    ensures |FirstPurchasesOf(txs)| == |Buyers(txs)|
  {
    WalletKeysCount(Finalized(txs));
  }

  /** The `i`-th first purchase is the `i`-th buyer's, and one of their finalized purchases. */
  lemma FirstPurchaseOwner(txs: seq<Row>, i: int)
    requires 0 <= i < |FirstPurchasesOf(txs)|
    ensures FirstPurchasesOf(txs)[i].wallet == WalletKeys(Finalized(txs))[i]
    ensures FirstPurchasesOf(txs)[i] in Finalized(txs)
  {
    var fin := Finalized(txs);
    var ws := WalletKeys(fin);
    WalletKeysNonEmpty(fin);
    var f := Earliest(InCategory(fin, Wallet, ws[i]));
    assert FirstPurchasesOf(txs)[i] == f;
    InCategoryWallet(fin, ws[i], f);
  }

  /** None of the buyer's finalized purchases is earlier than their first purchase. */
  lemma FirstPurchaseEarliest(txs: seq<Row>, i: int, x: Row)
    requires 0 <= i < |FirstPurchasesOf(txs)|
    requires x in Finalized(txs) && x.wallet == WalletKeys(Finalized(txs))[i]
    ensures !TsBefore(x.created, FirstPurchasesOf(txs)[i].created)
  {
    var fin := Finalized(txs);
    var ws := WalletKeys(fin);
    WalletKeysNonEmpty(fin);
    var g := InCategory(fin, Wallet, ws[i]);
    assert FirstPurchasesOf(txs)[i] == Earliest(g);
    WalletInCategory(fin, ws[i], x);
  }

  lemma WalletInCategory(rows: seq<Row>, w: string, x: Row)
    requires x in rows && x.wallet == w
    ensures x in InCategory(rows, Wallet, w)
  {
    assert CategoryOf(Wallet, x) == Some(w);
  }

  lemma InCategoryWallet(rows: seq<Row>, w: string, x: Row)
    requires x in InCategory(rows, Wallet, w)
    ensures x.wallet == w
  {
    assert CategoryOf(Wallet, x) == Some(w);
  }

  /** No buyer has two first purchases. */
  lemma FirstPurchasesDistinct(txs: seq<Row>)
    ensures forall i, j :: 0 <= i < j < |FirstPurchasesOf(txs)| ==>
              FirstPurchasesOf(txs)[i].wallet != FirstPurchasesOf(txs)[j].wallet
  {
    var firsts := FirstPurchasesOf(txs);
    forall i, j | 0 <= i < j < |firsts| ensures firsts[i].wallet != firsts[j].wallet {
      FirstPurchaseOwner(txs, i);
      FirstPurchaseOwner(txs, j);
    }
  }

  /** Every buyer is counted once, in the month of their first purchase: the new-buyer counts
      add up to the number of distinct buyers, months ascend, and each point counts the buyers
      whose first purchase falls in its month. */
  lemma NewPerMonthSeries(txs: seq<Row>)
    ensures SumBy(NewPerMonth(txs), PointValue) == |Buyers(txs)| as real
    ensures StrictlyAscending(Dates(NewPerMonth(txs)))
    ensures forall i :: 0 <= i < |NewPerMonth(txs)| ==>
              NewPerMonth(txs)[i].value == |InPeriod(FirstPurchasesOf(txs), Monthly, NewPerMonth(txs)[i].date)| as real
  {
    var firsts := FirstPurchasesOf(txs);
    GroupCountsSum(firsts, Monthly);
    FirstPurchasesCount(txs);
    GroupByDates(firsts, Monthly, RowCount);
    forall i | 0 <= i < |NewPerMonth(txs)|
      ensures NewPerMonth(txs)[i].value == |InPeriod(firsts, Monthly, NewPerMonth(txs)[i].date)| as real
    {
      GroupPointAt(firsts, Monthly, RowCount, i);
    }
  }

  // ---------------------------------------------------------------------------------------
  // Top wallets (queries 31 and 32)

  /** A row of the top-wallets table: the wallet, `SUM(amount)` and `COUNT(*)` of its rows. */
  datatype TopUser = TopUser(wallet: string, totalAmount: real, txCount: int)

  function WalletTotal(fin: seq<Row>, w: string): TopUser {
    var g := InCategory(fin, Wallet, w);
    TopUser(w, Sum(g, Amount), |g|)
  }

  function WalletTotals(fin: seq<Row>, ws: seq<string>): (r: seq<TopUser>)
    ensures |r| == |ws|
    ensures forall i :: 0 <= i < |ws| ==> r[i] == WalletTotal(fin, ws[i])
  {
    if ws == [] then [] else [WalletTotal(fin, ws[0])] + WalletTotals(fin, ws[1..])
  }

  function TotalOf(u: TopUser): real {
    u.totalAmount
  }

  function WalletOf(u: TopUser): string {
    u.wallet
  }

  const TopLimit := 10

  /** Every wallet with its totals, `ORDER BY total_amount DESC`. */
  function RankedWallets(rows: seq<Row>): seq<TopUser> {
    var fin := Finalized(rows);
    SortDesc(WalletTotals(fin, WalletKeys(fin)), TotalOf)
  }

  /** `... GROUP BY wallet ORDER BY total_amount DESC LIMIT 10`, on either table. */
  function TopWallets(rows: seq<Row>): seq<TopUser> {
    var all := RankedWallets(rows);
    all[..if |all| < TopLimit then |all| else TopLimit]
  }

  lemma RankedWalletsAreWallets(rows: seq<Row>)
    ensures |RankedWallets(rows)| == |Wallets(Finalized(rows))|
    ensures forall u :: u in RankedWallets(rows) <==>
              u.wallet in Wallets(Finalized(rows)) && u == WalletTotal(Finalized(rows), u.wallet)
    ensures forall i, j :: 0 <= i < j < |RankedWallets(rows)| ==>
              RankedWallets(rows)[i].wallet != RankedWallets(rows)[j].wallet
  {
    var fin := Finalized(rows);
    var ws := WalletKeys(fin);
    var totals := WalletTotals(fin, ws);
    var all := RankedWallets(rows);
    WalletKeysCount(fin);
    assert multiset(all) == multiset(totals);
    forall u ensures u in all <==> u.wallet in Wallets(fin) && u == WalletTotal(fin, u.wallet) {
      assert u in all <==> u in multiset(totals);
      if u in totals {
        var i :| 0 <= i < |totals| && totals[i] == u;
        assert ws[i] in ws;
      }
      if u.wallet in Wallets(fin) && u == WalletTotal(fin, u.wallet) {
        var i :| 0 <= i < |ws| && ws[i] == u.wallet;
        assert totals[i] == u;
      }
    }
    assert forall i, j :: 0 <= i < j < |totals| ==> WalletOf(totals[i]) != WalletOf(totals[j]);
    PermutationKeysDistinct(totals, all, WalletOf);
  }

  /** The top-wallets table lists `min(10, distinct wallets)` wallets, each once, with its own
      total and row count (at least one), by total non-increasing. */
  lemma TopWalletsTable(rows: seq<Row>)
    ensures |TopWallets(rows)| == if |Wallets(Finalized(rows))| < TopLimit then |Wallets(Finalized(rows))| else TopLimit
    ensures forall i, j :: 0 <= i < j < |TopWallets(rows)| ==> TopWallets(rows)[i].wallet != TopWallets(rows)[j].wallet
    ensures NonIncreasing(TopWallets(rows), TotalOf)
    ensures forall u :: u in TopWallets(rows) ==>
              && u.wallet in Wallets(Finalized(rows))
              && u == WalletTotal(Finalized(rows), u.wallet)
              && u.txCount >= 1
  {
    var fin := Finalized(rows);
    RankedWalletsAreWallets(rows);
    var all := RankedWallets(rows);
    forall u | u in TopWallets(rows) ensures u.txCount >= 1 {
      assert u in all;
      WalletKeysCount(fin);
      WalletRowsNonEmpty(fin, u.wallet);
    }
  }

  /** `LIMIT 10` keeps the largest totals: a wallet left out has a total no larger than the
      last one listed. */
  lemma TopWalletsCutoff(rows: seq<Row>, w: string)
    requires w in Wallets(Finalized(rows))
    requires forall u :: u in TopWallets(rows) ==> u.wallet != w
    ensures |TopWallets(rows)| == TopLimit
    ensures WalletTotal(Finalized(rows), w).totalAmount <= TopWallets(rows)[TopLimit - 1].totalAmount
  {
    var fin := Finalized(rows);
    var all := RankedWallets(rows);
    RankedWalletsAreWallets(rows);
    var u := WalletTotal(fin, w);
    assert u in all;
    var k :| 0 <= k < |all| && all[k] == u;
    assert TotalOf(all[TopLimit - 1]) >= TotalOf(all[k]);
  }

  // ---------------------------------------------------------------------------------------
  // Activity histogram (query 33)

  /** The activity histogram's `CASE` labels, lowest bucket first. */
  const ActivityLabels: seq<string> := ["۱", "۲-۵", "۶-۲۰", "۲۱-۱۰۰", "۱۰۰+"]

  /** The `CASE` arm of a wallet's purchase count: exactly 1, 2 to 5, 6 to 20, 21 to 100, and
      everything else (more than 100 for any wallet that has a purchase). */
  function ActivityBucket(n: int): (b: int)
    ensures 0 <= b < |ActivityLabels|
    ensures b == 0 <==> n == 1
    ensures b == 1 <==> 2 <= n <= 5
    ensures b == 2 <==> 6 <= n <= 20
    ensures b == 3 <==> 21 <= n <= 100
    ensures b == 4 <==> !(1 <= n <= 100)
  {
    if n == 1 then 0
    else if 2 <= n <= 5 then 1
    else if 6 <= n <= 20 then 2
    else if 21 <= n <= 100 then 3
    else 4
  }

  /** For counts of at least one, a lower bucket holds only smaller counts, so ordering the
      buckets by `MIN(tx_count)` orders them by index. */
  lemma ActivityBucketsOrdered(n1: int, n2: int)
    requires n1 >= 1 && n2 >= 1
    requires ActivityBucket(n1) < ActivityBucket(n2)
    ensures n1 < n2
  {
  }

  lemma ActivityLabelsDistinct(b1: int, b2: int)
    requires 0 <= b1 < |ActivityLabels| && 0 <= b2 < |ActivityLabels|
    requires ActivityLabels[b1] == ActivityLabels[b2]
    ensures b1 == b2
  {
  }

  function ActivityBuckets(fin: seq<Row>, ws: seq<string>): (bs: seq<int>)
    ensures |bs| == |ws|
    ensures forall i :: 0 <= i < |ws| ==> bs[i] == ActivityBucket(|InCategory(fin, Wallet, ws[i])|)
  {
    if ws == [] then [] else [ActivityBucket(|InCategory(fin, Wallet, ws[0])|)] + ActivityBuckets(fin, ws[1..])
  }

  /** Buyers per bucket of purchase count, `ORDER BY MIN(tx_count)`. */
  function ActivityDistribution(txs: seq<Row>): seq<DistributionItem> {
    var fin := Finalized(txs);
    Histogram(ActivityBuckets(fin, WalletKeys(fin)), ActivityLabels)
  }

  /** Every buyer falls in exactly one activity bucket: the counts add up to the number of
      distinct buyers, and only non-empty buckets appear. */
  lemma ActivityDistributionTotal(txs: seq<Row>)
    ensures SumBy(ActivityDistribution(txs), ItemValue) == |Buyers(txs)| as real
    ensures forall it :: it in ActivityDistribution(txs) ==> it.value >= 1.0
  {
    var fin := Finalized(txs);
    HistogramPartition(ActivityBuckets(fin, WalletKeys(fin)), ActivityLabels);
    WalletKeysCount(fin);
  }

  /** The items appear as `ORDER BY MIN(tx_count)` puts them: a buyer counted in an earlier item
      has fewer purchases than one counted in a later item. */
  lemma ActivityDistributionOrder(txs: seq<Row>, i: int, j: int, n1: int, n2: int)
    requires 0 <= i < j < |ActivityDistribution(txs)|
    requires n1 >= 1 && n2 >= 1
    requires ActivityLabels[ActivityBucket(n1)] == ActivityDistribution(txs)[i].name
    requires ActivityLabels[ActivityBucket(n2)] == ActivityDistribution(txs)[j].name
    ensures n1 < n2
  {
    var fin := Finalized(txs);
    var bs := ActivityBuckets(fin, WalletKeys(fin));
    var ks := Shown(bs, |ActivityLabels|, 0);
    HistogramItemAt(bs, ActivityLabels, i);
    HistogramItemAt(bs, ActivityLabels, j);
    ActivityLabelsDistinct(ActivityBucket(n1), ks[i]);
    ActivityLabelsDistinct(ActivityBucket(n2), ks[j]);
    ActivityBucketsOrdered(n1, n2);
  }

  // ---------------------------------------------------------------------------------------
  // Monthly active buyers (query 34)

  /** `COUNT(DISTINCT public_key)` per month, `ORDER BY month`. */
  function MonthlyActive(txs: seq<Row>): seq<SeriesPoint> {
    GroupBy(Finalized(txs), Monthly, ActiveWallets)
  }

  /** A month's active buyers are the distinct wallets among that month's purchases: at least
      one, and no more than the month's purchase count. */
  lemma MonthlyActivePoint(txs: seq<Row>, i: int)
    requires 0 <= i < |MonthlyActive(txs)|
    ensures MonthlyActive(txs)[i].value == |Wallets(InPeriod(Finalized(txs), Monthly, MonthlyActive(txs)[i].date))| as real
    ensures 1.0 <= MonthlyActive(txs)[i].value <= |InPeriod(Finalized(txs), Monthly, MonthlyActive(txs)[i].date)| as real
  {
    var fin := Finalized(txs);
    var k := PeriodKeys(fin, Monthly)[i];
    GroupPointAt(fin, Monthly, ActiveWallets, i);
    ActiveBounds(InPeriod(fin, Monthly, k));
  }

  lemma ActiveBounds(g: seq<Row>)
    requires |g| > 0
    ensures 1 <= |Wallets(g)| <= |g|
  {
    WalletsAtMostRows(g);
    WalletsNonEmpty(g);
  }

  lemma WalletsNonEmpty(g: seq<Row>)
    requires |g| > 0
    ensures |Wallets(g)| >= 1
  {
    assert g[0].wallet in Wallets(g);
  }

  // ---------------------------------------------------------------------------------------
  // Monthly buy/sell comparison (query 35)

  /** A row of the comparison: the month and the two sides' amount totals. */
  datatype ComparisonPoint = ComparisonPoint(month: Date, buyAmount: real, sellAmount: real)

  function Months(ps: seq<ComparisonPoint>): (ms: seq<Date>)
    ensures |ms| == |ps|
    ensures forall i :: 0 <= i < |ps| ==> ms[i] == ps[i].month
  {
    seq(|ps|, i requires 0 <= i < |ps| => ps[i].month)
  }

  /** Each joined month with `COALESCE(side, 0)` on both sides. */
  function JoinAt(b: seq<SeriesPoint>, s: seq<SeriesPoint>, ms: seq<Date>): (r: seq<ComparisonPoint>)
    ensures |r| == |ms|
    ensures forall i :: 0 <= i < |ms| ==> r[i] == ComparisonPoint(ms[i], LookupValue(b, ms[i]), LookupValue(s, ms[i]))
  {
    if ms == [] then [] else [ComparisonPoint(ms[0], LookupValue(b, ms[0]), LookupValue(s, ms[0]))] + JoinAt(b, s, ms[1..])
  }

  /** The monthly amount sums of both tables, `FULL OUTER JOIN ... ON b.month = s.month
      ORDER BY month`: every month either side has, once. */
  function BuySellComparison(txs: seq<Row>, refunds: seq<Row>): seq<ComparisonPoint> {
    var b := GroupBy(Finalized(txs), Monthly, AmountTotal);
    var s := GroupBy(Finalized(refunds), Monthly, AmountTotal);
    JoinAt(b, s, SortedDistinct(Dates(b) + Dates(s)))
  }

  /** The comparison has one row per month in which either side has a finalized row, months
      ascending; each row carries that month's purchased and sold amount totals, 0 for a side
      with nothing that month. */
  lemma BuySellComparisonRows(txs: seq<Row>, refunds: seq<Row>)
    ensures StrictlyAscending(Months(BuySellComparison(txs, refunds)))
    ensures forall m :: m in Months(BuySellComparison(txs, refunds)) <==>
              m in PeriodKeys(Finalized(txs), Monthly) || m in PeriodKeys(Finalized(refunds), Monthly)
    ensures forall i :: 0 <= i < |BuySellComparison(txs, refunds)| ==>
              var pt := BuySellComparison(txs, refunds)[i];
              && pt.buyAmount == Sum(InPeriod(Finalized(txs), Monthly, pt.month), Amount)
              && pt.sellAmount == Sum(InPeriod(Finalized(refunds), Monthly, pt.month), Amount)
  {
    var buys, sells := Finalized(txs), Finalized(refunds);
    var b := GroupBy(buys, Monthly, AmountTotal);
    var s := GroupBy(sells, Monthly, AmountTotal);
    GroupByDates(buys, Monthly, AmountTotal);
    GroupByDates(sells, Monthly, AmountTotal);
    var ms := SortedDistinct(Dates(b) + Dates(s));
    var r := BuySellComparison(txs, refunds);
    assert Months(r) == ms;
    forall i | 0 <= i < |r|
      ensures r[i].buyAmount == Sum(InPeriod(buys, Monthly, r[i].month), Amount)
      ensures r[i].sellAmount == Sum(InPeriod(sells, Monthly, r[i].month), Amount)
    {
      GroupedAmountAt(buys, Monthly, ms[i]);
      GroupedAmountAt(sells, Monthly, ms[i]);
    }
  }
}
