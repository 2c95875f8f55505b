/** The ledger rows the analytics services read, and the SQL building blocks their queries
    share: `WHERE` filters, `COALESCE(SUM(..), 0)` and `COALESCE(AVG(..), 0)`,
    `COUNT(DISTINCT ..)`, `GROUP BY` a day or a month `ORDER BY` it, `GROUP BY` a text column
    `ORDER BY count DESC`, and `CASE` bucket histograms `ORDER BY MIN(..)`. */
module Ledger {
  import opened Wrappers
  import opened Calendar
  import opened Seqs

  /** One row of `pending_txes` (a purchase) or of `pending_refunds` (a sale back).
      `wallet` is `public_key` / `public`; `price` is `price` / `refund_price`; `fee` is the
      refunds' `fee_price`; `rate` is `exchange_rate` / `refund_rate`; the purchases have
      `gateway` and `application`, the refunds `destination_bank_name`. */
  datatype Row = Row(
    code: string,
    status: string,
    wallet: string,
    amount: real,
    price: real,
    fee: real,
    rate: real,
    gateway: Option<string>,
    application: Option<string>,
    bank: Option<string>,
    created: Timestamp)

  /** `code = 'PMN'` */
  predicate IsPmn(r: Row) {
    r.code == "PMN"
  }

  /** `status = '0' AND code = 'PMN'`: a finalized purchase, a completed refund. */
  predicate IsFinalized(r: Row) {
    r.status == "0" && r.code == "PMN"
  }

  /** `status = '1' AND code = 'PMN'`: a pending refund. */
  predicate IsPending(r: Row) {
    r.status == "1" && r.code == "PMN"
  }

  /** `WHERE p`, keeping the rows' order. */
  function Where(rows: seq<Row>, p: Row -> bool): (r: seq<Row>)
    ensures |r| <= |rows|
    ensures forall x :: x in r <==> x in rows && p(x)
  {
    if rows == [] then [] else (if p(rows[0]) then [rows[0]] else []) + Where(rows[1..], p)
  }

  /** The filter keeps every admitted row as often as it occurs, and no other row. */
  lemma {:induction false} WhereMultiplicity(rows: seq<Row>, p: Row -> bool, x: Row)
    ensures multiset(Where(rows, p))[x] == if p(x) then multiset(rows)[x] else 0
  {
    if rows != [] {
      WhereMultiplicity(rows[1..], p, x);
      assert rows == [rows[0]] + rows[1..];
    }
  }

  /** Finalized and pending rows are disjoint kinds of PMN rows. */
  lemma {:induction false} StatusCountsWithinPmn(rows: seq<Row>)
    ensures |Where(rows, IsFinalized)| + |Where(rows, IsPending)| <= |Where(rows, IsPmn)|
  {
    if rows != [] {
      StatusCountsWithinPmn(rows[1..]);
    }
  }

  /** `created_at >= windowStart`, the trailing window of the trend queries. */
  function Since(rows: seq<Row>, windowStart: Timestamp): (r: seq<Row>)
    ensures forall x :: x in r <==> x in rows && !TsBefore(x.created, windowStart)
  {
    Where(rows, (x: Row) => !TsBefore(x.created, windowStart))
  }

  /** The window keeps every row created at or after its start, as often as it occurs. */
  lemma SinceMultiplicity(rows: seq<Row>, windowStart: Timestamp, x: Row)
    ensures multiset(Since(rows, windowStart))[x]
            == if TsBefore(x.created, windowStart) then 0 else multiset(rows)[x]
  {
    WhereMultiplicity(rows, (x: Row) => !TsBefore(x.created, windowStart), x);
  }

  // ---------------------------------------------------------------------------------------
  // Sums, averages, distinct counts

  datatype Column = Amount | Price | Fee | Rate

  function Field(r: Row, c: Column): real {
    match c
    case Amount => r.amount
    case Price => r.price
    case Fee => r.fee
    case Rate => r.rate
  }

  /** `COALESCE(SUM(c), 0)`: the sum over no rows is 0. */
  function Sum(rows: seq<Row>, c: Column): real {
    if rows == [] then 0.0 else Field(rows[0], c) + Sum(rows[1..], c)
  }

  /** `COALESCE(AVG(c), 0)`: the mean, or 0 over no rows. */
  function Avg(rows: seq<Row>, c: Column): real {
    if |rows| == 0 then 0.0 else Sum(rows, c) / (|rows| as real)
  }

  lemma {:induction false} SumBounds(rows: seq<Row>, c: Column, lo: real, hi: real)
    requires forall i :: 0 <= i < |rows| ==> lo <= Field(rows[i], c) <= hi
    ensures (|rows| as real) * lo <= Sum(rows, c) <= (|rows| as real) * hi
  {
    if rows != [] {
      var t := rows[1..];
      assert forall i :: 0 <= i < |t| ==> t[i] == rows[i + 1];
      SumBounds(t, c, lo, hi);
      var n := |t| as real;
      assert Sum(rows, c) == Field(rows[0], c) + Sum(t, c);
      assert lo <= Field(rows[0], c) <= hi;
      assert |rows| as real == n + 1.0;
      assert (n + 1.0) * lo == n * lo + lo;
      assert (n + 1.0) * hi == n * hi + hi;
    }
  }

  /** An average lies between the least and the greatest value averaged. */
  lemma AverageBetween(rows: seq<Row>, c: Column, lo: real, hi: real)
    requires |rows| > 0
    requires forall i :: 0 <= i < |rows| ==> lo <= Field(rows[i], c) <= hi
    ensures lo <= Avg(rows, c) <= hi
  {
    SumBounds(rows, c, lo, hi);
    var n := |rows| as real;
    assert Avg(rows, c) * n == Sum(rows, c);
  }

  /** `COUNT(DISTINCT wallet)` counts this set. */
  function Wallets(rows: seq<Row>): set<string> {
    set x | x in rows :: x.wallet
  }

  /** There are no more distinct wallets than rows. */
  lemma {:induction false} WalletsAtMostRows(rows: seq<Row>)
    ensures |Wallets(rows)| <= |rows|
  {
    if rows != [] {
      WalletsAtMostRows(rows[1..]);
      assert Wallets(rows) == Wallets(rows[1..]) + {rows[0].wallet};
    }
  }

  // ---------------------------------------------------------------------------------------
  // Grouping by day or by month

  datatype Period = Daily | Monthly

  /** `DATE(ts)` or `DATE_TRUNC('month', ts)` (the first of its month). */
  function PeriodStart(p: Period, d: Date): Date {
    if p == Daily then d else Date(d.year, d.month, 1)
  }

  function PeriodOf(p: Period, r: Row): Date {
    PeriodStart(p, r.created.date)
  }

  function PeriodsOf(rows: seq<Row>, p: Period): (ks: seq<Date>)
    ensures |ks| == |rows|
    ensures forall i :: 0 <= i < |rows| ==> ks[i] == PeriodOf(p, rows[i])
  {
    if rows == [] then [] else [PeriodOf(p, rows[0])] + PeriodsOf(rows[1..], p)
  }

  /** The rows of one group: those whose period is `k`. */
  function InPeriod(rows: seq<Row>, p: Period, k: Date): (g: seq<Row>)
    ensures forall x :: x in g <==> x in rows && PeriodOf(p, x) == k
  {
    if rows == [] then []
    else (if PeriodOf(p, rows[0]) == k then [rows[0]] else []) + InPeriod(rows[1..], p, k)
  }

  /** A group has as many rows as there are rows with its period. */
  lemma {:induction false} InPeriodCount(rows: seq<Row>, p: Period, k: Date)
    ensures |InPeriod(rows, p, k)| == multiset(PeriodsOf(rows, p))[k]
  {
    if rows != [] {
      InPeriodCount(rows[1..], p, k);
      assert PeriodsOf(rows, p) == [PeriodOf(p, rows[0])] + PeriodsOf(rows[1..], p);
    }
  }

  lemma {:induction false} InPeriodEmpty(rows: seq<Row>, p: Period, k: Date)
    requires forall x :: x in rows ==> PeriodOf(p, x) != k
    ensures InPeriod(rows, p, k) == []
  {
    if rows != [] {
      assert rows[0] in rows;
      InPeriodEmpty(rows[1..], p, k);
    }
  }

  /** A point of a series: the period's date, the charted value, and the optional extra fields. */
  datatype SeriesPoint = SeriesPoint(date: Date, value: real, count: Option<int>,
                                     totalAmount: Option<real>, totalRials: Option<real>)

  /** What each series point reports about its group. */
  datatype Measure =
    | RowCount       // COUNT(*)
    | PriceTotal     // COALESCE(SUM(price), 0)
    | AmountTotal    // SUM(amount)
    | Trend          // COUNT(*), COALESCE(SUM(amount), 0), COALESCE(SUM(price), 0)
    | AverageRate    // AVG(rate)
    | ActiveWallets  // COUNT(DISTINCT wallet)

  function PointFor(m: Measure, k: Date, g: seq<Row>): SeriesPoint {
    match m
    case RowCount => SeriesPoint(k, |g| as real, None, None, None)
    case PriceTotal => SeriesPoint(k, Sum(g, Price), None, None, None)
    case AmountTotal => SeriesPoint(k, Sum(g, Amount), None, None, None)
    case Trend => SeriesPoint(k, |g| as real, Some(|g|), Some(Sum(g, Amount)), Some(Sum(g, Price)))
    case AverageRate => SeriesPoint(k, Avg(g, Rate), None, None, None)
    case ActiveWallets => SeriesPoint(k, |Wallets(g)| as real, None, None, None)
  }

  function Points(rows: seq<Row>, p: Period, ks: seq<Date>, m: Measure): (r: seq<SeriesPoint>)
    ensures |r| == |ks|
    ensures forall i :: 0 <= i < |ks| ==> r[i] == PointFor(m, ks[i], InPeriod(rows, p, ks[i]))
  {
    if ks == [] then [] else [PointFor(m, ks[0], InPeriod(rows, p, ks[0]))] + Points(rows, p, ks[1..], m)
  }

  function Dates(ps: seq<SeriesPoint>): (ds: seq<Date>)
    ensures |ds| == |ps|
    ensures forall i :: 0 <= i < |ps| ==> ds[i] == ps[i].date
  {
    seq(|ps|, i requires 0 <= i < |ps| => ps[i].date)
  }

  /** The distinct periods of the rows, ascending. */
  function PeriodKeys(rows: seq<Row>, p: Period): (ks: seq<Date>)
    ensures StrictlyAscending(ks)
    ensures forall k :: k in ks <==> exists x :: x in rows && PeriodOf(p, x) == k
  {
    var ds := PeriodsOf(rows, p);
    var ks := SortedDistinct(ds);
    assert forall k :: k in ds <==> exists x :: x in rows && PeriodOf(p, x) == k by {
      forall k | k in ds ensures exists x :: x in rows && PeriodOf(p, x) == k {
        var i :| 0 <= i < |ds| && ds[i] == k;
        assert rows[i] in rows;
      }
      forall x | x in rows ensures PeriodOf(p, x) in ds {
        var i :| 0 <= i < |rows| && rows[i] == x;
        assert ds[i] == PeriodOf(p, x);
      }
    }
    ks
  }

  /** `SELECT period, measure ... GROUP BY period ORDER BY period`. */
  function GroupBy(rows: seq<Row>, p: Period, m: Measure): seq<SeriesPoint> {
    Points(rows, p, PeriodKeys(rows, p), m)
  }

  function PointValue(pt: SeriesPoint): real {
    pt.value
  }

  lemma AscendingNoDup(ks: seq<Date>)
    requires StrictlyAscending(ks)
    ensures NoDup(ks)
  {
    forall i, j | 0 <= i < j < |ks| ensures ks[i] != ks[j] {
      assert Before(ks[i], ks[j]);
    }
  }

  /** A grouped series has one point per period that has rows and no other point, in strictly
      ascending order of period: days or months without rows are absent, not filled in. */
  lemma GroupByDates(rows: seq<Row>, p: Period, m: Measure)
    ensures Dates(GroupBy(rows, p, m)) == PeriodKeys(rows, p)
  {
  }

  /** Point `i` of a grouped series reports exactly the rows of its own period, of which
      there is at least one. */
  lemma GroupPointAt(rows: seq<Row>, p: Period, m: Measure, i: int)
    requires 0 <= i < |GroupBy(rows, p, m)|
    ensures GroupBy(rows, p, m)[i].date == PeriodKeys(rows, p)[i]
    ensures GroupBy(rows, p, m)[i] == PointFor(m, PeriodKeys(rows, p)[i], InPeriod(rows, p, PeriodKeys(rows, p)[i]))
    ensures |InPeriod(rows, p, PeriodKeys(rows, p)[i])| > 0
  {
    var ks := PeriodKeys(rows, p);
    assert ks[i] in ks;
    var x :| x in rows && PeriodOf(p, x) == ks[i];
    assert x in InPeriod(rows, p, ks[i]);
  }

  lemma {:induction false} PointCountsSum(rows: seq<Row>, p: Period, ks: seq<Date>)
    ensures SumBy(Points(rows, p, ks, RowCount), PointValue) == SumMult(ks, multiset(PeriodsOf(rows, p))) as real
  {
    if ks != [] {
      var r := Points(rows, p, ks, RowCount);
      assert r[1..] == Points(rows, p, ks[1..], RowCount);
      PointCountsSum(rows, p, ks[1..]);
      InPeriodCount(rows, p, ks[0]);
    }
  }

  /** The counts of a `COUNT(*)` series add up to the number of rows grouped. */
  lemma GroupCountsSum(rows: seq<Row>, p: Period)
    ensures SumBy(GroupBy(rows, p, RowCount), PointValue) == |rows| as real
  {
    var ks := PeriodKeys(rows, p);
    var ds := PeriodsOf(rows, p);
    PointCountsSum(rows, p, ks);
    AscendingNoDup(ks);
    forall k | k in ds ensures k in ks {
      var i :| 0 <= i < |ds| && ds[i] == k;
      assert rows[i] in rows && PeriodOf(p, rows[i]) == k;
    }
    SumMultAll(ks, ds);
  }

  /** The value a series reports for date `k`, or 0 when it has no point there
      (`COALESCE(side.value, 0)` after an outer join). */
  function LookupValue(ps: seq<SeriesPoint>, k: Date): real {
    if ps == [] then 0.0 else if ps[0].date == k then ps[0].value else LookupValue(ps[1..], k)
  }

  lemma {:induction false} LookupAt(ps: seq<SeriesPoint>, i: int)
    requires NoDup(Dates(ps)) && 0 <= i < |ps|
    ensures LookupValue(ps, ps[i].date) == ps[i].value
  {
    if i > 0 {
      assert Dates(ps)[0] != Dates(ps)[i];
      assert Dates(ps[1..]) == Dates(ps)[1..];
      LookupAt(ps[1..], i - 1);
    }
  }

  lemma {:induction false} LookupMissing(ps: seq<SeriesPoint>, k: Date)
    requires k !in Dates(ps)
    ensures LookupValue(ps, k) == 0.0
  {
    if ps != [] {
      assert Dates(ps)[0] == ps[0].date;
      assert Dates(ps[1..]) == Dates(ps)[1..];
      LookupMissing(ps[1..], k);
    }
  }

  /** Looking a period up in an `AmountTotal` series gives the sum of that period's amounts,
      and 0 for a period with no rows. */
  lemma GroupedAmountAt(rows: seq<Row>, p: Period, k: Date)
    ensures LookupValue(GroupBy(rows, p, AmountTotal), k) == Sum(InPeriod(rows, p, k), Amount)
  {
    var r := GroupBy(rows, p, AmountTotal);
    GroupByDates(rows, p, AmountTotal);
    AscendingNoDup(Dates(r));
    if k in Dates(r) {
      var i :| 0 <= i < |r| && Dates(r)[i] == k;
      GroupPointAt(rows, p, AmountTotal, i);
      LookupAt(r, i);
    } else {
      LookupMissing(r, k);
      assert forall x :: x in rows ==> PeriodOf(p, x) != k;
      InPeriodEmpty(rows, p, k);
    }
  }

  // ---------------------------------------------------------------------------------------
  // Grouping by a text column

  datatype Category = Gateway | Application | Bank | Status | Wallet

  /** The grouped column's value; `None` is SQL `NULL`. */
  function CategoryOf(c: Category, r: Row): Option<string> {
    match c
    case Gateway => r.gateway
    case Application => r.application
    case Bank => r.bank
    case Status => Some(r.status)
    case Wallet => Some(r.wallet)
  }

  /** The non-null values of the column, in row order. */
  function Names(rows: seq<Row>, c: Category): (ns: seq<string>)
    ensures |ns| <= |rows|
    ensures forall n :: n in ns <==> exists x :: x in rows && CategoryOf(c, x) == Some(n)
  {
    if rows == [] then []
    else
      var rest := Names(rows[1..], c);
      assert forall x :: x in rows[1..] ==> x in rows;
      assert rows == [rows[0]] + rows[1..];
      match CategoryOf(c, rows[0])
      case Some(n) => [n] + rest
      case None => rest
  }

  /** The rows of one group: those whose column value is `n`. */
  function InCategory(rows: seq<Row>, c: Category, n: string): (g: seq<Row>)
    ensures forall x :: x in g <==> x in rows && CategoryOf(c, x) == Some(n)
  {
    if rows == [] then []
    else (if CategoryOf(c, rows[0]) == Some(n) then [rows[0]] else []) + InCategory(rows[1..], c, n)
  }

  /** A group has as many rows as the column has occurrences of its value. */
  lemma {:induction false} InCategoryCount(rows: seq<Row>, c: Category, n: string)
    ensures |InCategory(rows, c, n)| == multiset(Names(rows, c))[n]
  {
    if rows != [] {
      InCategoryCount(rows[1..], c, n);
    }
  }

  /** Over rows where the column is never null, there is one value per row. */
  lemma {:induction false} NamesOfNonNull(rows: seq<Row>, c: Category)
    requires forall x :: x in rows ==> CategoryOf(c, x).Some?
    ensures |Names(rows, c)| == |rows|
  {
    if rows != [] {
      NamesOfNonNull(rows[1..], c);
    }
  }

  /** An item of a distribution chart: its name, the charted value and the optional extras. */
  datatype DistributionItem = DistributionItem(name: string, value: real, count: Option<int>,
                                               totalRials: Option<real>)

  /** `COUNT(*)` (also repeated as `count`) and, with `withTotals`, `SUM(price)`. */
  function ItemFor(n: string, g: seq<Row>, withTotals: bool): DistributionItem {
    if withTotals then DistributionItem(n, |g| as real, Some(|g|), Some(Sum(g, Price)))
    else DistributionItem(n, |g| as real, None, None)
  }

  function Items(rows: seq<Row>, c: Category, ns: seq<string>, withTotals: bool): (r: seq<DistributionItem>)
    ensures |r| == |ns|
    ensures forall i :: 0 <= i < |ns| ==> r[i] == ItemFor(ns[i], InCategory(rows, c, ns[i]), withTotals)
  {
    if ns == [] then [] else [ItemFor(ns[0], InCategory(rows, c, ns[0]), withTotals)] + Items(rows, c, ns[1..], withTotals)
  }

  function ItemValue(it: DistributionItem): real {
    it.value
  }

  function ItemName(it: DistributionItem): string {
    it.name
  }

  /** `SELECT col, COUNT(*) [, SUM(price)] ... GROUP BY col ORDER BY count DESC` over rows
      already filtered by the query's `WHERE`. */
  function CountByCategory(rows: seq<Row>, c: Category, withTotals: bool): seq<DistributionItem> {
    SortDesc(Items(rows, c, Dedup(Names(rows, c)), withTotals), ItemValue)
  }

  lemma {:induction false} ItemCountsSum(rows: seq<Row>, c: Category, ns: seq<string>, withTotals: bool)
    ensures SumBy(Items(rows, c, ns, withTotals), ItemValue) == SumMult(ns, multiset(Names(rows, c))) as real
  {
    if ns != [] {
      var r := Items(rows, c, ns, withTotals);
      assert r[1..] == Items(rows, c, ns[1..], withTotals);
      ItemCountsSum(rows, c, ns[1..], withTotals);
      InCategoryCount(rows, c, ns[0]);
    }
  }

  /** A categorical distribution names each value at most once. */
  lemma CategoryNamesDistinct(rows: seq<Row>, c: Category, withTotals: bool)
    ensures forall i, j :: 0 <= i < j < |CountByCategory(rows, c, withTotals)| ==>
              CountByCategory(rows, c, withTotals)[i].name != CountByCategory(rows, c, withTotals)[j].name
  {
    var items := Items(rows, c, Dedup(Names(rows, c)), withTotals);
    assert forall i, j :: 0 <= i < j < |items| ==> ItemName(items[i]) != ItemName(items[j]);
    PermutationKeysDistinct(items, CountByCategory(rows, c, withTotals), ItemName);
  }

  /** Every item of a categorical distribution names a value some row has, and reports that
      value's own rows: their count (at least one) and, with totals, their price sum. */
  lemma CategoryItemsAreGroups(rows: seq<Row>, c: Category, withTotals: bool, it: DistributionItem)
    requires it in CountByCategory(rows, c, withTotals)
    ensures exists x :: x in rows && CategoryOf(c, x) == Some(it.name)
    ensures it == ItemFor(it.name, InCategory(rows, c, it.name), withTotals)
    ensures it.value >= 1.0
  {
    var ns := Dedup(Names(rows, c));
    var items := Items(rows, c, ns, withTotals);
    assert multiset(CountByCategory(rows, c, withTotals)) == multiset(items);
    assert it in multiset(items);
    var i :| 0 <= i < |items| && items[i] == it;
    ItemIsGroup(rows, c, ns, withTotals, i);
  }

  lemma ItemIsGroup(rows: seq<Row>, c: Category, ns: seq<string>, withTotals: bool, i: int)
    requires forall k :: 0 <= k < |ns| ==> ns[k] in Names(rows, c)
    requires 0 <= i < |ns|
    ensures exists x :: x in rows && CategoryOf(c, x) == Some(ns[i])
    ensures Items(rows, c, ns, withTotals)[i] == ItemFor(ns[i], InCategory(rows, c, ns[i]), withTotals)
    ensures Items(rows, c, ns, withTotals)[i].name == ns[i]
    ensures Items(rows, c, ns, withTotals)[i].value >= 1.0
  {
    assert ns[i] in Names(rows, c);
    var x :| x in rows && CategoryOf(c, x) == Some(ns[i]);
    assert x in InCategory(rows, c, ns[i]);
  }

  /** Every non-null value of the column has an item. */
  lemma CategoryCoversRows(rows: seq<Row>, c: Category, withTotals: bool, x: Row)
    requires x in rows && CategoryOf(c, x).Some?
    ensures exists it :: it in CountByCategory(rows, c, withTotals) && it.name == CategoryOf(c, x).value
  {
    var ns := Dedup(Names(rows, c));
    var items := Items(rows, c, ns, withTotals);
    var n := CategoryOf(c, x).value;
    assert n in Names(rows, c);
    var i :| 0 <= i < |ns| && ns[i] == n;
    assert items[i] in multiset(items);
    assert items[i] in multiset(CountByCategory(rows, c, withTotals));
  }

  /** The counts of a categorical distribution are non-increasing and add up to the number of
      rows with a non-null value: each such row is counted in exactly one item. */
  lemma CategoryCountsSum(rows: seq<Row>, c: Category, withTotals: bool)
    ensures NonIncreasing(CountByCategory(rows, c, withTotals), ItemValue)
    ensures SumBy(CountByCategory(rows, c, withTotals), ItemValue) == |Names(rows, c)| as real
  {
    var ns := Dedup(Names(rows, c));
    var items := Items(rows, c, ns, withTotals);
    ItemCountsSum(rows, c, ns, withTotals);
    SumMultAll(ns, Names(rows, c));
    SumBySorted(items, ItemValue, ItemValue);
  }

  // ---------------------------------------------------------------------------------------
  // Bucket histograms (`CASE ... END AS bucket ... GROUP BY bucket ORDER BY MIN(..)`)

  predicate StrictlyIncreasing(s: seq<int>) {
    forall i, j :: 0 <= i < j < |s| ==> s[i] < s[j]
  }

  /** The bucket indices from `b` up to `n` that some element of `bs` falls into, ascending. */
  function Shown(bs: seq<int>, n: int, b: int): (r: seq<int>)
    ensures StrictlyIncreasing(r)
    ensures forall k :: k in r <==> b <= k < n && multiset(bs)[k] > 0
    decreases n - b
  {
    if b >= n then []
    else
      var rest := Shown(bs, n, b + 1);
      assert forall k :: 0 <= k < |rest| ==> rest[k] in rest;
      if multiset(bs)[b] > 0 then [b] + rest else rest
  }

  function BucketItems(bs: seq<int>, labels: seq<string>, ks: seq<int>): (r: seq<DistributionItem>)
    requires forall i :: 0 <= i < |ks| ==> 0 <= ks[i] < |labels|
    ensures |r| == |ks|
    ensures forall i :: 0 <= i < |ks| ==>
              r[i] == DistributionItem(labels[ks[i]], multiset(bs)[ks[i]] as real, None, None)
  {
    if ks == [] then []
    else [DistributionItem(labels[ks[0]], multiset(bs)[ks[0]] as real, None, None)] + BucketItems(bs, labels, ks[1..])
  }

  /** One item per non-empty bucket, labelled, in ascending bucket order; `bs` holds the
      bucket index of each counted element. */
  function Histogram(bs: seq<int>, labels: seq<string>): seq<DistributionItem> {
    var ks := Shown(bs, |labels|, 0);
    assert forall i :: 0 <= i < |ks| ==> ks[i] in ks;
    BucketItems(bs, labels, ks)
  }

  lemma {:induction false} BucketCountsSum(bs: seq<int>, labels: seq<string>, ks: seq<int>)
    requires forall i :: 0 <= i < |ks| ==> 0 <= ks[i] < |labels|
    ensures SumBy(BucketItems(bs, labels, ks), ItemValue) == SumMult(ks, multiset(bs)) as real
  {
    if ks != [] {
      var r := BucketItems(bs, labels, ks);
      assert r[1..] == BucketItems(bs, labels, ks[1..]);
      BucketCountsSum(bs, labels, ks[1..]);
    }
  }

  /** When every element has a bucket, the histogram lists exactly the non-empty buckets in
      ascending order, each with its element count, and the counts add up to the number of
      elements: every element is counted in exactly one item. */
  lemma HistogramPartition(bs: seq<int>, labels: seq<string>)
    requires forall i :: 0 <= i < |bs| ==> 0 <= bs[i] < |labels|
    ensures |Histogram(bs, labels)| == |Shown(bs, |labels|, 0)|
    ensures forall i :: 0 <= i < |Histogram(bs, labels)| ==>
              var b := Shown(bs, |labels|, 0)[i];
              Histogram(bs, labels)[i] == DistributionItem(labels[b], multiset(bs)[b] as real, None, None)
              && multiset(bs)[b] > 0
    ensures forall b :: 0 <= b < |labels| && multiset(bs)[b] > 0 ==> b in Shown(bs, |labels|, 0)
    ensures SumBy(Histogram(bs, labels), ItemValue) == |bs| as real
  {
    var ks := Shown(bs, |labels|, 0);
    assert forall i :: 0 <= i < |ks| ==> ks[i] in ks;
    BucketCountsSum(bs, labels, ks);
    assert NoDup(ks);
    forall x | x in bs ensures x in ks {
      var i :| 0 <= i < |bs| && bs[i] == x;
    }
    SumMultAll(ks, bs);
  }

  // ---------------------------------------------------------------------------------------
  // Amount buckets, shared by the purchase and the refund histograms

  /** The amount histogram's `CASE` labels, lowest bucket first. */
  const AmountLabels: seq<string> := ["۰-۱۰", "۱۰-۱۰۰", "۱۰۰-۱٬۰۰۰", "۱٬۰۰۰-۱۰٬۰۰۰", "۱۰٬۰۰۰+"]

  /** The `CASE` arm an amount takes: upper bounds 10, 100, 1000 and 10000 are inclusive, and
      anything larger falls into the last bucket. */
  function AmountBucket(a: real): (b: int)
    ensures 0 <= b < |AmountLabels|
    ensures b == 0 <==> a <= 10.0
    ensures b == 1 <==> 10.0 < a <= 100.0
    ensures b == 2 <==> 100.0 < a <= 1000.0
    ensures b == 3 <==> 1000.0 < a <= 10000.0
    ensures b == 4 <==> 10000.0 < a
  {
    if a <= 10.0 then 0
    else if a <= 100.0 then 1
    else if a <= 1000.0 then 2
    else if a <= 10000.0 then 3
    else 4
  }

  /** The buckets are consecutive ranges of amounts: a lower bucket holds only smaller amounts,
      so ordering the buckets by their least amount (`ORDER BY MIN(amount)`) orders them by
      index. */
  lemma AmountBucketsOrdered(a1: real, a2: real)
    requires AmountBucket(a1) < AmountBucket(a2)
    ensures a1 < a2
  {
  }

  function AmountBuckets(rows: seq<Row>): (bs: seq<int>)
    ensures |bs| == |rows|
    ensures forall i :: 0 <= i < |rows| ==> bs[i] == AmountBucket(rows[i].amount)
  {
    if rows == [] then [] else [AmountBucket(rows[0].amount)] + AmountBuckets(rows[1..])
  }

  /** `CASE ... END AS bucket, COUNT(*) ... GROUP BY bucket ORDER BY MIN(amount)`. */
  function AmountHistogram(rows: seq<Row>): seq<DistributionItem> {
    Histogram(AmountBuckets(rows), AmountLabels)
  }

  /** The amount histogram's counts add up to the number of rows, and only non-empty buckets
      appear. */
  lemma AmountHistogramSum(rows: seq<Row>)
    ensures SumBy(AmountHistogram(rows), ItemValue) == |rows| as real
    ensures forall it :: it in AmountHistogram(rows) ==> it.value >= 1.0
  {
    HistogramPartition(AmountBuckets(rows), AmountLabels);
  }

  /** Item `i` of a histogram is the `i`-th non-empty bucket, with its label and count. */
  lemma HistogramItemAt(bs: seq<int>, labels: seq<string>, i: int)
    requires 0 <= i < |Shown(bs, |labels|, 0)|
    ensures 0 <= Shown(bs, |labels|, 0)[i] < |labels|
    ensures i < |Histogram(bs, labels)|
    ensures Histogram(bs, labels)[i].name == labels[Shown(bs, |labels|, 0)[i]]
  {
    var ks := Shown(bs, |labels|, 0);
    assert ks[i] in ks;
  }

  lemma AmountLabelsDistinct(b1: int, b2: int)
    requires 0 <= b1 < |AmountLabels| && 0 <= b2 < |AmountLabels|
    requires AmountLabels[b1] == AmountLabels[b2]
    ensures b1 == b2
  {
  }

  /** Every row is counted under the label of its own bucket. */
  lemma AmountHistogramCovers(rows: seq<Row>, x: Row)
    requires x in rows
    ensures exists it :: it in AmountHistogram(rows) && it.name == AmountLabels[AmountBucket(x.amount)]
  {
    var bs := AmountBuckets(rows);
    var ks := Shown(bs, |AmountLabels|, 0);
    var k :| 0 <= k < |rows| && rows[k] == x;
    assert bs[k] in bs;
    assert bs[k] in ks;
    var i :| 0 <= i < |ks| && ks[i] == bs[k];
    HistogramItemAt(bs, AmountLabels, i);
    assert AmountHistogram(rows)[i] in AmountHistogram(rows);
  }

  /** The items appear as `ORDER BY MIN(amount)` puts them: every row counted in an earlier
      item has a smaller amount than every row counted in a later one. */
  lemma AmountHistogramOrder(rows: seq<Row>, i: int, j: int, x: Row, y: Row)
    requires 0 <= i < j < |AmountHistogram(rows)|
    requires AmountLabels[AmountBucket(x.amount)] == AmountHistogram(rows)[i].name
    requires AmountLabels[AmountBucket(y.amount)] == AmountHistogram(rows)[j].name
    ensures x.amount < y.amount
  {
    var bs := AmountBuckets(rows);
    var ks := Shown(bs, |AmountLabels|, 0);
    HistogramItemAt(bs, AmountLabels, i);
    HistogramItemAt(bs, AmountLabels, j);
    AmountLabelsDistinct(AmountBucket(x.amount), ks[i]);
    AmountLabelsDistinct(AmountBucket(y.amount), ks[j]);
    AmountBucketsOrdered(x.amount, y.amount);
  }

  // ---------------------------------------------------------------------------------------
  // KPI cards

  datatype Format = Number | Rial | Percent | Decimal

  /** A KPI card: a key, its display label (`caption`, the JSON `label`), a value and how the
      front end formats it. */
  datatype Kpi = Kpi(key: string, caption: string, value: real, format: Format)

  function KeysOf(ks: seq<Kpi>): (r: seq<string>)
    ensures |r| == |ks|
    ensures forall i :: 0 <= i < |ks| ==> r[i] == ks[i].key
  {
    seq(|ks|, i requires 0 <= i < |ks| => ks[i].key)
  }

  /** Python's `int()` of a number: the integer part, truncating toward zero. */
  function IntPart(x: real): (n: int)
    ensures x >= 0.0 ==> n as real <= x < n as real + 1.0
    ensures x < 0.0 ==> n as real - 1.0 < x <= n as real
  {
    if x >= 0.0 then x.Floor else -((-x).Floor)
  }

  /** A sum of positive values over at least one row is positive. */
  lemma {:induction false} SumPositive(rows: seq<Row>, c: Column)
    requires |rows| > 0
    requires forall x :: x in rows ==> Field(x, c) > 0.0
    ensures Sum(rows, c) > 0.0
  {
    if |rows| > 1 {
      SumPositive(rows[1..], c);
    } else {
      assert rows[1..] == [];
    }
  }

  /** An average of positive values is positive. */
  lemma AveragePositive(rows: seq<Row>, c: Column)
    requires |rows| > 0
    requires forall x :: x in rows ==> Field(x, c) > 0.0
    ensures Avg(rows, c) > 0.0
  {
    SumPositive(rows, c);
  }

  /** An `AVG(rate)` point of a non-empty group of positive rates is positive. Kept apart so
      that the division inside `Avg` is only unfolded here. */
  lemma AverageRatePointPositive(k: Date, g: seq<Row>)
    requires |g| > 0
    requires forall x :: x in g ==> x.rate > 0.0
    ensures PointFor(AverageRate, k, g).value > 0.0
  {
    AveragePositive(g, Rate);
  }

  /** Every month key is the first of its month. */
  lemma MonthlyKeysAreFirsts(rows: seq<Row>)
    ensures forall k :: k in PeriodKeys(rows, Monthly) ==> k.day == 1
  {
  }
}
