/** The purchase analytics of `pending_txes`: the KPI cards, the daily and monthly series, the
    distributions by gateway, application and status, and the amount histogram. Each query is
    a function of the table's rows; `windowStart` is the instant `NOW() - INTERVAL '12 months'`. */
module Buys {
  import opened Wrappers
  import opened Calendar
  import opened Seqs
  import opened Ledger
  import opened Queries

  /** `WHERE code = 'PMN'`. */
  function PmnRows(rows: seq<Row>): seq<Row> {
    Where(rows, IsPmn)
  }

  /** Query 5, `ROUND(COUNT(*) FILTER (WHERE status = '0') * 100.0 / NULLIF(COUNT(*), 0), 2)`
      over the PMN rows, in hundredths of a percent. With no PMN rows the division is by
      `NULL`, and `or 0` turns the `NULL` into 0. Otherwise the result is the percentage
      rounded half away from zero to two decimals: it is within half a hundredth of the exact
      percentage, and a tie rounds up. */
  function SuccessRateHundredths(rows: seq<Row>): (r: int)
    ensures 0 <= r <= 10000
    ensures |PmnRows(rows)| == 0 ==> r == 0
    ensures |PmnRows(rows)| > 0 ==>
              var n, s := |PmnRows(rows)|, |Finalized(rows)|;
              2 * r * n - n <= 20000 * s < 2 * r * n + n
  {
    var n, s := |PmnRows(rows)|, |Finalized(rows)|;
    if n == 0 then 0
    else
      StatusCountsWithinPmn(rows);
      RoundingBounds(s, n);
      (20000 * s + n) / (2 * n)
  }

  lemma RoundingBounds(s: int, n: int)
    requires 0 <= s <= n && 0 < n
    ensures var r := (20000 * s + n) / (2 * n);
            0 <= r <= 10000 && 2 * r * n - n <= 20000 * s < 2 * r * n + n
  {
    var d := 2 * n;
    var q := 20000 * s + n;
    var r := q / d;
    assert q == d * r + q % d && 0 <= q % d < d;
    assert 2 * r * n == d * r;
    assert q < d * 10001;
  }

  /** The cards' Persian captions. */
  const PurchasesCaption := "تعداد کل خریدها"
  const VolumeCaption := "حجم کل PMN"
  const RevenueCaption := "مجموع ریالی"
  const AverageCaption := "میانگین مقدار خرید"
  const SuccessCaption := "نرخ موفقیت"
  const BuyersCaption := "تعداد خریداران منحصر به فرد"

  /** The six KPI cards, in their fixed order. */
  function Kpis(rows: seq<Row>): (ks: seq<Kpi>)
    ensures KeysOf(ks) == ["total_buys", "total_volume", "total_revenue", "avg_amount", "success_rate", "unique_buyers"]
  {
    var ok := Finalized(rows);
    [ Kpi("total_buys", PurchasesCaption, |ok| as real, Number),
      Kpi("total_volume", VolumeCaption, Sum(ok, Amount), Number),
      Kpi("total_revenue", RevenueCaption, IntPart(Sum(ok, Price)) as real, Rial),
      Kpi("avg_amount", AverageCaption, Avg(ok, Amount), Decimal),
      Kpi("success_rate", SuccessCaption, SuccessRateHundredths(rows) as real / 100.0, Percent),
      Kpi("unique_buyers", BuyersCaption, |Wallets(ok)| as real, Number) ]
  }

  /** The success rate lies between 0 and 100 percent, and the number of distinct buyers never
      exceeds the number of successful purchases. */
  lemma KpiBounds(rows: seq<Row>)
    ensures 0.0 <= Kpis(rows)[4].value <= 100.0
    ensures Kpis(rows)[5].value <= Kpis(rows)[0].value
  {
    WalletsAtMostRows(Finalized(rows));
  }

  /** With no successful purchase, the count, volume, revenue, average and buyer cards are all
      0 (`COALESCE(..., 0)` and `or 0`); with no PMN row at all, so is the success rate. */
  lemma EmptyKpis(rows: seq<Row>)
    requires Finalized(rows) == []
    ensures forall i :: i in {0, 1, 2, 3, 5} ==> Kpis(rows)[i].value == 0.0
    ensures PmnRows(rows) == [] ==> Kpis(rows)[4].value == 0.0
  {
    assert Wallets([]) == {};
  }

  /** Query 8: the Rial volume of successful purchases per day within the window. */
  function DailyVolume(rows: seq<Row>, windowStart: Timestamp): seq<SeriesPoint> {
    GroupBy(Since(Finalized(rows), windowStart), Daily, PriceTotal)
  }

  /** Each point of the daily volume is the price sum of that day's purchases in the window,
      over the same days as the daily count. */
  lemma DailyVolumeSeries(rows: seq<Row>, windowStart: Timestamp)
    ensures Dates(DailyVolume(rows, windowStart)) == Dates(DailyCount(rows, windowStart))
    ensures forall i :: 0 <= i < |DailyVolume(rows, windowStart)| ==>
              DailyVolume(rows, windowStart)[i].value
              == Sum(InPeriod(Since(Finalized(rows), windowStart), Daily, DailyVolume(rows, windowStart)[i].date), Price)
  {
    var w := Since(Finalized(rows), windowStart);
    GroupByDates(w, Daily, PriceTotal);
    GroupByDates(w, Daily, RowCount);
    forall i | 0 <= i < |DailyVolume(rows, windowStart)|
      ensures DailyVolume(rows, windowStart)[i].value
              == Sum(InPeriod(w, Daily, DailyVolume(rows, windowStart)[i].date), Price)
    {
      GroupPointAt(w, Daily, PriceTotal, i);
    }
  }

  /** `gateway IS NOT NULL AND gateway != ''` */
  predicate HasGateway(r: Row) {
    r.gateway.Some? && r.gateway.value != ""
  }

  /** Query 11: successful purchases per gateway, with their Rial total, `ORDER BY count DESC`. */
  function ByGateway(rows: seq<Row>): seq<DistributionItem> {
    CountByCategory(Where(Finalized(rows), HasGateway), Gateway, true)
  }

  /** Every item of the gateway distribution names a non-empty gateway and carries that
      gateway's purchase count and Rial total. */
  lemma ByGatewayItems(rows: seq<Row>, it: DistributionItem)
    requires it in ByGateway(rows)
    ensures it.name != ""
    ensures it == ItemFor(it.name, InCategory(Where(Finalized(rows), HasGateway), Gateway, it.name), true)
  {
    CategoryItemsAreGroups(Where(Finalized(rows), HasGateway), Gateway, true, it);
    GatewayNamed(rows, it.name);
  }

  lemma GatewayNamed(rows: seq<Row>, n: string)
    requires exists x :: x in Where(Finalized(rows), HasGateway) && CategoryOf(Gateway, x) == Some(n)
    ensures n != ""
  {
    var x :| x in Where(Finalized(rows), HasGateway) && CategoryOf(Gateway, x) == Some(n);
    assert HasGateway(x);
  }

  /** Each gateway appears once, counts are non-increasing, and they add up to the successful
      purchases that name a gateway. */
  lemma ByGatewayOrder(rows: seq<Row>)
    ensures forall i, j :: 0 <= i < j < |ByGateway(rows)| ==> ByGateway(rows)[i].name != ByGateway(rows)[j].name
    ensures NonIncreasing(ByGateway(rows), ItemValue)
    ensures SumBy(ByGateway(rows), ItemValue) == |Where(Finalized(rows), HasGateway)| as real
  {
    var g := Where(Finalized(rows), HasGateway);
    CategoryNamesDistinct(g, Gateway, true);
    NamesOfNonNull(g, Gateway);
    CategoryCountsSum(g, Gateway, true);
  }


  /** `application IS NOT NULL` (an empty application name stays in). */
  predicate HasApplication(r: Row) {
    r.application.Some?
  }

  /** Query 12: successful purchases per application, `ORDER BY count DESC`. */
  function ByApplication(rows: seq<Row>): seq<DistributionItem> {
    CountByCategory(Where(Finalized(rows), HasApplication), Application, false)
  }

  /** The application distribution names each non-null application once, ordered by count
      non-increasing, and its counts add up to the successful purchases that have one. */
  lemma ByApplicationItems(rows: seq<Row>)
    ensures forall i, j :: 0 <= i < j < |ByApplication(rows)| ==>
              ByApplication(rows)[i].name != ByApplication(rows)[j].name
    ensures NonIncreasing(ByApplication(rows), ItemValue)
    ensures SumBy(ByApplication(rows), ItemValue) == |Where(Finalized(rows), HasApplication)| as real
  {
    var g := Where(Finalized(rows), HasApplication);
    CategoryNamesDistinct(g, Application, false);
    CategoryCountsSum(g, Application, false);
    NamesOfNonNull(g, Application);
  }

  /** Query 13: PMN rows per status, `ORDER BY count DESC`. */
  function StatusDistribution(rows: seq<Row>): seq<DistributionItem> {
    CountByCategory(PmnRows(rows), Status, false)
  }

  /** Every PMN row is counted under its status: the counts add up to the PMN total. */
  lemma StatusDistributionTotal(rows: seq<Row>)
    ensures SumBy(StatusDistribution(rows), ItemValue) == |PmnRows(rows)| as real
    ensures NonIncreasing(StatusDistribution(rows), ItemValue)
  {
    var pmn := PmnRows(rows);
    forall x | x in pmn ensures CategoryOf(Status, x).Some? {
    }
    NamesOfNonNull(pmn, Status);
    CategoryCountsSum(pmn, Status, false);
  }


}
