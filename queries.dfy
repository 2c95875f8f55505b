/** The queries the purchase and the refund services both run, word for word, on their own
    table: the daily count and the monthly trend of finalized rows, the daily positive-rate
    average and the amount histogram. `windowStart` is the instant
    `NOW() - INTERVAL '12 months'`. */
module Queries {
  import opened Wrappers
  import opened Calendar
  import opened Seqs
  import opened Ledger

  /** `WHERE status = '0' AND code = 'PMN'`: finalized purchases, completed refunds. */
  function Finalized(rows: seq<Row>): seq<Row> {
    Where(rows, IsFinalized)
  }

  /** `SELECT DATE(created_at) AS day, COUNT(*) ... WHERE status = '0' AND code = 'PMN' AND
      created_at >= NOW() - INTERVAL '12 months' GROUP BY DATE(created_at) ORDER BY day`. */
  function DailyCount(rows: seq<Row>, windowStart: Timestamp): seq<SeriesPoint> {
    GroupBy(Since(Finalized(rows), windowStart), Daily, RowCount)
  }

  /** The daily series has one point per day on which a finalized row falls inside the
      window, and no other, strictly ascending with no gap filled; its counts add up to the
      number of such rows. */
  lemma DailyCountSeries(rows: seq<Row>, windowStart: Timestamp)
    ensures StrictlyAscending(Dates(DailyCount(rows, windowStart)))
    ensures forall d :: d in Dates(DailyCount(rows, windowStart)) <==>
              exists x :: x in rows && IsFinalized(x) && !TsBefore(x.created, windowStart) && x.created.date == d
    ensures SumBy(DailyCount(rows, windowStart), PointValue) == |Since(Finalized(rows), windowStart)| as real
  {
    var w := Since(Finalized(rows), windowStart);
    GroupByDates(w, Daily, RowCount);
    GroupCountsSum(w, Daily);
  }

  /** Per month (`DATE_TRUNC('month', created_at)`), the count, the amount total and the Rial
      total of the finalized rows, `ORDER BY month`. */
  function MonthlyTrend(rows: seq<Row>): seq<SeriesPoint> {
    GroupBy(Finalized(rows), Monthly, Trend)
  }

  /** Months ascend and each monthly point is dated the first of its month; the monthly counts
      add up to the number of finalized rows. */
  lemma MonthlyTrendDates(rows: seq<Row>)
    ensures StrictlyAscending(Dates(MonthlyTrend(rows)))
    ensures forall i :: 0 <= i < |MonthlyTrend(rows)| ==> MonthlyTrend(rows)[i].date.day == 1
    ensures SumBy(GroupBy(Finalized(rows), Monthly, RowCount), PointValue) == |Finalized(rows)| as real
  {
    var ok := Finalized(rows);
    GroupByDates(ok, Monthly, Trend);
    MonthlyKeysAreFirsts(ok);
    GroupCountsSum(ok, Monthly);
  }

  /** A monthly point's value and `count` are its month's row count (at least one), with the
      month's amount and Rial totals beside them. */
  lemma MonthlyTrendPoint(rows: seq<Row>, i: int)
    requires 0 <= i < |MonthlyTrend(rows)|
    ensures var pt := MonthlyTrend(rows)[i];
            var g := InPeriod(Finalized(rows), Monthly, pt.date);
            && pt.value == |g| as real && pt.value >= 1.0 && pt.count == Some(|g|)
            && pt.totalAmount == Some(Sum(g, Amount)) && pt.totalRials == Some(Sum(g, Price))
  {
    var ok := Finalized(rows);
    GroupPointAt(ok, Monthly, Trend, i);
    var pt := MonthlyTrend(rows)[i];
    assert pt == PointFor(Trend, pt.date, InPeriod(ok, Monthly, pt.date));
  }

  /** `exchange_rate > 0` / `refund_rate > 0` */
  predicate HasRate(r: Row) {
    r.rate > 0.0
  }

  /** The daily average rate of the finalized rows with a positive rate, within the window,
      `ORDER BY day`. */
  function RateTrend(rows: seq<Row>, windowStart: Timestamp): seq<SeriesPoint> {
    GroupBy(Since(Where(Finalized(rows), HasRate), windowStart), Daily, AverageRate)
  }

  /** Days ascend in the rate trend, and a day appears exactly when a finalized row with a
      positive rate falls on it inside the window. */
  lemma RateTrendDates(rows: seq<Row>, windowStart: Timestamp)
    ensures StrictlyAscending(Dates(RateTrend(rows, windowStart)))
    ensures forall d :: d in Dates(RateTrend(rows, windowStart)) <==>
              exists x :: x in rows && IsFinalized(x) && HasRate(x) && !TsBefore(x.created, windowStart) && x.created.date == d
  {
    GroupByDates(Since(Where(Finalized(rows), HasRate), windowStart), Daily, AverageRate);
  }

  /** Only rows with a positive rate are averaged, so every point's average is positive. */
  lemma RateTrendPointPositive(rows: seq<Row>, windowStart: Timestamp, i: int)
    requires 0 <= i < |RateTrend(rows, windowStart)|
    ensures RateTrend(rows, windowStart)[i].value > 0.0
  {
    var positive := Where(Finalized(rows), HasRate);
    var w := Since(positive, windowStart);
    GroupPointAt(w, Daily, AverageRate, i);
    var k := PeriodKeys(w, Daily)[i];
    var g := InPeriod(w, Daily, k);
    forall x | x in g ensures x.rate > 0.0 {
      assert x in w;
      assert x in positive;
    }
    AverageRatePointPositive(k, g);
  }

  /** The amount histogram of the finalized rows. */
  function AmountDistribution(rows: seq<Row>): seq<DistributionItem> {
    AmountHistogram(Finalized(rows))
  }

  /** The amount buckets partition the finalized rows. */
  lemma AmountDistributionTotal(rows: seq<Row>)
    ensures SumBy(AmountDistribution(rows), ItemValue) == |Finalized(rows)| as real
    ensures forall it :: it in AmountDistribution(rows) ==> it.value >= 1.0
  {
    AmountHistogramSum(Finalized(rows));
  }}
