/** The refund analytics of `pending_refunds`: the KPI cards, the two-way status split, the
    distribution by destination bank; the daily count, monthly trend, rate trend and amount
    histogram are the shared queries of `Queries`. */
module Refunds {
  import opened Wrappers
  import opened Calendar
  import opened Seqs
  import opened Ledger
  import opened Queries

  /** `WHERE status = '1' AND code = 'PMN'`: refunds still waiting to be paid. */
  function Pending(rows: seq<Row>): seq<Row> {
    Where(rows, IsPending)
  }

  /** The cards' Persian captions. */
  const CompletedCaption := "تعداد بازپرداخت‌های تکمیل شده"
  const PendingCaption := "تعداد بازپرداخت‌های در انتظار"
  const SoldCaption := "حجم کل PMN فروخته شده"
  const PayoutCaption := "مجموع پرداختی (ریال)"
  const FeesCaption := "مجموع کارمزد"
  const AverageCaption := "میانگین مقدار بازپرداخت"
  const SellersCaption := "تعداد فروشندگان منحصر به فرد"

  /** The seven KPI cards, in their fixed order. */
  function Kpis(rows: seq<Row>): (ks: seq<Kpi>)
    ensures KeysOf(ks) == ["total_completed", "total_pending", "total_sold", "total_payout",
                           "total_fees", "avg_amount", "unique_sellers"]
  {
    var done := Finalized(rows);
    [ Kpi("total_completed", CompletedCaption, |done| as real, Number),
      Kpi("total_pending", PendingCaption, |Pending(rows)| as real, Number),
      Kpi("total_sold", SoldCaption, Sum(done, Amount), Number),
      Kpi("total_payout", PayoutCaption, IntPart(Sum(done, Price)) as real, Rial),
      Kpi("total_fees", FeesCaption, IntPart(Sum(done, Fee)) as real, Rial),
      Kpi("avg_amount", AverageCaption, Avg(done, Amount), Decimal),
      Kpi("unique_sellers", SellersCaption, |Wallets(done)| as real, Number) ]
  }

  /** Completed and pending refunds are disjoint kinds of PMN refund, so together they are at
      most all PMN refunds; there are no more distinct sellers than completed refunds. */
  lemma KpiBounds(rows: seq<Row>)
    ensures Kpis(rows)[0].value + Kpis(rows)[1].value <= |Where(rows, IsPmn)| as real
    ensures Kpis(rows)[6].value <= Kpis(rows)[0].value
  {
    StatusCountsWithinPmn(rows);
    WalletsAtMostRows(Finalized(rows));
  }

  /** With no completed refund, the completed count, sold volume, payout, fees, average and
      seller cards are all 0 (`COALESCE(..., 0)` and `or 0`). */
  lemma EmptyKpis(rows: seq<Row>)
    requires Finalized(rows) == []
    ensures forall i :: i in {0, 2, 3, 4, 5, 6} ==> Kpis(rows)[i].value == 0.0
  {
    assert Wallets([]) == {};
  }

  const CompletedLabel := "تکمیل شده (پرداخت شده)"
  const PendingLabel := "در انتظار"

  /** `CASE WHEN status = '0' THEN .. WHEN status = '1' THEN .. ELSE status END`. */
  function StatusLabel(status: string): string {
    if status == "0" then CompletedLabel else if status == "1" then PendingLabel else status
  }

  /** `code = 'PMN' AND status IN ('0', '1')` */
  predicate IsSettledOrPending(r: Row) {
    r.code == "PMN" && (r.status == "0" || r.status == "1")
  }

  /** The group of one status, when it has rows: its label and its count. */
  function StatusItem(g: seq<Row>, status: string): seq<DistributionItem> {
    var members := InCategory(g, Status, status);
    if |members| == 0 then [] else [DistributionItem(StatusLabel(status), |members| as real, None, None)]
  }

  /** `... GROUP BY status ORDER BY status` over the PMN refunds with status `'0'` or `'1'`:
      those are the only two groups, and `'0'` sorts before `'1'`. */
  function StatusDistribution(rows: seq<Row>): seq<DistributionItem> {
    var g := Where(rows, IsSettledOrPending);
    StatusItem(g, "0") + StatusItem(g, "1")
  }

  lemma {:induction false} StatusSplit(rows: seq<Row>)
    ensures |InCategory(Where(rows, IsSettledOrPending), Status, "0")| == |Finalized(rows)|
    ensures |InCategory(Where(rows, IsSettledOrPending), Status, "1")| == |Pending(rows)|
  {
    if rows != [] {
      StatusSplit(rows[1..]);
      var rest := Where(rows[1..], IsSettledOrPending);
      if IsSettledOrPending(rows[0]) {
        assert Where(rows, IsSettledOrPending) == [rows[0]] + rest;
        assert ([rows[0]] + rest)[1..] == rest;
      } else {
        assert Where(rows, IsSettledOrPending) == rest;
      }
    }
  }

  /** The status chart has at most two items: the completed refunds, labelled as such, then the
      pending ones; an item is present exactly when its count is non-zero, and each count is the
      matching KPI card's. */
  lemma StatusDistributionItems(rows: seq<Row>)
    ensures |StatusDistribution(rows)| <= 2
    ensures |StatusDistribution(rows)| == (if |Finalized(rows)| > 0 then 1 else 0) + (if |Pending(rows)| > 0 then 1 else 0)
    ensures |Finalized(rows)| > 0 ==>
              StatusDistribution(rows)[0] == DistributionItem(CompletedLabel, |Finalized(rows)| as real, None, None)
    ensures |Pending(rows)| > 0 ==>
              StatusDistribution(rows)[|StatusDistribution(rows)| - 1]
              == DistributionItem(PendingLabel, |Pending(rows)| as real, None, None)
    ensures SumBy(StatusDistribution(rows), ItemValue) == (|Finalized(rows)| + |Pending(rows)|) as real
  {
    StatusSplit(rows);
    var g := Where(rows, IsSettledOrPending);
    SumByConcat(StatusItem(g, "0"), StatusItem(g, "1"), ItemValue);
  }

  /** `destination_bank_name IS NOT NULL AND destination_bank_name != ''` */
  predicate HasBank(r: Row) {
    r.bank.Some? && r.bank.value != ""
  }

  /** Completed refunds per destination bank, with their Rial payout, `ORDER BY count DESC`. */
  function ByBank(rows: seq<Row>): seq<DistributionItem> {
    CountByCategory(Where(Finalized(rows), HasBank), Bank, true)
  }

  /** Every item of the bank distribution names a non-empty bank and carries that bank's
      completed-refund count and Rial payout. */
  lemma ByBankItems(rows: seq<Row>, it: DistributionItem)
    requires it in ByBank(rows)
    ensures it.name != ""
    ensures it == ItemFor(it.name, InCategory(Where(Finalized(rows), HasBank), Bank, it.name), true)
  {
    CategoryItemsAreGroups(Where(Finalized(rows), HasBank), Bank, true, it);
    BankNamed(rows, it.name);
  }

  lemma BankNamed(rows: seq<Row>, n: string)
    requires exists x :: x in Where(Finalized(rows), HasBank) && CategoryOf(Bank, x) == Some(n)
    ensures n != ""
  {
    var x :| x in Where(Finalized(rows), HasBank) && CategoryOf(Bank, x) == Some(n);
    assert HasBank(x);
  }

  /** Each bank appears once, counts are non-increasing, and they add up to the completed
      refunds that name a bank. */
  lemma ByBankOrder(rows: seq<Row>)
    ensures forall i, j :: 0 <= i < j < |ByBank(rows)| ==> ByBank(rows)[i].name != ByBank(rows)[j].name
    ensures NonIncreasing(ByBank(rows), ItemValue)
    ensures SumBy(ByBank(rows), ItemValue) == |Where(Finalized(rows), HasBank)| as real
  {
    var g := Where(Finalized(rows), HasBank);
    CategoryNamesDistinct(g, Bank, true);
    NamesOfNonNull(g, Bank);
    CategoryCountsSum(g, Bank, true);
  }

}
