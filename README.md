# Kuknos analytics: a verified model of the aggregation core

The Kuknos analytics dashboard reports on the purchases of the PMN token (table
`pending_txes`) and on its sales back for Rials (table `pending_refunds`). The backend answers
every chart and KPI card with one SQL aggregate. The frontend shows the numbers in Persian
digits, grouped by three, with a Rial suffix where needed. This project models the part of that
system which is logic:

- `date_utils.dfy`: the date-range filter builder. Two optional `YYYY-MM-DD` bounds become an SQL
  suffix and its parameter map. The end bound is moved one calendar day later, so the half-open
  range includes the whole end day.
- `calendar.dfy`: the Gregorian arithmetic the builder relies on, namely `date.fromisoformat` on
  the strict `YYYY-MM-DD` form and `date + timedelta(days=1)` (month, year and leap-day rollover,
  overflow after 9999-12-31). It also holds timestamps and their comparison with dates.
- `ledger.dfy`: the rows of both tables, as one `Row` datatype, and the SQL building blocks the
  queries share. These are `WHERE` filters, `COALESCE(SUM/AVG(..), 0)`, `COUNT(DISTINCT ..)`,
  `GROUP BY` day or month `ORDER BY` it, `GROUP BY` a text column `ORDER BY count DESC`, and the
  `CASE` bucket histograms `ORDER BY MIN(..)`.
- `queries.dfy`: the queries the purchase and refund services run in the same form: the daily
  count, the monthly trend, the daily average rate and the amount histogram.
- `buys_service.dfy`, `refunds_service.dfy` and `users_service.dfy`: each service query as a pure
  function of the table rows, with lemmas for the partition, bound and ordering facts they
  promise. The users service adds `UNION` / `INTERSECT`, first purchases, top 10, activity buckets,
  monthly actives and the monthly full outer join.
- `formatters.dfy`: `toPersianDigits`, `formatNumber` on integers, `formatRial` and the table of
  Persian month names. The thousands grouping is the JavaScript replace with
  `\B(?=(\d{3})+(?!\d))`, modelled position by position.
- `config.dfy`: `Settings.async_database_url`, the rewrite of the URL scheme for the asyncpg driver.
- `seqs.dfy` and `wrappers.dfy`: generic sequence facts (distinct values, descending sort,
  sums) and `Option` / `Result`.

The clock is a parameter. Every query with `NOW() - INTERVAL '12 months'` takes the instant
`windowStart` instead. Each service function takes the rows of its table (or of both tables)
instead of a database session.

The service files modelled here take no date-range arguments. They run every query over the
whole table, and none of them calls the date-range builder, so the builder is modelled as a
standalone component. The refund KPIs are the seven cards the code returns. A fee or
nearest-price KPI is not computed anywhere in these files, so none is modelled.

`BuildDateFilter` is a method: like the source, it appends to a list of parts and stores into a
parameter map under two tests, then joins. It is proved equal to the declarative case
analysis `FilterFor`, about which the range, error and rollover lemmas are stated. `FormatNumber`
is a method for the same reason: it overwrites `parts[0]` after the split. The rest of the core
is declarative SQL or expression code, and is modelled with functions and lemmas.

## Model

| member | source | states |
|---|---|---|
| DateUtils.BuildDateFilter | backend/app/services/date_utils.py:5-19 | The builder's parts/params accumulation produces exactly the case analysis `FilterFor`. The cases are: no bound gives `""` and an empty map; a start only gives `" AND col >= :start_date"` with the parsed date; an end only gives `" AND col < :end_date"` with the day after; both give the start condition, then `" AND "`, then the end condition; a malformed bound, or an end with no next day, fails. The column defaults to `created_at` |
| DateUtils.FilterFor | backend/app/services/date_utils.py:5-19 | The builder's outcome for each combination of bounds; stated by `DateUtils.FilterIsInclusiveRange`, `DateUtils.FilterErrors`, `DateUtils.NoBoundsNoFilter`, `DateUtils.EmptyStringIsAbsent` and `DateUtils.EndParameterIsNextDay` |
| DateUtils.FilterIsInclusiveRange | backend/app/services/date_utils.py:13-18 | A timestamp satisfies the emitted conditions exactly when its day lies in `[start, end]`: a row on the end day is in and one on the day after is out. A missing bound leaves that side open |
| DateUtils.FilterErrors | backend/app/services/date_utils.py:13-18 | The builder fails if and only if a given bound is not a valid ISO date, or the end bound is 9999-12-31. A bad start is reported before the end is looked at |
| DateUtils.NoBoundsNoFilter | backend/app/services/date_utils.py:11-19 | With neither bound, the suffix is `""`, the map is empty and every row is admitted |
| DateUtils.EmptyStringIsAbsent | backend/app/services/date_utils.py:13-16 | An empty string bound behaves exactly like an absent one (Python truthiness) |
| DateUtils.EndParameterIsNextDay | backend/app/services/date_utils.py:18 | When the filter succeeds with an end bound, `end_date` is bound to the date whose ordinal is one past the given date |
| Calendar.NextDay | backend/app/services/date_utils.py:18 | `d + 1 day` is a valid date strictly after `d`; it exists for every date but 9999-12-31 |
| Calendar.NextDayOrdinal | backend/app/services/date_utils.py:18 | The next day's day count since 0001-01-01 is one more, across month, year and leap-day boundaries |
| Calendar.NextDayIsSuccessor | backend/app/services/date_utils.py:17-18 | A day is before `d + 1` exactly when it is on or before `d`, so nothing lies between `d` and its successor |
| Calendar.YearLength | backend/app/services/date_utils.py:18 | The days before year `y + 1` are those before `y` plus the length of `y` (Gregorian leap rule) |
| Calendar.ParseIsoDate | backend/app/services/date_utils.py:15-18 | `date.fromisoformat`: any parsed date is a valid Gregorian date in years 1 to 9999 |
| Calendar.IsoRoundTrip | backend/app/services/date_utils.py:15-18 | Parsing the `YYYY-MM-DD` text of a valid date gives the date back |
| Calendar.IsoCanonical | backend/app/services/date_utils.py:15-18 | A string that parses is the canonical text of its date, so parsing is injective |
| Calendar.PadDecimal | backend/app/services/date_utils.py:15 | Zero-padding yields exactly `width` ASCII digits |
| Calendar.DecimalOfPad | backend/app/services/date_utils.py:15 | A number below `10^width`, zero-padded to `width`, reads back as itself |
| Calendar.PadOfDecimal | backend/app/services/date_utils.py:15 | A digit string is the zero-padding of its own value to its own length |
| Calendar.MidnightComparison | backend/app/services/date_utils.py:14-17 | Comparing a timestamp with a bound date compares with that date's midnight: `ts >= d` iff its day is on or after `d`, and `ts < d` iff its day is before `d` |
| Calendar.InsertDate | backend/app/services/users_service.py:207-220 | Inserting a month into an ascending list of months keeps it strictly ascending and adds exactly that month |
| Calendar.SortedDistinct | backend/app/services/users_service.py:207-220 | The months of either side of the join, each once, in ascending order |
| Ledger.Where | backend/app/services/buys_service.py:16 | `WHERE p` keeps exactly the rows satisfying `p` |
| Ledger.WhereMultiplicity | backend/app/services/buys_service.py:16 | `WHERE p` keeps each row satisfying `p` as many times as it occurs and drops every other row: a row's multiplicity is kept or zeroed by `p` alone |
| Ledger.StatusCountsWithinPmn | backend/app/services/refunds_service.py:16-22 | Status `'0'` and status `'1'` PMN rows are disjoint, so together they number at most the PMN rows |
| Ledger.Since | backend/app/services/buys_service.py:83 | The window keeps exactly the rows created at or after `windowStart` |
| Ledger.SinceMultiplicity | backend/app/services/buys_service.py:83 | The window keeps each row created at or after `windowStart` with its multiplicity and drops every earlier row |
| Ledger.SumBounds | backend/app/services/buys_service.py:22-28 | A `SUM` lies between the row count times the lowest and times the highest value |
| Ledger.AverageBetween | backend/app/services/buys_service.py:34 | An `AVG` over some rows lies between their lowest and their highest value |
| Ledger.WalletsAtMostRows | backend/app/services/buys_service.py:52 | `COUNT(DISTINCT wallet)` never exceeds `COUNT(*)` over the same rows |
| Ledger.PeriodsOf | backend/app/services/buys_service.py:80-84 | The day or month of each row, in row order |
| Ledger.InPeriod | backend/app/services/buys_service.py:84 | A period's group holds exactly the rows of that day or month |
| Ledger.InPeriodCount | backend/app/services/buys_service.py:80-84 | A period's group has as many rows as rows fall in that period |
| Ledger.InPeriodEmpty | backend/app/services/buys_service.py:84 | A period no row falls in has an empty group |
| Ledger.Points | backend/app/services/buys_service.py:91-94 | The series has one point per key, computed from that key's group |
| Ledger.PeriodKeys | backend/app/services/buys_service.py:84-85 | `GROUP BY` period `ORDER BY` it: the keys are strictly ascending, and a key appears exactly when some row falls in it, with no gap filled |
| Ledger.AscendingNoDup | backend/app/services/buys_service.py:85 | A strictly ascending key list has no repeated key |
| Ledger.GroupByDates | backend/app/services/buys_service.py:84-85 | A grouped series is dated by exactly its period keys |
| Ledger.GroupPointAt | backend/app/services/buys_service.py:80-92 | Point `i` is computed from the rows of its own period, of which there is at least one |
| Ledger.PointCountsSum | backend/app/services/buys_service.py:80 | The `COUNT(*)` points over listed keys add up to the rows in those periods |
| Ledger.GroupCountsSum | backend/app/services/buys_service.py:80-84 | A `COUNT(*)` series' counts add up to the number of rows grouped |
| Ledger.LookupAt | backend/app/services/users_service.py:208-219 | Looking up a point's own month in a series without repeated months finds its value |
| Ledger.LookupMissing | backend/app/services/users_service.py:208-209 | A month missing from a side of the outer join reads as 0 (`COALESCE(.., 0)`) |
| Ledger.GroupedAmountAt | backend/app/services/users_service.py:208-219 | A side's value for any month is the `SUM(amount)` of its rows in that month, 0 when there are none |
| Ledger.Names | backend/app/services/buys_service.py:200-203 | The non-null values of a column: exactly those some row has, at most one per row |
| Ledger.InCategory | backend/app/services/buys_service.py:203 | A category's group holds exactly the rows with that value |
| Ledger.InCategoryCount | backend/app/services/buys_service.py:200-203 | A category's group has as many rows as the column holds that value |
| Ledger.NamesOfNonNull | backend/app/services/buys_service.py:257-260 | When no row has a null value, there are as many values as rows |
| Ledger.Items | backend/app/services/buys_service.py:210-218 | One item per listed name, with that name's count (and Rial total) |
| Ledger.ItemCountsSum | backend/app/services/buys_service.py:200-213 | The items' counts add up to the rows carrying the listed names |
| Ledger.CategoryNamesDistinct | backend/app/services/buys_service.py:203 | `GROUP BY col` lists each value once |
| Ledger.CategoryItemsAreGroups | backend/app/services/buys_service.py:200-218 | Every item names a value some row has, and carries the count (at least 1) and the price total of exactly those rows |
| Ledger.ItemIsGroup | backend/app/services/buys_service.py:200-218 | Item `i` of the unsorted list is the group of name `i` |
| Ledger.CategoryCoversRows | backend/app/services/buys_service.py:203 | Every row with a non-null value is represented by an item of that value |
| Ledger.CategoryCountsSum | backend/app/services/buys_service.py:203-204 | `ORDER BY count DESC`: counts are non-increasing, and they add up to the rows with a non-null value |
| Ledger.Shown | backend/app/services/buys_service.py:294-295 | The non-empty buckets, each once, in ascending bucket order |
| Ledger.BucketItems | backend/app/services/buys_service.py:301-304 | One item per shown bucket, with its label and its count |
| Ledger.BucketCountsSum | backend/app/services/buys_service.py:291 | The shown buckets' counts add up to the rows in those buckets |
| Ledger.HistogramPartition | backend/app/services/buys_service.py:284-295 | Every non-empty bucket appears once with its label and its count, in bucket order; the counts add up to the rows |
| Ledger.AmountBucket | backend/app/services/buys_service.py:284-290 | Each amount falls in exactly one of five buckets with inclusive upper bounds 10, 100, 1000, 10000, and an overflow bucket |
| Ledger.AmountBucketsOrdered | backend/app/services/buys_service.py:295 | A lower bucket only holds smaller amounts, so bucket order is `MIN(amount)` order |
| Ledger.AmountBuckets | backend/app/services/buys_service.py:284-290 | The bucket of each row's amount, in row order |
| Ledger.AmountHistogramSum | backend/app/services/buys_service.py:291-295 | The amount histogram's counts add up to the rows, and no empty bucket is shown |
| Ledger.HistogramItemAt | backend/app/services/buys_service.py:301-304 | Item `i` carries the label of the `i`-th shown bucket |
| Ledger.AmountLabelsDistinct | backend/app/services/buys_service.py:285-289 | The five bucket labels are pairwise different |
| Ledger.AmountHistogramCovers | backend/app/services/buys_service.py:284-294 | Every row is counted under the label of its amount's bucket |
| Ledger.AmountHistogramOrder | backend/app/services/buys_service.py:295 | An earlier item's amounts are all smaller than a later item's (`ORDER BY MIN(amount)`) |
| Ledger.IntPart | backend/app/services/buys_service.py:60 | `int(x)` truncates toward zero |
| Ledger.SumPositive | backend/app/services/buys_service.py:175 | A sum of positive values over some rows is positive |
| Ledger.AveragePositive | backend/app/services/buys_service.py:173-175 | An average of positive values over some rows is positive |
| Ledger.AverageRatePointPositive | backend/app/services/buys_service.py:173-175 | A day's average rate is positive when every row of the day has a positive rate |
| Ledger.MonthlyKeysAreFirsts | backend/app/services/buys_service.py:138-153 | `DATE_TRUNC('month', ..)` keys are the first day of their month |
| Queries.DailyCountSeries | backend/app/services/buys_service.py:78-94 | The daily count has one point per day with a finalized PMN row inside the window and no other, strictly ascending, and the counts add up to those rows |
| Queries.DailyCount | backend/app/services/buys_service.py:75-95 | The daily count of finalized rows over the trailing window, shared by buys and refunds; stated by `Queries.DailyCountSeries` |
| Queries.MonthlyTrendDates | backend/app/services/buys_service.py:135-160 | Months ascend strictly, each point is dated the first of its month, and the monthly counts add up to the finalized rows |
| Queries.MonthlyTrendPoint | backend/app/services/buys_service.py:137-158 | A month's point carries its row count (at least 1), its `SUM(amount)` and its `SUM(price)` |
| Queries.MonthlyTrend | backend/app/services/buys_service.py:132-161 | The monthly count, amount total and price total of finalized rows, shared by buys and refunds; stated by `Queries.MonthlyTrendDates` and `Queries.MonthlyTrendPoint` |
| Queries.RateTrendDates | backend/app/services/refunds_service.py:142-158 | The rate trend has one point per day with a finalized row of positive rate inside the window, ascending |
| Queries.RateTrendPointPositive | backend/app/services/refunds_service.py:144-146 | Every daily average rate is positive, since only `rate > 0` rows are averaged |
| Queries.RateTrend | backend/app/services/refunds_service.py:139-159 | The daily average of positive rates of finalized rows, shared by buys and refunds; stated by `Queries.RateTrendDates` and `Queries.RateTrendPointPositive` |
| Queries.AmountDistributionTotal | backend/app/services/refunds_service.py:236-248 | The amount buckets partition the finalized rows, and only non-empty buckets appear |
| Queries.AmountDistribution | backend/app/services/buys_service.py:278-305 | The amount histogram of finalized rows, shared by buys and refunds; stated by `Queries.AmountDistributionTotal` and `Ledger.AmountHistogramOrder` |
| Buys.SuccessRateHundredths | backend/app/services/buys_service.py:39-48 | The success rate in hundredths of a percent is 0 with no PMN row (`NULLIF` then `or 0`). Otherwise it is within half a hundredth of `100 * succeeded / all`, rounding half up. It always lies in [0, 100.00] |
| Buys.RoundingBounds | backend/app/services/buys_service.py:41-42 | `ROUND(.., 2)` of a ratio of counts lands within half a unit of the exact value and between 0 and 10000 |
| Buys.Kpis | backend/app/services/buys_service.py:56-65 | Six cards, keyed `total_buys`, `total_volume`, `total_revenue`, `avg_amount`, `success_rate`, `unique_buyers`, in that order |
| Buys.KpiBounds | backend/app/services/buys_service.py:16-52 | The success rate card lies in [0, 100], and unique buyers never exceed successful purchases |
| Buys.EmptyKpis | backend/app/services/buys_service.py:18-54 | With no successful purchase every card but the success rate is 0; with no PMN row at all, so is the success rate |
| Buys.DailyVolumeSeries | backend/app/services/buys_service.py:108-124 | The daily volume covers the same days as the daily count; each point is the day's `SUM(price)` |
| Buys.DailyVolume | backend/app/services/buys_service.py:105-125 | The daily `COALESCE(SUM(price), 0)` of successful purchases over the window; stated by `Buys.DailyVolumeSeries` |
| Buys.ByGatewayItems | backend/app/services/buys_service.py:198-218 | Every gateway item names a non-empty gateway and carries that gateway's purchase count and Rial total |
| Buys.GatewayNamed | backend/app/services/buys_service.py:202 | A gateway that some counted purchase has is not empty (`gateway != ''`) |
| Buys.ByGatewayOrder | backend/app/services/buys_service.py:200-204 | Gateways appear once each, counts are non-increasing, and they add up to the successful purchases with a gateway |
| Buys.ByGateway | backend/app/services/buys_service.py:195-219 | Purchase counts per non-empty gateway, largest first; stated by `Buys.ByGatewayItems` and `Buys.ByGatewayOrder` |
| Buys.ByApplicationItems | backend/app/services/buys_service.py:229-245 | Applications appear once each, counts are non-increasing, and they add up to the successful purchases with a non-null application |
| Buys.ByApplication | backend/app/services/buys_service.py:226-245 | Purchase counts per application, largest first; stated by `Buys.ByApplicationItems` |
| Buys.StatusDistributionTotal | backend/app/services/buys_service.py:255-270 | Every PMN row is counted under its status: the counts add up to the PMN rows and are non-increasing |
| Buys.StatusDistribution | backend/app/services/buys_service.py:252-271 | PMN purchase counts per status; stated by `Buys.StatusDistributionTotal` |
| Refunds.Kpis | backend/app/services/refunds_service.py:56-66 | Seven cards, keyed `total_completed`, `total_pending`, `total_sold`, `total_payout`, `total_fees`, `avg_amount`, `unique_sellers`, in that order |
| Refunds.KpiBounds | backend/app/services/refunds_service.py:16-52 | Completed plus pending is at most all PMN refunds; unique sellers never exceed completed refunds |
| Refunds.EmptyKpis | backend/app/services/refunds_service.py:18-54 | With no completed refund the completed, sold, payout, fees, average and seller cards are 0 |
| Refunds.StatusSplit | backend/app/services/refunds_service.py:180-181 | Among the PMN refunds with status `'0'` or `'1'`, the `'0'` group is the completed refunds and the `'1'` group the pending ones |
| Refunds.StatusDistributionItems | backend/app/services/refunds_service.py:171-191 | At most two items. The completed item comes first, labelled as completed, and the pending item last, labelled as pending. Each is present exactly when its count is non-zero, each count equals the matching KPI card, and they add up to completed plus pending |
| Refunds.StatusDistribution | backend/app/services/refunds_service.py:166-192 | Completed and pending refund counts, labelled; stated by `Refunds.StatusSplit` and `Refunds.StatusDistributionItems` |
| Refunds.ByBankItems | backend/app/services/refunds_service.py:203-223 | Every bank item names a non-empty bank and carries that bank's refund count and payout total |
| Refunds.BankNamed | backend/app/services/refunds_service.py:207 | A bank that some counted refund has is not empty |
| Refunds.ByBankOrder | backend/app/services/refunds_service.py:204-209 | Banks appear once each, counts are non-increasing, and they add up to the completed refunds with a bank |
| Refunds.ByBank | backend/app/services/refunds_service.py:199-224 | Refund counts per non-empty bank, largest first; stated by `Refunds.ByBankItems` and `Refunds.ByBankOrder` |
| Users.Kpis | backend/app/services/users_service.py:38-43 | Two cards, keyed `total_users` and `both_side_users` |
| Users.KpiBounds | backend/app/services/users_service.py:16-36 | Both-side users are at most the buyers, at most the sellers and at most the total users; total plus both-side equals buyers plus sellers (inclusion-exclusion), empty sets included |
| Users.WalletKeysCount | backend/app/services/users_service.py:60-63 | `GROUP BY public_key` lists each buyer once and only buyers |
| Users.WalletRowsNonEmpty | backend/app/services/users_service.py:60-63 | Every listed wallet has at least one row |
| Users.WalletKeysNonEmpty | backend/app/services/users_service.py:60-63 | Every listed wallet's group is non-empty |
| Users.Earliest | backend/app/services/users_service.py:60 | `MIN(created_at)` is the timestamp of one of the group's rows, and no row of the group is earlier |
| Users.FirstPurchasesCount | backend/app/services/users_service.py:60-63 | There are exactly as many first purchases as distinct buyers |
| Users.FirstPurchaseOwner | backend/app/services/users_service.py:60-63 | The `i`-th first purchase is a finalized purchase of the `i`-th buyer |
| Users.FirstPurchaseEarliest | backend/app/services/users_service.py:60 | None of a buyer's finalized purchases is earlier than their first purchase |
| Users.FirstPurchasesDistinct | backend/app/services/users_service.py:63 | No two first purchases belong to the same buyer |
| Users.NewPerMonthSeries | backend/app/services/users_service.py:57-67 | Each buyer is counted once, in the month of the first purchase: the monthly counts add up to the distinct buyers, months ascend, and each count is the first purchases of that month |
| Users.NewPerMonth | backend/app/services/users_service.py:53-76 | New buyers per month of their first purchase; stated by `Users.NewPerMonthSeries` and `Users.FirstPurchasesCount` |
| Users.WalletTotals | backend/app/services/users_service.py:88-91 | Each listed wallet with its `SUM(amount)` and `COUNT(*)` |
| Users.RankedWallets | backend/app/services/users_service.py:83-103 | Every wallet with its total, largest total first; stated by `Users.RankedWalletsAreWallets` |
| Users.RankedWalletsAreWallets | backend/app/services/users_service.py:88-92 | One entry per distinct wallet, each wallet once, each with exactly its own totals |
| Users.TopWalletsTable | backend/app/services/users_service.py:87-121 | The top table has `min(10, distinct wallets)` entries. Each wallet appears at most once, totals are non-increasing, and each entry is a real wallet with its own totals and at least one transaction |
| Users.TopWalletsCutoff | backend/app/services/users_service.py:92-93 | A wallet left out of the top table only happens when the table is full, and its total is at most the tenth entry's |
| Users.TopWallets | backend/app/services/users_service.py:83-130 | The first ten ranked wallets, for buyers and for sellers; stated by `Users.TopWalletsTable` and `Users.TopWalletsCutoff` |
| Users.ActivityBucket | backend/app/services/users_service.py:143-149 | A transaction count falls in exactly one bucket: 1, 2-5, 6-20, 21-100, or any other count (more than 100) |
| Users.ActivityBucketsOrdered | backend/app/services/users_service.py:158 | A lower activity bucket only holds smaller counts (`ORDER BY MIN(tx_count)`) |
| Users.ActivityLabelsDistinct | backend/app/services/users_service.py:144-148 | The five activity labels are pairwise different |
| Users.ActivityBuckets | backend/app/services/users_service.py:152-156 | The bucket of each buyer's transaction count |
| Users.ActivityDistributionTotal | backend/app/services/users_service.py:141-158 | Every buyer is in exactly one bucket: the counts add up to the distinct buyers, and no empty bucket is shown |
| Users.ActivityDistributionOrder | backend/app/services/users_service.py:158 | An earlier item's transaction counts are all smaller than a later item's |
| Users.ActivityDistribution | backend/app/services/users_service.py:137-168 | Buyers per activity bucket, in bucket order; stated by `Users.ActivityDistributionTotal` and `Users.ActivityDistributionOrder` |
| Users.MonthlyActivePoint | backend/app/services/users_service.py:179-185 | A month's active users are the distinct wallets among its finalized purchases: at least one, and at most the month's purchases |
| Users.ActiveBounds | backend/app/services/users_service.py:180 | Over some rows, the distinct wallets number at least one and at most the rows |
| Users.WalletsNonEmpty | backend/app/services/users_service.py:180 | Some rows have at least one distinct wallet |
| Users.MonthlyActive | backend/app/services/users_service.py:175-194 | Distinct active wallets per month; stated by `Users.MonthlyActivePoint` |
| Users.JoinAt | backend/app/services/users_service.py:206-219 | One row per joined month, with each side's value for it, or 0 |
| Users.BuySellComparisonRows | backend/app/services/users_service.py:205-230 | One row per month in which either side has a finalized row, months strictly ascending. Each row carries that month's purchased and sold `SUM(amount)`; a side with nothing that month reports 0 |
| Users.BuySellComparison | backend/app/services/users_service.py:201-234 | Monthly buy and sell volumes joined by month; stated by `Users.BuySellComparisonRows` |
| Formatters.ToPersianDigits | frontend/src/utils/formatters.js:6-9 | Same length; every character mapped in place as above |
| Formatters.PersianDigitsMatchTable | frontend/src/utils/formatters.js:6-8 | An ASCII digit becomes the entry of the `persianDigits` table at its value, and the table lists the ten Persian digits in order of value |
| Formatters.ToPersianDigitsIdempotent | frontend/src/utils/formatters.js:7-8 | The output has no ASCII digit, so transliterating twice equals transliterating once |
| Formatters.LatinDigits | frontend/src/utils/formatters.js:8 | The reverse mapping, character by character |
| Formatters.LatinOfPersian | frontend/src/utils/formatters.js:6-9 | On text with no Persian digits of its own, reading the digits back undoes the transliteration |
| Formatters.DecimalString | frontend/src/utils/formatters.js:16 | The numeral of a natural number: ASCII digits only, denoting the number, no leading zero |
| Formatters.FixedStringValue | frontend/src/utils/formatters.js:16 | `toFixed(0)` of an integer has no decimal point, starts with `-` exactly for a negative number, has only digits otherwise, and reads back as the integer |
| Formatters.Split | frontend/src/utils/formatters.js:16 | `split` yields at least one piece, none containing the separator |
| Formatters.SplitJoin | frontend/src/utils/formatters.js:16-18 | Joining the pieces with the separator gives the string back; text without it is one piece |
| Formatters.DigitRun | frontend/src/utils/formatters.js:17 | The run of digits ahead stays within the string |
| Formatters.Strip | frontend/src/utils/formatters.js:17 | Removing the separators leaves none |
| Formatters.StripConcat | frontend/src/utils/formatters.js:17 | Removing separators distributes over concatenation |
| Formatters.DigitRunAll | frontend/src/utils/formatters.js:17 | In an all-digit string the run from `i` is the rest of the string |
| Formatters.SeparatorInDigits | frontend/src/utils/formatters.js:17 | In a digit string, after the first digit, a match is exactly where a positive multiple of three digits remains |
| Formatters.GroupedLength | frontend/src/utils/formatters.js:17 | Digits grouped by three take `m + m / 3` characters |
| Formatters.PatternExtend | frontend/src/utils/formatters.js:17 | Prepending a digit, with a separator before it when it opens a new group, keeps the grouping pattern |
| Formatters.SeparatedLength | frontend/src/utils/formatters.js:17 | The replaced text from a digit on has one separator per whole group of three after it |
| Formatters.SeparatedPattern | frontend/src/utils/formatters.js:17 | Reading from the right, the separators of the replaced text are exactly at positions 3, 7, 11, ... |
| Formatters.StripMark | frontend/src/utils/formatters.js:17 | What the replace inserts at a position is nothing but separators |
| Formatters.SeparatedStrip | frontend/src/utils/formatters.js:17 | The replace only inserts separators: removing them gives the text back |
| Formatters.GroupDigits | frontend/src/utils/formatters.js:17 | Grouping a numeral never puts a separator in front, puts one before every group of three digits counted from the right, has length `n + (n - 1) / 3`, and strips back to the digits |
| Formatters.SignedSuffix | frontend/src/utils/formatters.js:17 | After a leading `-`, which is not a word character, the digits are grouped as they would be alone |
| Formatters.SignedRun | frontend/src/utils/formatters.js:17 | A leading `-` does not change the digit runs behind it |
| Formatters.GroupNegative | frontend/src/utils/formatters.js:16-17 | Grouping a negative numeral keeps the `-` in front of the grouped digits |
| Formatters.FormatNumber | frontend/src/utils/formatters.js:14-19 | The split, in-place overwrite of `parts[0]` and join compute `FormattedNumber`: `"۰"` for null, otherwise the grouped numeral in Persian digits |
| Formatters.FormatNullIsZero | frontend/src/utils/formatters.js:15 | `formatNumber(null)` is the Persian zero `"۰"` |
| Formatters.FormattedNumberShape | frontend/src/utils/formatters.js:16-18 | A formatted integer is its sign, then the Persian digits of its magnitude with a separator before every group of three counted from the right, never at the front |
| Formatters.FormattedSign | frontend/src/utils/formatters.js:16-18 | The minus sign stays in front of the grouped magnitude |
| Formatters.PersianGroups | frontend/src/utils/formatters.js:17-18 | Transliterating a grouped numeral keeps the separators in place and makes every other character a Persian digit |
| Formatters.StripDigits | frontend/src/utils/formatters.js:17 | In a grouped digit string everything but the separators is a digit |
| Formatters.StripKeeps | frontend/src/utils/formatters.js:17 | Removing separators keeps every other character |
| Formatters.FormatNumberRoundTrip | frontend/src/utils/formatters.js:16-18 | Removing the separators and reading the digits back gives the `toFixed(0)` numeral, and so the integer itself |
| Formatters.FormattedNumber | frontend/src/utils/formatters.js:14-19 | `formatNumber` on an integer: sign, Persian digits, Persian thousands separators; stated by `Formatters.FormattedNumberShape`, `Formatters.FormattedSign` and `Formatters.FormatNumberRoundTrip` |
| Formatters.GroupedStrip | frontend/src/utils/formatters.js:16-17 | Grouping a `toFixed(0)` numeral inserts nothing but separators |
| Formatters.NoPersianDigits | frontend/src/utils/formatters.js:16 | A numeral of `-` and ASCII digits has no Persian digit |
| Formatters.StripPersian | frontend/src/utils/formatters.js:17-18 | Transliteration neither creates nor removes separators |
| Formatters.RialIsNumberAndSuffix | frontend/src/utils/formatters.js:24-27 | `formatRial(x)` is `formatNumber(x)` followed by `" ریال"`, for null as well |
| Formatters.FormatRial | frontend/src/utils/formatters.js:24-27 | The formatted number with the rial suffix; stated by `Formatters.RialIsNumberAndSuffix` |
| Formatters.MonthNamesDistinct | frontend/src/utils/formatters.js:58-70 | The table has twelve names; the lookup at `jm - 1` is defined for every month 1 to 12, and distinct months get distinct names |
| Formatters.MonthName | frontend/src/utils/formatters.js:58-70 | The Persian name of month `jm`; stated by `Formatters.MonthNamesDistinct` |
| Config.Settings.AsyncDatabaseUrl | backend/app/config.py:17-22 | A URL starting with `postgresql://` becomes `postgresql+asyncpg://` followed by the unchanged rest; any other URL is returned as it is |
| Config.AsyncUrlIdempotent | backend/app/config.py:20-22 | The rewritten URL no longer starts with `postgresql://`, so rewriting twice equals rewriting once |
| Config.AsyncUrlLength | backend/app/config.py:20-22 | The URL grows by exactly 8 characters when, and only when, it had the `postgresql://` scheme |
| Config.FromEnvironment | backend/app/config.py:5-10 | `Settings()`: the required URL from the environment, host `0.0.0.0` and port 8000 by default; stated by `Config.FromEnvironmentDriver` |
| Config.FromEnvironmentDriver | backend/app/config.py:8-22 | Freshly loaded settings give the engine the asyncpg scheme exactly when the environment's URL has either PostgreSQL scheme; host and port are the defaults `0.0.0.0` and 8000 |
| Seqs.Dedup | backend/app/services/buys_service.py:52-203 | `DISTINCT`: no duplicates, and the same elements as the input |
| Seqs.NoDupSize | backend/app/services/users_service.py:17 | A sequence without duplicates has as many elements as its set |
| Seqs.SumMultAll | backend/app/services/buys_service.py:203 | Counting each distinct key once counts every element exactly once |
| Seqs.SortDesc | backend/app/services/buys_service.py:204 | `ORDER BY .. DESC`: a permutation of the input, non-increasing in the measure |
| Seqs.SumBySorted | backend/app/services/buys_service.py:204 | Sorting does not change a sum |
| Seqs.PermutationKeysDistinct | backend/app/services/buys_service.py:203-204 | Sorting keeps distinct keys distinct |

## Left out

- The database session, engine and connection pool, the logging, and the `try/except` that
  turns any database error into HTTP 503: these are I/O and framework glue. Each query is a
  total function of the rows.
- `NOW()`: the 12-month window start is a parameter, `windowStart`, instead of a clock reading.
- The routers and the app setup: they only dispatch to the services.
- Config.FromEnvironment: always fixes host `0.0.0.0` and port 8000, so overriding them
  through `BACKEND_HOST` or `BACKEND_PORT` is not modelled; the cached settings singleton
  (`get_settings` with `lru_cache`) and the reading of `.env` are left out as I/O. Only the
  defaults, the required URL and its rewrite are modelled.
- `float()` / `int()` on results: money and amounts are `real`. `int()` is modelled as
  truncation (`IntPart`) where the KPI cards apply it. The success rate's `float()` of an exact
  hundredth is taken as exact.
- NULL values in numeric columns: `amount`, `price`, `fee_price` and the rates are never NULL in
  the model. Only the text columns the queries test for NULL (`gateway`, `application`,
  `destination_bank_name`) are optional.
- Formatters.FormatNumber: only integer inputs. The rounding of `toFixed(0)` on fractions,
  exponent notation for magnitudes of `1e21` and above, and the precision loss above `2^53`
  are floating point.
- The rest of the formatter module: `formatPercent`, `formatDecimal` and the Jalali conversions
  (`toJalali`, `toJalaliShort`, `toJalaliMonth`, `getPersianMonth`). The first two are
  floating-point `toFixed(2)`; the others depend on the `jalaali-js` library, which is not part
  of this model. Only the month-name lookup they share with `persianMonths` is modelled.
- Calendar.ParseIsoDate: the strict `YYYY-MM-DD` form only. It does not accept the extra ISO 8601
  forms newer Python versions take (`YYYYMMDD`, week dates).
- Ties in `ORDER BY count DESC` and `ORDER BY total_amount DESC`: SQL leaves their order open.
  The model breaks them in one fixed way, and no property depends on it.
- Grouping by month uses the calendar month of the stored timestamp. Time zones are not modelled.
- The React pages and components, the API client and the chart defaults: UI and network.
- The Persian captions are constants copied from the source and carry no behaviour.
