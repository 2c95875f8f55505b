/** Proleptic Gregorian dates as Python's `datetime.date` and PostgreSQL's `DATE` see them:
    validity, leap years, the ISO `YYYY-MM-DD` text form, `date + timedelta(days=1)`,
    the day ordinal, and timestamps compared against midnight of a date. */
module Calendar {
  import opened Wrappers

  const MinYear := 1
  const MaxYear := 9999

  datatype Date = Date(year: int, month: int, day: int)

  predicate IsLeapYear(y: int) {
    y % 4 == 0 && (y % 100 != 0 || y % 400 == 0)
  }

  function DaysInMonth(y: int, m: int): int
    requires 1 <= m <= 12
  {
    if m == 2 then (if IsLeapYear(y) then 29 else 28)
    else if m == 4 || m == 6 || m == 9 || m == 11 then 30
    else 31
  }

  function DaysInYear(y: int): int {
    if IsLeapYear(y) then 366 else 365
  }

  /** A date Python's `date` constructor accepts: year 1..9999, a real month, a real day of it. */
  predicate ValidDate(d: Date) {
    MinYear <= d.year <= MaxYear && 1 <= d.month <= 12 && 1 <= d.day <= DaysInMonth(d.year, d.month)
  }

  /** Chronological order of dates (year, then month, then day). */
  predicate Before(a: Date, b: Date) {
    a.year < b.year || (a.year == b.year && (a.month < b.month || (a.month == b.month && a.day < b.day)))
  }

  predicate AtOrBefore(a: Date, b: Date) {
    !Before(b, a)
  }

  /** The last date Python can represent; adding a day to it raises `OverflowError`. */
  const LastDate := Date(MaxYear, 12, 31)

  /** `d + timedelta(days=1)`, rolling over the month and the year; `None` where Python overflows. */
  function NextDay(d: Date): (r: Option<Date>)
    requires ValidDate(d)
    ensures r.Some? <==> d != LastDate
    ensures r.Some? ==> ValidDate(r.value) && Before(d, r.value)
  {
    if d.day < DaysInMonth(d.year, d.month) then Some(Date(d.year, d.month, d.day + 1))
    else if d.month < 12 then Some(Date(d.year, d.month + 1, 1))
    else if d.year < MaxYear then Some(Date(d.year + 1, 1, 1))
    else None
  }

  // ---------------------------------------------------------------------------------------
  // Day ordinal (Python's `date.toordinal`: 0001-01-01 is day 1)

  function DaysBeforeYear(y: int): int
    requires y >= 1
  {
    var p := y - 1;
    365 * p + p / 4 - p / 100 + p / 400
  }

  function DaysBeforeMonth(y: int, m: int): int
    requires 1 <= m <= 12
  {
    [0, 31, 59, 90, 120, 151, 181, 212, 243, 273, 304, 334][m - 1] + (if m > 2 && IsLeapYear(y) then 1 else 0)
  }

  function Ordinal(d: Date): int
    requires ValidDate(d)
  {
    DaysBeforeYear(d.year) + DaysBeforeMonth(d.year, d.month) + d.day
  }

  lemma YearLength(y: int)
    requires y >= 1
    ensures DaysBeforeYear(y + 1) == DaysBeforeYear(y) + DaysInYear(y)
  {
    var p := y - 1;
    DivStep(p, 4);
    DivStep(p, 100);
    DivStep(p, 400);
  }

  /** Counting one more year adds one multiple of `k` exactly when that year is one, for the
      divisors of the leap-year rule. */
  lemma DivStep(p: int, k: int)
    requires p >= 0 && (k == 4 || k == 100 || k == 400)
    ensures (p + 1) / k == p / k + (if (p + 1) % k == 0 then 1 else 0)
  {
    if k == 4 {
      assert p == 4 * (p / 4) + p % 4;
    } else if k == 100 {
      assert p == 100 * (p / 100) + p % 100;
    } else {
      assert p == 400 * (p / 400) + p % 400;
    }
  }

  /** Adding one day moves exactly one day forward, across month ends, year ends and 29 February. */
  lemma {:induction false} NextDayOrdinal(d: Date)
    requires ValidDate(d) && d != LastDate
    ensures Ordinal(NextDay(d).value) == Ordinal(d) + 1
  {
    if d.day == DaysInMonth(d.year, d.month) && d.month == 12 {
      YearLength(d.year);
    }
  }

  /** Nothing lies strictly between a date and the next one: a valid date is before `d + 1 day`
      exactly when it is on or before `d`. This is what makes `col < :end_date` with
      `end_date = end + 1 day` an inclusive bound on `end`. */
  lemma NextDayIsSuccessor(d: Date, t: Date)
    requires ValidDate(d) && ValidDate(t) && d != LastDate
    ensures Before(t, NextDay(d).value) <==> AtOrBefore(t, d)
  {
  }

  /** Worked examples of the rollover, as documentation of `NextDay`. */
  lemma NextDayExamples()
    ensures NextDay(Date(2023, 12, 31)) == Some(Date(2024, 1, 1))
    ensures NextDay(Date(2024, 2, 28)) == Some(Date(2024, 2, 29))
    ensures NextDay(Date(2024, 2, 29)) == Some(Date(2024, 3, 1))
    ensures NextDay(Date(2023, 2, 28)) == Some(Date(2023, 3, 1))
    ensures NextDay(Date(1900, 2, 28)) == Some(Date(1900, 3, 1))
    ensures NextDay(LastDate) == None
  {
  }

  // ---------------------------------------------------------------------------------------
  // Decimal digits

  predicate IsDigit(c: char) {
    '0' <= c <= '9'
  }

  predicate AllDigits(s: string) {
    forall i :: 0 <= i < |s| ==> IsDigit(s[i])
  }

  function DigitChar(n: int): char
    requires 0 <= n < 10
  {
    ('0' as int + n) as char
  }

  /** The number a string of ASCII digits denotes. */
  function DecimalValue(s: string): nat
    requires AllDigits(s)
  {
    if s == [] then 0 else DecimalValue(s[..|s| - 1]) * 10 + (s[|s| - 1] as int - '0' as int)
  }

  function Pow10(w: nat): nat {
    if w == 0 then 1 else 10 * Pow10(w - 1)
  }

  /** `n` written with exactly `width` digits, zero-padded on the left (`%0*d`). */
  function PadDecimal(n: nat, width: nat): (s: string)
    ensures |s| == width && AllDigits(s)
  {
    if width == 0 then "" else PadDecimal(n / 10, width - 1) + [DigitChar(n % 10)]
  }

  lemma {:induction false} DecimalOfPad(n: nat, width: nat)
    requires n < Pow10(width)
    ensures DecimalValue(PadDecimal(n, width)) == n
  {
    if width > 0 {
      var s := PadDecimal(n, width);
      assert s[..|s| - 1] == PadDecimal(n / 10, width - 1);
      DecimalOfPad(n / 10, width - 1);
    }
  }

  lemma {:induction false} PadOfDecimal(s: string)
    requires AllDigits(s)
    ensures PadDecimal(DecimalValue(s), |s|) == s
  {
    if s != [] {
      var init := s[..|s| - 1];
      assert AllDigits(init);
      PadOfDecimal(init);
      var v := DecimalValue(s);
      assert v / 10 == DecimalValue(init) && v % 10 == s[|s| - 1] as int - '0' as int;
      assert s == init + [s[|s| - 1]];
    }
  }

  // ---------------------------------------------------------------------------------------
  // ISO text form

  /** `str(d)` / `d.isoformat()`: `YYYY-MM-DD`. */
  function IsoFormat(d: Date): string
    requires ValidDate(d)
  {
    PadDecimal(d.year, 4) + "-" + PadDecimal(d.month, 2) + "-" + PadDecimal(d.day, 2)
  }

  /** `date.fromisoformat(s)` on the `YYYY-MM-DD` form: ten characters, ASCII digits around two
      dashes, and a date the calendar has; `None` where Python raises `ValueError`. */
  function ParseIsoDate(s: string): (r: Option<Date>)
    ensures r.Some? ==> ValidDate(r.value)
  {
    if |s| == 10 && s[4] == '-' && s[7] == '-'
       && AllDigits(s[..4]) && AllDigits(s[5..7]) && AllDigits(s[8..])
    then
      var d := Date(DecimalValue(s[..4]), DecimalValue(s[5..7]), DecimalValue(s[8..]));
      if ValidDate(d) then Some(d) else None
    else None
  }

  /** Parsing the printed form of a date gives the date back. */
  lemma IsoRoundTrip(d: Date)
    requires ValidDate(d)
    ensures ParseIsoDate(IsoFormat(d)) == Some(d)
  {
    var y, m, dd := PadDecimal(d.year, 4), PadDecimal(d.month, 2), PadDecimal(d.day, 2);
    var s := IsoFormat(d);
    assert s[..4] == y && s[5..7] == m && s[8..] == dd;
    DecimalOfPad(d.year, 4);
    DecimalOfPad(d.month, 2);
    DecimalOfPad(d.day, 2);
  }

  /** Every accepted string is already in canonical form: printing the parsed date gives it back. */
  lemma IsoCanonical(s: string)
    requires ParseIsoDate(s).Some?
    ensures IsoFormat(ParseIsoDate(s).value) == s
  {
    PadOfDecimal(s[..4]);
    PadOfDecimal(s[5..7]);
    PadOfDecimal(s[8..]);
    assert s == s[..4] + "-" + s[5..7] + "-" + s[8..];
  }

  // ---------------------------------------------------------------------------------------
  // Timestamps (`created_at`) and their comparison with a date

  const MicrosPerDay := 86_400_000_000

  /** A `timestamp` value: a date and the microseconds elapsed since its midnight. */
  datatype Timestamp = Timestamp(date: Date, micros: int)

  predicate ValidTimestamp(t: Timestamp) {
    ValidDate(t.date) && 0 <= t.micros < MicrosPerDay
  }

  predicate TsBefore(a: Timestamp, b: Timestamp) {
    Before(a.date, b.date) || (a.date == b.date && a.micros < b.micros)
  }

  /** A `date` compared with a `timestamp` stands for midnight at the start of that date. */
  function Midnight(d: Date): Timestamp {
    Timestamp(d, 0)
  }

  /** `ts >= date` holds exactly when the timestamp's day is on or after the date;
      `ts < date` exactly when the timestamp's day is before it. */
  lemma MidnightComparison(t: Timestamp, d: Date)
    requires ValidTimestamp(t)
    ensures !TsBefore(t, Midnight(d)) <==> AtOrBefore(d, t.date)
    ensures TsBefore(t, Midnight(d)) <==> Before(t.date, d)
  {
  }

  // ---------------------------------------------------------------------------------------
  // Ascending sequences of distinct dates (`GROUP BY ... ORDER BY day`)

  predicate StrictlyAscending(ds: seq<Date>) {
    forall i, j :: 0 <= i < j < |ds| ==> Before(ds[i], ds[j])
  }

  function InsertDate(ds: seq<Date>, d: Date): (r: seq<Date>)
    requires StrictlyAscending(ds)
    ensures StrictlyAscending(r)
    ensures forall x :: x in r <==> x in ds || x == d
  {
    if ds == [] then [d]
    else if d == ds[0] then ds
    else if Before(d, ds[0]) then [d] + ds
    else
      var rest := InsertDate(ds[1..], d);
      assert forall k :: 0 <= k < |rest| ==> rest[k] in rest && Before(ds[0], rest[k]);
      [ds[0]] + rest
  }

  /** The distinct dates of `ds`, in ascending order. */
  function SortedDistinct(ds: seq<Date>): (r: seq<Date>)
    ensures StrictlyAscending(r)
    ensures forall x :: x in r <==> x in ds
  {
    if ds == [] then [] else InsertDate(SortedDistinct(ds[..|ds| - 1]), ds[|ds| - 1])
  }
}
