/** `build_date_filter`: two optional `YYYY-MM-DD` bounds become an SQL suffix
    (`" AND col >= :start_date"`, `" AND col < :end_date"`, both, or nothing) and the map of
    bound parameters. The end bound is moved one day later, so that the half-open range
    `[start, end + 1 day)` includes the whole end day. */
module DateUtils {
  import opened Wrappers
  import opened Calendar
  import opened Seqs

  const DefaultColumn := "created_at"

  /** The SQL suffix to splice after a `WHERE` condition, and the parameters it binds. */
  datatype DateFilter = DateFilter(clause: string, params: map<string, Date>)

  /** What the builder raises: `ValueError` from `date.fromisoformat`, or `OverflowError` from
      adding a day to the last representable date. Each carries the offending argument. */
  datatype DateError = InvalidIsoFormat(text: string) | DateOverflow(text: string)

  /** Python truthiness of an optional string: `None` and `""` both mean "no bound". */
  predicate Given(s: Option<string>) {
    s.Some? && s.value != ""
  }

  function StartCondition(column: string): string {
    column + " >= :start_date"
  }

  function EndCondition(column: string): string {
    column + " < :end_date"
  }

  /** The builder's outcome for each combination of bounds, case by case: the start bound is
      parsed (and may fail) first, then the end bound; with both, the start condition comes
      first; the whole suffix starts with `" AND "`. */
  function FilterFor(startDate: Option<string>, endDate: Option<string>, column: string): Result<DateFilter, DateError>
  {
    var start := if Given(startDate) then ParseIsoDate(startDate.value) else None;
    var end := if Given(endDate) then ParseIsoDate(endDate.value) else None;
    if Given(startDate) && start.None? then Failure(InvalidIsoFormat(startDate.value))
    else if Given(endDate) && end.None? then Failure(InvalidIsoFormat(endDate.value))
    else if Given(endDate) && end.value == LastDate then Failure(DateOverflow(endDate.value))
    else if !Given(startDate) && !Given(endDate) then Success(DateFilter("", map[]))
    else if !Given(endDate) then
      Success(DateFilter(" AND " + StartCondition(column), map["start_date" := start.value]))
    else if !Given(startDate) then
      Success(DateFilter(" AND " + EndCondition(column), map["end_date" := NextDay(end.value).value]))
    else
      Success(DateFilter(" AND " + StartCondition(column) + " AND " + EndCondition(column),
                         map["start_date" := start.value, "end_date" := NextDay(end.value).value]))
  }

  /** The builder: conditions are appended to `parts` and values stored into `params` under
      two tests of the bounds, and the parts are joined at the end. */
  method BuildDateFilter(startDate: Option<string> := None, endDate: Option<string> := None,
                         column: string := DefaultColumn)
    returns (r: Result<DateFilter, DateError>)
    ensures r == FilterFor(startDate, endDate, column)
  {
    var parts: seq<string> := [];
    var params: map<string, Date> := map[];
    if Given(startDate) {
      parts := parts + [column + " >= :start_date"];
      var start := ParseIsoDate(startDate.value);
      if start.None? {
        return Failure(InvalidIsoFormat(startDate.value));
      }
      params := params["start_date" := start.value];
    }
    if Given(endDate) {
      parts := parts + [column + " < :end_date"];
      var end := ParseIsoDate(endDate.value);
      if end.None? {
        return Failure(InvalidIsoFormat(endDate.value));
      }
      var next := NextDay(end.value);
      if next.None? {
        return Failure(DateOverflow(endDate.value));
      }
      params := params["end_date" := next.value];
    }
    assert |parts| == 2 ==> Join(parts, " AND ") == parts[0] + " AND " + parts[1] by {
      if |parts| == 2 { assert parts[1..] == [parts[1]]; }
    }
    var clause := if |parts| > 0 then " AND " + Join(parts, " AND ") else "";
    assert Given(startDate) && Given(endDate) ==> clause == " AND " + StartCondition(column) + " AND " + EndCondition(column);
    return Success(DateFilter(clause, params));
  }

  /** How the database evaluates the emitted suffix on a row's timestamp: `col >= :start_date`
      and `col < :end_date`, each bound date standing for its midnight. A condition is present
      exactly when its parameter is bound. */
  predicate Admits(f: DateFilter, t: Timestamp) {
    && ("start_date" in f.params ==> !TsBefore(t, Midnight(f.params["start_date"])))
    && ("end_date" in f.params ==> TsBefore(t, Midnight(f.params["end_date"])))
  }

  /** The built filter admits a timestamp exactly when its day lies in the inclusive range
      `[start, end]` (absent bounds leave that side open): a row dated on the end day is
      included, one dated the day after is not. */
  lemma FilterIsInclusiveRange(startDate: Option<string>, endDate: Option<string>, column: string, t: Timestamp)
    requires FilterFor(startDate, endDate, column).Success?
    requires ValidTimestamp(t)
    ensures Admits(FilterFor(startDate, endDate, column).value, t) <==>
              && (Given(startDate) ==> AtOrBefore(ParseIsoDate(startDate.value).value, t.date))
              && (Given(endDate) ==> AtOrBefore(t.date, ParseIsoDate(endDate.value).value))
  {
    var f := FilterFor(startDate, endDate, column).value;
    if Given(startDate) {
      MidnightComparison(t, f.params["start_date"]);
    }
    if Given(endDate) {
      var e := ParseIsoDate(endDate.value).value;
      MidnightComparison(t, f.params["end_date"]);
      NextDayIsSuccessor(e, t.date);
    }
  }

  /** The builder fails exactly on a malformed bound, or on an end bound with no next day;
      the start bound is reported first. */
  lemma FilterErrors(startDate: Option<string>, endDate: Option<string>, column: string)
    ensures FilterFor(startDate, endDate, column).Failure? <==>
              || (Given(startDate) && ParseIsoDate(startDate.value).None?)
              || (Given(endDate) && (ParseIsoDate(endDate.value).None? || ParseIsoDate(endDate.value).value == LastDate))
    ensures Given(startDate) && ParseIsoDate(startDate.value).None? ==>
              FilterFor(startDate, endDate, column) == Failure(InvalidIsoFormat(startDate.value))
  {
  }

  /** With no bounds the suffix is empty, nothing is bound and every row is admitted, so the
      filtered aggregate is the unfiltered one. */
  lemma NoBoundsNoFilter(startDate: Option<string>, endDate: Option<string>, column: string, t: Timestamp)
    requires !Given(startDate) && !Given(endDate)
    ensures FilterFor(startDate, endDate, column) == Success(DateFilter("", map[]))
    ensures Admits(FilterFor(startDate, endDate, column).value, t)
  {
  }

  /** An empty string is treated as an absent bound. */
  lemma EmptyStringIsAbsent(endDate: Option<string>, startDate: Option<string>, column: string)
    ensures FilterFor(Some(""), endDate, column) == FilterFor(None, endDate, column)
    ensures FilterFor(startDate, Some(""), column) == FilterFor(startDate, None, column)
  {
  }

  /** The end parameter is one day past the given end date, whatever month or year it closes. */
  lemma EndParameterIsNextDay(startDate: Option<string>, endDate: Option<string>, column: string)
    requires FilterFor(startDate, endDate, column).Success? && Given(endDate)
    ensures "end_date" in FilterFor(startDate, endDate, column).value.params
    ensures Ordinal(FilterFor(startDate, endDate, column).value.params["end_date"])
            == Ordinal(ParseIsoDate(endDate.value).value) + 1
  {
    NextDayOrdinal(ParseIsoDate(endDate.value).value);
  }
}
