/**
 * The query side of `CurrencyStatsService`: missing bounds are filled in from the
 * clock, the window is validated, and the repository's answer is passed on or
 * turned into a not-found error.
 *
 * The clock is read by each defaulting helper on its own, so the two readings of one
 * request are separate parameters (`nowForStart`, `nowForEnd`, `todayForStart`,
 * `todayForEnd`); a helper whose argument is present does not use its reading.
 */
module StatsQueries {
  import opened Wrappers
  import opened Records
  import opened Ranking
  import opened StatsRepository

  /** The errors the query methods report. */
  datatype QueryError =
    | WrongTimePeriod(start: int, end: int)
    | CurrencyStatsNotFound(symbol: string)
    | DayPricesNotFound(day: Option<int>)
    | RankingFailed(cause: RankingError)

  /**
   * The exception message of each service error; `dateText` and `dayText` stand for the
   * ISO rendering of a date-time and of a date. A day that was not given prints as `null`.
   * The division error comes from the database and carries no service message.
   */
  function QueryMessage(e: QueryError, dateText: int -> string, dayText: int -> string): string
    requires !e.RankingFailed?
  {
    match e
    case WrongTimePeriod(start, end) =>
      "The start date '" + dateText(start) + "' must be before the end date '" + dateText(end) + "'"
    case CurrencyStatsNotFound(symbol) => "Currency '" + symbol + "' not found"
    case DayPricesNotFound(day) =>
      "Prices not found for the day '" + (match day case None => "null" case Some(d) => dayText(d)) + "'"
  }

  /** `dateTimeOrDefaultPeriodBefore`: the given date-time, or now minus the default period. */
  function DateTimeOrDefaultPeriodBefore(dateTime: Option<int>, now: int, periodDays: int): int {
    match dateTime
    case Some(t) => t
    case None => now - periodDays * MillisPerDay
  }

  /** `dateTimeOrNow(LocalDateTime)`: the given date-time, or now. */
  function DateTimeOrNow(dateTime: Option<int>, now: int): int {
    dateTime.GetOr(now)
  }

  /** `dateTimeOrNow(LocalDate)`: the start of the given day, or of today. */
  function StartOfDayOrToday(day: Option<int>, today: int): int {
    day.GetOr(today) * MillisPerDay
  }

  /** `validateLocalDateTimes`: rejects a start strictly after the end. */
  function ValidateLocalDateTimes(start: int, end: int): Outcome<QueryError> {
    if start > end then Fail(WrongTimePeriod(start, end)) else Pass
  }

  /**
   * `getCurrencyStats`: fails with the period error exactly when the resolved start is
   * after the resolved end, with not-found exactly when the symbol has no row in the
   * window, and otherwise returns the MIN/MAX aggregate of those rows.
   */
  function GetCurrencyStats(
    table: seq<StatsEntity>, symbol: string, startDateTime: Option<int>, endDateTime: Option<int>,
    periodDays: int, nowForStart: int, nowForEnd: int): (r: Result<MinMaxStats, QueryError>)
    ensures var s := DateTimeOrDefaultPeriodBefore(startDateTime, nowForStart, periodDays);
      var e := DateTimeOrNow(endDateTime, nowForEnd);
      && (r == Failure(WrongTimePeriod(s, e)) <==> s > e)
      && (r == Failure(CurrencyStatsNotFound(symbol)) <==> s <= e && !HasRows(table, symbol, s, e))
      && (r.Failure? ==> r == Failure(WrongTimePeriod(s, e)) || r == Failure(CurrencyStatsNotFound(symbol)))
      && (r.Success? ==>
            && IsMinMaxOf(r.value, table, symbol, s, e)
            && r.value.oldestDate <= r.value.newestDate
            && r.value.minPrice <= r.value.maxPrice
            && InWindow(r.value.oldestDate, s, e)
            && InWindow(r.value.newestDate, s, e))
  {
    var s := DateTimeOrDefaultPeriodBefore(startDateTime, nowForStart, periodDays);
    var e := DateTimeOrNow(endDateTime, nowForEnd);
    match ValidateLocalDateTimes(s, e)
    case Fail(err) => Failure(err)
    case Pass =>
      match FindStatsBySymbol(table, symbol, s, e)
      case None => Failure(CurrencyStatsNotFound(symbol))
      case Some(st) =>
        FindStatsIsMinMax(table, symbol, s, e);
        Success(st)
  }

  /**
   * `getAllCurrenciesNormalized`: the period error exactly when the resolved start is
   * after the resolved end; otherwise the repository's ranking, passed on with the same
   * entries in the same order. That list is sorted by normalized price, largest first,
   * names each symbol with rows in the window exactly once with its (max - min) / min,
   * and is empty exactly when the window holds no row.
   */
  function GetAllCurrenciesNormalized(
    table: seq<StatsEntity>, startDateTime: Option<int>, endDateTime: Option<int>,
    periodDays: int, nowForStart: int, nowForEnd: int): (r: Result<seq<NormalizedPrice>, QueryError>)
    ensures var s := DateTimeOrDefaultPeriodBefore(startDateTime, nowForStart, periodDays);
      var e := DateTimeOrNow(endDateTime, nowForEnd);
      && (r == Failure(WrongTimePeriod(s, e)) <==> s > e)
      && (s <= e ==> r.Success? == NormalizedRanking(table, s, e).Success?)
      && (s <= e && r.Failure? ==> r.error == RankingFailed(NormalizedRanking(table, s, e).error))
      && (r.Success? ==>
            && r.value == NormalizedRanking(table, s, e).value
            && SortedDesc(r.value)
            && DistinctSymbols(r.value)
            && (forall x :: x in table && InWindow(x.dateTime, s, e) ==>
                  exists p :: p in r.value && p.symbol == x.symbol)
            && (forall p :: p in r.value ==>
                  && HasRows(table, p.symbol, s, e)
                  && StatsOf(table, p.symbol, s, e).minPrice != 0.0
                  && p.normalizedPrice == NormalizedValue(StatsOf(table, p.symbol, s, e)))
            && (r.value == [] <==> forall x :: x in table ==> !InWindow(x.dateTime, s, e)))
  {
    var s := DateTimeOrDefaultPeriodBefore(startDateTime, nowForStart, periodDays);
    var e := DateTimeOrNow(endDateTime, nowForEnd);
    match ValidateLocalDateTimes(s, e)
    case Fail(err) => Failure(err)
    case Pass =>
      match NormalizedRanking(table, s, e)
      case Failure(cause) => Failure(RankingFailed(cause))
      case Success(list) =>
        RankingFacts(table, s, e);
        Success(list)
  }

  /** Everything the ranking lemmas say about a successful ranking, plus when it is empty. */
  lemma RankingFacts(table: seq<StatsEntity>, s: int, e: int)
    requires NormalizedRanking(table, s, e).Success?
    ensures var list := NormalizedRanking(table, s, e).value;
      && SortedDesc(list)
      && DistinctSymbols(list)
      && (forall x :: x in table && InWindow(x.dateTime, s, e) ==> exists p :: p in list && p.symbol == x.symbol)
      && (forall p :: p in list ==>
            && HasRows(table, p.symbol, s, e)
            && StatsOf(table, p.symbol, s, e).minPrice != 0.0
            && p.normalizedPrice == NormalizedValue(StatsOf(table, p.symbol, s, e)))
      && (list == [] <==> forall x :: x in table ==> !InWindow(x.dateTime, s, e))
  {
    var list := NormalizedRanking(table, s, e).value;
    RankingSortedAndDistinct(table, s, e);
    RankingCoversWindow(table, s, e);
    RankingEntryValues(table, s, e);
    if list != [] {
      assert list[0] in list;
    }
  }

  /** The window of `getHighestNormalizedPriceForDay`: start of the day to start of the next. */
  function DayWindow(day: Option<int>, todayForStart: int, todayForEnd: int): (int, int) {
    (StartOfDayOrToday(day, todayForStart), StartOfDayOrToday(day, todayForEnd) + MillisPerDay)
  }

  /**
   * The day window is the half-open day [d, d + 1 day) when the day is given, or when
   * both readings of today agree; if the date changes between the two readings the
   * window spans two days.
   */
  lemma DayWindowSpan(day: Option<int>, todayForStart: int, todayForEnd: int)
    ensures var (s, e) := DayWindow(day, todayForStart, todayForEnd);
      && (day.Some? ==> s == day.value * MillisPerDay && e == (day.value + 1) * MillisPerDay)
      && (day.Some? || todayForStart == todayForEnd ==> e - s == MillisPerDay)
      && (day.None? ==> e - s == (todayForEnd - todayForStart + 1) * MillisPerDay)
  {
  }

  /**
   * `getHighestNormalizedPriceForDay`: not-found (naming the day argument as given,
   * absent when it was defaulted) exactly when the window holds no row; otherwise the
   * first entry of the ranking, whose normalized price is the largest of all entries,
   * unless the ranking query itself fails, whose error is then passed on.
   */
  function GetHighestNormalizedPriceForDay(
    table: seq<StatsEntity>, day: Option<int>, todayForStart: int, todayForEnd: int): (r: Result<NormalizedPrice, QueryError>)
    ensures var (s, e) := DayWindow(day, todayForStart, todayForEnd);
      && (r == Failure(DayPricesNotFound(day)) <==> forall x :: x in table ==> !InWindow(x.dateTime, s, e))
      && (r.Failure? ==>
            || r == Failure(DayPricesNotFound(day))
            || (NormalizedRanking(table, s, e).Failure? && r.error == RankingFailed(NormalizedRanking(table, s, e).error)))
      && (r.Success? ==>
            && NormalizedRanking(table, s, e).Success?
            && r.value == NormalizedRanking(table, s, e).value[0]
            && (forall p :: p in NormalizedRanking(table, s, e).value ==> p.normalizedPrice <= r.value.normalizedPrice)
            && HasRows(table, r.value.symbol, s, e)
            && StatsOf(table, r.value.symbol, s, e).minPrice != 0.0
            && r.value.normalizedPrice == NormalizedValue(StatsOf(table, r.value.symbol, s, e)))
  {
    var w := DayWindow(day, todayForStart, todayForEnd);
    HighestOf(table, day, w.0, w.1)
  }

  /** The body of `getHighestNormalizedPriceForDay` once the window is fixed. */
  function HighestOf(table: seq<StatsEntity>, day: Option<int>, s: int, e: int): (r: Result<NormalizedPrice, QueryError>)
    ensures r == Failure(DayPricesNotFound(day)) <==> forall x :: x in table ==> !InWindow(x.dateTime, s, e)
    ensures r.Failure? ==>
      || r == Failure(DayPricesNotFound(day))
      || (NormalizedRanking(table, s, e).Failure? && r.error == RankingFailed(NormalizedRanking(table, s, e).error))
    ensures r.Success? ==>
      && NormalizedRanking(table, s, e).Success?
      && r.value == NormalizedRanking(table, s, e).value[0]
      && (forall p :: p in NormalizedRanking(table, s, e).value ==> p.normalizedPrice <= r.value.normalizedPrice)
      && HasRows(table, r.value.symbol, s, e)
      && StatsOf(table, r.value.symbol, s, e).minPrice != 0.0
      && r.value.normalizedPrice == NormalizedValue(StatsOf(table, r.value.symbol, s, e))
  {
    EmptyWindowRanksNothing(table, s, e);
    match NormalizedRanking(table, s, e)
    case Failure(cause) => Failure(RankingFailed(cause))
    case Success(list) =>
      if list == [] then
        RankingFacts(table, s, e);
        Failure(DayPricesNotFound(day))
      else
        HeadIsHighest(table, s, e);
        Success(list[0])
  }

  /** A valid window holding rows of the symbol always yields the aggregate. */
  lemma StatsFoundOnValidWindow(
    table: seq<StatsEntity>, symbol: string, startDateTime: Option<int>, endDateTime: Option<int>,
    periodDays: int, nowForStart: int, nowForEnd: int)
    requires var s := DateTimeOrDefaultPeriodBefore(startDateTime, nowForStart, periodDays);
      var e := DateTimeOrNow(endDateTime, nowForEnd);
      s <= e && HasRows(table, symbol, s, e)
    ensures var r := GetCurrencyStats(table, symbol, startDateTime, endDateTime, periodDays, nowForStart, nowForEnd);
      r.Success? && r.value == FindStatsBySymbol(table, symbol,
        DateTimeOrDefaultPeriodBefore(startDateTime, nowForStart, periodDays), DateTimeOrNow(endDateTime, nowForEnd)).value
  {
    var s := DateTimeOrDefaultPeriodBefore(startDateTime, nowForStart, periodDays);
    var e := DateTimeOrNow(endDateTime, nowForEnd);
    FindStatsIsMinMax(table, symbol, s, e);
    MinMaxIsUnique(GetCurrencyStats(table, symbol, startDateTime, endDateTime, periodDays, nowForStart, nowForEnd).value,
      FindStatsBySymbol(table, symbol, s, e).value, table, symbol, s, e);
  }

  /** A day window holding rows whose ranking succeeds always yields the ranking's head. */
  lemma HighestFoundOnNonEmptyDay(table: seq<StatsEntity>, day: Option<int>, todayForStart: int, todayForEnd: int)
    requires var (s, e) := DayWindow(day, todayForStart, todayForEnd);
      NormalizedRanking(table, s, e).Success? && exists x :: x in table && InWindow(x.dateTime, s, e)
    ensures var (s, e) := DayWindow(day, todayForStart, todayForEnd);
      var r := GetHighestNormalizedPriceForDay(table, day, todayForStart, todayForEnd);
      r.Success? && r.value == NormalizedRanking(table, s, e).value[0]
  {
  }

  /** The head of a non-empty ranking has the largest normalized price and rows in the window. */
  lemma HeadIsHighest(table: seq<StatsEntity>, s: int, e: int)
    requires NormalizedRanking(table, s, e).Success? && NormalizedRanking(table, s, e).value != []
    ensures var list := NormalizedRanking(table, s, e).value;
      && (forall p :: p in list ==> p.normalizedPrice <= list[0].normalizedPrice)
      && HasRows(table, list[0].symbol, s, e)
      && StatsOf(table, list[0].symbol, s, e).minPrice != 0.0
      && list[0].normalizedPrice == NormalizedValue(StatsOf(table, list[0].symbol, s, e))
  {
    var list := NormalizedRanking(table, s, e).value;
    RankingSortedAndDistinct(table, s, e);
    RankingEntryValues(table, s, e);
    assert list[0] in list;
  }

  /** A window without rows ranks nothing and cannot fail. */
  lemma EmptyWindowRanksNothing(table: seq<StatsEntity>, s: int, e: int)
    ensures (forall x :: x in table ==> !InWindow(x.dateTime, s, e)) ==> NormalizedRanking(table, s, e) == Success([])
  {
    if forall x :: x in table ==> !InWindow(x.dateTime, s, e) {
      if InRange(table, s, e) != [] {
        assert InRange(table, s, e)[0] in InRange(table, s, e);
      }
    }
  }

  /**
   * With both bounds defaulted and a clock that does not go back, the window is never
   * rejected and spans at least the default period.
   */
  lemma DefaultWindowIsValid(periodDays: int, nowForStart: int, nowForEnd: int)
    requires periodDays >= 0 && nowForStart <= nowForEnd
    ensures var s := DateTimeOrDefaultPeriodBefore(None, nowForStart, periodDays);
      var e := DateTimeOrNow(None, nowForEnd);
      && ValidateLocalDateTimes(s, e) == Pass
      && e - s >= periodDays * MillisPerDay
  {
  }

  /**
   * A negative default period (a period string such as `P-30D` parses) puts the
   * defaulted start after now, so with both bounds defaulted the query is rejected
   * whenever the clock advanced by less than the period's length between the two readings.
   */
  lemma NegativePeriodIsRejected(periodDays: int, nowForStart: int, nowForEnd: int)
    requires periodDays < 0 && nowForEnd - nowForStart < -periodDays * MillisPerDay
    ensures var s := DateTimeOrDefaultPeriodBefore(None, nowForStart, periodDays);
      var e := DateTimeOrNow(None, nowForEnd);
      && ValidateLocalDateTimes(s, e) == Fail(WrongTimePeriod(s, e))
      && s > nowForStart
  {
  }

  /**
   * A valid window without rows of the symbol reports the symbol in the not-found
   * message.
   */
  lemma CurrencyNotFoundMessage(
    table: seq<StatsEntity>, symbol: string, start: int, end: int, dateText: int -> string, dayText: int -> string)
    requires start <= end && !HasRows(table, symbol, start, end)
    ensures var r := GetCurrencyStats(table, symbol, Some(start), Some(end), 0, 0, 0);
      && r == Failure(CurrencyStatsNotFound(symbol))
      && QueryMessage(r.error, dateText, dayText) == "Currency '" + symbol + "' not found"
  {
  }

  /**
   * A query with its start after its end reports both resolved bounds in the message,
   * start first.
   */
  lemma WrongPeriodMessage(
    table: seq<StatsEntity>, symbol: string, start: int, end: int, dateText: int -> string, dayText: int -> string)
    requires start > end
    ensures var r := GetCurrencyStats(table, symbol, Some(start), Some(end), 0, 0, 0);
      && r.Failure?
      && QueryMessage(r.error, dateText, dayText)
        == "The start date '" + dateText(start) + "' must be before the end date '" + dateText(end) + "'"
  {
  }

  /**
   * A day query without a day on a table with no rows for today reports the day as
   * `null`, the text of the absent argument.
   */
  lemma DefaultedDayMessage(table: seq<StatsEntity>, today: int, dateText: int -> string, dayText: int -> string)
    requires forall x :: x in table ==> !InWindow(x.dateTime, today * MillisPerDay, (today + 1) * MillisPerDay)
    ensures var r := GetHighestNormalizedPriceForDay(table, None, today, today);
      && r == Failure(DayPricesNotFound(None))
      && QueryMessage(r.error, dateText, dayText) == "Prices not found for the day 'null'"
  {
  }
}
