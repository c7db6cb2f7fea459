/**
 * The three JPQL queries of the stats repository, as functions of the table contents.
 * Every query keeps the rows whose time lies in the half-open window [start, end),
 * groups them by currency symbol and aggregates each group with MIN and MAX.
 */
module StatsRepository {
  import opened Wrappers
  import opened Records
  import opened Ranking

  /** `dateTime >= :startDate AND dateTime < :endDate`. */
  predicate InWindow(t: int, start: int, end: int) {
    start <= t < end
  }

  /** The rows `findStatsBySymbol` aggregates: the symbol's rows inside the window. */
  predicate Selected(x: StatsEntity, symbol: string, start: int, end: int) {
    x.symbol == symbol && InWindow(x.dateTime, start, end)
  }

  /** The rows inside the window, in table order. */
  function InRange(table: seq<StatsEntity>, start: int, end: int): (r: seq<StatsEntity>)
    ensures forall x :: x in r <==> x in table && InWindow(x.dateTime, start, end)
  {
    if table == [] then []
    else (if InWindow(table[0].dateTime, start, end) then [table[0]] else []) + InRange(table[1..], start, end)
  }

  /** The rows of one symbol, in order. */
  function OfSymbol(rows: seq<StatsEntity>, symbol: string): (r: seq<StatsEntity>)
    ensures forall x :: x in r <==> x in rows && x.symbol == symbol
  {
    if rows == [] then []
    else (if rows[0].symbol == symbol then [rows[0]] else []) + OfSymbol(rows[1..], symbol)
  }

  /** `MIN(dateTime)`. */
  function MinTime(rows: seq<StatsEntity>): (t: int)
    requires rows != []
    ensures exists x :: x in rows && x.dateTime == t
    ensures forall x :: x in rows ==> t <= x.dateTime
  {
    if |rows| == 1 then rows[0].dateTime
    else
      var m := MinTime(rows[1..]);
      if rows[0].dateTime <= m then rows[0].dateTime else m
  }

  /** `MAX(dateTime)`. */
  function MaxTime(rows: seq<StatsEntity>): (t: int)
    requires rows != []
    ensures exists x :: x in rows && x.dateTime == t
    ensures forall x :: x in rows ==> x.dateTime <= t
  {
    if |rows| == 1 then rows[0].dateTime
    else
      var m := MaxTime(rows[1..]);
      if rows[0].dateTime >= m then rows[0].dateTime else m
  }

  /** `MIN(price)`. */
  function MinPrice(rows: seq<StatsEntity>): (v: real)
    requires rows != []
    ensures exists x :: x in rows && x.price == v
    ensures forall x :: x in rows ==> v <= x.price
  {
    if |rows| == 1 then rows[0].price
    else
      var m := MinPrice(rows[1..]);
      if rows[0].price <= m then rows[0].price else m
  }

  /** `MAX(price)`. */
  function MaxPrice(rows: seq<StatsEntity>): (v: real)
    requires rows != []
    ensures exists x :: x in rows && x.price == v
    ensures forall x :: x in rows ==> x.price <= v
  {
    if |rows| == 1 then rows[0].price
    else
      var m := MaxPrice(rows[1..]);
      if rows[0].price >= m then rows[0].price else m
  }

  /**
   * `st` is the aggregate of the selected rows: its dates and prices bound every
   * selected row and each is attained by one of them.
   */
  ghost predicate IsMinMaxOf(st: MinMaxStats, table: seq<StatsEntity>, symbol: string, start: int, end: int) {
    && st.symbol == symbol
    && (forall x :: x in table && Selected(x, symbol, start, end) ==>
          st.oldestDate <= x.dateTime <= st.newestDate && st.minPrice <= x.price <= st.maxPrice)
    && (exists x :: x in table && Selected(x, symbol, start, end) && x.dateTime == st.oldestDate)
    && (exists x :: x in table && Selected(x, symbol, start, end) && x.dateTime == st.newestDate)
    && (exists x :: x in table && Selected(x, symbol, start, end) && x.price == st.minPrice)
    && (exists x :: x in table && Selected(x, symbol, start, end) && x.price == st.maxPrice)
  }

  /** The symbol has at least one row in the window. */
  ghost predicate HasRows(table: seq<StatsEntity>, symbol: string, start: int, end: int) {
    exists x :: x in table && Selected(x, symbol, start, end)
  }

  /** `findStatsBySymbol`: empty exactly when the symbol has no row in the window. */
  function FindStatsBySymbol(table: seq<StatsEntity>, symbol: string, start: int, end: int): (r: Option<MinMaxStats>)
    ensures r.None? <==> !HasRows(table, symbol, start, end)
    ensures r.Some? ==> r.value.symbol == symbol
  {
    var rows := OfSymbol(InRange(table, start, end), symbol);
    if rows == [] then
      assert forall x :: x in table && Selected(x, symbol, start, end) ==> x in rows;
      None
    else
      Some(MinMaxStats(symbol, MinTime(rows), MaxTime(rows), MinPrice(rows), MaxPrice(rows)))
  }

  /**
   * When present, the result of `findStatsBySymbol` is the MIN/MAX aggregate of the
   * symbol's rows in the window, so its dates are ordered and lie in the window and
   * its prices are ordered.
   */
  lemma FindStatsIsMinMax(table: seq<StatsEntity>, symbol: string, start: int, end: int)
    requires HasRows(table, symbol, start, end)
    ensures var st := FindStatsBySymbol(table, symbol, start, end).value;
      && IsMinMaxOf(st, table, symbol, start, end)
      && st.oldestDate <= st.newestDate
      && st.minPrice <= st.maxPrice
      && InWindow(st.oldestDate, start, end)
      && InWindow(st.newestDate, start, end)
  {
    var rows := OfSymbol(InRange(table, start, end), symbol);
    assert forall x :: x in rows <==> x in table && Selected(x, symbol, start, end);
  }

  /** The aggregate is determined by the rows: any two that satisfy `IsMinMaxOf` are equal. */
  lemma MinMaxIsUnique(a: MinMaxStats, b: MinMaxStats, table: seq<StatsEntity>, symbol: string, start: int, end: int)
    requires IsMinMaxOf(a, table, symbol, start, end) && IsMinMaxOf(b, table, symbol, start, end)
    ensures a == b
  {
    var x1 :| x1 in table && Selected(x1, symbol, start, end) && x1.dateTime == a.oldestDate;
    var x2 :| x2 in table && Selected(x2, symbol, start, end) && x2.dateTime == b.oldestDate;
    var y1 :| y1 in table && Selected(y1, symbol, start, end) && y1.dateTime == a.newestDate;
    var y2 :| y2 in table && Selected(y2, symbol, start, end) && y2.dateTime == b.newestDate;
    var p1 :| p1 in table && Selected(p1, symbol, start, end) && p1.price == a.minPrice;
    var p2 :| p2 in table && Selected(p2, symbol, start, end) && p2.price == b.minPrice;
    var q1 :| q1 in table && Selected(q1, symbol, start, end) && q1.price == a.maxPrice;
    var q2 :| q2 in table && Selected(q2, symbol, start, end) && q2.price == b.maxPrice;
  }

  // ---------------------------------------------------------------------------
  // Normalized prices: `(MAX(price) - MIN(price)) / MIN(price)` per symbol.

  /** The database refuses a group whose minimum price is zero. */
  datatype RankingError = DivisionByZero

  /** `GROUP BY c.symbol`: the distinct symbols of the rows, in first-appearance order. */
  function Symbols(rows: seq<StatsEntity>): (syms: seq<string>)
    ensures forall s :: s in syms <==> exists x :: x in rows && x.symbol == s
    ensures forall i, j :: 0 <= i < j < |syms| ==> syms[i] != syms[j]
  {
    if rows == [] then []
    else
      var init := rows[..|rows| - 1];
      var last := rows[|rows| - 1];
      assert rows == init + [last];
      var rest := Symbols(init);
      if last.symbol in rest then rest else rest + [last.symbol]
  }

  /** The normalized price of one aggregate. */
  function NormalizedValue(st: MinMaxStats): real
    requires st.minPrice != 0.0
  {
    (st.maxPrice - st.minPrice) / st.minPrice
  }

  /** The aggregate of a symbol that has rows in the window. */
  function StatsOf(table: seq<StatsEntity>, symbol: string, start: int, end: int): MinMaxStats
  {
    FindStatsBySymbol(table, symbol, start, end).GetOr(MinMaxStats(symbol, 0, 0, 0.0, 0.0))
  }

  /** One normalized entry per grouped symbol, in the grouped order, unless some group has a zero minimum. */
  function GroupEntries(table: seq<StatsEntity>, start: int, end: int, syms: seq<string>): Result<seq<NormalizedPrice>, RankingError>
  {
    if exists i :: 0 <= i < |syms| && StatsOf(table, syms[i], start, end).minPrice == 0.0 then
      Failure(DivisionByZero)
    else
      Success(seq(|syms|, i requires 0 <= i < |syms| =>
        NormalizedPrice(syms[i], NormalizedValue(StatsOf(table, syms[i], start, end)))))
  }

  /**
   * `getNormalizedPricesForAllCurrenciesDesc` and `findHighestNormalizedRangeForDay`
   * (the two queries have the same text): group the rows of the window by symbol,
   * compute (max - min) / min per group and sort by it, largest first.
   */
  function NormalizedRanking(table: seq<StatsEntity>, start: int, end: int): Result<seq<NormalizedPrice>, RankingError>
  {
    var syms := Symbols(InRange(table, start, end));
    match GroupEntries(table, start, end, syms)
    case Failure(e) => Failure(e)
    case Success(es) => Success(SortDesc(es))
  }

  /** Every grouped symbol has rows in the window. */
  lemma SymbolsHaveRows(table: seq<StatsEntity>, start: int, end: int)
    ensures var syms := Symbols(InRange(table, start, end));
      forall i :: 0 <= i < |syms| ==> HasRows(table, syms[i], start, end)
  {
    var syms := Symbols(InRange(table, start, end));
    forall i | 0 <= i < |syms| ensures HasRows(table, syms[i], start, end) {
      assert syms[i] in syms;
    }
  }

  /** The ranking fails exactly when some symbol with rows in the window has a zero minimum price. */
  lemma RankingFailsIffZeroMinimum(table: seq<StatsEntity>, start: int, end: int)
    ensures NormalizedRanking(table, start, end).Failure? <==>
      exists x :: x in table && InWindow(x.dateTime, start, end) && StatsOf(table, x.symbol, start, end).minPrice == 0.0
  {
    var syms := Symbols(InRange(table, start, end));
    if NormalizedRanking(table, start, end).Failure? {
      var i :| 0 <= i < |syms| && StatsOf(table, syms[i], start, end).minPrice == 0.0;
      assert syms[i] in syms;
    }
    if x :| x in table && InWindow(x.dateTime, start, end) && StatsOf(table, x.symbol, start, end).minPrice == 0.0 {
      assert x in InRange(table, start, end);
      assert x.symbol in syms;
      var i :| 0 <= i < |syms| && syms[i] == x.symbol;
      assert StatsOf(table, syms[i], start, end).minPrice == 0.0;
    }
  }

  /** `e` names a symbol with rows in the window and carries that symbol's (max - min) / min. */
  ghost predicate EntryValue(table: seq<StatsEntity>, start: int, end: int, e: NormalizedPrice) {
    && HasRows(table, e.symbol, start, end)
    && StatsOf(table, e.symbol, start, end).minPrice != 0.0
    && e.normalizedPrice == NormalizedValue(StatsOf(table, e.symbol, start, end))
  }

  /** The entries before sorting, when no group has a zero minimum. */
  function Unsorted(table: seq<StatsEntity>, start: int, end: int): seq<NormalizedPrice>
    requires NormalizedRanking(table, start, end).Success?
  {
    GroupEntries(table, start, end, Symbols(InRange(table, start, end))).value
  }

  /** A successful ranking is sorted by normalized price, largest first, and lists each symbol at most once. */
  lemma RankingSortedAndDistinct(table: seq<StatsEntity>, start: int, end: int)
    requires NormalizedRanking(table, start, end).Success?
    ensures SortedDesc(NormalizedRanking(table, start, end).value)
    ensures DistinctSymbols(NormalizedRanking(table, start, end).value)
  {
    var syms := Symbols(InRange(table, start, end));
    var es := Unsorted(table, start, end);
    assert DistinctSymbols(es) by {
      forall i, j | 0 <= i < j < |es| ensures es[i].symbol != es[j].symbol {
        assert es[i].symbol == syms[i] && es[j].symbol == syms[j];
      }
    }
    SortKeepsDistinct(es);
  }

  /** A successful ranking has an entry for every symbol with rows in the window. */
  lemma RankingCoversWindow(table: seq<StatsEntity>, start: int, end: int)
    requires NormalizedRanking(table, start, end).Success?
    ensures forall x :: x in table && InWindow(x.dateTime, start, end) ==>
      exists e :: e in NormalizedRanking(table, start, end).value && e.symbol == x.symbol
  {
    var syms := Symbols(InRange(table, start, end));
    var es := Unsorted(table, start, end);
    var r := NormalizedRanking(table, start, end).value;
    assert multiset(r) == multiset(es);
    forall x | x in table && InWindow(x.dateTime, start, end) ensures exists e :: e in r && e.symbol == x.symbol {
      assert x in InRange(table, start, end);
      assert x.symbol in syms;
      var i :| 0 <= i < |syms| && syms[i] == x.symbol;
      assert es[i] in multiset(r);
    }
  }

  /**
   * Every entry of a successful ranking belongs to a symbol with rows in the window, whose
   * minimum price there is not zero, and holds (max - min) / min of those rows.
   */
  lemma RankingEntryValues(table: seq<StatsEntity>, start: int, end: int)
    requires NormalizedRanking(table, start, end).Success?
    ensures forall e :: e in NormalizedRanking(table, start, end).value ==> EntryValue(table, start, end, e)
  {
    forall e | e in NormalizedRanking(table, start, end).value ensures EntryValue(table, start, end, e) {
      RankedEntryValue(table, start, end, e);
    }
  }

  /** One entry of a successful ranking: it is one of the grouped entries, so it holds its group's value. */
  lemma RankedEntryValue(table: seq<StatsEntity>, start: int, end: int, e: NormalizedPrice)
    requires NormalizedRanking(table, start, end).Success?
    requires e in NormalizedRanking(table, start, end).value
    ensures EntryValue(table, start, end, e)
  {
    var es := Unsorted(table, start, end);
    assert NormalizedRanking(table, start, end).value == SortDesc(es);
    assert e in multiset(SortDesc(es));
    assert e in multiset(es);
    var i :| 0 <= i < |es| && es[i] == e;
    GroupedEntryValue(table, start, end, i);
  }

  /** The `i`-th grouped entry, before sorting, holds the value of the `i`-th grouped symbol. */
  lemma GroupedEntryValue(table: seq<StatsEntity>, start: int, end: int, i: int)
    requires NormalizedRanking(table, start, end).Success?
    requires 0 <= i < |Unsorted(table, start, end)|
    ensures EntryValue(table, start, end, Unsorted(table, start, end)[i])
  {
    var syms := Symbols(InRange(table, start, end));
    SymbolsHaveRows(table, start, end);
    assert |Unsorted(table, start, end)| == |syms|;
    assert Unsorted(table, start, end)[i].symbol == syms[i];
  }

  /** With strictly positive prices in the window the ranking succeeds and no value is negative. */
  lemma RankingNonNegative(table: seq<StatsEntity>, start: int, end: int)
    requires forall x :: x in table && InWindow(x.dateTime, start, end) ==> x.price > 0.0
    ensures NormalizedRanking(table, start, end).Success?
    ensures forall e :: e in NormalizedRanking(table, start, end).value ==> e.normalizedPrice >= 0.0
  {
    forall x | x in table && InWindow(x.dateTime, start, end)
      ensures StatsOf(table, x.symbol, start, end).minPrice > 0.0
    {
      PositiveGroup(table, x.symbol, start, end);
    }
    RankingFailsIffZeroMinimum(table, start, end);
    RankingEntryValues(table, start, end);
    forall e | e in NormalizedRanking(table, start, end).value ensures e.normalizedPrice >= 0.0 {
      PositiveGroup(table, e.symbol, start, end);
    }
  }

  /** A group of positive prices has a positive minimum and a non-negative normalized price. */
  lemma PositiveGroup(table: seq<StatsEntity>, symbol: string, start: int, end: int)
    requires HasRows(table, symbol, start, end)
    requires forall x :: x in table && Selected(x, symbol, start, end) ==> x.price > 0.0
    ensures StatsOf(table, symbol, start, end).minPrice > 0.0
    ensures NormalizedValue(StatsOf(table, symbol, start, end)) >= 0.0
  {
    FindStatsIsMinMax(table, symbol, start, end);
    var st := StatsOf(table, symbol, start, end);
    var y :| y in table && Selected(y, symbol, start, end) && y.price == st.minPrice;
    assert st.minPrice > 0.0 && st.minPrice <= st.maxPrice;
    NormalizedNonNegative(st);
  }

  /**
   * Entry by entry, whatever the other groups hold: every ranked symbol whose minimum
   * price in the window is positive has a non-negative normalized price.
   */
  lemma PositiveMinimumEntries(table: seq<StatsEntity>, start: int, end: int)
    requires NormalizedRanking(table, start, end).Success?
    ensures forall p :: p in NormalizedRanking(table, start, end).value ==>
      StatsOf(table, p.symbol, start, end).minPrice > 0.0 ==> p.normalizedPrice >= 0.0
  {
    RankingEntryValues(table, start, end);
    forall p | p in NormalizedRanking(table, start, end).value && StatsOf(table, p.symbol, start, end).minPrice > 0.0
      ensures p.normalizedPrice >= 0.0
    {
      FindStatsIsMinMax(table, p.symbol, start, end);
      NormalizedNonNegative(StatsOf(table, p.symbol, start, end));
    }
  }

  /** (max - min) / min is not negative when 0 < min <= max. */
  lemma NormalizedNonNegative(st: MinMaxStats)
    requires 0.0 < st.minPrice <= st.maxPrice
    ensures NormalizedValue(st) >= 0.0
  {
    var d := st.maxPrice - st.minPrice;
    var q := d / st.minPrice;
    assert q * st.minPrice == d;
  }
}
