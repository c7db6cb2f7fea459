/**
 * A worked example in the shape of the end-to-end scenario: two currencies with two
 * prices each inside the query window. BTC moves from 20 to 50 and ETH from 10 to 50,
 * so the stats query reports 20 and 50 for BTC and the ranking lists ETH (4.0) before
 * BTC (1.5).
 *
 * The table is passed as a parameter that `IsExampleTable` pins down element by
 * element, which keeps the verifier from evaluating every query on a literal.
 */
module StatsExample {
  import opened Wrappers
  import opened Records
  import opened Ranking
  import opened StatsRepository
  import opened StatsQueries

  /** The four stored rows of the example, all inside the window [0, 10). */
  predicate IsExampleTable(t: seq<StatsEntity>) {
    && |t| == 4
    && t[0] == StatsEntity("BTC", 1, 20.0) && t[1] == StatsEntity("BTC", 2, 50.0)
    && t[2] == StatsEntity("ETH", 1, 10.0) && t[3] == StatsEntity("ETH", 2, 50.0)
  }

  /** An aggregate of exactly two rows has their smaller and larger price as its minimum and maximum. */
  lemma TwoRowMinMax(st: MinMaxStats, t: seq<StatsEntity>, symbol: string, a: StatsEntity, b: StatsEntity)
    requires IsMinMaxOf(st, t, symbol, 0, 10)
    requires a in t && b in t && Selected(a, symbol, 0, 10) && Selected(b, symbol, 0, 10)
    requires a.price <= b.price
    requires forall x :: x in t && Selected(x, symbol, 0, 10) ==> x == a || x == b
    ensures st.minPrice == a.price && st.maxPrice == b.price
  {
    var m :| m in t && Selected(m, symbol, 0, 10) && m.price == st.minPrice;
    var n :| n in t && Selected(n, symbol, 0, 10) && n.price == st.maxPrice;
  }

  /** The same for the aggregate the repository computes. */
  lemma TwoRowStats(t: seq<StatsEntity>, symbol: string, a: StatsEntity, b: StatsEntity)
    requires a in t && b in t && Selected(a, symbol, 0, 10) && Selected(b, symbol, 0, 10)
    requires a.price <= b.price
    requires forall x :: x in t && Selected(x, symbol, 0, 10) ==> x == a || x == b
    ensures StatsOf(t, symbol, 0, 10).minPrice == a.price
    ensures StatsOf(t, symbol, 0, 10).maxPrice == b.price
  {
    FindStatsIsMinMax(t, symbol, 0, 10);
    TwoRowMinMax(FindStatsBySymbol(t, symbol, 0, 10).value, t, symbol, a, b);
  }

  /** The MIN/MAX aggregate of each example currency. */
  lemma ExampleStats(t: seq<StatsEntity>, symbol: string, lo: real, hi: real)
    requires IsExampleTable(t)
    requires (symbol == "BTC" && lo == 20.0 && hi == 50.0) || (symbol == "ETH" && lo == 10.0 && hi == 50.0)
    ensures StatsOf(t, symbol, 0, 10).minPrice == lo
    ensures StatsOf(t, symbol, 0, 10).maxPrice == hi
  {
    assert "BTC" != "ETH" by { assert "BTC"[0] != "ETH"[0]; }
    var i := if symbol == "BTC" then 0 else 2;
    assert t[i] in t && t[i + 1] in t;
    forall x | x in t && Selected(x, symbol, 0, 10) ensures x == t[i] || x == t[i + 1] {
      var k :| 0 <= k < |t| && t[k] == x;
    }
    TwoRowStats(t, symbol, t[i], t[i + 1]);
  }

  /** All example prices are positive, so the ranking has no zero minimum to divide by. */
  lemma ExampleSucceeds(t: seq<StatsEntity>)
    requires IsExampleTable(t)
    ensures NormalizedRanking(t, 0, 10).Success?
  {
    forall x | x in t && InWindow(x.dateTime, 0, 10) ensures x.price > 0.0 {
      var k :| 0 <= k < |t| && t[k] == x;
    }
    RankingNonNegative(t, 0, 10);
  }

  /** The example holds only BTC and ETH rows. */
  lemma ExampleSymbols(t: seq<StatsEntity>, x: StatsEntity)
    requires IsExampleTable(t) && x in t
    ensures x.symbol == "BTC" || x.symbol == "ETH"
  {
  }

  /** Each ranked entry is ETH at 4.0 or BTC at 1.5. */
  lemma ExampleEntry(t: seq<StatsEntity>, p: NormalizedPrice)
    requires IsExampleTable(t)
    requires NormalizedRanking(t, 0, 10).Success? && p in NormalizedRanking(t, 0, 10).value
    ensures p == NormalizedPrice("ETH", 4.0) || p == NormalizedPrice("BTC", 1.5)
  {
    RankingEntryValues(t, 0, 10);
    assert HasRows(t, p.symbol, 0, 10);
    var x :| x in t && Selected(x, p.symbol, 0, 10);
    ExampleSymbols(t, x);
    var st := StatsOf(t, p.symbol, 0, 10);
    assert p.normalizedPrice == NormalizedValue(st);
    if p.symbol == "BTC" {
      ExampleStats(t, "BTC", 20.0, 50.0);
      assert (50.0 - 20.0) / 20.0 == 1.5;
    } else {
      ExampleStats(t, "ETH", 10.0, 50.0);
      assert (50.0 - 10.0) / 10.0 == 4.0;
    }
  }

  /** The ranking holds no other entries. */
  lemma ExampleEntries(t: seq<StatsEntity>)
    requires IsExampleTable(t)
    ensures NormalizedRanking(t, 0, 10).Success?
    ensures var list := NormalizedRanking(t, 0, 10).value;
      forall p :: p in list ==> p == NormalizedPrice("ETH", 4.0) || p == NormalizedPrice("BTC", 1.5)
  {
    ExampleSucceeds(t);
    forall p | p in NormalizedRanking(t, 0, 10).value
      ensures p == NormalizedPrice("ETH", 4.0) || p == NormalizedPrice("BTC", 1.5)
    {
      ExampleEntry(t, p);
    }
  }

  /** Both currencies are ranked. */
  lemma ExampleCovered(t: seq<StatsEntity>)
    requires IsExampleTable(t)
    ensures NormalizedRanking(t, 0, 10).Success?
    ensures var list := NormalizedRanking(t, 0, 10).value;
      NormalizedPrice("ETH", 4.0) in list && NormalizedPrice("BTC", 1.5) in list
  {
    ExampleEntries(t);
    var list := NormalizedRanking(t, 0, 10).value;
    RankingCoversWindow(t, 0, 10);
    assert t[0] in t && t[2] in t;
    var e :| e in list && e.symbol == t[0].symbol;
    var f :| f in list && f.symbol == t[2].symbol;
  }

  /** A list with distinct symbols drawn from two entries uses only its first two positions. */
  lemma OnlyTwoPositions(list: seq<NormalizedPrice>, hi: NormalizedPrice, lo: NormalizedPrice, k: int)
    requires DistinctSymbols(list) && hi.symbol != lo.symbol
    requires forall p :: p in list ==> p == hi || p == lo
    requires 2 <= |list| && 0 <= k < |list|
    ensures k < 2
  {
    assert list[0] in list && list[1] in list && list[k] in list;
  }

  /** A sorted, symbol-distinct list made of two entries lists the larger first. */
  lemma TwoEntryOrder(list: seq<NormalizedPrice>, hi: NormalizedPrice, lo: NormalizedPrice)
    requires SortedDesc(list) && DistinctSymbols(list)
    requires hi.symbol != lo.symbol && hi.normalizedPrice > lo.normalizedPrice
    requires hi in list && lo in list && forall p :: p in list ==> p == hi || p == lo
    ensures list == [hi, lo]
  {
    var i :| 0 <= i < |list| && list[i] == hi;
    var j :| 0 <= j < |list| && list[j] == lo;
    assert i < j;
    if |list| > 2 {
      OnlyTwoPositions(list, hi, lo, 2);
    }
    assert list == [list[0], list[1]];
  }

  /** The BTC stats query over the window returns minimum 20 and maximum 50. */
  lemma ExampleCurrencyStats(t: seq<StatsEntity>)
    requires IsExampleTable(t)
    ensures var r := GetCurrencyStats(t, "BTC", Some(0), Some(10), 0, 0, 0);
      r.Success? && r.value.symbol == "BTC" && r.value.minPrice == 20.0 && r.value.maxPrice == 50.0
  {
    assert t[0] in t && Selected(t[0], "BTC", 0, 10);
    ExampleStats(t, "BTC", 20.0, 50.0);
  }

  /** The repository's ranking over the window is exactly ETH (4.0) then BTC (1.5). */
  lemma ExampleRepositoryRanking(t: seq<StatsEntity>)
    requires IsExampleTable(t)
    ensures NormalizedRanking(t, 0, 10) == Success([NormalizedPrice("ETH", 4.0), NormalizedPrice("BTC", 1.5)])
  {
    assert "BTC" != "ETH" by { assert "BTC"[0] != "ETH"[0]; }
    ExampleEntries(t);
    ExampleCovered(t);
    RankingSortedAndDistinct(t, 0, 10);
    TwoEntryOrder(NormalizedRanking(t, 0, 10).value, NormalizedPrice("ETH", 4.0), NormalizedPrice("BTC", 1.5));
  }

  /** The service passes that ranking on unchanged. */
  lemma ExampleRanking(t: seq<StatsEntity>)
    requires IsExampleTable(t)
    ensures GetAllCurrenciesNormalized(t, Some(0), Some(10), 0, 0, 0)
      == Success([NormalizedPrice("ETH", 4.0), NormalizedPrice("BTC", 1.5)])
  {
    ExampleRepositoryRanking(t);
  }
}
