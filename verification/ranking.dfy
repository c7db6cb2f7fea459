/** `ORDER BY normalizedPrice DESC`: a descending sort of normalized prices. */
module Ranking {
  import opened Records

  /** Non-increasing by normalized price. */
  predicate SortedDesc(s: seq<NormalizedPrice>) {
    forall i, j :: 0 <= i < j < |s| ==> s[i].normalizedPrice >= s[j].normalizedPrice
  }

  /** No symbol appears twice. */
  predicate DistinctSymbols(s: seq<NormalizedPrice>) {
    forall i, j :: 0 <= i < j < |s| ==> s[i].symbol != s[j].symbol
  }

  /** Places `e` before the first entry with a smaller value. */
  function Insert(e: NormalizedPrice, s: seq<NormalizedPrice>): (r: seq<NormalizedPrice>)
    ensures multiset(r) == multiset(s) + multiset{e}
  {
    if s == [] || e.normalizedPrice >= s[0].normalizedPrice then [e] + s
    else
      assert s == [s[0]] + s[1..];
      [s[0]] + Insert(e, s[1..])
  }

  /** A sorted list stays sorted under a new head that is at least every entry. */
  lemma ConsSorted(h: NormalizedPrice, s: seq<NormalizedPrice>)
    requires SortedDesc(s)
    requires forall x :: x in s ==> x.normalizedPrice <= h.normalizedPrice
    ensures SortedDesc([h] + s)
  {
    forall i, j | 0 <= i < j < |[h] + s|
      ensures ([h] + s)[i].normalizedPrice >= ([h] + s)[j].normalizedPrice
    {
      assert ([h] + s)[j] == s[j - 1] && s[j - 1] in s;
      if i > 0 {
        assert ([h] + s)[i] == s[i - 1];
      }
    }
  }

  /** Insertion into a sorted list keeps it sorted. */
  lemma {:induction false} InsertSorted(e: NormalizedPrice, s: seq<NormalizedPrice>)
    requires SortedDesc(s)
    ensures SortedDesc(Insert(e, s))
  {
    if s == [] || e.normalizedPrice >= s[0].normalizedPrice {
      forall x | x in s ensures x.normalizedPrice <= e.normalizedPrice {
        var k :| 0 <= k < |s| && s[k] == x;
      }
      ConsSorted(e, s);
    } else {
      var rest := Insert(e, s[1..]);
      assert SortedDesc(s[1..]);
      InsertSorted(e, s[1..]);
      forall x | x in rest ensures x.normalizedPrice <= s[0].normalizedPrice {
        assert x in multiset(rest);
        if x != e {
          var k :| 1 <= k < |s| && s[k] == x;
        }
      }
      ConsSorted(s[0], rest);
    }
  }

  /** Insertion sort, non-increasing by normalized price. */
  function SortDesc(s: seq<NormalizedPrice>): (r: seq<NormalizedPrice>)
    ensures SortedDesc(r)
    ensures multiset(r) == multiset(s)
  {
    if s == [] then []
    else
      assert s == [s[0]] + s[1..];
      InsertSorted(s[0], SortDesc(s[1..]));
      Insert(s[0], SortDesc(s[1..]))
  }

  /** Inserting an entry whose symbol is new keeps the symbols distinct. */
  lemma {:induction false} InsertKeepsDistinct(e: NormalizedPrice, s: seq<NormalizedPrice>)
    requires SortedDesc(s) && DistinctSymbols(s)
    requires forall x :: x in s ==> x.symbol != e.symbol
    ensures DistinctSymbols(Insert(e, s))
  {
    if s == [] || e.normalizedPrice >= s[0].normalizedPrice {
      ConsDistinct(e, s);
    } else {
      InsertKeepsDistinct(e, s[1..]);
      var rest := Insert(e, s[1..]);
      forall x | x in rest ensures x.symbol != s[0].symbol {
        assert x in multiset(rest);
        if x != e {
          var k :| 1 <= k < |s| && s[k] == x;
        }
      }
      ConsDistinct(s[0], rest);
    }
  }

  /** A new head whose symbol no entry has keeps the symbols distinct. */
  lemma ConsDistinct(h: NormalizedPrice, s: seq<NormalizedPrice>)
    requires DistinctSymbols(s)
    requires forall x :: x in s ==> x.symbol != h.symbol
    ensures DistinctSymbols([h] + s)
  {
    forall i, j | 0 <= i < j < |[h] + s|
      ensures ([h] + s)[i].symbol != ([h] + s)[j].symbol
    {
      assert ([h] + s)[j] == s[j - 1] && s[j - 1] in s;
      if i > 0 {
        assert ([h] + s)[i] == s[i - 1];
      }
    }
  }

  /** Sorting keeps the symbols distinct. */
  lemma {:induction false} SortKeepsDistinct(s: seq<NormalizedPrice>)
    requires DistinctSymbols(s)
    ensures DistinctSymbols(SortDesc(s))
  {
    if s != [] {
      SortKeepsDistinct(s[1..]);
      var rest := SortDesc(s[1..]);
      forall x | x in rest ensures x.symbol != s[0].symbol {
        assert x in multiset(rest);
        var k :| 1 <= k < |s| && s[k] == x;
      }
      InsertKeepsDistinct(s[0], rest);
    }
  }
}
