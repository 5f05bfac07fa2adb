/**
 * `updateSymbols`, which builds the front end's list of tradable symbols:
 * rank the listed stocks by market capitalisation (an unreadable one counting
 * as 0), keep the 600 largest, put the common ETFs in front, keep the first
 * entry of every symbol, and sort the result by symbol.  The download of the
 * exchange listings and the writing of the file are left out: the listings
 * are the input and the list is the output.
 */
module SymbolList {
  import opened Wrappers

  const TopCount := 600

  /** A listing as downloaded; `marketCap` is `None` where `parseFloat` gives NaN. */
  datatype RawStock = RawStock(symbol: string, name: string, marketCap: Option<real>)

  datatype Stock = Stock(symbol: string, name: string, marketCap: real)

  /** An entry of the output list. */
  datatype Item = Item(symbol: string, name: string)

  const CommonEtfs: seq<Item> := [
    Item("SPY", "SPDR S&P 500 ETF Trust"),
    Item("QQQ", "Invesco QQQ Trust"),
    Item("VOO", "Vanguard S&P 500 ETF"),
    Item("IVV", "iShares Core S&P 500 ETF"),
    Item("VTI", "Vanguard Total Stock Market ETF"),
    Item("IWM", "iShares Russell 2000 ETF"),
    Item("EFA", "iShares MSCI EAFE ETF"),
    Item("VWO", "Vanguard FTSE Emerging Markets ETF"),
    Item("AGG", "iShares Core U.S. Aggregate Bond ETF"),
    Item("GLD", "SPDR Gold Shares"),
    Item("XLF", "Financial Select Sector SPDR Fund"),
    Item("XLK", "Technology Select Sector SPDR Fund"),
    Item("XLV", "Health Care Select Sector SPDR Fund"),
    Item("XLY", "Consumer Discretionary Select Sector SPDR Fund"),
    Item("XLP", "Consumer Staples Select Sector SPDR Fund"),
    Item("XLI", "Industrials Select Sector SPDR Fund"),
    Item("XLU", "Utilities Select Sector SPDR Fund"),
    Item("XLE", "Energy Select Sector SPDR Fund"),
    Item("XLB", "Materials Select Sector SPDR Fund"),
    Item("XLRE", "Real Estate Select Sector SPDR Fund"),
    Item("TLT", "iShares 20+ Year Treasury Bond ETF"),
    Item("HYG", "iShares iBoxx $ High Yield Corporate Bond ETF"),
    Item("EEM", "iShares MSCI Emerging Markets ETF"),
    Item("DIA", "SPDR Dow Jones Industrial Average ETF Trust")
  ]

  /** Lines 70-75: the market cap read as a number, NaN becoming 0. */
  function Rank(s: RawStock): (r: Stock)
    ensures r.symbol == s.symbol && r.name == s.name
    ensures s.marketCap.None? ==> r.marketCap == 0.0
    ensures s.marketCap.Some? ==> r.marketCap == s.marketCap.value
  {
    Stock(s.symbol, s.name, if s.marketCap.Some? then s.marketCap.value else 0.0)
  }

  function RankAll(stocks: seq<RawStock>): (r: seq<Stock>)
    ensures |r| == |stocks|
    ensures forall i | 0 <= i < |stocks| :: r[i] == Rank(stocks[i])
  {
    if stocks == [] then [] else RankAll(stocks[..|stocks| - 1]) + [Rank(stocks[|stocks| - 1])]
  }

  // ---------------------------------------------------------------------
  // Ranking: a stable sort by market cap, largest first

  predicate SortedByCap(s: seq<Stock>)
  {
    forall i, j | 0 <= i < j < |s| :: s[i].marketCap >= s[j].marketCap
  }

  /** `x`, which came before every stock of `t`, placed before the first stock of `t` not larger than it. */
  function InsertByCap(x: Stock, t: seq<Stock>): (r: seq<Stock>)
    requires SortedByCap(t)
    ensures SortedByCap(r)
    ensures multiset(r) == multiset(t) + multiset{x}
    ensures forall y | y in r :: y == x || y in t
  {
    if t == [] || t[0].marketCap <= x.marketCap then
      assert forall y | y in t :: t[0].marketCap >= y.marketCap;
      [x] + t
    else
      var rest := InsertByCap(x, t[1..]);
      assert t == [t[0]] + t[1..];
      assert forall y | y in rest :: t[0].marketCap >= y.marketCap;
      assert forall j | 0 < j < |rest| + 1 :: ([t[0]] + rest)[j] == rest[j - 1];
      [t[0]] + rest
  }

  /** `.sort((a, b) => b.marketCap - a.marketCap)`; the JavaScript sort is stable. */
  function SortByCap(s: seq<Stock>): (r: seq<Stock>)
    ensures SortedByCap(r)
    ensures multiset(r) == multiset(s)
  {
    if s == [] then []
    else
      assert s == [s[0]] + s[1..];
      InsertByCap(s[0], SortByCap(s[1..]))
  }

  /** The stocks of `s` with market cap `c`, in order. */
  function WithCap(s: seq<Stock>, c: real): seq<Stock>
  {
    if s == [] then [] else (if s[0].marketCap == c then [s[0]] else []) + WithCap(s[1..], c)
  }

  lemma WithCapCons(a: Stock, rest: seq<Stock>, c: real)
    ensures WithCap([a] + rest, c) == (if a.marketCap == c then [a] else []) + WithCap(rest, c)
  {
    assert ([a] + rest)[1..] == rest;
  }

  lemma {:induction false} WithCapInsert(x: Stock, t: seq<Stock>, c: real)
    requires SortedByCap(t)
    ensures WithCap(InsertByCap(x, t), c) == (if x.marketCap == c then [x] else []) + WithCap(t, c)
  {
    if t == [] || t[0].marketCap <= x.marketCap {
      WithCapCons(x, t, c);
    } else {
      var rest := InsertByCap(x, t[1..]);
      assert InsertByCap(x, t) == [t[0]] + rest;
      WithCapInsert(x, t[1..], c);
      WithCapCons(t[0], rest, c);
      assert t == [t[0]] + t[1..];
      WithCapCons(t[0], t[1..], c);
      if x.marketCap == c {
        assert t[0].marketCap != c;
        assert WithCap(t, c) == WithCap(t[1..], c);
      } else if t[0].marketCap == c {
        assert WithCap(InsertByCap(x, t), c) == [t[0]] + WithCap(t[1..], c);
      }
    }
  }

  /** The ranking is stable: stocks with equal market caps keep their listing order. */
  lemma {:induction false} SortByCapStable(s: seq<Stock>, c: real)
    ensures WithCap(SortByCap(s), c) == WithCap(s, c)
  {
    if s != [] {
      SortByCapStable(s[1..], c);
      WithCapInsert(s[0], SortByCap(s[1..]), c);
    }
  }

  /** Lines 80-82: the first 600 of the ranking. */
  function Top(ranked: seq<Stock>): (r: seq<Stock>)
    ensures |r| <= TopCount && |r| <= |ranked| && r == ranked[..|r|]
    ensures |ranked| <= TopCount ==> r == ranked
  {
    if |ranked| <= TopCount then ranked else ranked[..TopCount]
  }

  /** Nothing left out of the top is larger than anything kept. */
  lemma TopAreLargest(ranked: seq<Stock>)
    requires SortedByCap(ranked)
    ensures forall x, y | x in Top(ranked) && y in ranked && y !in Top(ranked) :: x.marketCap >= y.marketCap
  {
    var top := Top(ranked);
    forall x, y | x in top && y in ranked && y !in top
      ensures x.marketCap >= y.marketCap
    {
      var i :| 0 <= i < |top| && top[i] == x;
      var j :| 0 <= j < |ranked| && ranked[j] == y;
      assert forall k | 0 <= k < |top| :: ranked[k] in top;
      assert i < j;
    }
  }

  function ItemOf(s: Stock): Item
  {
    Item(s.symbol, s.name)
  }

  function Items(s: seq<Stock>): (r: seq<Item>)
    ensures |r| == |s|
    ensures forall i | 0 <= i < |s| :: r[i] == ItemOf(s[i])
  {
    if s == [] then [] else Items(s[..|s| - 1]) + [ItemOf(s[|s| - 1])]
  }

  // ---------------------------------------------------------------------
  // Deduplication: the first entry of every symbol, in order

  function SymbolsOf(items: seq<Item>): (r: seq<string>)
    ensures |r| == |items|
    ensures forall i | 0 <= i < |items| :: r[i] == items[i].symbol
  {
    if items == [] then [] else SymbolsOf(items[..|items| - 1]) + [items[|items| - 1].symbol]
  }

  /** Lines 88-93: the values of `uniqueMap` in insertion order. */
  function FirstBySymbol(items: seq<Item>): (r: seq<Item>)
    ensures forall it | it in r :: it in items
    ensures forall s :: s in SymbolsOf(r) <==> s in SymbolsOf(items)
  {
    if items == [] then []
    else
      var n := |items| - 1;
      var init := FirstBySymbol(items[..n]);
      assert forall s :: s in SymbolsOf(items) <==> s in SymbolsOf(items[..n]) || s == items[n].symbol by {
        assert SymbolsOf(items) == SymbolsOf(items[..n]) + [items[n].symbol];
      }
      if items[n].symbol in SymbolsOf(init) then init
      else
        var r := init + [items[n]];
        assert SymbolsOf(r) == SymbolsOf(init) + [items[n].symbol];
        r
  }

  predicate DistinctSymbols(items: seq<Item>)
  {
    forall i, j | 0 <= i < j < |items| :: items[i].symbol != items[j].symbol
  }

  /** The entry at `i` is the first entry with its symbol. */
  predicate FirstWith(items: seq<Item>, i: int)
  {
    0 <= i < |items| && forall j | 0 <= j < i :: items[j].symbol != items[i].symbol
  }

  /** Each symbol is kept once. */
  lemma {:induction false} FirstBySymbolDistinct(items: seq<Item>)
    ensures DistinctSymbols(FirstBySymbol(items))
  {
    if items != [] {
      var n := |items| - 1;
      var init := FirstBySymbol(items[..n]);
      FirstBySymbolDistinct(items[..n]);
      if items[n].symbol !in SymbolsOf(init) {
        assert forall i | 0 <= i < |init| :: init[i].symbol == SymbolsOf(init)[i];
      }
    }
  }

  lemma FirstWithPrefix(items: seq<Item>, n: nat, i: int)
    requires n <= |items| && FirstWith(items[..n], i)
    ensures FirstWith(items, i) && items[i] == items[..n][i]
  {
    assert forall j | 0 <= j <= i :: items[..n][j] == items[j];
  }

  /**
   * The entry kept for a symbol is the first entry with that symbol: an ETF
   * listed in front wins over a stock of the same symbol.
   */
  lemma {:induction false} FirstBySymbolIsFirst(items: seq<Item>)
    ensures forall it | it in FirstBySymbol(items) :: exists i | FirstWith(items, i) :: items[i] == it
  {
    if items != [] {
      var n := |items| - 1;
      var init := FirstBySymbol(items[..n]);
      FirstBySymbolIsFirst(items[..n]);
      forall it | it in FirstBySymbol(items)
        ensures exists i | FirstWith(items, i) :: items[i] == it
      {
        if it in init {
          var i :| FirstWith(items[..n], i) && items[..n][i] == it;
          FirstWithPrefix(items, n, i);
        } else {
          assert it == items[n] && items[n].symbol !in SymbolsOf(items[..n]);
          assert forall j | 0 <= j < n :: items[j].symbol == SymbolsOf(items[..n])[j];
          assert FirstWith(items, n);
        }
      }
    }
  }

  lemma {:induction false} FirstBySymbolLength(items: seq<Item>)
    ensures |FirstBySymbol(items)| <= |items|
  {
    if items != [] {
      FirstBySymbolLength(items[..|items| - 1]);
    }
  }

  /** The loop of lines 88-93 over a `Map` from symbol to entry, whose values keep their insertion order. */
  method KeepFirst(combined: seq<Item>) returns (values: seq<Item>)
    ensures values == FirstBySymbol(combined)
  {
    var uniqueMap: map<string, Item> := map[];
    var keys: seq<string> := [];
    values := [];
    for i := 0 to |combined|
      invariant values == FirstBySymbol(combined[..i])
      invariant keys == SymbolsOf(values)
      invariant forall s :: s in uniqueMap <==> s in keys
    {
      var item := combined[i];
      assert combined[..i + 1][..i] == combined[..i] && combined[..i + 1][i] == item;
      if item.symbol !in uniqueMap {
        uniqueMap := uniqueMap[item.symbol := item];
        keys := keys + [item.symbol];
        values := values + [item];
      }
    }
    assert combined[..|combined|] == combined;
  }

  // ---------------------------------------------------------------------
  // The final order: by symbol, code unit by code unit

  /** `a` comes no later than `b` in lexicographic order. */
  predicate LessEq(a: string, b: string)
  {
    a == [] || (b != [] && (a[0] < b[0] || (a[0] == b[0] && LessEq(a[1..], b[1..]))))
  }

  lemma {:induction false} LessEqTotal(a: string, b: string)
    ensures LessEq(a, b) || LessEq(b, a)
  {
    if a != [] && b != [] && a[0] == b[0] {
      LessEqTotal(a[1..], b[1..]);
    }
  }

  predicate SortedBySymbol(items: seq<Item>)
  {
    forall i | 0 < i < |items| :: LessEq(items[i - 1].symbol, items[i].symbol)
  }

  function InsertBySymbol(x: Item, t: seq<Item>): (r: seq<Item>)
    requires SortedBySymbol(t)
    ensures SortedBySymbol(r)
    ensures multiset(r) == multiset(t) + multiset{x}
    ensures forall y | y in r :: y == x || y in t
    ensures |r| > 0 && (r[0] == x || (t != [] && r[0] == t[0]))
  {
    if t == [] || LessEq(x.symbol, t[0].symbol) then [x] + t
    else
      LessEqTotal(x.symbol, t[0].symbol);
      var rest := InsertBySymbol(x, t[1..]);
      assert t == [t[0]] + t[1..];
      [t[0]] + rest
  }

  /** `.sort((a, b) => a.symbol.localeCompare(b.symbol))`, with plain code-unit order. */
  function SortBySymbol(items: seq<Item>): (r: seq<Item>)
    ensures SortedBySymbol(r)
    ensures multiset(r) == multiset(items)
  {
    if items == [] then []
    else
      assert items == [items[0]] + items[1..];
      InsertBySymbol(items[0], SortBySymbol(items[1..]))
  }

  /** The 600 largest stocks, as entries. */
  function TopItems(allStocks: seq<RawStock>): seq<Item>
  {
    Items(Top(SortByCap(RankAll(allStocks))))
  }

  /** The list `updateSymbols` writes. */
  function FinalList(allStocks: seq<RawStock>): seq<Item>
  {
    Merged(CommonEtfs, TopItems(allStocks))
  }

  /** Lines 68-97: rank, keep the top 600, put the ETFs first, keep the first of each symbol, sort. */
  method UpdateSymbols(allStocks: seq<RawStock>) returns (finalList: seq<Item>)
    ensures finalList == FinalList(allStocks)
  {
    var processedStocks := SortByCap(RankAll(allStocks));
    var topStocks := Items(Top(processedStocks));
    var combined := CommonEtfs + topStocks;
    var unique := KeepFirst(combined);
    finalList := SortBySymbol(unique);
  }

  lemma {:induction false} InsertBySymbolDistinct(x: Item, t: seq<Item>)
    requires SortedBySymbol(t) && DistinctSymbols(t)
    requires forall y | y in t :: y.symbol != x.symbol
    ensures DistinctSymbols(InsertBySymbol(x, t))
  {
    if !(t == [] || LessEq(x.symbol, t[0].symbol)) {
      InsertBySymbolDistinct(x, t[1..]);
      var rest := InsertBySymbol(x, t[1..]);
      assert forall y | y in t[1..] :: y.symbol != t[0].symbol by {
        forall y | y in t[1..] ensures y.symbol != t[0].symbol {
          var k :| 0 <= k < |t[1..]| && t[1..][k] == y;
          assert t[k + 1] == y;
        }
      }
      assert forall j | 0 < j < |rest| + 1 :: ([t[0]] + rest)[j] == rest[j - 1];
    } else {
      assert forall j | 0 < j < |t| + 1 :: ([x] + t)[j] == t[j - 1];
    }
  }

  /** Sorting keeps the symbols distinct. */
  lemma {:induction false} SortBySymbolDistinct(items: seq<Item>)
    requires DistinctSymbols(items)
    ensures DistinctSymbols(SortBySymbol(items))
  {
    if items != [] {
      var tail := items[1..];
      assert DistinctSymbols(tail) by {
        assert forall i | 0 <= i < |tail| :: tail[i] == items[i + 1];
      }
      SortBySymbolDistinct(tail);
      var sorted := SortBySymbol(tail);
      forall y | y in sorted ensures y.symbol != items[0].symbol {
        assert y in multiset(tail);
        var k :| 0 <= k < |tail| && tail[k] == y;
        assert items[k + 1] == y;
      }
      InsertBySymbolDistinct(items[0], sorted);
    }
  }

  /** The list built from a front list `etfs` and the stocks `top`. */
  function Merged(etfs: seq<Item>, top: seq<Item>): seq<Item>
  {
    SortBySymbol(FirstBySymbol(etfs + top))
  }

  lemma MergedSortedAndDistinct(etfs: seq<Item>, top: seq<Item>)
    ensures SortedBySymbol(Merged(etfs, top)) && DistinctSymbols(Merged(etfs, top))
  {
    FirstBySymbolDistinct(etfs + top);
    SortBySymbolDistinct(FirstBySymbol(etfs + top));
  }

  lemma MergedFromSources(etfs: seq<Item>, top: seq<Item>)
    ensures forall it | it in Merged(etfs, top) :: it in etfs || it in top
  {
    var unique := FirstBySymbol(etfs + top);
    forall it | it in Merged(etfs, top)
      ensures it in etfs || it in top
    {
      assert it in multiset(unique);
      assert it in etfs + top;
    }
  }

  lemma MergedHasFront(etfs: seq<Item>, top: seq<Item>)
    ensures forall e | e in etfs :: exists it | it in Merged(etfs, top) :: it.symbol == e.symbol && it in etfs
  {
    var combined := etfs + top;
    var unique := FirstBySymbol(combined);
    FirstBySymbolIsFirst(combined);
    forall e | e in etfs
      ensures exists it | it in Merged(etfs, top) :: it.symbol == e.symbol && it in etfs
    {
      var k :| 0 <= k < |etfs| && etfs[k] == e;
      assert SymbolsOf(combined)[k] == e.symbol;
      assert e.symbol in SymbolsOf(unique);
      var m :| 0 <= m < |unique| && SymbolsOf(unique)[m] == e.symbol;
      var it := unique[m];
      assert it in unique && it.symbol == combined[k].symbol;
      var i :| FirstWith(combined, i) && combined[i] == it;
      assert i <= k;
      assert combined[i] == etfs[i];
      assert it in multiset(Merged(etfs, top));
    }
  }

  /** The written list is sorted by symbol and has pairwise distinct symbols. */
  lemma FinalListSortedAndDistinct(allStocks: seq<RawStock>)
    ensures SortedBySymbol(FinalList(allStocks)) && DistinctSymbols(FinalList(allStocks))
  {
    MergedSortedAndDistinct(CommonEtfs, TopItems(allStocks));
  }

  /** Every entry of the written list is a common ETF or one of the 600 largest stocks. */
  lemma FinalListFromSources(allStocks: seq<RawStock>)
    ensures forall it | it in FinalList(allStocks) :: it in CommonEtfs || it in TopItems(allStocks)
  {
    MergedFromSources(CommonEtfs, TopItems(allStocks));
  }

  /** Every common ETF is in the written list, with the ETF's own entry even where a stock shares its symbol. */
  lemma FinalListHasEtfs(allStocks: seq<RawStock>)
    ensures forall e | e in CommonEtfs :: exists it | it in FinalList(allStocks) :: it.symbol == e.symbol && it in CommonEtfs
  {
    MergedHasFront(CommonEtfs, TopItems(allStocks));
  }

  /** At most the 24 ETFs and the 600 stocks are written. */
  lemma FinalListSize(allStocks: seq<RawStock>)
    ensures |FinalList(allStocks)| <= |CommonEtfs| + TopCount
  {
    var unique := FirstBySymbol(CommonEtfs + TopItems(allStocks));
    FirstBySymbolLength(CommonEtfs + TopItems(allStocks));
    assert |multiset(FinalList(allStocks))| == |multiset(unique)|;
  }
}
