/**
 * `MarketDataService`: a cache in front of the market-data provider.  Quotes
 * are cached one per symbol under `quote_<symbol>`; a request for several
 * symbols is deduplicated, split into the symbols already cached and the
 * missing ones, and only the missing ones are fetched, in one call, and
 * cached.  Options chains are cached under `options_<symbol>_<date>`.  The
 * provider is a parameter; the cache's time-to-live is not modelled.
 */
module MarketData {
  import opened Wrappers
  import opened Collections
  import opened Text

  /** A quote as the provider returns it; an empty `symbol` is a quote without one. */
  datatype Quote = Quote(symbol: string, price: real)

  /** An options chain as the provider returns it, kept as its raw body. */
  datatype Chain = Chain(body: string)

  /** What the cache holds under a key. */
  datatype Cached = QuoteEntry(quote: Quote) | ChainEntry(chain: Chain)

  function QuoteKey(symbol: string): string
  {
    "quote_" + symbol
  }

  /** `${date || 'current'}`: a missing date and the date 0 both read `current`. */
  function DateSuffix(date: Option<int>): (s: string)
    ensures '_' !in s && |s| > 0
  {
    if date.Some? && date.value != 0 then IntToString(date.value) else "current"
  }

  function OptionsKey(symbol: string, date: Option<int>): string
  {
    "options_" + symbol + "_" + DateSuffix(date)
  }

  predicate IsOptionsKey(k: string)
  {
    |k| >= 8 && k[..8] == "options_"
  }

  /** What may be filed under a key: a quote under its own symbol's key, a chain under an options key. */
  predicate FiledUnder(k: string, v: Cached)
  {
    match v
    case QuoteEntry(q) => q.symbol != "" && k == QuoteKey(q.symbol)
    case ChainEntry(_) => IsOptionsKey(k)
  }

  /** Quote keys and options keys never collide, so the one cache can hold both. */
  lemma KeysDisjoint(symbol: string, chainSymbol: string, date: Option<int>)
    ensures !IsOptionsKey(QuoteKey(symbol))
    ensures IsOptionsKey(OptionsKey(chainSymbol, date))
    ensures QuoteKey(symbol) != OptionsKey(chainSymbol, date)
  {
    assert QuoteKey(symbol)[0] == 'q';
    assert OptionsKey(chainSymbol, date)[..8] == "options_";
  }

  /** What is filed under an options key is a chain. */
  lemma OnlyChainsUnderOptionsKeys(k: string, v: Cached)
    ensures IsOptionsKey(k) && FiledUnder(k, v) ==> v.ChainEntry?
  {
    if v.QuoteEntry? {
      KeysDisjoint(v.quote.symbol, "", None);
    }
  }

  /** Different symbols have different quote keys. */
  lemma QuoteKeyInjective(a: string, b: string)
    requires QuoteKey(a) == QuoteKey(b)
    ensures a == b
  {
    assert a == QuoteKey(a)[6..] && b == QuoteKey(b)[6..];
  }

  /** The index of the last underscore of `k`. */
  function LastUnderscore(k: string): (r: Option<nat>)
    ensures r.Some? ==> r.value < |k| && k[r.value] == '_'
  {
    if k == [] then None
    else if k[|k| - 1] == '_' then Some(|k| - 1)
    else LastUnderscore(k[..|k| - 1])
  }

  /** The last underscore of `p_x` is the one before `x` when `x` has none. */
  lemma {:induction false} LastUnderscoreBefore(p: string, x: string)
    requires '_' !in x
    ensures LastUnderscore(p + "_" + x) == Some(|p|)
  {
    var k := p + "_" + x;
    if x != [] {
      var x' := x[..|x| - 1];
      assert k[..|k| - 1] == p + "_" + x';
      assert k[|k| - 1] == x[|x| - 1];
      LastUnderscoreBefore(p, x');
    } else {
      assert k[|k| - 1] == '_';
    }
  }

  /**
   * Two options requests share a key only when they are for the same symbol
   * and the same date, a missing date counting as the date 0.
   */
  lemma OptionsKeyInjective(s1: string, d1: Option<int>, s2: string, d2: Option<int>)
    requires OptionsKey(s1, d1) == OptionsKey(s2, d2)
    ensures s1 == s2 && DateSuffix(d1) == DateSuffix(d2)
  {
    var x1, x2 := DateSuffix(d1), DateSuffix(d2);
    var k := OptionsKey(s1, d1);
    assert k == ("options_" + s1) + "_" + x1 == ("options_" + s2) + "_" + x2;
    LastUnderscoreBefore("options_" + s1, x1);
    LastUnderscoreBefore("options_" + s2, x2);
    assert |s1| == |s2|;
    assert s1 == k[8..8 + |s1|] && s2 == k[8..8 + |s2|];
    assert x1 == k[9 + |s1|..] && x2 == k[9 + |s2|..];
  }

  /** `Array.from(new Set(symbols))`: each symbol once, at its first occurrence. */
  function Dedupe(symbols: seq<string>): (r: seq<string>)
    ensures Distinct(r)
    ensures forall s :: s in r <==> s in symbols
    ensures |r| <= |symbols|
  {
    if symbols == [] then []
    else
      var n := |symbols| - 1;
      var init := Dedupe(symbols[..n]);
      assert forall s :: s in symbols <==> s in symbols[..n] || s == symbols[n];
      if symbols[n] in init then init else init + [symbols[n]]
  }

  /** A list without repeats is left as it is. */
  lemma {:induction false} DedupeOfDistinct(symbols: seq<string>)
    requires Distinct(symbols)
    ensures Dedupe(symbols) == symbols
  {
    if symbols != [] {
      var n := |symbols| - 1;
      DedupeOfDistinct(symbols[..n]);
      assert symbols[n] !in symbols[..n];
      assert symbols[..n] + [symbols[n]] == symbols;
    }
  }

  /** The symbols of `unique` not in the cache, in order. */
  function MissingOf(cache: map<string, Cached>, unique: seq<string>): (r: seq<string>)
    ensures forall s :: s in r <==> s in unique && QuoteKey(s) !in cache
  {
    if unique == [] then []
    else
      var n := |unique| - 1;
      MissingOf(cache, unique[..n]) + (if QuoteKey(unique[n]) in cache then [] else [unique[n]])
  }

  /** The symbols of `unique` in the cache, in order. */
  function HitsOf(cache: map<string, Cached>, unique: seq<string>): (r: seq<string>)
    ensures forall s :: s in r <==> s in unique && QuoteKey(s) in cache
  {
    if unique == [] then []
    else
      var n := |unique| - 1;
      HitsOf(cache, unique[..n]) + (if QuoteKey(unique[n]) in cache then [unique[n]] else [])
  }

  /** Every requested symbol lands in exactly one of the two lists. */
  lemma {:induction false} PartitionSizes(cache: map<string, Cached>, unique: seq<string>)
    ensures |HitsOf(cache, unique)| + |MissingOf(cache, unique)| == |unique|
  {
    if unique != [] {
      PartitionSizes(cache, unique[..|unique| - 1]);
    }
  }

  /** The cache after storing the fetched quotes that have a symbol, in order. */
  function StoreAll(cache: map<string, Cached>, fetched: seq<Quote>): (c: map<string, Cached>)
    ensures forall q | q in fetched && q.symbol != "" :: QuoteKey(q.symbol) in c
    ensures forall k | k in cache :: k in c
    ensures forall k | k in c && k !in cache :: exists q | q in fetched && q.symbol != "" :: k == QuoteKey(q.symbol)
  {
    if fetched == [] then cache
    else
      var n := |fetched| - 1;
      var c := StoreAll(cache, fetched[..n]);
      assert forall q | q in fetched :: q in fetched[..n] || q == fetched[n];
      if fetched[n].symbol != "" then c[QuoteKey(fetched[n].symbol) := QuoteEntry(fetched[n])] else c
  }

  /** Storing fetched quotes keeps every entry filed under the right key. */
  lemma {:induction false} StoreAllFiled(cache: map<string, Cached>, fetched: seq<Quote>)
    requires forall k | k in cache :: FiledUnder(k, cache[k])
    ensures forall k | k in StoreAll(cache, fetched) :: FiledUnder(k, StoreAll(cache, fetched)[k])
  {
    if fetched != [] {
      StoreAllFiled(cache, fetched[..|fetched| - 1]);
    }
  }

  /** Keys other than quote keys of fetched symbols keep their entries. */
  lemma {:induction false} StoreAllElsewhere(cache: map<string, Cached>, fetched: seq<Quote>, k: string)
    requires k in cache
    requires forall q | q in fetched && q.symbol != "" :: k != QuoteKey(q.symbol)
    ensures StoreAll(cache, fetched)[k] == cache[k]
  {
    if fetched != [] {
      var n := |fetched| - 1;
      assert forall q | q in fetched[..n] :: q in fetched;
      assert fetched[n] in fetched;
      StoreAllElsewhere(cache, fetched[..n], k);
    }
  }

  /** The quotes filed under `symbols`' keys, in order. */
  function QuotesOf(cache: map<string, Cached>, symbols: seq<string>): (r: seq<Quote>)
    requires forall s | s in symbols :: QuoteKey(s) in cache && cache[QuoteKey(s)].QuoteEntry?
    ensures |r| == |symbols|
    ensures forall i | 0 <= i < |symbols| :: r[i] == cache[QuoteKey(symbols[i])].quote
  {
    if symbols == [] then []
    else
      var n := |symbols| - 1;
      QuotesOf(cache, symbols[..n]) + [cache[QuoteKey(symbols[n])].quote]
  }

  /** `allQuotes.find((q) => q.symbol === symbol)`. */
  function FindQuote(quotes: seq<Quote>, symbol: string): (r: Option<Quote>)
    ensures r.Some? ==> r.value in quotes && r.value.symbol == symbol
    ensures r.None? ==> forall q | q in quotes :: q.symbol != symbol
    ensures r.Some? ==> exists i | 0 <= i < |quotes| :: quotes[i] == r.value && FirstWith(quotes, symbol, i)
  {
    if quotes == [] then None
    else if quotes[0].symbol == symbol then Some(quotes[0])
    else
      var r := FindQuote(quotes[1..], symbol);
      FirstWithShift(quotes, symbol, r);
      r
  }

  lemma FirstWithShift(quotes: seq<Quote>, symbol: string, r: Option<Quote>)
    requires quotes != [] && quotes[0].symbol != symbol
    requires r.Some? ==> exists i | 0 <= i < |quotes| - 1 :: quotes[1..][i] == r.value && FirstWith(quotes[1..], symbol, i)
    ensures r.Some? ==> exists i | 0 <= i < |quotes| :: quotes[i] == r.value && FirstWith(quotes, symbol, i)
  {
    if r.Some? {
      var i :| 0 <= i < |quotes| - 1 && quotes[1..][i] == r.value && FirstWith(quotes[1..], symbol, i);
      assert quotes[i + 1] == r.value && FirstWith(quotes, symbol, i + 1);
    }
  }

  /** `quotes[i]` is the first quote with `symbol`. */
  predicate FirstWith(quotes: seq<Quote>, symbol: string, i: int)
  {
    0 <= i < |quotes| && quotes[i].symbol == symbol && forall j | 0 <= j < i :: quotes[j].symbol != symbol
  }

  /** A request for one symbol or for a list of them. */
  datatype Request = One(symbol: string) | Many(symbols: seq<string>)

  /** What `getQuote` resolves to: the list for a list, and one quote (or `undefined`) for one symbol. */
  datatype Answer = Quotes(quotes: seq<Quote>) | Single(quote: Option<Quote>)

  function Symbols(req: Request): seq<string>
  {
    match req
    case One(s) => [s]
    case Many(ss) => ss
  }

  /** Lines 71-78: the combined list, or for one symbol the quote for it, else the first quote. */
  function Combine(req: Request, all: seq<Quote>): (a: Answer)
    ensures req.Many? ==> a == Quotes(all)
    ensures req.One? ==> a.Single? && (a.quote.None? <==> all == [])
    ensures req.One? && a.quote.Some? ==> a.quote.value in all
    ensures req.One? && (exists q | q in all :: q.symbol == req.symbol) ==>
      a.quote.Some? && exists i | 0 <= i < |all| :: all[i] == a.quote.value && FirstWith(all, req.symbol, i)
    ensures req.One? && all != [] && (forall q | q in all :: q.symbol != req.symbol) ==> a.quote == Some(all[0])
  {
    match req
    case Many(_) => Quotes(all)
    case One(s) =>
      match FindQuote(all, s)
      case Some(q) => Single(Some(q))
      case None => if all == [] then Single(None) else Single(Some(all[0]))
  }

  class MarketDataService {
    var cache: map<string, Cached>

    /** Every cached quote is filed under its own symbol's key, and every chain under an options key. */
    ghost predicate Valid()
      reads this
    {
      forall k | k in cache :: FiledUnder(k, cache[k])
    }

    constructor()
      ensures cache == map[] && Valid()
    {
      cache := map[];
    }

    /**
     * `getOptionsChain(symbol, date)`, with the provider's answer `remote`.
     * A cache hit returns the cached chain and makes no call; otherwise the
     * provider is called, and its chain is cached and returned, or its
     * error passed on with the cache unchanged.
     */
    method GetOptionsChain(symbol: string, date: Option<int>, remote: Result<Chain, string>)
      returns (r: Result<Chain, string>, called: bool)
      requires Valid()
      modifies this
      ensures Valid()
      ensures called <==> OptionsKey(symbol, date) !in old(cache)
      ensures !called ==> cache == old(cache) && r.Ok? && old(cache)[OptionsKey(symbol, date)] == ChainEntry(r.value)
      ensures called ==> r == remote
      ensures called && remote.Ok? ==> cache == old(cache)[OptionsKey(symbol, date) := ChainEntry(remote.value)]
      ensures called && remote.Err? ==> cache == old(cache)
    {
      var cacheKey := OptionsKey(symbol, date);
      KeysDisjoint("", symbol, date);
      if cacheKey in cache {
        var cached := cache[cacheKey];
        OnlyChainsUnderOptionsKeys(cacheKey, cached);
        return Ok(cached.chain), false;
      }
      called := true;
      if remote.Err? {
        return remote, called;
      }
      cache := cache[cacheKey := ChainEntry(remote.value)];
      r := remote;
    }

    /** Line 41 for every symbol: the cached quotes and the missing symbols, in request order. */
    method Partition(unique: seq<string>) returns (cachedQuotes: seq<Quote>, missing: seq<string>)
      requires Valid()
      ensures missing == MissingOf(cache, unique)
      ensures forall s | s in HitsOf(cache, unique) :: cache[QuoteKey(s)].QuoteEntry?
      ensures cachedQuotes == QuotesOf(cache, HitsOf(cache, unique))
    {
      cachedQuotes, missing := [], [];
      for i := 0 to |unique|
        invariant missing == MissingOf(cache, unique[..i])
        invariant forall s | s in HitsOf(cache, unique[..i]) :: cache[QuoteKey(s)].QuoteEntry?
        invariant cachedQuotes == QuotesOf(cache, HitsOf(cache, unique[..i]))
      {
        var s := unique[i];
        assert unique[..i + 1][..i] == unique[..i] && unique[..i + 1][i] == s;
        var cacheKey := QuoteKey(s);
        if cacheKey in cache {
          KeysDisjoint(s, "", None);
          assert FiledUnder(cacheKey, cache[cacheKey]);
          var hits := HitsOf(cache, unique[..i]) + [s];
          assert hits[..|hits| - 1] == HitsOf(cache, unique[..i]);
          cachedQuotes := cachedQuotes + [cache[cacheKey].quote];
        } else {
          missing := missing + [s];
        }
      }
      assert unique[..|unique|] == unique;
    }

    /** Lines 59-63: cache every fetched quote that has a symbol. */
    method Store(fetched: seq<Quote>)
      requires Valid()
      modifies this
      ensures cache == StoreAll(old(cache), fetched)
      ensures Valid()
    {
      for i := 0 to |fetched|
        invariant cache == StoreAll(old(cache), fetched[..i])
      {
        assert fetched[..i + 1][..i] == fetched[..i];
        var q := fetched[i];
        if q.symbol != "" {
          cache := cache[QuoteKey(q.symbol) := QuoteEntry(q)];
        }
      }
      assert fetched[..|fetched|] == fetched;
      StoreAllFiled(old(cache), fetched);
    }

    /** `getQuote(symbol)`, with the provider as the function `remote`: see `GetQuoteSpec`. */
    method GetQuote(req: Request, remote: seq<string> -> Result<seq<Quote>, string>)
      returns (r: Result<Answer, string>, asked: Option<seq<string>>)
      requires Valid()
      modifies this
      ensures Valid()
      ensures QuoteCall(r, asked, cache) == GetQuoteSpec(old(cache), req, remote)
    {
      ghost var before := cache;
      var uniqueSymbols := Dedupe(Symbols(req));
      var cachedQuotes, missingSymbols := Partition(uniqueSymbols);
      ghost var spec := GetQuoteSpec(before, req, remote);
      if |missingSymbols| > 0 {
        asked := Some(missingSymbols);
        var result := remote(missingSymbols);
        if result.Err? {
          r := Err(result.error);
          assert spec == QuoteCall(r, asked, before);
          return;
        }
        Store(result.value);
        r := Ok(Combine(req, cachedQuotes + result.value));
        assert spec == QuoteCall(r, asked, StoreAll(before, result.value));
      } else {
        asked := None;
        r := Ok(Combine(req, cachedQuotes));
        assert spec == QuoteCall(r, asked, before);
      }
    }
  }

  /** What one `getQuote` call does: its result, the symbols it asks the provider for, and the cache after it. */
  datatype QuoteCall = QuoteCall(result: Result<Answer, string>, asked: Option<seq<string>>, cache: map<string, Cached>)

  lemma HitsAreQuotes(cache: map<string, Cached>, unique: seq<string>)
    requires forall k | k in cache :: FiledUnder(k, cache[k])
    ensures forall s | s in HitsOf(cache, unique) :: cache[QuoteKey(s)].QuoteEntry?
  {
    forall s | s in HitsOf(cache, unique)
      ensures cache[QuoteKey(s)].QuoteEntry?
    {
      KeysDisjoint(s, "", None);
      assert FiledUnder(QuoteKey(s), cache[QuoteKey(s)]);
    }
  }

  /**
   * Lines 31-78: deduplicate, split into cached and missing, call the
   * provider with the missing symbols only when there are some, cache what
   * it returns, and combine the cached quotes with the fetched ones.
   */
  function GetQuoteSpec(cache: map<string, Cached>, req: Request, remote: seq<string> -> Result<seq<Quote>, string>): (call: QuoteCall)
    requires forall k | k in cache :: FiledUnder(k, cache[k])
    ensures forall k | k in call.cache :: FiledUnder(k, call.cache[k])
  {
    var unique := Dedupe(Symbols(req));
    var missing := MissingOf(cache, unique);
    HitsAreQuotes(cache, unique);
    var cached := QuotesOf(cache, HitsOf(cache, unique));
    if missing == [] then QuoteCall(Ok(Combine(req, cached)), None, cache)
    else
      match remote(missing)
      case Err(e) => QuoteCall(Err(e), Some(missing), cache)
      case Ok(fetched) =>
        StoreAllFiled(cache, fetched);
        QuoteCall(Ok(Combine(req, cached + fetched)), Some(missing), StoreAll(cache, fetched))
  }

  /**
   * The provider is called exactly when some requested symbol is not
   * cached, and it is asked for each missing symbol once.
   */
  lemma GetQuoteAsksMissing(cache: map<string, Cached>, req: Request, remote: seq<string> -> Result<seq<Quote>, string>)
    requires forall k | k in cache :: FiledUnder(k, cache[k])
    ensures var call := GetQuoteSpec(cache, req, remote);
      && (call.asked.Some? <==> exists s | s in Symbols(req) :: QuoteKey(s) !in cache)
      && (call.asked.Some? ==> Distinct(call.asked.value) && forall s :: s in call.asked.value <==> s in Symbols(req) && QuoteKey(s) !in cache)
  {
    var unique := Dedupe(Symbols(req));
    MissingDistinct(cache, unique);
    var missing := MissingOf(cache, unique);
    if missing != [] {
      assert missing[0] in missing;
    } else {
      assert forall s | s in Symbols(req) :: s in unique;
    }
  }

  /**
   * A failed provider call leaves the cache as it was; a successful one
   * caches every fetched quote that has a symbol, keeps every earlier key,
   * and adds no key but those of fetched quotes.
   */
  lemma GetQuoteStores(cache: map<string, Cached>, req: Request, remote: seq<string> -> Result<seq<Quote>, string>)
    requires forall k | k in cache :: FiledUnder(k, cache[k])
    ensures var call := GetQuoteSpec(cache, req, remote);
      && (call.result.Err? ==> call.cache == cache && call.asked.Some? && remote(call.asked.value).Err?)
      && (call.result.Err? ==> call.result.error == remote(call.asked.value).error)
      && (call.asked.None? ==> call.cache == cache)
      && (call.result.Ok? && call.asked.Some? ==>
            var fetched := remote(call.asked.value).value;
            && (forall q | q in fetched && q.symbol != "" :: QuoteKey(q.symbol) in call.cache)
            && (forall k | k in cache :: k in call.cache)
            && (forall k | k in call.cache && k !in cache :: exists q | q in fetched && q.symbol != "" :: k == QuoteKey(q.symbol)))
  {
    var call := GetQuoteSpec(cache, req, remote);
    var missing := MissingOf(cache, Dedupe(Symbols(req)));
    if missing == [] {
      assert call.asked.None? && call.cache == cache;
    } else if remote(missing).Err? {
      assert call.asked == Some(missing) && call.cache == cache;
    } else {
      assert call.asked == Some(missing) && call.cache == StoreAll(cache, remote(missing).value);
    }
  }

  /**
   * A second request for the same symbols, after a call whose provider
   * answers with a quote for every symbol it is asked for, is served from
   * the cache without calling the provider.
   */
  lemma RepeatIsServedFromCache(cache: map<string, Cached>, req: Request, remote: seq<string> -> Result<seq<Quote>, string>,
                                remote': seq<string> -> Result<seq<Quote>, string>)
    requires forall k | k in cache :: FiledUnder(k, cache[k])
    requires forall s | s in Symbols(req) :: s != ""
    requires forall asked: seq<string> :: remote(asked).Ok? && forall s | s in asked :: exists q | q in remote(asked).value :: q.symbol == s
    ensures GetQuoteSpec(GetQuoteSpec(cache, req, remote).cache, req, remote').asked.None?
  {
    var call := GetQuoteSpec(cache, req, remote);
    var unique := Dedupe(Symbols(req));
    var missing := MissingOf(cache, unique);
    if missing == [] {
      MissingOfAllCached(cache, unique);
    } else {
      var fetched := remote(missing).value;
      assert call.cache == StoreAll(cache, fetched);
      AnsweredAreCached(cache, unique, fetched);
      MissingOfAllCached(call.cache, unique);
    }
  }

  lemma AnsweredAreCached(cache: map<string, Cached>, unique: seq<string>, fetched: seq<Quote>)
    requires forall s | s in unique :: s != ""
    requires forall s | s in MissingOf(cache, unique) :: exists q | q in fetched :: q.symbol == s
    ensures forall s | s in unique :: QuoteKey(s) in StoreAll(cache, fetched)
  {
    forall s | s in unique
      ensures QuoteKey(s) in StoreAll(cache, fetched)
    {
      if QuoteKey(s) !in cache {
        assert s in MissingOf(cache, unique);
        var q :| q in fetched && q.symbol == s;
      }
    }
  }

  lemma {:induction false} MissingOfAllCached(cache: map<string, Cached>, unique: seq<string>)
    requires forall s | s in unique :: QuoteKey(s) in cache
    ensures MissingOf(cache, unique) == []
  {
    if unique != [] {
      MissingOfAllCached(cache, unique[..|unique| - 1]);
      assert unique[|unique| - 1] in unique;
    }
  }

  lemma {:induction false} MissingDistinct(cache: map<string, Cached>, unique: seq<string>)
    requires Distinct(unique)
    ensures Distinct(MissingOf(cache, unique))
  {
    if unique != [] {
      var n := |unique| - 1;
      MissingDistinct(cache, unique[..n]);
      assert unique[n] !in unique[..n];
    }
  }

  /**
   * After a successful fetch every fetched quote with a symbol is cached
   * under its key, and nothing but the keys of fetched symbols changed.
   */
  lemma FetchedAreCached(cache: map<string, Cached>, fetched: seq<Quote>)
    ensures forall q | q in fetched && q.symbol != "" :: QuoteKey(q.symbol) in StoreAll(cache, fetched)
    ensures forall k | k in cache && (forall q | q in fetched && q.symbol != "" :: k != QuoteKey(q.symbol)) ::
      StoreAll(cache, fetched)[k] == cache[k]
  {
    forall k | k in cache && (forall q | q in fetched && q.symbol != "" :: k != QuoteKey(q.symbol))
      ensures StoreAll(cache, fetched)[k] == cache[k]
    {
      StoreAllElsewhere(cache, fetched, k);
    }
  }
}
