/**
 * `TradingService.calculateHoldings`: folds one portfolio's chronological
 * trades into one average-cost holding per option symbol and keeps the open
 * ones.  The JavaScript keeps the holdings in a `Map` (insertion ordered) whose
 * entries it updates in place; here the map is a `map` plus the sequence of
 * its keys in insertion order, reassigned as the loop runs.
 */
module TradingHoldings {
  import opened Wrappers
  import opened Collections
  import opened Text
  import opened Trades
  import opened OptionSymbol

  datatype Holding = Holding(
    symbol: string,
    optionSymbol: string,
    side: Side,
    quantity: int,
    totalCost: real,
    avgPrice: real,
    strike: real)

  /**
   * The strike of an option symbol: the eight digits of the leftmost
   * `[A-Z]+\d{6}[CP]\d{8}` match divided by 1000, or 0 when nothing matches.
   */
  function StrikeOf(optionSymbol: string): (r: real)
    ensures 0.0 <= r < 100000.0
    ensures FirstOcc(optionSymbol).None? ==> r == 0.0
    ensures FirstOcc(optionSymbol).Some? ==>
      var k := FirstOcc(optionSymbol).value;
      r * 1000.0 == DigitsValue(optionSymbol[k + 7..k + 15]) as real
  {
    match FirstOcc(optionSymbol)
    case None => 0.0
    case Some(k) =>
      assert Pow10(8) == 100000000;
      DigitsValue(optionSymbol[k + 7..k + 15]) as real / 1000.0
  }

  /** Parsing the strike of an encoded contract gives back its strike. */
  lemma StrikeOfEncoded(c: Contract)
    requires WellFormed(c)
    ensures StrikeOf(Encode(c)) == c.strikeMilli as real / 1000.0
  {
    FirstMatchOfEncoded(c);
    EncodeLayout(c);
  }

  /** The average-cost identity `totalCost = avgPrice × quantity × 100`. */
  predicate Balanced(h: Holding)
  {
    h.totalCost == h.avgPrice * h.quantity as real * 100.0
  }

  /** The empty holding created the first time an option symbol is seen. */
  function Opened(t: Trade): (h: Holding)
    ensures h.optionSymbol == t.optionSymbol && h.quantity == 0 && Balanced(h)
  {
    Holding(t.symbol, t.optionSymbol, t.side, 0, 0.0, 0.0, StrikeOf(t.optionSymbol))
  }

  /**
   * One trade applied to its holding.  A BUY adds its cost and re-derives the
   * average price; a SELL removes `quantity × 100 × avgPrice` of cost and
   * keeps the average price.
   */
  function Apply(h: Holding, t: Trade): (r: Holding)
    requires t.kind == Buy ==> h.quantity + t.quantity != 0
    ensures r.quantity == h.quantity + Signed(t)
    ensures r.symbol == h.symbol && r.optionSymbol == h.optionSymbol && r.side == h.side && r.strike == h.strike
  {
    match t.kind
    case Buy =>
      var cost := h.totalCost + t.price * t.quantity as real * 100.0;
      var quantity := h.quantity + t.quantity;
      h.(totalCost := cost, quantity := quantity, avgPrice := cost / (quantity as real * 100.0))
    case Sell =>
      h.(totalCost := h.totalCost - t.quantity as real * 100.0 * h.avgPrice, quantity := h.quantity - t.quantity)
  }

  /**
   * The ledger identity of lines 43-51: a BUY adds `price × quantity × 100` to
   * the cost and leaves the holding balanced; a SELL keeps the average price,
   * so it keeps a balanced holding balanced.
   */
  lemma ApplyKeepsBalance(h: Holding, t: Trade)
    requires t.kind == Buy ==> h.quantity + t.quantity != 0
    ensures t.kind == Buy ==> Apply(h, t).totalCost == h.totalCost + t.price * t.quantity as real * 100.0
    ensures t.kind == Sell ==> Apply(h, t).avgPrice == h.avgPrice
    ensures t.kind == Buy || Balanced(h) ==> Balanced(Apply(h, t))
  {
    var r := Apply(h, t);
    if t.kind == Sell && Balanced(h) {
      calc {
        r.totalCost;
        h.totalCost - t.quantity as real * 100.0 * h.avgPrice;
        h.avgPrice * h.quantity as real * 100.0 - h.avgPrice * t.quantity as real * 100.0;
        h.avgPrice * (h.quantity - t.quantity) as real * 100.0;
      }
    }
  }

  /** The holdings map and its keys in insertion order. */
  datatype Book = Book(entries: map<string, Holding>, order: seq<string>)

  /**
   * What the map holds after folding `trades`: each key once in insertion
   * order, an entry for every symbol traded, and each entry balanced, holding
   * the net position of its symbol and the strike parsed from it.
   */
  ghost predicate BookOf(b: Book, trades: seq<Trade>)
  {
    && Distinct(b.order)
    && (forall s :: s in b.entries <==> s in b.order)
    && (forall t | t in trades :: t.optionSymbol in b.entries)
    && (forall s | s in b.entries ::
          && b.entries[s].optionSymbol == s
          && b.entries[s].quantity == Net(trades, s)
          && b.entries[s].strike == StrikeOf(s)
          && Balanced(b.entries[s]))
  }

  /** The quantity the map holds for `optionSymbol`, 0 before its first trade. */
  function QuantityIn(b: Book, optionSymbol: string): int
  {
    if optionSymbol in b.entries then b.entries[optionSymbol].quantity else 0
  }

  /** One iteration of the loop of lines 19-52. */
  function Step(b: Book, t: Trade): Book
    requires t.kind == Buy ==> QuantityIn(b, t.optionSymbol) + t.quantity != 0
  {
    if t.optionSymbol in b.entries then
      Book(b.entries[t.optionSymbol := Apply(b.entries[t.optionSymbol], t)], b.order)
    else
      Book(b.entries[t.optionSymbol := Apply(Opened(t), t)], b.order + [t.optionSymbol])
  }

  /** A covered trade can be applied to the book of a covered log, and the result is the book of the longer log. */
  lemma StepKeepsBook(b: Book, trades: seq<Trade>, t: Trade)
    requires BookOf(b, trades)
    requires SellsCovered(trades + [t])
    ensures t.kind == Buy ==> QuantityIn(b, t.optionSymbol) + t.quantity != 0
    ensures BookOf(Step(b, t), trades + [t])
  {
    var s := trades + [t];
    assert s[..|trades|] == trades && s[|trades|] == t;
    SellsCoveredPrefix(s, |trades|);
    NetNonNegative(trades, t.optionSymbol);
    if t.optionSymbol !in b.entries {
      NetOfUnseen(trades, t.optionSymbol);
    }
    forall x
      ensures Net(s, x) == Net(trades, x) + (if t.optionSymbol == x then Signed(t) else 0)
    {
      NetAppend(trades, t, x);
    }
    if t.optionSymbol in b.entries {
      ApplyKeepsBalance(b.entries[t.optionSymbol], t);
    } else {
      ApplyKeepsBalance(Opened(t), t);
    }
  }

  lemma BuyLeavesNonzero(b: Book, trades: seq<Trade>, t: Trade)
    requires BookOf(b, trades)
    requires SellsCovered(trades + [t])
    ensures t.kind == Buy ==> QuantityIn(b, t.optionSymbol) + t.quantity != 0
  {
    StepKeepsBook(b, trades, t);
  }

  /** The holdings map after the loop of lines 19-52, as a fold over the log. */
  function Fold(trades: seq<Trade>): (b: Book)
    requires SellsCovered(trades)
    ensures BookOf(b, trades)
  {
    if trades == [] then Book(map[], [])
    else
      var n := |trades| - 1;
      SellsCoveredPrefix(trades, n);
      assert trades[..n] + [trades[n]] == trades;
      StepKeepsBook(Fold(trades[..n]), trades[..n], trades[n]);
      Step(Fold(trades[..n]), trades[n])
  }

  /** Folding one more trade of a covered log is one more step. */
  lemma FoldAppend(trades: seq<Trade>, i: nat)
    requires i < |trades| && SellsCovered(trades)
    ensures SellsCovered(trades[..i]) && SellsCovered(trades[..i + 1])
    ensures trades[i].kind == Buy ==> QuantityIn(Fold(trades[..i]), trades[i].optionSymbol) + trades[i].quantity != 0
    ensures Fold(trades[..i + 1]) == Step(Fold(trades[..i]), trades[i])
  {
    SellsCoveredPrefix(trades, i + 1);
    SellsCoveredPrefix(trades, i);
    var s := trades[..i + 1];
    assert s[..i] == trades[..i] && s[i] == trades[i];
    assert trades[..i] + [trades[i]] == s;
    BuyLeavesNonzero(Fold(trades[..i]), trades[..i], trades[i]);
  }

  /** The entries of `order` whose quantity is positive, in order (line 54). */
  function OpenIn(entries: map<string, Holding>, order: seq<string>): (r: seq<Holding>)
    requires forall s | s in order :: s in entries
    ensures forall h | h in r :: h.quantity > 0 && exists s | s in order :: entries[s] == h
    ensures forall s | s in order && entries[s].quantity > 0 :: entries[s] in r
  {
    if order == [] then []
    else
      var s := order[|order| - 1];
      OpenIn(entries, order[..|order| - 1]) + (if entries[s].quantity > 0 then [entries[s]] else [])
  }

  /** `calculateHoldings(trades)`. */
  function Holdings(trades: seq<Trade>): seq<Holding>
    requires SellsCovered(trades)
  {
    OpenIn(Fold(trades).entries, Fold(trades).order)
  }

  lemma {:induction false} OpenInDistinct(entries: map<string, Holding>, order: seq<string>)
    requires forall s | s in order :: s in entries && entries[s].optionSymbol == s
    requires Distinct(order)
    ensures forall h | h in OpenIn(entries, order) :: h.optionSymbol in order
    ensures Distinct(OpenIn(entries, order))
    ensures forall i, j | 0 <= i < j < |OpenIn(entries, order)| ::
      OpenIn(entries, order)[i].optionSymbol != OpenIn(entries, order)[j].optionSymbol
  {
    if order != [] {
      var n := |order| - 1;
      var init := order[..n];
      assert forall s | s in init :: s in order;
      OpenInDistinct(entries, init);
      var r := OpenIn(entries, order);
      var r0 := OpenIn(entries, init);
      assert order[n] !in init;
      if entries[order[n]].quantity > 0 {
        assert r == r0 + [entries[order[n]]];
        forall i | 0 <= i < |r0| ensures r0[i].optionSymbol != order[n] {
          assert r0[i] in r0;
        }
      } else {
        assert r == r0;
      }
    }
  }

  /**
   * What `calculateHoldings` returns: one balanced holding per option symbol
   * whose net position ΣBUY − ΣSELL is positive, holding exactly that net
   * quantity and the symbol's parsed strike, and nothing else.
   */
  lemma HoldingsAreOpenPositions(trades: seq<Trade>)
    requires SellsCovered(trades)
    ensures forall h | h in Holdings(trades) ::
      && h.quantity > 0
      && h.quantity == Net(trades, h.optionSymbol)
      && h.strike == StrikeOf(h.optionSymbol)
      && Balanced(h)
    ensures forall i, j | 0 <= i < j < |Holdings(trades)| ::
      Holdings(trades)[i].optionSymbol != Holdings(trades)[j].optionSymbol
    ensures forall s | Net(trades, s) > 0 :: exists h | h in Holdings(trades) :: h.optionSymbol == s
  {
    var b := Fold(trades);
    OpenInDistinct(b.entries, b.order);
    forall s | Net(trades, s) > 0
      ensures exists h | h in Holdings(trades) :: h.optionSymbol == s
    {
      if s !in b.entries {
        NetOfUnseen(trades, s);
      }
      assert b.entries[s] in Holdings(trades);
    }
  }

  /**
   * The loop of lines 19-52 followed by the filter of line 54, updating the
   * map entry of each trade in place.
   */
  method CalculateHoldings(trades: seq<Trade>) returns (holdings: seq<Holding>)
    requires SellsCovered(trades)
    ensures holdings == Holdings(trades)
  {
    var entries: map<string, Holding> := map[];
    var order: seq<string> := [];
    for i := 0 to |trades|
      invariant SellsCovered(trades[..i])
      invariant Book(entries, order) == Fold(trades[..i])
    {
      var trade := trades[i];
      FoldAppend(trades, i);
      entries, order := Record(entries, order, trade);
    }
    assert trades[..|trades|] == trades;
    holdings := OpenHoldings(entries, order);
  }

  /**
   * The body of the loop of lines 19-52: open the entry of a symbol seen for
   * the first time, then update it in place for a BUY or a SELL.
   */
  method Record(entries: map<string, Holding>, order: seq<string>, trade: Trade)
    returns (entries': map<string, Holding>, order': seq<string>)
    requires trade.kind == Buy ==> QuantityIn(Book(entries, order), trade.optionSymbol) + trade.quantity != 0
    ensures Book(entries', order') == Step(Book(entries, order), trade)
  {
    entries', order' := entries, order;
    if trade.optionSymbol !in entries' {
      var strike := StrikeOf(trade.optionSymbol);
      entries' := entries'[trade.optionSymbol := Holding(trade.symbol, trade.optionSymbol, trade.side, 0, 0.0, 0.0, strike)];
      order' := order' + [trade.optionSymbol];
    }
    var holding := entries'[trade.optionSymbol];
    ghost var h0 := holding;
    assert h0 == if trade.optionSymbol in entries then entries[trade.optionSymbol] else Opened(trade);
    if trade.kind == Buy {
      var totalCost := holding.totalCost + trade.price * trade.quantity as real * 100.0;
      var quantity := holding.quantity + trade.quantity;
      holding := holding.(totalCost := totalCost, quantity := quantity, avgPrice := totalCost / (quantity as real * 100.0));
    } else {
      var costRemoved := trade.quantity as real * 100.0 * holding.avgPrice;
      holding := holding.(totalCost := holding.totalCost - costRemoved, quantity := holding.quantity - trade.quantity);
    }
    assert holding == Apply(h0, trade);
    entries' := entries'[trade.optionSymbol := holding];
  }

  /** The filter of line 54 over the map's values in insertion order. */
  method OpenHoldings(entries: map<string, Holding>, order: seq<string>) returns (holdings: seq<Holding>)
    requires forall s | s in order :: s in entries
    ensures holdings == OpenIn(entries, order)
  {
    holdings := [];
    for i := 0 to |order|
      invariant holdings == OpenIn(entries, order[..i])
    {
      assert order[..i + 1][..i] == order[..i];
      if entries[order[i]].quantity > 0 {
        holdings := holdings + [entries[order[i]]];
      }
    }
    assert order[..|order|] == order;
  }
}
