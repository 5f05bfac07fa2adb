/**
 * The mark-to-market script: fold one portfolio's trades into positions by
 * option symbol (removing cost in proportion on every non-BUY trade), keep
 * the open ones, and value each at its quoted price, a missing quote
 * counting as 0.  The portfolio's worth is its cash plus the value of its
 * positions.  The quotes fetched from the market are a parameter.
 */
module PortfolioValue {
  import opened Wrappers
  import opened Trades
  import TradingHoldings
  import opened TradingService

  /** The starting balance the overall P/L is measured from (line 99). */
  const StartingBalance := 100000.0

  /** A map entry of the script: `avgPrice` is created as 0 and never updated. */
  datatype Position = Position(symbol: string, quantity: int, avgPrice: real, totalCost: real)

  /**
   * One trade applied to its position.  A BUY adds its quantity and
   * `price × quantity × 100` of cost; any other trade removes its quantity
   * and the same fraction of the cost as of the quantity.
   */
  function Apply(h: Position, t: Trade): (r: Position)
    requires t.kind != Buy ==> h.quantity != 0
    ensures r.symbol == h.symbol && r.avgPrice == h.avgPrice
    ensures r.quantity == h.quantity + Signed(t)
  {
    if t.kind == Buy then
      h.(quantity := h.quantity + t.quantity, totalCost := h.totalCost + t.price * t.quantity as real * 100.0)
    else
      var costBasis := (h.totalCost / (h.quantity as real * 100.0)) * (t.quantity as real * 100.0);
      h.(quantity := h.quantity - t.quantity, totalCost := h.totalCost - costBasis)
  }

  /** A BUY adds exactly its cost; any other trade keeps the cost per unit. */
  lemma ApplyCost(h: Position, t: Trade)
    requires t.kind != Buy ==> h.quantity != 0
    ensures t.kind == Buy ==> Apply(h, t).totalCost == h.totalCost + t.price * t.quantity as real * 100.0
    ensures t.kind != Buy ==> Apply(h, t).totalCost * h.quantity as real == h.totalCost * Apply(h, t).quantity as real
  {
    if t.kind != Buy {
      var q, k := h.quantity as real, t.quantity as real;
      var unit := h.totalCost / (q * 100.0);
      assert unit * (q * 100.0) == h.totalCost;
      calc {
        Apply(h, t).totalCost * q;
        (h.totalCost - unit * (k * 100.0)) * q;
        h.totalCost * q - unit * (q * 100.0) * k;
        h.totalCost * q - h.totalCost * k;
        h.totalCost * (q - k);
      }
    }
  }

  /** The script's map and its keys in insertion order. */
  datatype Book = Book(entries: map<string, Position>, order: seq<string>)

  function QuantityIn(b: Book, optionSymbol: string): int
  {
    if optionSymbol in b.entries then b.entries[optionSymbol].quantity else 0
  }

  /** One iteration of the loop of lines 38-56. */
  function Step(b: Book, t: Trade): Book
    requires t.kind != Buy ==> QuantityIn(b, t.optionSymbol) != 0
  {
    if t.optionSymbol in b.entries then
      Book(b.entries[t.optionSymbol := Apply(b.entries[t.optionSymbol], t)], b.order)
    else
      Book(b.entries[t.optionSymbol := Apply(Position(t.symbol, 0, 0.0, 0.0), t)], b.order + [t.optionSymbol])
  }

  /**
   * The script's map and the trade service's holdings map hold the same
   * symbols in the same order, with the same quantity and the same total
   * cost for each.
   */
  ghost predicate Agrees(b: Book, hb: TradingHoldings.Book)
  {
    && b.order == hb.order
    && (forall s :: s in b.entries <==> s in hb.entries)
    && (forall s | s in b.entries ::
          && b.entries[s].symbol == hb.entries[s].symbol
          && b.entries[s].quantity == hb.entries[s].quantity
          && b.entries[s].totalCost == hb.entries[s].totalCost
          && b.entries[s].avgPrice == 0.0)
  }

  /**
   * On a covered log the next trade can be applied, and applying it to
   * agreeing maps keeps them agreeing: removing cost in proportion is
   * removing `quantity × 100 × avgPrice` when the average price is kept.
   */
  lemma StepAgrees(b: Book, trades: seq<Trade>, t: Trade)
    requires SellsCovered(trades + [t])
    requires SellsCovered(trades) && Agrees(b, TradingHoldings.Fold(trades))
    ensures t.kind != Buy ==> QuantityIn(b, t.optionSymbol) != 0
    ensures SellsCovered(trades + [t]) && Agrees(Step(b, t), TradingHoldings.Fold(trades + [t]))
  {
    var s := trades + [t];
    var hb := TradingHoldings.Fold(trades);
    assert s[..|trades|] == trades && s[|trades|] == t;
    TradingHoldings.StepKeepsBook(hb, trades, t);
    if t.kind != Buy {
      SellIsHeld(b, trades, t);
    }
    StepPairAgrees(b, hb, t);
    assert TradingHoldings.Fold(s) == TradingHoldings.Step(hb, t);
  }

  /** One step of each fold keeps agreeing maps agreeing. */
  lemma StepPairAgrees(b: Book, hb: TradingHoldings.Book, t: Trade)
    requires Agrees(b, hb)
    requires t.kind == Buy ==> TradingHoldings.QuantityIn(hb, t.optionSymbol) + t.quantity != 0
    requires t.kind == Sell ==>
      t.optionSymbol in hb.entries && hb.entries[t.optionSymbol].quantity > 0 && TradingHoldings.Balanced(hb.entries[t.optionSymbol])
    ensures t.kind != Buy ==> QuantityIn(b, t.optionSymbol) != 0
    ensures Agrees(Step(b, t), TradingHoldings.Step(hb, t))
  {
    var sym := t.optionSymbol;
    if t.kind == Sell {
      SellCostAgrees(b.entries[sym], hb.entries[sym], t);
    }
  }

  /** A SELL that a covered log allows is of a symbol the map holds a positive quantity of. */
  lemma SellIsHeld(b: Book, trades: seq<Trade>, t: Trade)
    requires SellsCovered(trades + [t]) && t.kind == Sell
    requires SellsCovered(trades) && Agrees(b, TradingHoldings.Fold(trades))
    ensures t.optionSymbol in b.entries && b.entries[t.optionSymbol].quantity > 0
    ensures t.optionSymbol in TradingHoldings.Fold(trades).entries
    ensures TradingHoldings.Fold(trades).entries[t.optionSymbol].quantity > 0
  {
    SellsCoveredAppend(trades, t);
    assert Net(trades, t.optionSymbol) > 0;
    NetOfSeen(trades, t.optionSymbol);
  }

  /** Removing cost in proportion from a balanced holding is removing `quantity × 100 × avgPrice`. */
  lemma SellCostAgrees(h: Position, g: TradingHoldings.Holding, t: Trade)
    requires t.kind == Sell && h.quantity == g.quantity && h.quantity > 0
    requires h.totalCost == g.totalCost && TradingHoldings.Balanced(g)
    ensures Apply(h, t).totalCost == TradingHoldings.Apply(g, t).totalCost
  {
    var q := g.quantity as real * 100.0;
    assert h.totalCost / q == g.avgPrice;
  }

  /** The map after the loop of lines 38-56, as a fold over the portfolio's log. */
  function Fold(trades: seq<Trade>): (b: Book)
    requires SellsCovered(trades)
    ensures Agrees(b, TradingHoldings.Fold(trades))
  {
    if trades == [] then Book(map[], [])
    else
      var n := |trades| - 1;
      SellsCoveredPrefix(trades, n);
      assert trades[..n] + [trades[n]] == trades;
      StepAgrees(Fold(trades[..n]), trades[..n], trades[n]);
      Step(Fold(trades[..n]), trades[n])
  }

  /** Folding one more trade of a covered log is one more step. */
  lemma FoldAppend(trades: seq<Trade>, i: nat)
    requires i < |trades| && SellsCovered(trades)
    ensures SellsCovered(trades[..i]) && SellsCovered(trades[..i + 1])
    ensures trades[i].kind != Buy ==> QuantityIn(Fold(trades[..i]), trades[i].optionSymbol) != 0
    ensures Fold(trades[..i + 1]) == Step(Fold(trades[..i]), trades[i])
  {
    SellsCoveredPrefix(trades, i + 1);
    SellsCoveredPrefix(trades, i);
    var s := trades[..i + 1];
    assert s[..i] == trades[..i] && s[i] == trades[i];
    assert trades[..i] + [trades[i]] == s;
    StepAgrees(Fold(trades[..i]), trades[..i], trades[i]);
  }

  /** An open position with its option symbol (lines 58-60). */
  datatype Entry = Entry(optSymbol: string, position: Position)

  /** The entries of `order` whose quantity is positive, in order. */
  function ActiveIn(entries: map<string, Position>, order: seq<string>): (r: seq<Entry>)
    requires forall s | s in order :: s in entries
    ensures forall e | e in r :: e.position.quantity > 0 && e.optSymbol in order && entries[e.optSymbol] == e.position
    ensures forall s | s in order && entries[s].quantity > 0 :: Entry(s, entries[s]) in r
  {
    if order == [] then []
    else
      var s := order[|order| - 1];
      ActiveIn(entries, order[..|order| - 1]) + (if entries[s].quantity > 0 then [Entry(s, entries[s])] else [])
  }

  /** The active holdings of a portfolio's log. */
  function Active(trades: seq<Trade>): seq<Entry>
    requires SellsCovered(trades)
  {
    var b := Fold(trades);
    ActiveIn(b.entries, b.order)
  }

  /** Entry by entry, the same option symbol, quantity, total cost and underlying symbol. */
  predicate SamePositions(r: seq<Entry>, h: seq<TradingHoldings.Holding>)
  {
    && |r| == |h|
    && forall i | 0 <= i < |r| ::
         && r[i].optSymbol == h[i].optionSymbol
         && r[i].position.quantity == h[i].quantity
         && r[i].position.totalCost == h[i].totalCost
         && r[i].position.symbol == h[i].symbol
  }

  lemma SamePositionsAppend(r: seq<Entry>, h: seq<TradingHoldings.Holding>, e: seq<Entry>, x: seq<TradingHoldings.Holding>)
    requires SamePositions(r, h) && SamePositions(e, x)
    ensures SamePositions(r + e, h + x)
  {
  }

  lemma {:induction false} ActiveInMatches(b: Book, hb: TradingHoldings.Book, k: nat)
    requires Agrees(b, hb) && k <= |b.order|
    requires forall s | s in hb.order :: s in hb.entries && hb.entries[s].optionSymbol == s
    ensures SamePositions(ActiveIn(b.entries, b.order[..k]), TradingHoldings.OpenIn(hb.entries, hb.order[..k]))
  {
    if k > 0 {
      var o := b.order[..k];
      var s := o[k - 1];
      assert o[..k - 1] == b.order[..k - 1];
      assert hb.order[..k][..k - 1] == hb.order[..k - 1] && hb.order[..k][k - 1] == s;
      ActiveInMatches(b, hb, k - 1);
      var p, g := b.entries[s], hb.entries[s];
      assert g.quantity == p.quantity && g.optionSymbol == s;
      var e: seq<Entry>, x: seq<TradingHoldings.Holding> := [], [];
      if p.quantity > 0 {
        e, x := [Entry(s, p)], [g];
      }
      assert SamePositions(e, x);
      assert ActiveIn(b.entries, o) == ActiveIn(b.entries, b.order[..k - 1]) + e;
      assert TradingHoldings.OpenIn(hb.entries, hb.order[..k]) == TradingHoldings.OpenIn(hb.entries, hb.order[..k - 1]) + x;
      SamePositionsAppend(ActiveIn(b.entries, b.order[..k - 1]), TradingHoldings.OpenIn(hb.entries, hb.order[..k - 1]), e, x);
    }
  }

  /**
   * The script values the same positions `calculateHoldings` reports: entry
   * by entry, the same option symbol, quantity, total cost and underlying
   * symbol.
   */
  lemma ActiveMatchesHoldings(trades: seq<Trade>)
    requires SellsCovered(trades)
    ensures SamePositions(Active(trades), TradingHoldings.Holdings(trades))
  {
    var b, hb := Fold(trades), TradingHoldings.Fold(trades);
    assert forall s | s in hb.order :: s in hb.entries && hb.entries[s].optionSymbol == s by {
      assert TradingHoldings.BookOf(hb, trades);
    }
    ActiveInMatchesAll(b, hb);
  }

  lemma ActiveInMatchesAll(b: Book, hb: TradingHoldings.Book)
    requires Agrees(b, hb)
    requires forall s | s in hb.order :: s in hb.entries && hb.entries[s].optionSymbol == s
    ensures SamePositions(ActiveIn(b.entries, b.order), TradingHoldings.OpenIn(hb.entries, hb.order))
  {
    ActiveInMatches(b, hb, |b.order|);
    assert b.order[..|b.order|] == b.order && hb.order[..|hb.order|] == hb.order;
  }

  /** `quote?.regularMarketPrice || 0`. */
  function PriceOf(quotes: map<string, real>, optSymbol: string): (p: real)
    ensures optSymbol !in quotes ==> p == 0.0
  {
    if optSymbol in quotes then quotes[optSymbol] else 0.0
  }

  /** One holding's line of the breakdown (lines 76-81). */
  datatype Line = Line(optSymbol: string, quantity: int, totalCost: real, currentPrice: real, currentValue: real, pl: real)

  function LineOf(e: Entry, quotes: map<string, real>): (l: Line)
    ensures l.optSymbol == e.optSymbol && l.quantity == e.position.quantity && l.totalCost == e.position.totalCost
  {
    var price := PriceOf(quotes, e.optSymbol);
    var value := price * e.position.quantity as real * 100.0;
    Line(e.optSymbol, e.position.quantity, e.position.totalCost, price, value, value - e.position.totalCost)
  }

  /** Σ `currentPrice × quantity × 100` over the holdings. */
  function HoldingsValue(active: seq<Entry>, quotes: map<string, real>): real
  {
    if active == [] then 0.0
    else
      var n := |active| - 1;
      HoldingsValue(active[..n], quotes) + LineOf(active[n], quotes).currentValue
  }

  /** Σ `totalCost` over the holdings. */
  function CostSum(active: seq<Entry>): real
  {
    if active == [] then 0.0
    else
      var n := |active| - 1;
      CostSum(active[..n]) + active[n].position.totalCost
  }

  /** Σ of the per-holding P/L. */
  function PLSum(lines: seq<Line>): real
  {
    if lines == [] then 0.0
    else
      var n := |lines| - 1;
      PLSum(lines[..n]) + lines[n].pl
  }

  /** What the script reports. */
  datatype Report = Report(cash: real, lines: seq<Line>, holdingsValue: real, totalValue: real, totalPL: real)

  /** The holdings whose option symbol has a quote. */
  function Quoted(active: seq<Entry>, quotes: map<string, real>): (r: seq<Entry>)
    ensures forall e | e in r :: e in active && e.optSymbol in quotes
  {
    if active == [] then []
    else
      var n := |active| - 1;
      Quoted(active[..n], quotes) + (if active[n].optSymbol in quotes then [active[n]] else [])
  }

  /** A holding without a quote adds nothing: the value is that of the quoted holdings alone. */
  lemma {:induction false} UnquotedWorthNothing(active: seq<Entry>, quotes: map<string, real>)
    ensures HoldingsValue(active, quotes) == HoldingsValue(Quoted(active, quotes), quotes)
  {
    if active != [] {
      var n := |active| - 1;
      UnquotedWorthNothing(active[..n], quotes);
      var q := Quoted(active[..n], quotes);
      if active[n].optSymbol in quotes {
        var r := q + [active[n]];
        assert Quoted(active, quotes) == r;
        assert r[..|r| - 1] == q && r[|r| - 1] == active[n];
      } else {
        assert Quoted(active, quotes) == q;
      }
    }
  }

  /** With non-negative quotes and open positions the holdings are worth at least nothing, so the total is at least the cash. */
  lemma {:induction false} ValueNonNegative(active: seq<Entry>, quotes: map<string, real>)
    requires forall s | s in quotes :: quotes[s] >= 0.0
    requires forall e | e in active :: e.position.quantity > 0
    ensures HoldingsValue(active, quotes) >= 0.0
  {
    if active != [] {
      var n := |active| - 1;
      assert forall e | e in active[..n] :: e in active;
      ValueNonNegative(active[..n], quotes);
      assert active[n] in active;
      var p := PriceOf(quotes, active[n].optSymbol);
      assert p >= 0.0;
      assert p * active[n].position.quantity as real >= 0.0;
    }
  }

  /** The lines of a list of holdings, in order. */
  function Lines(active: seq<Entry>, quotes: map<string, real>): (ls: seq<Line>)
    ensures |ls| == |active|
    ensures forall i | 0 <= i < |active| :: ls[i] == LineOf(active[i], quotes)
  {
    if active == [] then []
    else Lines(active[..|active| - 1], quotes) + [LineOf(active[|active| - 1], quotes)]
  }

  /** The per-holding P/L adds up to the holdings' value less their cost. */
  lemma {:induction false} PLAddsUp(active: seq<Entry>, quotes: map<string, real>)
    ensures PLSum(Lines(active, quotes)) == HoldingsValue(active, quotes) - CostSum(active)
  {
    if active != [] {
      var n := |active| - 1;
      PLAddsUp(active[..n], quotes);
      var ls := Lines(active, quotes);
      assert ls[..n] == Lines(active[..n], quotes);
    }
  }

  /** The report of a portfolio with `cash` whose open holdings are `active`. */
  function ReportOf(cash: real, active: seq<Entry>, quotes: map<string, real>): Report
  {
    var value := HoldingsValue(active, quotes);
    Report(cash, Lines(active, quotes), value, cash + value, cash + value - StartingBalance)
  }

  lemma ValuateStep(active: seq<Entry>, i: nat, quotes: map<string, real>)
    requires i < |active|
    ensures HoldingsValue(active[..i + 1], quotes) == HoldingsValue(active[..i], quotes) + LineOf(active[i], quotes).currentValue
    ensures Lines(active[..i + 1], quotes) == Lines(active[..i], quotes) + [LineOf(active[i], quotes)]
  {
    assert active[..i + 1][..i] == active[..i];
  }

  /** Lines 98-99: the totals of a portfolio with `cash`, after the loop over its holdings. */
  method Valuate(cash: real, active: seq<Entry>, quotes: map<string, real>) returns (report: Report)
    ensures report == ReportOf(cash, active, quotes)
    ensures report.totalValue == cash + HoldingsValue(active, quotes)
    ensures PLSum(report.lines) == report.holdingsValue - CostSum(active)
  {
    var totalHoldingsValue, lines := ValueHoldings(active, quotes);
    var totalValue := cash + totalHoldingsValue;
    report := Report(cash, lines, totalHoldingsValue, totalValue, totalValue - StartingBalance);
    PLAddsUp(active, quotes);
  }

  /** The loop of lines 74-96: one line per holding, accumulating the value of the holdings. */
  method ValueHoldings(active: seq<Entry>, quotes: map<string, real>) returns (totalHoldingsValue: real, lines: seq<Line>)
    ensures totalHoldingsValue == HoldingsValue(active, quotes)
    ensures lines == Lines(active, quotes)
  {
    totalHoldingsValue := 0.0;
    lines := [];
    for i := 0 to |active|
      invariant totalHoldingsValue == HoldingsValue(active[..i], quotes)
      invariant lines == Lines(active[..i], quotes)
    {
      var h := active[i];
      var currentPrice := if h.optSymbol in quotes then quotes[h.optSymbol] else 0.0;
      var currentValue := currentPrice * h.position.quantity as real * 100.0;
      totalHoldingsValue := totalHoldingsValue + currentValue;
      var pl := currentValue - h.position.totalCost;
      var line := Line(h.optSymbol, h.position.quantity, h.position.totalCost, currentPrice, currentValue, pl);
      assert line == LineOf(h, quotes);
      lines := lines + [line];
      ValuateStep(active, i, quotes);
    }
    assert active[..|active|] == active;
  }

  /**
   * The loop of lines 38-56 followed by the filter of lines 58-60, updating
   * the entry of each trade in place.
   */
  method ActiveHoldings(trades: seq<Trade>) returns (active: seq<Entry>)
    requires SellsCovered(trades)
    ensures active == Active(trades)
  {
    var entries: map<string, Position> := map[];
    var order: seq<string> := [];
    for i := 0 to |trades|
      invariant SellsCovered(trades[..i])
      invariant Book(entries, order) == Fold(trades[..i])
    {
      var trade := trades[i];
      FoldAppend(trades, i);
      entries, order := Record(entries, order, trade);
    }
    assert trades[..|trades|] == trades;
    active := Filter(entries, order);
  }

  /** One iteration of the loop of lines 38-56. */
  method Record(entries: map<string, Position>, order: seq<string>, trade: Trade)
    returns (entries': map<string, Position>, order': seq<string>)
    requires trade.kind != Buy ==> QuantityIn(Book(entries, order), trade.optionSymbol) != 0
    ensures Book(entries', order') == Step(Book(entries, order), trade)
  {
    entries', order' := entries, order;
    if trade.optionSymbol !in entries' {
      entries' := entries'[trade.optionSymbol := Position(trade.symbol, 0, 0.0, 0.0)];
      order' := order' + [trade.optionSymbol];
    }
    var h := entries'[trade.optionSymbol];
    ghost var h0 := h;
    if trade.kind == Buy {
      h := h.(quantity := h.quantity + trade.quantity, totalCost := h.totalCost + trade.price * trade.quantity as real * 100.0);
    } else {
      var costBasis := (h.totalCost / (h.quantity as real * 100.0)) * (trade.quantity as real * 100.0);
      h := h.(quantity := h.quantity - trade.quantity, totalCost := h.totalCost - costBasis);
    }
    assert h == Apply(h0, trade);
    entries' := entries'[trade.optionSymbol := h];
  }

  /** The filter of lines 58-60 over the map's entries in insertion order. */
  method Filter(entries: map<string, Position>, order: seq<string>) returns (active: seq<Entry>)
    requires forall s | s in order :: s in entries
    ensures active == ActiveIn(entries, order)
  {
    active := [];
    for i := 0 to |order|
      invariant active == ActiveIn(entries, order[..i])
    {
      assert order[..i + 1][..i] == order[..i];
      if entries[order[i]].quantity > 0 {
        active := active + [Entry(order[i], entries[order[i]])];
      }
    }
    assert order[..|order|] == order;
  }

  /**
   * `calculatePortfolioValue(portfolioId)`: the portfolio's row, its trades in
   * log order, the open holdings and their valuation.  A missing portfolio is
   * an error.
   */
  method CalculatePortfolioValue(portfolios: seq<Portfolio>, trades: seq<Trade>, portfolioId: nat, quotes: map<string, real>)
    returns (r: Result<Report, string>)
    requires LedgerInvariant(trades)
    ensures r.Err? <==> PortfolioById(portfolios, portfolioId).None?
    ensures r.Err? ==> r.error == "Portfolio not found."
    ensures r.Ok? ==>
      && SellsCovered(OfPortfolio(trades, portfolioId))
      && r.value == ReportOf(PortfolioById(portfolios, portfolioId).value.cash, Active(OfPortfolio(trades, portfolioId)), quotes)
  {
    var portfolio := PortfolioById(portfolios, portfolioId);
    if portfolio.None? {
      return Err("Portfolio not found.");
    }
    var own := OfPortfolio(trades, portfolioId);
    var active := ActiveHoldings(own);
    var report := Valuate(portfolio.value.cash, active, quotes);
    r := Ok(report);
  }
}
