/**
 * The daily sweep that closes positions expiring today: select, per
 * portfolio and option symbol, the positions whose net quantity among the
 * trades expiring today is positive, and sell each of them in full through
 * the trade service, one position failing without stopping the others.
 */
module ExpirySweep {
  import opened Wrappers
  import opened Trades
  import opened OptionSymbol
  import opened TradingService

  const InvalidSymbolMessage := "Invalid option symbol format: "

  /**
   * `getSide`: the right letter of the leftmost match of `\d{6}([CP])\d{8}`,
   * or the error the function throws when nothing matches.
   */
  function GetSide(optionSymbol: string): (r: Result<Side, string>)
    ensures r.Err? <==> FirstTail(optionSymbol).None?
    ensures r.Err? ==> r.error == InvalidSymbolMessage + optionSymbol
    ensures r.Ok? ==>
      var k := FirstTail(optionSymbol).value;
      r.value == (if optionSymbol[k + 6] == 'C' then Call else Put)
  {
    match FirstTail(optionSymbol)
    case None => Err(InvalidSymbolMessage + optionSymbol)
    case Some(k) => if optionSymbol[k + 6] == 'C' then Ok(Call) else Ok(Put)
  }

  /** The right read back from an encoded contract is the contract's own. */
  lemma GetSideOfEncoded(c: Contract)
    requires WellFormed(c)
    ensures GetSide(Encode(c)) == Ok(c.right)
  {
    FirstMatchOfEncoded(c);
    EncodeLayout(c);
  }

  /** The grouping key of the aggregate: a trade's row joined with its portfolio's. */
  datatype Key = Key(portfolioId: nat, optionSymbol: string, symbol: string, userId: nat, competitionId: nat)

  /** A selected position: its key and its net quantity. */
  datatype Expiring = Expiring(key: Key, netQty: int)

  /** The group a trade falls in, when it expires `today` and its portfolio exists (the inner join). */
  function KeyOf(ps: seq<Portfolio>, today: string, t: Trade): (r: Option<Key>)
    ensures r.Some? ==> t.expirationDate == Some(today)
    ensures r.Some? ==> r.value.portfolioId == t.portfolioId && r.value.optionSymbol == t.optionSymbol
  {
    if t.expirationDate != Some(today) then None
    else
      match PortfolioById(ps, t.portfolioId)
      case None => None
      case Some(p) => Some(Key(t.portfolioId, t.optionSymbol, t.symbol, p.userId, p.competitionId))
  }

  /** `SUM(CASE WHEN type = 'BUY' THEN quantity ELSE -quantity END)` over the trades of group `k`. */
  function NetQty(ps: seq<Portfolio>, today: string, trades: seq<Trade>, k: Key): int
  {
    if trades == [] then 0
    else
      var n := |trades| - 1;
      NetQty(ps, today, trades[..n], k) + (if KeyOf(ps, today, trades[n]) == Some(k) then Signed(trades[n]) else 0)
  }

  /** The groups that have at least one trade expiring today. */
  function Groups(ps: seq<Portfolio>, today: string, trades: seq<Trade>): set<Key>
  {
    set t | t in trades && KeyOf(ps, today, t).Some? :: KeyOf(ps, today, t).value
  }

  /** The result of the query of lines 18-40: every group whose net quantity is positive. */
  function ExpiringPositions(ps: seq<Portfolio>, today: string, trades: seq<Trade>): (r: set<Expiring>)
    ensures forall e | e in r :: e.netQty > 0 && e.netQty == NetQty(ps, today, trades, e.key)
    ensures forall e, f | e in r && f in r && e.key == f.key :: e == f
  {
    set k | k in Groups(ps, today, trades) && NetQty(ps, today, trades, k) > 0 :: Expiring(k, NetQty(ps, today, trades, k))
  }

  /** A trade that does not expire today moves no group's net quantity. */
  lemma {:induction false} NetQtyIgnoresOtherDays(ps: seq<Portfolio>, today: string, trades: seq<Trade>, k: Key)
    ensures NetQty(ps, today, trades, k) == NetQty(ps, today, ExpiringOn(today, trades), k)
  {
    if trades != [] {
      var n := |trades| - 1;
      var init, t := trades[..n], trades[n];
      NetQtyIgnoresOtherDays(ps, today, init, k);
      var step := if KeyOf(ps, today, t) == Some(k) then Signed(t) else 0;
      assert NetQty(ps, today, trades, k) == NetQty(ps, today, init, k) + step;
      if t.expirationDate == Some(today) {
        var s := ExpiringOn(today, init) + [t];
        assert ExpiringOn(today, trades) == s;
        assert s[..|s| - 1] == ExpiringOn(today, init);
        assert NetQty(ps, today, s, k) == NetQty(ps, today, ExpiringOn(today, init), k) + step;
      } else {
        assert ExpiringOn(today, trades) == ExpiringOn(today, init);
        assert step == 0;
      }
    }
  }

  /** The trades whose expiration date is `today`, in log order. */
  function ExpiringOn(today: string, trades: seq<Trade>): (r: seq<Trade>)
    ensures forall t | t in r :: t in trades && t.expirationDate == Some(today)
  {
    if trades == [] then []
    else
      var n := |trades| - 1;
      ExpiringOn(today, trades[..n]) + (if trades[n].expirationDate == Some(today) then [trades[n]] else [])
  }

  /**
   * Positions expiring on another day are never selected: every selected
   * group has a trade expiring today, and the selection depends only on the
   * trades expiring today.
   */
  lemma SelectionIsToday(ps: seq<Portfolio>, today: string, trades: seq<Trade>)
    ensures forall e | e in ExpiringPositions(ps, today, trades) ::
      exists t | t in trades :: t.expirationDate == Some(today) && KeyOf(ps, today, t) == Some(e.key)
    ensures ExpiringPositions(ps, today, trades) == ExpiringPositions(ps, today, ExpiringOn(today, trades))
  {
    forall k
      ensures NetQty(ps, today, trades, k) == NetQty(ps, today, ExpiringOn(today, trades), k)
    {
      NetQtyIgnoresOtherDays(ps, today, trades, k);
    }
    assert Groups(ps, today, trades) == Groups(ps, today, ExpiringOn(today, trades)) by {
      forall k | k in Groups(ps, today, trades)
        ensures k in Groups(ps, today, ExpiringOn(today, trades))
      {
        var t :| t in trades && KeyOf(ps, today, t) == Some(k);
        TodayKeeps(today, trades, t);
      }
    }
  }

  lemma {:induction false} TodayKeeps(today: string, trades: seq<Trade>, t: Trade)
    requires t in trades && t.expirationDate == Some(today)
    ensures t in ExpiringOn(today, trades)
  {
    var n := |trades| - 1;
    if t != trades[n] {
      assert t in trades[..n];
      TodayKeeps(today, trades[..n], t);
    }
  }

  /** Why one position could not be sold. */
  datatype Failure = BadSymbol(message: string) | Refused(error: TradeError)

  /** What happened to one selected position. */
  datatype Outcome = Sold(position: Expiring, placed: Placed) | Failed(position: Expiring, failure: Failure)

  /** The SELL request issued for a selected position: all of it, on its own side. */
  function SellRequest(e: Expiring, side: Side): TradeRequest
  {
    TradeRequest(e.key.symbol, e.key.optionSymbol, Sell, side, e.netQty)
  }

  /** The rows the sweep appended, in order. */
  function SoldTrades(outcomes: seq<Outcome>): seq<Trade>
  {
    if outcomes == [] then []
    else
      var n := |outcomes| - 1;
      SoldTrades(outcomes[..n]) + (match outcomes[n] case Sold(_, placed) => [placed.trade] case Failed(_, _) => [])
  }

  lemma SoldTradesAppend(outcomes: seq<Outcome>, o: Outcome)
    ensures SoldTrades(outcomes + [o]) == SoldTrades(outcomes) + SoldTrades([o])
  {
    assert (outcomes + [o])[..|outcomes|] == outcomes;
    assert [o][..0] == [];
  }

  /**
   * What the sweep promises about one outcome: a position with an unreadable
   * option symbol failed for that reason, and a sale is one SELL of the
   * position's full net quantity on the side its option symbol names.
   */
  predicate Handled(o: Outcome)
  {
    && (o.Failed? && o.failure.BadSymbol? ==> GetSide(o.position.key.optionSymbol).Err?)
    && (o.Sold? ==>
          && GetSide(o.position.key.optionSymbol).Ok?
          && o.placed.trade.kind == Sell
          && o.placed.trade.quantity == o.position.netQty
          && o.placed.trade.optionSymbol == o.position.key.optionSymbol
          && o.placed.trade.side == GetSide(o.position.key.optionSymbol).value)
  }

  /** The `portfolios` and `trades` tables and the next trade id, as values. */
  datatype Tables = Tables(portfolios: seq<Portfolio>, trades: seq<Trade>, nextTradeId: nat)

  /** The price `placeTrade` obtains for an option symbol, `None` when none could be fetched. */
  function PriceFor(prices: map<string, real>, optionSymbol: string): Option<real>
  {
    if optionSymbol in prices then Some(prices[optionSymbol]) else None
  }

  /**
   * Lines 52-69 for one position on the tables `s`: an unreadable option
   * symbol fails with `getSide`'s error; otherwise the outcome is the trade
   * service's decision on a SELL of the whole net quantity.  Only a sale
   * changes the tables, as `placeTrade` commits it.
   */
  function SellStep(s: Tables, pos: Expiring, prices: map<string, real>): (r: (Outcome, Tables))
    ensures r.0.position == pos && Handled(r.0)
    ensures r.0.Failed? ==> r.1 == s
    ensures r.0.Failed? && r.0.failure.Refused? ==>
      GetSide(pos.key.optionSymbol).Ok? &&
      Decide(s.portfolios, s.trades, s.nextTradeId, pos.key.userId, pos.key.competitionId,
             SellRequest(pos, GetSide(pos.key.optionSymbol).value), PriceFor(prices, pos.key.optionSymbol))
        == Err(r.0.failure.error)
    ensures r.0.Sold? ==>
      && GetSide(pos.key.optionSymbol).Ok?
      && Decide(s.portfolios, s.trades, s.nextTradeId, pos.key.userId, pos.key.competitionId,
                SellRequest(pos, GetSide(pos.key.optionSymbol).value), PriceFor(prices, pos.key.optionSymbol))
         == Ok(r.0.placed)
      && var i := FindPortfolio(s.portfolios, pos.key.userId, pos.key.competitionId).value;
         r.1 == Tables(s.portfolios[i := s.portfolios[i].(cash := r.0.placed.newBalance)],
                       s.trades + [r.0.placed.trade], s.nextTradeId + 1)
  {
    match GetSide(pos.key.optionSymbol)
    case Err(message) => (Failed(pos, BadSymbol(message)), s)
    case Ok(side) =>
      match Decide(s.portfolios, s.trades, s.nextTradeId, pos.key.userId, pos.key.competitionId,
                   SellRequest(pos, side), PriceFor(prices, pos.key.optionSymbol))
      case Err(e) => (Failed(pos, Refused(e)), s)
      case Ok(placed) =>
        var i := FindPortfolio(s.portfolios, pos.key.userId, pos.key.competitionId).value;
        (Sold(pos, placed),
         Tables(s.portfolios[i := s.portfolios[i].(cash := placed.newBalance)], s.trades + [placed.trade], s.nextTradeId + 1))
  }

  /** The loop of lines 44-70 over the positions in the order `order`, from the tables `s`. */
  function Sweep(s: Tables, order: seq<Expiring>, prices: map<string, real>): (r: (seq<Outcome>, Tables))
    ensures |r.0| == |order|
    ensures forall k | 0 <= k < |order| :: r.0[k].position == order[k]
  {
    if order == [] then ([], s)
    else
      var n := |order| - 1;
      var before := Sweep(s, order[..n], prices);
      var step := SellStep(before.1, order[n], prices);
      (before.0 + [step.0], step.1)
  }

  lemma SweepAppend(s: Tables, order: seq<Expiring>, pos: Expiring, prices: map<string, real>)
    ensures var before := Sweep(s, order, prices);
      var step := SellStep(before.1, pos, prices);
      Sweep(s, order + [pos], prices) == (before.0 + [step.0], step.1)
  {
    assert (order + [pos])[..|order|] == order;
  }

  /** The positions of a sequence of outcomes, in order. */
  function PositionsOf(outcomes: seq<Outcome>): (r: seq<Expiring>)
    ensures |r| == |outcomes|
    ensures forall k | 0 <= k < |r| :: r[k] == outcomes[k].position
  {
    seq(|outcomes|, k requires 0 <= k < |outcomes| => outcomes[k].position)
  }

  /** The total cash of all portfolios. */
  function TotalCash(ps: seq<Portfolio>): real
  {
    if ps == [] then 0.0 else TotalCash(ps[..|ps| - 1]) + ps[|ps| - 1].cash
  }

  lemma {:induction false} TotalCashUpdate(ps: seq<Portfolio>, i: nat, cash: real)
    requires i < |ps|
    ensures TotalCash(ps[i := ps[i].(cash := cash)]) == TotalCash(ps) - ps[i].cash + cash
  {
    var n := |ps| - 1;
    var qs := ps[i := ps[i].(cash := cash)];
    assert qs[..n] == if i == n then ps[..n] else ps[..n][i := ps[i].(cash := cash)];
    if i < n {
      TotalCashUpdate(ps[..n], i, cash);
    }
  }

  /** The cash the sales of `outcomes` bring in: price × quantity × 100 per sale. */
  function Proceeds(outcomes: seq<Outcome>): real
  {
    if outcomes == [] then 0.0
    else
      var n := |outcomes| - 1;
      Proceeds(outcomes[..n]) +
        (match outcomes[n]
         case Sold(_, placed) => TradeCost(placed.trade.price, placed.trade.quantity)
         case Failed(_, _) => 0.0)
  }

  /**
   * A sale credits exactly its own proceeds to the portfolio that made it,
   * and a failure moves no cash.
   */
  lemma SellStepCash(s: Tables, pos: Expiring, prices: map<string, real>)
    ensures var r := SellStep(s, pos, prices);
      TotalCash(r.1.portfolios) == TotalCash(s.portfolios) + Proceeds([r.0])
  {
    var r := SellStep(s, pos, prices);
    assert [r.0][..0] == [];
    if r.0.Sold? {
      var side := GetSide(pos.key.optionSymbol).value;
      var i := FindPortfolio(s.portfolios, pos.key.userId, pos.key.competitionId).value;
      var held := Held(s.trades, s.portfolios[i].id, pos.key.optionSymbol);
      assert Settle(s.portfolios[i].cash, held, Sell, pos.netQty, r.0.placed.trade.price) == Ok(r.0.placed.newBalance);
      TotalCashUpdate(s.portfolios, i, r.0.placed.newBalance);
    }
  }

  /**
   * Across the whole sweep, the tables grow by the sold trades only, the
   * trade ids advance once per sale, and the total cash grows by exactly the
   * proceeds of the sales.
   */
  lemma {:induction false} SweepTotals(s: Tables, order: seq<Expiring>, prices: map<string, real>)
    ensures var r := Sweep(s, order, prices);
      && r.1.trades == s.trades + SoldTrades(r.0)
      && r.1.nextTradeId == s.nextTradeId + |SoldTrades(r.0)|
      && TotalCash(r.1.portfolios) == TotalCash(s.portfolios) + Proceeds(r.0)
  {
    if order != [] {
      var n := |order| - 1;
      var before := Sweep(s, order[..n], prices);
      var step := SellStep(before.1, order[n], prices);
      SweepTotals(s, order[..n], prices);
      SellStepCash(before.1, order[n], prices);
      var outs := before.0 + [step.0];
      assert outs[..|outs| - 1] == before.0;
      SoldTradesAppend(before.0, step.0);
      assert SoldTrades([step.0]) == SoldTrades([]) + (match step.0 case Sold(_, placed) => [placed.trade] case Failed(_, _) => []);
      assert [step.0][..0] == [];
    }
  }

  /**
   * A position is sold exactly when its option symbol is readable, its
   * owner has a portfolio in the competition, a price is available, and that
   * portfolio holds at least the position's net quantity.
   */
  lemma SellStepSoldIff(s: Tables, pos: Expiring, prices: map<string, real>)
    requires pos.netQty > 0
    ensures SellStep(s, pos, prices).0.Sold? <==>
      && GetSide(pos.key.optionSymbol).Ok?
      && FindPortfolio(s.portfolios, pos.key.userId, pos.key.competitionId).Some?
      && pos.key.optionSymbol in prices
      && var i := FindPortfolio(s.portfolios, pos.key.userId, pos.key.competitionId).value;
         Held(s.trades, s.portfolios[i].id, pos.key.optionSymbol) >= pos.netQty
  {
  }

  /** The state of a ledger as values. */
  function TablesOf(ledger: TradingLedger): Tables
    reads ledger
  {
    Tables(ledger.portfolios, ledger.trades, ledger.nextTradeId)
  }

  /**
   * The bookkeeping of the loop of lines 44-70 once the positions not in
   * `remaining` were handled: each of them has exactly one outcome.
   */
  ghost predicate Booked(positions: set<Expiring>, remaining: set<Expiring>, outcomes: seq<Outcome>)
  {
    && remaining <= positions
    && |outcomes| + |remaining| == |positions|
    && (forall o | o in outcomes :: o.position in positions && o.position !in remaining && Handled(o))
    && (forall e | e in positions && e !in remaining :: exists k | 0 <= k < |outcomes| :: outcomes[k].position == e)
    && (forall i, j | 0 <= i < j < |outcomes| :: outcomes[i].position != outcomes[j].position)
  }

  lemma BookedStep(positions: set<Expiring>, remaining: set<Expiring>, outcomes: seq<Outcome>, o: Outcome)
    requires Booked(positions, remaining, outcomes) && o.position in remaining && Handled(o)
    ensures Booked(positions, remaining - {o.position}, outcomes + [o])
  {
    var outs := outcomes + [o];
    assert outs[|outcomes|] == o;
    forall e | e in positions && e !in remaining - {o.position}
      ensures exists k | 0 <= k < |outs| :: outs[k].position == e
    {
      if e == o.position {
        assert outs[|outcomes|].position == e;
      } else {
        var k :| 0 <= k < |outcomes| && outcomes[k].position == e;
        assert outs[k].position == e;
      }
    }
  }

  /** The state of the loop of lines 44-70, started from the tables `s0`, with the tables now `now`. */
  ghost predicate Swept(s0: Tables, positions: set<Expiring>, remaining: set<Expiring>, outcomes: seq<Outcome>,
                        now: Tables, prices: map<string, real>)
  {
    Booked(positions, remaining, outcomes) && (outcomes, now) == Sweep(s0, PositionsOf(outcomes), prices)
  }

  lemma SweptStep(s0: Tables, positions: set<Expiring>, remaining: set<Expiring>, outcomes: seq<Outcome>,
                  now: Tables, pos: Expiring, prices: map<string, real>)
    requires Swept(s0, positions, remaining, outcomes, now, prices) && pos in remaining
    ensures var step := SellStep(now, pos, prices);
      Swept(s0, positions, remaining - {pos}, outcomes + [step.0], step.1, prices)
  {
    var step := SellStep(now, pos, prices);
    BookedStep(positions, remaining, outcomes, step.0);
    SweepAppend(s0, PositionsOf(outcomes), pos, prices);
    assert PositionsOf(outcomes + [step.0]) == PositionsOf(outcomes) + [pos];
  }

  /**
   * The loop of lines 44-70: every selected position is handled exactly once,
   * in some order, and the outcomes and the new tables are those of `Sweep`
   * over that order.  Each outcome is therefore the trade service's decision
   * on the tables left by the positions before it, and a failure is recorded
   * and the loop goes on.  The ledger invariant holds throughout.
   */
  method SellAll(ledger: TradingLedger, positions: set<Expiring>, prices: map<string, real>)
    returns (outcomes: seq<Outcome>)
    requires ledger.Valid()
    modifies ledger
    ensures ledger.Valid()
    ensures |outcomes| == |positions|
    ensures forall o | o in outcomes :: o.position in positions && Handled(o)
    ensures forall e | e in positions :: exists k | 0 <= k < |outcomes| :: outcomes[k].position == e
    ensures forall i, j | 0 <= i < j < |outcomes| :: outcomes[i].position != outcomes[j].position
    ensures (outcomes, TablesOf(ledger)) == Sweep(old(TablesOf(ledger)), PositionsOf(outcomes), prices)
  {
    outcomes := [];
    var remaining := positions;
    ghost var s0 := TablesOf(ledger);
    while remaining != {}
      invariant ledger.Valid()
      invariant Swept(s0, positions, remaining, outcomes, TablesOf(ledger), prices)
      decreases |remaining|
    {
      var pos :| pos in remaining;
      SweptStep(s0, positions, remaining, outcomes, TablesOf(ledger), pos, prices);
      var outcome := SellOne(ledger, pos, prices);
      remaining := remaining - {pos};
      outcomes := outcomes + [outcome];
    }
  }

  /** The body of the loop of lines 44-70 for one position: `SellStep` on the ledger. */
  method SellOne(ledger: TradingLedger, pos: Expiring, prices: map<string, real>) returns (outcome: Outcome)
    requires ledger.Valid()
    modifies ledger
    ensures ledger.Valid()
    ensures (outcome, TablesOf(ledger)) == SellStep(old(TablesOf(ledger)), pos, prices)
  {
    var side := GetSide(pos.key.optionSymbol);
    if side.Err? {
      outcome := Failed(pos, BadSymbol(side.error));
    } else {
      var price := if pos.key.optionSymbol in prices then Some(prices[pos.key.optionSymbol]) else None;
      var placed := ledger.PlaceTrade(pos.key.userId, pos.key.competitionId, SellRequest(pos, side.value), price);
      if placed.Ok? {
        outcome := Sold(pos, placed.value);
      } else {
        outcome := Failed(pos, Refused(placed.error));
      }
    }
  }

  /**
   * `main`: select today's expiring positions from the tables, then take each
   * of them through the sweep.
   */
  method RunAutoSell(ledger: TradingLedger, today: string, prices: map<string, real>)
    returns (positions: set<Expiring>, outcomes: seq<Outcome>)
    requires ledger.Valid()
    modifies ledger
    ensures positions == ExpiringPositions(old(ledger.portfolios), today, old(ledger.trades))
    ensures ledger.Valid()
    ensures |outcomes| == |positions|
    ensures forall o | o in outcomes :: o.position in positions && Handled(o)
    ensures forall e | e in positions :: exists k | 0 <= k < |outcomes| :: outcomes[k].position == e
    ensures forall i, j | 0 <= i < j < |outcomes| :: outcomes[i].position != outcomes[j].position
    ensures (outcomes, TablesOf(ledger)) == Sweep(old(TablesOf(ledger)), PositionsOf(outcomes), prices)
  {
    positions := ExpiringPositions(ledger.portfolios, today, ledger.trades);
    outcomes := SellAll(ledger, positions, prices);
  }
}
