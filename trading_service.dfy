/**
 * The trade service: deciding and recording a trade against a portfolio's
 * cash and the trade log, and reading a portfolio's holdings back.  The
 * database (the `portfolios` and `trades` tables) is the state of a
 * `TradingLedger`; a transaction that commits is a method call that returns
 * `Ok`, and one that rolls back is a call that returns `Err` and changes
 * nothing.
 */
module TradingService {
  import opened Wrappers
  import opened Trades
  import opened TradingHoldings

  /** A row of `portfolios`: one user's stake in one competition. */
  datatype Portfolio = Portfolio(id: nat, userId: nat, competitionId: nat, cash: real)

  /** The portfolio row with a given id (`portfolios.id` is a primary key, so the first is the only one). */
  function PortfolioById(ps: seq<Portfolio>, id: nat): (r: Option<Portfolio>)
    ensures r.Some? ==> r.value in ps && r.value.id == id
    ensures r.None? ==> forall p | p in ps :: p.id != id
  {
    if ps == [] then None
    else if ps[0].id == id then Some(ps[0])
    else PortfolioById(ps[1..], id)
  }

  /** The trade a user asks for. */
  datatype TradeRequest = TradeRequest(symbol: string, optionSymbol: string, kind: TradeType, side: Side, quantity: int)

  /** Why a trade is refused; each rolls the transaction back. */
  datatype TradeError =
    | InvalidQuantity
    | PortfolioNotFound
    | PriceUnavailable
    | InsufficientFunds
    | InsufficientPosition

  /** A committed trade: the recorded row and the portfolio's new cash balance. */
  datatype Placed = Placed(trade: Trade, newBalance: real)

  predicate Owns(p: Portfolio, userId: nat, competitionId: nat)
  {
    p.userId == userId && p.competitionId == competitionId
  }

  /** `where({user_id, competition_id}).first()`: the index of the first matching portfolio. */
  function FindPortfolio(ps: seq<Portfolio>, userId: nat, competitionId: nat): (r: Option<nat>)
    ensures r.None? ==> forall i | 0 <= i < |ps| :: !Owns(ps[i], userId, competitionId)
    ensures r.Some? ==> r.value < |ps| && Owns(ps[r.value], userId, competitionId)
    ensures r.Some? ==> forall i | 0 <= i < r.value :: !Owns(ps[i], userId, competitionId)
  {
    if ps == [] then None
    else if Owns(ps[0], userId, competitionId) then Some(0)
    else
      match FindPortfolio(ps[1..], userId, competitionId)
      case None => None
      case Some(i) => Some(i + 1)
  }

  /** Cash a trade of `quantity` contracts at `price` per share moves: a contract is 100 shares. */
  function TradeCost(price: real, quantity: int): real
  {
    price * quantity as real * 100.0
  }

  /**
   * The funds and position checks and the new balance, exactly as the
   * service computes them: a BUY is refused when cash is below its cost and
   * otherwise pays it, a SELL is refused when it exceeds the held quantity
   * and otherwise receives its cost.  Nothing here looks at the sign of
   * `quantity`.
   */
  function SettleAsWritten(cash: real, held: int, kind: TradeType, quantity: int, price: real): (r: Result<real, TradeError>)
    ensures r == Err(InsufficientFunds) <==> kind == Buy && cash < TradeCost(price, quantity)
    ensures r == Err(InsufficientPosition) <==> kind == Sell && held < quantity
    ensures r.Err? ==> r.error == InsufficientFunds || r.error == InsufficientPosition
    ensures r.Ok? && kind == Buy ==> r.value == cash - TradeCost(price, quantity)
    ensures r.Ok? && kind == Sell ==> r.value == cash + TradeCost(price, quantity)
  {
    var cost := TradeCost(price, quantity);
    match kind
    case Buy => if cash < cost then Err(InsufficientFunds) else Ok(cash - cost)
    case Sell => if held < quantity then Err(InsufficientPosition) else Ok(cash + cost)
  }

  /** A SELL of a negative quantity passes the position check and takes cash away. */
  lemma NegativeSellDrainsCash()
    ensures SettleAsWritten(0.0, 0, Sell, -1, 10.0) == Ok(-1000.0)
  {
  }

  /**
   * For every balance, held position and positive price, the service as
   * written accepts a negative SELL and leaves less cash than before, and
   * accepts a negative BUY and leaves more.
   */
  lemma NegativeQuantityAccepted(cash: real, held: int, quantity: int, price: real)
    requires cash >= 0.0 && held >= 0 && quantity < 0 && price > 0.0
    ensures SettleAsWritten(cash, held, Sell, quantity, price).Ok?
    ensures SettleAsWritten(cash, held, Sell, quantity, price).value < cash
    ensures SettleAsWritten(cash, held, Buy, quantity, price).Ok?
    ensures SettleAsWritten(cash, held, Buy, quantity, price).value > cash
  {
    assert TradeCost(price, quantity) < 0.0 by {
      assert price * quantity as real < 0.0;
    }
  }

  /** The intended decision: a trade is for a positive number of contracts. */
  function Settle(cash: real, held: int, kind: TradeType, quantity: int, price: real): (r: Result<real, TradeError>)
    ensures r.Ok? <==>
      quantity > 0 && (kind == Buy ==> cash >= TradeCost(price, quantity)) && (kind == Sell ==> held >= quantity)
    ensures r == Err(InvalidQuantity) <==> quantity <= 0
    ensures quantity > 0 ==> r == SettleAsWritten(cash, held, kind, quantity, price)
  {
    if quantity <= 0 then Err(InvalidQuantity) else SettleAsWritten(cash, held, kind, quantity, price)
  }

  /** With a non-negative price, an accepted trade never leaves a non-negative balance negative. */
  lemma SettleKeepsCashNonNegative(cash: real, held: int, kind: TradeType, quantity: int, price: real)
    requires cash >= 0.0 && price >= 0.0
    requires Settle(cash, held, kind, quantity, price).Ok?
    ensures Settle(cash, held, kind, quantity, price).value >= 0.0
  {
    assert TradeCost(price, quantity) >= 0.0 by {
      assert price * quantity as real >= 0.0;
    }
  }

  /** A BUY followed by a SELL of the same quantity at the same price restores the balance. */
  lemma BuyThenSellRestoresCash(cash: real, held: int, quantity: int, price: real)
    requires held >= 0
    requires Settle(cash, held, Buy, quantity, price).Ok?
    ensures Settle(Settle(cash, held, Buy, quantity, price).value, held + quantity, Sell, quantity, price)
      == Ok(cash)
  {
  }

  /**
   * The whole decision of a trade request against the state before it: the
   * quantity check, the portfolio lookup, the price lookup (`None` when no
   * price could be fetched), the held quantity from the portfolio's trades in
   * that option symbol, then the settlement.  An accepted request yields the
   * row to append, numbered `nextId`, without expiration date or spread id.
   */
  function Decide(
    ps: seq<Portfolio>, trades: seq<Trade>, nextId: nat,
    userId: nat, competitionId: nat, req: TradeRequest, price: Option<real>): (r: Result<Placed, TradeError>)
    ensures r == Err(InvalidQuantity) <==> req.quantity <= 0
    ensures r == Err(PortfolioNotFound) <==> req.quantity > 0 && FindPortfolio(ps, userId, competitionId).None?
    ensures r == Err(PriceUnavailable) <==>
      req.quantity > 0 && FindPortfolio(ps, userId, competitionId).Some? && price.None?
    ensures r.Ok? ==> FindPortfolio(ps, userId, competitionId).Some?
    ensures req.quantity > 0 && FindPortfolio(ps, userId, competitionId).Some? && price.Some? ==>
      var i := FindPortfolio(ps, userId, competitionId).value;
      var settled := Settle(ps[i].cash, Held(trades, ps[i].id, req.optionSymbol), req.kind, req.quantity, price.value);
      && (r.Ok? <==> settled.Ok?)
      && (settled.Err? ==> r == Err(settled.error))
    ensures r.Ok? ==>
      var i := FindPortfolio(ps, userId, competitionId).value;
      var t := r.value.trade;
      && price.Some?
      && Settle(ps[i].cash, Held(trades, ps[i].id, req.optionSymbol), req.kind, req.quantity, price.value)
         == Ok(r.value.newBalance)
      && t == Trade(nextId, ps[i].id, req.symbol, req.optionSymbol, req.kind, req.side, req.quantity,
                    price.value, None, None)
  {
    if req.quantity <= 0 then Err(InvalidQuantity)
    else match FindPortfolio(ps, userId, competitionId)
      case None => Err(PortfolioNotFound)
      case Some(i) =>
        match price
        case None => Err(PriceUnavailable)
        case Some(p) =>
          var held := Held(trades, ps[i].id, req.optionSymbol);
          match Settle(ps[i].cash, held, req.kind, req.quantity, p)
          case Err(e) => Err(e)
          case Ok(balance) =>
            Ok(Placed(Trade(nextId, ps[i].id, req.symbol, req.optionSymbol, req.kind, req.side,
                            req.quantity, p, None, None), balance))
  }

  /** Appending the row of an accepted trade keeps every portfolio's log covered. */
  lemma DecideKeepsLedgerInvariant(
    ps: seq<Portfolio>, trades: seq<Trade>, nextId: nat,
    userId: nat, competitionId: nat, req: TradeRequest, price: Option<real>)
    requires LedgerInvariant(trades)
    requires Decide(ps, trades, nextId, userId, competitionId, req, price).Ok?
    ensures LedgerInvariant(trades + [Decide(ps, trades, nextId, userId, competitionId, req, price).value.trade])
  {
    var t := Decide(ps, trades, nextId, userId, competitionId, req, price).value.trade;
    AppendKeepsLedgerInvariant(trades, t);
  }

  /**
   * The `portfolios` and `trades` tables.  Trade ids are handed out in
   * increasing order, and the log satisfies the ledger invariant: in every
   * portfolio no SELL exceeded the contracts held at the time.
   */
  class TradingLedger {
    var portfolios: seq<Portfolio>
    var trades: seq<Trade>
    var nextTradeId: nat

    ghost predicate Valid()
      reads this
    {
      && LedgerInvariant(trades)
      && (forall t | t in trades :: t.id < nextTradeId)
    }

    constructor (portfolios: seq<Portfolio>)
      ensures Valid()
      ensures this.portfolios == portfolios && trades == [] && nextTradeId == 1
    {
      this.portfolios := portfolios;
      trades := [];
      nextTradeId := 1;
    }

    /**
     * The loop of lines 186-190 over the rows the query selects: the
     * portfolio's trades in `optionSymbol`, summed as +BUY and −SELL.
     */
    method HeldQuantity(portfolioId: nat, optionSymbol: string) returns (held: int)
      ensures held == Held(trades, portfolioId, optionSymbol)
    {
      held := 0;
      for i := 0 to |trades|
        invariant held == Held(trades[..i], portfolioId, optionSymbol)
      {
        var t := trades[i];
        assert trades[..i] + [t] == trades[..i + 1];
        HeldAppend(trades[..i], t, portfolioId, optionSymbol);
        if t.portfolioId == portfolioId && t.optionSymbol == optionSymbol {
          if t.kind == Buy {
            held := held + t.quantity;
          }
          if t.kind == Sell {
            held := held - t.quantity;
          }
        }
      }
      assert trades[..|trades|] == trades;
    }

    /**
     * `placeTrade`: decide the request against the current tables; on
     * acceptance move the portfolio's cash and append exactly one trade, on
     * refusal change nothing.
     */
    method PlaceTrade(userId: nat, competitionId: nat, req: TradeRequest, price: Option<real>)
      returns (r: Result<Placed, TradeError>)
      requires Valid()
      modifies this
      ensures Valid()
      ensures r == Decide(old(portfolios), old(trades), old(nextTradeId), userId, competitionId, req, price)
      ensures r.Err? ==>
        portfolios == old(portfolios) && trades == old(trades) && nextTradeId == old(nextTradeId)
      ensures r.Ok? ==>
        var i := FindPortfolio(old(portfolios), userId, competitionId).value;
        && trades == old(trades) + [r.value.trade]
        && portfolios == old(portfolios)[i := old(portfolios)[i].(cash := r.value.newBalance)]
        && nextTradeId == old(nextTradeId) + 1
    {
      if req.quantity <= 0 {
        return Err(InvalidQuantity);
      }
      var found := FindPortfolio(portfolios, userId, competitionId);
      if found.None? {
        return Err(PortfolioNotFound);
      }
      var i := found.value;
      var portfolio := portfolios[i];
      if price.None? {
        return Err(PriceUnavailable);
      }
      var p := price.value;
      var totalCost := TradeCost(p, req.quantity);
      var held := HeldQuantity(portfolio.id, req.optionSymbol);
      var newBalance: real;
      if req.kind == Buy {
        if portfolio.cash < totalCost {
          return Err(InsufficientFunds);
        }
        newBalance := portfolio.cash - totalCost;
      } else {
        if held < req.quantity {
          return Err(InsufficientPosition);
        }
        newBalance := portfolio.cash + totalCost;
      }
      var trade := Trade(nextTradeId, portfolio.id, req.symbol, req.optionSymbol, req.kind, req.side,
                         req.quantity, p, None, None);
      DecideKeepsLedgerInvariant(portfolios, trades, nextTradeId, userId, competitionId, req, price);
      portfolios := portfolios[i := portfolio.(cash := newBalance)];
      trades := trades + [trade];
      nextTradeId := nextTradeId + 1;
      r := Ok(Placed(trade, newBalance));
    }

    /**
     * `getPortfolio`'s holdings: the portfolio's trades in log order, folded
     * by `calculateHoldings`.  The ledger invariant is what makes the fold
     * well defined.
     */
    method PortfolioHoldings(portfolioId: nat) returns (holdings: seq<Holding>)
      requires Valid()
      ensures holdings == Holdings(OfPortfolio(trades, portfolioId))
    {
      holdings := CalculateHoldings(OfPortfolio(trades, portfolioId));
    }
  }
}
