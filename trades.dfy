/**
 * The `trades` table: an append-only, chronologically ordered log of option
 * trades, and the net positions it implies.  Every module of the ledger reads
 * this log; the ledger's central invariant (no SELL ever exceeds the
 * contracts held) is stated here once.
 */
module Trades {
  import opened Wrappers

  /** The `type` column. The trade route admits only BUY and SELL. */
  datatype TradeType = Buy | Sell

  /** The `side` column: the option right. */
  datatype Side = Call | Put

  /**
   * One row of `trades`, in timestamp order within a sequence.  `spreadId`
   * and `expirationDate` are the nullable columns added by later migrations;
   * `price` is the per-share price, so a contract costs `price * 100`.
   */
  datatype Trade = Trade(
    id: nat,
    portfolioId: nat,
    symbol: string,
    optionSymbol: string,
    kind: TradeType,
    side: Side,
    quantity: int,
    price: real,
    spreadId: Option<string>,
    expirationDate: Option<string>)

  /** Contracts a trade adds to its position: +quantity for a BUY, -quantity for a SELL. */
  function Signed(t: Trade): int { if t.kind == Buy then t.quantity else -t.quantity }

  /** Σ BUY.quantity − Σ SELL.quantity over the trades in `optionSymbol`. */
  function Net(trades: seq<Trade>, optionSymbol: string): int
  {
    if trades == [] then 0
    else
      var last := trades[|trades| - 1];
      Net(trades[..|trades| - 1], optionSymbol) + (if last.optionSymbol == optionSymbol then Signed(last) else 0)
  }

  /** Appending a trade moves only its own symbol's net position, by its signed quantity. */
  lemma NetAppend(trades: seq<Trade>, t: Trade, optionSymbol: string)
    ensures Net(trades + [t], optionSymbol) ==
      Net(trades, optionSymbol) + (if t.optionSymbol == optionSymbol then Signed(t) else 0)
  {
    assert (trades + [t])[..|trades|] == trades;
  }

  /** The trades of one portfolio, in log order (`where portfolio_id = p order by timestamp`). */
  function OfPortfolio(trades: seq<Trade>, portfolioId: nat): (r: seq<Trade>)
    ensures |r| <= |trades|
    ensures forall t | t in r :: t in trades && t.portfolioId == portfolioId
    ensures forall t | t in trades && t.portfolioId == portfolioId :: t in r
  {
    if trades == [] then []
    else
      var last := trades[|trades| - 1];
      OfPortfolio(trades[..|trades| - 1], portfolioId) + (if last.portfolioId == portfolioId then [last] else [])
  }

  /** Appending a trade extends only its own portfolio's log. */
  lemma OfPortfolioAppend(trades: seq<Trade>, t: Trade, portfolioId: nat)
    ensures OfPortfolio(trades + [t], portfolioId) ==
      OfPortfolio(trades, portfolioId) + (if t.portfolioId == portfolioId then [t] else [])
  {
    assert (trades + [t])[..|trades|] == trades;
  }

  /** The contracts of `optionSymbol` a portfolio holds according to the log. */
  function Held(trades: seq<Trade>, portfolioId: nat, optionSymbol: string): int
  {
    Net(OfPortfolio(trades, portfolioId), optionSymbol)
  }

  /** Appending a trade moves only its own portfolio's position in its own symbol. */
  lemma HeldAppend(trades: seq<Trade>, t: Trade, portfolioId: nat, optionSymbol: string)
    ensures Held(trades + [t], portfolioId, optionSymbol) ==
      Held(trades, portfolioId, optionSymbol)
      + (if t.portfolioId == portfolioId && t.optionSymbol == optionSymbol then Signed(t) else 0)
  {
    var s := trades + [t];
    assert s[..|s| - 1] == trades;
    if t.portfolioId == portfolioId {
      assert OfPortfolio(s, portfolioId) == OfPortfolio(trades, portfolioId) + [t];
      NetAppend(OfPortfolio(trades, portfolioId), t, optionSymbol);
    } else {
      assert OfPortfolio(s, portfolioId) == OfPortfolio(trades, portfolioId);
    }
  }

  /**
   * A single portfolio's log as the trade service produces it: every trade is
   * for a positive number of contracts and no SELL exceeds what was held.
   */
  ghost predicate SellsCovered(trades: seq<Trade>)
  {
    trades == [] ||
      var n := |trades| - 1;
      SellsCovered(trades[..n]) && Covers(trades[..n], trades[n])
  }

  /** `t` may follow `trades`: a positive quantity, and a SELL of no more than is held. */
  ghost predicate Covers(trades: seq<Trade>, t: Trade)
  {
    t.quantity > 0 && (t.kind == Sell ==> Net(trades, t.optionSymbol) >= t.quantity)
  }

  /** The whole `trades` table: every portfolio's own log has covered sells. */
  ghost predicate LedgerInvariant(trades: seq<Trade>)
  {
    forall p: nat :: SellsCovered(OfPortfolio(trades, p))
  }

  lemma {:induction false} SellsCoveredPrefix(trades: seq<Trade>, n: nat)
    requires SellsCovered(trades) && n <= |trades|
    ensures SellsCovered(trades[..n])
    decreases |trades|
  {
    if n < |trades| {
      var m := |trades| - 1;
      assert trades[..m][..n] == trades[..n];
      SellsCoveredPrefix(trades[..m], n);
    } else {
      assert trades[..n] == trades;
    }
  }

  /** Appending one trade extends a covered log exactly when the new trade is itself covered. */
  lemma SellsCoveredAppend(trades: seq<Trade>, t: Trade)
    requires SellsCovered(trades)
    ensures SellsCovered(trades + [t]) <==> Covers(trades, t)
  {
    assert (trades + [t])[..|trades|] == trades;
  }

  /** In a covered log no position is ever short. */
  lemma {:induction false} NetNonNegative(trades: seq<Trade>, optionSymbol: string)
    requires SellsCovered(trades)
    ensures Net(trades, optionSymbol) >= 0
  {
    if trades != [] {
      var n := |trades| - 1;
      SellsCoveredPrefix(trades, n);
      NetNonNegative(trades[..n], optionSymbol);
    }
  }

  /** A symbol the log never mentions has no position. */
  lemma {:induction false} NetOfUnseen(trades: seq<Trade>, optionSymbol: string)
    requires forall t | t in trades :: t.optionSymbol != optionSymbol
    ensures Net(trades, optionSymbol) == 0
  {
    if trades != [] {
      NetOfUnseen(trades[..|trades| - 1], optionSymbol);
    }
  }

  /** A symbol with a non-zero position has been traded. */
  lemma {:induction false} NetOfSeen(trades: seq<Trade>, optionSymbol: string)
    requires Net(trades, optionSymbol) != 0
    ensures exists t | t in trades :: t.optionSymbol == optionSymbol
  {
    var n := |trades| - 1;
    if trades[n].optionSymbol != optionSymbol {
      NetOfSeen(trades[..n], optionSymbol);
      var t :| t in trades[..n] && t.optionSymbol == optionSymbol;
      assert t in trades;
    }
  }

  /**
   * The ledger invariant survives appending a trade for a positive quantity
   * that, if it is a SELL, does not exceed what its portfolio holds.
   */
  lemma AppendKeepsLedgerInvariant(trades: seq<Trade>, t: Trade)
    requires LedgerInvariant(trades)
    requires t.quantity > 0
    requires t.kind == Sell ==> Held(trades, t.portfolioId, t.optionSymbol) >= t.quantity
    ensures LedgerInvariant(trades + [t])
  {
    forall p: nat
      ensures SellsCovered(OfPortfolio(trades + [t], p))
    {
      AppendKeepsPortfolioCovered(trades, t, p);
    }
  }

  lemma AppendKeepsPortfolioCovered(trades: seq<Trade>, t: Trade, p: nat)
    requires SellsCovered(OfPortfolio(trades, p))
    requires t.quantity > 0
    requires t.kind == Sell ==> Held(trades, t.portfolioId, t.optionSymbol) >= t.quantity
    ensures SellsCovered(OfPortfolio(trades + [t], p))
  {
    var s := trades + [t];
    assert s[..|s| - 1] == trades;
    if t.portfolioId == p {
      assert OfPortfolio(s, p) == OfPortfolio(trades, p) + [t];
      SellsCoveredAppend(OfPortfolio(trades, p), t);
    } else {
      assert OfPortfolio(s, p) == OfPortfolio(trades, p);
    }
  }
}
