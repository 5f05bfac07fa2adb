/**
 * The migration that creates the `holdings` table and fills it from the
 * trade log: per portfolio, trades sharing a spread id are paired into one
 * spread, the remaining trades are folded by average cost, closed positions
 * are dropped, and each position becomes one row (two for a spread).
 */
module HoldingsMigration {
  import opened Wrappers
  import opened Collections
  import opened Trades

  /** `trade.spread_id` is truthy: present and not the empty string. */
  predicate InSpread(t: Trade)
  {
    t.spreadId.Some? && t.spreadId.value != ""
  }

  /** The two legs a spread position remembers. */
  datatype Legs = Legs(spreadId: string, longSymbol: string, longPrice: real, shortSymbol: string, shortPrice: real)

  /**
   * A value of the reconstruction map: a standalone position (`legs` is
   * `None`) or a spread (`legs` names its spread id and both legs; its own
   * `optionSymbol` is unset, written here as "").
   */
  datatype Position = Position(
    symbol: string, optionSymbol: string, side: Side, quantity: int, totalCost: real, legs: Option<Legs>)

  /** A JavaScript `Map<string, Position>`: its entries and its keys in insertion order. */
  datatype PositionMap = PositionMap(entries: map<string, Position>, order: seq<string>)

  const Empty := PositionMap(map[], [])

  ghost predicate WellFormed(m: PositionMap)
  {
    && Distinct(m.order)
    && (forall k :: k in m.entries <==> k in m.order)
  }

  /** `Map.set`: a new key goes to the end of the order, an existing key keeps its place. */
  function Put(m: PositionMap, key: string, p: Position): (r: PositionMap)
    requires WellFormed(m)
    ensures WellFormed(r)
    ensures r.entries == m.entries[key := p]
    ensures key in m.entries ==> r.order == m.order
    ensures key !in m.entries ==> r.order == m.order + [key]
  {
    if key in m.entries then PositionMap(m.entries[key := p], m.order)
    else PositionMap(m.entries[key := p], m.order + [key])
  }

  /** The spread ids of the log, each once, in order of first appearance (the key order of `spreadGroups`). */
  function SpreadIds(trades: seq<Trade>): (r: seq<string>)
    ensures Distinct(r)
    ensures forall id | id in r :: id != ""
    ensures forall t | t in trades && InSpread(t) :: t.spreadId.value in r
  {
    if trades == [] then []
    else
      var n := |trades| - 1;
      var prev := SpreadIds(trades[..n]);
      assert forall t | t in trades[..n] :: t in trades;
      assert forall t | t in trades :: t in trades[..n] || t == trades[n];
      if InSpread(trades[n]) && trades[n].spreadId.value !in prev then prev + [trades[n].spreadId.value]
      else prev
  }

  /** The trades of spread `id`, in log order. */
  function Members(trades: seq<Trade>, id: string): (r: seq<Trade>)
    ensures forall t | t in r :: t in trades && t.spreadId == Some(id)
    ensures forall t | t in trades && t.spreadId == Some(id) :: t in r
  {
    if trades == [] then []
    else
      var n := |trades| - 1;
      Members(trades[..n], id) + (if trades[n].spreadId == Some(id) then [trades[n]] else [])
  }

  /** `spreadGroups`: each spread id mapped to its trades. */
  function Groups(trades: seq<Trade>): map<string, seq<Trade>>
  {
    map id | id in SpreadIds(trades) :: Members(trades, id)
  }

  /** `processedTradeIds`: the ids of all trades that belong to a spread. */
  function Processed(trades: seq<Trade>): (r: set<nat>)
    ensures forall t | t in trades && InSpread(t) :: t.id in r
  {
    if trades == [] then {}
    else
      var n := |trades| - 1;
      assert forall t | t in trades :: t in trades[..n] || t == trades[n];
      Processed(trades[..n]) + (if InSpread(trades[n]) then {trades[n].id} else {})
  }

  /** `groupTrades.find(t => t.type === kind)`. */
  function FindKind(group: seq<Trade>, kind: TradeType): (r: Option<Trade>)
    ensures r.None? <==> forall t | t in group :: t.kind != kind
    ensures r.Some? ==> r.value in group && r.value.kind == kind
  {
    if group == [] then None
    else if group[0].kind == kind then Some(group[0])
    else FindKind(group[1..], kind)
  }

  function SpreadKey(id: string): string
  {
    "SPREAD:" + id
  }

  /**
   * One spread group turned into a position: only a group of exactly two
   * trades, one BUY and one SELL, is paired.  The spread holds the BUY leg's
   * quantity at the BUY leg's cost minus the SELL leg's proceeds.
   */
  function PairSpread(id: string, group: seq<Trade>): (r: Option<Position>)
    ensures r.Some? <==>
      |group| == 2 && (exists t | t in group :: t.kind == Buy) && (exists t | t in group :: t.kind == Sell)
    ensures r.Some? ==> group[0].kind != group[1].kind
    ensures r.Some? ==>
      var buy := if group[0].kind == Buy then group[0] else group[1];
      var sell := if group[0].kind == Buy then group[1] else group[0];
      && r.value.quantity == buy.quantity
      && r.value.totalCost == buy.price * buy.quantity as real * 100.0 - sell.price * sell.quantity as real * 100.0
      && r.value.legs == Some(Legs(id, buy.optionSymbol, buy.price, sell.optionSymbol, sell.price))
      && r.value.symbol == buy.symbol && r.value.side == buy.side
  {
    if |group| != 2 then None
    else
      var buyLeg, sellLeg := FindKind(group, Buy), FindKind(group, Sell);
      if buyLeg.None? || sellLeg.None? then None
      else
        var buy, sell := buyLeg.value, sellLeg.value;
        Some(Position(buy.symbol, "", buy.side, buy.quantity,
                      buy.price * buy.quantity as real * 100.0 - sell.price * sell.quantity as real * 100.0,
                      Some(Legs(id, buy.optionSymbol, buy.price, sell.optionSymbol, sell.price))))
  }

  /** Lines 113-141 over the ids in `ids`: every complete pair is set under `SPREAD:<id>`. */
  function AddSpreads(groups: map<string, seq<Trade>>, ids: seq<string>): (r: PositionMap)
    requires forall id | id in ids :: id in groups
    ensures WellFormed(r)
  {
    if ids == [] then Empty
    else
      var n := |ids| - 1;
      var m := AddSpreads(groups, ids[..n]);
      match PairSpread(ids[n], groups[ids[n]])
      case None => m
      case Some(p) => Put(m, SpreadKey(ids[n]), p)
  }

  /** The map after the first pass. */
  function SpreadPhase(trades: seq<Trade>): (r: PositionMap)
    ensures WellFormed(r)
  {
    AddSpreads(Groups(trades), SpreadIds(trades))
  }

  /** Different spread ids are filed under different keys. */
  lemma SpreadKeyInjective(a: string, b: string)
    requires SpreadKey(a) == SpreadKey(b)
    ensures a == b
  {
    assert a == SpreadKey(a)[7..] && b == SpreadKey(b)[7..];
  }

  /** The spread loop over `ids` files nothing but the keys of those ids. */
  lemma {:induction false} AddSpreadsKeys(groups: map<string, seq<Trade>>, ids: seq<string>)
    requires forall id | id in ids :: id in groups
    ensures forall k | k in AddSpreads(groups, ids).entries :: exists id | id in ids :: k == SpreadKey(id)
  {
    if ids != [] {
      var n := |ids| - 1;
      assert forall id | id in ids[..n] :: id in ids;
      AddSpreadsKeys(groups, ids[..n]);
    }
  }

  /**
   * After the spread loop over `ids`, `SPREAD:<id>` holds the pair
   * `PairSpread` makes of the group of `id`, and is absent when the group
   * does not pair.
   */
  lemma {:induction false} AddSpreadsEntry(groups: map<string, seq<Trade>>, ids: seq<string>, id: string)
    requires forall i | i in ids :: i in groups
    requires id in ids
    ensures var p := PairSpread(id, groups[id]);
      var m := AddSpreads(groups, ids);
      && (SpreadKey(id) in m.entries <==> p.Some?)
      && (p.Some? ==> m.entries[SpreadKey(id)] == p.value)
  {
    var n := |ids| - 1;
    var prev := AddSpreads(groups, ids[..n]);
    var p := PairSpread(ids[n], groups[ids[n]]);
    assert AddSpreads(groups, ids) == if p.None? then prev else Put(prev, SpreadKey(ids[n]), p.value);
    assert forall i | i in ids[..n] :: i in ids;
    if id in ids[..n] {
      AddSpreadsEntry(groups, ids[..n], id);
    } else {
      AddSpreadsKeys(groups, ids[..n]);
      if SpreadKey(id) in prev.entries {
        var j :| j in ids[..n] && SpreadKey(id) == SpreadKey(j);
        SpreadKeyInjective(id, j);
      }
    }
    if ids[n] != id && SpreadKey(ids[n]) == SpreadKey(id) {
      SpreadKeyInjective(ids[n], id);
    }
  }

  /**
   * The first pass of `calculateHoldingsMap`: for every spread id, the map
   * holds `SPREAD:<id>` exactly when its group pairs, and then holds that
   * pair; it holds nothing but spread keys.
   */
  lemma SpreadPhaseEntries(trades: seq<Trade>)
    ensures forall id | id in SpreadIds(trades) ::
      SpreadKey(id) in SpreadPhase(trades).entries <==> PairSpread(id, Members(trades, id)).Some?
    ensures forall id | id in SpreadIds(trades) && PairSpread(id, Members(trades, id)).Some? ::
      SpreadPhase(trades).entries[SpreadKey(id)] == PairSpread(id, Members(trades, id)).value
    ensures forall k | k in SpreadPhase(trades).entries :: exists id | id in SpreadIds(trades) :: k == SpreadKey(id)
  {
    var groups, ids := Groups(trades), SpreadIds(trades);
    forall id | id in ids
      ensures SpreadKey(id) in SpreadPhase(trades).entries <==> PairSpread(id, Members(trades, id)).Some?
      ensures PairSpread(id, Members(trades, id)).Some? ==>
        SpreadPhase(trades).entries[SpreadKey(id)] == PairSpread(id, Members(trades, id)).value
    {
      AddSpreadsEntry(groups, ids, id);
    }
    AddSpreadsKeys(groups, ids);
  }

  /**
   * One standalone trade applied to its position (lines 159-168).  A BUY
   * adds its cost; a SELL removes cost at the average price, taken as 0 when
   * the position is not positive so that nothing is divided by zero.
   */
  function Bump(h: Position, t: Trade): (r: Position)
    ensures r == h.(totalCost := r.totalCost, quantity := r.quantity)
    ensures r.quantity == h.quantity + Signed(t)
    ensures t.kind == Buy ==> r.totalCost == h.totalCost + t.price * t.quantity as real * 100.0
  {
    var q := t.quantity as real;
    match t.kind
    case Buy => h.(totalCost := h.totalCost + t.price * q * 100.0, quantity := h.quantity + t.quantity)
    case Sell =>
      var avgPrice := if h.quantity > 0 then h.totalCost / (h.quantity as real * 100.0) else 0.0;
      h.(totalCost := h.totalCost - q * 100.0 * avgPrice, quantity := h.quantity - t.quantity)
  }

  /** One standalone trade (lines 147-168): open its position if needed, then apply it. */
  function StandaloneStep(m: PositionMap, t: Trade): (r: PositionMap)
    requires WellFormed(m)
    ensures WellFormed(r)
    ensures t.optionSymbol in r.entries
  {
    var h := if t.optionSymbol in m.entries then m.entries[t.optionSymbol]
             else Position(t.symbol, t.optionSymbol, t.side, 0, 0.0, None);
    Put(m, t.optionSymbol, Bump(h, t))
  }

  /** The second pass (lines 144-169): every trade whose id was not taken by a spread, in log order. */
  function Standalone(m: PositionMap, trades: seq<Trade>, processed: set<nat>): (r: PositionMap)
    requires WellFormed(m)
    ensures WellFormed(r)
  {
    if trades == [] then m
    else
      var n := |trades| - 1;
      var prev := Standalone(m, trades[..n], processed);
      if trades[n].id in processed then prev else StandaloneStep(prev, trades[n])
  }

  /** The keys of `order` whose position is still open. */
  function OpenKeys(m: PositionMap, order: seq<string>): (r: seq<string>)
    requires forall k | k in order :: k in m.entries
    ensures forall k :: k in r <==> k in order && m.entries[k].quantity > 0
    ensures Distinct(order) ==> Distinct(r)
  {
    if order == [] then []
    else
      var n := |order| - 1;
      assert forall k | k in order :: k in order[..n] || k == order[n];
      OpenKeys(m, order[..n]) + (if m.entries[order[n]].quantity > 0 then [order[n]] else [])
  }

  /** Lines 172-176: the map without its positions of quantity 0 or less. */
  function DropClosed(m: PositionMap): (r: PositionMap)
    requires WellFormed(m)
    ensures WellFormed(r)
    ensures forall k | k in r.entries :: k in m.entries && r.entries[k] == m.entries[k] && r.entries[k].quantity > 0
    ensures forall k | k in m.entries && m.entries[k].quantity > 0 :: k in r.entries
  {
    PositionMap(map k | k in m.entries && m.entries[k].quantity > 0 :: m.entries[k], OpenKeys(m, m.order))
  }

  /** `calculateHoldingsMap(trades)`. */
  function Reconstruct(trades: seq<Trade>): (r: PositionMap)
    ensures WellFormed(r)
  {
    DropClosed(Standalone(SpreadPhase(trades), trades, Processed(trades)))
  }

  /** The second pass leaves alone every key no unprocessed trade is filed under. */
  lemma {:induction false} StandaloneElsewhere(m: PositionMap, trades: seq<Trade>, processed: set<nat>, key: string)
    requires WellFormed(m)
    requires forall t | t in trades && t.id !in processed :: t.optionSymbol != key
    ensures key in Standalone(m, trades, processed).entries <==> key in m.entries
    ensures key in m.entries ==> Standalone(m, trades, processed).entries[key] == m.entries[key]
  {
    if trades != [] {
      var n := |trades| - 1;
      assert forall t | t in trades[..n] :: t in trades;
      StandaloneElsewhere(m, trades[..n], processed, key);
    }
  }

  /**
   * A spread that pairs with a positive quantity is in the reconstructed
   * map under `SPREAD:<id>`, unchanged, unless some standalone trade is
   * filed under that very key.
   */
  lemma SpreadSurvives(trades: seq<Trade>, id: string)
    requires id in SpreadIds(trades)
    requires PairSpread(id, Members(trades, id)).Some? && PairSpread(id, Members(trades, id)).value.quantity > 0
    requires forall t | t in trades && t.id !in Processed(trades) :: t.optionSymbol != SpreadKey(id)
    ensures SpreadKey(id) in Reconstruct(trades).entries
    ensures Reconstruct(trades).entries[SpreadKey(id)] == PairSpread(id, Members(trades, id)).value
  {
    SpreadPhaseEntries(trades);
    StandaloneElsewhere(SpreadPhase(trades), trades, Processed(trades), SpreadKey(id));
  }

  /** After reconstruction every position, spread or standalone, is open. */
  lemma ReconstructKeepsOpenPositions(trades: seq<Trade>)
    ensures forall k | k in Reconstruct(trades).entries :: Reconstruct(trades).entries[k].quantity > 0
  {
  }

  // ---------------------------------------------------------------------
  // The standalone fold ignores spread trades, and its SELL guard.

  /** No two trades of the log share an id (the `trades.id` primary key). */
  predicate UniqueIds(trades: seq<Trade>)
  {
    forall i, j | 0 <= i < j < |trades| :: trades[i].id != trades[j].id
  }

  /** The trades outside every spread, in log order. */
  function NonSpread(trades: seq<Trade>): (r: seq<Trade>)
    ensures forall t | t in r :: t in trades && !InSpread(t)
  {
    if trades == [] then []
    else
      var n := |trades| - 1;
      NonSpread(trades[..n]) + (if InSpread(trades[n]) then [] else [trades[n]])
  }

  /**
   * With unique trade ids, the second pass is exactly the average-cost fold
   * of the trades that belong to no spread.
   */
  lemma StandaloneSkipsSpreadTrades(m: PositionMap, trades: seq<Trade>)
    requires WellFormed(m) && UniqueIds(trades)
    ensures Standalone(m, trades, Processed(trades)) == Standalone(m, NonSpread(trades), {})
  {
    ProcessedExactly(trades);
    StandaloneSkipsOutside(m, trades, Processed(trades));
  }

  lemma {:induction false} StandaloneSkipsOutside(m: PositionMap, trades: seq<Trade>, processed: set<nat>)
    requires WellFormed(m)
    requires forall t | t in trades :: t.id in processed <==> InSpread(t)
    ensures Standalone(m, trades, processed) == Standalone(m, NonSpread(trades), {})
  {
    if trades != [] {
      var n := |trades| - 1;
      var t := trades[n];
      assert forall u | u in trades[..n] :: u in trades;
      StandaloneSkipsOutside(m, trades[..n], processed);
      var prev := Standalone(m, trades[..n], processed);
      var rest := NonSpread(trades[..n]);
      assert Standalone(m, trades, processed) == if t.id in processed then prev else StandaloneStep(prev, t);
      assert t in trades;
      if InSpread(t) {
        assert NonSpread(trades) == rest;
      } else {
        assert NonSpread(trades) == rest + [t];
        StandaloneAppend(m, rest, t, {});
      }
    }
  }

  lemma StandaloneAppend(m: PositionMap, trades: seq<Trade>, t: Trade, processed: set<nat>)
    requires WellFormed(m)
    ensures Standalone(m, trades + [t], processed) ==
      if t.id in processed then Standalone(m, trades, processed) else StandaloneStep(Standalone(m, trades, processed), t)
  {
    assert (trades + [t])[..|trades|] == trades;
  }

  /** The ids taken by spreads are exactly those of spread trades, when ids are unique. */
  lemma ProcessedExactly(trades: seq<Trade>)
    requires UniqueIds(trades)
    ensures forall t | t in trades :: t.id in Processed(trades) <==> InSpread(t)
  {
    forall t | t in trades && t.id in Processed(trades)
      ensures InSpread(t)
    {
      var u := ProcessedWitness(trades, t.id);
      var i :| 0 <= i < |trades| && trades[i] == u;
      var j :| 0 <= j < |trades| && trades[j] == t;
      assert i == j;
    }
  }

  /** A processed id belongs to some spread trade of the log. */
  lemma {:induction false} ProcessedWitness(trades: seq<Trade>, id: nat) returns (u: Trade)
    requires id in Processed(trades)
    ensures u in trades && InSpread(u) && u.id == id
  {
    var n := |trades| - 1;
    if InSpread(trades[n]) && trades[n].id == id {
      u := trades[n];
    } else {
      u := ProcessedWitness(trades[..n], id);
      assert u in trades[..n];
      assert u in trades;
    }
  }

  /** A SELL against a position that is not positive removes no cost. */
  lemma SellFromEmptyKeepsCost(m: PositionMap, t: Trade)
    requires WellFormed(m) && t.kind == Sell
    requires t.optionSymbol !in m.entries || m.entries[t.optionSymbol].quantity <= 0
    ensures StandaloneStep(m, t).entries[t.optionSymbol].totalCost ==
      (if t.optionSymbol in m.entries then m.entries[t.optionSymbol].totalCost else 0.0)
  {
  }

  /**
   * A SELL against a positive position keeps its average price: the new
   * cost is the old cost scaled by the quantity that remains.
   */
  lemma SellKeepsAverage(m: PositionMap, t: Trade)
    requires WellFormed(m) && t.kind == Sell
    requires t.optionSymbol in m.entries && m.entries[t.optionSymbol].quantity > 0
    ensures var h := m.entries[t.optionSymbol];
      var h' := StandaloneStep(m, t).entries[t.optionSymbol];
      && h'.quantity == h.quantity - t.quantity
      && h'.totalCost * h.quantity as real == h.totalCost * h'.quantity as real
  {
    var h := m.entries[t.optionSymbol];
    var q := h.quantity as real;
    var s := t.quantity as real;
    var avg := h.totalCost / (q * 100.0);
    assert avg * q * 100.0 == h.totalCost;
    calc {
      (h.totalCost - s * 100.0 * avg) * q;
      h.totalCost * q - s * (avg * q * 100.0);
      h.totalCost * q - s * h.totalCost;
      h.totalCost * (q - s);
    }
  }

  // ---------------------------------------------------------------------
  // The rows of `up`.

  /** A row of the `holdings` table. */
  datatype Row = Row(
    portfolioId: nat, symbol: string, optionSymbol: string, side: Side,
    quantity: int, costBasis: real, spreadId: Option<string>)

  /** `h.spreadId && h.longLeg && h.shortLeg`. */
  predicate IsSpread(h: Position)
  {
    h.legs.Some? && h.legs.value.spreadId != ""
  }

  /**
   * Lines 47-79 for one position: a spread becomes a long row (+q at the long
   * leg's price) and a short row (−q at minus the short leg's price) sharing
   * the spread id; a standalone position becomes one row carrying its total
   * cost and no spread id.
   */
  function PositionRows(portfolioId: nat, h: Position): (r: seq<Row>)
    ensures IsSpread(h) ==>
      && |r| == 2
      && r[0].quantity == h.quantity && r[1].quantity == -h.quantity
      && r[0].optionSymbol == h.legs.value.longSymbol && r[1].optionSymbol == h.legs.value.shortSymbol
      && r[0].spreadId == r[1].spreadId == Some(h.legs.value.spreadId)
      && r[0].costBasis == h.legs.value.longPrice * h.quantity as real * 100.0
      && r[1].costBasis == -h.legs.value.shortPrice * h.quantity as real * 100.0
      && r[0].symbol == r[1].symbol == h.symbol && r[0].side == r[1].side == h.side
    ensures !IsSpread(h) ==>
      r == [Row(portfolioId, h.symbol, h.optionSymbol, h.side, h.quantity, h.totalCost, None)]
    ensures forall row | row in r :: row.portfolioId == portfolioId
  {
    if IsSpread(h) then
      var legs := h.legs.value;
      var q := h.quantity as real;
      [ Row(portfolioId, h.symbol, legs.longSymbol, h.side, h.quantity, legs.longPrice * q * 100.0, Some(legs.spreadId)),
        Row(portfolioId, h.symbol, legs.shortSymbol, h.side, -h.quantity, -legs.shortPrice * q * 100.0, Some(legs.spreadId)) ]
    else
      [Row(portfolioId, h.symbol, h.optionSymbol, h.side, h.quantity, h.totalCost, None)]
  }

  /**
   * A paired spread whose legs have equal quantities becomes two rows whose
   * cost bases add up to the spread's total cost.
   */
  lemma SpreadRowsSumToCost(portfolioId: nat, id: string, group: seq<Trade>)
    requires id != "" && PairSpread(id, group).Some?
    requires group[0].quantity == group[1].quantity
    ensures var rows := PositionRows(portfolioId, PairSpread(id, group).value);
      |rows| == 2 && rows[0].costBasis + rows[1].costBasis == PairSpread(id, group).value.totalCost
  {
  }

  /** The rows of a whole map, in key order. */
  function MapRows(portfolioId: nat, m: PositionMap, order: seq<string>): (r: seq<Row>)
    requires forall k | k in order :: k in m.entries
    ensures forall row | row in r :: row.portfolioId == portfolioId
  {
    if order == [] then []
    else
      var n := |order| - 1;
      MapRows(portfolioId, m, order[..n]) + PositionRows(portfolioId, m.entries[order[n]])
  }

  /** The rows of one portfolio's reconstruction. */
  function PortfolioRows(portfolioId: nat, trades: seq<Trade>): (r: seq<Row>)
    ensures forall row | row in r :: row.portfolioId == portfolioId
  {
    var m := Reconstruct(trades);
    MapRows(portfolioId, m, m.order)
  }

  /** The portfolio ids of the log, each once, in order of first appearance (the key order of `tradesByPortfolio`). */
  function PortfolioIds(trades: seq<Trade>): (r: seq<nat>)
    ensures Distinct(r)
    ensures forall p :: p in r <==> exists t | t in trades :: t.portfolioId == p
  {
    if trades == [] then []
    else
      var n := |trades| - 1;
      var prev := PortfolioIds(trades[..n]);
      assert forall t | t in trades[..n] :: t in trades;
      assert forall t | t in trades :: t in trades[..n] || t == trades[n];
      if trades[n].portfolioId in prev then prev else prev + [trades[n].portfolioId]
  }

  /** The rows for the portfolios in `pids`, each computed from that portfolio's own trades. */
  function RowsFor(trades: seq<Trade>, pids: seq<nat>): (r: seq<Row>)
    ensures forall row | row in r :: row.portfolioId in pids
  {
    if pids == [] then []
    else
      var n := |pids| - 1;
      RowsFor(trades, pids[..n]) + PortfolioRows(pids[n], OfPortfolio(trades, pids[n]))
  }

  /** Everything `up` inserts (lines 28-81). */
  function UpRows(trades: seq<Trade>): seq<Row>
  {
    RowsFor(trades, PortfolioIds(trades))
  }

  /** The rows of `rows` that belong to portfolio `p`, in order. */
  function RowsOfPortfolio(rows: seq<Row>, p: nat): (r: seq<Row>)
  {
    if rows == [] then []
    else
      var n := |rows| - 1;
      RowsOfPortfolio(rows[..n], p) + (if rows[n].portfolioId == p then [rows[n]] else [])
  }

  lemma {:induction false} RowsOfPortfolioConcat(a: seq<Row>, b: seq<Row>, p: nat)
    ensures RowsOfPortfolio(a + b, p) == RowsOfPortfolio(a, p) + RowsOfPortfolio(b, p)
    decreases |b|
  {
    if b == [] {
      assert a + b == a;
    } else {
      var n := |b| - 1;
      assert (a + b)[..|a + b| - 1] == a + b[..n];
      RowsOfPortfolioConcat(a, b[..n], p);
    }
  }

  lemma {:induction false} RowsOfPortfolioAll(rows: seq<Row>, p: nat)
    ensures (forall row | row in rows :: row.portfolioId == p) ==> RowsOfPortfolio(rows, p) == rows
    ensures (forall row | row in rows :: row.portfolioId != p) ==> RowsOfPortfolio(rows, p) == []
  {
    if rows != [] {
      var n := |rows| - 1;
      assert forall row | row in rows[..n] :: row in rows;
      RowsOfPortfolioAll(rows[..n], p);
      assert rows[..n] + [rows[n]] == rows;
    }
  }

  /**
   * Reconstruction is per portfolio: the rows `up` writes for portfolio `p`
   * are exactly the rows of the reconstruction of `p`'s own trades, in log
   * order, whatever the other portfolios traded.
   */
  lemma UpIsPerPortfolio(trades: seq<Trade>, p: nat)
    ensures RowsOfPortfolio(UpRows(trades), p) == PortfolioRows(p, OfPortfolio(trades, p))
  {
    var pids := PortfolioIds(trades);
    if p in pids {
      var k :| 0 <= k < |pids| && pids[k] == p;
      RowsForPick(trades, pids, k);
    } else {
      RowsForMissing(trades, pids, p);
      OfPortfolioEmpty(trades, p);
      assert Reconstruct([]) == Empty by {
        assert SpreadIds([]) == [];
      }
    }
  }

  lemma {:induction false} OfPortfolioEmpty(trades: seq<Trade>, p: nat)
    requires forall t | t in trades :: t.portfolioId != p
    ensures OfPortfolio(trades, p) == []
  {
    if trades != [] {
      var n := |trades| - 1;
      assert forall t | t in trades[..n] :: t in trades;
      OfPortfolioEmpty(trades[..n], p);
    }
  }

  lemma {:induction false} RowsForMissing(trades: seq<Trade>, pids: seq<nat>, p: nat)
    requires p !in pids
    ensures RowsOfPortfolio(RowsFor(trades, pids), p) == []
  {
    RowsOfPortfolioAll(RowsFor(trades, pids), p);
  }

  lemma {:induction false} RowsForPick(trades: seq<Trade>, pids: seq<nat>, k: nat)
    requires Distinct(pids) && k < |pids|
    ensures RowsOfPortfolio(RowsFor(trades, pids), pids[k]) == PortfolioRows(pids[k], OfPortfolio(trades, pids[k]))
  {
    var p := pids[k];
    var n := |pids| - 1;
    var init := pids[..n];
    var last := PortfolioRows(pids[n], OfPortfolio(trades, pids[n]));
    RowsOfPortfolioConcat(RowsFor(trades, init), last, p);
    RowsOfPortfolioAll(last, p);
    if k == n {
      assert p !in init;
      RowsForMissing(trades, init, p);
    } else {
      assert init[k] == p;
      RowsForPick(trades, init, k);
      assert pids[n] != p;
    }
  }

  // ---------------------------------------------------------------------
  // The migration's loops.

  /** A spread id absent from the first-appearance list has no trades. */
  lemma {:induction false} MembersOfUnseen(trades: seq<Trade>, id: string)
    requires id != "" && id !in SpreadIds(trades)
    ensures Members(trades, id) == []
  {
    if trades != [] {
      MembersOfUnseen(trades[..|trades| - 1], id);
    }
  }

  lemma MembersAppend(trades: seq<Trade>, t: Trade, id: string)
    ensures Members(trades + [t], id) == Members(trades, id) + (if t.spreadId == Some(id) then [t] else [])
  {
    assert (trades + [t])[..|trades|] == trades;
  }

  lemma SpreadIdsAppend(trades: seq<Trade>, t: Trade)
    ensures SpreadIds(trades + [t]) ==
      if InSpread(t) && t.spreadId.value !in SpreadIds(trades) then SpreadIds(trades) + [t.spreadId.value]
      else SpreadIds(trades)
    ensures Processed(trades + [t]) == Processed(trades) + (if InSpread(t) then {t.id} else {})
  {
    assert (trades + [t])[..|trades|] == trades;
  }

  lemma GroupsAppend(trades: seq<Trade>, t: Trade)
    ensures Groups(trades + [t]) ==
      if InSpread(t) then Groups(trades)[t.spreadId.value := Members(trades, t.spreadId.value) + [t]]
      else Groups(trades)
  {
    SpreadIdsAppend(trades, t);
    if InSpread(t) {
      GroupsAppendMember(trades, t);
    } else {
      GroupsAppendOther(trades, t);
    }
  }

  lemma GroupsAppendMember(trades: seq<Trade>, t: Trade)
    requires InSpread(t)
    requires forall k :: k in SpreadIds(trades + [t]) <==> k in SpreadIds(trades) || k == t.spreadId.value
    ensures Groups(trades + [t]) == Groups(trades)[t.spreadId.value := Members(trades, t.spreadId.value) + [t]]
  {
    var id := t.spreadId.value;
    var g, g' := Groups(trades), Groups(trades + [t]);
    var expected := g[id := Members(trades, id) + [t]];
    forall k | k in SpreadIds(trades + [t])
      ensures g'[k] == expected[k]
    {
      MembersAppend(trades, t, k);
      if k != id {
        assert Members(trades, k) + [] == Members(trades, k);
      }
    }
    assert g'.Keys == expected.Keys;
  }

  lemma GroupsAppendOther(trades: seq<Trade>, t: Trade)
    requires !InSpread(t)
    requires SpreadIds(trades + [t]) == SpreadIds(trades)
    ensures Groups(trades + [t]) == Groups(trades)
  {
    var g, g' := Groups(trades), Groups(trades + [t]);
    forall k | k in SpreadIds(trades)
      ensures g'[k] == g[k]
    {
      MembersAppend(trades, t, k);
      assert Members(trades, k) + [] == Members(trades, k);
    }
    assert g'.Keys == g.Keys;
  }

  /** The first pass of lines 101-111: group the spread trades and note their ids. */
  method GroupSpreads(trades: seq<Trade>) returns (groups: map<string, seq<Trade>>, ids: seq<string>, processed: set<nat>)
    ensures groups == Groups(trades) && ids == SpreadIds(trades) && processed == Processed(trades)
  {
    groups, ids, processed := map[], [], {};
    for i := 0 to |trades|
      invariant groups == Groups(trades[..i]) && ids == SpreadIds(trades[..i]) && processed == Processed(trades[..i])
    {
      var trade := trades[i];
      assert trades[..i] + [trade] == trades[..i + 1];
      SpreadIdsAppend(trades[..i], trade);
      GroupsAppend(trades[..i], trade);
      if trade.spreadId.Some? && trade.spreadId.value != "" {
        var id := trade.spreadId.value;
        var group: seq<Trade> := [];
        if id in groups {
          group := groups[id];
        } else {
          MembersOfUnseen(trades[..i], id);
          ids := ids + [id];
        }
        groups := groups[id := group + [trade]];
        processed := processed + {trade.id};
      }
    }
    assert trades[..|trades|] == trades;
  }

  /** Lines 113-141: each complete BUY/SELL pair becomes a spread position. */
  method PairSpreads(groups: map<string, seq<Trade>>, ids: seq<string>) returns (m: PositionMap)
    requires forall id | id in ids :: id in groups
    ensures m == AddSpreads(groups, ids)
  {
    m := Empty;
    for i := 0 to |ids|
      invariant m == AddSpreads(groups, ids[..i])
    {
      assert ids[..i + 1][..i] == ids[..i];
      var spreadId := ids[i];
      var spread := PairGroup(spreadId, groups[spreadId]);
      if spread.Some? {
        m := Put(m, SpreadKey(spreadId), spread.value);
      }
    }
    assert ids[..|ids|] == ids;
  }

  /** The body of the loop of lines 113-141: the spread position of one group, if it is a BUY/SELL pair. */
  method PairGroup(spreadId: string, groupTrades: seq<Trade>) returns (spread: Option<Position>)
    ensures spread == PairSpread(spreadId, groupTrades)
  {
    spread := None;
    if |groupTrades| == 2 {
      var buyLeg := FindKind(groupTrades, Buy);
      var sellLeg := FindKind(groupTrades, Sell);
      if buyLeg.Some? && sellLeg.Some? {
        var buy, sell := buyLeg.value, sellLeg.value;
        var quantity := buy.quantity;
        var totalCost := buy.price * buy.quantity as real * 100.0 - sell.price * sell.quantity as real * 100.0;
        spread := Some(Position(buy.symbol, "", buy.side, quantity, totalCost,
                                Some(Legs(spreadId, buy.optionSymbol, buy.price, sell.optionSymbol, sell.price))));
        var expected := PairSpread(spreadId, groupTrades);
        assert expected.Some?;
        assert expected.value.legs == spread.value.legs && expected.value.totalCost == totalCost;
        assert expected.value.optionSymbol == "";
      } else {
        assert PairSpread(spreadId, groupTrades) == None;
      }
    } else {
      assert PairSpread(spreadId, groupTrades) == None;
    }
  }

  /** Lines 157-167: one standalone trade applied to its position. */
  method BumpHolding(holding: Position, trade: Trade) returns (r: Position)
    ensures r == Bump(holding, trade)
  {
    var q := trade.quantity as real;
    if trade.kind == Buy {
      r := holding.(totalCost := holding.totalCost + trade.price * q * 100.0, quantity := holding.quantity + trade.quantity);
    } else {
      var avgPrice := if holding.quantity > 0 then holding.totalCost / (holding.quantity as real * 100.0) else 0.0;
      var costRemoved := q * 100.0 * avgPrice;
      r := holding.(totalCost := holding.totalCost - costRemoved, quantity := holding.quantity - trade.quantity);
    }
  }

  /** Lines 144-169: the average-cost fold over the trades not taken by a spread. */
  method FoldStandalone(m0: PositionMap, trades: seq<Trade>, processed: set<nat>) returns (m: PositionMap)
    requires WellFormed(m0)
    ensures m == Standalone(m0, trades, processed)
  {
    m := m0;
    for i := 0 to |trades|
      invariant m == Standalone(m0, trades[..i], processed)
    {
      assert trades[..i + 1][..i] == trades[..i];
      var trade := trades[i];
      if trade.id in processed {
        continue;
      }
      var holding := Position(trade.symbol, trade.optionSymbol, trade.side, 0, 0.0, None);
      if trade.optionSymbol in m.entries {
        holding := m.entries[trade.optionSymbol];
      }
      holding := BumpHolding(holding, trade);
      m := Put(m, trade.optionSymbol, holding);
    }
    assert trades[..|trades|] == trades;
  }

  /** The entries left once the keys in `done` have been visited by the deletion loop. */
  ghost function Pruned(m0: PositionMap, done: seq<string>): map<string, Position>
  {
    map k | k in m0.entries && (k in done ==> m0.entries[k].quantity > 0) :: m0.entries[k]
  }

  lemma PrunedAppend(m0: PositionMap, done: seq<string>, key: string)
    requires key in m0.entries
    ensures Pruned(m0, done + [key]) ==
      if m0.entries[key].quantity <= 0 then Pruned(m0, done) - {key} else Pruned(m0, done)
  {
    var left := Pruned(m0, done + [key]);
    var right := if m0.entries[key].quantity <= 0 then Pruned(m0, done) - {key} else Pruned(m0, done);
    assert left.Keys == right.Keys;
  }

  lemma PrunedAll(m0: PositionMap)
    requires WellFormed(m0)
    ensures Pruned(m0, m0.order) == DropClosed(m0).entries
  {
    assert Pruned(m0, m0.order).Keys == DropClosed(m0).entries.Keys;
  }

  /** One visit of the deletion loop: the kept keys and the remaining entries after `order[..i + 1]`. */
  lemma DeleteStep(m0: PositionMap, i: nat)
    requires WellFormed(m0) && i < |m0.order|
    ensures OpenKeys(m0, m0.order[..i + 1]) ==
      OpenKeys(m0, m0.order[..i]) + (if m0.entries[m0.order[i]].quantity > 0 then [m0.order[i]] else [])
    ensures Pruned(m0, m0.order[..i + 1]) ==
      if m0.entries[m0.order[i]].quantity <= 0 then Pruned(m0, m0.order[..i]) - {m0.order[i]} else Pruned(m0, m0.order[..i])
  {
    assert m0.order[..i + 1] == m0.order[..i] + [m0.order[i]];
    assert m0.order[..i + 1][..i] == m0.order[..i];
    PrunedAppend(m0, m0.order[..i], m0.order[i]);
  }

  /** Lines 172-176: delete every entry whose quantity is 0 or less. */
  method DeleteClosed(m0: PositionMap) returns (m: PositionMap)
    requires WellFormed(m0)
    ensures m == DropClosed(m0)
  {
    var entries := m0.entries;
    var kept: seq<string> := [];
    assert Pruned(m0, []) == entries;
    for i := 0 to |m0.order|
      invariant kept == OpenKeys(m0, m0.order[..i])
      invariant entries == Pruned(m0, m0.order[..i])
    {
      var key := m0.order[i];
      DeleteStep(m0, i);
      if m0.entries[key].quantity <= 0 {
        entries := entries - {key};
      } else {
        kept := kept + [key];
      }
    }
    assert m0.order[..|m0.order|] == m0.order;
    PrunedAll(m0);
    m := PositionMap(entries, kept);
  }

  /** `calculateHoldingsMap(trades)`: both passes, then the deletion of closed positions. */
  method CalculateHoldingsMap(trades: seq<Trade>) returns (m: PositionMap)
    ensures m == Reconstruct(trades)
  {
    var groups, ids, processed := GroupSpreads(trades);
    m := PairSpreads(groups, ids);
    m := FoldStandalone(m, trades, processed);
    m := DeleteClosed(m);
  }

  lemma MapRowsStep(portfolioId: nat, m: PositionMap, j: nat)
    requires WellFormed(m) && j < |m.order|
    ensures MapRows(portfolioId, m, m.order[..j + 1]) ==
      MapRows(portfolioId, m, m.order[..j]) + PositionRows(portfolioId, m.entries[m.order[j]])
  {
    assert m.order[..j + 1][..j] == m.order[..j];
  }

  /** Lines 52-78: the rows pushed for one position. */
  method RowsOf(portfolioId: nat, h: Position) returns (out: seq<Row>)
    ensures out == PositionRows(portfolioId, h)
  {
    if h.legs.Some? && h.legs.value.spreadId != "" {
      var legs := h.legs.value;
      var q := h.quantity as real;
      var long := Row(portfolioId, h.symbol, legs.longSymbol, h.side, h.quantity, legs.longPrice * q * 100.0, Some(legs.spreadId));
      var short := Row(portfolioId, h.symbol, legs.shortSymbol, h.side, -h.quantity, -legs.shortPrice * q * 100.0, Some(legs.spreadId));
      out := [long, short];
      assert IsSpread(h);
      assert PositionRows(portfolioId, h)[0] == long;
      assert PositionRows(portfolioId, h)[1] == short;
    } else {
      out := [Row(portfolioId, h.symbol, h.optionSymbol, h.side, h.quantity, h.totalCost, None)];
    }
  }

  /** Lines 47-80 for one portfolio: push the rows of every position, in key order. */
  method PushRows(rows0: seq<Row>, portfolioId: nat, m: PositionMap) returns (rows: seq<Row>)
    requires WellFormed(m)
    ensures rows == rows0 + MapRows(portfolioId, m, m.order)
  {
    rows := rows0;
    for j := 0 to |m.order|
      invariant rows == rows0 + MapRows(portfolioId, m, m.order[..j])
    {
      var out := RowsOf(portfolioId, m.entries[m.order[j]]);
      MapRowsStep(portfolioId, m, j);
      rows := rows + out;
    }
    assert m.order[..|m.order|] == m.order;
  }

  /** One trade of the grouping loop: its portfolio id is added once, at its first trade. */
  lemma GroupStep(trades: seq<Trade>, i: nat)
    requires i < |trades|
    ensures PortfolioIds(trades[..i + 1]) ==
      if trades[i].portfolioId in PortfolioIds(trades[..i]) then PortfolioIds(trades[..i])
      else PortfolioIds(trades[..i]) + [trades[i].portfolioId]
    ensures trades[i].portfolioId !in PortfolioIds(trades[..i]) ==> OfPortfolio(trades[..i], trades[i].portfolioId) == []
  {
    assert trades[..i + 1][..i] == trades[..i];
    if trades[i].portfolioId !in PortfolioIds(trades[..i]) {
      OfPortfolioEmpty(trades[..i], trades[i].portfolioId);
    }
  }

  /** One trade of the grouping loop: only the group of its own portfolio grows. */
  lemma GroupOfStep(trades: seq<Trade>, i: nat, p: nat)
    requires i < |trades|
    ensures OfPortfolio(trades[..i + 1], p) ==
      OfPortfolio(trades[..i], p) + (if trades[i].portfolioId == p then [trades[i]] else [])
  {
    assert trades[..i] + [trades[i]] == trades[..i + 1];
    OfPortfolioAppend(trades[..i], trades[i], p);
  }

  /** `byPortfolio` and `pids` hold the grouping of `done`. */
  ghost predicate Grouped(done: seq<Trade>, byPortfolio: map<nat, seq<Trade>>, pids: seq<nat>)
  {
    pids == PortfolioIds(done) && forall p | p in pids :: p in byPortfolio && byPortfolio[p] == OfPortfolio(done, p)
  }

  /** Filing trade `i` under its portfolio keeps the grouping up to date. */
  lemma GroupedStep(trades: seq<Trade>, i: nat, byPortfolio: map<nat, seq<Trade>>, pids: seq<nat>)
    requires i < |trades| && Grouped(trades[..i], byPortfolio, pids)
    ensures var t := trades[i];
      var group := if t.portfolioId in pids then byPortfolio[t.portfolioId] else [];
      Grouped(trades[..i + 1], byPortfolio[t.portfolioId := group + [t]],
        if t.portfolioId in pids then pids else pids + [t.portfolioId])
  {
    var t := trades[i];
    GroupStep(trades, i);
    var group := if t.portfolioId in pids then byPortfolio[t.portfolioId] else [];
    var b2 := byPortfolio[t.portfolioId := group + [t]];
    var p2 := if t.portfolioId in pids then pids else pids + [t.portfolioId];
    forall p | p in p2
      ensures p in b2 && b2[p] == OfPortfolio(trades[..i + 1], p)
    {
      GroupOfStep(trades, i, p);
      if p != t.portfolioId {
        assert p in pids;
      }
    }
  }

  /** Lines 32-38 for one trade: file it under its portfolio, opening the group at its first trade. */
  method FileTrade(byPortfolio: map<nat, seq<Trade>>, pids: seq<nat>, t: Trade)
    returns (byPortfolio': map<nat, seq<Trade>>, pids': seq<nat>)
    requires forall p | p in pids :: p in byPortfolio
    ensures pids' == if t.portfolioId in pids then pids else pids + [t.portfolioId]
    ensures byPortfolio' ==
      byPortfolio[t.portfolioId := (if t.portfolioId in pids then byPortfolio[t.portfolioId] else []) + [t]]
  {
    var group: seq<Trade> := [];
    pids' := pids;
    if t.portfolioId in pids {
      group := byPortfolio[t.portfolioId];
    } else {
      pids' := pids + [t.portfolioId];
    }
    byPortfolio' := byPortfolio[t.portfolioId := group + [t]];
  }

  /** Lines 28-39: the log split by portfolio, each part in log order. */
  method GroupByPortfolio(trades: seq<Trade>) returns (byPortfolio: map<nat, seq<Trade>>, pids: seq<nat>)
    ensures pids == PortfolioIds(trades)
    ensures forall p | p in pids :: p in byPortfolio && byPortfolio[p] == OfPortfolio(trades, p)
  {
    byPortfolio, pids := map[], [];
    for i := 0 to |trades|
      invariant Grouped(trades[..i], byPortfolio, pids)
    {
      GroupedStep(trades, i, byPortfolio, pids);
      byPortfolio, pids := FileTrade(byPortfolio, pids, trades[i]);
    }
    assert trades[..|trades|] == trades;
  }

  /** `up`, lines 28-81: group the log by portfolio, reconstruct each, and emit the rows. */
  method Up(trades: seq<Trade>) returns (rows: seq<Row>)
    ensures rows == UpRows(trades)
  {
    var byPortfolio, pids := GroupByPortfolio(trades);
    rows := [];
    for k := 0 to |pids|
      invariant rows == RowsFor(trades, pids[..k])
    {
      assert pids[..k + 1][..k] == pids[..k];
      var portfolioId := pids[k];
      var m := CalculateHoldingsMap(byPortfolio[portfolioId]);
      rows := PushRows(rows, portfolioId, m);
    }
    assert pids[..|pids|] == pids;
  }
}
