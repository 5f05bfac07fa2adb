# trading-game ledger core, modelled in Dafny

The trading game lets users trade stock options inside competitions. Each
user holds one portfolio per competition, with a cash balance and an
append-only log of BUY and SELL trades. This project models the logic that
turns that log into positions, cash and value:

- **Trade service** (`TradingHoldings`, `TradingService`).
  - `calculateHoldings` folds the log into one average-cost position per option symbol.
  - `placeTrade` checks a trade against cash and the held position, then records it all or nothing.
  - The database is the state of the class `TradingLedger`.
- **Holdings migration** (`HoldingsMigration`).
  - `calculateHoldingsMap` pairs the BUY and SELL legs of spreads, folds the other trades by average cost, and drops closed positions.
  - `up` turns each position into one or two table rows.
- **Option symbols** (`OptionSymbol`, `ExpirationBackfill`, `ExpirySweep.GetSide`).
  - Symbols have the form `AAPL260204C00250000`.
  - The model covers leftmost-match semantics of the regular expressions, the strike, the `20YY-MM-DD` expiration date and the call/put right.
  - The expiration backfill loop is an in-place array update.
- **Expiry sweep** (`ExpirySweep`): selects the positions that expire today with a positive net quantity, and sells each one, isolating failures.
- **Market hours** (`MarketHours`): the weekday and 9:30–16:00 rule applied to the rendered New York time.
- **Expiration formatting** (`Formatters`).
  - `formatExpiration` has a dashed branch and a six-character branch.
  - It uses JavaScript's `Number`, `parseInt`, `split` and `new Date(y, m, d)` with its day and month rollover.
  - It shows the year only when the date is not in the current year.
- **Mark to market** (`PortfolioValue`).
  - The portfolio-value script computes its own holdings fold, a line per holding, and cash plus the holdings' value.
  - Its positions are proved to be those of `calculateHoldings`.
- **Quote cache** (`MarketData`): `getQuote` dedupes the request, splits it into cache hits and misses, fetches only the misses and caches them; `getOptionsChain` uses its own cache key. The cache is the state of the class `MarketDataService`.
- **Symbol list** (`SymbolList`): `updateSymbols` ranks stocks by market cap, keeps the top 600, puts the common ETFs first, keeps the first entry per symbol, and sorts by symbol.

Representation:

- Money and prices are `real`, so the arithmetic is exact.
- Quantities are `int` and strings are `seq<char>`.
- A JavaScript `Map` is a Dafny `map` plus a sequence of its keys in insertion order.
- Where the source loops and mutates, the model is a method with a loop, proved equal to a specification function; the properties are lemmas about those functions.

## Model

| member | source | states |
|---|---|---|
| Trades.NetAppend | backend/src/services/tradingService.ts:186-190 | Appending a trade moves only its own option symbol's net position, by +quantity for a BUY and −quantity for a SELL. |
| Trades.HeldAppend | backend/src/services/tradingService.ts:182-190 | The held quantity (ΣBUY − ΣSELL over one portfolio's trades in one symbol) changes only for the appended trade's own portfolio and symbol. |
| Trades.OfPortfolioAppend | scripts/calculate_portfolio_value.ts:28-30 | A portfolio's log, in log order, grows only when a trade of that portfolio is appended. |
| Trades.SellsCoveredAppend | backend/src/services/tradingService.ts:192-202 | A log in which every sell was covered stays covered after an append exactly when the new trade has a positive quantity and, if a SELL, does not exceed the held quantity. |
| Trades.NetNonNegative | backend/src/services/tradingService.ts:197-200 | In a log of covered sells no position is ever short. |
| Trades.AppendKeepsLedgerInvariant | backend/src/services/tradingService.ts:192-215 | Appending a positive, covered trade keeps every portfolio's log covered. |
| TradingHoldings.StrikeOf | backend/src/services/tradingService.ts:24-28 | The strike is 0 when the pattern does not match; otherwise it is the eight digits after the leftmost match's right letter, divided by 1000, below 100000. |
| TradingHoldings.StrikeOfEncoded | backend/src/services/tradingService.ts:24-28 | Parsing the strike of an encoded contract gives its strike back (thousandths / 1000). |
| TradingHoldings.Opened | backend/src/services/tradingService.ts:30-38 | A position is opened with quantity 0 and zero cost, under the trade's option symbol. |
| TradingHoldings.Apply | backend/src/services/tradingService.ts:43-51 | A trade changes the quantity by its signed quantity and keeps symbol, right and strike. |
| TradingHoldings.ApplyKeepsBalance | backend/src/services/tradingService.ts:43-51 | A BUY adds price×qty×100 to the cost; a SELL keeps the average price; `totalCost = avgPrice×quantity×100` holds after every BUY and is kept by every SELL. |
| TradingHoldings.StepKeepsBook | backend/src/services/tradingService.ts:19-52 | On a covered log one loop iteration can always divide (quantity after a BUY is non-zero), and it turns the map of the log into the map of the longer log. |
| TradingHoldings.Fold | backend/src/services/tradingService.ts:19-52 | The map after the loop has each traded symbol once, in insertion order, with quantity equal to the net position, the parsed strike and a balanced cost. |
| TradingHoldings.FoldAppend | backend/src/services/tradingService.ts:19-52 | Folding one more trade of a covered log is one more loop iteration. |
| TradingHoldings.OpenIn | backend/src/services/tradingService.ts:54 | The filter keeps exactly the entries of positive quantity, and each of them comes from the map. |
| TradingHoldings.OpenInDistinct | backend/src/services/tradingService.ts:54 | Filtering a map keyed by option symbol yields holdings with pairwise distinct option symbols. |
| TradingHoldings.HoldingsAreOpenPositions | backend/src/services/tradingService.ts:19-54 | `calculateHoldings` returns one balanced holding per option symbol whose net position is positive (and no other), with that quantity and the parsed strike. |
| TradingHoldings.CalculateHoldings | backend/src/services/tradingService.ts:5-55 | The imperative loop and filter compute exactly `Holdings(trades)`. |
| TradingHoldings.Record | backend/src/services/tradingService.ts:20-51 | One loop body (open the entry if new, then apply the trade) is one `Step` of the fold. |
| TradingHoldings.OpenHoldings | backend/src/services/tradingService.ts:54 | The filter loop over the map's values in insertion order computes `OpenIn`. |
| TradingService.PortfolioById | scripts/calculate_portfolio_value.ts:21-25 | The portfolio row with the given id, or none when no row has it. |
| TradingService.FindPortfolio | backend/src/services/tradingService.ts:112-118 | The index of the first portfolio owned by the user in the competition, or none when the user has no portfolio there. |
| TradingService.SettleAsWritten | backend/src/services/tradingService.ts:192-225 | As written: "Insufficient funds" exactly when a BUY costs more than the cash, "Insufficient position to sell" exactly when a SELL exceeds the held quantity; otherwise the balance is cash − cost for a BUY and cash + cost for a SELL. |
| TradingService.NegativeSellDrainsCash | backend/src/routes/tradingRoutes.ts:32 | A SELL of −1 contract at 10.0 with no cash and no position is accepted and leaves the balance at −1000. |
| TradingService.NegativeQuantityAccepted | backend/src/routes/tradingRoutes.ts:32 | For every balance, position and positive price, a negative quantity passes both checks; a SELL then lowers the cash and a BUY raises it. |
| TradingService.Settle | backend/src/services/tradingService.ts:192-202 | The intended decision accepts exactly a positive quantity that is funded (BUY) or held (SELL), and agrees with the code for positive quantities. |
| TradingService.SettleKeepsCashNonNegative | backend/src/services/tradingService.ts:192-202 | With a non-negative price an accepted trade never makes a non-negative balance negative. |
| TradingService.BuyThenSellRestoresCash | backend/src/services/tradingService.ts:205-225 | A BUY then a SELL of the same quantity at the same price is accepted and restores the balance. |
| TradingService.Decide | backend/src/services/tradingService.ts:97-230 | Each error occurs exactly under its condition: no portfolio, no price, then the funds or position check. Past the portfolio and price checks, the request is accepted exactly when `Settle` accepts it, and a refusal carries `Settle`'s error, so a BUY fails with insufficient funds exactly when cash < cost and a SELL with insufficient position exactly when held < quantity. A success records one trade of the request at the price, with the balance the funds/position check gives. The leading non-positive-quantity error is not in the source: it is the corrected behaviour of the Findings row, and `SettleAsWritten` with `NegativeQuantityAccepted` keep the behaviour as written. |
| TradingService.DecideKeepsLedgerInvariant | backend/src/services/tradingService.ts:182-215 | Appending the trade of an accepted request keeps every portfolio's log covered. |
| TradingService.TradingLedger.HeldQuantity | backend/src/services/tradingService.ts:182-190 | The loop over the portfolio's trades in the symbol returns ΣBUY − ΣSELL. |
| TradingService.TradingLedger.PlaceTrade | backend/src/services/tradingService.ts:97-230 | The call returns `Decide` on the old tables. On failure nothing changes. On success exactly one trade is appended and only that portfolio's cash changes, to the new balance. The ledger invariant is kept. Its quantity guard is the corrected behaviour of the Findings row, not a check the source makes. |
| TradingService.TradingLedger.PortfolioHoldings | backend/src/services/tradingService.ts:86-95 | `getPortfolio`'s holdings are `calculateHoldings` of the portfolio's trades in log order. |
| OptionSymbol.LeftmostMatch | backend/src/migrations/20260205081000_add_expiration_date_to_trades.ts:17 | `FirstOcc` is the match the regular-expression engine reports: no match exists when it is none, and otherwise every match's digits start at or after it, and every match starting earlier has its digits exactly there. |
| OptionSymbol.FirstMatchOfEncoded | backend/src/scripts/sellExpiringPositions.ts:6 | On an encoded contract both patterns find the digits right after the underlying. |
| ExpirationBackfill.FormatExpiryShape | backend/src/migrations/20260205081000_add_expiration_date_to_trades.ts:21-24 | `20YY-MM-DD` has the `YYYY-MM-DD` shape, a year in 2000..2099, and gives back its `YYMMDD` digits in order. |
| ExpirationBackfill.FormatCompactExpiry | backend/src/migrations/20260205081000_add_expiration_date_to_trades.ts:18-24 | Every date of the form `20YY-MM-DD` is written from its own six digits. |
| ExpirationBackfill.ExpirationOf | backend/src/migrations/20260205081000_add_expiration_date_to_trades.ts:17-24 | There is a date exactly when the pattern matches; the date is a 20xx date built from the leftmost match's six digits. |
| ExpirationBackfill.ExpirationOfEncoded | backend/src/migrations/20260205081000_add_expiration_date_to_trades.ts:17-24 | The date derived from an encoded contract is its own expiry. |
| ExpirationBackfill.BackfillRow | backend/src/migrations/20260205081000_add_expiration_date_to_trades.ts:13-27 | Only the expiration date changes. A row with an empty or non-matching symbol is left unchanged. A matching one gets the 20xx date `ExpirationOf` derives from its symbol. |
| ExpirationBackfill.BackfillIdempotent | backend/src/migrations/20260205081000_add_expiration_date_to_trades.ts:12-28 | Running the backfill twice is the same as once. |
| ExpirationBackfill.Backfill | backend/src/migrations/20260205081000_add_expiration_date_to_trades.ts:12-28 | The in-place loop leaves every row equal to `BackfillRow` of its old value. |
| ExpirySweep.GetSide | backend/src/scripts/sellExpiringPositions.ts:5-10 | The function throws "Invalid option symbol format: <symbol>" exactly when `\d{6}[CP]\d{8}` does not match; otherwise it returns CALL for `C` and PUT for `P` at the leftmost match. |
| ExpirySweep.GetSideOfEncoded | backend/src/scripts/sellExpiringPositions.ts:5-10 | The right read from an encoded contract is its own. |
| ExpirySweep.KeyOf | backend/src/scripts/sellExpiringPositions.ts:18-32 | A trade is grouped only when it expires today, under its own portfolio and option symbol. |
| ExpirySweep.ExpiringPositions | backend/src/scripts/sellExpiringPositions.ts:18-40 | Every selected group has a positive net quantity equal to ΣBUY − Σnon-BUY over its trades expiring today, and each group is selected once. |
| ExpirySweep.NetQtyIgnoresOtherDays | backend/src/scripts/sellExpiringPositions.ts:27-32 | Trades that expire on other days do not change any group's net quantity. |
| ExpirySweep.SelectionIsToday | backend/src/scripts/sellExpiringPositions.ts:32-40 | Every selected position has a trade expiring today, and removing the other days' trades changes nothing. |
| ExpirySweep.SellStep | backend/src/scripts/sellExpiringPositions.ts:52-69 | A bad symbol fails with `getSide`'s error and changes nothing. Otherwise the outcome is `Decide` on a SELL of the full net quantity: a refusal carries Decide's error and changes nothing, and a sale appends Decide's trade, credits that portfolio and advances the id. |
| ExpirySweep.Sweep | backend/src/scripts/sellExpiringPositions.ts:44-70 | One outcome per position, in the order given. |
| ExpirySweep.SellStepCash | backend/src/scripts/sellExpiringPositions.ts:55-61 | A sale raises the total cash by its own price × quantity × 100, and a failure moves no cash. |
| ExpirySweep.SweepTotals | backend/src/scripts/sellExpiringPositions.ts:44-70 | Across the sweep, the trades grow by the sold trades only, the trade id advances once per sale, and the total cash grows by exactly the sales' proceeds. |
| ExpirySweep.SellStepSoldIff | backend/src/scripts/sellExpiringPositions.ts:52-61 | A position is sold exactly when its symbol is readable, its owner has a portfolio in the competition, a price is known, and that portfolio holds at least the net quantity. |
| ExpirySweep.SellAll | backend/src/scripts/sellExpiringPositions.ts:44-70 | Each selected position has exactly one outcome. The outcomes and the new tables are those of `Sweep` over the order taken, so each outcome is the trade service's decision on the tables the earlier positions left. The ledger invariant holds. |
| ExpirySweep.SellOne | backend/src/scripts/sellExpiringPositions.ts:52-69 | The outcome and the new tables are `SellStep` on the old tables. |
| ExpirySweep.RunAutoSell | backend/src/scripts/sellExpiringPositions.ts:12-70 | The selection is exactly today's positive positions, and each of them goes through `Sweep` once. |
| MarketHours.MatchAtIsGreedy | backend/src/utils/marketHours.ts:17 | A match of `(\w+)[, ]+(\d{2}):(\d{2})` at a start index is unique: the word and the separators end where their runs end. |
| MarketHours.FindMatch | backend/src/utils/marketHours.ts:17 | The least start of a match, or none when no start matches. |
| MarketHours.ParseClock | backend/src/utils/marketHours.ts:17-22 | A parsed time has a non-empty weekday and a two-digit hour and minute. |
| MarketHours.ParseRender | backend/src/utils/marketHours.ts:16-22 | Parsing `Wed 09:30` or `Wed, 09:30` gives back the weekday, hour and minute. |
| MarketHours.IsMarketOpen | backend/src/utils/marketHours.ts:6-33 | The market is closed when the time does not parse. Otherwise it is open exactly on a day other than Sat/Sun with 570 ≤ hour×60+minute < 960. |
| MarketHours.OpenRendered | backend/src/utils/marketHours.ts:24-32 | On a rendered time the market is open exactly on a day other than Sat/Sun with 570 ≤ hour×60+minute < 960. |
| MarketHours.ScenarioBeforeOpen | scripts/test_market_hours.ts:5-9 | Wednesday 08:00 is closed. |
| MarketHours.ScenarioMorning | scripts/test_market_hours.ts:10 | Wednesday 10:00 is open. |
| MarketHours.ScenarioAfternoon | scripts/test_market_hours.ts:11 | Wednesday 15:30 is open. |
| MarketHours.ScenarioAfterClose | scripts/test_market_hours.ts:12-16 | Wednesday 17:00 is closed. |
| MarketHours.ScenarioSunday | scripts/test_market_hours.ts:17-21 | Sunday 10:00 is closed. |
| MarketHours.ScenarioBoundaries | backend/src/utils/marketHours.ts:28-32 | 9:30 is inside the window and 16:00 outside it. |
| Formatters.NormalizeDay | frontend/src/utils/formatters.ts:11 | Day `d` of a month is a valid date. It is that date when `d` is in range, it rolls forward past the month's end, and it rolls backward before day 1. |
| Formatters.MakeDate | frontend/src/utils/formatters.ts:11 | `new Date(y, m0, d)` is invalid exactly when a part is NaN; otherwise it is a valid date, and an in-range date from year 100 on is itself. |
| Formatters.ToNumber | frontend/src/utils/formatters.ts:10 | `Number` of a digit string is its value, and a number is never negative. Decimal fractions are not read; see Left out. |
| Formatters.ParseInt | frontend/src/utils/formatters.ts:18 | `parseInt` of a digit string is its value, and NaN exactly for the empty string. |
| Formatters.ParseIntSkipsSpace | frontend/src/utils/formatters.ts:18 | Leading white space or a line terminator does not change what `parseInt` reads. |
| Formatters.ParseIntBareHexPrefix | frontend/src/utils/formatters.ts:18 | `0x` or `0X` with no hexadecimal digit after it is NaN, not 0. |
| Formatters.ParseIntHex | frontend/src/utils/formatters.ts:18 | After a `0x` prefix the digits are read in base 16: `0x1A` is 26. |
| Formatters.SpacedCompactYear | frontend/src/utils/formatters.ts:14-18 | `" 10101"` is shown as January 1, 2001, because the space is skipped. |
| Formatters.HexPrefixedCompactIsInvalid | frontend/src/utils/formatters.ts:14-18 | `"0x0101"` is shown as an invalid date, because its year reads as NaN. |
| Formatters.Split | frontend/src/utils/formatters.ts:10 | `split` yields at least one piece, and no piece contains the separator. |
| Formatters.JoinSplit | frontend/src/utils/formatters.ts:10 | Joining the pieces with the separator gives the string back. |
| Formatters.Show | frontend/src/utils/formatters.ts:23-30 | The year is shown exactly when the date's year is not the current year. |
| Formatters.FormatExpiration | frontend/src/utils/formatters.ts:2-31 | The input is returned unchanged exactly when it is empty, or has no `-` and is not of length 6. A formatted date is valid, and its year is shown exactly when it differs from the current year. |
| Formatters.ReadDashed | frontend/src/utils/formatters.ts:8-11 | `a-b-c` of digit strings is read as year a, month b (zero-based b−1) and day c. |
| Formatters.ReadIso | frontend/src/utils/formatters.ts:8-11 | `YYYY-MM-DD` is read as year, month and day. |
| Formatters.IsoShown | frontend/src/utils/formatters.ts:8-30 | A valid `YYYY-MM-DD` date from year 100 on is shown as itself, with the year exactly when it is not the current year. |
| Formatters.ReadCompact | frontend/src/utils/formatters.ts:14-18 | A six-digit string is read as 2000+YY, month MM, day DD. |
| Formatters.CompactShown | frontend/src/utils/formatters.ts:14-30 | A valid `YYMMDD` date is shown as that date of 20YY, with the year exactly when it is not the current year. |
| Formatters.CompactAndIsoAgree | frontend/src/utils/formatters.ts:8-18 | A `YYMMDD` string and the `20YY-MM-DD` the backfill derives from it are formatted identically. |
| Formatters.NextYearCompactShowsYear | frontend/src/tests/formatters.test.ts:7-13 | February 4 of next year written `YYMMDD` shows Feb 4 with the year. |
| Formatters.CurrentYearIsoHidesYear | frontend/src/tests/formatters.test.ts:15-20 | March 15 of this year written `YYYY-MM-DD` shows Mar 15 without the year. |
| Formatters.NextYearIsoShowsYear | frontend/src/tests/formatters.test.ts:22-26 | December 25 of next year shows the year. |
| Formatters.DayRollsOver | frontend/src/utils/formatters.ts:11 | `2026-12-32` is shown as January 1 2027, with the year. |
| Formatters.TwoDigitYears | frontend/src/utils/formatters.ts:11 | A year below 100 in the dashed form is read as 1900 + year. |
| Formatters.TwoDigitYearIsNineteenth | frontend/src/utils/formatters.ts:11 | `0026-03-15` is March 15 1926. |
| PortfolioValue.Apply | scripts/calculate_portfolio_value.ts:48-55 | A trade changes the quantity by its signed quantity and keeps the symbol. |
| PortfolioValue.ApplyCost | scripts/calculate_portfolio_value.ts:48-55 | A BUY adds price×qty×100 to the cost; any other trade removes cost in proportion, so the cost per contract is unchanged. |
| PortfolioValue.StepAgrees | scripts/calculate_portfolio_value.ts:38-56 | On a covered log the script's loop never divides by zero, and its map keeps agreeing with the trade service's map. |
| PortfolioValue.Fold | scripts/calculate_portfolio_value.ts:38-56 | The script's map has the same keys, order, quantities and costs as `calculateHoldings`' map. |
| PortfolioValue.FoldAppend | scripts/calculate_portfolio_value.ts:38-56 | Folding one more trade of a covered log is one more iteration. |
| PortfolioValue.ActiveIn | scripts/calculate_portfolio_value.ts:58-60 | The active holdings are exactly the entries of positive quantity. |
| PortfolioValue.ActiveMatchesHoldings | scripts/calculate_portfolio_value.ts:38-60 | The script values the same positions, in the same order, that `calculateHoldings` reports. |
| PortfolioValue.PriceOf | scripts/calculate_portfolio_value.ts:76-77 | A symbol without a quote is priced 0. |
| PortfolioValue.LineOf | scripts/calculate_portfolio_value.ts:76-81 | A breakdown line carries the holding's symbol, quantity and cost. |
| PortfolioValue.UnquotedWorthNothing | scripts/calculate_portfolio_value.ts:76-79 | The holdings' value is that of the quoted holdings alone. |
| PortfolioValue.ValueNonNegative | scripts/calculate_portfolio_value.ts:75-79 | With non-negative quotes and open positions the holdings' value is non-negative. |
| PortfolioValue.Lines | scripts/calculate_portfolio_value.ts:75-96 | One line per holding, in order. |
| PortfolioValue.PLAddsUp | scripts/calculate_portfolio_value.ts:78-81 | The per-holding P/L sums to the holdings' value minus their cost. |
| PortfolioValue.ValueHoldings | scripts/calculate_portfolio_value.ts:74-96 | The accumulation loop computes the holdings' value and the lines. |
| PortfolioValue.Valuate | scripts/calculate_portfolio_value.ts:98 | The total value is cash plus Σ price×qty×100, and the P/L of the lines is the value minus the cost. |
| PortfolioValue.ActiveHoldings | scripts/calculate_portfolio_value.ts:38-60 | The fold loop and the filter compute `Active(trades)`. |
| PortfolioValue.Record | scripts/calculate_portfolio_value.ts:39-55 | One loop body is one `Step` of the fold. |
| PortfolioValue.Filter | scripts/calculate_portfolio_value.ts:58-60 | The filter loop computes `ActiveIn`. |
| PortfolioValue.CalculatePortfolioValue | scripts/calculate_portfolio_value.ts:16-98 | The result is "Portfolio not found." exactly when no row has the id; otherwise it is the report of the portfolio's cash and its active holdings. |
| MarketData.DateSuffix | backend/src/services/marketDataService.ts:9 | The date part of an options key is non-empty and has no underscore. |
| MarketData.KeysDisjoint | backend/src/services/marketDataService.ts:9 | Quote keys and options keys never collide. |
| MarketData.QuoteKeyInjective | backend/src/services/marketDataService.ts:40 | Different symbols have different quote keys. |
| MarketData.OptionsKeyInjective | backend/src/services/marketDataService.ts:9 | Two options requests share a key only for the same symbol and the same date suffix. |
| MarketData.Dedupe | backend/src/services/marketDataService.ts:33 | The deduplicated list has no repeats and the same symbols. |
| MarketData.DedupeOfDistinct | backend/src/services/marketDataService.ts:33 | A list without repeats is unchanged. |
| MarketData.MissingOf | backend/src/services/marketDataService.ts:39-47 | The missing symbols are exactly the unique symbols without a cache entry. |
| MarketData.HitsOf | backend/src/services/marketDataService.ts:39-47 | The hits are exactly the unique symbols with a cache entry. |
| MarketData.PartitionSizes | backend/src/services/marketDataService.ts:38-47 | Every unique symbol lands in exactly one of the two lists. |
| MarketData.StoreAll | backend/src/services/marketDataService.ts:59-63 | Every fetched quote with a symbol is cached, no earlier key is lost, and no other key is added. |
| MarketData.StoreAllFiled | backend/src/services/marketDataService.ts:59-63 | Storing keeps every entry filed under its own key. |
| MarketData.StoreAllElsewhere | backend/src/services/marketDataService.ts:59-63 | Keys not written by the fetch keep their entries. |
| MarketData.QuotesOf | backend/src/services/marketDataService.ts:42-43 | The cached quotes of the hits, one per hit, in order. |
| MarketData.FindQuote | backend/src/services/marketDataService.ts:77 | The quote found is the first one with the requested symbol, and none is found when no quote has it. |
| MarketData.Combine | backend/src/services/marketDataService.ts:71-78 | A list request gets all quotes. A one-symbol request gets the first quote with that symbol if there is one, else `all[0]`, else nothing. |
| MarketData.GetQuoteSpec | backend/src/services/marketDataService.ts:30-79 | A call keeps every cache entry filed under its own key. |
| MarketData.GetQuoteAsksMissing | backend/src/services/marketDataService.ts:38-52 | The provider is called exactly when some requested symbol is not cached, with each missing symbol once. |
| MarketData.GetQuoteStores | backend/src/services/marketDataService.ts:52-67 | A failed fetch rethrows the provider's own error and caches nothing, and a call without a fetch changes nothing. A successful fetch caches every fetched quote with a symbol, keeps every key and adds no other. |
| MarketData.RepeatIsServedFromCache | backend/src/services/marketDataService.ts:38-63 | When the provider answers every symbol it is asked for, a second request for the same symbols does not call it. |
| MarketData.FetchedAreCached | backend/src/services/marketDataService.ts:55-63 | After a fetch every fetched quote with a symbol is cached, and unrelated keys are untouched. |
| MarketData.MarketDataService.GetOptionsChain | backend/src/services/marketDataService.ts:8-28 | The provider is called exactly on a cache miss. A hit returns the cached chain and changes nothing. A successful fetch is cached under `options_<symbol>_<date or current>`, and a failure is rethrown with the cache unchanged. |
| MarketData.MarketDataService.Partition | backend/src/services/marketDataService.ts:38-47 | The loop yields the missing symbols and the cached quotes in request order. |
| MarketData.MarketDataService.Store | backend/src/services/marketDataService.ts:59-63 | The loop's cache is `StoreAll` of the old cache. |
| MarketData.MarketDataService.GetQuote | backend/src/services/marketDataService.ts:30-79 | The method's result, provider request and new cache are those of `GetQuoteSpec`. |
| HoldingsMigration.Put | backend/src/migrations/20260205163000_create_holdings_table.ts:156 | `Map.set` appends a new key to the order and keeps an existing key in place. |
| HoldingsMigration.SpreadIds | backend/src/migrations/20260205163000_create_holdings_table.ts:101-111 | The spread ids appear once each, are non-empty, and include the id of every spread trade. |
| HoldingsMigration.Members | backend/src/migrations/20260205163000_create_holdings_table.ts:101-111 | A spread's group holds exactly the trades with its id. |
| HoldingsMigration.Processed | backend/src/migrations/20260205163000_create_holdings_table.ts:109 | Every spread trade's id is marked processed. |
| HoldingsMigration.ProcessedExactly | backend/src/migrations/20260205163000_create_holdings_table.ts:101-111 | With unique ids a trade is processed exactly when it belongs to a spread. |
| HoldingsMigration.FindKind | backend/src/migrations/20260205163000_create_holdings_table.ts:117-118 | `find` returns a trade of the kind from the group, and none exactly when the group has no trade of that kind. |
| HoldingsMigration.PairSpread | backend/src/migrations/20260205163000_create_holdings_table.ts:113-141 | A group becomes a spread exactly when it has two trades, a BUY and a SELL. The spread has the BUY's quantity, cost buy.price×buy.qty×100 − sell.price×sell.qty×100, and the two legs. |
| HoldingsMigration.Bump | backend/src/migrations/20260205163000_create_holdings_table.ts:159-168 | A standalone trade moves the quantity by its signed quantity and changes nothing but the quantity and the cost. A BUY adds price × quantity × 100 to the cost. |
| HoldingsMigration.SellFromEmptyKeepsCost | backend/src/migrations/20260205163000_create_holdings_table.ts:162-168 | A SELL against a position that is not positive uses average price 0 and removes no cost (no division by zero). |
| HoldingsMigration.SellKeepsAverage | backend/src/migrations/20260205163000_create_holdings_table.ts:162-168 | A SELL against a positive position removes cost in proportion, keeping the average price. |
| HoldingsMigration.StandaloneSkipsSpreadTrades | backend/src/migrations/20260205163000_create_holdings_table.ts:144-145 | With unique trade ids the second pass is the fold over exactly the trades outside every spread. |
| HoldingsMigration.OpenKeys | backend/src/migrations/20260205163000_create_holdings_table.ts:172-176 | The kept keys are exactly those of positive quantity, without repeats. |
| HoldingsMigration.DropClosed | backend/src/migrations/20260205163000_create_holdings_table.ts:172-176 | Exactly the positions of positive quantity survive, unchanged. |
| HoldingsMigration.AddSpreadsKeys | backend/src/migrations/20260205163000_create_holdings_table.ts:113-141 | The spread loop sets only `SPREAD:<id>` keys of the ids it visits. |
| HoldingsMigration.AddSpreadsEntry | backend/src/migrations/20260205163000_create_holdings_table.ts:113-141 | After the spread loop, `SPREAD:<id>` holds `PairSpread` of the id's group, and is absent when the group does not pair. |
| HoldingsMigration.SpreadPhaseEntries | backend/src/migrations/20260205163000_create_holdings_table.ts:101-141 | After the first pass, for every spread id, `SPREAD:<id>` is present exactly when its group pairs, and then holds that pair. Every key is such a spread key. |
| HoldingsMigration.StandaloneElsewhere | backend/src/migrations/20260205163000_create_holdings_table.ts:144-169 | The second pass leaves alone every key that no unprocessed trade is filed under. |
| HoldingsMigration.SpreadSurvives | backend/src/migrations/20260205163000_create_holdings_table.ts:95-179 | A pair with positive quantity is in the final map, unchanged, unless a standalone trade is filed under its key. |
| HoldingsMigration.ReconstructKeepsOpenPositions | backend/src/migrations/20260205163000_create_holdings_table.ts:95-179 | After reconstruction no position has quantity ≤ 0. |
| HoldingsMigration.PositionRows | backend/src/migrations/20260205163000_create_holdings_table.ts:47-79 | A spread becomes a long row (+q, cost long price × q × 100) and a short row (−q, cost −short price × q × 100) sharing the spread id, the underlying and the side. A standalone position becomes one row with cost basis `totalCost` and no spread id. |
| HoldingsMigration.SpreadRowsSumToCost | backend/src/migrations/20260205163000_create_holdings_table.ts:48-67 | With equal leg quantities the two rows' cost bases sum to the spread's `totalCost`. |
| HoldingsMigration.PortfolioIds | backend/src/migrations/20260205163000_create_holdings_table.ts:28-39 | The portfolio ids appear once each, and are exactly those with trades. |
| HoldingsMigration.UpIsPerPortfolio | backend/src/migrations/20260205163000_create_holdings_table.ts:28-44 | The rows for a portfolio are a function of that portfolio's own trades alone. |
| HoldingsMigration.GroupSpreads | backend/src/migrations/20260205163000_create_holdings_table.ts:101-111 | The first-pass loop builds the spread groups, the id order and the processed ids. |
| HoldingsMigration.PairGroup | backend/src/migrations/20260205163000_create_holdings_table.ts:115-140 | One group's loop body computes `PairSpread`. |
| HoldingsMigration.PairSpreads | backend/src/migrations/20260205163000_create_holdings_table.ts:113-141 | The pairing loop sets every complete pair under `SPREAD:<id>`, in id order. |
| HoldingsMigration.BumpHolding | backend/src/migrations/20260205163000_create_holdings_table.ts:157-167 | One loop body applies the trade as `Bump` does. |
| HoldingsMigration.FoldStandalone | backend/src/migrations/20260205163000_create_holdings_table.ts:144-169 | The second-pass loop computes the average-cost fold over the unprocessed trades. |
| HoldingsMigration.DeleteClosed | backend/src/migrations/20260205163000_create_holdings_table.ts:172-176 | The deletion loop computes `DropClosed`. |
| HoldingsMigration.CalculateHoldingsMap | backend/src/migrations/20260205163000_create_holdings_table.ts:95-179 | The method computes `Reconstruct(trades)`. |
| HoldingsMigration.RowsOf | backend/src/migrations/20260205163000_create_holdings_table.ts:48-79 | One position's pushes are `PositionRows`. |
| HoldingsMigration.PushRows | backend/src/migrations/20260205163000_create_holdings_table.ts:47-80 | The loop appends the rows of every position, in key order. |
| HoldingsMigration.FileTrade | backend/src/migrations/20260205163000_create_holdings_table.ts:32-38 | A trade goes to the end of its portfolio's group, and a new group starts at the portfolio's first trade. |
| HoldingsMigration.GroupByPortfolio | backend/src/migrations/20260205163000_create_holdings_table.ts:28-39 | Each portfolio's group is its own trades in log order, with the portfolios in order of first appearance. |
| HoldingsMigration.Up | backend/src/migrations/20260205163000_create_holdings_table.ts:28-81 | The rows `up` inserts are `UpRows(trades)`. |
| SymbolList.Rank | fetch_symbols.js:69-75 | A market cap that is not a number counts as 0; symbol and name are kept. |
| SymbolList.RankAll | fetch_symbols.js:68-76 | Every stock is ranked, in order. |
| SymbolList.SortByCap | fetch_symbols.js:77 | The ranking is by market cap, descending, and is a permutation. |
| SymbolList.SortByCapStable | fetch_symbols.js:77 | Stocks of equal market cap keep their listing order. |
| SymbolList.Top | fetch_symbols.js:80-82 | At most 600 stocks are kept, and they are a prefix of the ranking. |
| SymbolList.TopAreLargest | fetch_symbols.js:77-82 | No stock left out is larger than one kept. |
| SymbolList.FirstBySymbol | fetch_symbols.js:88-93 | Deduplication keeps only input entries and loses no symbol. |
| SymbolList.FirstBySymbolDistinct | fetch_symbols.js:88-93 | Each symbol is kept once. |
| SymbolList.FirstBySymbolIsFirst | fetch_symbols.js:84-93 | The entry kept for a symbol is its first entry, so an ETF wins over a stock with the same symbol. |
| SymbolList.KeepFirst | fetch_symbols.js:88-93 | The loop over `uniqueMap` computes `FirstBySymbol`. |
| SymbolList.SortBySymbol | fetch_symbols.js:95-97 | The final sort is by symbol and is a permutation. |
| SymbolList.UpdateSymbols | fetch_symbols.js:68-97 | The method computes `FinalList`. |
| SymbolList.FinalListSortedAndDistinct | fetch_symbols.js:88-97 | The written list is sorted by symbol and has pairwise distinct symbols. |
| SymbolList.FinalListFromSources | fetch_symbols.js:80-93 | Every written entry is a common ETF or one of the 600 largest stocks. |
| SymbolList.FinalListHasEtfs | fetch_symbols.js:84-93 | Every common ETF is written, with its own ETF entry. |
| SymbolList.FinalListSize | fetch_symbols.js:80-93 | At most the 24 ETFs plus 600 stocks are written. |

## Left out

- Database I/O, transactions and the `knex` queries. The tables are sequences. A committed `placeTrade` is a method call returning `Ok`; a rolled-back one returns `Err` and changes nothing.
- The option-chain price lookup in `placeTrade` (backend/src/services/tradingService.ts:120-169) and the test-mode price of 10.0 are an input `Option<real>`. None means "Could not fetch price".
- The Yahoo Finance provider is an input function, or an input result for option chains. The provider's single-object answer, which the source wraps in a list, is modelled as a list.
- NodeCache's ten-minute expiry is left out; the cache is a plain map.
- The `toLocaleString` time-zone conversion (backend/src/utils/marketHours.ts:7-14) is left out; the model starts from the rendered string.
- `toLocaleDateString` is left out; the model returns the date and whether the year is shown.
- `localeCompare` is modelled as code-unit (lexicographic) order.
- `parseFloat` of the market cap is left out; the market cap arrives as a number or as "not a number".
- The downloads and the file write in fetch_symbols.js are left out.
- JavaScript floating point and SQLite's decimal columns are left out; money is exact `real`. `plPct` (scripts/calculate_portfolio_value.ts:82) is not modelled because it can divide by zero and is only printed.
- Quantities are integers, and a NULL `option_symbol` is the empty string.
- Console output is left out. So is the catch of scripts/calculate_portfolio_value.ts:111-113, which only logs. The sweep's outer catch (backend/src/scripts/sellExpiringPositions.ts:73-76) rethrows a failed query; it is left out with the database I/O. The market data service's rethrows (backend/src/services/marketDataService.ts:24-27 and 64-67) are modelled as `Err` results.
- `parseInt` is modelled as skipping leading white space, then an optional sign, a `0x`/`0X` prefix for base 16, and the longest run of digits. Only its 2^53 limit is not modelled. A date outside JavaScript's range of ±10^8 days is not marked invalid.
- Formatters.ToNumber: reads only decimal digits with an optional `+`, and gives NaN for anything else. Its pieces come from splitting on `-`, so they never carry a minus sign. JavaScript's `Number` also reads decimal fractions ("15.5", "1.", ".5"), which `new Date` then truncates toward zero. So the source shows "2026-03-15.5" as Mar 15, while the model shows an invalid date. Exponents, `0x`/`0b`/`0o` prefixes, "Infinity", whitespace trimming and the 2^53 limit are not modelled either.
- The clock is a parameter. The sweep's `today` stands for the UTC date of `new Date().toISOString()` (backend/src/scripts/sellExpiringPositions.ts:14). `FormatExpiration`'s `currentYear` stands for the local `new Date().getFullYear()` (frontend/src/utils/formatters.ts:23).
- The sweep takes the selected positions in an arbitrary order, since the query has no ORDER BY; `SellAll` promises the `Sweep` of whichever order it took. A position's price is an input map, as in `placeTrade`.
- Trade types other than BUY and SELL are not modelled; the route rejects them.
- Spread trading, snapshots, leaderboards and saved trades belong to other services and are not part of this model.
- TradingHoldings.Fold: requires that every sell of the log is covered. On a log with a short position, a BUY that brings the quantity back to 0 would divide by zero. The trade service keeps this invariant (`TradingService.DecideKeepsLedgerInvariant`).
- PortfolioValue.CalculatePortfolioValue: requires the ledger invariant, because the script divides by the held quantity on every non-BUY trade.
- MarketData.RepeatIsServedFromCache: assumes a provider that answers every symbol it is asked for and non-empty symbols; a provider that omits a symbol makes the second call fetch again.
- MarketData.GetQuoteSpec: quotes the provider returns as `null` are not modelled; a quote without a symbol is one with the empty symbol.

## Findings

| source | as written | input that shows it | evidently intended | confidence | as-written member | corrected member |
|---|---|---|---|---|---|---|
| backend/src/routes/tradingRoutes.ts:32 | The route rejects only a missing or zero quantity. `placeTrade` then compares cash with `price×qty×100` and the held quantity with `qty`, and both checks pass for a negative quantity. | A SELL of −1 contract at price 10 with cash 0 and no position is accepted, and the cash becomes −1000. | A trade is for a positive number of contracts, so an accepted trade never makes the cash negative. | not executed | TradingService.NegativeQuantityAccepted | TradingService.SettleKeepsCashNonNegative |
