# Trading-bot core in Dafny

This project models the decision and bookkeeping core of a small
crypto trading bot and proves properties of it:

- **Paper broker** (`Paper.dfy`). It simulates fills with slippage in basis
  points and a taker fee. It keeps one open trade per symbol and a log of
  closed trades. On each new candle it closes the positions whose stop or
  take-profit the bar's range reaches.
  - The broker is a class, `Paper.PaperBroker`. Its fields are the cash
    balance, the open positions and the trade log, plus the positions'
    dictionary order.
  - Its methods are proved against value-level functions on a
    `Ledger`: `LedgerBuy`, `LedgerSell` and `LedgerUpdate`. The broker's
    properties are lemmas about those functions.
- **Indicators and entry signal** (`Strategy.dfy`).
  - Indicators: the EMA with `adjust=False` smoothing, Wilder's RSI with
    `min_periods`, and a rolling volume mean, all defined over the candle
    closes.
  - Signal: a "buy" comes from a pullback, an uptrend, an RSI band and a
    close-versus-fast-EMA test. All four are read on the last *closed* bar.
- **Position sizing** (`Position.dfy`): a risk-budget sizer with a clamped
  divisor.
- **Stop placement** (`Risk.dfy`): an ATR stop floored at zero.
- **CI regression gate** (`CiRegression.dfy`).
  - Each line of the results table becomes the dictionary `csv.DictReader`
    builds. A repeated header name keeps the last column's cell, and a
    column past the end of a short line holds `None`. Blank lines are skipped.
  - Columns are looked up by candidate name, first exactly and then ignoring
    case.
  - The lines fold into the best Sharpe ratio and the worst drawdown. The
    verdict is checked against two thresholds.
- **Shared modules**: `Config.dfy` holds the configuration record and its
  defaults, `Candles.dfy` the candle record, `Wrappers.dfy` `Option` and
  `Result`, `Numbers.dfy` `abs` and `max`, and `Seqs.dfy` facts about
  sequences of names.

Exceptions become explicit error values where the model covers them. The
source raises:

- the `IndexError` of `update_prices` on an empty frame, modelled as an error;
- the `ValueError`s of the regression gate, modelled as errors;
- a `ZeroDivisionError` in `sell` when `slippage_bps` is −10000
  (`src/bot/paper.py:37`), excluded by a precondition (see "Left out");
- a `ZeroDivisionError` in `_rsi` when `rsi_period` is 0
  (`src/bot/strategy.py:26`), excluded by a precondition (see "Left out").

I/O, the clock and number parsing are parameters.

- The clock is a timestamp `now`. One value is used per broker call.
- Number parsing is a function `string -> Option<real>`.

Notes on the source:

- The sell fill divides the quote by `1 + bps/10000`. A positive
  `slippage_bps` therefore lowers the sale price. The code comment at
  `src/bot/paper.py:37` calls this favourable, but it is adverse to the
  seller. The model follows the code, and `ApplySlippage` states the
  direction.
- `position_size` in `src/bot/position.py` takes no lot step and never
  raises. `tests/test_position.py` expects both behaviours. The model
  follows the code.

## Model

| member | source | states |
|---|---|---|
| Paper.ApplySlippage | src/bot/paper.py:32-37 | a buy fills at `price·(1 + bps/10000)`; a sell fill times that factor gives back the quote; with non-negative bps and price a buy pays at least and a sell receives at most the quote |
| Paper.SlippageRoundTrip | src/bot/paper.py:32-37 | selling at the price a buy filled at yields the original quote: the two slippage directions are inverse |
| Paper.TakerFee | src/bot/paper.py:39-41 | the fee is never negative for a non-negative rate and is zero on a zero notional |
| Paper.TakerFeeSymmetric | src/bot/paper.py:39-41 | the fee depends only on the size of the notional, not its sign |
| Paper.Without | src/bot/paper.py:64 | popping a key from the dictionary's key order keeps exactly the other keys and their uniqueness; popping an absent key leaves the order as it was |
| Paper.WithoutSplices | src/bot/paper.py:64 | popping a present key cuts it out at its place: the new order is the keys before it followed by the keys after it |
| Numbers.Abs | src/bot/paper.py:41 | `abs` is never negative and is the number or its negation |
| Paper.Cost | src/bot/paper.py:44-48 | with a non-negative fee rate a buy costs at least its notional, and exactly the notional when the rate is zero |
| Paper.Proceeds | src/bot/paper.py:65-69 | with a non-negative fee rate a sell receives at most its notional; with a rate of at most 1 a non-negative notional never turns into a payment |
| Paper.RoundTripPnl | src/bot/paper.py:70 | fees only lower the pnl below the price gain `(fill − entry)·qty`, and a zero rate leaves exactly the price gain |
| Paper.OpenedTrade | src/bot/paper.py:49-57 | the trade a buy opens is open, on the buy side, at the slipped fill, with the given stop, take-profit, quantity and time |
| Paper.LedgerBuy | src/bot/paper.py:43-59 | equity drops by `fill·qty` plus its fee; the symbol maps to the new trade (a previous one is replaced, not logged); other symbols and the log are unchanged |
| Paper.BuyKeepsConsistent | src/bot/paper.py:43-59 | a buy keeps the broker invariant: unique key order matching the map, each open trade filed under its symbol and open, every logged trade closed |
| Paper.RoundTripPnlSplit | src/bot/paper.py:70 | the recorded pnl equals what the sell receives (notional less exit fee) minus what the buy paid (notional plus entry fee) |
| Paper.ClosedTrade | src/bot/paper.py:64-74 | the closed trade keeps its entry fields and gains the sell fill as exit price, the exit time, and `pnl = (fill − entry)·qty − fee(entry·qty) − fee(qty·fill)` with the quantity passed to the sell |
| Paper.LedgerSell | src/bot/paper.py:61-75 | without an open trade nothing changes; otherwise the symbol leaves the positions, exactly its closed trade is appended to the log, equity rises by `qty·fill` less its fee, other positions are untouched |
| Paper.BuyThenSellPnl | src/bot/paper.py:43-75 | buying and then selling the same quantity logs one trade for the symbol whose pnl equals the net equity change of the round trip |
| Paper.ExitPrice | src/bot/paper.py:86-90 | a bar `[low, high]` exits at the stop when it contains it, else at the take-profit when it contains that, else not at all; any exit lies inside the bar |
| Paper.SellKeepsConsistent | src/bot/paper.py:61-75 | a sell keeps the broker invariant: the symbol leaves both the map and the key order, and the appended trade is closed |
| Paper.ExitStep | src/bot/paper.py:87-90 | a visit whose bar triggers nothing leaves the ledger unchanged |
| Paper.ExitEntry | src/bot/paper.py:87-90 | a visit logs at most one trade, one exactly when an exit triggers, closed and for the visited symbol |
| Paper.ExitStepLog | src/bot/paper.py:87-90 | one visit appends its triggered closed trade, if any, to the log |
| Paper.ExitStepEquity | src/bot/paper.py:87-90 | one visit credits the proceeds less fee of its triggered exit, if any |
| Paper.ExitStepPositions | src/bot/paper.py:87-90 | one visit removes its symbol exactly when an exit triggers and leaves every other position as it was |
| Paper.ExitRunTail | src/bot/paper.py:85 | after visiting the first symbol of the snapshot, the remaining snapshot symbols are still open with their snapshot trades |
| Paper.ExitRunAdvance | src/bot/paper.py:85-90 | one visit at position `i` of the snapshot keeps the rest of it open and without repeats, and the run from `i + 1` after the visit equals the run from `i` |
| Paper.ExitRunLog | src/bot/paper.py:85-90 | the loop over the snapshot appends exactly the triggered closed trades, in dictionary order |
| Paper.ExitRunEquity | src/bot/paper.py:85-90 | the loop credits exactly the proceeds less fees of the triggered exits |
| Paper.ExitRunPositions | src/bot/paper.py:85-90 | the loop closes exactly the visited symbols whose exit triggers; every other position stays as it was |
| Paper.ExitRunKeepsConsistent | src/bot/paper.py:85-90 | the loop keeps the broker invariant |
| Paper.Exits | src/bot/paper.py:85-90 | the triggered symbols are visited symbols whose exit triggers, without repeats |
| Paper.ExitRun | src/bot/paper.py:85-90 | the loop over `k` snapshot symbols logs between none and `k` trades |
| Paper.ExitLogSymbols | src/bot/paper.py:85-90 | the symbols of the trades the loop logs are exactly the triggered symbols, in visiting order |
| Paper.ExitLogFollowsExits | src/bot/paper.py:85-90 | the i-th logged trade of a loop belongs to the i-th triggered symbol |
| Paper.ExitLogOncePerSymbol | src/bot/paper.py:85-90 | every trade the loop logs belongs to a visited symbol whose exit triggers, and no symbol is logged twice: at most one exit per symbol |
| Paper.LedgerUpdate | src/bot/paper.py:77-90 | the update fails exactly when positions are open and the frame has no rows; with no positions the ledger is returned as it was; otherwise the log grows by at most one trade per open position |
| Paper.UpdatePricesEffect | src/bot/paper.py:77-90 | with no open positions nothing happens; with positions and no rows the update fails; otherwise only the last candle decides, each position is closed exactly when that bar reaches its stop or take-profit, the log and equity grow by those exits, the rest is untouched, and the invariant holds |
| Paper.UpdateLeavesUntriggered | src/bot/paper.py:85-90 | after an update no remaining position has its stop or take-profit inside the last bar |
| Paper.PaperBroker.constructor | src/bot/paper.py:26-30 | a new broker holds the given equity, no positions and an empty log |
| Paper.PaperBroker.Buy | src/bot/paper.py:43-59 | the new state is `LedgerBuy` of the old one, the returned trade is the one filed, and the invariant is kept |
| Paper.PaperBroker.Sell | src/bot/paper.py:61-75 | the new state is `LedgerSell` of the old one; the result is the closed trade, or none when the symbol had no open trade |
| Paper.PaperBroker.UpdatePrices | src/bot/paper.py:77-90 | the loop over the snapshot of positions, selling at the stop or else the take-profit, ends in the state `LedgerUpdate` prescribes; an empty frame with open positions reports failure and changes nothing |
| Strategy.Smooth | src/bot/strategy.py:13-14 | `ewm(adjust=False)` keeps the length and starts at the first value |
| Strategy.SmoothPrefix | src/bot/strategy.py:13-14 | smoothing a prefix gives the prefix of the smoothed series: no lookahead |
| Strategy.SmoothStep | src/bot/strategy.py:13-14 | every later value is `(1 − α)·previous + α·input` |
| Strategy.SmoothBounds | src/bot/strategy.py:13-14 | with `0 ≤ α ≤ 1` the smoothed series stays within any bounds of its input |
| Strategy.SmoothZeros | src/bot/strategy.py:26-27 | zeros smooth to zeros |
| Strategy.SmoothPositive | src/bot/strategy.py:26-27 | a positive series smooths to a positive one |
| Strategy.EmaAlpha | src/bot/strategy.py:13-14 | the span's factor `2/(span+1)` lies in `(0, 1]` |
| Strategy.Ema | src/bot/strategy.py:13-14 | the EMA has one value per input |
| Strategy.EmaPrefix | src/bot/strategy.py:13-14 | EMA of a prefix is the prefix of the EMA; its length is the input's and its first value the first close |
| Strategy.Ups | src/bot/strategy.py:23-24 | up-moves are one fewer than the closes and never negative |
| Strategy.Downs | src/bot/strategy.py:23-25 | down-moves are one fewer than the closes and never negative |
| Strategy.RsiOf | src/bot/strategy.py:28-29 | undefined exactly when both averages are zero; a zero down-average with gains gives 100; otherwise `100·up/(up+down)`; always in `[0, 100]` |
| Strategy.RsiClosedForm | src/bot/strategy.py:28-29 | `100 − 100/(1 + up/down)` equals `100·up/(up+down)` |
| Strategy.WilderAlpha | src/bot/strategy.py:26-27 | Wilder's factor `1/period` lies in `(0, 1]` |
| Strategy.Rsi | src/bot/strategy.py:17-30 | RSI has one value per bar |
| Strategy.AveragesNonNegative | src/bot/strategy.py:24-27 | the smoothed up- and down-moves are never negative |
| Strategy.RsiAt | src/bot/strategy.py:23-30 | the definition of `Rsi` unfolded at one bar t: undefined before `period` moves, otherwise `RsiOf` of the smoothed moves up to t, whose averages are not negative |
| Strategy.RsiShape | src/bot/strategy.py:23-30 | RSI is undefined for the first `period` bars and every defined value lies in `[0, 100]` |
| Strategy.UpsPrefix | src/bot/strategy.py:23-25 | the moves of a prefix are the prefix of the moves |
| Strategy.RsiPrefix | src/bot/strategy.py:17-30 | RSI of a prefix is the prefix of the RSI |
| Strategy.RsiRising | src/bot/strategy.py:23-30 | on a strictly rising series every defined RSI is 100 |
| Strategy.RsiFlat | src/bot/strategy.py:23-30 | on a flat series RSI is undefined everywhere |
| Strategy.RollingMean | src/bot/strategy.py:82-84 | the rolling mean has one entry per bar, undefined exactly before `w` values exist |
| Strategy.RollingMeanPrefix | src/bot/strategy.py:82-84 | the rolling mean of a prefix is the prefix of the rolling mean |
| Strategy.Closes | src/bot/strategy.py:55 | the close column holds each candle's close |
| Strategy.Volumes | src/bot/strategy.py:84 | the volume column has one entry per candle |
| Strategy.ClosesPrefix | src/bot/strategy.py:55-58 | the columns of a prefix of candles are the prefixes of the columns |
| Strategy.DropLast | src/bot/strategy.py:128 | the closed view keeps every row but the last, cuts each column alike, and has the indicator columns exactly when the input does |
| Strategy.CalculateIndicators | src/bot/strategy.py:51-86 | an empty frame comes back unchanged; otherwise the rows are kept, the three indicator columns are added, and the volume mean is added when the filter is on and left as it was when off |
| Strategy.IndicatorsCausal | src/bot/strategy.py:47-49 | computing the indicators on the closed view equals cutting the indicators of the whole frame |
| Strategy.GenerateSignal | src/bot/strategy.py:124-133 | fewer than 2 rows, or a closed view shorter than `max(ema_slow, rsi_period) + 2`, give no signal |
| Strategy.SignalIgnoresLastRow | src/bot/strategy.py:127-140 | changing only the final row never changes the signal |
| Strategy.PrecomputedAgrees | src/bot/strategy.py:135-140 | the signal on a frame whose indicators were precomputed equals the signal computed on the fly |
| Strategy.PrecomputedIgnoresLastCandle | src/bot/strategy.py:127-140 | changing only the final candle changes neither the on-the-fly signal nor the precomputed one |
| Numbers.MaxInt | src/bot/strategy.py:131 | `max` of two integers is at least each and is one of them |
| Strategy.MinHistory | src/bot/strategy.py:131 | the history needed is two bars more than the slow EMA span and than the RSI period, and exactly two more than the larger |
| Strategy.IsPullback | src/bot/strategy.py:105-115 | fewer than two bars are never a pullback; a pullback has the last close strictly below the one before |
| Strategy.TrendUp | src/bot/strategy.py:89-91 | equal averages are never an uptrend |
| Strategy.RsiInRange | src/bot/strategy.py:94-102 | an undefined RSI is never in range; any RSI inside the configured band is in range, the margin only widening it |
| Strategy.CloseAboveFast | src/bot/strategy.py:148-151 | with non-negative slippage a close at or above the fast EMA passes; with zero slippage the test is exactly `close ≥ ema_fast` |
| Strategy.EntryConditions | src/bot/strategy.py:142-153 | the four conditions together need two closed bars, a defined RSI and the fast EMA strictly above the slow one at the last closed bar |
| Strategy.SignalOnRawCandles | src/bot/strategy.py:118-155 | on raw candles the signal is "buy" exactly when there is enough history and pullback, trend, RSI band and close-above-fast hold at the last closed bar, on the whole series' indicators |
| Strategy.SignalOnPrecomputed | src/bot/strategy.py:142-155 | with indicator columns the signal is "buy" exactly when the four conditions hold at the last closed bar, the RSI band being `[min − 3, max + 3]` with an undefined RSI failing it |
| Strategy.DefaultNeedsHistory | src/bot/strategy.py:131-133 | with the default configuration fewer than 203 rows never signal |
| Numbers.Max | src/bot/position.py:5 | `max` of two reals is at least each and is one of them |
| Position.PerUnitRisk | src/bot/position.py:5 | the divisor is at least `1e-6` and is `entry − stop` or that minimum |
| Position.PositionSize | src/bot/position.py:3-7 | the quantity is never negative, times the divisor gives the positive part of the risk budget, and is zero when the budget is not positive |
| Position.SizeWithGap | src/bot/position.py:4-6 | with a gap of at least `1e-6` the quantity is budget divided by the gap |
| Position.SizeWithStopAboveEntry | src/bot/position.py:5-7 | a stop at or above the entry multiplies the budget by a million |
| Position.SizeExample | src/bot/position.py:3-7 | entry 100, stop 95, equity 2000 and 1% give 4 |
| Risk.ComputeStop | src/bot/risk.py:3-4 | the stop is never negative, is `entry − atr·k` when that is not negative, is zero exactly when `atr·k ≥ entry`, and never exceeds the entry for non-negative inputs |
| Risk.ComputeStopExamples | src/bot/risk.py:3-4 | entry 100, ATR 2, k 1.5 give 97; entry 1, ATR 5, k 1 give 0 |
| CiRegression.Lower | src/bot/ci_regression.py:28 | lower-casing keeps the length |
| CiRegression.FindExact | src/bot/ci_regression.py:24-25 | the first position holding exactly the key, or the row length when none does |
| CiRegression.FindFolded | src/bot/ci_regression.py:27-29 | the first position whose key matches ignoring case, or the row length when none does |
| CiRegression.NameLookup | src/bot/ci_regression.py:23-29 | a name finds nothing exactly when no key matches it ignoring case |
| CiRegression.NameLookupExact | src/bot/ci_regression.py:24-25 | an exact key wins over any earlier case-insensitive match |
| CiRegression.NameLookupFolded | src/bot/ci_regression.py:27-29 | without an exact key the first case-insensitive match in row order wins |
| CiRegression.LookupFirstHit | src/bot/ci_regression.py:22-30 | the first candidate name that matches decides the lookup |
| CiRegression.LookupMiss | src/bot/ci_regression.py:30 | when no name matches, the lookup finds nothing |
| CiRegression.Lookup | src/bot/ci_regression.py:22-30 | whatever `get` returns is the value of a row item whose key matches one of the candidate names ignoring case |
| CiRegression.Get | src/bot/ci_regression.py:22-30 | the nested loop over names and row items returns what `Lookup` specifies |
| CiRegression.First | src/bot/ci_regression.py:19 | the first position of a header name, or the header length when absent; present exactly when the position is inside |
| CiRegression.LastBefore | src/bot/ci_regression.py:19 | the last position of a header name among the first `n` columns, or −1 when absent there |
| CiRegression.Distinct | src/bot/ci_regression.py:19 | the header names without repeats: holds exactly the header's names, each once |
| CiRegression.DistinctOrder | src/bot/ci_regression.py:19 | the dictionary's keys stand in the order their names first appear in the header |
| CiRegression.Build | src/bot/ci_regression.py:19 | after assigning the first `n` columns in turn, the keys are the distinct names among them and each holds the cell of its last column so far, `None` past the end of the line |
| CiRegression.DictRow | src/bot/ci_regression.py:39 | the dictionary of one line has one key per distinct header name, in first-appearance order, holding the cell of the name's last column, or `None` when that column lies past the end of a short line |
| CiRegression.ExactKeyFinds | src/bot/ci_regression.py:24-25 | in a dictionary, looking a key up exactly finds its own value |
| CiRegression.RepeatedColumnLastWins | src/bot/ci_regression.py:39-43 | with header `sharpe,max_dd,sharpe` the line `1.0,-0.1,2.0` reads Sharpe `2.0`, and the short line `1.0,-0.1` reads `None` and fails with the missing-column error |
| CiRegression.RowMetrics | src/bot/ci_regression.py:40-48 | a row fails exactly when either column is missing or has no value; a row whose values do not both parse contributes nothing; otherwise it contributes both parsed numbers |
| CiRegression.RecordMetrics | src/bot/ci_regression.py:39-48 | a blank line contributes nothing; any failure is the missing-column error |
| CiRegression.ReadRecord | src/bot/ci_regression.py:39-48 | the body of the loop for one line, building the row and calling `get` twice, returns what `RecordMetrics` specifies |
| CiRegression.Merge | src/bot/ci_regression.py:49-52 | the running best is the maximum and the running worst the minimum of the previous ones and the row's |
| CiRegression.Outcomes | src/bot/ci_regression.py:39-48 | one contribution per line, in line order |
| CiRegression.Step | src/bot/ci_regression.py:42-52 | a row with a missing column stops the loop with that error; a row whose values do not parse leaves the extremes as they were; a parsed row is merged into them |
| CiRegression.Fold | src/bot/ci_regression.py:39-52 | no lines give no aggregates, and a failed fold fails with the error of one of the lines |
| CiRegression.Aggregate | src/bot/ci_regression.py:39-52 | the fold over a table can only fail with the missing-column error |
| CiRegression.FoldPrefix | src/bot/ci_regression.py:39 | the loop's result after one more row is one more step from the result before it |
| CiRegression.FoldFailure | src/bot/ci_regression.py:39-43 | the fold fails exactly when some row lacks a column, even after good rows, with that row's error |
| CiRegression.FoldNothing | src/bot/ci_regression.py:44-55 | without errors the fold has no aggregates exactly when no row parses |
| CiRegression.FoldExtremes | src/bot/ci_regression.py:44-52 | every parsed row lies between the aggregates, and the best and the worst are each attained by a parsed row |
| CiRegression.Evaluate | src/bot/ci_regression.py:32-71 | an empty header fails; a summary reports the thresholds it was given and a regression exactly when the best Sharpe or the worst drawdown is below its threshold |
| CiRegression.EvaluateOutcomes | src/bot/ci_regression.py:32-55 | an empty header fails first; a missing column fails exactly when some row lacks one; no metrics fails exactly when no row parses |
| CiRegression.EvaluateSummary | src/bot/ci_regression.py:44-71 | on success the best Sharpe is the maximum and the worst drawdown the minimum over parsed rows, the thresholds are reported, and a regression is reported exactly when `best < T_sharpe` or `worst < T_dd` |
| CiRegression.EvaluateRows | src/bot/ci_regression.py:15-71 | the loop with its running best and worst, early errors and final check returns what `Evaluate` specifies |
| CiRegression.DefaultThresholdsInclusive | src/bot/ci_regression.py:12-13 | with the default thresholds 1.0 and −0.20, a best Sharpe of exactly 1.0 and a worst drawdown of exactly −0.20 are not a regression |

## Left out

- Floating point: prices, fees and indicators are reals. IEEE rounding is not modelled. NaN and infinity appear only where the code relies on them: RSI's zero denominators, and the `-inf`/`inf` starting values of the regression gate, which become absent extremes.
- Paper.PaperBroker.Buy: returns the same `Trade` value it files. The source returns the object itself, so a caller's reference sees the exit fields the later `sell` writes into it. That aliasing is not modelled.
- Paper.PaperBroker.Sell: requires a slippage factor other than zero (`slippage_bps ≠ −10000`) when the symbol is open. In that case the source pops the position at `src/bot/paper.py:64` and only then raises `ZeroDivisionError` at `src/bot/paper.py:37`. The broker is left with the position removed, equity unchanged and nothing logged. That state is not modelled. Paper.LedgerSell, Paper.ClosedTrade and Paper.ApplySlippage's sell side carry the same precondition.
- Paper.PaperBroker.UpdatePrices: requires a slippage factor other than zero (`slippage_bps ≠ −10000`) even when no exit triggers. The source divides by the factor only inside `sell`, where it raises `ZeroDivisionError`. Paper.LedgerUpdate carries the same precondition.
- Paper.PaperBroker.UpdatePrices: reads the bar's `low` and `high` fields. The positional-column fallback for frames without those column names is not modelled.
- Timestamps: `datetime.utcnow()` becomes a `now` parameter. `update_prices` uses one value for all the sells of one call.
- The ADX block of `calculate_indicators` is not modelled. It rests on pandas `combine`/`mask`/`fillna` over inf and NaN values, and the signal never reads the `adx` column.
- Strategy.CalculateIndicators: a `None` frame and NaN values inside supplied columns are not modelled. A frame is a list of candles with optional indicator columns.
- Strategy.CalculateIndicators: requires EMA spans, the RSI period and, with the filter on, the volume window to be at least 1. An RSI period of 0 raises `ZeroDivisionError` at `src/bot/strategy.py:26`. The other values fall to pandas' own argument checks, which are not modelled. The model states no result for any of them.
- Strategy.GenerateSignal: requires the same periods whenever it computes the indicators itself.
- The volume filter's switch and window come from attributes that the configuration record does not define. They are looked up with defaults (off, 20), so `Config.AppConfig` carries them with those defaults.
- CiRegression.Lower: folds ASCII letters only. Python's `str.lower` also folds other Unicode letters.
- CiRegression.DictRow: cells past the end of the header are dropped. `csv.DictReader` stores them under the key `None`, and the case-insensitive scan of `get` raises `AttributeError` on that key when it reaches it. Neither is modelled.
- CiRegression.DictRow: the header and the lines arrive already split into cells. CSV quoting and line splitting are not modelled.
- CiRegression.RowMetrics: parsing returns finite numbers only. `float("nan")` and `float("inf")` values are not modelled.
- File existence, CSV reading, environment thresholds, the JSON summary file with its ISO timestamp, `GITHUB_OUTPUT`/`GITHUB_ENV` writes and the command line are not modelled; the thresholds are parameters.
- The configuration loader (YAML, dotenv, pydantic validation) is not modelled; `Config.Default` holds the record's defaults.
- The optimizer, runner, notifier, logger, backtest, exchange and metrics modules are not modelled. Neither is behaviour seen only in tests for code that is not part of this model: paper and live runners, the order watcher, exchange retries, risk guards, sizing with a lot step, and backtest metrics.
