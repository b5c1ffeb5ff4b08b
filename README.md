# AI trading backtester, modelled in Dafny

This project models the core of a small single-ticker trading backtester.

- **Signals.** A regression predicts each day's close. Every row is labelled BUY (`1`), SELL (`-1`) or HOLD (`0`) by comparing the prediction with the close.
- **Backtest.** A `Backtester` object replays the labelled rows. It does full-investment buys and all-out sells, keeps a trade log, and appends one portfolio value per row.
- **Metrics.** The equity curve yields:
  - the total return;
  - the running peak, the drawdowns and the maximum drawdown;
  - the daily returns and the annualised return;
  - a Sharpe ratio with a NaN sentinel.
- **Today's session.** The main program splits off the last row as "today". It asks the user to confirm today's suggestion and backtests the history. It then applies today's confirmed trade to the backtester by hand, and computes the metrics over the history plus today.

Files:

- `wrappers.dfy`: `Option` and `Result`.
- `simulation.dfy` (module `Simulation`): the trading rule as pure functions.
  - `Execute` is one day's decision.
  - `Simulate` is the fold over the rows that gives the final position, the trade log and the portfolio table.
  - Lemmas cover solvency, value conservation, the append-only table, the shape of the trade records, and positive equity.
- `backtester.dfy` (module `Backtest`): the `Backtester` class. Its fields are updated in place, one row at a time. `TradeRow` is proved to do one step of `Execute` and `TradeOf`; `TradeAll` and `RunBacktest` are proved to end in the state `Simulate` describes; `StoreMetrics` stores `CalculateMetrics` of the finished table and changes nothing else.
- `metrics.dfy` (module `Metrics`): the metrics as pure functions of the equity curve, with their properties.
- `strategy.dfy` (module `Strategy`): signal generation on a `SignalFrame` class whose columns are updated in place. The regression's predictions are an input.
- `today.dfy` (module `Today`): the session.
  - The confirmation rule.
  - The hand-written trade for today.
  - `SessionOf`, a pure description of the whole session.
  - `RunSession`, the imperative session over a real `Backtester` object, proved equal to `SessionOf`.
  - The lemma that the session ends exactly where backtesting the whole table ends, with today's signal replaced by the confirmed one.

Two behaviours of the code are modelled as written:

- A BUY with positive cash appends a BUY record even when `int(capital / price)` is 0 (backtester.py:38-47). `Simulation.TradeOf` logs it, and `Simulation.ZeroShareBuy` states this case.
- With fewer than two values the daily returns are empty, pandas' `mean()` is NaN, and `Metrics.AnnualizedReturn` returns `NaN`.

## Model

| member | source | states |
|---|---|---|
| Simulation.Trunc | backtester.py:40 | Python's `int()` on a float truncates toward zero: the result is within one of the input, on the zero side |
| Simulation.BuyBounds | backtester.py:40-44 | full investment: the shares bought cost at most the cash, and less than one share's price is left over |
| Simulation.Execute | backtester.py:37-60 | a BUY with cash leaves `0 <= cash < price` and never fewer shares; a SELL with shares leaves 0 shares and more cash; any other case leaves the position unchanged; non-negative cash and shares stay non-negative; solvency is kept |
| Simulation.ExecuteBuy | backtester.py:38-44 | a BUY with cash adds `int(capital / price)` shares and subtracts exactly their cost |
| Simulation.ExecuteSell | backtester.py:50-56 | a SELL with shares adds `shares * price` to the cash and sets the shares to 0 |
| Simulation.ValueConserved | backtester.py:37-56 | `cash + shares * price` at the day's price is the same before and after the day's trade |
| Simulation.TradeOf | backtester.py:37-59 | a record is logged exactly when a BUY has cash or a SELL has shares; it holds the date, the side, the price and the post-trade cash and shares |
| Simulation.ZeroShareBuy | backtester.py:38-47 | a BUY with `0 < cash < price` leaves the position unchanged, yet logs a BUY record with the unchanged cash and shares |
| Simulation.Simulate | backtester.py:28-66 | the run yields one portfolio row per input row and at most one trade per row |
| Simulation.SimulateStep | backtester.py:28-66 | one more row is one more loop pass: the position moves by `Execute`, the log grows by exactly `TradeOf`, the table grows by that day's row, and the equity curve grows by its total value |
| Simulation.PrefixStable | backtester.py:28-66 | running a prefix of the rows gives a prefix of the portfolio table and of the trade log (both are append-only) |
| Simulation.DayRecord | backtester.py:62-66 | row `i` of the portfolio table holds the input row, and the holdings and total value at that day's close of the position after that day's trade |
| Simulation.StaysSolvent | backtester.py:28-60 | from a solvent start, cash and shares never go negative and the position never becomes worthless |
| Simulation.SolventValuePositive | backtester.py:63 | a solvent position has a positive total value at any positive price |
| Simulation.TotalsPositive | backtester.py:62-66 | from a solvent start, every value on the equity curve is positive |
| Simulation.TradesWellFormed | backtester.py:37-59 | every logged trade has non-negative cash and shares, a SELL record has 0 shares, and a BUY record has less cash than the price |
| Backtest.Backtester.constructor | backtester.py:9-15 | starts with all cash (`capital` = initial capital), 0 shares, an empty trade log and an empty equity list |
| Backtest.Backtester.TradeRow | backtester.py:29-66 | one loop iteration moves the position by `Execute`, appends `TradeOf` to the log, returns the day's row and appends its total to the equity list; validity is kept |
| Backtest.Backtester.TradeAll | backtester.py:28-66 | the loop over all rows ends in the state `Simulate` gives: same position and portfolio table, and the log and equity list extended by its trades and totals |
| Backtest.Backtester.StoreMetrics | backtester.py:69 | the metrics of the finished portfolio table are stored on the object, and nothing else changes |
| Backtest.Backtester.RunBacktest | backtester.py:17-70 | as `TradeAll`; on a non-empty table the equity curve is positive, the table is returned and the final metrics are stored; an empty table fails in the metrics step |
| Metrics.CumMax | backtester.py:79 | the running peak has one entry per value, and each entry is at least that day's value |
| Metrics.CumMaxBounds | backtester.py:79 | entry `i` of the running peak is at least every value up to day `i` |
| Metrics.CumMaxAttained | backtester.py:79 | entry `i` of the running peak equals some value up to day `i` |
| Metrics.PeakIsValueIff | backtester.py:79 | the running peak equals the curve exactly when the curve never falls |
| Metrics.Drawdowns | backtester.py:81 | every drawdown is at most 0, and it is 0 exactly on days where the value is at its running peak |
| Metrics.MinOf | backtester.py:82 | `min()` of a non-empty column is at most every entry and equals one of them |
| Metrics.MinOfZeroIff | backtester.py:82 | the minimum of non-positive entries is 0 exactly when all of them are 0 |
| Metrics.MaxDrawdown | backtester.py:81-82 | the maximum drawdown is at most 0 |
| Metrics.MaxDrawdownZeroIff | backtester.py:79-82 | the maximum drawdown is 0 exactly when the equity curve is non-decreasing |
| Metrics.DailyReturns | backtester.py:85 | `n` values give `n - 1` returns, return `i` is `v[i+1] / v[i] - 1`, and each is above -1 and non-negative exactly when the value did not fall |
| Metrics.Mean | backtester.py:86 | `mean()` is NaN exactly on an empty column; otherwise it times the length is the sum |
| Metrics.AnnualizedReturn | backtester.py:86 | NaN exactly when there are no daily returns; otherwise positive exactly when their sum is positive |
| Metrics.SampleVariance | backtester.py:87 | the sample variance (ddof = 1) is never negative |
| Metrics.VarianceZeroIff | backtester.py:87-90 | the sample variance is 0 exactly when all returns are equal |
| Metrics.SharpeRatio | backtester.py:87-90 | a defined ratio has a positive variance, and its numerator is the annualised return |
| Metrics.SharpeNaNIff | backtester.py:87-90 | the Sharpe ratio is NaN exactly when there are fewer than two returns or they are all equal |
| Metrics.TotalReturn | backtester.py:75 | the total return times the initial capital is the final value's gain over it, so it is non-negative exactly when the final value is at least the initial capital |
| Metrics.CalculateMetrics | backtester.py:72-90 | an empty curve is an error. Otherwise the record keeps the initial capital; the final value is the last entry; the total return is non-negative exactly when the final value is at least the initial capital; the max drawdown is at most 0, and 0 exactly when the curve never falls; the annualised return is NaN exactly for a one-value curve; the Sharpe ratio is NaN exactly for fewer than three values or constant daily returns |
| Metrics.MetricsFields | backtester.py:72-90 | each field of the record is the metric computed from the curve: the total return is `final / initial - 1` of the last value (`TotalReturn`), the max drawdown is `MaxDrawdown` of the curve, and the annualised return and the Sharpe ratio are `AnnualizedReturn` and `SharpeRatio` of the daily returns |
| Strategy.Label | strategy.py:43-45 | a row is BUY exactly when the prediction is above the close, SELL exactly when it is below, and HOLD exactly on a tie |
| Strategy.Labels | strategy.py:43-45 | the signal column has one entry per row, entry `i` is the label of row `i`, and every entry is BUY, SELL or HOLD |
| Strategy.LabelRows | strategy.py:43-45 | starting all HOLD, then writing BUY under one mask and SELL under the other gives exactly `Labels` |
| Strategy.ResetLast | strategy.py:50-51 | the last signal becomes HOLD and every other signal is unchanged |
| Strategy.AddPrevClose | strategy.py:15-16 | the first row is dropped from every column, including prediction and signal columns left by an earlier call; each remaining row keeps its date and close, and its previous close is the close of the row before it; every column still has one entry per row |
| Strategy.StoreSignals | strategy.py:38-51 | a prediction column of the wrong length fails and changes nothing. Otherwise the predictions are stored and the signals are `Labels`, with the last one reset when asked. Resetting on an empty table fails |
| Strategy.GenerateSignals | strategy.py:10-58 | the shift-and-drop always happens, on every column. Missing predictions, or a prediction column of the wrong length, fail and leave the prediction and signal columns as the drop left them. Otherwise the predictions are stored and the signals are `Labels`, with the last one reset when asked. Resetting on an empty table fails |
| Today.StripLeft | main.py:58 | strips leading whitespace (every character Python's `str.isspace()` accepts): the result is a suffix, everything removed is whitespace, and it does not start with whitespace |
| Today.StripRight | main.py:58 | strips trailing whitespace (every character Python's `str.isspace()` accepts): the result is a prefix, everything removed is whitespace, and it does not end with whitespace |
| Today.Lower | main.py:58 | lower-cases every ASCII capital letter and keeps every other character |
| Today.ConfirmSignal | main.py:57-64 | the confirmed signal is 1 exactly for an AI BUY answered "yes", -1 exactly for an AI SELL answered "yes", and 0 otherwise |
| Today.AcceptsPaddedYes | main.py:58-62 | "yes" in any letter case, with any surrounding whitespace, counts as "yes" |
| Today.ManualStep | main.py:82-96 | today's BUY adds `int(capital / price)` shares with no cash check; today's SELL sets the shares to 0 and the cash to the total value, even with no shares; anything else changes nothing |
| Today.ManualValueConserved | main.py:82-96 | today's hand-written trade keeps the total value at today's price |
| Today.ManualStepMatchesLoop | main.py:82-96 | with non-negative cash and shares, today's hand-written trade gives the same cash and shares as one more iteration of the backtest loop |
| Today.ApplyToday | main.py:79-101 | the backtester's cash and shares become `ManualStep` of the old ones, today's total is appended to its equity list, today's row is returned, and validity is kept |
| Today.TodayIsOneMoreStep | main.py:76-101 | backtesting the history and then trading today by hand ends where backtesting history plus today (with the confirmed signal) ends; the combined equity curve equals that replay's curve and is positive |
| Today.SessionOf | main.py:45-112 | the session fails exactly when the table has fewer than two rows (no today row, or an empty history whose metrics fail) |
| Today.SessionReplaysLoop | main.py:45-112 | the session's position and equity curve are those of backtesting the whole table with today's signal replaced by the confirmed one; the log holds the history's trades only; the table has one row per input row; the curve is positive |
| Today.TradeHistoryAndToday | main.py:74-101 | a fresh backtester over the history, then today's hand-written trade, gives the position after `ManualStep`, the history's trades, and the history's table and equity curve with today appended; an empty history fails |
| Today.RunSession | main.py:45-112 | the imperative session ends with exactly the result `SessionOf` describes, error or success, field by field |

## Left out

- Console I/O and presentation are not modelled:
  - the `input()` prompts (the answer is a parameter);
  - every `print`;
  - the formatting of the metrics into strings (backtester.py:92-103);
  - the plots (main.py:118-158).
- data_manager.py (download and cleaning) and tempCodeRunnerFile.py are not part of this model. The fetch, preprocessing and signal-generation steps of `main` (main.py:20-35) are not composed with `RunSession`, which takes the labelled rows as input.
- The linear regression and `train_test_split` (strategy.py:18-38) are library calls on floats. `GenerateSignals` takes the predicted closes as input. `None` stands for a library failure, and such failures land in the `None` result as the source's `except` does.
- `Strategy.AddPrevClose`: `dropna` removes only the first row, whose previous close is missing. Rows with missing values in other columns are not modelled, because the input is taken to have none.
- Floating point is not modelled: prices, cash and metrics are exact reals. `int(capital / price)` is exact truncation, and float rounding is not captured.
- Dates are day numbers, taken to be distinct, as they are in daily price data. `Timestamp.date()`, the DataFrame index and `pd.concat` become sequences of `Row` and `Day` records. With a repeated date, `df.loc[i, ...]` (backtester.py:64-65) would also overwrite the earlier row of that date; the model keeps one `Day` per input row.
- `Metrics.SharpeRatio`: the square root of `252 * variance` is not computed. A defined Sharpe ratio is kept as its numerator (the annualised return) and the sample variance under the root. Only the NaN sentinel is decided exactly.
- `Metrics.CalculateMetrics`: requires every equity value to be positive, because `pct_change` divides by every value but the last, so a zero anywhere before the end gives infinities or NaN (and a 0/0 return is silently dropped by `dropna`). A zero only in the last place would give finite metrics; the model does not cover that curve and carries no NaN or infinity through the drawdown and return columns. `Simulation.TotalsPositive` proves that the backtester's own curve meets this requirement.
- `Backtest.Backtester.RunBacktest`: requires positive prices and a positive starting capital. The source never checks either; a zero price would divide by zero in the BUY branch.
- `Today.Lower`: `str.lower()` is modelled on ASCII letters only. Lower-casing other characters can change the text, but not whether it equals "yes", since only `Y`, `E` and `S` lower-case to `y`, `e` and `s`.
- The `User_Confirmed_Signal` and `Predicted_Close` columns are not carried in the portfolio rows. The confirmed signal is a field of the session, and the predictions are a column of the `SignalFrame`.
- The `final_metrics` that `run_backtest` stores on the object is modelled in `RunBacktest`. The session's metrics are the ones main.py computes over history plus today.
