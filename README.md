# EMA crossover signals, modelled in Dafny

The stock-analysis tool downloads a year of daily prices for a ticker, then
computes a trend-following signal in `calculate_ema`. It takes two
exponential moving averages (EMAs) of the closing prices, a short one and a
long one. It sets a `bullish` flag wherever the short EMA is strictly above
the long one. It then marks a `crossover` wherever that flag changes: +1
(Buy) when the short EMA moves above, -1 (Sell) when it falls back. This
project models that computation and proves what it guarantees.

- `ema.dfy` (module `MovingAverage`): the EMA that pandas computes for
  `ewm(span=p, adjust=False).mean()`. The smoothing factor is
  `alpha = 2 / (p + 1)`. The series starts at the first price, and
  `ema[i] = alpha * close[i] + (1 - alpha) * ema[i-1]` after that. `Ema`
  is defined by recursion on prefixes. The module proves that it matches a
  pointwise statement of the recurrence and is the only series that does.
  It also proves causality (the first n points depend only on the first n
  prices), that every point lies between the lowest and the highest price
  so far, that a constant series gives a constant EMA, and that span 1
  gives back the prices.
- `signals.dfy` (module `TrendSignals`): the 1.0/0.0 `bullish` flag, and the
  `crossover` column, which is the first difference of that flag read as an
  event tag (`NoEvent`, `Buy`, `Sell`). Index 0, where the difference is
  missing, carries `NoEvent`. The module proves the Buy/Sell/no-event
  reading of each step. It proves that the trend always starts not
  bullish, that events alternate, and that the first event is a Buy. It
  proves that Buys minus Sells up to any index equals the flag there, and
  that there are at most `len(close) - 1` events.
- `frame.dfy` (module `StockFrame`): the price table as a class holding a
  map from column names to columns. `CalculateEma` writes the four derived
  columns into that map in place, with the same default spans (5 and 13).
  It leaves every other column, `Close` included, as it was, and keeps
  every column as long as `Close`, as pandas requires of a table.
- `scenarios.dfy` (module `SignalScenarios`): two worked series, a flat one
  and a rising one, with their exact EMAs, trend and events.

Prices are Dafny `real`s, so every EMA value is exact rational arithmetic.
Spans are `int`s, as the program reads them, and every operation requires
`span >= 1`. The program itself never checks the spans. pandas rejects a
span below 1, and that check is not part of this model. Nothing requires
the short span to be below the long one, because the program does not
require it either. An empty price series is not an error in the model. All
four columns are then empty, which is what pandas returns. The program
never reaches that case anyway, because it stops when the download comes
back empty (stock.py:70-71).

On [1, 2, 3, 4, 5] the span-4 EMA is 1, 1.4, 2.04, 2.824, 3.6944
(`SignalScenarios.RisingLongEma`).

## Model

| member | source | states |
|---|---|---|
| `MovingAverage.Alpha` | stock.py:26-27 | for a span of at least 1 the smoothing factor is in (0, 1], and it is exactly 1 only for span 1 |
| `MovingAverage.Ema` | stock.py:26-27 | the EMA series has exactly one value per closing price |
| `MovingAverage.EmaSeed` | stock.py:26-27 | the EMA starts at the first closing price, for any span |
| `MovingAverage.EmaRecurrence` | stock.py:26-27 | every later point is alpha * price + (1 - alpha) * previous point, with alpha = 2 / (span + 1) |
| `MovingAverage.EmaPrefix` | stock.py:26-27 | the EMA is causal: the EMA of the first n prices is the first n points of the EMA |
| `MovingAverage.EmaIsAdjustFalse` | stock.py:26-27 | `Ema` satisfies the pointwise statement of the `adjust=False` recurrence (length, seed, blend at each index) |
| `MovingAverage.EmaUnique` | stock.py:26-27 | any series satisfying that pointwise statement equals `Ema`, so the recurrence determines the column |
| `MovingAverage.EmaWithinRange` | stock.py:26-27 | every EMA point lies between the lowest and the highest closing price up to that index |
| `MovingAverage.EmaOfConstant` | stock.py:26-27 | a constant price series gives an EMA equal to that constant at every index |
| `MovingAverage.EmaSpanOne` | stock.py:26-27 | with span 1 the EMA is the closing-price series itself |
| `TrendSignals.Bullish` | stock.py:30 | the flag has one value per point, is always 0.0 or 1.0, and is 1.0 exactly where the short EMA is strictly above the long EMA (ties give 0.0) |
| `TrendSignals.Crossover` | stock.py:33 | the event column has one entry per point and no event at index 0, where the difference is missing |
| `TrendSignals.CrossoverTransitions` | stock.py:33 | for i >= 1 on a 0/1 flag: Buy exactly on a 0 -> 1 step, Sell exactly on a 1 -> 0 step, no event exactly when the flag is unchanged |
| `TrendSignals.TrendStartsFlat` | stock.py:26-30 | both EMAs start at the first price, so the bullish flag at index 0 is always 0.0 |
| `TrendSignals.FlagHeld` | stock.py:30-33 | over a stretch with no events the flag keeps its value |
| `TrendSignals.EventsAlternate` | stock.py:30-33 | two consecutive events always have opposite directions |
| `TrendSignals.FirstEventIsBuy` | stock.py:30-33 | on a flag that starts at 0, the first event is a Buy |
| `TrendSignals.EventBalance` | stock.py:30-33 | on a flag that starts at 0, the Buys minus the Sells up to any index equal the flag at that index |
| `TrendSignals.SignalCountBound` | stock.py:26-33 | the crossover column of a price series has its length, and holds at most len(close) - 1 Buy and Sell events in total |
| `TrendSignals.SignalsStartWithBuy` | stock.py:26-33 | in the crossover column of any price series, the first event, if any, is a Buy |
| `TrendSignals.SignalsBalance` | stock.py:26-33 | in the crossover column of any price series, the Buys minus the Sells up to an index equal the bullish flag there |
| `StockFrame.SignalColumns` | stock.py:26-33 | the derived columns are exactly ema_short, ema_long, bullish and crossover; none of them is Close, and each is as long as Close |
| `StockFrame.DataFrame.CalculateEma` | stock.py:24-33 | keeps every column as long as Close (the table stays aligned); Close is unchanged; the four columns are added or overwritten with the EMAs, the flag and the events of Close; every other column is unchanged; default spans 5 and 13 |
| `SignalScenarios.FlatPrices` | stock.py:26-33 | five prices of 10 with spans 2 and 3: both EMAs are all 10, the flag is all 0, and there are no events |
| `SignalScenarios.RisingShortEma` | stock.py:26 | prices 1..5 with span 2: the EMA is 1, 5/3, 23/9, 95/27, 365/81 |
| `SignalScenarios.RisingLongEma` | stock.py:27 | prices 1..5 with span 4: the EMA is 1, 1.4, 2.04, 2.824, 3.6944 |
| `SignalScenarios.RisingPrices` | stock.py:26-33 | prices 1..5 with spans 2 and 4: the flag is 0, 1, 1, 1, 1 and the only event is a Buy at index 1 |

## Left out

- `get_valid_symbol` (stock.py:6-12) is not modelled. It is an interactive re-prompt loop over console input, and its check relies on Python's Unicode-aware `str.isalpha` and `str.upper`.
- `get_valid_input` (stock.py:15-21) is not modelled. It is an interactive re-prompt loop that accepts any integer. The spans reach the model as plain `int` parameters.
- The price download through `yfinance` (stock.py:67) is a network call into a foreign library. The table is a constructor parameter of `DataFrame` instead.
- The empty-data branch (stock.py:70-71) lives outside `calculate_ema`. The model accepts an empty series and gives empty columns.
- `show_graph` (stock.py:36-56) is not modelled, because it is chart rendering. Its selection of markers where `crossover` is +1 or -1 corresponds to the `Buy` and `Sell` tags.
- The `__main__` block (stock.py:59-77) is not modelled. It only wires the steps above together.
- Floating-point rounding is not modelled. Prices and EMAs are exact reals, so the model's values are the exact values that the float computation approximates. The `bullish` flag and the `crossover` events jump where the two EMAs tie, so where the float EMAs nearly tie, the program's flag and events can differ from the model's.
- Missing values (NaN) inside `Close` are not modelled, nor are `min_periods` or pandas' own rejection of a span below 1. The model requires span >= 1 instead.
- The date index of the table is not modelled. It takes no part in the computation.
- `TrendSignals.Crossover`: the crossover column holds an event tag rather than the float difference. A difference other than +1, -1 or 0 would also read as `NoEvent`, but it cannot arise, because the bullish flag is always 0.0 or 1.0.
