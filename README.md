# Real-time stock dashboard: indicator and normalisation core

`dashboard.py` is a Streamlit page. It fetches 5-minute intraday bars for
one ticker from Alpha Vantage and turns the JSON into a pandas table. It adds
two simple moving averages and a 14-bar relative strength index, shows
headline metrics (last price, change, day high and low) and draws the
charts. This project models the arithmetic and data-shaping part of that
script in Dafny and proves its properties.

- `normaliser.dfy` (module `Normaliser`) models the body of
  `get_stock_data` after the JSON is decoded. If the payload has no
  "Time Series (5min)" key, the table is empty. Otherwise there is one row
  per timestamp, the five provider field names are renamed to
  Open/High/Low/Close/Volume, other fields are kept as they are, and the
  rows are sorted by timestamp. `BuildTable` takes the records in dict order
  and places each one among the rows built so far. `TableIgnoresOrder`
  proves that the table does not depend on that order.
- `indicators.dfy` (module `Indicators`) models `calculate_sma` and
  `calculate_rsi` over the Close column. A pandas missing value (NaN) is
  `None`. `RsiPoint` makes the IEEE-754 edge cases explicit. A zero mean
  loss with a positive mean gain gives +inf in the source, so the RSI
  saturates at 100. Zero mean loss and zero mean gain give NaN, so the RSI
  is missing.
- `snapshot.dfy` (module `Snapshot`) models the headline metrics of lines
  81-89. A table with fewer than two rows is an error, because `iloc[-2]`
  raises there. A previous close of 0 gives no percentage, because the
  float division yields inf or NaN.
- `dashboard.dfy` (module `Dashboard`) models the table `data` as a class.
  The script adds its SMA_Short, SMA_Long and RSI columns in place.
- `examples.dfy` (module `Examples`) holds two worked values. One is the
  RSI of a ten-bar series with a five-bar window (800/13). The other is the
  metrics of a two-bar table with closes 100 and 110.

Timestamps are abstract integers and prices are `real`. The HTTP request,
the cache decorator, the Streamlit widgets and the Plotly charts are not part
of this model.

## Model

| member | source | states |
|---|---|---|
| Normaliser.Normalise | dashboard.py:25-37 | no "Time Series (5min)" key gives the empty table; a provider name and its canonical name both among the columns is the exception pandas raises; otherwise the result is the sorted, renamed table of the series |
| Normaliser.BuildTable | dashboard.py:29-37 | the rows are exactly the series' records, renamed, each once (as a multiset), sorted strictly by timestamp, one row per record |
| Normaliser.InsertByTime | dashboard.py:37 | inserting a row whose timestamp is new keeps the rows strictly sorted and adds exactly that row |
| Normaliser.TableIgnoresOrder | dashboard.py:29-37 | two series with the same records give the same table, whatever order the dict holds them in, so normalising a payload is deterministic |
| Normaliser.Canonical | dashboard.py:30-33 | each of the five provider names goes to a canonical name from which it can be recovered; every other name is unchanged |
| Normaliser.CanonicalCollision | dashboard.py:30-33 | two distinct names rename alike only if one is a provider name and the other its canonical name |
| Normaliser.RenameMoves | dashboard.py:30-33 | without a clash, every field keeps its value under its renamed name and renaming adds no field |
| Normaliser.Columns | dashboard.py:29 | the table's columns are exactly the field names that occur in some record |
| Indicators.Sma | dashboard.py:43-45 | one entry per close, missing exactly while fewer than `window` closes are available, and all missing when the window exceeds the series |
| Indicators.SmaRollingSum | dashboard.py:45 | once the window is full, the entry is defined, and `window` times it is the running sum of the closes up to that bar minus the running sum before the window |
| Indicators.SmaWithin | dashboard.py:45 | a defined SMA value lies between the least and greatest close of its window |
| Indicators.SmaLocal | dashboard.py:45 | the entry at `i` depends only on the closes in the window ending at `i` |
| Indicators.SmaSlide | dashboard.py:45 | moving the window one bar changes window × SMA by the new close minus the dropped close |
| Indicators.Gains | dashboard.py:49-50 | gains are non-negative, positive exactly where the close rose from the previous bar, and then equal to the rise; 0 at bar 0 |
| Indicators.Losses | dashboard.py:49-51 | losses are non-negative, positive exactly where the close fell from the previous bar, and then equal to the fall; 0 at bar 0 |
| Indicators.GainLossSplit | dashboard.py:49-51 | at each bar at most one of gain and loss is non-zero, both are 0 at bar 0, and gain − loss is the close-to-close difference |
| Indicators.RsiPoint | dashboard.py:52-53 | missing exactly when both means are 0; otherwise equal to 100·g/(g+l) within [0,100]; below 100 and 0 exactly when g is 0 whenever the mean loss is positive |
| Indicators.RsiClosedForm | dashboard.py:52-53 | the textbook form 100 − 100/(1 + g/l) equals 100·g/(g+l) for a positive mean loss |
| Indicators.Rsi | dashboard.py:47-53 | one entry per close, missing while the window is not full, and every defined value within [0,100] |
| Indicators.RsiCases | dashboard.py:50-53 | once the window is full the entry is `RsiPoint` of the trailing mean gain and loss: in [0,100) and 0 exactly when the mean gain is 0 if the mean loss is positive, 100 if only the mean gain is positive, missing if both are 0 |
| Indicators.AvgGainZeroIff | dashboard.py:50 | the trailing mean gain is 0 exactly when the close never rose within the window |
| Indicators.AvgLossZeroIff | dashboard.py:51 | the trailing mean loss is 0 exactly when the close never fell within the window |
| Indicators.RsiMissingIffFlat | dashboard.py:49-53 | once the window is full, the RSI is missing exactly when the close did not move within the window |
| Indicators.RsiHundredIff | dashboard.py:49-53 | once the window is full, the RSI is 100 exactly when the close rose within the window and never fell |
| Indicators.RsiZeroIff | dashboard.py:49-53 | once the window is full, the RSI is 0 exactly when the close fell within the window and never rose |
| Snapshot.Headline | dashboard.py:81-89 | an error exactly when there are fewer than two rows; otherwise the last and previous close, a change that takes the previous close to the last, a percentage with pct × prev = 100 × change (none when prev is 0), and a day high and day low that bound every High and Low and are attained |
| Snapshot.ColumnMax | dashboard.py:88 | the result is at least every value of the column and is one of them |
| Snapshot.ColumnMin | dashboard.py:89 | the result is at most every value of the column and is one of them |
| Dashboard.Frame.Column | dashboard.py:45 | a field column exists exactly when every row has the field, and it holds each row's value in row order |
| Dashboard.Frame.Lookup | dashboard.py:45 | a column the script added shadows any record field of that name; otherwise the column is the field column; a column always has one entry per row |
| Dashboard.Frame.AddColumn | dashboard.py:76-78 | after `data[name] = values` the column `name` reads `values`, replacing a record field of that name, and every other column reads as before |
| Dashboard.Frame.AddIndicators | dashboard.py:76-78 | the columns SMA_Short, SMA_Long and RSI read the two SMAs and the 14-bar RSI of the old Close column, replacing record fields of those names; every other column reads as before |
| Examples.RsiOfTenBars | dashboard.py:47-53 | the 5-bar RSI at the last of the closes 44, 44.5, 43, 45, 45.5, 45, 46, 45.5, 46.5, 46.25 is 800/13 |
| Examples.TwoBarHeadline | dashboard.py:81-89 | closes 100 then 110 give a change of 10 and 10 percent |

## Left out

- The HTTP request, `raise_for_status`, JSON decoding and the `RequestException` handler (lines 14-24, 38-40) are network I/O. The model starts from the decoded payload.
- `@st.cache_data(ttl=600)` (line 11) is a library cache with time-based expiry.
- Streamlit widgets, messages, layout and number formatting (lines 8, 56-69, 86-89, 127-131), and the Plotly figures (lines 92-124), are UI.
- `pd.to_datetime` and `pd.to_numeric` (lines 34-36) parse strings. Timestamps are abstract integers and field values are already `real`. A malformed string, on which pandas raises, is not modelled.
- Floating point: the model uses exact reals. The rounding of pandas' rolling sums is not modelled. NaN and inf appear only where the source produces them (RSI edge cases, percentage over a zero close), as `None` or the saturated 100.
- NaN inside a column: a record lacking a field leaves NaN in that row's column in pandas. Rolling means and `max`/`min` then treat it in their own ways. The model keeps rows as field maps and computes indicators only over columns that every row has.
- Dashboard.Frame.AddIndicators: requires every row to have a Close field. The source raises KeyError when no record has one and computes with NaN when only some lack it. Neither is modelled.
- Normaliser.Normalise: requires distinct keys of the series to parse to distinct instants. This holds for the provider's fixed "YYYY-MM-DD HH:MM:SS" format. `pd.to_datetime` (line 34) can map two spellings of one instant to the same timestamp, and `sort_index` (line 37) then keeps both rows. That case is not modelled.
- Indicators.Sma: requires a window of at least 1. The script passes windows from its sliders (5-50 and 50-200) and the RSI default of 14.
- The script's top-level flow (lines 67-74, 130-131) is not modelled as an operation: stop without an API key, and run indicators and metrics only on a non-empty table. `Snapshot.Headline` still returns its error for the empty table.
