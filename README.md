# Naive SMA projection of the BTC price dashboard

The dashboard script downloads daily BTC-USD closes, loads two forecast files
and draws a chart. Its one piece of original logic is the "SMA" trace: a
14-day projection that extends the table of real closes one day at a time.
Each new close is the trailing 5-row mean of the closes before it, and from
the sixth projected day on those closes are themselves projected values.

This project models that projection:

- `table.dfy` (module `Table`): the rows of `btc_data` (`Quote`: date, close)
  and of `btc_future_data` (`Row`: date, close, SMA). Timestamps are whole
  seconds. Prices are `real`. A pandas NaN is `None`.
- `rolling.dfy` (module `Rolling`): `rolling(window=w).mean()` with its
  default `min_periods = w`. `TrailingMean(closes, end, w)` is the value the
  rolling mean puts in row `end - 1`. It is undefined when fewer than `w`
  rows end there or one of them is undefined. `WithSma` is the SMA column
  assignment of main.py:45. Lemmas: bounds of a mean, independence from later
  rows, and propagation of an undefined value.
- `projection.dfy` (module `Projection`): the constants `projection_days`
  (14) and `window` (5), the `future_dates` comprehension (`FutureDates`),
  the recurrence on the Close column (`Extend`) and its properties, and the
  loop itself (`Project`). `Project` is a method with a `while` loop over a
  growing `seq<Row>`. Each pass overwrites the SMA column, reads its last
  cell and appends one row. The loop invariant `AfterPasses` and the
  postcondition `IsProjection` describe the whole table.

The number of days is a parameter `horizon` of `Project`. The script runs it
with `ProjectionDays` (14); `ScriptProjection` states that case. The
parameter also covers `horizon = 0`.

Where the code does something other than one might expect, the model follows
the code:

- The projected dates are `last real date + 86400 * i` for `i = 0 .. 13`
  (main.py:40). So the first projected row repeats the last real date, and
  the last one is 13 days after it. It is not "last date + 1 day .. + 14 days".
- There is no error for a short history. With 1 to 4 real rows, or an
  undefined close among the last 5, every projected close and SMA is
  undefined (`ShortHistoryTable`, `ExtendDefinedIff`). The only failure
  is an empty table with `horizon > 0`: `btc_data['Date'].iloc[-1]` raises
  (`Err(NoLastDate)`). With `horizon = 0` the comprehension body never runs,
  so an empty table is not an error.
- The SMA column of the final table is the rolling mean of the final Close
  column on every row except the last. The last row keeps the value it was
  appended with, which equals its close. With `horizon = 0` the column is
  never created (`None` on every row).

## Model

| member | source | states |
|---|---|---|
| Projection.FutureDates | main.py:40 | `future_dates` has exactly `n` entries; the first is the last real date (offset 0), each next one is one day (86400 s) later; it fails only when `n > 0` and the table is empty |
| Projection.Extend | main.py:42-49 | after `n` passes the Close column has `n` more rows and its real closes are unchanged |
| Projection.ExtendPrefix | main.py:42-49 | later passes never change the closes earlier passes produced; the loop only appends |
| Projection.ExtendStep | main.py:45-48 | every projected close equals the mean of the 5 closes just before it in the final column; from the sixth projected close on, those are all projected closes |
| Projection.ExtendWithin | main.py:45-48 | if the last 5 real closes are defined and lie in [lo, hi], every projected close is defined and lies in [lo, hi] |
| Projection.ExtendBetweenMinMax | main.py:45-48 | if the last 5 real closes are defined, every projected close lies between their minimum and their maximum |
| Projection.ExtendConstant | main.py:45-48 | if the last 5 real closes all equal c, every projected close equals c |
| Projection.ExtendUndefined | main.py:45-48 | if the first projected close is undefined, so is every later one |
| Projection.ShortHistoryUndefined | main.py:45-48 | with fewer than 5 real closes, every close the recurrence appends is undefined (an empty table fails earlier, in `Project`) |
| Projection.UndefinedProjectedRows | main.py:45-49 | when the last 5 real closes are not all defined (fewer than 5 rows, or an undefined one among them), a table whose Close column follows the recurrence and whose SMA column is as the last pass left it has an undefined Close and an undefined SMA on every projected row |
| Projection.ShortHistoryTable | main.py:45-49 | with 1 to 4 real rows, or an undefined close among the last 5, and at least one projected day, every projected row of the projection has an undefined Close and an undefined SMA, and no error is raised |
| Projection.ExtendDefined | main.py:45-48 | if the last 5 real closes are defined, every projected close is defined |
| Projection.ExtendDefinedIff | main.py:45-48 | a projected close is defined if and only if there are at least 5 real rows and the last 5 real closes are all defined |
| Projection.ExampleFlattens | main.py:37-49 | closes 100, 102, 98, 101, 99 project to 100 and then 100 again |
| Projection.Pass | main.py:45-49 | one pass appends the trailing mean of the whole Close column; afterwards every SMA cell but the last is the rolling mean of the new table, and the last SMA equals its close |
| Projection.PassStep | main.py:43-49 | one pass takes the table from its state after `i` passes to its state after `i + 1` passes, dated with `future_dates[i]` |
| Projection.ProjectedCloses | main.py:45-49 | a table whose Close column follows the recurrence keeps the real closes, and each projected close is the mean of the 5 closes before it |
| Projection.ProjectedDates | main.py:40-48 | a table whose projected rows carry `future_dates` in order has its first projected date on the last real date, and each next one a day later |
| Projection.Projected | main.py:42-49 | the table left by all `horizon` passes satisfies `IsProjection`: `len(btc_data) + horizon` rows; the real dates and closes unchanged; the first projected date equal to the last real date and the next ones a day apart; the Close column given by the recurrence, each projected close the mean of the 5 closes before it; every SMA cell but the last the rolling mean of the final Close column, the last one equal to its close; no SMA column when `horizon = 0` |
| Projection.ProjectedDateAt | main.py:40-48 | when the first projected date is the last real date and the next ones a day apart (as `IsProjection` states), the i-th projected row is dated exactly i days (i * 86400 s) after the last real date |
| Projection.ScriptProjection | main.py:10-49 | with `projection_days = 14` the table gains 14 rows, the first dated on the last real date and the last 13 days after it |
| Projection.Project | main.py:40-49 | fails (IndexError on `iloc[-1]`) exactly when the table is empty and `horizon > 0`; otherwise returns a table satisfying `IsProjection` (see `Projection.Projected`) |
| Rolling.TrailingMean | main.py:45 | the rolling mean at a row is defined exactly when at least `w` rows end there and all `w` closes are defined, and then `w` times it is the sum of those `w` closes |
| Rolling.WithSma | main.py:45 | the SMA column assignment keeps every row's date and close and sets its SMA to the trailing `w`-mean of the Close column ending at that row |
| Table.Copy | main.py:24 | `btc_data.copy()` has the same rows, dates and closes, and no SMA value yet |
| Rolling.MeanWithin | main.py:45 | a trailing mean over `w` defined closes that lie in [lo, hi] is defined and lies in [lo, hi] |
| Rolling.TrailingMeanPrefix | main.py:45-49 | appending rows does not change the rolling mean of earlier rows |
| Rolling.UndefinedLast | main.py:45 | a window that ends with an undefined close has an undefined mean |

## Left out

- The market-data download and the column reshaping (main.py:16-22): network I/O through a third-party library. The model starts from the (Date, Close) table.
- Loading the two forecast CSV files (main.py:27-34): file I/O, with no validation in the code.
- The Streamlit title and header, the Plotly figure, its traces and slices, the "today" marker and the layout (main.py:12-13, 52-117): UI rendering and the wall clock.
- Floating-point rounding: closes and means are `real`, so the model says nothing about bit-level equality with pandas' rolling mean.
- Timestamps are integer seconds; the conversions through `pd.Timestamp`, `timestamp()` and `pd.to_datetime(..., unit='s')` are taken as exact.
- pandas internals (`rolling`, `concat`, `copy`): modelled as the sequence operations they perform on this table, not as general pandas semantics.
