# STOCK-SAVVY analytics core in Dafny

`sstock.py` downloads a year of prices for four tickers. It turns the download
into a long table and derives daily returns, moving averages and a Monte-Carlo
"efficient frontier", then shows six plots in a Tk window with Back and Next
buttons. This project models the exact, sequential logic under the I/O and the
drawing, and proves what that logic promises:

- **CompoundKey**: the flattened column name `ticker_attribute` and Python's
  `str.split('_')`. Split and join are inverse, and a key splits into exactly
  (ticker, attribute) if and only if neither part contains `'_'`.
- **TickerOrder**: the (Date, Ticker) order pandas sorts group keys in. Dates
  are integers; tickers use Python's string comparison.
- **Pivot**: `pivot_table(..., aggfunc='first')` as a left fold that inserts
  each cell into a sorted list of (Date, Ticker) rows. The result is sorted, so
  each key appears at most once. No row is empty, and every cell holds the first
  non-missing value of its group, so nothing is invented and duplicates keep
  the first value.
- **Normalize**: the wide-to-long pipeline of lines 16-22 (flatten, melt,
  split, pivot), with the error the two-column assignment raises when a name
  does not split in two. The round trip states that the long table holds
  exactly the wide table's values.
- **DailyReturns**: a single pass models the grouped `pct_change`. Each row is
  compared with the previous row of its own ticker, and a ticker's first row
  has no return.
- **MovingAverage**: the trailing 50- and 200-day mean over one ticker's rows.
- **RealSeq**, **Vectors**: sums, means and sample variance, plus the numpy
  vector and matrix operations the frontier uses, with their algebraic laws
  (the adjoint identity `y·(Mw) == (Mᵀy)·w` among them).
- **Portfolio**: expected returns (`mean() * 252`), the annualised sample
  covariance (`cov() * 252`), weight normalisation, the portfolio return and the
  quadratic form `wᵀΣw`. The quadratic form is 252 times the sample variance of
  the portfolio's daily series, so it is never negative.
- **Frontier**: the imperative loop of `plot_efficient_frontier`. Weights are
  normalised in place in an `array`, and column `i` of a `3 × 10000` `array2` is
  written in iteration `i` without touching the other columns.
- **Viewer**: the `StockApp` class. The index of the plot on screen always
  stays within the six plots. Next and Back move it by one and stop at the ends.

Reals are exact, so there is no rounding. Dates are integers. The random
weights (`np.random.random`) are a parameter of the frontier: one vector per
simulated portfolio. The returns matrix that `plot_efficient_frontier` pivots
from the long table (line 76) is an input: a complete `rows × n` matrix, one row
per date and one column per ticker with at least two prices (a ticker whose
returns are all missing gets no column).

## Model

| member | source | states |
|---|---|---|
| CompoundKey.Split | sstock.py:19 | `str.split('_')` gives one piece more than there are separators, and no piece contains the separator |
| CompoundKey.Key | sstock.py:17 | the flattened name `f"{ticker}_{attribute}"` is `'_'.join([ticker, attribute])` |
| CompoundKey.JoinSplit | sstock.py:19 | joining the pieces of a split with the separator gives back the original name |
| CompoundKey.SplitJoin | sstock.py:17-19 | splitting a join of pieces that contain no separator gives back the pieces |
| CompoundKey.KeyRoundTrip | sstock.py:17-19 | a key whose ticker and attribute contain no `'_'` splits back into exactly `[ticker, attribute]` |
| CompoundKey.KeyPieces | sstock.py:17-19 | a key always splits into at least two pieces, and into exactly two if and only if neither part holds `'_'` |
| TickerOrder.LessIrreflexive | sstock.py:21 | Python's string `<` is irreflexive |
| TickerOrder.LessTransitive | sstock.py:21 | Python's string `<` is transitive |
| TickerOrder.LessTotal | sstock.py:21 | any two strings are equal or ordered one way or the other |
| TickerOrder.BeforeIrreflexive | sstock.py:21 | no (Date, Ticker) key sorts before itself |
| TickerOrder.BeforeTransitive | sstock.py:21 | the (Date, Ticker) order is transitive |
| TickerOrder.BeforeTotal | sstock.py:21 | any two (Date, Ticker) keys are equal or ordered |
| Pivot.PlaceBounded | sstock.py:21 | inserting a cell keeps every row above a lower bound of both the rows and the new key |
| Pivot.PlaceSorted | sstock.py:21 | inserting one cell keeps the rows strictly sorted by (Date, Ticker) with no empty row |
| Pivot.PlaceLookup | sstock.py:21 | after inserting (d, t, a, v), cell (d, t, a) holds `v` if it was empty and keeps its first value otherwise, and every other cell is unchanged |
| Pivot.LookupAbsent | sstock.py:21 | a key that no row carries reads as missing in every column |
| Pivot.FirstValueSnoc | sstock.py:21 | a later cell changes a group's `first` value only when the group had no value yet |
| Pivot.FirstValueSource | sstock.py:21-22 | a group's first value is the value of some non-missing cell of that group |
| Pivot.FirstValueExists | sstock.py:21 | a group that has a non-missing cell has a first value |
| Pivot.FirstValueIsEarliest | sstock.py:21 | the first value is the earliest non-missing value of the group in cell order |
| Pivot.FirstValueUniform | sstock.py:21 | when all cells of a group agree, the group's value is that common value, or missing when the group has no cells |
| Pivot.PivotLookup | sstock.py:21-22 | the pivoted table is sorted by (Date, Ticker), so each pair appears at most once; no row is empty; every cell is the `aggfunc='first'` value of its group |
| Pivot.LookupRow | sstock.py:21-22 | in a sorted table, looking up a row's own key reads that row |
| Pivot.LookupHasRow | sstock.py:21-22 | a lookup that finds a value found it in a row with that key |
| Pivot.PivotRows | sstock.py:21-22 | the pivot has a row for (d, t) exactly when some cell with that Date and Ticker holds a value: no row is fabricated and none is lost |
| Normalize.FlatNameInjective | sstock.py:17 | when no name part holds `'_'`, two columns get the same flattened name exactly when they are the same (attribute, ticker) pair |
| Normalize.FlatNamesUnique | sstock.py:17 | under the same condition, the flattened names are pairwise distinct exactly when the header pairs are, so flattening loses no column |
| Normalize.Melt | sstock.py:18 | `melt(id_vars=['Date'])` has exactly `columns × rows` rows |
| Normalize.MeltAt | sstock.py:18 | the melted row of wide row `i` and column `j` sits at `j * rows + i` and keeps its date, name and value |
| Normalize.MeltHas | sstock.py:18 | every (row, column) pair of the wide table has its melted row |
| Normalize.MeltFrom | sstock.py:18 | every melted row comes from one wide row and one column |
| Normalize.SplitWidth | sstock.py:19 | `expand=True` makes as many columns as the longest split, and none when there are no rows |
| Normalize.TidyAt | sstock.py:19-20 | when every name splits in two, the tidy cells are the melted rows one for one, with Ticker and Attribute in place of the compound name |
| Normalize.Normalize | sstock.py:16-22 | a successful normalisation is sorted by (Date, Ticker) with no empty row; an error reports a split width other than two |
| Normalize.NormalizeOkIff | sstock.py:16-22 | normalisation succeeds if and only if the table has a row and a column and no ticker or attribute contains `'_'` |
| Normalize.CellAt | sstock.py:18-19 | the cell of wide row `i` and column `j` appears as a long cell with its date, ticker, attribute and value |
| Normalize.CellFrom | sstock.py:18-19 | every long cell is the cell of some wide row and column |
| Normalize.AllKeysSplitInTwo | sstock.py:17-19 | when no name part contains `'_'`, every melted name splits into exactly two pieces |
| Normalize.NormalizeRows | sstock.py:16-22 | the long table has a row for (d, t) exactly when some wide row dated `d` has a value for ticker `t`; a ticker that came back empty gets no rows |
| Normalize.RowOf | sstock.py:16-22 | the first wide row with the given date, or a proof that there is none; one of the two lookups that define `WideValue`, the reference side of the round trip (not a model of `reset_index`) |
| Normalize.ColumnOf | sstock.py:16-22 | the first column of an (attribute, ticker) pair, or a proof that there is none; the other lookup that defines `WideValue` (not a model of the column renaming) |
| Normalize.NormalizeRoundTrip | sstock.py:16-22 | for one row per date and one column per pair, with no `'_'` in names, the long table holds exactly the wide table's value in every (Date, Ticker, Attribute) cell |
| Normalize.RoundTripCell | sstock.py:16-22 | the `first` value of each (Date, Ticker, Attribute) group is that wide-table cell |
| DailyReturns.LastPriceIsLastOfSeries | sstock.py:26 | the last price seen for a ticker is the last entry of that ticker's price series |
| DailyReturns.PctChangeSnoc | sstock.py:26 | one more price extends `pct_change` by exactly its change from the previous price |
| DailyReturns.GroupwiseReturns | sstock.py:26 | the returns read on ticker t's rows are `pct_change` of t's own prices: groups never mix |
| DailyReturns.FirstRowUndefined | sstock.py:26 | the first row of every ticker has no return |
| DailyReturns.PreviousRowOfTicker | sstock.py:26 | a later row's return is `x[i] / x[j] - 1`, where `j` is the closest earlier row of the same ticker |
| DailyReturns.NoEarlierRow | sstock.py:26 | a ticker with no earlier row has no previous price |
| DailyReturns.LastRowOfTicker | sstock.py:26 | the previous price of a ticker is the price of its last earlier row |
| DailyReturns.GroupedPctChangePrefix | sstock.py:26 | the returns of a prefix of the table are the prefix of the returns |
| DailyReturns.ReturnsExample | sstock.py:26 | prices [100, 110, 99] give [undefined, 0.1, -0.1] |
| DailyReturns.TickerRowsByDate | sstock.py:21-26 | in the pivoted table the rows of one ticker are in strictly increasing date order, so `pct_change` compares consecutive trading days |
| DailyReturns.ReturnOnPreviousDay | sstock.py:21-26 | on the pivoted long table, the closest earlier row of a row's ticker has an earlier date, and the row's `Daily Return` is its `Adj Close` over that row's, minus one |
| DailyReturns.FirstDayUndefined | sstock.py:21-26 | on the pivoted long table, the earliest row of each ticker has no `Daily Return` |
| MovingAverage.RollingMean | sstock.py:41-42 | the rolling mean has one entry per price |
| MovingAverage.RollingMeanWindow | sstock.py:41-42 | entry `i` is undefined exactly when `i < W - 1`, and otherwise is the mean of the last `W` prices |
| MovingAverage.RollingMeanBounds | sstock.py:41-42 | a defined entry lies between any lower and upper bound of its window |
| MovingAverage.RollingMeanSlide | sstock.py:41-42 | consecutive entries differ by (entering price − leaving price) / W |
| MovingAverage.RollingMeanExample | sstock.py:41-42 | window 3 over [1, 2, 3, 4, 5] gives [undefined, undefined, 2, 3, 4] |
| MovingAverage.TickerMovingAverage | sstock.py:40-42 | the average of ticker t has one entry per row of t, undefined exactly for the first `W - 1`, and entry `i` is otherwise the mean of t's prices at rows `i + 1 - W` to `i` |
| MovingAverage.MovingAverages | sstock.py:37-42 | the 50- and 200-day averages of a ticker have its length, are undefined exactly for the first 49 and 199 rows, and are otherwise the means of the last 50 and 200 prices |
| RealSeq.MeanBounds | sstock.py:41 | the mean of values between `lo` and `hi` lies between `lo` and `hi` |
| RealSeq.SumSqNonNegative | sstock.py:78 | a sum of squares is never negative |
| Vectors.Min | sstock.py:84 | the smallest entry: at most every entry, and equal to one of them |
| Vectors.Max | sstock.py:84 | the largest entry: at least every entry, and equal to one of them |
| Vectors.DotComm | sstock.py:84 | `np.dot` of two vectors is symmetric |
| Vectors.DotBounds | sstock.py:84 | with non-negative weights, `lo * Σw <= w·v <= hi * Σw` when every entry of `v` lies in `[lo, hi]` |
| Vectors.Adjoint | sstock.py:85 | `y·(Mw) == (Mᵀy)·w` |
| Portfolio.NormalisedWeights | sstock.py:83 | non-negative draws with a positive total normalise to non-negative weights that sum to exactly one |
| Portfolio.ReturnBetweenExtremes | sstock.py:84 | with such weights, `np.dot(weights, expected_returns)` lies between the smallest and the largest expected return |
| Portfolio.AnnualCovarianceSymmetric | sstock.py:78 | `cov() * 252` is symmetric |
| Portfolio.CovarianceDiagonal | sstock.py:78 | the diagonal of the covariance holds each ticker's sample variance (`ddof=1`) |
| Portfolio.SumOfSeries | sstock.py:77 | the total of the weighted daily series is the weighted sum of the column totals |
| Portfolio.MeanOfSeries | sstock.py:77 | the mean of the weighted daily series is the weighted sum of the tickers' means |
| Portfolio.ExpectedPortfolioReturn | sstock.py:77-84 | `np.dot(weights, mean() * 252)` is 252 times the mean daily return of the weighted portfolio |
| Portfolio.CenteredSeries | sstock.py:77-78 | combining the deviations from the means by the weights centres the portfolio's daily series |
| Portfolio.CovarianceRow | sstock.py:78 | row `a` of `cov() * 252` is `252 / (rows - 1)` times `Dᵀ` applied to column `a` of the deviations `D` |
| Portfolio.CovarianceTimesWeights | sstock.py:78-85 | `np.dot(cov_matrix, weights)` is `252 / (rows - 1)` times `Dᵀ(Dw)` |
| Portfolio.ScaledGramTimes | sstock.py:78-85 | a matrix whose rows are `c Dᵀ(column a of D)` maps `w` to `c Dᵀ(Dw)` |
| Portfolio.QuadFormOfScaledGram | sstock.py:85 | if `Cw == c Dᵀ(Dw)`, then `wᵀCw` is `c` times the sum of squares of `Dw` |
| Portfolio.PortfolioVariance | sstock.py:77-85 | `wᵀ (cov() * 252) w` is 252 times the sample variance of the portfolio's daily series, so it is never negative |
| Frontier.Ratio | sstock.py:88 | the colour value has the sign of the return when the variance is positive; a zero variance gives +inf, -inf or NaN by the sign of the return; a negative variance gives NaN |
| Frontier.RatioOfVolatility | sstock.py:85-88 | with volatility `vol > 0` and variance `vol²`, the stored value is `(ret / vol) · |ret / vol|` |
| Frontier.NormaliseInPlace | sstock.py:83 | `weights /= np.sum(weights)` leaves the array equal to the draw divided by its total |
| Frontier.RecordSample | sstock.py:86-88 | writes return, variance and ratio into column `i` and leaves every other column unchanged |
| Frontier.EfficientFrontier | sstock.py:79-88 | a fresh `3 × 10000` results array whose column `i` holds the return, variance and ratio of normalised draw `i` |
| Frontier.SampleReturnBounds | sstock.py:82-84 | every simulated portfolio's return lies between the smallest and the largest expected return |
| Frontier.SampleStatistics | sstock.py:84-88 | the stored return is 252 × the mean daily return of the weighted portfolio, and the stored variance is 252 × its sample variance, never negative; with a positive variance the colour value has the return's sign |
| Frontier.PortfolioReturnAsWritten | sstock.py:82-84 | with weights sized by the four configured tickers, the return step succeeds exactly when the returns table has four columns |
| Frontier.MissingTickerBreaksReturn | sstock.py:82-84 | with three tickers present, the as-written return step raises for every vector of expected returns and every draw |
| Viewer.PressInRange | sstock.py:126-134 | from a valid index, Next moves forward by one unless on the last plot, where it stays; Back moves back by one unless on the first plot, where it stays; the result is a valid index |
| Viewer.RunInRange | sstock.py:104-134 | any sequence of button presses from a valid index keeps the index within the list |
| Viewer.NextThenBack | sstock.py:126-134 | Next then Back returns to the same plot, except on the last plot |
| Viewer.BackThenNext | sstock.py:126-134 | Back then Next returns to the same plot, except on the first plot |
| Viewer.NextReachesLast | sstock.py:126-129 | `k` presses of Next move `k` plots forward while the end is not passed |
| Viewer.StockApp.constructor | sstock.py:102-119 | the window opens with the six plots in their order, on index 0, having drawn the first plot |
| Viewer.StockApp.UpdatePlot | sstock.py:121-124 | draws the current plot and changes neither the list nor the index |
| Viewer.StockApp.NextPlot | sstock.py:126-129 | the index moves to the next plot and that plot is drawn, except on the last plot, where nothing happens; the index stays valid |
| Viewer.StockApp.PreviousPlot | sstock.py:131-134 | the index moves to the previous plot and that plot is drawn, except on the first plot, where nothing happens; the index stays valid |

## Left out

- Download and dates (sstock.py:12-15): `yf.download` is network I/O and `date.today()` is the clock. The wide table is an input.
- Drawing and the window (sstock.py:29-34, 43-49, 51-67, 72-73, 89-93, 97-124, 137-140): matplotlib, seaborn and the Tk widgets are presentation. `UpdatePlot` records the plot drawn instead of drawing it.
- `pd.to_datetime` (sstock.py:25): dates are integers in their order.
- `np.random.random` (sstock.py:82): the draws are a parameter, one vector per portfolio.
- `np.sqrt` (sstock.py:85) and the correlation matrix (sstock.py:69-71): reals have no square root here. Row 1 of the results holds the variance, the square of the plotted volatility.
- Frontier.Ratio: stores the signed square `ret·|ret| / variance` of the ratio `ret / sqrt(variance)`, not the ratio itself. The two have the same sign and order, and Frontier.RatioOfVolatility links them.
- The returns matrix (sstock.py:76): taken as complete. The NaN first-day returns, and the pairwise-complete observations `cov()` uses when tickers miss different dates, are not modelled.
- Frontier.EfficientFrontier: requires at least two dates. With fewer, pandas' `cov()` gives NaN, and NaN propagation is not modelled.
- Frontier.EfficientFrontier: requires every draw to have a non-zero total. An all-zero draw, which numpy would turn into NaN weights, is excluded.
- IEEE floating point: rounding is not modelled. A zero previous price gives an undefined daily return: numpy gives NaN for `0 / 0`, which the model matches, but ±inf when the current price is non-zero, which the model does not distinguish. A missing `Adj Close` in the long table is not modelled: the daily returns require the column to be present.
- In these places the model follows the code as written:
  - the daily returns rely on the pivot's (Date, Ticker) order instead of sorting each ticker by date (DailyReturns.ReturnOnPreviousDay shows that this order is the date order within each ticker);
  - no negative variance is clamped before the square root (in exact arithmetic the variance is never negative: Portfolio.PortfolioVariance);
  - the return step of the frontier, in Frontier.PortfolioReturnAsWritten and Frontier.MissingTickerBreaksReturn, sizes the weights by the four configured tickers as line 82 does, and so does not tolerate a missing ticker (see Findings); Frontier.EfficientFrontier is the corrected loop, with one weight per column present.

## Findings

| source | as written | input that shows it | evidently intended | confidence | as-written member | corrected member |
|---|---|---|---|---|---|---|
| sstock.py:82-84 | `np.random.random(len(tickers))` sizes the weights by the four configured tickers | a download where one ticker has no prices: `daily_returns` then has three columns, and `np.dot(weights, expected_returns)` raises on the shape mismatch | one weight per column of `daily_returns` | medium, not executed | Frontier.MissingTickerBreaksReturn | Frontier.EfficientFrontier |

The corrected loop draws one weight per column present. Frontier.SampleReturnBounds and Frontier.SampleStatistics prove that, for any number of columns, each portfolio's return is defined and lies between the extreme expected returns, and that its variance is never negative.
