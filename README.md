# Portfolio prediction pipeline — Dafny model

This project models `predict_portfolio`, the per-row pipeline of the
PortfolioManagement repository. There are two copies of it: the web variant in
`app.py` uses a 0.5 % recommendation threshold, and the script variant in
`portfolio_prediction.py` uses 1.0 %. For each portfolio row, in order, the
pipeline:

- skips the row if the symbol has no model file or its 60-day download is empty;
- builds the lag-1 feature (`shift(1)` and then `dropna`) and takes the last close;
- asks the symbol's model for the next close;
- computes the percentage change and classifies it as BUY, SELL or HOLD;
- appends a summary record;
- renders a chart whose colour is chosen by the row's original index.

At the end it returns the summary and one chart path for every portfolio row,
skipped rows included.

Modules:

- `Recommendation` (recommendation.dfy): the shared policy, the percentage
  change `ChangePct` and its classification `Classify`, which takes the
  threshold as a parameter.
- `Features` (features.dfy): the lag column (`Shift`) and the row filter
  (`DropNa`) over the downloaded closes.
- `Pipeline` (pipeline.dfy): the loop `PredictPortfolio`, with its body in
  `PredictRow`, proved against `RunPrefix`. `RunPrefix` is the state after the first n rows, defined from
  `ProcessRow`, a per-row reference stated directly on the downloaded closes.
  Lemmas connect `RunPrefix` to the front-recursive reference `Summary` and
  to the rendered charts.
- `App` (app.dfy) and `PortfolioPrediction` (portfolio_prediction.dfy): the
  two variants. Each fixes its threshold and restates the guarantees for it.
- `Wrappers` (wrappers.dfy): `Option`.

External collaborators are parameters, bundled in `Pipeline.Env`:

- `hasModel` stands for `os.path.exists` on `models/<symbol>_model.pkl`.
- `download` stands for the close column of `yf.download(symbol, period="60d", interval="1d")`.
- `predict` stands for the loaded model's `predict` on a single feature.

The charts written to disk are returned as the `rendered` log of the method.

Behaviour of the code that the model keeps:

- The code guards neither a series that is too short after the lag step nor
  a zero last close. A one-point series leaves an empty frame, so `iloc[-1]`
  raises `IndexError` (app.py:42). A zero last close makes the division raise
  `ZeroDivisionError` (app.py:48). Either exception ends the whole run, so
  the model returns `Aborted` with the failing row. The charts already saved
  stay in `rendered`.
- A chart plots the frame after `dropna` (app.py:69), which lacks the first
  close, so a chart's `series` is `closes[1..]`.
- The returned chart list has a path for every row, including rows for which
  no chart was rendered (`ChartPathsIncludeSkippedRows`). The returned paths
  are `charts/<symbol>_trend.png`. The written ones are
  `static/charts/<symbol>_trend.png`.

## Model

| member | source | states |
|---|---|---|
| `Recommendation.ChangePctMeaning` | app.py:48 | for a non-zero last close, the change times the last close equals 100 times (forecast − last close); for a positive last close, the change is positive iff the forecast is above the last close, and zero iff they are equal |
| `Recommendation.Classify` | app.py:50-56 | BUY iff change > threshold; SELL iff change < −threshold and not BUY; HOLD iff −threshold ≤ change ≤ threshold |
| `Recommendation.ClassifySymmetric` | portfolio_prediction.py:47-53 | with a non-negative threshold: SELL iff change < −threshold; exactly ±threshold gives HOLD; negating the change swaps BUY and SELL |
| `Recommendation.ClassifyMonotone` | portfolio_prediction.py:47-53 | a larger change never gives a weaker recommendation (SELL < HOLD < BUY) |
| `Recommendation.ClassifyByPrices` | portfolio_prediction.py:44-53 | for a positive last close: BUY iff forecast > last·(1 + θ/100), SELL iff forecast < last·(1 − θ/100) |
| `Recommendation.WorkedExamples` | app.py:47-56 | 100→102 gives +2 % and BUY; 100→100.3 gives +0.3 % and HOLD; 0.5 and −0.5 give HOLD; 0.500001 gives BUY; −0.500001 gives SELL (θ = 0.5) |
| `Recommendation.ChangePct` | app.py:48 | the definition `(forecast − last close) / last close · 100`, defined only for a non-zero last close; its meaning is stated by `ChangePctMeaning` |
| `Recommendation.Label` | app.py:51-56 | the column text `BUY 🟢`, `SELL 🔴`, `HOLD 🟡` of each recommendation (a definition; `LabelsDistinct` states that no information is lost) |
| `Recommendation.LabelsDistinct` | app.py:51-56 | different recommendations are written as different column labels |
| `Features.Shift` | app.py:40 | `shift(1)`: one row per close, holding that close; the first row has no lag value and row k ≥ 1 has close k−1 |
| `Features.Closes` | app.py:42 | the close column: one value per row, row k's close |
| `Features.DropNa` | app.py:41 | keeps at most as many rows as it was given, only rows with a lag value, and only rows of the input |
| `Features.DropNaKeepsPresent` | app.py:41 | every row whose lag value is present survives `dropna` |
| `Features.DropNaKeepsComplete` | portfolio_prediction.py:38 | a frame with no missing lag value passes through `dropna` unchanged |
| `Features.LagDropsFirstRow` | app.py:40-41 | after `shift(1)` and `dropna`, exactly the first row is gone: row k is close k+1 with lag close k, and the close column is `closes[1..]` |
| `Features.LastCloseAfterLag` | portfolio_prediction.py:37-39 | a one-point series leaves no row; with two or more points the last remaining close is the final downloaded close |
| `Pipeline.ColorFor` | app.py:68 | the chart colour is one of the eight palette colours |
| `Pipeline.ColorPeriodic` | portfolio_prediction.py:66 | the colour repeats every eight rows, and row i < 8 gets palette entry i |
| `Pipeline.ReturnedChartPath` | app.py:88 | a returned path is `charts/`, then the symbol, then `_trend.png`, so the symbol can be read back from it |
| `Pipeline.WrittenChartPath` | app.py:78 | the file a chart is saved to (a definition; its shape is stated by `WrittenChartPathShape`) |
| `Pipeline.WrittenChartPathShape` | app.py:78 | a saved path is `static/charts/`, then the symbol, then `_trend.png`, so the symbol can be read back from it |
| `Pipeline.WrittenPathIsStaticReturnedPath` | app.py:78-88 | the path a chart is saved to is its returned path under `static/` |
| `Pipeline.ProcessRow` | app.py:26-79 | the per-row reference on the downloaded closes: skip on a missing model or empty data, `IndexError` on a single close, `ZeroDivisionError` on a zero last close, otherwise the record and the saved chart; its contract is stated by `ProcessRowFacts` |
| `Pipeline.RecordFaithful` | app.py:42-64 | what a summary record means: model present, at least two closes, the final close, the model's forecast for it, their change and its classification (a predicate, used in the contracts below) |
| `Pipeline.ProcessRowFacts` | app.py:25-79 | a row is skipped iff its model is missing or its data is empty; it fails iff its model exists, its data is non-empty and it has a single close or a zero last close, with `IndexOutOfBounds` for the single close and `ZeroDivision` otherwise, naming its row; a processed row gives a faithful record (symbol, final close, forecast, change, classification) and a chart of `closes[1..]` and the forecast in the colour of its index, saved to `static/charts/<symbol>_trend.png` |
| `Pipeline.ProcessRowIndexOnlyColours` | portfolio_prediction.py:20-66 | whether a row is skipped or processed, its record and its plotted series do not depend on its index; only the colour does |
| `Pipeline.PredictRow` | app.py:26-83 | one loop iteration (skips, lag feature, forecast, change, classification, record and chart) yields exactly `ProcessRow` of the row |
| `Pipeline.RowRecords` | app.py:58-64 | a row adds at most one record, and a record carries the row's symbol and is faithful to the collaborators |
| `Pipeline.Summary` | portfolio_prediction.py:56-62 | the reference summary has at most one record per row, each for a symbol of the portfolio |
| `Pipeline.SummaryFaithful` | app.py:42-64 | every record of the reference summary is faithful: model present, at least two closes, final close, the model's forecast for it, their change and its classification |
| `Pipeline.SummaryStep` | app.py:58-64 | the reference summary of the first n rows is that of the first n−1 rows followed by row n−1's record, if any |
| `Pipeline.SummaryAppend` | app.py:25 | order preservation: the records of a concatenation are the first part's records followed by the second part's |
| `Pipeline.SkippedRowAddsNothing` | app.py:28-37 | a skipped row adds no record, and the rows after it add exactly what they would have added without it |
| `Pipeline.RunPrefix` | app.py:25-83 | the loop state after the first n rows: a skipped row changes nothing, a processed row appends its record and chart, a failing row records its exception, and after an exception nothing changes (a definition; the lemmas below state its properties) |
| `Pipeline.FailureIsFinal` | app.py:42-48 | once a row raises, later rows change nothing |
| `Pipeline.RunFailure` | portfolio_prediction.py:25-45 | the run fails iff some row fails, and then it reports the first failing row; skipped rows never end it |
| `Pipeline.RunSummary` | app.py:23-64 | the collected summary equals the reference summary of the rows before the stop row, in portfolio order |
| `Pipeline.RunChartsMatchRecords` | app.py:58-82 | one chart per record; each chart is for a processed row before the stop row and lies alongside that row's record |
| `Pipeline.RunChartColors` | app.py:68-79 | each rendered chart has its row's symbol, colour `Palette[row % 8]` using the original row index, and is saved to `static/charts/<symbol>_trend.png` |
| `Pipeline.RunChartsOrdered` | portfolio_prediction.py:20-80 | charts are rendered in strictly increasing row order |
| `Pipeline.RunChartsComplete` | portfolio_prediction.py:64-79 | every processed row before the stop row has a rendered chart |
| `Pipeline.ChartPaths` | app.py:88 | the returned list has one path per portfolio row, the i-th being `ReturnedChartPath` of row i's symbol |
| `Pipeline.ChartPathsIncludeSkippedRows` | app.py:88 | the returned list has one path per row, and a skipped row has its path `charts/<symbol>_trend.png` although no chart was rendered for it |
| `Pipeline.RunReported` | app.py:21-88 | what a run reports: `rendered` and the outcome are those of `RunPrefix` of the whole portfolio; the run completes iff no row fails, and then returns the reference summary, whose records are all faithful, and one path per row; an aborted run names its first failing row and that row's exception; every chart has its row's symbol, colour `Palette[row % 8]` and saved path (a predicate, used by the three entry points) |
| `Pipeline.PredictPortfolio` | app.py:21-88 | the loop satisfies `RunReported` at the given threshold: its charts and outcome are those of `RunPrefix` of the whole portfolio, with the completion, summary, path, abort and chart guarantees that predicate lists |
| `Pipeline.Conclude` | app.py:85-88 | the final state is reached at the stop row and has the properties `PredictPortfolio` reports |
| `App.PredictPortfolio` | app.py:21-88 | the 0.5 % variant: `RunReported` at threshold 0.5, plus on completion every record has a non-zero last close and the change between its two prices, and is BUY iff change > 0.5, SELL iff change < −0.5, HOLD otherwise |
| `PortfolioPrediction.PredictPortfolio` | portfolio_prediction.py:7-88 | the 1.0 % variant: `RunReported` at threshold 1.0, plus the same per-record facts with BUY iff change > 1.0, SELL iff change < −1.0, HOLD otherwise |

## Left out

- The Flask route `upload_file` and app setup (app.py:12-16, app.py:90-105): HTTP, file upload and templating.
- Reading the portfolio CSV and writing the summary CSV (app.py:22, app.py:85-87, portfolio_prediction.py:12, portfolio_prediction.py:83-84): file I/O. The portfolio is the `Stock` column, given as a parameter.
- `yf.download` and `joblib.load`: network and deserialisation. Both are replaced by `Env`. `download` is a function, so a symbol listed twice is assumed to get the same data both times. A model file that exists but cannot be loaded is not modelled.
- The pandas row index `idx` is taken to be the row position, which is what the default `RangeIndex` gives.
- Matplotlib drawing and `savefig` (app.py:67-82, portfolio_prediction.py:65-79): only the chart's row, symbol, colour, plotted closes and forecast are kept. Dates and the one-day offset of the forecast marker are left out.
- A failing `savefig` is not modelled: every save is assumed to succeed. app.py creates `charts/` (app.py:15) but saves to `static/charts/` (app.py:78-79) without creating it, so in the web variant the first save raises unless that directory already exists; portfolio_prediction.py creates it (portfolio_prediction.py:9). The second, identical `savefig` of app.py:81 is not modelled separately.
- `print` diagnostics: console output only.
- PredictionRecord: the source rounds `Last_Close`, `Predicted_Next_Close` and `Change_Pct` with Python's binary-float `round(x, 2)`. The model keeps the full-precision values. So the guarantee "BUY iff change > θ" holds on the unrounded change. The rounded column can show, for example, 0.50 next to BUY.
- Floating point: all arithmetic is on exact reals. NaN and infinite closes are not modelled.
- `dropna` removing rows because some other column is NaN: the close series is assumed complete.
- `make_model/generate_and_train_models.py`: offline training, regression metrics, downloads and pickling.
