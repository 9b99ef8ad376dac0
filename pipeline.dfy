/** The per-row portfolio pipeline `predict_portfolio` (app.py:21-88,
    portfolio_prediction.py:7-88), parameterised by the recommendation
    threshold in which the two copies differ.

    The external collaborators are parameters: whether the model file
    `models/<symbol>_model.pkl` exists, the close prices of the 60-day daily
    download, and the loaded model's prediction. */
module Pipeline {
  import opened Wrappers
  import opened Recommendation
  import opened Features

  /** Chart colours, chosen by the row's original position. */
  const Palette: seq<string> :=
    ["blue", "green", "red", "orange", "purple", "brown", "cyan", "magenta"]

  function ColorFor(idx: nat): (c: string)
    ensures c in Palette
  {
    Palette[idx % |Palette|]
  }

  /** The colour depends only on the row index modulo the palette size. */
  lemma ColorPeriodic(idx: nat)
    ensures ColorFor(idx + 8) == ColorFor(idx)
    ensures idx < 8 ==> ColorFor(idx) == Palette[idx]
  {
  }

  /** The path a chart is listed under in the returned list. */
  function ReturnedChartPath(symbol: string): (p: string)
    ensures |p| == |symbol| + 17
    ensures p[..7] == "charts/" && p[7..7 + |symbol|] == symbol && p[7 + |symbol|..] == "_trend.png"
  {
    "charts/" + symbol + "_trend.png"
  }

  /** The path a chart is saved to. */
  function WrittenChartPath(symbol: string): (p: string)
  {
    "static/charts/" + symbol + "_trend.png"
  }

  /** A saved path is `static/charts/`, then the symbol, then `_trend.png`. */
  lemma WrittenChartPathShape(symbol: string)
    ensures |WrittenChartPath(symbol)| == |symbol| + 24
    ensures var p := WrittenChartPath(symbol);
      p[..14] == "static/charts/" && p[14..14 + |symbol|] == symbol && p[14 + |symbol|..] == "_trend.png"
  {
  }

  /** The returned path is the saved path relative to the static folder. */
  lemma WrittenPathIsStaticReturnedPath(symbol: string)
    ensures WrittenChartPath(symbol) == "static/" + ReturnedChartPath(symbol)
  {
  }

  /** The external collaborators of one run. */
  datatype Env = Env(
    hasModel: string -> bool,         // the model file for the symbol exists
    download: string -> seq<real>,    // the downloaded closes, oldest first
    predict: (string, real) -> real)  // the symbol's model applied to one feature

  /** One entry of the summary (columns Stock, Last_Close,
      Predicted_Next_Close, Change_Pct, Recommendation). */
  datatype PredictionRecord = PredictionRecord(
    stock: string,
    lastClose: real,
    predictedNextClose: real,
    changePct: real,
    recommendation: Recommendation)

  /** One saved chart: the plotted closes and the forecast marker, in the
      colour of the row it belongs to, and the file it is saved to. */
  datatype Chart = Chart(row: nat, symbol: string, color: string, path: string, series: seq<real>, predicted: real)

  datatype SkipReason = ModelMissing | NoData

  /** Exceptions that end the whole run: `iloc[-1]` on an emptied frame, and
      float division by a zero last close. */
  datatype Failure = IndexOutOfBounds(row: nat, symbol: string) | ZeroDivision(row: nat, symbol: string)

  datatype RowResult =
    | Skipped(reason: SkipReason)
    | Processed(record: PredictionRecord, chart: Chart)
    | Failed(failure: Failure)

  /** What the pipeline does with the row at position idx, stated on the
      downloaded closes directly. */
  function ProcessRow(env: Env, threshold: real, idx: nat, symbol: string): RowResult
  {
    if !env.hasModel(symbol) then Skipped(ModelMissing)
    else
      var closes := env.download(symbol);
      if closes == [] then Skipped(NoData)
      else if |closes| == 1 then Failed(IndexOutOfBounds(idx, symbol))
      else
        var lastClose := closes[|closes| - 1];
        var predicted := env.predict(symbol, lastClose);
        if lastClose == 0.0 then Failed(ZeroDivision(idx, symbol))
        else
          var changePct := ChangePct(lastClose, predicted);
          Processed(
            PredictionRecord(symbol, lastClose, predicted, changePct, Classify(changePct, threshold)),
            Chart(idx, symbol, ColorFor(idx), WrittenChartPath(symbol), closes[1..], predicted))
  }

  /** What a summary record means: the symbol had a model and at least two
      closes, the record holds the final close, the model's forecast for it,
      the percentage change between them and that change's classification. */
  ghost predicate RecordFaithful(env: Env, threshold: real, r: PredictionRecord)
  {
    && env.hasModel(r.stock)
    && |env.download(r.stock)| >= 2
    && r.lastClose == env.download(r.stock)[|env.download(r.stock)| - 1]
    && r.lastClose != 0.0
    && r.predictedNextClose == env.predict(r.stock, r.lastClose)
    && r.changePct == ChangePct(r.lastClose, r.predictedNextClose)
    && r.recommendation == Classify(r.changePct, threshold)
  }

  /** A row is skipped exactly when its model or its data is missing, and a
      processed row yields a faithful record and a chart in its row's colour. */
  lemma ProcessRowFacts(env: Env, threshold: real, idx: nat, symbol: string)
    ensures ProcessRow(env, threshold, idx, symbol).Skipped? <==>
              !env.hasModel(symbol) || env.download(symbol) == []
    ensures ProcessRow(env, threshold, idx, symbol).Failed? <==>
              && env.hasModel(symbol)
              && env.download(symbol) != []
              && (|env.download(symbol)| == 1 || env.download(symbol)[|env.download(symbol)| - 1] == 0.0)
    ensures ProcessRow(env, threshold, idx, symbol).Failed? ==>
              ProcessRow(env, threshold, idx, symbol).failure ==
                if |env.download(symbol)| == 1 then IndexOutOfBounds(idx, symbol) else ZeroDivision(idx, symbol)
    ensures ProcessRow(env, threshold, idx, symbol).Processed? ==>
              var rr := ProcessRow(env, threshold, idx, symbol);
              && rr.record.stock == symbol
              && RecordFaithful(env, threshold, rr.record)
              && rr.chart == Chart(idx, symbol, ColorFor(idx), WrittenChartPath(symbol), env.download(symbol)[1..], rr.record.predictedNextClose)
  {
  }

  /** Whether a row is skipped, processed or fails does not depend on its
      position, and neither do its record and its plotted series: only the
      chart's colour and the recorded row index do. */
  lemma ProcessRowIndexOnlyColours(env: Env, threshold: real, i: nat, j: nat, symbol: string)
    ensures ProcessRow(env, threshold, i, symbol).Skipped? == ProcessRow(env, threshold, j, symbol).Skipped?
    ensures ProcessRow(env, threshold, i, symbol).Processed? == ProcessRow(env, threshold, j, symbol).Processed?
    ensures ProcessRow(env, threshold, i, symbol).Processed? ==>
              && ProcessRow(env, threshold, i, symbol).record == ProcessRow(env, threshold, j, symbol).record
              && ProcessRow(env, threshold, i, symbol).chart.series == ProcessRow(env, threshold, j, symbol).chart.series
  {
  }

  /** The record a row contributes to the summary: one if processed, none otherwise. */
  function RowRecords(env: Env, threshold: real, idx: nat, symbol: string): (rs: seq<PredictionRecord>)
    ensures |rs| <= 1
    ensures forall k :: 0 <= k < |rs| ==> rs[k].stock == symbol && RecordFaithful(env, threshold, rs[k])
  {
    var rr := ProcessRow(env, threshold, idx, symbol);
    ProcessRowFacts(env, threshold, idx, symbol);
    if rr.Processed? then [rr.record] else []
  }

  /** The records a sequence of rows contributes, row k having position base + k. */
  function Summary(env: Env, threshold: real, rows: seq<string>, base: nat): (s: seq<PredictionRecord>)
    ensures |s| <= |rows|
    ensures forall k :: 0 <= k < |s| ==> s[k].stock in rows
  {
    if rows == [] then []
    else RowRecords(env, threshold, base, rows[0]) + Summary(env, threshold, rows[1..], base + 1)
  }

  /** Every record of the reference summary is faithful to the collaborators. */
  lemma {:induction false} SummaryFaithful(env: Env, threshold: real, rows: seq<string>, base: nat)
    ensures forall k :: 0 <= k < |Summary(env, threshold, rows, base)| ==>
              RecordFaithful(env, threshold, Summary(env, threshold, rows, base)[k])
  {
    if rows != [] {
      SummaryFaithful(env, threshold, rows[1..], base + 1);
      var head := RowRecords(env, threshold, base, rows[0]);
      var tail := Summary(env, threshold, rows[1..], base + 1);
      assert Summary(env, threshold, rows, base) == head + tail;
      forall k | 0 <= k < |head + tail|
        ensures RecordFaithful(env, threshold, (head + tail)[k])
      {
        if k >= |head| {
          assert (head + tail)[k] == tail[k - |head|];
        }
      }
    }
  }

  /** Order preservation: the records of a concatenation are those of the
      first part followed by those of the second. */
  lemma {:induction false} SummaryAppend(env: Env, threshold: real, s: seq<string>, t: seq<string>, base: nat)
    ensures Summary(env, threshold, s + t, base) ==
              Summary(env, threshold, s, base) + Summary(env, threshold, t, base + |s|)
  {
    if s == [] {
      assert s + t == t;
    } else {
      assert (s + t)[1..] == s[1..] + t;
      SummaryAppend(env, threshold, s[1..], t, base + 1);
    }
  }

  /** A skipped row contributes nothing, and the rows after it contribute
      exactly what they would have anyway. */
  lemma SkippedRowAddsNothing(env: Env, threshold: real, s: seq<string>, x: string, t: seq<string>, base: nat)
    requires ProcessRow(env, threshold, base + |s|, x).Skipped?
    ensures Summary(env, threshold, s + [x] + t, base) ==
              Summary(env, threshold, s, base) + Summary(env, threshold, t, base + |s| + 1)
  {
    var single := [x];
    assert RowRecords(env, threshold, base + |s|, single[0]) == [];
    assert single[1..] == [];
    assert Summary(env, threshold, single[1..], base + |s| + 1) == [];
    assert Summary(env, threshold, single, base + |s|) ==
             RowRecords(env, threshold, base + |s|, single[0]) + Summary(env, threshold, single[1..], base + |s| + 1);
    SummaryAppend(env, threshold, s, single, base);
    SummaryAppend(env, threshold, s + single, t, base);
  }

  /** The state of the loop after the first n rows: the summary so far, the
      charts rendered so far, and the exception that ended the run, if any. */
  datatype Progress = Progress(summary: seq<PredictionRecord>, rendered: seq<Chart>, failure: Option<Failure>)

  function RunPrefix(env: Env, threshold: real, portfolio: seq<string>, n: nat): Progress
    requires n <= |portfolio|
  {
    if n == 0 then Progress([], [], None)
    else
      var before := RunPrefix(env, threshold, portfolio, n - 1);
      if before.failure.Some? then before
      else
        match ProcessRow(env, threshold, n - 1, portfolio[n - 1])
        case Skipped(_) => before
        case Processed(rec, chart) => Progress(before.summary + [rec], before.rendered + [chart], None)
        case Failed(f) => before.(failure := Some(f))
  }

  /** The row at which a run stopped: the failing row, or n when none failed. */
  function StopRow(p: Progress, n: nat): nat
  {
    if p.failure.Some? then p.failure.value.row else n
  }

  /** An exception ends the run: later rows change nothing. */
  lemma {:induction false} FailureIsFinal(env: Env, threshold: real, portfolio: seq<string>, n: nat, m: nat)
    requires n <= m <= |portfolio|
    requires RunPrefix(env, threshold, portfolio, n).failure.Some?
    ensures RunPrefix(env, threshold, portfolio, m) == RunPrefix(env, threshold, portfolio, n)
  {
    if m > n {
      FailureIsFinal(env, threshold, portfolio, n, m - 1);
    }
  }

  /** The run fails exactly when some row fails, and then it reports the first
      failing row; skipped rows never stop it. */
  lemma {:induction false} RunFailure(env: Env, threshold: real, portfolio: seq<string>, n: nat)
    requires n <= |portfolio|
    ensures RunPrefix(env, threshold, portfolio, n).failure.None? <==>
              forall i :: 0 <= i < n ==> !ProcessRow(env, threshold, i, portfolio[i]).Failed?
    ensures RunPrefix(env, threshold, portfolio, n).failure.Some? ==>
              var f := RunPrefix(env, threshold, portfolio, n).failure.value;
              && f.row < n
              && ProcessRow(env, threshold, f.row, portfolio[f.row]) == Failed(f)
              && forall i :: 0 <= i < f.row ==> !ProcessRow(env, threshold, i, portfolio[i]).Failed?
    ensures StopRow(RunPrefix(env, threshold, portfolio, n), n) <= n
  {
    if n > 0 {
      RunFailure(env, threshold, portfolio, n - 1);
      ProcessRowFacts(env, threshold, n - 1, portfolio[n - 1]);
    }
  }

  /** The reference summary of a prefix grows by the next row's record. */
  lemma SummaryStep(env: Env, threshold: real, portfolio: seq<string>, n: nat)
    requires 0 < n <= |portfolio|
    ensures Summary(env, threshold, portfolio[..n], 0) ==
              Summary(env, threshold, portfolio[..n - 1], 0) + RowRecords(env, threshold, n - 1, portfolio[n - 1])
  {
    var last := [portfolio[n - 1]];
    assert portfolio[..n] == portfolio[..n - 1] + last;
    SummaryAppend(env, threshold, portfolio[..n - 1], last, 0);
    assert last[1..] == [];
    assert Summary(env, threshold, last[1..], n) == [];
    assert Summary(env, threshold, last, n - 1) ==
             RowRecords(env, threshold, n - 1, last[0]) + Summary(env, threshold, last[1..], n);
  }

  /** The summary holds the records of the rows before the stop row, in
      portfolio order, one per processed row and none for a skipped row. */
  lemma {:induction false} RunSummary(env: Env, threshold: real, portfolio: seq<string>, n: nat)
    requires n <= |portfolio|
    ensures StopRow(RunPrefix(env, threshold, portfolio, n), n) <= n
    ensures RunPrefix(env, threshold, portfolio, n).summary ==
              Summary(env, threshold, portfolio[..StopRow(RunPrefix(env, threshold, portfolio, n), n)], 0)
  {
    RunFailure(env, threshold, portfolio, n);
    if n > 0 {
      var before := RunPrefix(env, threshold, portfolio, n - 1);
      var run := RunPrefix(env, threshold, portfolio, n);
      RunSummary(env, threshold, portfolio, n - 1);
      if before.failure.Some? {
        assert run == before;
        assert StopRow(run, n) == StopRow(before, n - 1);
      } else {
        assert before.summary == Summary(env, threshold, portfolio[..n - 1], 0);
        var rr := ProcessRow(env, threshold, n - 1, portfolio[n - 1]);
        ProcessRowFacts(env, threshold, n - 1, portfolio[n - 1]);
        if rr.Failed? {
          assert run.summary == before.summary;
          assert StopRow(run, n) == n - 1;
        } else {
          SummaryStep(env, threshold, portfolio, n);
          assert StopRow(run, n) == n;
          if rr.Processed? {
            assert RowRecords(env, threshold, n - 1, portfolio[n - 1]) == [rr.record];
            assert run.summary == before.summary + [rr.record];
          } else {
            assert RowRecords(env, threshold, n - 1, portfolio[n - 1]) == [];
            assert run.summary == before.summary;
          }
        }
      }
    }
  }

  /** Every rendered chart belongs to a processed row before the stop row and
      lies alongside that row's record. */
  lemma {:induction false} RunChartsMatchRecords(env: Env, threshold: real, portfolio: seq<string>, n: nat)
    requires n <= |portfolio|
    ensures var run := RunPrefix(env, threshold, portfolio, n);
      && |run.rendered| == |run.summary|
      && forall k :: 0 <= k < |run.rendered| ==>
           && run.rendered[k].row < n
           && run.rendered[k].row < StopRow(run, n)
           && ProcessRow(env, threshold, run.rendered[k].row, portfolio[run.rendered[k].row]) ==
                Processed(run.summary[k], run.rendered[k])
  {
    if n > 0 {
      var before := RunPrefix(env, threshold, portfolio, n - 1);
      var run := RunPrefix(env, threshold, portfolio, n);
      RunChartsMatchRecords(env, threshold, portfolio, n - 1);
      RunFailure(env, threshold, portfolio, n - 1);
      if before.failure.Some? {
        assert run == before;
      } else {
        var rr := ProcessRow(env, threshold, n - 1, portfolio[n - 1]);
        ProcessRowFacts(env, threshold, n - 1, portfolio[n - 1]);
        if rr.Processed? {
          assert StopRow(run, n) == n;
          assert run.rendered == before.rendered + [rr.chart];
          assert run.summary == before.summary + [rr.record];
          assert run.rendered[|before.rendered|].row == n - 1;
        } else {
          assert run.rendered == before.rendered && run.summary == before.summary;
          assert StopRow(run, n) >= n - 1;
        }
      }
    }
  }

  /** Charts are rendered in portfolio order, each in the colour of its row's
      ORIGINAL position, so skipped rows do not shift later colours. */
  lemma RunChartColors(env: Env, threshold: real, portfolio: seq<string>, n: nat)
    requires n <= |portfolio|
    ensures var run := RunPrefix(env, threshold, portfolio, n);
      forall k :: 0 <= k < |run.rendered| ==>
        && run.rendered[k].row < n
        && run.rendered[k].symbol == portfolio[run.rendered[k].row]
        && run.rendered[k].color == Palette[run.rendered[k].row % 8]
        && run.rendered[k].path == WrittenChartPath(run.rendered[k].symbol)
  {
    RunChartsMatchRecords(env, threshold, portfolio, n);
    var run := RunPrefix(env, threshold, portfolio, n);
    forall k | 0 <= k < |run.rendered|
      ensures run.rendered[k].symbol == portfolio[run.rendered[k].row]
      ensures run.rendered[k].color == Palette[run.rendered[k].row % 8]
      ensures run.rendered[k].path == WrittenChartPath(run.rendered[k].symbol)
    {
      ProcessRowFacts(env, threshold, run.rendered[k].row, portfolio[run.rendered[k].row]);
    }
  }

  /** The rendered charts' rows strictly increase. */
  lemma {:induction false} RunChartsOrdered(env: Env, threshold: real, portfolio: seq<string>, n: nat)
    requires n <= |portfolio|
    ensures var run := RunPrefix(env, threshold, portfolio, n);
      forall k1, k2 :: 0 <= k1 < k2 < |run.rendered| ==> run.rendered[k1].row < run.rendered[k2].row
  {
    if n > 0 {
      RunChartsOrdered(env, threshold, portfolio, n - 1);
      RunChartsMatchRecords(env, threshold, portfolio, n - 1);
      ProcessRowFacts(env, threshold, n - 1, portfolio[n - 1]);
    }
  }

  /** Every processed row before the stop row has its chart. */
  lemma {:induction false} RunChartsComplete(env: Env, threshold: real, portfolio: seq<string>, n: nat, i: nat)
    requires i < n <= |portfolio|
    requires i < StopRow(RunPrefix(env, threshold, portfolio, n), n)
    requires ProcessRow(env, threshold, i, portfolio[i]).Processed?
    ensures var run := RunPrefix(env, threshold, portfolio, n);
      exists k :: 0 <= k < |run.rendered| && run.rendered[k].row == i
  {
    var before := RunPrefix(env, threshold, portfolio, n - 1);
    var run := RunPrefix(env, threshold, portfolio, n);
    RunFailure(env, threshold, portfolio, n - 1);
    if before.failure.Some? {
      assert run == before;
      RunChartsComplete(env, threshold, portfolio, n - 1, i);
    } else {
      var rr := ProcessRow(env, threshold, n - 1, portfolio[n - 1]);
      ProcessRowFacts(env, threshold, n - 1, portfolio[n - 1]);
      var extra := if rr.Processed? then [rr.chart] else [];
      assert run.rendered == before.rendered + extra;
      if i == n - 1 {
        assert run.rendered[|before.rendered|].row == i;
      } else {
        assert StopRow(before, n - 1) == n - 1;
        RunChartsComplete(env, threshold, portfolio, n - 1, i);
        var k :| 0 <= k < |before.rendered| && before.rendered[k].row == i;
        assert run.rendered[k] == before.rendered[k];
      }
    }
  }

  /** The summary report returned at the end of a completed run. */
  datatype Report = Report(summary: seq<PredictionRecord>, chartPaths: seq<string>)

  datatype Outcome = Completed(report: Report) | Aborted(failure: Failure)

  /** The returned chart list: one path per portfolio row, skipped or not. */
  function ChartPaths(portfolio: seq<string>): (paths: seq<string>)
    ensures |paths| == |portfolio|
    ensures forall i :: 0 <= i < |portfolio| ==> paths[i] == ReturnedChartPath(portfolio[i])
  {
    seq(|portfolio|, i requires 0 <= i < |portfolio| => ReturnedChartPath(portfolio[i]))
  }

  /** The returned list names a chart even for a skipped row, for which no
      chart was rendered. */
  lemma ChartPathsIncludeSkippedRows(env: Env, threshold: real, portfolio: seq<string>, i: nat)
    requires i < |portfolio| && ProcessRow(env, threshold, i, portfolio[i]).Skipped?
    ensures |ChartPaths(portfolio)| == |portfolio|
    ensures ChartPaths(portfolio)[i] == ReturnedChartPath(portfolio[i])
    ensures forall k :: 0 <= k < |RunPrefix(env, threshold, portfolio, |portfolio|).rendered| ==>
              RunPrefix(env, threshold, portfolio, |portfolio|).rendered[k].row != i
  {
    RunChartsMatchRecords(env, threshold, portfolio, |portfolio|);
  }

  /** The pipeline loop. `rendered` lists the charts saved along the way
      (they stay on disk even when a later row aborts the run). */
  /** What a run reports: the charts and the outcome are those of the loop
      state after the whole portfolio; the run completes iff no row fails,
      and then returns the reference summary, whose records are all
      faithful, and one path per row; an aborted run names its first failing
      row and that row's exception; every chart has its row's symbol, colour and saved path. */
  ghost predicate RunReported(env: Env, threshold: real, portfolio: seq<string>, outcome: Outcome, rendered: seq<Chart>)
  {
    && (var final := RunPrefix(env, threshold, portfolio, |portfolio|);
        && rendered == final.rendered
        && (final.failure.None? ==> outcome == Completed(Report(final.summary, ChartPaths(portfolio))))
        && (final.failure.Some? ==> outcome == Aborted(final.failure.value)))
    && (outcome.Completed? <==>
            forall i :: 0 <= i < |portfolio| ==> !ProcessRow(env, threshold, i, portfolio[i]).Failed?)
    && (outcome.Completed? ==>
            && outcome.report.summary == Summary(env, threshold, portfolio, 0)
            && |outcome.report.chartPaths| == |portfolio|
            && forall i :: 0 <= i < |portfolio| ==> outcome.report.chartPaths[i] == ReturnedChartPath(portfolio[i]))
    && (outcome.Completed? ==>
            forall k :: 0 <= k < |outcome.report.summary| ==> RecordFaithful(env, threshold, outcome.report.summary[k]))
    && (outcome.Aborted? ==>
            && outcome.failure.row < |portfolio|
            && ProcessRow(env, threshold, outcome.failure.row, portfolio[outcome.failure.row]) == Failed(outcome.failure)
            && forall i :: 0 <= i < outcome.failure.row ==> !ProcessRow(env, threshold, i, portfolio[i]).Failed?)
    && (forall k :: 0 <= k < |rendered| ==>
            && rendered[k].row < |portfolio|
            && rendered[k].symbol == portfolio[rendered[k].row]
            && rendered[k].color == Palette[rendered[k].row % 8]
            && rendered[k].path == WrittenChartPath(rendered[k].symbol))
  }

  method PredictPortfolio(portfolio: seq<string>, env: Env, threshold: real)
    returns (outcome: Outcome, rendered: seq<Chart>)
    ensures RunReported(env, threshold, portfolio, outcome, rendered)
  {
    var summary: seq<PredictionRecord> := [];
    var failure: Option<Failure> := None;
    rendered := [];
    var idx := 0;
    while idx < |portfolio|
      invariant idx <= |portfolio|
      invariant RunPrefix(env, threshold, portfolio, idx) == Progress(summary, rendered, None)
    {
      var result := PredictRow(env, threshold, idx, portfolio[idx]);
      idx := idx + 1;
      match result
      case Skipped(_) =>
      case Processed(record, chart) =>
        summary := summary + [record];
        rendered := rendered + [chart];
      case Failed(f) =>
        failure := Some(f);
        break;
    }
    assert RunPrefix(env, threshold, portfolio, idx) == Progress(summary, rendered, failure);
    Conclude(env, threshold, portfolio, idx);
    outcome := if failure.None? then Completed(Report(summary, ChartPaths(portfolio))) else Aborted(failure.value);
  }

  /** One iteration of the loop: the model-file and empty-data skips, the
      lag feature, the forecast, the change and its classification, and the
      record and chart the row yields. */
  method PredictRow(env: Env, threshold: real, idx: nat, symbol: string) returns (result: RowResult)
    ensures result == ProcessRow(env, threshold, idx, symbol)
  {
    if !env.hasModel(symbol) {
      return Skipped(ModelMissing);
    }
    var closes := env.download(symbol);
    if closes == [] {
      return Skipped(NoData);
    }
    var data := Shift(closes);
    data := DropNa(data);
    LastCloseAfterLag(closes);
    if data == [] {
      return Failed(IndexOutOfBounds(idx, symbol));
    }
    var lastClose := data[|data| - 1].close;
    var predicted := env.predict(symbol, lastClose);
    if lastClose == 0.0 {
      return Failed(ZeroDivision(idx, symbol));
    }
    var changePct := ChangePct(lastClose, predicted);
    var recommendation := Classify(changePct, threshold);
    LagDropsFirstRow(closes);
    result := Processed(
      PredictionRecord(symbol, lastClose, predicted, changePct, recommendation),
      Chart(idx, symbol, ColorFor(idx), WrittenChartPath(symbol), Closes(data), predicted));
  }

  /** The facts about the final state that PredictPortfolio reports, from the
      prefix n at which the loop stopped. */
  lemma Conclude(env: Env, threshold: real, portfolio: seq<string>, n: nat)
    requires n <= |portfolio|
    requires n == |portfolio| || RunPrefix(env, threshold, portfolio, n).failure.Some?
    ensures RunPrefix(env, threshold, portfolio, |portfolio|) == RunPrefix(env, threshold, portfolio, n)
    ensures var final := RunPrefix(env, threshold, portfolio, |portfolio|);
      && (final.failure.None? <==>
            forall i :: 0 <= i < |portfolio| ==> !ProcessRow(env, threshold, i, portfolio[i]).Failed?)
      && (final.failure.None? ==> final.summary == Summary(env, threshold, portfolio, 0))
      && (forall k :: 0 <= k < |final.summary| ==> RecordFaithful(env, threshold, final.summary[k]))
      && (final.failure.Some? ==>
            && final.failure.value.row < |portfolio|
            && ProcessRow(env, threshold, final.failure.value.row, portfolio[final.failure.value.row]) == Failed(final.failure.value)
            && forall i :: 0 <= i < final.failure.value.row ==> !ProcessRow(env, threshold, i, portfolio[i]).Failed?)
      && (forall k :: 0 <= k < |final.rendered| ==>
            && final.rendered[k].row < |portfolio|
            && final.rendered[k].symbol == portfolio[final.rendered[k].row]
            && final.rendered[k].color == Palette[final.rendered[k].row % 8]
            && final.rendered[k].path == WrittenChartPath(final.rendered[k].symbol))
  {
    if n < |portfolio| {
      FailureIsFinal(env, threshold, portfolio, n, |portfolio|);
    }
    var final := RunPrefix(env, threshold, portfolio, |portfolio|);
    RunFailure(env, threshold, portfolio, |portfolio|);
    RunSummary(env, threshold, portfolio, |portfolio|);
    var stop := StopRow(final, |portfolio|);
    SummaryFaithful(env, threshold, portfolio[..stop], 0);
    assert final.summary == Summary(env, threshold, portfolio[..stop], 0);
    if final.failure.None? {
      assert portfolio[..stop] == portfolio;
    }
    RunChartColors(env, threshold, portfolio, |portfolio|);
  }
}
