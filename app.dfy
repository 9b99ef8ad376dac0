/** The web variant of the pipeline (app.py:21-88): the shared loop with a
    recommendation threshold of 0.5 percent. `portfolio` is the Stock column
    of the uploaded CSV file. */
module App {
  import opened Recommendation
  import opened Pipeline

  const Threshold: real := 0.5

  method PredictPortfolio(portfolio: seq<string>, env: Env) returns (outcome: Outcome, rendered: seq<Chart>)
    ensures RunReported(env, Threshold, portfolio, outcome, rendered)
    ensures outcome.Completed? ==>
              forall k :: 0 <= k < |outcome.report.summary| ==>
                var r := outcome.report.summary[k];
                && r.stock in portfolio
                && r.lastClose != 0.0
                && r.changePct == ChangePct(r.lastClose, r.predictedNextClose)
                && (r.recommendation == Buy <==> r.changePct > 0.5)
                && (r.recommendation == Sell <==> r.changePct < -0.5)
                && (r.recommendation == Hold <==> -0.5 <= r.changePct <= 0.5)
  {
    outcome, rendered := Pipeline.PredictPortfolio(portfolio, env, Threshold);
  }
}
