/** The script variant of the pipeline (portfolio_prediction.py:7-88): the
    shared loop with a recommendation threshold of 1.0 percent. `portfolio` is
    the Stock column of the fixed input file portfolio.csv. */
module PortfolioPrediction {
  import opened Recommendation
  import opened Pipeline

  const Threshold: real := 1.0

  method PredictPortfolio(portfolio: seq<string>, env: Env) returns (outcome: Outcome, rendered: seq<Chart>)
    ensures RunReported(env, Threshold, portfolio, outcome, rendered)
    ensures outcome.Completed? ==>
              forall k :: 0 <= k < |outcome.report.summary| ==>
                var r := outcome.report.summary[k];
                && r.stock in portfolio
                && r.lastClose != 0.0
                && r.changePct == ChangePct(r.lastClose, r.predictedNextClose)
                && (r.recommendation == Buy <==> r.changePct > 1.0)
                && (r.recommendation == Sell <==> r.changePct < -1.0)
                && (r.recommendation == Hold <==> -1.0 <= r.changePct <= 1.0)
  {
    outcome, rendered := Pipeline.PredictPortfolio(portfolio, env, Threshold);
  }
}
