/** The recommendation policy that both pipeline variants share: the
    predicted percentage change and its three-way classification against a
    symmetric threshold (app.py:47-56, portfolio_prediction.py:44-53). */
module Recommendation {

  datatype Recommendation = Buy | Sell | Hold

  /** The text written into the summary's Recommendation column. */
  function Label(r: Recommendation): string
  {
    match r
    case Buy => "BUY \U{1F7E2}"
    case Sell => "SELL \U{1F534}"
    case Hold => "HOLD \U{1F7E1}"
  }

  /** Distinct recommendations are written as distinct labels. */
  lemma LabelsDistinct(a: Recommendation, b: Recommendation)
    requires a != b
    ensures Label(a) != Label(b)
  {
  }

  /** Predicted percentage change from the last close to the predicted next
      close. The source divides without a guard, so the caller must exclude a
      zero last close. */
  function ChangePct(lastClose: real, predicted: real): (pct: real)
    requires lastClose != 0.0
  {
    (predicted - lastClose) / lastClose * 100.0
  }

  /** The change is the difference of the prices in percent of the last
      close; for a positive last close its sign is the sign of that
      difference. */
  lemma ChangePctMeaning(lastClose: real, predicted: real)
    requires lastClose != 0.0
    ensures ChangePct(lastClose, predicted) * lastClose == (predicted - lastClose) * 100.0
    ensures lastClose > 0.0 ==> (ChangePct(lastClose, predicted) > 0.0 <==> predicted > lastClose)
    ensures lastClose > 0.0 ==> (ChangePct(lastClose, predicted) == 0.0 <==> predicted == lastClose)
  {
  }

  /** BUY strictly above the threshold, SELL strictly below its negation,
      HOLD otherwise (so both boundary values give HOLD). */
  function Classify(changePct: real, threshold: real): (r: Recommendation)
    ensures r == Buy <==> changePct > threshold
    ensures r == Sell <==> !(changePct > threshold) && changePct < -threshold
    ensures r == Hold <==> -threshold <= changePct <= threshold
  {
    if changePct > threshold then Buy
    else if changePct < -threshold then Sell
    else Hold
  }

  function Mirror(r: Recommendation): Recommendation
  {
    match r
    case Buy => Sell
    case Sell => Buy
    case Hold => Hold
  }

  /** Position of a recommendation on the SELL < HOLD < BUY scale. */
  function Rank(r: Recommendation): int
  {
    match r
    case Sell => -1
    case Hold => 0
    case Buy => 1
  }

  /** With a non-negative threshold the policy is symmetric: SELL is exactly
      "below minus the threshold", both boundaries give HOLD, and negating the
      change swaps BUY and SELL. */
  lemma ClassifySymmetric(changePct: real, threshold: real)
    requires threshold >= 0.0
    ensures Classify(changePct, threshold) == Sell <==> changePct < -threshold
    ensures Classify(threshold, threshold) == Hold && Classify(-threshold, threshold) == Hold
    ensures Classify(-changePct, threshold) == Mirror(Classify(changePct, threshold))
  {
  }

  /** A larger change never gives a weaker recommendation. */
  lemma ClassifyMonotone(c1: real, c2: real, threshold: real)
    requires c1 <= c2
    ensures Rank(Classify(c1, threshold)) <= Rank(Classify(c2, threshold))
  {
  }

  /** For a positive last close the recommendation can be read off the prices
      directly: BUY iff the forecast exceeds the last close by more than
      threshold percent, SELL iff it falls short by more than threshold
      percent. */
  lemma ClassifyByPrices(lastClose: real, predicted: real, threshold: real)
    requires lastClose > 0.0 && threshold >= 0.0
    ensures (Classify(ChangePct(lastClose, predicted), threshold) == Buy) <==>
              (predicted > lastClose + lastClose * threshold / 100.0)
    ensures (Classify(ChangePct(lastClose, predicted), threshold) == Sell) <==>
              (predicted < lastClose - lastClose * threshold / 100.0)
  {
    ChangePctMeaning(lastClose, predicted);
  }

  /** The worked cases of the 0.5 policy: 100 -> 102 is +2% and BUY,
      100 -> 100.3 is +0.3% and HOLD, and the boundaries are HOLD. */
  lemma WorkedExamples()
    ensures ChangePct(100.0, 102.0) == 2.0 && Classify(2.0, 0.5) == Buy
    ensures ChangePct(100.0, 100.3) == 0.3 && Classify(0.3, 0.5) == Hold
    ensures Classify(0.5, 0.5) == Hold && Classify(0.500001, 0.5) == Buy
    ensures Classify(-0.5, 0.5) == Hold && Classify(-0.500001, 0.5) == Sell
  {
  }
}
