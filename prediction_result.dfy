/** `components/PredictionResult.js`: the accuracy line of the forecast card.
    A reported accuracy is shown as it is; otherwise an SMAPE or MAPE error
    percentage is turned into an accuracy, `max(0, round2(100 - value))`. */
module PredictionResult {
  import opened Common
  import opened JsText
  import opened JsValue
  import opened Records

  /** What the line shows before it is formatted as `${x}%` or `"N/A"`. */
  datatype AccuracyShown = NotAvailable | Given(v: Value) | Computed(acc: Value)

  /** `hist.metric` is truthy and upper-cases to `"SMAPE"` or `"MAPE"`. */
  predicate PercentMetric(metric: Option<string>) {
    metric.Some? && metric.value != "" && (ToUpper(metric.value) == "SMAPE" || ToUpper(metric.value) == "MAPE")
  }

  /** `Math.max(0, Math.round((100 - v) * 100) / 100)` on a number; NaN stays NaN. */
  function AccuracyFromError(v: Value): (r: Value)
    requires IsNumber(v)
    ensures v.NaN? ==> r.NaN?
    ensures v.Num? ==> r.Num? && r.x >= 0.0
    ensures v.Num? && 100.0 - v.x > -0.005 ==> r.x == Round2(100.0 - v.x)
    ensures v.Num? && v.x >= 100.0 ==> r.x == 0.0
  {
    match v
    case Num(x) => Num(Max(0.0, Round2(100.0 - x)))
    case NaN => NaN
  }

  /** The accuracy line for `result`, `None` when there is no result (the
      component renders nothing). */
  function AccuracyText(result: Option<ForecastResponse>): (r: Option<AccuracyShown>)
    ensures r.None? <==> result.None?
    ensures result.Some? && result.value.historicalAccuracy.None? ==> r == Some(NotAvailable)
    ensures result.Some? && result.value.historicalAccuracy.Some? ==>
      var hist := result.value.historicalAccuracy.value;
      && (!IsNullish(hist.accuracy) ==> r == Some(Given(hist.accuracy)))
      && (IsNullish(hist.accuracy) && PercentMetric(hist.metric) && IsNumber(hist.value) ==> r == Some(Computed(AccuracyFromError(hist.value))))
      && (IsNullish(hist.accuracy) && !(PercentMetric(hist.metric) && IsNumber(hist.value)) ==> r == Some(NotAvailable))
  {
    if result.None? then None
    else
      match result.value.historicalAccuracy
      case None => Some(NotAvailable)
      case Some(hist) =>
        if !IsNullish(hist.accuracy) then Some(Given(hist.accuracy))
        else if PercentMetric(hist.metric) && IsNumber(hist.value) then Some(Computed(AccuracyFromError(hist.value)))
        else Some(NotAvailable)
  }

  /** The metric name is matched without regard to case. */
  lemma MetricCaseInsensitive(m: string, n: string)
    requires m != "" && ToLower(m) == ToLower(n)
    ensures PercentMetric(Some(m)) <==> PercentMetric(Some(n))
  {
    UpperIgnoresCase(m, n);
    assert |n| == |m|;
  }

  lemma LowerCaseMetrics()
    ensures PercentMetric(Some("smape")) && PercentMetric(Some("Mape"))
    ensures !PercentMetric(Some("rmse")) && !PercentMetric(Some(""))
  {
    assert ToUpper("smape") == "SMAPE";
    assert ToUpper("Mape") == "MAPE";
    assert |ToUpper("rmse")| == 4 && ToUpper("rmse")[0] == 'R';
  }

  /** An error percentage between 0 and 100 gives an accuracy between 0 and 100,
      within half a hundredth of `100 - value`, and a smaller error never gives
      a smaller accuracy. */
  lemma ComputedAccuracyBounds(v: real, w: real)
    requires 0.0 <= v <= 100.0 && v <= w
    ensures var a := AccuracyFromError(Num(v)).x;
      0.0 <= a <= 100.0 && 100.0 - v - 0.005 <= a <= 100.0 - v + 0.005
    ensures AccuracyFromError(Num(w)).x <= AccuracyFromError(Num(v)).x
  {
    Round2Whole(100);
    Round2Whole(0);
    Round2Monotone(100.0 - v, 100.0);
    Round2Monotone(0.0, 100.0 - v);
    Round2Monotone(100.0 - w, 100.0 - v);
  }
}
