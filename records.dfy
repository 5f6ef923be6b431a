/** The entities the core stores and passes around: prediction records,
    patches of them, catalog products with their sales history, and the
    forecast service's response. */
module Records {
  import opened Common
  import opened JsValue

  /** One entry of the prediction ledger. `productIdx` is the catalog index the
      prediction was made from; `actualDate` is absent until an actual is recorded. */
  datatype Prediction = Prediction(
    id: string,
    productName: string,
    productIdx: nat,
    predictionDate: string,
    predicted: Option<real>,
    actual: Option<real>,
    actualDate: Option<string>,
    accuracy: Option<real>)

  /** The `updates` object of `updatePrediction`: which keys it carries, and with what. */
  datatype Patch = Patch(
    id: Field<string>,
    productName: Field<string>,
    productIdx: Field<nat>,
    predictionDate: Field<string>,
    predicted: Field<Option<real>>,
    actual: Field<Option<real>>,
    actualDate: Field<Option<string>>,
    accuracy: Field<Option<real>>)

  /** `{...record, ...updates}`: every key `updates` carries overrides, every
      other field keeps its value. */
  function ApplyPatch(p: Prediction, u: Patch): (r: Prediction)
    ensures u.id.Put? ==> r.id == u.id.value
    ensures u.id.Keep? ==> r.id == p.id
    ensures u.productName.Put? ==> r.productName == u.productName.value
    ensures u.productName.Keep? ==> r.productName == p.productName
    ensures u.productIdx.Put? ==> r.productIdx == u.productIdx.value
    ensures u.productIdx.Keep? ==> r.productIdx == p.productIdx
    ensures u.predictionDate.Put? ==> r.predictionDate == u.predictionDate.value
    ensures u.predictionDate.Keep? ==> r.predictionDate == p.predictionDate
    ensures u.predicted.Put? ==> r.predicted == u.predicted.value
    ensures u.predicted.Keep? ==> r.predicted == p.predicted
    ensures u.actual.Put? ==> r.actual == u.actual.value
    ensures u.actual.Keep? ==> r.actual == p.actual
    ensures u.actualDate.Put? ==> r.actualDate == u.actualDate.value
    ensures u.actualDate.Keep? ==> r.actualDate == p.actualDate
    ensures u.accuracy.Put? ==> r.accuracy == u.accuracy.value
    ensures u.accuracy.Keep? ==> r.accuracy == p.accuracy
  {
    Prediction(
      Patched(p.id, u.id),
      Patched(p.productName, u.productName),
      Patched(p.productIdx, u.productIdx),
      Patched(p.predictionDate, u.predictionDate),
      Patched(p.predicted, u.predicted),
      Patched(p.actual, u.actual),
      Patched(p.actualDate, u.actualDate),
      Patched(p.accuracy, u.accuracy))
  }

  /** One row of a product's sales history; `sales` is a form string while the
      row is being edited and a number once the product is saved. */
  datatype HistoryRow = HistoryRow(orderdate: string, sales: Value)

  /** A catalog product; `history` is `None` when the stored object has no
      history array. */
  datatype Product = Product(
    id: string,
    name: string,
    category: string,
    subcategory: string,
    city: string,
    region: string,
    history: Option<seq<HistoryRow>>)

  /** `p.history || []`. */
  function Rows(p: Product): seq<HistoryRow> {
    p.history.GetOr([])
  }

  /** The `historical_accuracy` object of a forecast response. */
  datatype HistoricalAccuracy = HistoricalAccuracy(accuracy: Value, metric: Option<string>, value: Value)

  /** A successful forecast response: `predictionDate` is `""` when the response
      carries none. */
  datatype ForecastResponse = ForecastResponse(
    prediction: Option<real>,
    lowerBound: Value,
    upperBound: Value,
    predictionDate: string,
    historicalAccuracy: Option<HistoricalAccuracy>)
}
