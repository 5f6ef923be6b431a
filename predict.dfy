/** `pages/predict.js`: the forecast page. It builds a ledger record from a
    successful forecast, records actuals with the accuracy rule, and deletes
    records. The page's React state is the class `PredictPage`. */
module Predict {
  import opened Common
  import opened JsText
  import opened Records
  import opened PredictionList
  import opened Storage

  function Abs(x: real): real {
    if x < 0.0 then -x else x
  }

  /** The accuracy `handleSaveActual` stores: absent unless both numbers are
      there; 100 or 0 for an actual of 0 depending on whether the forecast was
      0; otherwise 100 minus the percentage error, rounded to two decimals and
      clamped at 0. */
  function AccuracyOf(predicted: Option<real>, actual: Option<real>): Option<real> {
    if actual.Some? && predicted.Some? then
      var a, p := actual.value, predicted.value;
      if a == 0.0 then Some(if p == 0.0 then 100.0 else 0.0)
      else
        var pctError := Abs(p - a) / a * 100.0;
        Some(Max(0.0, Round2(100.0 - pctError)))
    else None
  }

  /** No accuracy without both an actual and a forecast. */
  lemma AccuracyNeedsBoth(predicted: Option<real>, actual: Option<real>)
    requires predicted.None? || actual.None?
    ensures AccuracyOf(predicted, actual).None?
  {
  }

  /** An actual of 0 scores 100 when the forecast was 0 and 0 otherwise. */
  lemma AccuracyZeroActual(p: real)
    ensures AccuracyOf(Some(p), Some(0.0)) == Some(if p == 0.0 then 100.0 else 0.0)
  {
  }

  /** For a positive actual the score is 100 minus the rounded percentage error,
      never below 0 and never above 100. */
  lemma AccuracyBounds(p: real, a: real)
    requires a > 0.0
    ensures AccuracyOf(Some(p), Some(a)) == Some(Max(0.0, Round2(100.0 - Abs(p - a) / a * 100.0)))
    ensures 0.0 <= AccuracyOf(Some(p), Some(a)).value <= 100.0
  {
    var x := 100.0 - Abs(p - a) / a * 100.0;
    assert Abs(p - a) / a >= 0.0;
    Round2Monotone(x, 100.0);
    Round2Whole(100);
  }

  /** An exact forecast of a positive actual scores exactly 100. */
  lemma AccuracyExact(a: real)
    requires a > 0.0
    ensures AccuracyOf(Some(a), Some(a)) == Some(100.0)
  {
    Round2Whole(100);
  }

  /** A forecast of 1000 against an actual of 900 is 11.11...% off and scores 88.89. */
  lemma AccuracyExample()
    ensures AccuracyOf(Some(1000.0), Some(900.0)) == Some(88.89)
  {
    var x := 100.0 - Abs(1000.0 - 900.0) / 900.0 * 100.0;
    assert x == 800.0 / 9.0;
    assert 8889.0 <= x * 100.0 + 0.5 < 8890.0;
    assert (x * 100.0 + 0.5).Floor == 8889;
  }

  /** A forecast at least twice the actual, or not above 0, scores 0. */
  lemma AccuracyFloor(p: real, a: real)
    requires a > 0.0 && (p >= 2.0 * a || p <= 0.0)
    ensures AccuracyOf(Some(p), Some(a)) == Some(0.0)
  {
    var e := Abs(p - a) / a;
    assert Abs(p - a) >= a;
    assert e >= 1.0 by {
      assert e * a == Abs(p - a);
    }
    Round2Monotone(100.0 - e * 100.0, 0.0);
    Round2Whole(0);
  }

  /** A smaller relative error never scores lower. */
  lemma AccuracyMonotone(p: real, a: real, b: real)
    requires a > 0.0 && b > 0.0
    requires Abs(p - a) / a <= Abs(p - b) / b
    ensures AccuracyOf(Some(p), Some(b)).value <= AccuracyOf(Some(p), Some(a)).value
  {
    Round2Monotone(100.0 - Abs(p - b) / b * 100.0, 100.0 - Abs(p - a) / a * 100.0);
  }

  /** The `updates` of `handleSaveActual`: the actual, its date and the
      accuracy computed from the forecast of the entry the dialog was opened on. */
  function ActualPatch(entry: Prediction, actual: Option<real>, actualDate: Option<string>): (u: Patch)
    ensures u.actual == Put(actual) && u.actualDate == Put(actualDate)
    ensures u.accuracy == Put(AccuracyOf(entry.predicted, actual))
    ensures u.id.Keep? && u.productName.Keep? && u.productIdx.Keep? && u.predictionDate.Keep? && u.predicted.Keep?
  {
    Patch(Keep, Keep, Keep, Keep, Keep, Put(actual), Put(actualDate), Put(AccuracyOf(entry.predicted, actual)))
  }

  /** Recording an actual changes only `actual`, `actual_date` and `accuracy`
      of the record with the entry's id, and moves nothing; with no such
      record the ledger is unchanged. */
  lemma SaveActualEffect(list: seq<Prediction>, entry: Prediction, actual: Option<real>, actualDate: Option<string>)
    ensures var r := PatchById(list, entry.id, ActualPatch(entry, actual, actualDate));
      && |r| == |list|
      && (forall k :: 0 <= k < |list| && list[k].id != entry.id ==> r[k] == list[k])
      && (IdIndex(list, entry.id) == -1 ==> r == list)
      && (IdIndex(list, entry.id) != -1 ==>
            var i := IdIndex(list, entry.id);
            r[i] == list[i].(actual := actual, actualDate := actualDate, accuracy := AccuracyOf(entry.predicted, actual)))
  {
  }

  /** The product name a record carries: the product's name, or else its
      category and subcategory joined by a space and trimmed. */
  function ProductLabel(p: Product): (name: string)
    ensures p.name != "" ==> name == p.name
    ensures p.name == "" ==> name == Trim(p.category + " " + p.subcategory)
    ensures p.name == "" ==> name == [] || (!IsJsSpace(name[0]) && !IsJsSpace(name[|name| - 1]))
  {
    if p.name != "" then p.name
    else
      TrimShape(p.category + " " + p.subcategory);
      Trim(p.category + " " + p.subcategory)
  }

  /** The record `handlePredict` builds from a successful response: a fresh id,
      the response's forecast, no actual and no accuracy yet, and the
      response's date or else the locally computed one. */
  function NewRecord(p: Product, selectedIdx: nat, resp: ForecastResponse, freshId: string, predictDate: string): (r: Prediction)
    ensures r.id == freshId && r.productName == ProductLabel(p) && r.productIdx == selectedIdx
    ensures r.predicted == resp.prediction
    ensures r.actual.None? && r.accuracy.None? && r.actualDate.None?
    ensures r.predictionDate == (if resp.predictionDate != "" then resp.predictionDate else predictDate)
  {
    Prediction(freshId, ProductLabel(p), selectedIdx,
               if resp.predictionDate != "" then resp.predictionDate else predictDate,
               resp.prediction, None, None, None)
  }

  /** Putting a record in front of a ledger that already holds its natural key
      makes the ledger hold the key twice. */
  lemma {:induction false} PrependDuplicatesKey(list: seq<Prediction>, rec: Prediction, k: nat)
    requires k < |list| && SameKey(list[k], rec)
    ensures !KeysUnique([rec] + list)
  {
    assert ([rec] + list)[k + 1] == list[k];
    assert SameKey(([rec] + list)[0], ([rec] + list)[k + 1]);
  }

  /** Two forecasts of the same product for the same date, on the page as
      written, leave two records with one natural key. */
  lemma RepeatForecastDuplicates(list: seq<Prediction>, p: Product, idx: nat, resp: ForecastResponse,
                                 id1: string, id2: string, predictDate: string)
    ensures var first := [NewRecord(p, idx, resp, id1, predictDate)] + list;
      !KeysUnique([NewRecord(p, idx, resp, id2, predictDate)] + first)
  {
    var first := [NewRecord(p, idx, resp, id1, predictDate)] + list;
    PrependDuplicatesKey(first, NewRecord(p, idx, resp, id2, predictDate), 0);
  }

  /** What a press of Predict came to. */
  datatype PredictStatus = NoSelection | NoHistory | RequestFailed | Recorded

  /** The forecast request's outcome: the parsed response, or the error's message. */
  datatype RequestOutcome = Responded(resp: ForecastResponse) | Failed(message: string)

  class PredictPage {
    const store: Store
    var products: seq<Product>
    /** The `<select>` value: `None` for "-- Select product --". */
    var selectedIdx: Option<nat>
    var loading: bool
    var result: Option<ForecastResponse>
    var predictions: seq<Prediction>
    var showActualModal: bool
    var activeEntry: Option<Prediction>

    /** The page on mount: both lists are read from the store. */
    constructor (store: Store)
      ensures this.store == store
      ensures products == store.LoadProducts() && predictions == store.LoadPredictions()
      ensures selectedIdx.None? && !loading && result.None? && !showActualModal && activeEntry.None?
    {
      this.store := store;
      products := store.LoadProducts();
      predictions := store.LoadPredictions();
      selectedIdx := None;
      loading := false;
      result := None;
      showActualModal := false;
      activeEntry := None;
    }

    /** The user picks an option of the product select. */
    method Select(idx: Option<nat>)
      requires idx.Some? ==> idx.value < |products|
      modifies this`selectedIdx
      ensures selectedIdx == idx
    {
      selectedIdx := idx;
    }

    /** The success path of `handlePredict`: the response is shown, and the new
        record goes in front of the stored ledger through `addPrediction`. */
    method RecordForecast(p: Product, idx: nat, resp: ForecastResponse, freshId: string, predictDate: string)
      modifies this`result, this`predictions, store`slots
      ensures result == Some(resp)
      ensures predictions == [NewRecord(p, idx, resp, freshId, predictDate)] + old(store.LoadPredictions())
      ensures store.slots == WriteSlot(old(store.slots), store.writable, PredictionsKey, PredictionsBlob(predictions))
    {
      result := Some(resp);
      var predObj := NewRecord(p, idx, resp, freshId, predictDate);
      var list := store.AddPrediction(predObj);
      predictions := list;
    }

    /** The success path with `addOrUpdatePrediction`: a ledger without
        duplicate natural keys keeps none. */
    method RecordForecastMerged(p: Product, idx: nat, resp: ForecastResponse, freshId: string, predictDate: string)
      modifies this`result, this`predictions, store`slots
      ensures result == Some(resp)
      ensures predictions == Upsert(old(store.LoadPredictions()), NewRecord(p, idx, resp, freshId, predictDate))
      ensures store.slots == WriteSlot(old(store.slots), store.writable, PredictionsKey, PredictionsBlob(predictions))
      ensures KeysUnique(old(store.LoadPredictions())) ==> KeysUnique(predictions)
    {
      result := Some(resp);
      var predObj := NewRecord(p, idx, resp, freshId, predictDate);
      ghost var before := store.LoadPredictions();
      var list := store.AddOrUpdatePrediction(predObj);
      if KeysUnique(before) {
        UpsertKeepsUnique(before, predObj);
      }
      predictions := list;
    }

    /** `handlePredict`, with the forecast call's outcome, the generated id and
        the next-month date as inputs. On success the new record goes in front
        of the stored ledger through `addPrediction`. */
    method HandlePredict(predictDate: string, freshId: string, outcome: RequestOutcome) returns (status: PredictStatus)
      requires selectedIdx.Some? ==> selectedIdx.value < |products|
      modifies this`loading, this`result, this`predictions, store`slots
      ensures status == NoSelection <==> selectedIdx.None?
      ensures status == NoHistory <==> selectedIdx.Some? && |Rows(products[selectedIdx.value])| == 0
      ensures status == RequestFailed <==> selectedIdx.Some? && |Rows(products[selectedIdx.value])| > 0 && outcome.Failed?
      ensures status == NoSelection || status == NoHistory ==> loading == old(loading)
      ensures status == RequestFailed || status == Recorded ==> !loading
      ensures status != Recorded ==> store.slots == old(store.slots) && predictions == old(predictions) && result == old(result)
      ensures status == Recorded ==>
        && result == Some(outcome.resp)
        && predictions == [NewRecord(products[selectedIdx.value], selectedIdx.value, outcome.resp, freshId, predictDate)]
                          + old(store.LoadPredictions())
        && store.slots == WriteSlot(old(store.slots), store.writable, PredictionsKey, PredictionsBlob(predictions))
    {
      if selectedIdx.None? {
        return NoSelection;
      }
      var p := products[selectedIdx.value];
      if p.history.None? || |p.history.value| < 1 {
        return NoHistory;
      }
      loading := true;
      if outcome.Failed? {
        status := RequestFailed;
      } else {
        RecordForecast(p, selectedIdx.value, outcome.resp, freshId, predictDate);
        status := Recorded;
      }
      loading := false;
    }

    /** `handlePredict` with `addOrUpdatePrediction` in place of `addPrediction`:
        a repeated forecast merges into the existing record, so a ledger without
        duplicate natural keys keeps none. */
    method HandlePredictMerged(predictDate: string, freshId: string, outcome: RequestOutcome) returns (status: PredictStatus)
      requires selectedIdx.Some? ==> selectedIdx.value < |products|
      modifies this`loading, this`result, this`predictions, store`slots
      ensures status == NoSelection <==> selectedIdx.None?
      ensures status == NoHistory <==> selectedIdx.Some? && |Rows(products[selectedIdx.value])| == 0
      ensures status == RequestFailed <==> selectedIdx.Some? && |Rows(products[selectedIdx.value])| > 0 && outcome.Failed?
      ensures status == NoSelection || status == NoHistory ==> loading == old(loading)
      ensures status == RequestFailed || status == Recorded ==> !loading
      ensures status != Recorded ==> store.slots == old(store.slots) && predictions == old(predictions) && result == old(result)
      ensures status == Recorded ==>
        && result == Some(outcome.resp)
        && predictions == Upsert(old(store.LoadPredictions()),
                                 NewRecord(products[selectedIdx.value], selectedIdx.value, outcome.resp, freshId, predictDate))
        && store.slots == WriteSlot(old(store.slots), store.writable, PredictionsKey, PredictionsBlob(predictions))
        && (KeysUnique(old(store.LoadPredictions())) ==> KeysUnique(predictions))
    {
      if selectedIdx.None? {
        return NoSelection;
      }
      var p := products[selectedIdx.value];
      if p.history.None? || |p.history.value| < 1 {
        return NoHistory;
      }
      loading := true;
      if outcome.Failed? {
        status := RequestFailed;
      } else {
        RecordForecastMerged(p, selectedIdx.value, outcome.resp, freshId, predictDate);
        status := Recorded;
      }
      loading := false;
    }

    /** `handleDeletePrediction`: nothing happens unless the user confirms. */
    method HandleDeletePrediction(id: string, confirmed: bool)
      modifies this`predictions, store`slots
      ensures !confirmed ==> predictions == old(predictions) && store.slots == old(store.slots)
      ensures confirmed ==> predictions == WithoutId(old(store.LoadPredictions()), id)
      ensures confirmed ==> store.slots == WriteSlot(old(store.slots), store.writable, PredictionsKey, PredictionsBlob(predictions))
    {
      if !confirmed {
        return;
      }
      var out := store.DeletePrediction(id);
      predictions := out;
    }

    /** `handleRecordActual`: opens the dialog on a record. */
    method HandleRecordActual(entry: Prediction)
      modifies this`activeEntry, this`showActualModal
      ensures activeEntry == Some(entry) && showActualModal
    {
      activeEntry := Some(entry);
      showActualModal := true;
    }

    /** The dialog's `onClose`. */
    method CloseActualModal()
      modifies this`activeEntry, this`showActualModal
      ensures activeEntry.None? && !showActualModal
    {
      showActualModal := false;
      activeEntry := None;
    }

    /** `handleSaveActual({actual, actual_date})`: patches the stored record with
        the active entry's id; the accuracy uses the forecast of the entry the
        dialog was opened on. */
    method HandleSaveActual(actual: Option<real>, actualDate: Option<string>)
      requires activeEntry.Some?
      modifies this`predictions, this`activeEntry, store`slots
      ensures predictions == PatchById(old(store.LoadPredictions()), old(activeEntry.value.id),
                                       ActualPatch(old(activeEntry.value), actual, actualDate))
      ensures IdIndex(old(store.LoadPredictions()), old(activeEntry.value.id)) == -1 ==> store.slots == old(store.slots)
      ensures IdIndex(old(store.LoadPredictions()), old(activeEntry.value.id)) != -1 ==>
        store.slots == WriteSlot(old(store.slots), store.writable, PredictionsKey, PredictionsBlob(predictions))
      ensures activeEntry.None?
    {
      var entry := activeEntry.value;
      var id := entry.id;
      var updates := ActualPatch(entry, actual, actualDate);
      var updated := store.UpdatePrediction(id, updates);
      predictions := updated;
      activeEntry := None;
    }
  }
}
