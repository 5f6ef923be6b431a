/** `lib/storage.js`: the catalog and the prediction ledger, each kept as one
    JSON list under its own localStorage key. The store is a map from key to
    the parsed blob; a missing or unreadable blob reads as the empty list, and
    a write that the browser refuses leaves the store as it was. */
module Storage {
  import opened Common
  import opened Records
  import opened PredictionList

  const ProductsKey: string := "bikri_products_v1"
  const PredictionsKey: string := "bikri_predictions_v1"

  /** What a key holds: text that does not parse, or a parsed list. */
  datatype Blob = Unreadable | PredictionsBlob(predictions: seq<Prediction>) | ProductsBlob(products: seq<Product>)

  /** `loadPredictions()`: the stored ledger, or `[]` when the key is missing or
      its text does not parse. */
  function ReadPredictions(slots: map<string, Blob>): seq<Prediction> {
    if PredictionsKey in slots && slots[PredictionsKey].PredictionsBlob? then slots[PredictionsKey].predictions else []
  }

  /** `loadProducts()`: the stored catalog, or `[]`. */
  function ReadProducts(slots: map<string, Blob>): seq<Product> {
    if ProductsKey in slots && slots[ProductsKey].ProductsBlob? then slots[ProductsKey].products else []
  }

  /** The ledger and the catalog live under different keys: writing one does
      not change what the other reads back, and each reads back what was written. */
  lemma KeysIndependent(slots: map<string, Blob>, preds: seq<Prediction>, prods: seq<Product>)
    ensures ReadPredictions(slots[PredictionsKey := PredictionsBlob(preds)]) == preds
    ensures ReadProducts(slots[PredictionsKey := PredictionsBlob(preds)]) == ReadProducts(slots)
    ensures ReadProducts(slots[ProductsKey := ProductsBlob(prods)]) == prods
    ensures ReadPredictions(slots[ProductsKey := ProductsBlob(prods)]) == ReadPredictions(slots)
  {
  }

  /** The store after `setItem(key, ...)`: written if the browser accepts it,
      unchanged if the call throws (the error is logged and swallowed). */
  function WriteSlot(slots: map<string, Blob>, writable: bool, key: string, blob: Blob): map<string, Blob> {
    if writable then slots[key := blob] else slots
  }

  class Store {
    /** The parsed content of every localStorage key. */
    var slots: map<string, Blob>
    /** False when `localStorage.setItem` throws (storage full or disabled). */
    var writable: bool

    constructor (slots: map<string, Blob>, writable: bool)
      ensures this.slots == slots && this.writable == writable
    {
      this.slots := slots;
      this.writable := writable;
    }

    function LoadPredictions(): seq<Prediction>
      reads this
    {
      ReadPredictions(slots)
    }

    function LoadProducts(): seq<Product>
      reads this
    {
      ReadProducts(slots)
    }

    function AfterWrite(key: string, blob: Blob): map<string, Blob>
      reads this
    {
      WriteSlot(slots, writable, key, blob)
    }

    /** `savePredictions(list)`: a later load returns `list` unless the write failed. */
    method SavePredictions(list: seq<Prediction>)
      modifies this`slots
      ensures slots == old(AfterWrite(PredictionsKey, PredictionsBlob(list)))
      ensures writable ==> LoadPredictions() == list
      ensures LoadProducts() == old(LoadProducts())
    {
      if writable {
        slots := slots[PredictionsKey := PredictionsBlob(list)];
      }
    }

    /** `saveProducts(list)`: a later load returns `list` unless the write failed. */
    method SaveProducts(list: seq<Product>)
      modifies this`slots
      ensures slots == old(AfterWrite(ProductsKey, ProductsBlob(list)))
      ensures writable ==> LoadProducts() == list
      ensures LoadPredictions() == old(LoadPredictions())
    {
      if writable {
        slots := slots[ProductsKey := ProductsBlob(list)];
      }
    }

    /** `addPrediction(pred)`: the new record goes in front of the stored list,
        which is otherwise unchanged, and that list is saved and returned. */
    method AddPrediction(pred: Prediction) returns (list: seq<Prediction>)
      modifies this`slots
      ensures list == [pred] + old(LoadPredictions())
      ensures |list| == |old(LoadPredictions())| + 1 && list[0] == pred && list[1..] == old(LoadPredictions())
      ensures slots == old(AfterWrite(PredictionsKey, PredictionsBlob(list)))
    {
      list := LoadPredictions();
      list := [pred] + list;
      SavePredictions(list);
    }

    /** `addOrUpdatePrediction(pred)`: an upsert by natural key that moves the
        affected record to the front; see `PredictionList.Upsert`. */
    method AddOrUpdatePrediction(pred: Prediction) returns (list: seq<Prediction>)
      modifies this`slots
      ensures list == Upsert(old(LoadPredictions()), pred)
      ensures slots == old(AfterWrite(PredictionsKey, PredictionsBlob(list)))
    {
      list := LoadPredictions();
      var idx := FindKey(list, pred);
      if idx != -1 {
        var existing := list[idx];
        var updated := existing.(
          predicted := pred.predicted,
          predictionDate := if pred.predictionDate != "" then pred.predictionDate else existing.predictionDate);
        list := list[..idx] + list[idx + 1..];
        list := [updated] + list;
      } else {
        list := [pred] + list;
      }
      SavePredictions(list);
    }

    /** `updatePrediction(id, updates)`: patches the first record with the id in
        place; with no such record nothing is saved and the list comes back as it is. */
    method UpdatePrediction(id: string, updates: Patch) returns (list: seq<Prediction>)
      modifies this`slots
      ensures list == PatchById(old(LoadPredictions()), id, updates)
      ensures IdIndex(old(LoadPredictions()), id) == -1 ==> slots == old(slots) && list == old(LoadPredictions())
      ensures IdIndex(old(LoadPredictions()), id) != -1 ==> slots == old(AfterWrite(PredictionsKey, PredictionsBlob(list)))
    {
      list := LoadPredictions();
      var idx := FindId(list, id);
      if idx == -1 {
        return;
      }
      list := list[idx := ApplyPatch(list[idx], updates)];
      SavePredictions(list);
    }

    /** `deletePrediction(id)`: keeps the records with other ids and saves the
        result, even when nothing was removed. */
    method DeletePrediction(id: string) returns (out: seq<Prediction>)
      modifies this`slots
      ensures out == WithoutId(old(LoadPredictions()), id)
      ensures slots == old(AfterWrite(PredictionsKey, PredictionsBlob(out)))
    {
      var list := LoadPredictions();
      out := WithoutId(list, id);
      SavePredictions(out);
    }
  }
}
