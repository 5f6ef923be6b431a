/** The list operations of the prediction ledger as functions of the stored
    list: prepend, upsert by natural key, patch by id and delete by id, with
    the properties they keep. The `findIndex` scans the ledger runs are the
    methods `FindKey` and `FindId`. */
module PredictionList {
  import opened Common
  import opened Records

  /** The natural key of a prediction is `(productName, prediction_date)`. */
  predicate SameKey(p: Prediction, q: Prediction) {
    p.productName == q.productName && p.predictionDate == q.predictionDate
  }

  /** At most one record per natural key. */
  predicate KeysUnique(list: seq<Prediction>) {
    forall i, j :: 0 <= i < j < |list| ==> !SameKey(list[i], list[j])
  }

  /** The index of the first record with `pred`'s natural key, or -1. */
  function KeyIndex(list: seq<Prediction>, pred: Prediction): (i: int)
    ensures -1 <= i < |list|
    ensures i == -1 <==> forall k :: 0 <= k < |list| ==> !SameKey(list[k], pred)
    ensures i >= 0 ==> SameKey(list[i], pred) && forall k :: 0 <= k < i ==> !SameKey(list[k], pred)
  {
    if list == [] then -1
    else if SameKey(list[0], pred) then 0
    else
      var j := KeyIndex(list[1..], pred);
      if j == -1 then -1 else j + 1
  }

  /** The index of the first record with this id, or -1. */
  function IdIndex(list: seq<Prediction>, id: string): (i: int)
    ensures -1 <= i < |list|
    ensures i == -1 <==> forall k :: 0 <= k < |list| ==> list[k].id != id
    ensures i >= 0 ==> list[i].id == id && forall k :: 0 <= k < i ==> list[k].id != id
  {
    if list == [] then -1
    else if list[0].id == id then 0
    else
      var j := IdIndex(list[1..], id);
      if j == -1 then -1 else j + 1
  }

  /** `list.findIndex(p => p.productName === pred.productName && p.prediction_date === pred.prediction_date)`. */
  method FindKey(list: seq<Prediction>, pred: Prediction) returns (idx: int)
    ensures idx == KeyIndex(list, pred)
  {
    idx := 0;
    while idx < |list|
      invariant 0 <= idx <= |list|
      invariant forall k :: 0 <= k < idx ==> !SameKey(list[k], pred)
    {
      if SameKey(list[idx], pred) {
        return;
      }
      idx := idx + 1;
    }
    idx := -1;
  }

  /** `list.findIndex((x) => x.id === id)`. */
  method FindId(list: seq<Prediction>, id: string) returns (idx: int)
    ensures idx == IdIndex(list, id)
  {
    idx := 0;
    while idx < |list|
      invariant 0 <= idx <= |list|
      invariant forall k :: 0 <= k < idx ==> list[k].id != id
    {
      if list[idx].id == id {
        return;
      }
      idx := idx + 1;
    }
    idx := -1;
  }

  /** The record a repeated forecast leaves in place of `existing`: the same
      record with `predicted` replaced. (The source also writes
      `pred.prediction_date || existing.prediction_date`, which is the date the
      two already share.) */
  function Merged(existing: Prediction, pred: Prediction): (m: Prediction)
    requires SameKey(existing, pred)
    ensures m == existing.(predicted := pred.predicted)
  {
    existing.(predicted := pred.predicted,
              predictionDate := if pred.predictionDate != "" then pred.predictionDate else existing.predictionDate)
  }

  /** The list `addOrUpdatePrediction` returns and saves. */
  function Upsert(list: seq<Prediction>, pred: Prediction): seq<Prediction> {
    var i := KeyIndex(list, pred);
    if i == -1 then [pred] + list else [Merged(list[i], pred)] + RemoveAt(list, i)
  }

  /** The list `updatePrediction` returns. */
  function PatchById(list: seq<Prediction>, id: string, u: Patch): seq<Prediction> {
    var i := IdIndex(list, id);
    if i == -1 then list else list[i := ApplyPatch(list[i], u)]
  }

  /** The number of records with this id. */
  function CountId(list: seq<Prediction>, id: string): (n: nat)
    ensures n <= |list|
  {
    if list == [] then 0 else (if list[0].id == id then 1 else 0) + CountId(list[1..], id)
  }

  /** `a` is `b` with some elements left out, the rest in their order. */
  ghost predicate IsSubsequence<T>(a: seq<T>, b: seq<T>)
    decreases |b|
  {
    a == [] || (b != [] && ((a[0] == b[0] && IsSubsequence(a[1..], b[1..])) || IsSubsequence(a, b[1..])))
  }

  /** `list.filter((x) => x.id !== id)`: no record with the id is left, every
      other record is kept, in order. */
  function WithoutId(list: seq<Prediction>, id: string): (r: seq<Prediction>)
    ensures forall k :: 0 <= k < |r| ==> r[k].id != id
    ensures |r| == |list| - CountId(list, id)
    ensures IsSubsequence(r, list)
  {
    if list == [] then []
    else if list[0].id != id then [list[0]] + WithoutId(list[1..], id)
    else WithoutId(list[1..], id)
  }

  /** A repeated forecast for a natural key already in the list keeps the
      length, puts the matched record first with its own id, actual and
      accuracy and the new `predicted`, and leaves the other records in their
      order. */
  lemma UpsertMerges(list: seq<Prediction>, pred: Prediction, i: nat)
    requires i < |list| && SameKey(list[i], pred)
    requires forall k :: 0 <= k < i ==> !SameKey(list[k], pred)
    ensures var r := Upsert(list, pred);
      && |r| == |list|
      && r[0] == list[i].(predicted := pred.predicted)
      && r[0].id == list[i].id && r[0].actual == list[i].actual && r[0].accuracy == list[i].accuracy
      && r[1..] == RemoveAt(list, i)
  {
    assert KeyIndex(list, pred) == i;
  }

  /** A forecast for a new natural key is prepended, as `addPrediction` does. */
  lemma UpsertInserts(list: seq<Prediction>, pred: Prediction)
    requires forall k :: 0 <= k < |list| ==> !SameKey(list[k], pred)
    ensures Upsert(list, pred) == [pred] + list
  {
  }

  /** After an upsert the record for `pred`'s natural key is at the front, and
      the list never shrinks. */
  lemma UpsertPromotes(list: seq<Prediction>, pred: Prediction)
    ensures |Upsert(list, pred)| >= 1 && |Upsert(list, pred)| >= |list|
    ensures SameKey(Upsert(list, pred)[0], pred)
  {
  }

  /** An upsert keeps the ledger free of duplicate natural keys. */
  lemma {:induction false} UpsertKeepsUnique(list: seq<Prediction>, pred: Prediction)
    requires KeysUnique(list)
    ensures KeysUnique(Upsert(list, pred))
  {
    var i := KeyIndex(list, pred);
    var r := Upsert(list, pred);
    if i != -1 {
      var rest := RemoveAt(list, i);
      forall a, b | 0 <= a < b < |r|
        ensures !SameKey(r[a], r[b])
      {
        var ib := if b - 1 < i then b - 1 else b;
        assert r[b] == rest[b - 1] == list[ib];
        if a == 0 {
          assert ib != i;
          if ib < i {
            assert !SameKey(list[ib], list[i]);
          } else {
            assert !SameKey(list[i], list[ib]);
          }
        } else {
          var ia := if a - 1 < i then a - 1 else a;
          assert r[a] == rest[a - 1] == list[ia];
          assert ia < ib;
        }
      }
    }
  }

  /** The ledger after any number of upserts. */
  function UpsertAll(list: seq<Prediction>, preds: seq<Prediction>): seq<Prediction>
    decreases |preds|
  {
    if preds == [] then list else UpsertAll(Upsert(list, preds[0]), preds[1..])
  }

  /** Starting from a ledger without duplicate keys, any sequence of upserts
      leaves at most one record per natural key. */
  lemma {:induction false} UpsertAllUnique(list: seq<Prediction>, preds: seq<Prediction>)
    requires KeysUnique(list)
    ensures KeysUnique(UpsertAll(list, preds))
    decreases |preds|
  {
    if preds != [] {
      UpsertKeepsUnique(list, preds[0]);
      UpsertAllUnique(Upsert(list, preds[0]), preds[1..]);
    }
  }

  /** `updatePrediction` with an id that is not in the list returns the list as it is. */
  lemma PatchMissingId(list: seq<Prediction>, id: string, u: Patch)
    requires forall k :: 0 <= k < |list| ==> list[k].id != id
    ensures PatchById(list, id, u) == list
  {
  }

  /** `updatePrediction` with a present id changes only the first record with
      that id, to that record patched by `updates`, and moves nothing. */
  lemma PatchPresentId(list: seq<Prediction>, id: string, u: Patch, i: nat)
    requires i < |list| && list[i].id == id
    requires forall k :: 0 <= k < i ==> list[k].id != id
    ensures var r := PatchById(list, id, u);
      && |r| == |list|
      && r[i] == ApplyPatch(list[i], u)
      && forall k :: 0 <= k < |list| && k != i ==> r[k] == list[k]
  {
    assert IdIndex(list, id) == i;
  }

  /** Deleting an id that no record has gives back an equal list. */
  lemma {:induction false} DeleteMissingId(list: seq<Prediction>, id: string)
    requires forall k :: 0 <= k < |list| ==> list[k].id != id
    ensures WithoutId(list, id) == list
  {
    if list != [] {
      DeleteMissingId(list[1..], id);
    }
  }

  /** Deleting an id that the list holds once removes exactly that record and
      keeps the others in order. */
  lemma {:induction false} DeleteSingleId(list: seq<Prediction>, id: string, i: nat)
    requires i < |list| && list[i].id == id
    requires forall k :: 0 <= k < |list| && k != i ==> list[k].id != id
    ensures WithoutId(list, id) == RemoveAt(list, i)
  {
    var tail := list[1..];
    if i == 0 {
      forall k | 0 <= k < |tail|
        ensures tail[k].id != id
      {
        assert tail[k] == list[k + 1];
      }
      DeleteMissingId(tail, id);
      assert tail == RemoveAt(list, 0);
    } else {
      forall k | 0 <= k < |tail| && k != i - 1
        ensures tail[k].id != id
      {
        assert tail[k] == list[k + 1];
      }
      DeleteSingleId(tail, id, i - 1);
      assert list[0].id != id;
      assert WithoutId(list, id) == [list[0]] + WithoutId(tail, id);
      RemoveAtCons(list, i);
    }
  }
}
