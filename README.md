# bikritracker frontend core in Dafny

This project models the browser side of bikritracker, a small sales-forecast
tool for shopkeepers. It covers:

- the catalog of products and their sales history;
- the prediction ledger, a list of forecasts kept in `localStorage`. Each
  forecast is later paired with the actual sales and scored for accuracy;
- the rules on the storage helpers, the forecast page, the inventory page and
  the four components around them.

The modules follow the source files:

| module | file | form |
|---|---|---|
| `Storage` | `lib/storage.js` | class `Store`: `localStorage` as a map from key to parsed list, with a flag for a `setItem` that throws |
| `PredictionList` | `lib/storage.js` | the ledger's list operations as functions, plus the `findIndex` loops (`FindKey`, `FindId`) |
| `Predict` | `pages/predict.js` | the accuracy rule, record construction, class `PredictPage` |
| `Inventory` | `pages/inventory.js` | the duplicate-name rule, the clash check over a copy, class `InventoryPage` |
| `ProductList` | `components/ProductList.js` | the latest-sales loop |
| `ProductModal` | `components/ProductModal.js` | form edits and save coercion, as functions |
| `SetActualModal` | `components/SetActualModal.js` | actual-sales validation |
| `PredictionResult` | `components/PredictionResult.js` | the accuracy line |

Four modules hold shared pieces:

- `Common`: `Option`, a spread-patch `Field`, index removal, the array scans
  `findIndex` and `some`, and `Math.round` to two decimals.
- `JsText`: `trim` over the ECMAScript white-space set, and ASCII case mapping.
- `JsValue`: loose values, truthiness, and `Number(...)` for decimal strings
  (ECMA-262 section 7.1.4.1.1).
- `Records`: the data types.

These become inputs to the model:

- the forecast request's outcome;
- the generated ids and the next-month date;
- the answer to `confirm(...)`;
- date parsing (`timeOf`, a function from a date string to a timestamp or
  `None`).

Numbers are reals.

Three facts about the code shape the model:

- The comment on `addOrUpdatePrediction` (`lib/storage.js:51-57`) describes
  merging a repeated forecast for one product and date into the existing
  record. The forecast page does not use it: it calls `addPrediction`
  (`pages/predict.js:52`), which always prepends (see Findings).
- Accuracies are rounded with `Math.round`, which sends halves towards
  +infinity. `Common.Round2` models that.
- The product form's `save` coerces history sales with `Number` and does not
  check their sign.

## Model

| member | source | states |
|---|---|---|
| Common.RemoveAt | bikritracker/frontend/pages/inventory.js:52 | filtering out index `i` drops exactly that position and keeps the others in order; an index outside the list leaves it unchanged |
| Common.Patched | bikritracker/frontend/lib/storage.js:90 | a key carried by `updates` overrides, a key it lacks keeps the old value |
| Common.Round2 | bikritracker/frontend/pages/predict.js:80 | `Math.round(x * 100) / 100` lies within half a hundredth of `x` |
| Common.Round2Monotone | bikritracker/frontend/pages/predict.js:80 | rounding to two decimals never reverses the order of two numbers |
| Common.Round2Whole | bikritracker/frontend/pages/predict.js:80 | a whole number is its own rounding, so 100 and 0 come out exactly |
| Common.Max | bikritracker/frontend/pages/predict.js:80 | `Math.max(a, b)` is one of its arguments and at least both |
| JsText.Trim | bikritracker/frontend/pages/inventory.js:26 | defines `trim` as leading then trailing white space removed; `TrimShape` and `TrimIdempotent` state its properties |
| JsText.TrimShape | bikritracker/frontend/pages/inventory.js:26 | `trim` keeps a contiguous middle part, cuts only white space and leaves none at either end |
| JsText.TrimIdempotent | bikritracker/frontend/pages/inventory.js:26 | trimming a trimmed name changes nothing |
| JsText.ToLower | bikritracker/frontend/pages/inventory.js:26 | `toLowerCase` keeps the length and lower-cases each character |
| JsText.ToLowerIdempotent | bikritracker/frontend/pages/inventory.js:31 | lower-casing a lower-cased string changes nothing |
| JsText.ToUpper | bikritracker/frontend/components/PredictionResult.js:12 | `toUpperCase` keeps the length and upper-cases each character |
| JsText.UpperIgnoresCase | bikritracker/frontend/components/PredictionResult.js:12 | two strings that differ only in letter case have the same upper-case form |
| JsValue.Truthy | bikritracker/frontend/components/ProductModal.js:28 | defines JavaScript truthiness, which the `||` defaults test; `ProductModal.CoerceSales` is stated with it |
| JsValue.ToNumber | bikritracker/frontend/components/SetActualModal.js:15 | `Number(x)` is always a number (possibly NaN), leaves numbers unchanged, maps `null` to 0 and `undefined` to NaN |
| JsValue.StringToNumber | bikritracker/frontend/components/SetActualModal.js:15 | `Number` of a string is a number or NaN |
| JsValue.BlankIsZero | bikritracker/frontend/components/SetActualModal.js:15 | an empty or all-blank string converts to 0 |
| JsValue.DecimalRoundTrip | bikritracker/frontend/components/SetActualModal.js:15 | the decimal spelling of a natural number converts back to that number |
| JsValue.FractionValue | bikritracker/frontend/components/SetActualModal.js:15 | the value of the digits `whole` "." `frac` is at least the whole part, and never negative |
| JsValue.FractionRoundTrip | bikritracker/frontend/components/SetActualModal.js:15 | a spelling `whole.frac` with digit parts converts to the whole part plus the fraction over the matching power of ten |
| JsValue.MinusLiteral | bikritracker/frontend/components/SetActualModal.js:15 | a minus sign in front of a literal that reads as `x` converts to `-x` |
| JsValue.NegativeDecimal | bikritracker/frontend/components/SetActualModal.js:15 | a minus sign before a positive number's spelling converts to its negation |
| JsValue.NoDigitsIsNaN | bikritracker/frontend/components/SetActualModal.js:15 | a non-blank string with no digit converts to NaN |
| Records.ApplyPatch | bikritracker/frontend/lib/storage.js:90 | `{...record, ...updates}`: each of the eight fields is the patch's value when carried, else the record's |
| PredictionList.SameKey | bikritracker/frontend/lib/storage.js:61 | defines the natural key match of `addOrUpdatePrediction`: same `productName` and same `prediction_date`; `KeyIndex`, `FindKey` and `KeysUnique` (one record per key, kept by `UpsertKeepsUnique`) are stated with it |
| PredictionList.KeyIndex | bikritracker/frontend/lib/storage.js:61 | the first index whose `(productName, prediction_date)` matches, and -1 exactly when none does |
| PredictionList.IdIndex | bikritracker/frontend/lib/storage.js:88 | the first index with the id, and -1 exactly when no record has it |
| PredictionList.FindKey | bikritracker/frontend/lib/storage.js:61 | the `findIndex` scan returns `KeyIndex` |
| PredictionList.FindId | bikritracker/frontend/lib/storage.js:88 | the `findIndex` scan returns `IdIndex` |
| PredictionList.Merged | bikritracker/frontend/lib/storage.js:65-70 | the merged record is the existing one, same id, actual and accuracy, with only `predicted` replaced (the date fallback yields the date both share) |
| PredictionList.WithoutId | bikritracker/frontend/lib/storage.js:97 | no record with the id remains, the length drops by the number of such records, and the rest keep their order |
| PredictionList.Upsert | bikritracker/frontend/lib/storage.js:61-77 | defines the list `addOrUpdatePrediction` saves: the merged record moved to the front, or the new record prepended; the `Upsert…` lemmas and `Storage.Store.AddOrUpdatePrediction` state its properties |
| PredictionList.UpsertMerges | bikritracker/frontend/lib/storage.js:61-73 | with a record of the same natural key, the length is kept, the head is that record with its own id, actual and accuracy and the new `predicted`, and the tail is the old list without it, in order |
| PredictionList.UpsertInserts | bikritracker/frontend/lib/storage.js:74-77 | with no matching record the upsert equals `addPrediction`: the new record in front of the old list |
| PredictionList.UpsertPromotes | bikritracker/frontend/lib/storage.js:61-77 | after an upsert the record for the key is first and the list has not shrunk |
| PredictionList.UpsertKeepsUnique | bikritracker/frontend/lib/storage.js:61-77 | a ledger with at most one record per natural key keeps that property through an upsert |
| PredictionList.UpsertAllUnique | bikritracker/frontend/lib/storage.js:58-84 | any sequence of upserts from such a ledger keeps one record per natural key |
| PredictionList.PatchById | bikritracker/frontend/lib/storage.js:88-92 | defines the list `updatePrediction` returns: the first record with the id patched, or the list unchanged; `PatchMissingId` and `PatchPresentId` state its properties |
| PredictionList.PatchMissingId | bikritracker/frontend/lib/storage.js:88-89 | an id that is not in the list gives the list back unchanged |
| PredictionList.PatchPresentId | bikritracker/frontend/lib/storage.js:88-92 | a present id changes only the first record with it, to that record patched, and moves nothing |
| PredictionList.DeleteMissingId | bikritracker/frontend/lib/storage.js:95-100 | deleting an absent id gives an equal list |
| PredictionList.DeleteSingleId | bikritracker/frontend/lib/storage.js:95-100 | deleting an id held once removes exactly that record and keeps the others in order |
| Storage.WriteSlot | bikritracker/frontend/lib/storage.js:16-42 | defines one `setItem` inside `saveProducts`/`savePredictions` (lines 18-19 and 38-39): the key is overwritten when the browser accepts the write, and the store is unchanged when it throws; the `Store.Save…` methods are stated with it, and `KeysIndependent` reads back its accepted writes |
| Storage.KeysIndependent | bikritracker/frontend/lib/storage.js:5-42 | each list reads back what was written under its key, and writing one list leaves the other's reading unchanged |
| Storage.Store.SavePredictions | bikritracker/frontend/lib/storage.js:36-42 | a writable store reads back exactly the saved ledger; a failing write changes nothing; the catalog is untouched |
| Storage.ReadProducts | bikritracker/frontend/lib/storage.js:5-14 | defines `loadProducts`: the stored catalog, or the empty list when the key is missing or its text does not parse; `KeysIndependent` relates it to writes |
| Storage.ReadPredictions | bikritracker/frontend/lib/storage.js:25-34 | defines `loadPredictions` the same way for the ledger key |
| Storage.Store.SaveProducts | bikritracker/frontend/lib/storage.js:16-22 | a writable store reads back exactly the saved catalog; a failing write changes nothing; the ledger is untouched |
| Storage.Store.AddPrediction | bikritracker/frontend/lib/storage.js:44-49 | the returned list is the new record followed by the stored list unchanged, one longer, and it is what is saved |
| Storage.Store.AddOrUpdatePrediction | bikritracker/frontend/lib/storage.js:58-84 | the splice-and-unshift on the loaded list returns and saves `Upsert` of the stored ledger |
| Storage.Store.UpdatePrediction | bikritracker/frontend/lib/storage.js:86-93 | returns `PatchById` of the stored ledger; with no such id nothing is saved |
| Storage.Store.DeletePrediction | bikritracker/frontend/lib/storage.js:95-100 | returns and saves the stored ledger without the id |
| SetActualModal.InitialActualField | bikritracker/frontend/components/SetActualModal.js:6-11 | the field starts at the recorded actual, or the empty string |
| SetActualModal.InitialDateField | bikritracker/frontend/components/SetActualModal.js:7 | the date starts at the entry's prediction date, or the empty string |
| SetActualModal.HandleSave | bikritracker/frontend/components/SetActualModal.js:14-19 | `onSave` is called exactly when `Number(actual)` is a non-negative number; it gets that number and the date field, or the entry's prediction date when the field is empty |
| SetActualModal.SavedDateIsPredictionDate | bikritracker/frontend/components/SetActualModal.js:7-17 | the dialog renders no date input, so the date field keeps `entry.prediction_date` and an accepted save always carries that date |
| SetActualModal.RejectsNonNumeric | bikritracker/frontend/components/SetActualModal.js:15-16 | non-blank text with no digits is refused |
| SetActualModal.RejectsNegative | bikritracker/frontend/components/SetActualModal.js:16 | a typed negative whole number, or any negative number value, is refused |
| SetActualModal.RejectsNegativeFraction | bikritracker/frontend/components/SetActualModal.js:15-16 | a typed negative fraction such as `-2.5` is refused |
| SetActualModal.AcceptsFraction | bikritracker/frontend/components/SetActualModal.js:15-17 | a typed decimal fraction such as `12.5` is accepted as its value |
| SetActualModal.AcceptsWholeNumber | bikritracker/frontend/components/SetActualModal.js:15-17 | a typed whole number, 0 included, is accepted as that number |
| SetActualModal.BlankAcceptedAsZero | bikritracker/frontend/components/SetActualModal.js:15-16 | as written, a blank field is accepted as an actual of 0 |
| SetActualModal.HandleSaveChecked | bikritracker/frontend/components/SetActualModal.js:14-19 | with a check that something was typed, a blank field is refused and every other input is handled as before |
| SetActualModal.UntouchedDialogRecordsZero | bikritracker/frontend/components/SetActualModal.js:6-17 | saving the dialog untouched on a record without an actual records 0 as written, and nothing with the check |
| Predict.AccuracyOf | bikritracker/frontend/pages/predict.js:74-82 | defines the accuracy rule: none without both values, 100 or 0 for an actual of 0, else `max(0, round2(100 - percent error))`; the `Accuracy…` lemmas state its properties |
| Predict.AccuracyNeedsBoth | bikritracker/frontend/pages/predict.js:74-75 | no accuracy unless both the actual and the forecast are present |
| Predict.AccuracyZeroActual | bikritracker/frontend/pages/predict.js:76-77 | an actual of 0 scores 100 for a forecast of 0 and 0 for any other |
| Predict.AccuracyBounds | bikritracker/frontend/pages/predict.js:79-80 | for a positive actual the score is `max(0, round2(100 - percent error))` and lies in [0, 100] |
| Predict.AccuracyExact | bikritracker/frontend/pages/predict.js:79-80 | an exact forecast of a positive actual scores exactly 100 |
| Predict.AccuracyExample | bikritracker/frontend/pages/predict.js:79-80 | a forecast of 1000 against an actual of 900 scores 88.89 |
| Predict.AccuracyFloor | bikritracker/frontend/pages/predict.js:79-80 | a forecast at least double the actual, or at most 0, scores 0 |
| Predict.AccuracyMonotone | bikritracker/frontend/pages/predict.js:79-80 | a smaller relative error never scores lower |
| Predict.ActualPatch | bikritracker/frontend/pages/predict.js:83-87 | the updates carry `actual`, `actual_date` and the computed accuracy, and no other key |
| Predict.SaveActualEffect | bikritracker/frontend/pages/predict.js:83-89 | recording an actual changes only those three fields of the record with the active id, keeps every position, and leaves the ledger alone when the id is gone |
| Predict.ProductLabel | bikritracker/frontend/pages/predict.js:45 | the record's product name is the product's name or else the trimmed "category subcategory" |
| Predict.NewRecord | bikritracker/frontend/pages/predict.js:43-51 | a new record has the fresh id, the response's forecast, no actual or accuracy, and the response's date or else the local next-month date |
| Predict.PrependDuplicatesKey | bikritracker/frontend/pages/predict.js:52 | prepending a record whose natural key is already in the ledger leaves the key twice |
| Predict.RepeatForecastDuplicates | bikritracker/frontend/pages/predict.js:43-52 | two forecasts of one product for one date, as written, leave two records with one natural key |
| Predict.PredictPage.constructor | bikritracker/frontend/pages/predict.js:23-26 | on mount the page shows the stored catalog and ledger |
| Predict.PredictPage.Select | bikritracker/frontend/pages/predict.js:102 | the select holds the chosen option |
| Predict.PredictPage.RecordForecast | bikritracker/frontend/pages/predict.js:40-53 | the new record goes in front of the stored ledger, which is saved, shown and made the result |
| Predict.PredictPage.RecordForecastMerged | bikritracker/frontend/pages/predict.js:40-53 | the new ledger is `Upsert` of the stored one with the new record, saved, shown and made the result; a ledger without duplicate natural keys keeps none |
| Predict.PredictPage.HandlePredict | bikritracker/frontend/pages/predict.js:28-58 | nothing is recorded without a selection, without history or when the request fails; otherwise the new record goes in front of the stored ledger, which is saved and shown; loading is off at the end |
| Predict.PredictPage.HandlePredictMerged | bikritracker/frontend/pages/predict.js:28-58 | the same page with the upsert: the new ledger is `Upsert` of the stored one, and a ledger without duplicate natural keys keeps none |
| Predict.PredictPage.HandleDeletePrediction | bikritracker/frontend/pages/predict.js:60-64 | without confirmation nothing changes; with it the ledger without the id is saved and shown |
| Predict.PredictPage.HandleRecordActual | bikritracker/frontend/pages/predict.js:66-69 | the dialog opens on the chosen record |
| Predict.PredictPage.CloseActualModal | bikritracker/frontend/pages/predict.js:124 | the dialog closes and forgets its record |
| Predict.PredictPage.HandleSaveActual | bikritracker/frontend/pages/predict.js:71-91 | the shown ledger is the stored one with the active record's actual, date and accuracy patched, which is saved only when the id is present; the active record is cleared |
| Inventory.NormalizedName | bikritracker/frontend/pages/inventory.js:26 | defines the comparison key `trim().toLowerCase()`; `NormalizedIdempotent` and the save lemmas state its use |
| Inventory.NormalizedIdempotent | bikritracker/frontend/pages/inventory.js:26-31 | a normalized name normalizes to itself |
| Inventory.SaveProduct | bikritracker/frontend/pages/inventory.js:24-48 | defines `onSave`'s outcome: refusal on a clash, else the replaced or prepended catalog; `DecideSave`, `OnSave` and the lemmas below are stated against it |
| Inventory.DeleteProduct | bikritracker/frontend/pages/inventory.js:50-55 | defines the catalog after deleting index `idx`; `RemoveAt` and `DeleteKeepsDistinct` state its properties |
| Common.FindIndex | bikritracker/frontend/pages/inventory.js:31 | `findIndex` returns -1 exactly when no element satisfies the test, and otherwise the first index that does |
| Common.AnyMatch | bikritracker/frontend/pages/inventory.js:39 | `some` is true exactly when some element satisfies the test |
| Inventory.NameTaken | bikritracker/frontend/pages/inventory.js:31-39 | defines the clash test of both branches: some product, other than the edited index (line 31) or any (line 39), has the same normalized name; `AddKeepsDistinct` and `EditKeepsDistinct` are stated with it, and `AddRejectsDuplicate`, `AddFreshName` and `EditRejectsOnlyOthers` spell it out |
| Inventory.DecideSave | bikritracker/frontend/pages/inventory.js:25-45 | the clash check on the copy and the copy it builds give exactly the outcome `SaveProduct` defines: refusal on a clash with another index (editing) or any product (adding), else the replaced or prepended catalog |
| Inventory.AddRejectsDuplicate | bikritracker/frontend/pages/inventory.js:39-43 | adding a name equal to an existing one after trim and lower-casing is refused |
| Inventory.AddFreshName | bikritracker/frontend/pages/inventory.js:44 | adding a fresh name puts the product at index 0 and keeps the rest |
| Inventory.EditRejectsOnlyOthers | bikritracker/frontend/pages/inventory.js:31-35 | an edit is refused exactly when a different index has the normalized name |
| Inventory.EditOwnNameAccepted | bikritracker/frontend/pages/inventory.js:31-35 | in a catalog without clashes, keeping one's own name (in any case or spacing) is accepted |
| Inventory.EditReplacesOnly | bikritracker/frontend/pages/inventory.js:36 | an accepted edit replaces index `editIdx` only, keeping the length and the other entries |
| Inventory.AddKeepsDistinct | bikritracker/frontend/pages/inventory.js:37-45 | an accepted addition keeps normalized names pairwise distinct |
| Inventory.EditKeepsDistinct | bikritracker/frontend/pages/inventory.js:28-36 | an accepted edit keeps normalized names pairwise distinct |
| Inventory.SaveKeepsDistinct | bikritracker/frontend/pages/inventory.js:24-48 | pairwise distinct normalized names before `onSave` stay distinct after it |
| Inventory.DeleteKeepsDistinct | bikritracker/frontend/pages/inventory.js:50-55 | deleting by index keeps normalized names distinct |
| Inventory.InventoryPage.constructor | bikritracker/frontend/pages/inventory.js:13 | on mount the page shows the stored catalog, with the modal closed |
| Inventory.InventoryPage.OpenAdd | bikritracker/frontend/pages/inventory.js:15-18 | the modal opens in add mode |
| Inventory.InventoryPage.OpenEdit | bikritracker/frontend/pages/inventory.js:19-22 | the modal opens on the chosen row |
| Inventory.InventoryPage.OnSave | bikritracker/frontend/pages/inventory.js:24-48 | a clash leaves the catalog unchanged and unsaved; otherwise the catalog with the product replaced or prepended is shown and saved |
| Inventory.InventoryPage.SaveFromModal | bikritracker/frontend/pages/inventory.js:73-76 | the same outcome, catalog and stored catalog as `onSave`, after which the modal is closed in both cases |
| Inventory.InventoryPage.OnDelete | bikritracker/frontend/pages/inventory.js:50-55 | without confirmation nothing changes; with it the catalog without index `idx` is shown and saved |
| ProductList.IsLatestIn | bikritracker/frontend/components/ProductList.js:4-23 | defines the row the scan must pick: the first row with the latest valid date, or the first row when no date is valid; `GetLatestSalesValue` and `LatestUnique` are stated against it |
| ProductList.SalesShown | bikritracker/frontend/components/ProductList.js:18 | defines the cell for the chosen row: its sales, or "-" when they are `null` or `undefined` |
| ProductList.GetLatestSalesValue | bikritracker/frontend/components/ProductList.js:4-23 | no history gives "-"; otherwise the shown value is the sales, or "-" when missing, of the row with the latest valid date, the earliest such row on ties, and the first row when no date is valid |
| ProductList.LatestUnique | bikritracker/frontend/components/ProductList.js:10-17 | exactly one row meets that description |
| ProductList.StrictlyLatestChosen | bikritracker/frontend/components/ProductList.js:8-17 | a row dated later than every other valid row is the one shown, wherever it stands |
| ProductList.NoValidDateShowsFirst | bikritracker/frontend/components/ProductList.js:8-12 | when no date parses, the first row is shown |
| ProductModal.InitialProduct | bikritracker/frontend/components/ProductModal.js:7-9 | a new product has the generated id, empty text fields and an empty history; an edited one starts as it is |
| ProductModal.Update | bikritracker/frontend/components/ProductModal.js:14 | only the typed field changes |
| ProductModal.UpdateHistory | bikritracker/frontend/components/ProductModal.js:15-19 | the history keeps its length and only field `k` of row `idx` changes |
| ProductModal.AddHistory | bikritracker/frontend/components/ProductModal.js:20 | exactly one blank row is appended |
| ProductModal.RemoveHistory | bikritracker/frontend/components/ProductModal.js:21-24 | exactly row `i` is removed, the others keep their order |
| ProductModal.CoerceSales | bikritracker/frontend/components/ProductModal.js:28 | the save-time coercion of a sales cell is always a number: 0 for a falsy cell, `Number` of the cell otherwise |
| ProductModal.CoerceSalesTwice | bikritracker/frontend/components/ProductModal.js:28 | coercing again changes nothing, except that NaN becomes 0 |
| ProductModal.CoerceTypedSales | bikritracker/frontend/components/ProductModal.js:28 | a typed whole number is stored as that number and a blank cell as 0 |
| ProductModal.CoercedRows | bikritracker/frontend/components/ProductModal.js:28 | every row keeps its date and gets its sales coerced |
| ProductModal.Save | bikritracker/frontend/components/ProductModal.js:26-31 | `onSave` is not called exactly when the name trims to nothing; otherwise it gets the product with its history coerced |
| ProductModal.SavedProductShape | bikritracker/frontend/components/ProductModal.js:27-28 | a saved product keeps its fields, its number of rows and their dates, and holds only numbers as sales |
| ProductModal.SaveIdempotent | bikritracker/frontend/components/ProductModal.js:26-31 | re-saving a saved product unchanged gives the same product, unless a sales cell was NaN |
| PredictionResult.PercentMetric | bikritracker/frontend/components/PredictionResult.js:12 | defines the metric test: a non-empty name that upper-cases to "SMAPE" or "MAPE"; `MetricCaseInsensitive` and `LowerCaseMetrics` state its properties |
| PredictionResult.AccuracyFromError | bikritracker/frontend/components/PredictionResult.js:13 | the accuracy computed from an error percentage is never negative, is `round2(100 - value)` whenever that rounding is not negative (`100 - value > -0.005`), 0 for an error of 100 or more, and NaN for NaN |
| PredictionResult.AccuracyText | bikritracker/frontend/components/PredictionResult.js:2-16 | no result shows nothing; no historical accuracy shows "N/A"; a reported accuracy wins; otherwise SMAPE/MAPE with a numeric value is converted, and anything else shows "N/A" |
| PredictionResult.MetricCaseInsensitive | bikritracker/frontend/components/PredictionResult.js:12 | metric names that differ only in letter case are treated alike |
| PredictionResult.LowerCaseMetrics | bikritracker/frontend/components/PredictionResult.js:12 | "smape" and "Mape" are accepted; "rmse" and the empty name are not |
| PredictionResult.ComputedAccuracyBounds | bikritracker/frontend/components/PredictionResult.js:13 | an error between 0 and 100 gives an accuracy between 0 and 100, within half a hundredth of `100 - value`; a larger error never gives a higher accuracy |

## Left out

- `localStorage` and JSON text are not modelled. The store maps each key to an already parsed list, or to `Unreadable` for text that does not parse. A key whose text parses to something other than a list of the expected kind reads as the empty list; the source would return that value as it is.
- `addOrUpdatePrediction`'s `catch` branch (`lib/storage.js:80-83`) is not modelled. In the source it is reached when the stored ledger parses to something other than a list of objects: a stored `{}` or `null` makes `list.findIndex` throw, and a stored `[null]` makes `p.productName` throw; the `catch` then returns the loaded value without saving. The model cannot reach it only because the store reads such data as the empty list (previous line).
- `genId`, `Date` and the next-month date (`pages/predict.js:11`, `pages/predict.js:34-35`, `components/ProductModal.js:4`) are parameters.
- `predictSales` and `lib/api.js`, the request body, and the `await` are not modelled. The page receives the request's outcome as a parameter. State changes during the wait (another click while `loading`) belong to React scheduling.
- Numbers are reals, not IEEE-754 doubles. `Number(...)` reads `"Infinity"` and binary, octal or hex literals as NaN, where JavaScript gives Infinity or their values.
- JsText.ToLower, JsText.ToUpper: `toLowerCase` and `toUpperCase` map ASCII letters only. Unicode case mapping is not modelled.
- Formatting is not modelled: `${accuracy}%`, `toLocaleString` and the "N/A" text. `PredictionResult.AccuracyText` returns which form is shown.
- Predict.AccuracyOf: the model has a single absent value for `predicted`, which gives no accuracy. In the source a record whose `predicted` key is missing (`undefined`) passes the `!== null` test: with `actual === 0` it scores 0 (`pages/predict.js:76-77`), and with any other actual it gives NaN (`Math.abs(undefined - actual)`, `pages/predict.js:79-80`).
- ProductList.GetLatestSalesValue: history rows are always objects in the model. The `null` row that the `try`/`catch` and the `best &&` test guard against is not represented.
- ProductModal.Save: names are strings. A product without a `name` key, where `product.name.trim()` throws, is not represented.
- Inventory.InventoryPage.OnSave requires the edited index to be in range. The page sets it only from a rendered row; the source would write past the end of the array.
- `selectedIdx` is a string in the source and a natural number here.
- React rendering, effects that re-run on prop changes, `alert` and the backdrop click are not modelled. `confirm` is a boolean input.
- `PredictionHistory.js`, `NavBar.js`, `pages/index.js` and the backend are not part of this model.
- JsValue.StringToNumber: its own contract states only that the result is a number or NaN. The values of blank, whole, negative, fractional and digit-free strings are stated by `BlankIsZero`, `DecimalRoundTrip`, `NegativeDecimal`, `FractionRoundTrip`, `MinusLiteral` and `NoDigitsIsNaN`.

## Findings

| source | as written | input that shows it | evidently intended | confidence | as-written member | corrected member |
|---|---|---|---|---|---|---|
| bikritracker/frontend/pages/predict.js:52 | the forecast page records every forecast with `addPrediction`, which always prepends | forecast the same product twice on the same day: both responses carry the same next-month date, and the ledger then holds two records with one `(productName, prediction_date)` | a repeated forecast merges into the existing record through `addOrUpdatePrediction`, as that helper's comment (`lib/storage.js:51-57`) describes | medium, not executed | Predict.RepeatForecastDuplicates | Predict.PredictPage.HandlePredictMerged |
| bikritracker/frontend/components/SetActualModal.js:15-16 | `Number(actual)` of an empty field is 0, which passes the `isNaN` and `< 0` checks | open "record actual" on a prediction that has no actual yet and press save without typing: the record gets actual 0, and accuracy 0 or 100 | an empty field is refused with the same alert as other invalid input | medium, not executed | SetActualModal.UntouchedDialogRecordsZero | SetActualModal.HandleSaveChecked |
