/** `components/SetActualModal.js`: the dialog that records the observed
    sales for a prediction. It checks the typed value and hands the parent a
    number and a date. */
module SetActualModal {
  import opened Common
  import opened JsText
  import opened JsValue
  import opened Records

  /** The initial actual field, `entry?.actual ?? ""`: the recorded actual if
      there is one, else the empty string. */
  function InitialActualField(entry: Option<Prediction>): (v: Value)
    ensures entry.Some? && entry.value.actual.Some? ==> v == Num(entry.value.actual.value)
    ensures entry.None? || entry.value.actual.None? ==> v == Str("")
  {
    if entry.Some? && entry.value.actual.Some? then Num(entry.value.actual.value) else Str("")
  }

  /** The initial date field, `entry?.prediction_date ?? ""`. */
  function InitialDateField(entry: Option<Prediction>): (d: string)
    ensures entry.Some? ==> d == entry.value.predictionDate
    ensures entry.None? ==> d == ""
  {
    if entry.Some? then entry.value.predictionDate else ""
  }

  /** The argument `handleSave` passes to `onSave`. */
  datatype ActualInput = ActualInput(actual: real, actualDate: string)

  /** `handleSave`: `Number(actual)` must be a number that is not negative;
      otherwise the dialog alerts and `onSave` is not called. An empty date
      falls back to the entry's prediction date. */
  function HandleSave(actualField: Value, dateField: string, entry: Prediction): (r: Option<ActualInput>)
    ensures r.Some? <==> ToNumber(actualField).Num? && ToNumber(actualField).x >= 0.0
    ensures r.Some? ==> r.value.actual == ToNumber(actualField).x
    ensures r.Some? ==> r.value.actualDate == (if dateField != "" then dateField else entry.predictionDate)
  {
    var a := ToNumber(actualField);
    if a.NaN? || a.x < 0.0 then None
    else Some(ActualInput(a.x, if dateField != "" then dateField else entry.predictionDate))
  }

  /** The dialog has no date input, so the date field keeps its initial value
      and an accepted save always carries the entry's prediction date. */
  lemma SavedDateIsPredictionDate(actualField: Value, entry: Prediction)
    ensures var r := HandleSave(actualField, InitialDateField(Some(entry)), entry);
      r.Some? ==> r.value.actualDate == entry.predictionDate
  {
  }

  /** Text with no digit in it is refused. */
  lemma RejectsNonNumeric(s: string, date: string, entry: Prediction)
    requires Trim(s) != []
    requires forall k :: 0 <= k < |s| ==> !IsDigit(s[k])
    ensures HandleSave(Str(s), date, entry).None?
  {
    NoDigitsIsNaN(s);
  }

  /** A negative number is refused, typed or already numeric. */
  lemma RejectsNegative(n: nat, x: real, date: string, entry: Prediction)
    requires n > 0 && x < 0.0
    ensures HandleSave(Str("-" + DecimalDigits(n)), date, entry).None?
    ensures HandleSave(Num(x), date, entry).None?
  {
    NegativeDecimal(n);
  }

  /** A typed negative fraction such as `-2.5` is refused. */
  lemma RejectsNegativeFraction(whole: string, frac: string, date: string, entry: Prediction)
    requires whole != []
    requires forall k :: 0 <= k < |whole| ==> IsDigit(whole[k])
    requires forall k :: 0 <= k < |frac| ==> IsDigit(frac[k])
    requires FractionValue(whole, frac) > 0.0
    ensures HandleSave(Str("-" + (whole + "." + frac)), date, entry).None?
  {
    var u := whole + "." + frac;
    assert u[|u| - 1] == if frac == [] then '.' else frac[|frac| - 1];
    UnsignedFraction(whole, frac);
    MinusLiteral(u, FractionValue(whole, frac));
  }

  /** A typed decimal fraction such as `12.5` is accepted as its value. */
  lemma AcceptsFraction(whole: string, frac: string, date: string, entry: Prediction)
    requires whole != []
    requires forall k :: 0 <= k < |whole| ==> IsDigit(whole[k])
    requires forall k :: 0 <= k < |frac| ==> IsDigit(frac[k])
    ensures HandleSave(Str(whole + "." + frac), date, entry).Some?
    ensures HandleSave(Str(whole + "." + frac), date, entry).value.actual == FractionValue(whole, frac)
  {
    FractionRoundTrip(whole, frac);
  }

  /** A typed whole number, zero included, is accepted as that number. */
  lemma AcceptsWholeNumber(n: nat, date: string, entry: Prediction)
    ensures HandleSave(Str(DecimalDigits(n)), date, entry).Some?
    ensures HandleSave(Str(DecimalDigits(n)), date, entry).value.actual == n as real
  {
    DecimalRoundTrip(n);
  }

  /** As written, an empty (or blank) field is accepted and records an actual
      of 0, because `Number("")` is 0. */
  lemma BlankAcceptedAsZero(s: string, date: string, entry: Prediction)
    requires Trim(s) == []
    ensures HandleSave(Str(s), date, entry) == Some(ActualInput(0.0, if date != "" then date else entry.predictionDate))
  {
    BlankIsZero(s);
  }

  /** `handleSave` with the evidently intended check that something was typed:
      a blank field is refused like any other non-number. */
  function HandleSaveChecked(actualField: Value, dateField: string, entry: Prediction): (r: Option<ActualInput>)
    ensures actualField.Str? && Trim(actualField.s) == [] ==> r.None?
    ensures !(actualField.Str? && Trim(actualField.s) == []) ==> r == HandleSave(actualField, dateField, entry)
  {
    if actualField.Str? && Trim(actualField.s) == [] then None else HandleSave(actualField, dateField, entry)
  }

  /** Opening the dialog on a prediction that has no actual yet and pressing
      save at once records an actual of 0 as written; the checked version
      refuses it. */
  lemma UntouchedDialogRecordsZero(entry: Prediction)
    requires entry.actual.None?
    ensures var field, date := InitialActualField(Some(entry)), InitialDateField(Some(entry));
      && HandleSave(field, date, entry) == Some(ActualInput(0.0, entry.predictionDate))
      && HandleSaveChecked(field, date, entry).None?
  {
    BlankAcceptedAsZero("", entry.predictionDate, entry);
  }
}
