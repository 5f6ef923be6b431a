/** `components/ProductList.js`: the "Last Sales" cell of the catalog table
    shows the sales of the history row with the latest order date. Date
    parsing (`new Date(s)`) is the parameter `timeOf`, which gives the
    timestamp of a date string or `None` for an invalid date. */
module ProductList {
  import opened Common
  import opened JsValue
  import opened Records

  /** The timestamp of row `i`'s order date, `None` when it does not parse. */
  function DateAt(h: seq<HistoryRow>, timeOf: string -> Option<int>, i: nat): Option<int>
    requires i < |h|
  {
    timeOf(h[i].orderdate)
  }

  /** Some row among the first `n` has a valid order date. */
  ghost predicate AnyValid(h: seq<HistoryRow>, timeOf: string -> Option<int>, n: nat)
    requires n <= |h|
  {
    exists j :: 0 <= j < n && DateAt(h, timeOf, j).Some?
  }

  /** Row `k` is the latest among the first `n` rows: when some row has a valid
      date, `k`'s date is valid, no valid date is later, and every earlier
      valid date is strictly earlier (ties go to the first row); when no row
      has a valid date, `k` is the first row. */
  ghost predicate IsLatestIn(h: seq<HistoryRow>, timeOf: string -> Option<int>, n: nat, k: nat)
    requires n <= |h|
  {
    && k < n
    && (AnyValid(h, timeOf, n) ==>
          && DateAt(h, timeOf, k).Some?
          && (forall j :: 0 <= j < n && DateAt(h, timeOf, j).Some? ==> DateAt(h, timeOf, j).value <= DateAt(h, timeOf, k).value)
          && (forall j :: 0 <= j < k && DateAt(h, timeOf, j).Some? ==> DateAt(h, timeOf, j).value < DateAt(h, timeOf, k).value))
    && (!AnyValid(h, timeOf, n) ==> k == 0)
  }

  /** The cell for a chosen row: its sales, or `"-"` when they are missing. */
  function SalesShown(row: HistoryRow): Value {
    if IsNullish(row.sales) then Str("-") else row.sales
  }

  /** `getLatestSalesValue(history)`: `"-"` without history; otherwise the
      sales of the latest row, found by one scan that keeps the first row
      until a valid date is seen and then moves only to a strictly later one. */
  method GetLatestSalesValue(history: Option<seq<HistoryRow>>, timeOf: string -> Option<int>) returns (shown: Value)
    ensures history.None? || history.value == [] ==> shown == Str("-")
    ensures history.Some? && history.value != [] ==>
      exists k: nat :: k < |history.value| && IsLatestIn(history.value, timeOf, |history.value|, k) && shown == SalesShown(history.value[k])
  {
    if history.None? || |history.value| == 0 {
      return Str("-");
    }
    var h := history.value;
    var best := h[0];
    var bestDate := timeOf(h[0].orderdate);
    ghost var bestIdx := 0;
    var i := 1;
    while i < |h|
      invariant 1 <= i <= |h|
      invariant bestIdx < i && best == h[bestIdx] && bestDate == DateAt(h, timeOf, bestIdx)
      invariant IsLatestIn(h, timeOf, i, bestIdx)
    {
      var d := timeOf(h[i].orderdate);
      if d.None? {
        i := i + 1;
        continue;
      }
      if bestDate.None? || d.value > bestDate.value {
        bestDate := d;
        best := h[i];
        bestIdx := i;
      }
      i := i + 1;
    }
    shown := SalesShown(best);
  }

  /** The latest row is determined by the history and the date parser. */
  lemma LatestUnique(h: seq<HistoryRow>, timeOf: string -> Option<int>, k1: nat, k2: nat)
    requires IsLatestIn(h, timeOf, |h|, k1) && IsLatestIn(h, timeOf, |h|, k2)
    ensures k1 == k2
  {
  }

  /** A row whose date is later than every other valid date is the one shown,
      wherever it stands in the history. */
  lemma StrictlyLatestChosen(h: seq<HistoryRow>, timeOf: string -> Option<int>, m: nat)
    requires m < |h| && DateAt(h, timeOf, m).Some?
    requires forall j :: 0 <= j < |h| && j != m && DateAt(h, timeOf, j).Some? ==> DateAt(h, timeOf, j).value < DateAt(h, timeOf, m).value
    ensures IsLatestIn(h, timeOf, |h|, m)
    ensures forall k :: IsLatestIn(h, timeOf, |h|, k) ==> k == m
  {
    assert AnyValid(h, timeOf, |h|);
    forall k | IsLatestIn(h, timeOf, |h|, k)
      ensures k == m
    {
      LatestUnique(h, timeOf, k, m);
    }
  }

  /** With no parsable date anywhere, the first row is the one shown. */
  lemma NoValidDateShowsFirst(h: seq<HistoryRow>, timeOf: string -> Option<int>)
    requires h != []
    requires forall j :: 0 <= j < |h| ==> DateAt(h, timeOf, j).None?
    ensures IsLatestIn(h, timeOf, |h|, 0)
  {
  }
}
