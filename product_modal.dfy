/** `components/ProductModal.js`: the add/edit form of a catalog product. Each
    edit replaces the form's product by a new value; saving requires a name
    and turns every sales cell into a number. */
module ProductModal {
  import opened Common
  import opened JsText
  import opened JsValue
  import opened Records

  /** The form: `initial || {id: genId(), name: "", ..., history: []}`, with the
      generated id passed in. */
  function InitialProduct(initial: Option<Product>, freshId: string): (p: Product)
    ensures initial.Some? ==> p == initial.value
    ensures initial.None? ==> p.id == freshId && p.name == "" && p.category == "" && p.subcategory == ""
    ensures initial.None? ==> p.city == "" && p.region == "" && p.history == Some([])
  {
    if initial.Some? then initial.value else Product(freshId, "", "", "", "", "", Some([]))
  }

  /** The text inputs of the form. */
  datatype ProductKey = Name | Category | Subcategory | City | Region

  /** `update(k, v)`: one text field takes the typed value, nothing else changes. */
  function Update(p: Product, k: ProductKey, v: string): (r: Product)
    ensures r.id == p.id && r.history == p.history
    ensures r.name == (if k == Name then v else p.name)
    ensures r.category == (if k == Category then v else p.category)
    ensures r.subcategory == (if k == Subcategory then v else p.subcategory)
    ensures r.city == (if k == City then v else p.city)
    ensures r.region == (if k == Region then v else p.region)
  {
    match k
    case Name => p.(name := v)
    case Category => p.(category := v)
    case Subcategory => p.(subcategory := v)
    case City => p.(city := v)
    case Region => p.(region := v)
  }

  /** The inputs of one history row: the date picker and the sales box. */
  datatype RowKey = Orderdate | Sales

  /** `updateHistory(idx, k, v)`: row `idx` of `product.history || []` takes the
      typed text (the sales box yields a string), every other row and field is
      kept. */
  function UpdateHistory(p: Product, idx: nat, k: RowKey, v: string): (r: Product)
    requires idx < |Rows(p)|
    ensures r == p.(history := r.history) && r.history.Some?
    ensures |Rows(r)| == |Rows(p)|
    ensures forall j :: 0 <= j < |Rows(p)| && j != idx ==> Rows(r)[j] == Rows(p)[j]
    ensures k == Orderdate ==> Rows(r)[idx] == Rows(p)[idx].(orderdate := v)
    ensures k == Sales ==> Rows(r)[idx] == Rows(p)[idx].(sales := Str(v))
  {
    var h := Rows(p);
    var row := match k
      case Orderdate => h[idx].(orderdate := v)
      case Sales => h[idx].(sales := Str(v));
    p.(history := Some(h[idx := row]))
  }

  /** `addHistory()`: a blank row is appended. */
  function AddHistory(p: Product): (r: Product)
    ensures r == p.(history := r.history)
    ensures Rows(r) == Rows(p) + [HistoryRow("", Str(""))]
  {
    p.(history := Some(Rows(p) + [HistoryRow("", Str(""))]))
  }

  /** `removeHistory(i)`: row `i` is dropped, the others keep their order. */
  function RemoveHistory(p: Product, i: int): (r: Product)
    ensures r == p.(history := r.history)
    ensures 0 <= i < |Rows(p)| ==> |Rows(r)| == |Rows(p)| - 1
    ensures 0 <= i < |Rows(p)| ==> Rows(r) == Rows(p)[..i] + Rows(p)[i + 1..]
    ensures !(0 <= i < |Rows(p)|) ==> Rows(r) == Rows(p)
  {
    p.(history := Some(RemoveAt(Rows(p), i)))
  }

  /** `Number(h.Sales || 0)`: a falsy cell (empty text, 0, NaN, null) becomes
      0; anything else goes through `Number`. */
  function CoerceSales(v: Value): (r: Value)
    ensures IsNumber(r)
    ensures !Truthy(v) ==> r == Num(0.0)
    ensures Truthy(v) ==> r == ToNumber(v)
  {
    if Truthy(v) then ToNumber(v) else Num(0.0)
  }

  /** Coercing a coerced cell again changes nothing, unless the first
      coercion gave NaN: that one turns into 0. */
  lemma CoerceSalesTwice(v: Value)
    ensures CoerceSales(v) != NaN ==> CoerceSales(CoerceSales(v)) == CoerceSales(v)
    ensures CoerceSales(v) == NaN ==> CoerceSales(CoerceSales(v)) == Num(0.0)
  {
  }

  /** A typed whole number is stored as that number, and a blank cell as 0. */
  lemma CoerceTypedSales(n: nat, s: string)
    requires Trim(s) == []
    ensures CoerceSales(Str(DecimalDigits(n))) == Num(n as real)
    ensures CoerceSales(Str(s)) == Num(0.0)
  {
    DecimalRoundTrip(n);
    if s != [] {
      BlankIsZero(s);
    }
  }

  /** The history `save` builds: every row keeps its date and gets its sales
      coerced. */
  function CoercedRows(h: seq<HistoryRow>): (r: seq<HistoryRow>)
    ensures |r| == |h|
    ensures forall j :: 0 <= j < |h| ==> r[j].orderdate == h[j].orderdate && r[j].sales == CoerceSales(h[j].sales)
  {
    seq(|h|, j requires 0 <= j < |h| => HistoryRow(h[j].orderdate, CoerceSales(h[j].sales)))
  }

  /** `save()`: the product handed to `onSave`, or `None` when the name is blank
      (the form alerts and stays open). */
  function Save(p: Product): (r: Option<Product>)
    ensures r.None? <==> Trim(p.name) == []
    ensures r.Some? ==> r.value == p.(history := Some(CoercedRows(Rows(p))))
  {
    if Trim(p.name) == [] then None else Some(p.(history := Some(CoercedRows(Rows(p)))))
  }

  /** What a saved product holds: the same fields, the same number of rows with
      the same dates, and only numbers as sales. */
  lemma SavedProductShape(p: Product)
    requires Trim(p.name) != []
    ensures var q := Save(p).value;
      && q.id == p.id && q.name == p.name && q.category == p.category && q.subcategory == p.subcategory
      && q.city == p.city && q.region == p.region
      && |Rows(q)| == |Rows(p)|
      && forall j :: 0 <= j < |Rows(q)| ==> Rows(q)[j].orderdate == Rows(p)[j].orderdate && IsNumber(Rows(q)[j].sales)
  {
  }

  /** Opening a saved product and saving it again unchanged gives the same
      product, as long as no sales cell was NaN. */
  lemma {:induction false} SaveIdempotent(p: Product)
    requires Trim(p.name) != []
    requires forall j :: 0 <= j < |Rows(p)| ==> CoerceSales(Rows(p)[j].sales) != NaN
    ensures Save(Save(p).value) == Save(p)
  {
    var q := Save(p).value;
    var h := CoercedRows(Rows(p));
    forall j | 0 <= j < |h|
      ensures CoercedRows(h)[j] == h[j]
    {
      CoerceSalesTwice(Rows(p)[j].sales);
    }
    assert CoercedRows(h) == h;
  }
}
