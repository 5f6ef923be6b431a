/** Loosely typed JavaScript values as they reach the core from form fields and
    from stored JSON, with the two coercions the core applies to them:
    truthiness (`x || d`, `if (x)`) and `Number(x)`. */
module JsValue {
  import opened Common
  import opened JsText

  /** A field value: `Num` is a finite number, `NaN` the one non-finite number
      the core can produce. */
  datatype Value = Undefined | Null | Str(s: string) | Num(x: real) | NaN

  /** `x === null || x === undefined`. */
  predicate IsNullish(v: Value) {
    v.Undefined? || v.Null?
  }

  /** `typeof x === "number"` (true of NaN as well). */
  predicate IsNumber(v: Value) {
    v.Num? || v.NaN?
  }

  /** JavaScript truthiness: `undefined`, `null`, `""`, `0` and `NaN` are falsy. */
  predicate Truthy(v: Value) {
    match v
    case Undefined => false
    case Null => false
    case Str(s) => s != ""
    case Num(x) => x != 0.0
    case NaN => false
  }

  predicate IsDigit(c: char) {
    '0' <= c <= '9'
  }

  function DigitValue(c: char): nat
    requires IsDigit(c)
  {
    c as int - '0' as int
  }

  function Pow10(n: nat): (r: real)
    ensures r >= 1.0
  {
    if n == 0 then 1.0 else 10.0 * Pow10(n - 1)
  }

  /** The number of leading decimal digits of `t`. */
  function DigitRun(t: string): (n: nat)
    ensures n <= |t|
    ensures forall k :: 0 <= k < n ==> IsDigit(t[k])
    ensures n < |t| ==> !IsDigit(t[n])
  {
    if t != [] && IsDigit(t[0]) then 1 + DigitRun(t[1..]) else 0
  }

  /** The value of a string of decimal digits, most significant first. */
  function DigitsValue(ds: string): nat
    requires forall k :: 0 <= k < |ds| ==> IsDigit(ds[k])
  {
    if ds == [] then 0 else DigitsValue(ds[..|ds| - 1]) * 10 + DigitValue(ds[|ds| - 1])
  }

  /** `m` times ten to the power `e`. */
  function Scale(m: real, e: int): real {
    if e >= 0 then m * Pow10(e) else m / Pow10(-e)
  }

  /** The exponent after `e`/`E`: an optional sign and at least one digit, with
      nothing after them. */
  function Exponent(t: string): Option<int> {
    var neg := t != [] && t[0] == '-';
    var body := if t != [] && (t[0] == '-' || t[0] == '+') then t[1..] else t;
    var n := DigitRun(body);
    if n == 0 || n != |body| then None
    else Some(if neg then -(DigitsValue(body) as int) else DigitsValue(body))
  }

  /** StrUnsignedDecimalLiteral of ECMA-262 section 7.1.4.1.1: digits, an
      optional fraction, an optional exponent and nothing else. */
  function UnsignedDecimal(t: string): (r: Value)
    ensures IsNumber(r)
  {
    var i := DigitRun(t);
    if i < |t| && t[i] == '.' then
      var f := DigitRun(t[i + 1..]);
      Decimal(t[..i], t[i + 1..][..f], t[i + 1 + f..])
    else
      Decimal(t[..i], [], t[i..])
  }

  /** The value of integer digits, fraction digits and what follows them. */
  function Decimal(whole: string, frac: string, after: string): (r: Value)
    requires forall k :: 0 <= k < |whole| ==> IsDigit(whole[k])
    requires forall k :: 0 <= k < |frac| ==> IsDigit(frac[k])
    ensures IsNumber(r)
  {
    if whole == [] && frac == [] then NaN
    else
      var mantissa := DigitsValue(whole) as real + DigitsValue(frac) as real / Pow10(|frac|);
      if after == [] then Num(mantissa)
      else if after[0] == 'e' || after[0] == 'E' then
        match Exponent(after[1..])
        case Some(e) => Num(Scale(mantissa, e))
        case None => NaN
      else NaN
  }

  /** `Number(s)` for a string: surrounding white space is ignored, the empty
      string is 0, a decimal literal with an optional sign is its value, and
      everything else is NaN. */
  function StringToNumber(s: string): (r: Value)
    ensures IsNumber(r)
  {
    var t := Trim(s);
    if t == [] then Num(0.0)
    else if t[0] == '-' then
      match UnsignedDecimal(t[1..])
      case Num(x) => Num(-x)
      case _ => NaN
    else if t[0] == '+' then UnsignedDecimal(t[1..])
    else UnsignedDecimal(t)
  }

  /** `Number(v)`: always a number, possibly NaN; a number is left unchanged. */
  function ToNumber(v: Value): (r: Value)
    ensures IsNumber(r)
    ensures IsNumber(v) ==> r == v
    ensures v.Null? ==> r == Num(0.0)
    ensures v.Undefined? ==> r == NaN
  {
    match v
    case Undefined => NaN
    case Null => Num(0.0)
    case Str(s) => StringToNumber(s)
    case Num(_) => v
    case NaN => NaN
  }

  /** The decimal spelling of a natural number, as `String(n)` writes it. */
  function DecimalDigits(n: nat): (ds: string)
    ensures ds != []
    ensures forall k :: 0 <= k < |ds| ==> IsDigit(ds[k])
  {
    var d := ['0' + (n % 10) as char];
    if n < 10 then d else DecimalDigits(n / 10) + d
  }

  lemma {:induction false} DigitsValueOfDecimal(n: nat)
    ensures DigitsValue(DecimalDigits(n)) == n
  {
    var ds := DecimalDigits(n);
    if n >= 10 {
      DigitsValueOfDecimal(n / 10);
      assert ds[..|ds| - 1] == DecimalDigits(n / 10);
    }
  }

  /** The blank field is 0: `Number("") === 0`. */
  lemma BlankIsZero(s: string)
    requires Trim(s) == []
    ensures ToNumber(Str(s)) == Num(0.0)
  {
  }

  /** The digits of a decimal spelling, read as an unsigned literal, give the
      number back. */
  lemma UnsignedOfDecimal(n: nat)
    ensures UnsignedDecimal(DecimalDigits(n)) == Num(n as real)
  {
    var ds := DecimalDigits(n);
    assert DigitRun(ds) == |ds|;
    DigitsValueOfDecimal(n);
    assert ds[..|ds|] == ds;
  }

  /** A literal that starts with a digit and does not end in white space is
      read as an unsigned literal. */
  lemma PlainLiteral(u: string)
    requires u != [] && IsDigit(u[0]) && !IsJsSpace(u[|u| - 1])
    ensures ToNumber(Str(u)) == UnsignedDecimal(u)
  {
    TrimNoSpaceEnds(u);
  }

  /** A minus sign in front of a literal that reads as `x` gives `-x`. */
  lemma MinusLiteral(u: string, x: real)
    requires u != [] && !IsJsSpace(u[|u| - 1])
    requires UnsignedDecimal(u) == Num(x)
    ensures ToNumber(Str("-" + u)) == Num(-x)
  {
    var s := "-" + u;
    assert s[|s| - 1] == u[|u| - 1];
    TrimNoSpaceEnds(s);
    assert s[0] == '-' && s[1..] == u;
  }

  /** Reading back the decimal spelling of a natural number gives that number. */
  lemma DecimalRoundTrip(n: nat)
    ensures ToNumber(Str(DecimalDigits(n))) == Num(n as real)
  {
    var ds := DecimalDigits(n);
    PlainLiteral(ds);
    UnsignedOfDecimal(n);
  }

  /** A minus sign in front of the spelling of a positive number gives its
      negation. */
  lemma NegativeDecimal(n: nat)
    requires n > 0
    ensures ToNumber(Str("-" + DecimalDigits(n))) == Num(-(n as real))
  {
    UnsignedOfDecimal(n);
    MinusLiteral(DecimalDigits(n), n as real);
  }

  /** The value of the literal `whole.frac`: the whole digits plus the
      fraction digits divided by ten to the power of their count. */
  function FractionValue(whole: string, frac: string): (x: real)
    requires forall k :: 0 <= k < |whole| ==> IsDigit(whole[k])
    requires forall k :: 0 <= k < |frac| ==> IsDigit(frac[k])
    ensures x >= DigitsValue(whole) as real >= 0.0
  {
    DigitsValue(whole) as real + DigitsValue(frac) as real / Pow10(|frac|)
  }

  /** Digits, a point and digits, read as an unsigned literal, give the value
      of the fraction they spell. */
  lemma UnsignedFraction(whole: string, frac: string)
    requires whole != []
    requires forall k :: 0 <= k < |whole| ==> IsDigit(whole[k])
    requires forall k :: 0 <= k < |frac| ==> IsDigit(frac[k])
    ensures UnsignedDecimal(whole + "." + frac) == Num(FractionValue(whole, frac))
  {
    var t := whole + "." + frac;
    var i := |whole|;
    assert t[i] == '.';
    assert forall k :: 0 <= k < i ==> t[k] == whole[k];
    assert DigitRun(t) == i;
    assert t[..i] == whole;
    assert t[i + 1..] == frac;
    assert DigitRun(frac) == |frac|;
    assert frac[..|frac|] == frac;
    assert t[i + 1 + |frac|..] == [];
  }

  /** A typed decimal fraction such as `12.5` reads as its value. */
  lemma FractionRoundTrip(whole: string, frac: string)
    requires whole != []
    requires forall k :: 0 <= k < |whole| ==> IsDigit(whole[k])
    requires forall k :: 0 <= k < |frac| ==> IsDigit(frac[k])
    ensures ToNumber(Str(whole + "." + frac)) == Num(FractionValue(whole, frac))
  {
    var u := whole + "." + frac;
    assert u[0] == whole[0];
    assert u[|u| - 1] == if frac == [] then '.' else frac[|frac| - 1];
    PlainLiteral(u);
    UnsignedFraction(whole, frac);
  }

  lemma NoDigitsUnsigned(u: string)
    requires forall k :: 0 <= k < |u| ==> !IsDigit(u[k])
    ensures UnsignedDecimal(u) == NaN
  {
    assert DigitRun(u) == 0;
    if u != [] && u[0] == '.' {
      assert DigitRun(u[1..]) == 0;
      assert u[1..][..0] == [];
    }
  }

  lemma TrimNoDigits(s: string)
    requires forall k :: 0 <= k < |s| ==> !IsDigit(s[k])
    ensures forall k :: 0 <= k < |Trim(s)| ==> !IsDigit(Trim(s)[k])
  {
    var t := Trim(s);
    TrimShape(s);
    var i := |s| - |TrimStart(s)|;
    forall k | 0 <= k < |t|
      ensures !IsDigit(t[k])
    {
      assert t[k] == s[i + k];
    }
  }

  /** A string with no digit in it is not a number. */
  lemma NoDigitsIsNaN(s: string)
    requires Trim(s) != []
    requires forall k :: 0 <= k < |s| ==> !IsDigit(s[k])
    ensures ToNumber(Str(s)) == NaN
  {
    var t := Trim(s);
    TrimNoDigits(s);
    if t[0] == '-' || t[0] == '+' {
      var u := t[1..];
      assert forall k :: 0 <= k < |u| ==> u[k] == t[k + 1];
      NoDigitsUnsigned(u);
    } else {
      NoDigitsUnsigned(t);
    }
  }
}
