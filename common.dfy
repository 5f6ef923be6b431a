/** Small helpers shared by every module of the model. */
module Common {

  /** A value that may be absent: JavaScript's `null`/`undefined` for a typed field. */
  datatype Option<T> = None | Some(value: T) {
    /** `x ?? default` and `x || default` on a nullable field. */
    function GetOr(default: T): T {
      match this
      case Some(v) => v
      case None => default
    }
  }

  /** One key of an object spread `{...old, ...updates}`: `Keep` when `updates`
      lacks the key, `Put(v)` when it carries it. */
  datatype Field<T> = Keep | Put(value: T)

  /** The value a key has after `{...old, ...updates}`. */
  function Patched<T>(current: T, f: Field<T>): (r: T)
    ensures f.Keep? ==> r == current
    ensures f.Put? ==> r == f.value
  {
    match f
    case Keep => current
    case Put(v) => v
  }

  /** `s.filter((_, j) => j !== i)`: drops the element at `i`; an index outside
      the sequence leaves it as it is. */
  function RemoveAt<T>(s: seq<T>, i: int): (r: seq<T>)
    ensures 0 <= i < |s| ==> |r| == |s| - 1
    ensures 0 <= i < |s| ==> forall k :: 0 <= k < i ==> r[k] == s[k]
    ensures 0 <= i < |s| ==> forall k :: i <= k < |r| ==> r[k] == s[k + 1]
    ensures !(0 <= i < |s|) ==> r == s
  {
    if 0 <= i < |s| then s[..i] + s[i + 1..] else s
  }

  /** Removing a later position commutes with keeping the first element. */
  lemma RemoveAtCons<T>(s: seq<T>, i: nat)
    requires 0 < i < |s|
    ensures RemoveAt(s, i) == [s[0]] + RemoveAt(s[1..], i - 1)
  {
    var l, t := RemoveAt(s, i), RemoveAt(s[1..], i - 1);
    var r := [s[0]] + t;
    assert |l| == |r|;
    forall k | 0 <= k < |l|
      ensures l[k] == r[k]
    {
      if k > 0 {
        assert r[k] == t[k - 1];
        if k < i {
          assert t[k - 1] == s[1..][k - 1] == s[k];
        } else {
          assert t[k - 1] == s[1..][k] == s[k + 1];
        }
      }
    }
  }

  /** `s.map(f)`. */
  function MapSeq<A, B>(s: seq<A>, f: A -> B): (r: seq<B>)
    ensures |r| == |s|
    ensures forall k :: 0 <= k < |s| ==> r[k] == f(s[k])
  {
    seq(|s|, k requires 0 <= k < |s| => f(s[k]))
  }

  lemma MapPrepend<A, B>(x: A, s: seq<A>, f: A -> B)
    ensures MapSeq([x] + s, f) == [f(x)] + MapSeq(s, f)
  {
    var l, r := MapSeq([x] + s, f), [f(x)] + MapSeq(s, f);
    forall k | 0 <= k < |l|
      ensures l[k] == r[k]
    {
      if k > 0 {
        assert ([x] + s)[k] == s[k - 1];
      }
    }
  }

  lemma MapUpdate<A, B>(s: seq<A>, i: nat, x: A, f: A -> B)
    requires i < |s|
    ensures MapSeq(s[i := x], f) == MapSeq(s, f)[i := f(x)]
  {
  }

  lemma MapRemoveAt<A, B>(s: seq<A>, i: int, f: A -> B)
    ensures MapSeq(RemoveAt(s, i), f) == RemoveAt(MapSeq(s, f), i)
  {
  }

  /** No two positions of `s` hold equal values. */
  predicate Distinct<T(==)>(s: seq<T>) {
    forall i, j :: 0 <= i < j < |s| ==> s[i] != s[j]
  }

  lemma {:induction false} PrependDistinct<T>(x: T, s: seq<T>)
    requires Distinct(s) && x !in s
    ensures Distinct([x] + s)
  {
    var r := [x] + s;
    forall a, b | 0 <= a < b < |r|
      ensures r[a] != r[b]
    {
      assert r[b] == s[b - 1];
      if a > 0 {
        assert r[a] == s[a - 1];
      }
    }
  }

  lemma UpdateDistinct<T>(s: seq<T>, i: nat, x: T)
    requires i < |s| && Distinct(s)
    requires forall j :: 0 <= j < |s| && j != i ==> s[j] != x
    ensures Distinct(s[i := x])
  {
  }

  lemma {:induction false} RemoveAtDistinct<T>(s: seq<T>, i: int)
    requires Distinct(s)
    ensures Distinct(RemoveAt(s, i))
  {
    var r := RemoveAt(s, i);
    if 0 <= i < |s| {
      forall a, b | 0 <= a < b < |r|
        ensures r[a] != r[b]
      {
        var ia := if a < i then a else a + 1;
        var ib := if b < i then b else b + 1;
        assert r[a] == s[ia] && r[b] == s[ib] && ia < ib;
      }
    }
  }

  /** `Array.prototype.findIndex`: the first position whose element and index
      satisfy `pred`, or -1 when none does. */
  method FindIndex<T>(s: seq<T>, pred: (T, int) -> bool) returns (idx: int)
    ensures idx == -1 <==> forall j :: 0 <= j < |s| ==> !pred(s[j], j)
    ensures idx != -1 ==> 0 <= idx < |s| && pred(s[idx], idx)
    ensures idx != -1 ==> forall j :: 0 <= j < idx ==> !pred(s[j], j)
  {
    idx := 0;
    while idx < |s|
      invariant 0 <= idx <= |s|
      invariant forall j :: 0 <= j < idx ==> !pred(s[j], j)
    {
      if pred(s[idx], idx) {
        return;
      }
      idx := idx + 1;
    }
    idx := -1;
  }

  /** `Array.prototype.some`: whether some element satisfies `pred`. */
  method AnyMatch<T>(s: seq<T>, pred: T -> bool) returns (found: bool)
    ensures found <==> exists j :: 0 <= j < |s| && pred(s[j])
  {
    var i := 0;
    while i < |s|
      invariant 0 <= i <= |s|
      invariant forall j :: 0 <= j < i ==> !pred(s[j])
    {
      if pred(s[i]) {
        return true;
      }
      i := i + 1;
    }
    return false;
  }

  /** `Math.max(a, b)` on finite numbers. */
  function Max(a: real, b: real): (r: real)
    ensures r >= a && r >= b
    ensures r == a || r == b
  {
    if a >= b then a else b
  }

  /** `Math.round(x * 100) / 100`: `Math.round` is floor(y + 0.5), so halves
      round towards +infinity. */
  function Round2(x: real): (r: real)
    ensures x - 0.005 < r <= x + 0.005
  {
    ((x * 100.0 + 0.5).Floor as real) / 100.0
  }

  lemma FloorMonotone(a: real, b: real)
    requires a <= b
    ensures a.Floor <= b.Floor
  {
    assert a.Floor as real <= a;
    assert b < b.Floor as real + 1.0;
  }

  /** Rounding to two decimals never reverses the order of two numbers. */
  lemma Round2Monotone(x: real, y: real)
    requires x <= y
    ensures Round2(x) <= Round2(y)
  {
    FloorMonotone(x * 100.0 + 0.5, y * 100.0 + 0.5);
  }

  /** A whole number is its own two-decimal rounding. */
  lemma Round2Whole(n: int)
    ensures Round2(n as real) == n as real
  {
    var y := n as real * 100.0 + 0.5;
    assert (n * 100) as real <= y < (n * 100) as real + 1.0;
    assert y.Floor == n * 100;
  }
}
