/**
 * JavaScript values as they occur in the console's form state and in the
 * payloads it submits, with the handful of language and lodash operations the
 * template wizard relies on: truthiness, strict equality, string conversion,
 * property paths (`get`/`set`), one-level `flatten` and `filter(xs, Boolean)`.
 */
module Js {

  /**
   * A JavaScript value. Numbers are integers (the fields involved are CIDRs,
   * versions, flags and MTUs). Objects are records from property name to value;
   * arrays keep their order.
   */
  datatype JsValue =
    | Undefined
    | Null
    | Bool(b: bool)
    | Num(n: int)
    | Str(s: string)
    | Arr(items: seq<JsValue>)
    | Obj(props: map<string, JsValue>)

  /** ToBoolean: `undefined`, `null`, `false`, `0` and `""` are falsy, everything else truthy. */
  predicate Truthy(v: JsValue) {
    match v
    case Undefined => false
    case Null => false
    case Bool(b) => b
    case Num(n) => n != 0
    case Str(s) => s != ""
    case Arr(_) => true
    case Obj(_) => true
  }

  /** `===`: primitives compare by value; two array or object operands are taken to be distinct references. */
  predicate StrictEquals(a: JsValue, b: JsValue) {
    !a.Arr? && !a.Obj? && a == b
  }

  predicate IsNullish(v: JsValue) {
    v.Undefined? || v.Null?
  }

  /** `m[k]` on a record: `undefined` when the property is absent. */
  function Prop(m: map<string, JsValue>, k: string): JsValue {
    if k in m then m[k] else Undefined
  }

  /** `v.k` on a value that is not `null` or `undefined`: only objects carry the properties read here. */
  function Member(v: JsValue, k: string): JsValue {
    match v
    case Obj(m) => Prop(m, k)
    case _ => Undefined
  }

  /** lodash `get(v, path)`: walks the path, `undefined` as soon as a step is not an object. */
  function Path(v: JsValue, path: seq<string>): JsValue
    decreases |path|
  {
    if path == [] then v
    else match v
      case Obj(m) => Path(Prop(m, path[0]), path[1..])
      case _ => Undefined
  }

  /** The object `set` descends into at step `k`: the existing object, or a fresh `{}`. */
  function ChildFor(m: map<string, JsValue>, k: string): (c: JsValue)
    ensures c.Obj?
  {
    if k in m && m[k].Obj? then m[k] else Obj(map[])
  }

  /**
   * lodash `set(o, path, v)`: on an object, writes `v` at the end of the path,
   * replacing every missing or non-object step by a fresh `{}`; on anything
   * else it returns its argument unchanged.
   */
  function SetPath(o: JsValue, path: seq<string>, v: JsValue): (r: JsValue)
    requires path != []
    ensures o.Obj? ==> r.Obj? && Path(r, path) == v
    ensures o.Obj? ==> r.props.Keys == o.props.Keys + {path[0]}
    ensures o.Obj? ==> forall k :: k in o.props && k != path[0] ==> r.props[k] == o.props[k]
    ensures !o.Obj? ==> r == o
    decreases |path|
  {
    match o
    case Obj(m) => Obj(m[path[0] := Placed(m, path, v)])
    case _ => o
  }

  /** What `set(Obj(m), path, v)` stores under the path's first step. */
  function Placed(m: map<string, JsValue>, path: seq<string>, v: JsValue): JsValue
    requires path != []
    decreases |path|, 0
  {
    if |path| == 1 then v else SetPath(ChildFor(m, path[0]), path[1..], v)
  }

  /** Setting the same path to the same value twice is the same as setting it once. */
  lemma {:induction false} SetPathTwice(o: JsValue, path: seq<string>, v: JsValue)
    requires path != []
    ensures SetPath(SetPath(o, path, v), path, v) == SetPath(o, path, v)
    decreases |path|
  {
    if o.Obj? {
      var m, k := o.props, path[0];
      var once := Placed(m, path, v);
      var m1 := m[k := once];
      if |path| > 1 {
        assert ChildFor(m1, k) == once;
        SetPathTwice(ChildFor(m, k), path[1..], v);
      }
      assert Placed(m1, path, v) == once;
      assert m1[k := once] == m1;
    }
  }

  /** What `set` places under the first step of a path ignores the other properties of the object. */
  lemma PlacedElsewhere(m: map<string, JsValue>, k: string, x: JsValue, path: seq<string>, v: JsValue)
    requires path != [] && path[0] != k
    ensures Placed(m[k := x], path, v) == Placed(m, path, v)
  {
    assert ChildFor(m[k := x], path[0]) == ChildFor(m, path[0]);
  }

  /** Settings at two paths whose first steps differ do not interfere. */
  lemma SetPathCommutes(o: JsValue, p: seq<string>, v: JsValue, q: seq<string>, w: JsValue)
    requires p != [] && q != [] && p[0] != q[0]
    ensures SetPath(SetPath(o, p, v), q, w) == SetPath(SetPath(o, q, w), p, v)
  {
    if o.Obj? {
      var m := o.props;
      var x, y := Placed(m, p, v), Placed(m, q, w);
      PlacedElsewhere(m, p[0], x, q, w);
      PlacedElsewhere(m, q[0], y, p, v);
      assert m[p[0] := x][q[0] := y] == m[q[0] := y][p[0] := x];
    }
  }

  /** Decimal digits of a natural number. */
  function NatToString(n: nat): (s: string)
    ensures |s| > 0
    decreases n
  {
    if n < 10 then [('0' as int + n) as char]
    else NatToString(n / 10) + NatToString(n % 10)
  }

  /** The number a string of decimal digits denotes. */
  function DecimalValue(s: string): int
    decreases |s|
  {
    if s == [] then 0 else 10 * DecimalValue(s[..|s| - 1]) + (s[|s| - 1] as int - '0' as int)
  }

  /** `NatToString` writes decimal digits only, and they denote the number. */
  lemma {:induction false} NatToStringValue(n: nat)
    ensures forall i :: 0 <= i < |NatToString(n)| ==> '0' <= NatToString(n)[i] <= '9'
    ensures DecimalValue(NatToString(n)) == n
    decreases n
  {
    if n >= 10 {
      NatToStringValue(n / 10);
      var s := NatToString(n);
      assert s[..|s| - 1] == NatToString(n / 10);
    }
  }

  /** ToString of an integral Number. */
  function IntToString(n: int): string {
    if n < 0 then "-" + NatToString(-n) else NatToString(n)
  }

  /** `parts.join(",")`. */
  function JoinComma(parts: seq<string>): string {
    if parts == [] then ""
    else if |parts| == 1 then parts[0]
    else parts[0] + "," + JoinComma(parts[1..])
  }

  /**
   * ToString, as used by template literals and `window.btoa`: arrays are
   * joined with commas (their `null` and `undefined` elements as the empty
   * string), objects become "[object Object]".
   */
  function ToString(v: JsValue): string
    decreases v
  {
    match v
    case Undefined => "undefined"
    case Null => "null"
    case Bool(b) => if b then "true" else "false"
    case Num(n) => IntToString(n)
    case Str(s) => s
    case Arr(items) =>
      JoinComma(seq(|items|, i requires 0 <= i < |items| =>
        if IsNullish(items[i]) then "" else ToString(items[i])))
    case Obj(_) => "[object Object]"
  }

  /** The elements lodash `flatten` contributes for one element: an array is spliced, anything else kept. */
  function Spliced(x: JsValue): seq<JsValue> {
    match x
    case Arr(inner) => inner
    case _ => [x]
  }

  /** lodash `flatten` over the elements of an array: one level deep. */
  function FlattenItems(xs: seq<JsValue>): seq<JsValue> {
    if xs == [] then [] else Spliced(xs[0]) + FlattenItems(xs[1..])
  }

  /**
   * lodash `flatten(v)`: an array is flattened one level, a string is split
   * into its characters (it is array-like), anything else gives `[]`.
   */
  function Flatten(v: JsValue): (r: JsValue)
    ensures r.Arr?
    ensures v.Arr? ==> r.items == FlattenItems(v.items)
    ensures v.Str? ==> |r.items| == |v.s| && forall i :: 0 <= i < |v.s| ==> r.items[i] == Str([v.s[i]])
    ensures !v.Arr? && !v.Str? ==> r.items == []
  {
    match v
    case Arr(xs) => Arr(FlattenItems(xs))
    case Str(s) => Arr(seq(|s|, i requires 0 <= i < |s| => Str([s[i]])))
    case _ => Arr([])
  }

  /** Flattening distributes over concatenation: the order of the input is kept. */
  lemma {:induction false} FlattenItemsAppend(xs: seq<JsValue>, ys: seq<JsValue>)
    ensures FlattenItems(xs + ys) == FlattenItems(xs) + FlattenItems(ys)
  {
    if xs != [] {
      assert (xs + ys)[0] == xs[0];
      assert (xs + ys)[1..] == xs[1..] + ys;
      FlattenItemsAppend(xs[1..], ys);
      assert FlattenItems(xs + ys) == Spliced(xs[0]) + (FlattenItems(xs[1..]) + FlattenItems(ys));
      assert FlattenItems(xs) == Spliced(xs[0]) + FlattenItems(xs[1..]);
    } else {
      assert xs + ys == ys;
    }
  }

  /** Flattening an array that holds no arrays leaves it as it is. */
  lemma {:induction false} FlattenItemsOfFlat(xs: seq<JsValue>)
    requires forall i :: 0 <= i < |xs| ==> !xs[i].Arr?
    ensures FlattenItems(xs) == xs
  {
    if xs != [] {
      FlattenItemsOfFlat(xs[1..]);
    }
  }

  /** An element of the flattened array is a non-array element of the input or an element of an array in it. */
  lemma {:induction false} FlattenItemsMembers(xs: seq<JsValue>, y: JsValue)
    ensures y in FlattenItems(xs) <==>
      exists i :: 0 <= i < |xs| && ((!xs[i].Arr? && xs[i] == y) || (xs[i].Arr? && y in xs[i].items))
  {
    if xs != [] {
      FlattenItemsMembers(xs[1..], y);
      if y in FlattenItems(xs[1..]) {
        var i :| 0 <= i < |xs[1..]| && ((!xs[1..][i].Arr? && xs[1..][i] == y) || (xs[1..][i].Arr? && y in xs[1..][i].items));
        assert xs[i + 1] == xs[1..][i];
      }
      if exists i :: 0 <= i < |xs| && ((!xs[i].Arr? && xs[i] == y) || (xs[i].Arr? && y in xs[i].items)) {
        var i :| 0 <= i < |xs| && ((!xs[i].Arr? && xs[i] == y) || (xs[i].Arr? && y in xs[i].items));
        if i > 0 {
          assert xs[1..][i - 1] == xs[i];
        }
      }
    }
  }

  /** lodash `filter(xs, Boolean)` on an array: the truthy elements, in order. */
  function FilterTruthy(xs: seq<JsValue>): (r: seq<JsValue>)
    ensures forall x :: x in r ==> Truthy(x)
    ensures forall x :: x in xs && Truthy(x) ==> x in r
    ensures |r| <= |xs|
  {
    if xs == [] then [] else (if Truthy(xs[0]) then [xs[0]] else []) + FilterTruthy(xs[1..])
  }

  /** Filtering distributes over concatenation, so the kept elements stay in their original order. */
  lemma {:induction false} FilterTruthyAppend(xs: seq<JsValue>, ys: seq<JsValue>)
    ensures FilterTruthy(xs + ys) == FilterTruthy(xs) + FilterTruthy(ys)
  {
    if xs != [] {
      assert (xs + ys)[0] == xs[0];
      assert (xs + ys)[1..] == xs[1..] + ys;
      FilterTruthyAppend(xs[1..], ys);
      var head := if Truthy(xs[0]) then [xs[0]] else [];
      assert FilterTruthy(xs + ys) == head + (FilterTruthy(xs[1..]) + FilterTruthy(ys));
      assert FilterTruthy(xs) == head + FilterTruthy(xs[1..]);
    } else {
      assert xs + ys == ys;
    }
  }

  /** `v?.length` is truthy: a non-empty array or string. */
  predicate HasLength(v: JsValue) {
    (v.Arr? && |v.items| > 0) || (v.Str? && |v.s| > 0)
  }

  /** lodash `filter(v, Boolean)` on a collection: its truthy elements (a string's characters are all truthy). */
  function FilterBoolean(v: JsValue): (r: JsValue)
    ensures r.Arr?
    ensures v.Arr? ==> r.items == FilterTruthy(v.items)
    ensures v.Str? ==> r == Flatten(v)
  {
    match v
    case Arr(xs) => Arr(FilterTruthy(xs))
    case Str(s) => Flatten(v)
    case _ => Arr([])
  }
}
