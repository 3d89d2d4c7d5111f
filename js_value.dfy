/** The JavaScript values that spreadsheet rows, CSV rows and JSON bodies
    hold, with the operators the source applies to them: truthiness,
    `==  null`, `??`, `||`, property access, `String(v)` and `Number(v)`. */
module Js {
  import opened Text
  import opened Numeral

  /** A primitive JavaScript value. Numbers are finite. */
  datatype Value = Undefined | Null | Bool(b: bool) | Num(x: real) | Str(s: string)

  /** A spreadsheet or CSV row: column name to cell. */
  type Row = map<string, Value>

  /** `v == null` (loose equality): true of `null` and `undefined` only. */
  predicate IsNullish(v: Value)
  {
    v.Undefined? || v.Null?
  }

  /** JavaScript truthiness: `0`, `""`, `false`, `null` and `undefined` are falsy. */
  predicate Truthy(v: Value)
  {
    match v
    case Undefined => false
    case Null => false
    case Bool(b) => b
    case Num(x) => x != 0.0
    case Str(s) => s != ""
  }

  /** Truthiness of a `number | null`. */
  predicate TruthyNum(o: Option<real>)
  {
    o.Some? && o.value != 0.0
  }

  /** A `number | null` as a JavaScript value. */
  function FromOption(o: Option<real>): Value
  {
    match o
    case None => Null
    case Some(x) => Num(x)
  }

  /** `r.key` (or `r["key"]`): a missing property reads as `undefined`. */
  function Get(r: Row, key: string): Value
  {
    if key in r then r[key] else Undefined
  }

  /** The cells of `r` under `keys`, in order. */
  function Fields(r: Row, keys: seq<string>): (vs: seq<Value>)
    ensures |vs| == |keys|
    ensures forall i :: 0 <= i < |keys| ==> vs[i] == Get(r, keys[i])
  {
    if keys == [] then [] else [Get(r, keys[0])] + Fields(r, keys[1..])
  }

  /** `vs[0] ?? vs[1] ?? ... ?? vs[n-1]`: the first operand that is neither
      `null` nor `undefined`, or the last operand when all of them are. */
  function Coalesce(vs: seq<Value>): (r: Value)
    ensures forall k :: 0 <= k < |vs| && !IsNullish(vs[k]) && (forall j :: 0 <= j < k ==> IsNullish(vs[j])) ==> r == vs[k]
    ensures (forall k :: 0 <= k < |vs| ==> IsNullish(vs[k])) ==> r == if vs == [] then Undefined else vs[|vs| - 1]
  {
    if vs == [] then Undefined
    else if |vs| == 1 || !IsNullish(vs[0]) then vs[0]
    else
      var r := Coalesce(vs[1..]);
      assert forall k :: 1 <= k < |vs| ==> vs[k] == vs[1..][k - 1];
      r
  }

  /** `vs[0] || vs[1] || ... || vs[n-1]`: the first truthy operand, or the
      last operand when none is truthy. */
  function OrChain(vs: seq<Value>): (r: Value)
    ensures forall k :: 0 <= k < |vs| && Truthy(vs[k]) && (forall j :: 0 <= j < k ==> !Truthy(vs[j])) ==> r == vs[k]
    ensures (forall k :: 0 <= k < |vs| ==> !Truthy(vs[k])) ==> r == if vs == [] then Undefined else vs[|vs| - 1]
  {
    if vs == [] then Undefined
    else if |vs| == 1 || Truthy(vs[0]) then vs[0]
    else
      var r := OrChain(vs[1..]);
      assert forall k :: 1 <= k < |vs| ==> vs[k] == vs[1..][k - 1];
      r
  }

  /** An `||` chain is truthy exactly when one of its operands is. */
  lemma {:induction false} OrChainTruthy(vs: seq<Value>)
    ensures Truthy(OrChain(vs)) <==> exists k :: 0 <= k < |vs| && Truthy(vs[k])
  {
    if |vs| > 1 && !Truthy(vs[0]) {
      OrChainTruthy(vs[1..]);
      if exists k :: 0 <= k < |vs| && Truthy(vs[k]) {
        var k :| 0 <= k < |vs| && Truthy(vs[k]);
        assert vs[1..][k - 1] == vs[k];
      }
    }
  }

  /** A `??` chain is nullish exactly when all of its operands are. */
  lemma {:induction false} CoalesceNullish(vs: seq<Value>)
    requires vs != []
    ensures IsNullish(Coalesce(vs)) <==> forall k :: 0 <= k < |vs| ==> IsNullish(vs[k])
  {
    if |vs| > 1 && IsNullish(vs[0]) {
      CoalesceNullish(vs[1..]);
      assert forall k :: 1 <= k < |vs| ==> vs[k] == vs[1..][k - 1];
    }
  }

  /** `String(v)` */
  function ToStr(v: Value): string
  {
    match v
    case Undefined => "undefined"
    case Null => "null"
    case Bool(b) => if b then "true" else "false"
    case Num(x) => NumberToString(x)
    case Str(s) => s
  }

  /** `Number(v)`; `None` is NaN. */
  function ToNumber(v: Value): Option<real>
  {
    match v
    case Undefined => None
    case Null => Some(0.0)
    case Bool(b) => Some(if b then 1.0 else 0.0)
    case Num(x) => Some(x)
    case Str(s) => StringToNumber(s)
  }

  /** The string of a number is never blank, so a number always passes a
      "non-blank after `String(v).trim()`" test. */
  lemma NumberNotBlank(x: real)
    ensures Trim(ToStr(Num(x))) == ToStr(Num(x)) != ""
  {
    NumberToStringShape(x);
    TrimOfTrimmed(NumberToString(x));
  }
}
