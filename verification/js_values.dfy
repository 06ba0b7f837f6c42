/** The part of JavaScript's value model that reading a parsed JSON body
    needs: the JSON values, `undefined`, and property access, which throws
    a TypeError on `undefined` and `null`. */
module JsValues {

  import opened Common

  /** A JSON value as parsed by the HTTP client, plus `undefined`. Numbers
      are opaque: the model never computes with them, so an integer stands
      in for each one. */
  datatype Js =
    | Undefined
    | Null
    | Bool(b: bool)
    | Num(n: int)
    | Str(s: string)
    | Arr(items: seq<Js>)
    | Obj(fields: map<string, Js>)

  /** The key of a property access: `v.name` or `v[i]`. */
  datatype Key = Name(name: string) | Index(i: nat)

  /** The two values on which property access throws. */
  predicate Nullish(v: Js) {
    v.Undefined? || v.Null?
  }

  function DigitChar(d: nat): char
    requires d < 10
  {
    "0123456789"[d]
  }

  /** The canonical decimal spelling of an index, the property name that
      `o[i]` reads on a plain object. */
  function DecimalName(i: nat): string
    decreases i
  {
    if i < 10 then [DigitChar(i)] else DecimalName(i / 10) + [DigitChar(i % 10)]
  }

  /** The value of `v.name` or `v[i]` on a value that is not nullish: an own
      property, or `undefined`. Inherited members are not modelled; none of
      the names read by the weather normaliser is one. */
  function Lookup(v: Js, k: Key): Js
    requires !Nullish(v)
  {
    match (v, k)
    case (Obj(f), Name(n)) => if n in f then f[n] else Undefined
    case (Obj(f), Index(i)) =>
      var n := DecimalName(i);
      if n in f then f[n] else Undefined
    case (Arr(items), Index(i)) => if i < |items| then items[i] else Undefined
    case (Str(s), Index(i)) => if i < |s| then Str([s[i]]) else Undefined
    case _ => Undefined
  }

  /** Evaluates the access chain `v.k1.k2...kn`: `None` when some step is
      applied to a nullish value (a TypeError), otherwise the final value,
      which may itself be `undefined`. */
  function Path(v: Js, ks: seq<Key>): (r: Option<Js>)
    decreases |ks|
  {
    if ks == [] then Some(v)
    else if Nullish(v) then None
    else Path(Lookup(v, ks[0]), ks[1..])
  }
}
