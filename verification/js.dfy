/** The JavaScript values the handlers and components pass around, and the
    three fallback operators they use on them.

    A JavaScript object is a map from key to value; a key that is missing
    reads as `undefined`. Only the value kinds the portfolio code actually
    meets are modelled: arrays are arrays of strings (the `technologies`
    field), and numbers are integers (order fields, sizes). */
module Js {

  datatype JsVal =
    | Undefined
    | Null
    | Bool(b: bool)
    | Num(n: int)
    | Str(s: string)
    | Arr(items: seq<string>)

  type Obj = map<string, JsVal>

  /** `o.k` (or `o?.k` on an object that exists). */
  function Get(o: Obj, k: string): JsVal
  {
    if k in o then o[k] else Undefined
  }

  /** JavaScript truthiness: `undefined`, `null`, `false`, `0` and `''` are falsy. */
  predicate Truthy(v: JsVal)
  {
    match v
    case Undefined => false
    case Null => false
    case Bool(b) => b
    case Num(n) => n != 0
    case Str(s) => s != ""
    case Arr(_) => true
  }

  predicate Nullish(v: JsVal)
  {
    v.Undefined? || v.Null?
  }

  /** `a || b`: the first operand when it is truthy, else the second. */
  function Or(a: JsVal, b: JsVal): JsVal
  {
    if Truthy(a) then a else b
  }

  /** `a ?? b`: the first operand unless it is `null` or `undefined`. */
  function Coalesce(a: JsVal, b: JsVal): JsVal
  {
    if Nullish(a) then b else a
  }

  /** `a !== undefined ? a : b`. */
  function IfDefined(a: JsVal, b: JsVal): JsVal
  {
    if a != Undefined then a else b
  }

  /** What survives `JSON.stringify` of an object: keys whose value is
      `undefined` are dropped. */
  function Serialize(o: Obj): (r: Obj)
    ensures r.Keys <= o.Keys
    ensures forall k :: k in r ==> r[k] == o[k] && r[k] != Undefined
    ensures forall k :: k in o && o[k] != Undefined ==> k in r
  {
    map k | k in o && o[k] != Undefined :: o[k]
  }

  /** A row after an update or an upsert that hits an existing row: every
      column the serialized patch carries is overwritten, every other column
      keeps its value. */
  function Apply(row: Obj, patch: Obj): (r: Obj)
    ensures forall k :: k in patch && patch[k] != Undefined ==> k in r && r[k] == patch[k]
    ensures forall k :: k in row && (k !in patch || patch[k] == Undefined) ==> k in r && r[k] == row[k]
    ensures r.Keys <= row.Keys + patch.Keys
  {
    row + Serialize(patch)
  }

  /** Writing the same patch twice leaves the row as writing it once. */
  lemma ApplyIdempotent(row: Obj, patch: Obj)
    ensures Apply(Apply(row, patch), patch) == Apply(row, patch)
  {
    var once := Apply(row, patch);
    var twice := Apply(once, patch);
    assert twice.Keys == once.Keys;
    forall k | k in once
      ensures twice[k] == once[k]
    {
    }
  }

  /** Reading a key of a serialized object is reading it of the original:
      a dropped key held `undefined`, which is what a missing key reads as. */
  lemma SerializeGet(o: Obj, k: string)
    ensures Get(Serialize(o), k) == Get(o, k)
  {
  }

  /** Reading a key after a merge: the patch's value unless it is
      `undefined`, the row's value otherwise. */
  lemma ApplyGet(row: Obj, patch: Obj, k: string)
    ensures Get(patch, k) != Undefined ==> Get(Apply(row, patch), k) == Get(patch, k)
    ensures Get(patch, k) == Undefined ==> Get(Apply(row, patch), k) == Get(row, k)
  {
  }
}
