/**
 * The JavaScript values that reach the controllers: request payloads as
 * JSON.parse produces them, plus `undefined`. Numbers are exact reals, so NaN,
 * the infinities and floating-point rounding are outside the model.
 */
module Js {

  datatype Option<+T> = None | Some(value: T)

  datatype JsValue =
    | Undefined
    | Null
    | Bool(b: bool)
    | Num(n: real)
    | Str(s: string)
    | Arr(items: seq<JsValue>)
    | Obj(props: map<string, JsValue>)

  /** JavaScript's ToBoolean: `if (v)` takes its branch exactly when Truthy(v). */
  predicate Truthy(v: JsValue)
  {
    match v
    case Undefined => false
    case Null => false
    case Bool(b) => b
    case Num(n) => n != 0.0
    case Str(s) => s != ""
    case Arr(_) => true
    case Obj(_) => true
  }

  /** The five falsy values, and nothing else, fail a truthiness test. */
  lemma FalsyValues(v: JsValue)
    ensures !Truthy(v) <==> v in {Undefined, Null, Bool(false), Num(0.0), Str("")}
  {
  }

  /** Reading any property of these values throws a TypeError. */
  predicate Nullish(v: JsValue)
  {
    v.Undefined? || v.Null?
  }

  /**
   * `v[key]` on a value that is neither null nor undefined: an own property
   * of an object, `undefined` otherwise. The controllers read only named
   * fields that no built-in prototype defines, so inherited properties
   * (such as a string's `length`) are not modelled.
   */
  function Prop(v: JsValue, key: string): JsValue
    requires !Nullish(v)
  {
    if v.Obj? && key in v.props then v.props[key] else Undefined
  }

  /**
   * The destructuring `const { data = {} } = req.body`: None when it throws
   * (the body is null or undefined), otherwise the `data` property, with an
   * absent one replaced by a fresh empty object.
   */
  function DataOf(body: JsValue): (r: Option<JsValue>)
    ensures r.None? <==> Nullish(body)
    ensures r.Some? ==> r.value != Undefined
    ensures r.Some? && Prop(body, "data") != Undefined ==> r.value == Prop(body, "data")
    ensures r.Some? && Prop(body, "data") == Undefined ==> r.value == Obj(map[])
  {
    if Nullish(body) then None
    else
      var data := Prop(body, "data");
      if data == Undefined then Some(Obj(map[])) else Some(data)
  }
}
