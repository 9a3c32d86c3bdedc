/** JavaScript values that the product form handling produces. */
module Js {

  /** A JavaScript number as `parseFloat`/`parseInt` return it. */
  datatype Number = NaN | Finite(value: real)

  /** JavaScript truthiness of a number: `NaN` and `0` are falsy. */
  predicate NumberIsTruthy(n: Number) {
    n.Finite? && n.value != 0.0
  }

  /** A value `JSON.parse` can return. */
  datatype Json =
    | JNull
    | JBool(b: bool)
    | JNumber(n: real)
    | JString(s: string)
    | JArray(elements: seq<Json>)
    | JObject(members: seq<(string, Json)>)
}
