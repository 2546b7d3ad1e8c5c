/** The JavaScript values the request body can hand the endpoint, as far as the code tells
    them apart, and JavaScript's truthiness test on them. */
module JsValues {

  /** A JSON value, or `undefined` for a missing property. Numbers are modelled by their
      integer value. */
  datatype JsValue =
    | Undefined
    | Null
    | Bool(b: bool)
    | Number(n: int)
    | Str(s: string)
    | ArrayValue(items: seq<JsValue>)
    | ObjectValue

  /** `!!v`: `undefined`, `null`, `false`, `0` and `""` are falsy, everything else truthy. */
  predicate Truthy(v: JsValue) {
    match v
    case Undefined => false
    case Null => false
    case Bool(b) => b
    case Number(n) => n != 0
    case Str(s) => s != ""
    case ArrayValue(_) => true
    case ObjectValue => true
  }
}
