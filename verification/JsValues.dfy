/** The values that tool arguments, task records and job results consist of. */
module JsValues {

  datatype JsNumber = NaN | Infinite(positive: bool) | Finite(value: real)

  datatype JsValue =
    | Undefined
    | Null
    | Bool(b: bool)
    | Num(n: JsNumber)
    | Str(s: string)
    | Arr(items: seq<JsValue>)
    | Obj(fields: seq<(string, JsValue)>)
}
