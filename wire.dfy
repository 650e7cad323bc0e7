/**
 * What crosses the boundary to the two webhooks: the JavaScript value that a
 * response body parses to, the operators `?.` and `??` on it, and the outcome
 * of one request (the network itself is not part of this model).
 */
module Wire {
  import opened Wrappers

  /** A JavaScript value as a parsed response body can hold it. */
  datatype Json =
    | Undefined
    | Null
    | Bool(b: bool)
    | Num(n: int)
    | Str(s: string)
    | Arr(items: seq<Json>)
    | Obj(props: map<string, Json>)

  /** `null` or `undefined`: the values that `??` and `?.` skip. */
  predicate IsNullish(v: Json) {
    v.Undefined? || v.Null?
  }

  /** `v?.key`: the property when `v` is an object that has it, otherwise
      `undefined` (also when `v` itself is `null` or `undefined`). */
  function Get(v: Json, key: string): (r: Json)
    ensures !v.Obj? ==> r == Undefined
    ensures v.Obj? && key !in v.props ==> r == Undefined
  {
    if v.Obj? && key in v.props then v.props[key] else Undefined
  }

  /** `a ?? b`. */
  function Coalesce(a: Json, b: Json): (r: Json)
    ensures !IsNullish(a) ==> r == a
    ensures IsNullish(a) ==> r == b
  {
    if IsNullish(a) then b else a
  }

  /** The outcome of one `axios.post`: it resolved with a body, or it threw,
      carrying `err.response?.data?.message` when that is a string. */
  datatype Outcome = Resolved(body: Json) | Rejected(serverMessage: Option<string>)

  /** `err.response?.data?.message || fallback`: the server's message when it is
      a non-empty string, the fixed fallback otherwise. */
  function FailureText(serverMessage: Option<string>, fallback: string): (r: string)
    ensures serverMessage.Some? && serverMessage.value != "" ==> r == serverMessage.value
    ensures serverMessage.None? || serverMessage.value == "" ==> r == fallback
    ensures r != "" <==> fallback != "" || (serverMessage.Some? && serverMessage.value != "")
  {
    match serverMessage
    case Some(m) => if m != "" then m else fallback
    case None => fallback
  }
}
