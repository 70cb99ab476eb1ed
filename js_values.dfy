/** JavaScript values the client and the relay inspect: optional fields,
    string truthiness, and thrown values turned into text with `String(e)`. */
module JsValues {

  /** A field that may be absent (`undefined`/`null`) or hold a string. */
  datatype Option<T> = None | Some(value: T)

  /** `!!x` for a string field: present and not the empty string. */
  predicate Truthy(o: Option<string>) {
    o.Some? && o.value != ""
  }

  /** `a || b` where `a` is a string field and `b` a string. */
  function OrElse(a: Option<string>, b: string): (r: string)
    ensures Truthy(a) ==> r == a.value
    ensures !Truthy(a) ==> r == b
  {
    if Truthy(a) then a.value else b
  }

  /** A thrown value: an `Error` object (its `name` and `message`), or any
      other value, given by the string `message` property it may carry and
      by the text `String(v)` produces for it. */
  datatype Thrown =
    | ErrorObject(name: string, message: string)
    | NonError(messageProperty: Option<string>, shown: string)

  /** `err?.message`. */
  function MessageOf(e: Thrown): (m: Option<string>)
    ensures e.ErrorObject? ==> m == Some(e.message)
    ensures e.NonError? ==> m == e.messageProperty
  {
    match e
    case ErrorObject(_, message) => Some(message)
    case NonError(messageProperty, _) => messageProperty
  }

  /** `String(e)`; for an `Error` object this is `Error.prototype.toString`. */
  function Stringify(e: Thrown): (r: string)
    ensures e.ErrorObject? ==> (r == "" <==> e.name == "" && e.message == "")
    ensures e.ErrorObject? && e.name == "" ==> r == e.message
    ensures e.ErrorObject? && e.message == "" ==> r == e.name
    ensures e.ErrorObject? && e.name != "" && e.message != "" ==> r == e.name + ": " + e.message
    ensures e.NonError? ==> r == e.shown
  {
    match e
    case ErrorObject(name, message) =>
      if name == "" then message
      else if message == "" then name
      else name + ": " + message
    case NonError(_, shown) => shown
  }
}
