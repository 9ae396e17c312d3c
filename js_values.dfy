/** JavaScript values the news server passes around, reduced to what the model needs. */
module JsValues {

  /** A value that may be `undefined` (a missing property or an omitted argument). */
  datatype Option<+T> = None | Some(value: T)

  /** JavaScript truthiness of a string-or-undefined: `undefined` and `""` are falsy. */
  predicate Truthy(v: Option<string>)
  {
    v.Some? && v.value != ""
  }

  /** The expression `a || b` on strings-or-undefined. */
  function Or(a: Option<string>, b: Option<string>): (r: Option<string>)
    ensures Truthy(r) <==> Truthy(a) || Truthy(b)
    ensures Truthy(r) ==> r == (if Truthy(a) then a else b)
  {
    if Truthy(a) then a else b
  }

  /** A parameter with the default value `""`: `undefined` becomes the empty string. */
  function OrEmpty(v: Option<string>): (s: string)
    ensures s != "" <==> Truthy(v)
    ensures v.Some? ==> s == v.value
  {
    match v
    case Some(s) => s
    case None => ""
  }
}
