/** The values a page record holds. Front matter is loaded from YAML, so a
    field may hold any JavaScript value; only whether it is truthy matters
    to the build, and plain text is kept as text. */
module Pages {
  import opened Wrappers

  /** A JavaScript value as the build sees it. Arrays, objects and dates are
      `Composite`, told apart only by an identity. */
  datatype Value =
    | Undefined
    | Null
    | Bool(b: bool)
    | Number(n: int)
    | Text(s: string)
    | Composite(id: nat)

  /** JavaScript truthiness. */
  predicate Truthy(v: Value)
  {
    match v
    case Undefined => false
    case Null => false
    case Bool(b) => b
    case Number(n) => n != 0
    case Text(s) => s != ""
    case Composite(_) => true
  }

  /** `a || b`. */
  function Or(a: Value, b: Value): Value
  {
    if Truthy(a) then a else b
  }

  /** A thrown error. */
  datatype Exception = Exception(message: string)

  /** A page record: the fields the build reads and writes by name, the
      rendered HTML under `markdown.html` when there is one, and every other
      field the page carries. */
  datatype Page = Page(
    path: string,
    title: Value,
    description: Value,
    layout: Value,
    html: Option<string>,
    custom: map<string, Value>)

  /** `data[key]` on a plain record: `undefined` when the key is missing. */
  function Field(data: map<string, Value>, key: string): Value
  {
    if key in data then data[key] else Undefined
  }
}
