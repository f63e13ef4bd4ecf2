/**
 * The maplibre style expressions the frontend builds: JSON arrays whose
 * items are strings, numbers, nested arrays, or `undefined` (an array read
 * past its end).
 */
module Expression {
  datatype Expr = Str(s: string) | Num(n: real) | List(items: seq<Expr>) | Undefined

  /** `["get", name]`: the feature property `name`. */
  function Get(name: string): Expr
  {
    List([Str("get"), Str(name)])
  }
}
