/**
 * A property read from a parsed JSON request body, as JavaScript sees it after
 * `await request.json()`: missing, `null`, a string, or some other value with its truthiness.
 * The string is a sequence of characters `C`, so the same shape serves routes that keep
 * UTF-16 code units and routes that keep whole characters.
 */
module Json {
  datatype Field<C> =
    | Absent                          // `undefined`: the key is missing, or the body is a non-null primitive
    | JsonNull
    | JsonString(units: seq<C>)
    | JsonOther(truthy: bool)         // a number, boolean, array or object

  /** `!value` for a JSON value: `undefined`, `null`, `""`, `0`, `false`. */
  predicate Falsy<C>(f: Field<C>) {
    f.Absent? || f.JsonNull? || (f.JsonString? && f.units == []) || (f.JsonOther? && !f.truthy)
  }
}
