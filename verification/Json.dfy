/** JSON values as Python holds them, with the two equalities the control plane uses. */
module Json {
  datatype Json =
    | Null
    | Bool(b: bool)
    | Int(i: int)
    | Float(r: real)
    | Str(s: string)
    | List(items: seq<Json>)
    | Obj(fields: map<string, Json>)

  predicate IsNumber(j: Json) { j.Int? || j.Float? }

  function NumberOf(j: Json): real
    requires IsNumber(j)
  {
    if j.Int? then j.i as real else j.r
  }

  /** The number a value counts as under Python's `==`, where booleans are integers. */
  predicate IsNumeric(j: Json) { IsNumber(j) || j.Bool? }

  function NumericOf(j: Json): real
    requires IsNumeric(j)
  {
    if j.Bool? then (if j.b then 1.0 else 0.0) else NumberOf(j)
  }

  /** Python's `==`: true equals 1 and 1 equals 1.0, at every nesting level. */
  predicate LooseEqual(a: Json, b: Json) {
    if IsNumeric(a) && IsNumeric(b) then NumericOf(a) == NumericOf(b)
    else match (a, b)
      case (Null, Null) => true
      case (Str(x), Str(y)) => x == y
      case (List(xs), List(ys)) => |xs| == |ys| && forall i | 0 <= i < |xs| :: LooseEqual(xs[i], ys[i])
      case (Obj(xs), Obj(ys)) => xs.Keys == ys.Keys && forall k | k in xs :: LooseEqual(xs[k], ys[k])
      case _ => false
  }

  /** `_strict_equal` on present values: null and booleans equal only themselves, numbers
      compare by value, anything else needs the same type. */
  predicate StrictEqual(actual: Json, expected: Json) {
    if actual.Null? || expected.Null? then actual == expected
    else if actual.Bool? || expected.Bool? then actual == expected
    else if IsNumber(actual) && IsNumber(expected) then NumberOf(actual) == NumberOf(expected)
    else if !SameType(actual, expected) then false
    else LooseEqual(actual, expected)
  }

  predicate SameType(a: Json, b: Json) {
    || (a.Str? && b.Str?) || (a.List? && b.List?) || (a.Obj? && b.Obj?)
    || (a.Int? && b.Int?) || (a.Float? && b.Float?)
  }
}
