/** The values a form's answers, defaults and guards hold, with Python's equality on them. */
module PyValues {

  /** A scalar answer. Floats are exact reals; NaN and the infinities are not form answers. */
  datatype Scalar = Null | Bool(b: bool) | Int(i: int) | Float(r: real) | Str(s: string)

  /** An answer: a scalar, or the rows of a `list` parameter (one scalar per column). */
  datatype Value = One(scalar: Scalar) | Table(rows: seq<map<string, Scalar>>)

  datatype Option<+T> = None | Some(value: T)

  datatype Result<+T, +E> = Ok(value: T) | Err(error: E)

  predicate IsNumeric(x: Scalar) {
    x.Bool? || x.Int? || x.Float?
  }

  /** The number Python compares by: `True` is 1 and `False` is 0. */
  function AsReal(x: Scalar): real
    requires IsNumeric(x)
  {
    match x
    case Bool(b) => if b then 1.0 else 0.0
    case Int(i) => i as real
    case Float(r) => r
  }

  /** Python's `==` on scalars: numbers, booleans included, compare by value. */
  predicate ScalarEq(x: Scalar, y: Scalar) {
    if IsNumeric(x) && IsNumeric(y) then AsReal(x) == AsReal(y) else x == y
  }

  /** Python's `==` on answers: tables compare row by row and cell by cell. */
  predicate PyEq(x: Value, y: Value) {
    match (x, y)
    case (One(a), One(b)) => ScalarEq(a, b)
    case (Table(r), Table(t)) =>
      |r| == |t| &&
      forall k | 0 <= k < |r| ::
        r[k].Keys == t[k].Keys && forall name | name in r[k] :: ScalarEq(r[k][name], t[k][name])
    case _ => false
  }

  predicate IsBool(x: Value) {
    x.One? && x.scalar.Bool?
  }

  /** Equality of two selections: never a boolean for a number, otherwise Python's `==`. */
  predicate SameValue(left: Value, right: Value) {
    IsBool(left) == IsBool(right) && PyEq(left, right)
  }
}
