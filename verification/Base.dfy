/**
 * Wrappers shared by every module: Rust's `Option` and `Result`, and
 * `Outcome`, which makes a panic of the source an explicit value.
 */
module Base {
  datatype Option<+T> = None | Some(value: T)

  datatype Result<+T, +E> = Ok(value: T) | Err(error: E)

  /** The end of a computation that may panic (an `unwrap` on `None`, an index out of bounds). */
  datatype Outcome<+T> = Done(value: T) | Panic(message: string)

  /** The panic message of `Option::unwrap` on `None`. */
  const UnwrapNone: string := "called `Option::unwrap()` on a `None` value"

  /** `field?.ok()?`: the value of a field that must be present and parsed. */
  function Required<T, E>(field: Option<Result<T, E>>): (r: Option<T>)
    ensures r.Some? <==> field.Some? && field.value.Ok?
    ensures r.Some? ==> field == Some(Ok(r.value))
  {
    match field
    case Some(Ok(v)) => Some(v)
    case _ => None
  }
}
