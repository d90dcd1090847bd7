/** Types and units shared by every component of the model.

Instants and durations are integers counting nanoseconds.  A `time.Time` that may be zero is an
`Option<int>`: `None` is the zero time.
*/
module Base {

  datatype Option<+T> = None | Some(value: T)

  datatype Result<+T, +E> = Ok(value: T) | Err(error: E)

  datatype Severity = Info | Warning | Critical

  const SECOND: int := 1_000_000_000
  const MINUTE: int := 60 * SECOND
  const HOUR: int := 60 * MINUTE

  function Max(a: int, b: int): int {
    if a < b then b else a
  }

  function Min(a: int, b: int): int {
    if a < b then a else b
  }
}
